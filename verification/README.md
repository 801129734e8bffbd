# tnfsd: a verified model

tnfsd serves files to 8-bit machines over TNFS, a request/reply protocol on UDP and TCP with retries. This
project models the server's logic and proves what it promises.

| files | part of the server |
|---|---|
| Glob, GlobMeaning, Pattern | the ignore globs of `.ignore` files and the wildcard of OPENDIRX |
| EntryOrder, DirList | order and in-place merge sort of directory listings |
| Listing, ListingOrder, Paging | building a listing, and READDIRX, SEEKDIR and TELLDIR over it |
| DirHandle, Handles, DirCommands, LongPatterns | the eight directory handles of a session and the cache in them |
| Atari | the virtual ATR disk image |
| Paths, Auth | path construction, file name checks, read-only mode |
| FileCommands, FileTable | file descriptors and the commands on them |
| Commands, Protocol, Replies | dispatch, the saved reply, exactly-once execution |
| Ownership, Os | who holds which descriptor |
| Sessions, SessionTable, Connections | the session table and the TCP connection slots |
| Server, Runs | the main loop as a state machine and what holds in every state it reaches |
| Projection | what one session sees of a whole run |
| Requests, Reading, Browsing, DirTrips, FileTrips, ImageTrips, Trees, Mounts, Outcomes | what a client gets, in its own bytes, from one request and from several in a row |
| Shuffle | the prime step of the shuffled listing of the extended-directory build |
| CStrings, Endian, Status | characters, byte order, status codes |

The imperative parts (the matchers, the list sort, the packing loops, the slot and session tables, the Atari
reader, the buffers) are methods and classes that update their state in place. Each is proved against a
function on values, and the theorems are about those functions. The clock, the random numbers, the
descriptors the system hands out and every answer of the file system are inputs.

## What the proofs found

- Three or more unescaped stars at the end of a glob can lose a match (`Glob.TripleStarTailLosesMatch`), exactly
  when the loop comes to them with text left (`Glob.LoopDecidesGlob`).
- `**/b` also matches names that only end in b, although the code's comment speaks of directories
  (`GlobMeaning.WordAnywhere`).
- A deprecated OPEN whose second flag byte is odd opens for reading, whatever its first one asks for: all its bits but
  0x08 are dropped where one would be added (`FileTrips.OddOldOpensRead`).
- Sizes or times 2^31 or more apart can be sorted the wrong way round; the sort is right exactly for entries with
  no such pair (`EntryOrder.SortsExactlyCloseKeys`).
- A pattern of 256 or more characters is walked whole but remembered cut to 255, so its listing is later served to a
  request for those 255 (`LongPatterns.LongPatternServesShorter`); any other request served from the cache gets the
  listing of its own path, options and pattern (`Runs.ReuseInEveryState`).
- A position in a READDIRX reply wraps at 65536 entries (`Paging.DirposThenSeek`).
- Refused requests and CHMOD are not recorded. After 255 of them in a row the next request carries the recorded
  number again and is taken for a retry (`Protocol.FreshIsPerformed`, `Protocol.LongSilenceLosesRequest`,
  `Protocol.ChmodsLoseRequest`).
- A further copy of an UMOUNT finds no session and is answered EBADSESSION instead of the bytes of the first answer;
  all other copies get those (`Protocol.OnlyUmountIsAnsweredAnew`, `Runs.RepeatedUmount`).
- A repeated MOUNT is not recognised as one: it adds a session (`Sessions.MountAddsSession`) or, at sixteen, ends one
  that is alive, even if it fails (`Sessions.MountRecyclesFirst`). Exactly-once execution starts after it.
- A MOUNT that draws 0 for the new ID fails, although other IDs are free (`Mounts.MountSucceeds`).
- The mount check looks at 255 characters of the root prefix, file paths are built from up to 383. A longer mount
  root can lead outside the served root (`Sessions.MountAdmitsLongRoot`); accepted names stay inside exactly when the
  root prefix does (`Paths.NamesStayInsideExactly`, `Runs.NoNameLeadsOutside`).
- The shuffle stays on one entry when its step is the number of entries (`Shuffle.ShuffleVisitsEachOnce`), which
  happens when that number is a prime of at least 5 and the low byte of the seed is 0.

Where the code and its own text disagree the model follows the code: the ATR header holds 0x4000 paragraphs, not
the 0x1FC0 its comments say (src/atari.c:69-71); CHMOD, an unterminated MOUNT and a request from a foreign
address get no reply although the protocol description promises one for every command; the description numbers UMOUNT
0 whatever came before (`Sessions.UmountWithMountsNumberIsLost`); the session recycled is the first in the
table, though the log calls it the oldest (src/session.c:322); a new ID is drawn 255 times, not 256
(src/session.c:390-401); a connection timeout of 0 would close connections after a second instead of never
(src/config.h:33).

## Model

| member | source | states |
|---|---|---|
| `Glob.LoopDecidesGlob` | src/match.c:18-143 | The loop, which keeps only the latest `*` and the latest `**/`, is sound for every text and glob against the recursive relation, and misses a match exactly when it comes to three or more stars that end the glob with text left; on a glob that does not end in three unescaped stars it is exact |
| `Glob.ExactOnText` | src/match.c:18-143 | A condition on the glob's text alone: a glob that does not end in `***`, and so any in which every `**` is followed by `/` or by the end, is decided exactly, for every text |
| `Glob.RunDecides` | src/match.c:42-143 | From any state reachable with the two saved points, the rest of the run answers what the relation says of the whole match, but for coming to final stars with text left |
| `Glob.TripleStarTailLosesMatch` | src/match.c:50-57 | The excluded family is not empty: `*a***` matches `aba` by the relation and is refused by the loop |
| `Glob.LoopCost` | src/match.c:42-137 | Every match ends within n(n+2)(m+1)+m turns of the loop, for n text and m glob characters |
| `Glob.GitignoreGlobMatch` | src/match.c:18-143 | The loop with its four backup positions answers what LoopDecidesGlob relates to the glob's meaning, with every index in range |
| `Glob.ScanClass` | src/match.c:90-107 | Scanning a bracket class accepts exactly the characters its ranges (or their complement) hold, never a slash, and stops where the class ends, at the end of the glob if it is unterminated |
| `Glob.StartOfMatch` | src/match.c:25-41 | A leading slash anchors the match after any `./`, a glob without slashes is matched against the last component |
| `Glob.NewStarSubsumesOld` | src/match.c:65-68 | Forgetting an older `*` when a new one is met loses no match: whatever the old one could still reach, the new one can |
| `Glob.NewDoubleStarSubsumesOld` | src/match.c:58-63 | Forgetting both saved points when a `**/` is met loses no match |
| `Glob.InvRetryDoubleStar` | src/match.c:129-135 | Resuming `**/` one character on, with the `*` point left stale, loses no match |
| `GlobMeaning.WordsMatch` | src/match.c:74-127 | A glob without `*`, brackets and backslashes matches a name exactly if it fits character by character: `?` takes anything but a slash, any other character itself in either case |
| `GlobMeaning.LiteralsMatch` | src/match.c:112-120 | A glob without wildcards matches a name exactly if they have the same length and differ in case at most |
| `GlobMeaning.EscapedCharacter` | src/match.c:109-120 | A character behind a backslash stands for itself, whatever it is |
| `GlobMeaning.WordsMatchBasename` | src/match.c:36-41 | A word without a slash is compared with the last component of a path, whatever stands before it |
| `GlobMeaning.PathsMatch` | src/match.c:25-41 | A word with a slash inside is compared with the whole path |
| `GlobMeaning.AnchoredWords` | src/match.c:26-35 | A word behind a leading slash is compared with the whole path, which may start with a slash or `./` |
| `GlobMeaning.StarBetweenWords` | src/match.c:46-73 | A star between two words takes any characters but slashes: the text must start as the first word and end as the second, and be long enough for both |
| `GlobMeaning.AllBelow` | src/match.c:54-55 | `dir/**` matches exactly the paths that start with `dir/` |
| `GlobMeaning.WordAnywhere` | src/match.c:56-64 | `**/word` matches exactly the non-empty texts that end in the word, whether or not a slash stands before it |
| `GlobMeaning.DoubleStarTakesPartOfName` | src/match.c:56-64 | So `**/b` takes in `ab`, which is in no directory |
| `GlobMeaning.ClassTakes` | src/match.c:90-107 | A bracket class takes exactly the characters written in it, in either case, those between the lowered ends of a span, and the lower end of a span |
| `GlobMeaning.InvertedClassTakes` | src/match.c:90-107 | Behind `^` or `!` it takes exactly the others, and never a slash |
| `GlobMeaning.CaseIsIgnored` | src/match.h:8-10 | Changing the case of any letters of text and glob never changes the answer of the loop, on any glob |
| `Pattern.FromTheBack` | src/directory.c:899-925 | The relation read from the front and the table's rule read from the back agree: a last plain character or `?` matches one character, for all strings |
| `Pattern.StarCell` | src/directory.c:904-910 | A star cell is the cell above or the cell to the left, which is the relation for a pattern ending in `*` |
| `Pattern.PatternMatch` | src/directory.c:870-932 | The bottom-up table decides exactly the recursive case-insensitive `*`/`?` relation, for all names and patterns |
| `Pattern.WordsAndStar` | src/directory.c:870-932 | Without a star the name must fit the pattern character by character in either case, `?` taking any; with one star, its front and its back must, without overlap |
| `Pattern.CaseIsIgnored` | src/directory.c:915-919 | Changing the case of any letters of name and pattern never changes the answer |
| `EntryOrder.CompareExact` | src/directory.c:1250-1275 | The 32-bit comparison orders two entries by their keys if and only if their sizes (or times) differ by less than 2^31 when sorted by them |
| `EntryOrder.KeyLessOrders` | src/directory.c:1250-1275 | The key order is a strict weak order |
| `EntryOrder.StableSortMeaning` | src/directory.c:1195-1203 | The reference sort yields the same entries, sorted, with equal keys in their original order |
| `EntryOrder.MergeOfStableSorts` | src/directory.c:1241-1287 | Merging two sorted halves with the code's tie rule is the stable sort of the second half followed by the first |
| `EntryOrder.MergeSortIsStableOnReversed` | src/directory.c:1241-1326 | The merge sort is the stable sort of its input reversed: sorted, equal keys in exactly the reverse of input order |
| `EntryOrder.MergeSortKeeps` | src/directory.c:1305-1326 | Whatever the keys, the sort loses and invents no entry |
| `EntryOrder.SortsExactlyCloseKeys` | src/directory.c:1241-1326 | The sort yields sorted lists from all entries of a set if and only if every two of them have keys less than 2^31 apart |
| `EntryOrder.FarKeysMissort` | src/directory.c:1252-1275 | Of any two entries further apart, one order of input comes out wrong |
| `EntryOrder.FarSizesMissort` | src/directory.c:1252-1275 | For one, sizes of 0 and 3 GB come out in descending order |
| `DirList.SortInPlace` | src/directory.c:1305-1332 | Relinking in place leaves one well-formed acyclic list of the same nodes in the order of the merge sort |
| `DirList.MergeInPlace` | src/directory.c:1241-1287 | The recursive relinking merge of two disjoint lists is one list of exactly their nodes, in merge order |
| `DirList.SortNodesEntries` | src/directory.c:1305-1326 | What the relinked nodes carry, in list order, is the merge sort of the entries |
| `DirList.SortNodesSame` | src/directory.c:1305-1326 | The sorted list has the same nodes, each as often as before |
| `DirList.PushThenSortIsStable` | src/directory.c:1195-1203 | Pushing entries to the front and then sorting gives equal keys in the order they were enumerated |
| `DirList.GetMiddle` | src/directory.c:1289-1303 | Slow and fast pointer stop at the last node of the first half |
| `DirList.Cut` | src/directory.c:1316-1320 | Cutting after the middle leaves two well-formed lists that join to the old one |
| `DirList.Concat` | src/directory.c:1181-1193 | The lists are joined in order, either of them possibly empty |
| `DirList.Push` | src/directory.c:1195-1203 | The node becomes the head and the list keeps its order |
| `DirList.GetNodeAtIndex` | src/directory.c:1206-1213 | The node at the index, or null from the end on |
| `DirList.GetIndexForNode` | src/directory.c:1216-1228 | The index of the node, or the length when it is not in the list (null included) |
| `Listing.ArrangedAsWanted` | src/directory.c:1012-1048 | Directories first and then files, or one group, each a stable sort of the enumeration, or in reverse enumeration order when sorting is off |
| `Listing.ArrangedKeeps` | src/directory.c:1012-1048 | No entry is lost or doubled by partition, sorting and joining |
| `Listing.List` | src/directory.c:935-1066 | Both listers: the list is the arrangement of the first maxresults entries that pass the filters, and the count is its length modulo 65536 |
| `Listing.Collect` | src/directory.c:960-1036 | The loop over the enumeration keeps exactly the entries that pass, up to maxresults (0 meaning all), each in its group |
| `Listing.LoadAdmits` | src/directory.c:963-1004 | The filters of the plain lister in its order: ignore list, then status, then pattern, hidden, special and folder options |
| `Listing.WalkAdmits` | src/traverse.c:83-125 | The filters of the walk callback in its own order admit exactly what its rules list |
| `Listing.AnyMatches` | src/directory.c:964-975 | A name is ignored when any ignore glob matches it |
| `ListingOrder.StrCmpIsOrder` | src/directory.c:1265-1269 | The comparison is negative exactly when the first name ends where the second goes on, or has the smaller byte where they first differ, letters lowered unless case counts |
| `ListingOrder.ListingInOrder` | src/directory.c:1012-1048 | By the option bytes of the request, bit by bit: n directories and then the rest, or one group; each group ascends, or descends, by size, time or name, equal keys in the order of the enumeration; or it is the enumeration backwards |
| `Browsing.PlainListing` | src/directory.c:963-1004 | A plain listing keeps a name exactly if it can be examined, its flags are not hidden by the option bits, no ignore pattern matches it, and the wildcard does, directories spared unless bit 0x08 is set |
| `Browsing.WalkedListing` | src/traverse.c:83-125 | A walk keeps a file exactly if the same holds with its path below the root, with and without leading slash, and the glob matches the former |
| `Browsing.KeptShows` | src/directory.c:1005-1026 | The entries are those of the finds that are kept, each once and in order, with size, both times, the flags of a directory and the name cut to 255 characters |
| `Browsing.OpeningLists` | src/directory.c:1069-1177 | OPENDIRX answers with a handle and the number of entries, the handle then has the listing asked for, unread, and one directory was listed |
| `Browsing.ClientSeesDirectory` | src/directory.c:737-1177 | What OPENDIRX and then READDIRX requests with any counts bring, from any state: the kept files, each once and with its data, the first max of them, directories first, each part in the order asked for |
| `Browsing.WalkIsServedAgain` | src/directory.c:1405-1482 | A walk that was closed and is asked for again within 300 s is answered from the cache: the same listing, from its start, and nothing is walked |
| `Paging.TakenIsLongest` | src/directory.c:819-855 | A page is the longest prefix of what is left that the buffer and the requested count allow |
| `Paging.PageCount` | src/directory.c:819-855 | A page holds at least one entry and at most 37 |
| `Paging.PageFits` | src/directory.c:737-867 | A page is at most 527 bytes, the largest payload of a message |
| `Paging.DecodePayload` | src/directory.c:737-867 | Decoding a page yields back its entries, its end flag and its start position, whatever the list and cursor |
| `Paging.PagingDeliversListing` | src/directory.c:737-867 | For any sequence of request counts that reaches the end, the decoded pages joined are the whole listing once and in order, and only the last carries the end flag |
| `Paging.EndFlagOnLastPage` | src/directory.c:857-859 | The end flag is set exactly on the page after which nothing is left |
| `Paging.PayloadDecodes` | src/directory.c:737-867 | Each reply in a run of READDIRX requests decodes to its own page |
| `Paging.ReadDirX` | src/directory.c:737-867 | The reply packed entry by entry into the 527-byte buffer is the page at the cursor, and the cursor moves past it; at the end the answer is EOF |
| `Paging.PackPage` | src/directory.c:813-855 | The packing loop writes exactly the encodings of the page's entries |
| `Paging.TellThenSeek` | src/directory.c:657-734 | SEEKDIR to a TELLDIR value restores exactly that cursor, end of list included |
| `Paging.DirposThenSeek` | src/directory.c:832-834 | SEEKDIR to a page's position restores its cursor if and only if the cursor was below 65536 |
| `Paging.SeekDir` | src/directory.c:657-699 | A handle with a listing moves its cursor to the requested entry or the end; any other leaves the position to seekdir() |
| `Paging.TellDir` | src/directory.c:701-734 | The reply is the cursor of a listing, or what telldir() answers |
| `Reading.ReadingDelivers` | src/directory.c:737-867 | READDIRX requests with any counts, each handled in the state the one before left: what the answers decode to is the listing from the cursor on, once and in order; only the cursor moves; as many requests as entries left bring all |
| `Reading.EveryAnswerFits` | src/directory.c:737-867 | Each of these answers brings at least one entry from where the ones before ended, no more than asked for, as many as fit 527 bytes, its position modulo 65536, and the end flag exactly if nothing is left; behind the end it is EOF |
| `Reading.SeekResumes` | src/directory.c:657-734 | What TELLDIR answered, given to SEEKDIR in any later state of the listing, restores the state |
| `Handles.ChoiceGuarantees` | src/directory.c:1405-1482 | No slot is found only if all eight are open and none serves the request; open slots are never touched but to rewind a reused one; a cached listing is dropped only when over 300 s old or when no slot was empty; any other slot handed out is fully reset |
| `Handles.ChoiceKeepsOk` | src/directory.c:1405-1482 | Slots stay well formed: without a listing no entries and no ignore patterns, with a stream open or loaded |
| `Handles.ChoiceConserves` | src/directory.c:1334-1403 | The choice closes exactly the streams of the slots it frees and opens none |
| `Handles.DropConserves` | src/directory.c:1334-1374 | Giving up a slot's stream leaves every other stream with its one owner |
| `Handles.GainConserves` | src/directory.c:491-494 | A new stream gets exactly one owner |
| `Handles.DirTable.FindFree` | src/directory.c:1405-1482 | The three scans over the slot objects choose the slot ChoiceGuarantees describes and close each freed stream once |
| `Handles.FreeHandle` | src/directory.c:1334-1374 | The slot is empty and its stream, if any, is closed once |
| `Handles.InitHandle` | src/directory.c:1376-1403 | The slot is set up for the request, texts cut to their buffers, a left-over stream closed |
| `DirCommands.OpenDirKeeps` | src/directory.c:406-514 | OPENDIR keeps the slots well formed and accounts for every stream: closed are those of freed slots, new is at most the one just opened |
| `DirCommands.OpenDirXKeeps` | src/directory.c:1069-1177 | OPENDIRX, listing, walking, reusing or failing, does the same |
| `DirCommands.CloseDirKeeps` | src/directory.c:577-603 | CLOSEDIR closes the stream of a slot without a listing and keeps one that is cached with a listing |
| `DirCommands.FreeingReleasesAll` | src/session.c:234-256 | After a session is freed none of its streams is open and no other stream was closed |
| `Runs.ReuseInEveryState` | src/directory.c:1131-1153 | In every reachable state an OPENDIRX that a cached listing serves gets, from its first entry on, a listing that was walked for an earlier request of the same session with the same path and options, at most 300 s ago unless its handle is still open; with the same pattern if and only if that request's pattern had at most 255 characters; and for exactly this request if its own pattern does not have 255. The maximum number of results plays no part |
| `LongPatterns.LongPatternServesShorter` | src/directory.c:1396-1436 | Reuse is wrong without that condition: after a walk for 256 question marks the slot is closed, and a request for 255 of them, which the tree has a match for, is answered with the empty listing walked before |
| `Commands.HandleKeepsSourced` | src/directory.c:1131-1177 | Through every command each cached listing stays one that was built for a request of this session, whole pattern included, which the slot records as far as its buffers hold it |
| `DirCommands.DoOpenDir` | src/directory.c:406-514 | The handler on the slot objects answers as OPENDIR on values and conserves streams |
| `DirCommands.DoOpenDirX` | src/directory.c:1069-1177 | The handler on the slot objects answers as OPENDIRX on values and conserves streams |
| `DirCommands.DoCloseDir` | src/directory.c:577-603 | The handler on the slot objects answers as CLOSEDIR on values and conserves streams |
| `DirCommands.FreeAll` | src/session.c:247-253 | The loop over the handles of a session closes all its streams and no other |
| `DirTrips.OpenDirKeepsStream` | src/directory.c:406-514 | With a handle to spare OPENDIR asks for the path and keeps the stream it gets in the handle it answers |
| `DirTrips.ReadDirReads` | src/directory.c:517-575 | READDIR reads the stream of its handle and answers the name with its terminator, or EOF |
| `DirTrips.StreamPositions` | src/directory.c:657-734 | TELLDIR and SEEKDIR on a stream ask the operating system about that stream, with the position of the request |
| `DirTrips.StreamIsServed` | src/directory.c:406-603 | Through a session and four requests: OPENDIR tells a handle, READDIR on it reads the stream OPENDIR got, CLOSEDIR closes it, and READDIR again is told EBADF and reads nothing |
| `Atari.ImageLayout` | src/atari.c:62-83 | The image is header, boot code padded to a multiple of 128, file and zeros, cut to its fixed size |
| `Atari.ReturnedBounds` | src/atari.c:241-345 | A read returns at most what is wanted, and all of it when the underlying reads are full |
| `Atari.PiecesJoin` | src/atari.c:241-345 | Whatever reads a client makes, short and failing ones among them, what they return joins to the image from the first position to the last |
| `Atari.FullPiecesJoin` | src/atari.c:241-345 | With full underlying reads any split of counts gives all that was asked for, up to the end of the image |
| `Atari.VirtualFile.Read` | src/atari.c:241-345 | The buffer receives the image bytes from the position on, as many as returned, nothing else is written, and the position advances by exactly that number, also with short or failing reads |
| `Atari.Piece` | src/atari.c:264-340 | One turn of the region loop delivers image bytes of the region the position is in |
| `Atari.VirtualFile.Seek` | src/atari.c:350-382 | The position becomes the target, or stays when the target is negative |
| `Paths.StrLCpy` | src/strlcpy.c:28-52 | The destination holds the source cut to its size, terminated, nothing else is written (nothing at all for size 0), and the full length is returned |
| `Paths.StrLCat` | src/strlcat.c:30-56 | The destination holds both texts cut to its size, or is left alone if it had no terminator there, and the length of the uncut result is returned |
| `Paths.NormalizePath` | src/directory.c:333-366 | In place or not, the destination holds the source with runs of slashes collapsed |
| `Paths.CollapsedIdempotent` | src/directory.c:333-366 | Normalising twice is normalising once |
| `Paths.CollapsedHasNoDoubleSlash` | src/directory.c:333-366 | No two slashes in a row are left |
| `Paths.NormalizingKeepsPlace` | src/directory.c:333-366 | A path leads to the same place before and after |
| `Paths.AcceptedNamesStayInside` | src/tnfs_file.c:580-597 | For an accepted name, truncated or not, the path resolves to a place under the served root, if the root itself does not climb |
| `Paths.MountCheckStopsClimbing` | src/directory.c:243-253 | No component of the root prefix that the mount check saw to its end is `..`; that is all of them when the prefix fits the buffer |
| `Paths.NamesStayInsideExactly` | src/tnfs_file.c:580-597 | All accepted names stay inside the served root if and only if the root prefix, as far as the path buffer holds it, does: a condition on the mount root alone |
| `Paths.PathLeads` | src/tnfs_file.c:580-597 | A path that fits its buffer leads from the served root through the mount root to the name |
| `Mounts.DirPathLeads` | src/directory.c:406-440 | So does a directory path that stays inside; one that does not is the served root |
| `Sessions.MountAdmitsLongRoot` | src/directory.c:243-285 | The condition can fail: a mount root that its check, with the smaller buffer, does not see whole is admitted and leads outside |
| `Paths.ValidFilename` | src/tnfs_file.c:580-597 | The name is accepted exactly when terminated and free of `..`, and then the buffer holds root, mount root and name, normalised |
| `Auth.ReadOnlyOpensArePureReads` | src/tnfs_file.c:599-625 | In read-only mode an open passes the flag test if and only if it maps to a pure read |
| `Auth.ModeMeans` | src/tnfs_file.c:599-625 | Bit 1 of the flags lets an open read, bit 2 write, neither read; 0x08, 0x100, 0x200 and 0x400 append, create, truncate and exclude |
| `Auth.Gate.IsCmdAllowed` | src/auth.c:30-44 | The table scan refuses exactly the six mutating commands, and only in read-only mode |
| `FileCommands.OpenFileKeeps` | src/tnfs_file.c:134-179 | OPEN puts one new descriptor into a free slot or changes nothing; Atari metadata is set only on occupied slots |
| `FileCommands.CloseFileKeeps` | src/tnfs_file.c:323-351 | CLOSE gives back exactly the slot's descriptor and clears its metadata |
| `FileCommands.PositionsKeep` | src/tnfs_file.c:185-321 | READ, WRITE and LSEEK keep every descriptor |
| `FileCommands.FileRepliesFit` | src/tnfs_file.c:185-234 | No file reply has more than 514 bytes |
| `FileCommands.AtariReadIsSlice` | src/tnfs_file.c:185-234 | A READ on an Atari file sends exactly the slice of the image at the position, which moves past it |
| `FileTable.Table.Open` | src/tnfs_file.c:134-179 | The slot loop and the opening on the table of descriptors do what OPEN does on values |
| `FileTable.Table.Read` | src/tnfs_file.c:185-234 | Through the shared I/O buffer, with its two bytes left for the count, the reply is what READ on values answers |
| `FileTable.Table.Close` | src/tnfs_file.c:323-351 | The descriptor is closed once and its slot freed, whether or not close() succeeds |
| `FileTable.Table.Seek` | src/tnfs_file.c:272-321 | Atari files seek in the image, others through the operating system; a result negative in 32 bits is an error |
| `FileTable.Table.ValidateFd` | src/tnfs_file.c:627-643 | A descriptor is found exactly when the request is long enough and names an occupied slot |
| `FileTable.Table.CloseAll` | src/session.c:241-245 | All descriptors of the session are closed, each once |
| `FileTrips.OpenGetsFile` | src/tnfs_file.c:107-183 | OPEN asks for the path of the name with the mode and permissions of the request and answers with the descriptor that has the file |
| `FileTrips.OldOpenIs` | src/tnfs_file.c:62-105 | The deprecated OPEN is OPEN with the second flag byte halved and mode 0644, its first flag byte cut to bit 0x08 if the second is odd |
| `FileTrips.OddOldOpensRead` | src/tnfs_file.c:99-102 | So it opens for reading whenever the second flag byte is odd |
| `FileTrips.CloseEndsFile` | src/tnfs_file.c:323-351 | CLOSE closes the file of the descriptor, and READ on it then is told EBADFD and reads nothing |
| `FileTrips.WritingLands` | src/tnfs_file.c:236-270 | On a system that keeps the file, blocks written one after the other are all confirmed and stand in it in order from where it was |
| `FileTrips.ReadingBrings` | src/tnfs_file.c:185-234 | READs with any counts bring the file from where it is on, in order, and the end exactly at its end |
| `FileTrips.OneSeek` | src/tnfs_file.c:272-321 | LSEEK from the start, the current place or the end leads there and tells where that is |
| `FileTrips.WrittenIsRead` | src/tnfs_file.c:185-321 | Whatever blocks are written: after LSEEK back to where they began, READs bring the blocks joined and then what the file has behind them |
| `ImageTrips.OpenGetsImage` | src/tnfs_file.c:134-179 | OPEN of an Atari binary gives an image at its start exactly if images are on and the mode only reads and neither creates nor appends, and the file itself otherwise |
| `ImageTrips.ReadingBringsImage` | src/tnfs_file.c:185-234 | READs with any counts bring the image from where it is on, in order, and the end exactly after its 262160 bytes |
| `ImageTrips.FailingRead` | src/atari.c:300-345 | A failing read of the file is told with its status if none of its bytes is wanted after others, and cuts the answer where the file begins otherwise |
| `ImageTrips.ImageSeek` | src/tnfs_file.c:272-321 | LSEEK moves in the image, from its start, the place or its end, without asking the operating system; in front of the start it fails |
| `Commands.RepliesFit` | src/datagram.c:817-846 | No handler's reply trips the size guard |
| `Commands.HandleKeepsNamable` | src/directory.c:1009-1010 | Every listed name keeps fitting its buffer, whatever commands run |
| `Commands.UnsavedHasNoEffect` | src/datagram.c:796-815 | A request is left unrecorded exactly when it is CHMOD or an open refused by its flags, and then it has no effect at all |
| `Commands.ReadOnlyCallsOnlyRead` | src/auth.c:5-53 | In read-only mode no handler makes a call that can change the file system, opens in the deprecated layout included |
| `Commands.RootIsKept` | src/datagram.c:757-793 | No command changes the session's root |
| `Trees.RefusedCouldChange` | src/auth.c:5-28 | The gate refuses no more than it must: every command it refuses, CHMOD apart, has a request that asks for a change |
| `Trees.MadeIsRemoved` | src/directory.c:606-655 | On a file system: MKDIR makes the directory of the name, and RMDIR of the name restores what was |
| `Trees.FilesAreUnlinked` | src/tnfs_file.c:411-432 | UNLINK removes a file and no directory, RMDIR a directory and no file |
| `Trees.RenamedIsMoved` | src/tnfs_file.c:438-475 | RENAME moves what the first name has to the second, and back with the names exchanged |
| `Outcomes.MalformedIsRefused` | src/tnfs_file.c:107-135 | A request with an unterminated, climbing or missing text is answered EINVAL and does nothing, for all nine commands with a text |
| `Outcomes.BadHandleIsRefused` | src/directory.c:517-535 | A directory handle out of range, closed or in a request of the wrong length is answered EBADF and nothing is done; READDIRX alone serves a closed one |
| `Outcomes.BadFdIsRefused` | src/tnfs_file.c:627-643 | A descriptor out of range, closed or in a request too short is answered EBADFD and nothing is done |
| `Outcomes.FullTablesRefuse` | src/directory.c:431-440 | With eight handles or sixteen descriptors taken an opening is answered EMFILE and asks for nothing |
| `Outcomes.ErrorsAreTold` | src/tnfs_file.c:185-351 | Whichever command made a failing call tells the status of the operating system; READDIR tells EOF |
| `Outcomes.NamesAreAnswered` | src/tnfs_file.c:411-475 | MKDIR, RMDIR, UNLINK and RENAME tell what their one call came to |
| `Outcomes.ReportsAreAnswered` | src/tnfs_file.c:353-410 | STAT answers with the 22 bytes reported, the sizes with 4 or 8 |
| `Outcomes.SizesAskForRoot` | src/tnfs_file.c:477-578 | The sizes are those of the file system the root of the session is in |
| `Outcomes.GoodNamesAreAccepted` | src/tnfs_file.c:580-597 | A name is accepted if and only if it ends in NUL and has no two dots in a row before its first NUL |
| `Protocol.SavedReplyInvariant` | src/datagram.c:817-846 | A session's saved message always has 5 to 532 bytes, its ID in front and the recorded number behind it; each request sends at most one datagram of legal size |
| `Protocol.FreshIsPerformed` | src/datagram.c:750-755 | A new request is performed, not taken for a retry, if and only if it is refused by the gate or does not follow 255 (511, ...) unrecorded requests in a row |
| `Protocol.CopiesAreHarmless` | src/datagram.c:714-755 | Any number of further copies of a performed request changes nothing and makes no call; each gets the bytes of the first answer, or EBADSESSION after an UMOUNT |
| `Protocol.OnlyUmountIsAnsweredAnew` | src/datagram.c:714-755 | A further copy gets the bytes of the first answer if and only if the request was not an UMOUNT |
| `Protocol.ExactlyOnce` | src/datagram.c:682-794 | Over a channel that loses and duplicates, every run after MOUNT leaves the session or its end, handles, positions, calls and answers of running each request exactly once, but for further copies of an UMOUNT, which find no session |
| `Protocol.ChannelKeepsStep` | src/datagram.c:835-846 | After any such run the client's next number is still in step with the recorded one |
| `Protocol.LongSilenceLosesRequest` | src/datagram.c:750-755 | After any such run, the next request is performed if it is fresh and otherwise swallowed and answered with the old reply: the condition of ExactlyOnce cannot be weakened |
| `Protocol.ChmodsLoseRequest` | src/datagram.c:750-815 | Such runs exist from every session: 255 CHMODs leave it as it was, and the next request the gate lets through is not performed |
| `Sessions.UmountWithMountsNumberIsLost` | src/datagram.c:750-755 | An UMOUNT numbered 0, as the protocol description has it, right after a MOUNT numbered 0 is answered with the mount's own reply and does not unmount |
| `Protocol.ReadOnlyRunsChangeNothing` | src/auth.c:30-53 | In read-only mode no requests, numbered, ordered and repeated in any way, lead to a call that can change the file system |
| `Requests.RequestIsRead` | src/datagram.c:682-712 | Session ID low byte first, number, command and data are read where a client puts them |
| `Requests.ReplyIsRead` | src/datagram.c:817-846 | A client that takes a reply apart, ID low byte first, number, command, status, payload, finds what the server put in |
| `Requests.ServeDoes` | src/datagram.c:682-869 | A request that is neither refused nor a retry leaves the state its handler leaves, makes its calls and sends its reply, which is saved with the number; an UMOUNT ends the session; a refused request and a retry change nothing |
| `Requests.ExactlyOnceHandled` | src/datagram.c:682-869 | Exactly-once in terms of the handlers alone: over a channel that loses and duplicates, state, calls and first answers are those of the handlers run one after the other, each on the state the one before left |
| `Replies.Send` | src/datagram.c:817-869 | The reply is written into the retransmit buffer and recorded with its number; one too long is dropped and recorded nowhere |
| `Replies.SendBare` | src/datagram.c:817-869 | Without a session only a header with session ID 0 is sent |
| `Replies.Answer` | src/datagram.c:750-889 | On the buffer, a recorded number resends and any other sends and records: session and datagrams are then those of the protocol, so a retry gets the bytes of the first answer |
| `Ownership.HandleConserves` | src/datagram.c:757-793 | Every command, of all classes, keeps a session's slots sound, closes only what the session held and opens only what the system just handed out |
| `Runs.ReplaceKeeps` | src/datagram.c:757-793 | When a command closes and opens some of what its session holds, everything open in the server still has exactly one holder |
| `Sessions.LookupIsUnique` | src/session.c:259-276 | At most one session answers to an ID, and the lookup finds it |
| `Sessions.SearchFindsFullAddress` | src/session.c:285-336 | The search by address returns a session exactly when sixteen of that address are alive, and then the first of them |
| `Sessions.RoomForOne` | src/session.c:91-97 | Once the session found is freed, at most fifteen of the address are left |
| `Sessions.MountSidIsFree` | src/session.c:195-231 | The ID of a new session, recycled or drawn, belongs to no other session |
| `Sessions.MountKeepsIds` | src/session.c:77-175 | MOUNT, succeeding or failing in any way, keeps all IDs distinct and non-zero and no address above sixteen sessions |
| `Sessions.MountAddsSession` | src/session.c:77-175 | MOUNT has no retry detection: with fewer than sixteen live sessions of the address, one that succeeds, a repeated one too, adds a session |
| `Sessions.MountRecyclesFirst` | src/session.c:91-150 | With sixteen, every terminated MOUNT ends the first live session of the address and spares all other live ones of it, even if it then fails; it succeeds exactly when the directory checks pass, and then hands the ID of the ended session to a new one, so that sixteen are left |
| `Sessions.MountReplyNamesSession` | src/session.c:134-150 | A successful mount sends one reply, and the ID in it finds the new session, bound to the client's address and connection |
| `Mounts.MountTells` | src/session.c:77-175 | In bytes: a MOUNT that makes a session tells its ID, version 1.3 and a retry time of 1000 ms, and the session has the root that was asked for, "/" for none, and nothing open; a failed one tells version and status and no session |
| `Mounts.MountSucceeds` | src/session.c:77-231 | With room and fewer than sixteen live sessions a MOUNT makes a session if and only if the first number drawn that no session has is not 0, the directory is there and the first 255 characters of its path show no `../`; the session has that number |
| `Mounts.MountNeedsId` | src/session.c:384-402 | With every number drawn taken, no session is made and nothing is answered |
| `Mounts.OpensBelowRoot` | src/session.c:116-131 | In the session so made OPEN asks for a path that leads from the served root through the root asked for to the name |
| `SessionTable.Table.FindSession` | src/session.c:259-276 | The scan yields the first entry with the ID, or the end of the table |
| `SessionTable.Table.FindSessionByIp` | src/session.c:285-336 | The scan frees the expired sessions it meets, and answers as SearchFindsFullAddress says |
| `Runs.SilentSessionsGo` | src/session.c:340-362 | At a sweep a session goes if and only if it was silent for 600 s and has no connection or one silent for longer, which is closed in the same pass |
| `Runs.NoSweepNoExpiry` | src/datagram.c:275-285 | Before its messages a pass without a sweep ends no session |
| `SessionTable.Table.ExpireSessions` | src/session.c:349-362 | Exactly the expired sessions are freed, and everything open still has one holder |
| `SessionTable.Table.DrawSid` | src/session.c:384-402 | The first number drawn that no session has, or 0 |
| `SessionTable.Table.AllocSession` | src/session.c:195-231 | A fresh zeroed session at the first free place, with the ID asked for or a free one; none when the table is full or no ID is found |
| `SessionTable.Table.DoMount` | src/session.c:77-175 | The table and the reply after a mount, with recycling, in-scan expiry and the failed directory check, are those of MOUNT on values, and everything open still has one holder |
| `SessionTable.Table.FreeSession` | src/session.c:234-256 | Only that session goes; all it held is closed, each once |
| `SessionTable.Table.Umount` | src/session.c:178-192 | After the reply only that session is gone from the table, and what is open is what ending it on values leaves open |
| `SessionTable.Table.ResetCliFd` | src/session.c:364-381 | Exactly the sessions bound to that connection are unbound |
| `SessionTable.Table.FreeAllSessions` | src/session.c:417-426 | The table is empty and nothing is open |
| `SessionTable.SharesMeanFreeing` | src/session.c:234-256 | Freeing sessions one by one closes exactly what the missing sessions held |
| `Connections.TcpConnections.Accepted` | src/datagram.c:557-574 | A new connection takes the first free slot, if there is one |
| `Connections.TcpConnections.Kill` | src/datagram.c:475-490 | The slot with that descriptor is marked dead; descriptor 0 marks none |
| `Connections.TcpConnections.CloseTcp` | src/datagram.c:669-680 | The slot is freed and no session stays bound to its descriptor |
| `Connections.TcpConnections.CloseStaleConnections` | src/datagram.c:891-907 | Exactly the connections silent for over 600 s are closed and their sessions unbound |
| `Runs.EveryReachableState` | src/datagram.c:262-340 | In every state of every run of the main loop: IDs distinct and non-zero, at most sixteen sessions an address, saved replies and slots well formed, mount roots checked, cached listings traceable, connections distinct, bound sessions bound to live ones, and every open stream and descriptor held by exactly one session |
| `Runs.NoNameLeadsOutside` | src/directory.c:243-285 | In every reachable state the accepted names of a session stay inside the served root if and only if its own root prefix does, which the mount check ensures for every prefix that fits its buffer |
| `Runs.PassKeeps` | src/datagram.c:275-337 | One pass, with any datagram, connection, messages, closes and expiry, keeps all of that |
| `Runs.RequestReachesItsSession` | src/datagram.c:714-794 | What the table makes of a request is what the protocol of the named session says, its end included, and no other session is touched |
| `Runs.ForeignRequestIsDropped` | src/datagram.c:723-727 | A request that names a session of another address does nothing and gets no answer |
| `Runs.OtherAddressesAreUntouched` | src/datagram.c:714-794 | No message from another address changes or ends a session, but that a MOUNT ends one that is due to expire |
| `Runs.RequestToNobody` | src/datagram.c:714-722 | A request to an ID that no session has is answered so and changes nothing |
| `Runs.RepeatedUmount` | src/session.c:178-192 | The first copy of an UMOUNT is answered with success and closes all the session held; a second one is answered EBADSESSION and changes nothing |
| `Runs.MountKeeps` | src/session.c:77-175 | Mounting keeps the invariant of the whole server |
| `Runs.AcceptKeeps` | src/datagram.c:492-574 | Accepting a connection keeps it, if accept() returns a descriptor not in use |
| `Runs.AcceptedSpeaksForPeer` | src/datagram.c:557-667 | What a connection sends is handled as from the address it was accepted from and on its descriptor |
| `Runs.PassAccepts` | src/datagram.c:262-317 | A pass gives an accepted connection a slot, if one is free, before it looks at the slots |
| `Runs.CloseConnKeeps` | src/datagram.c:669-680 | Closing a connection keeps it and leaves no session bound to the descriptor |
| `Runs.ExpireKeeps` | src/session.c:349-362 | Expiry keeps it, frees no session that has a connection, and leaves none that is due |
| `Runs.SearchSparesConnected` | src/session.c:285-336 | The expiry inside a mount frees no session that has a connection |
| `Runs.BoundToOneSlot` | src/datagram.c:723-743 | A session with a connection is bound to exactly one slot |
| `Runs.StreamHasOneHolder` | src/session.c:234-256 | Each open directory stream is held by exactly one slot of one session |
| `Runs.FreedHoldsNothing` | src/session.c:234-256 | After UMOUNT, expiry or recycling nothing of the freed sessions is open and all of the others is |
| `Runs.RecycledHoldsNothing` | src/session.c:91-97 | A MOUNT at sixteen live sessions closes all that the first of them held |
| `Runs.ShutdownReleasesAll` | src/datagram.c:338-339 | After the loop nothing is left open |
| `Runs.DeadAreNeverHandled` | src/datagram.c:262-340 | A connection marked dead by a failed send is closed before another of its messages is handled |
| `Runs.DeadAreReaped` | src/datagram.c:891-907 | A pass begins by closing every connection marked dead and unbinding its sessions |
| `Runs.FailedSendCloses` | src/datagram.c:858-868 | After a failed or short send in the turn of a slot, whatever the other slots do, the connection is closed and its sessions unbound when the next pass begins |
| `Runs.TurnIsLocal` | src/datagram.c:319-329 | Handling one slot changes no other slot |
| `Sessions.MountStartsInStep` | src/session.c:138-150 | A mount leaves the client's next number in step, where ExactlyOnce starts |
| `Projection.RunServes` | src/datagram.c:262-340 | Through a whole run, whatever other clients mount, unmount, let expire and request in between, a living session goes through exactly the requests that reach it, all from its own address, one after the other, and the datagrams sent and the calls made for it are those of serving them |
| `Projection.ExactlyOnceInEveryRun` | src/datagram.c:262-340 | If what reaches a living session in a whole run are a client's arrivals over a channel that loses and duplicates, then session, calls and answers are those of running each request once |
| `Endian.RoundTrip16` | src/endian.c:36-52 | Encoding and decoding 16 bits are inverse both ways |
| `Endian.RoundTrip32` | src/endian.c:41-60 | Encoding and decoding 32 bits are inverse both ways |
| `Endian.PutLe16` | src/endian.c:48-52 | The two bytes are written low byte first and nothing else changes |
| `Endian.PutLe32` | src/endian.c:54-60 | The four bytes are written low byte first and nothing else changes |
| `Shuffle.IsPrime` | src/directory.c:143-160 | For every odd 32-bit number the test is exact but for 1, which passes, and 3, which fails; so also when the running square wraps |
| `Shuffle.NextPrime` | src/directory.c:161-166 | The search ends with the first number from the seed on that passes, or with 1 after wrapping round |
| `Shuffle.Walk` | src/directory.c:534-539 | Turn k visits (start + k * inc) mod total, for total turns |
| `Shuffle.ShuffleVisitsEachOnce` | src/directory.c:478-481 | With a step of next_prime, the walk visits every entry exactly once if and only if the step is not the number of entries |
| `Shuffle.PrimeDividesFactor` | src/directory.c:161-166 | A prime step that divides a product of which one factor is smaller divides the other |

## Left out

- Sockets, event back ends, keep-alive, back-off in accept(), signals, chroot, arguments, logging and statistics: input and output only. A connection that cannot be registered for events is closed like one without a free slot.
- Windows, DEBUG and USAGELOG code, and of TNFS_DIR_EXT all but the primality test, the search for a prime and the walk.
- opendir, readdir, nftw, stat, open, read, write, realpath and the clock are inputs: an enumeration is a finite sequence, a file a sequence of bytes that does not change while it is read.
- Failing malloc, the depth of the C stack, and the reading of `.ignore` files: the pattern list is an input.
- Opening with a descriptor of 0, the layout of STAT and of the device sizes beyond their lengths, and the table of error numbers.
- Handles.ChoiceGuarantees: a request without a pattern never reuses a slot cached with a non-empty pattern; the C expression has no defined result there (src/directory.c:1436).
- EntryOrder.CompareExact: the difference -2^31 times -1 has no defined result in C; it is taken to wrap. Plain char is taken to be signed.
- DirList.GetIndexForNode: for lists shorter than 2^32.
- Paths.NormalizePath: backslashes are copied as they are and the length is not limited, as in the code, whatever its comment and loop test suggest; the destination must be large enough.
- Runs.NoNameLeadsOutside: is about file names; directory paths are confined by chroot or not at all (src/directory.c:290-327), which is an input here.
- SessionTable.Table.DoMount: the handles, descriptors and saved message of a session are fields that hold values; their update in place is in Handles, FileTable and Replies.
- Commands.RepliesFit: dispatch and the main loop (Commands, Protocol, Server) are modelled on values, not as methods; what they call is modelled in place.
- Runs.EveryReachableState: assumes that accept() yields a positive descriptor no connection has, and that opendir() and open() yield ones not open at that moment. A TCP message shorter than a header is decoded over what the receive buffer held (src/datagram.c:647-666); it counts as a message of any bytes.
- Runs.DeadAreNeverHandled: assumes a clock that reads more than 600 seconds.
- Protocol.ExactlyOnce: a client that gives a request up before it ever arrives, and reordering, are outside it; MOUNT comes before it.

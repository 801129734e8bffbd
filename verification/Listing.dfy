/** The two listers: _load_directory (src/directory.c), which reads one directory, and the nftw
    callback with _traverse_directory (src/traverse.c), which walks a tree. Both filter what the
    enumeration finds, push it onto one or two lists, sort the lists in place and join them. */
module Listing {
  import opened CStrings
  import opened Endian
  import opened EntryOrder
  import opened DirList
  import Glob
  import Pattern

  datatype Option<+T> = None | Some(value: T) {
    function GetOr(default: T): T {
      match this case None => default case Some(v) => v
    }
  }

  /** The bits of the directory option byte. */
  datatype DirOpts = DirOpts(noFoldersFirst: bool, noSkipHidden: bool, noSkipSpecial: bool, dirPattern: bool,
      traverse: bool, noFolders: bool)

  function DirOptsOf(b: U8): DirOpts {
    DirOpts(Bit(b, 1), Bit(b, 2), Bit(b, 4), Bit(b, 8), Bit(b, 16), Bit(b, 32))
  }

  const MAX_FILENAME_LEN := 256

  /** What get_fileinfo reports. */
  datatype FileInfo = FileInfo(flags: U8, size: U32, mtime: U32, ctime: U32)

  /** One name the enumeration produced; no info when the file could not be examined. */
  datatype Found = Found(path: CString, info: Option<FileInfo>)

  predicate IsDirectory(flags: U8) { flags % 2 == 1 }
  predicate IsHidden(flags: U8) { flags / 2 % 2 == 1 }
  predicate IsSpecial(flags: U8) { flags / 4 % 2 == 1 }

  // ---------- What a listing should contain ----------

  datatype Rules =
    | Load(diropts: DirOpts, ignores: seq<CString>, pattern: Option<CString>)
    | Walk(diropts: DirOpts, ignores: seq<CString>, pattern: Option<CString>, root: CString)

  /** The name shown for a find: in a walk, the path below the root without its slash. */
  function ShownName(r: Rules, x: Found): CString {
    match r
    case Load(_, _, _) => x.path
    case Walk(_, _, _, root) => if |x.path| > |root| + 1 then x.path[|root| + 1..] else []
  }

  /** The path below the root, with its leading slash. */
  function SlashName(r: Rules, x: Found): CString
    requires r.Walk? && |x.path| > |r.root| + 1
  {
    x.path[|r.root|..]
  }

  ghost predicate Ignored(r: Rules, x: Found)
    requires r.Walk? ==> |x.path| > |r.root| + 1
  {
    exists p :: p in r.ignores &&
      (Glob.LoopSays(ShownName(r, x), p) || (r.Walk? && Glob.LoopSays(SlashName(r, x), p)))
  }

  /** The wildcard of a plain listing spares directories unless asked; a walk's glob does not. */
  ghost predicate PatternAdmits(r: Rules, x: Found)
    requires x.info.Some? && (r.Walk? ==> |x.path| > |r.root| + 1)
  {
    match r.pattern
    case None => true
    case Some(p) =>
      if r.Walk? then Glob.LoopSays(SlashName(r, x), p)
      else (IsDirectory(x.info.value.flags) && !r.diropts.dirPattern) || Pattern.NameMatches(x.path, p)
  }

  ghost predicate Listed(r: Rules, x: Found) {
    && (r.Walk? ==> |x.path| > |r.root| + 1)
    && x.info.Some?
    && !Ignored(r, x)
    && PatternAdmits(r, x)
    && (IsHidden(x.info.value.flags) ==> r.diropts.noSkipHidden)
    && (IsSpecial(x.info.value.flags) ==> r.diropts.noSkipSpecial)
    && (IsDirectory(x.info.value.flags) ==> !r.diropts.noFolders)
  }

  /** strlcpy into a buffer of the given size. */
  function Clipped(s: CString, size: nat): (r: CString)
    requires size > 0
    ensures |r| < size && r <= s
  {
    if |s| < size then s else s[..size - 1]
  }

  /** The list entry of a find; flags are kept for directories only. */
  function EntryOf(name: CString, info: FileInfo): Entry {
    var flags := if IsDirectory(info.flags) then info.flags else 0;
    Entry(flags, info.size, info.mtime, info.ctime, Clipped(name, MAX_FILENAME_LEN))
  }

  /** The entries of the finds that are listed, in the order of the enumeration. */
  ghost function Kept(r: Rules, xs: seq<Found>): seq<Entry> {
    if xs == [] then []
    else
      var x := xs[|xs| - 1];
      Kept(r, xs[..|xs| - 1]) + if Listed(r, x) then [EntryOf(ShownName(r, x), x.info.value)] else []
  }

  function FirstN(s: seq<Entry>, n: nat): seq<Entry> {
    if n > 0 && |s| > n then s[..n] else s
  }

  function OfKind(s: seq<Entry>, dirs: bool): seq<Entry> {
    if s == [] then []
    else
      var e := s[|s| - 1];
      OfKind(s[..|s| - 1], dirs) + if IsDirectory(e.flags) == dirs then [e] else []
  }

  /** One group as the code orders it: pushed to the front, then sorted unless asked not to. */
  function Ordered(s: seq<Entry>, sortopts: SortOpts): seq<Entry> {
    if sortopts.none then Reversed(s) else MergeSort(Reversed(s), sortopts)
  }

  function Arranged(s: seq<Entry>, diropts: DirOpts, sortopts: SortOpts): seq<Entry> {
    if diropts.noFoldersFirst then Ordered(s, sortopts)
    else Ordered(OfKind(s, true), sortopts) + Ordered(OfKind(s, false), sortopts)
  }

  /** The listing the options ask for, in terms of the reference sort. */
  function Wanted(s: seq<Entry>, diropts: DirOpts, sortopts: SortOpts): seq<Entry> {
    var group := (g: seq<Entry>) => if sortopts.none then Reversed(g) else StableSort(g, sortopts);
    if diropts.noFoldersFirst then group(s) else group(OfKind(s, true)) + group(OfKind(s, false))
  }

  lemma {:induction false} OfKindWithin(s: seq<Entry>, dirs: bool, u: set<Entry>)
    requires Within(s, u)
    ensures Within(OfKind(s, dirs), u)
  {
    if s != [] {
      OfKindWithin(s[..|s| - 1], dirs, u);
    }
  }

  lemma OrderedIsStable(s: seq<Entry>, sortopts: SortOpts, u: set<Entry>)
    requires AllClose(u, sortopts) && Within(s, u)
    ensures MergeSort(Reversed(s), sortopts) == StableSort(s, sortopts)
  {
    ReversedWithin(s, u);
    MergeSortIsStableOnReversed(Reversed(s), sortopts, u);
    ReversedTwice(s);
  }

  /** With keys a 32-bit difference can order, the code's arrangement is the wanted one: directories
      before files, each group stably sorted, or in reverse enumeration order when unsorted. */
  lemma ArrangedAsWanted(s: seq<Entry>, diropts: DirOpts, sortopts: SortOpts, u: set<Entry>)
    requires AllClose(u, sortopts) && Within(s, u)
    ensures Arranged(s, diropts, sortopts) == Wanted(s, diropts, sortopts)
  {
    OrderedIsStable(s, sortopts, u);
    OfKindWithin(s, true, u);
    OfKindWithin(s, false, u);
    OrderedIsStable(OfKind(s, true), sortopts, u);
    OrderedIsStable(OfKind(s, false), sortopts, u);
  }

  lemma LastMultiset(s: seq<Entry>)
    requires s != []
    ensures multiset(s) == multiset(s[..|s| - 1]) + multiset{s[|s| - 1]}
  {
    assert s == s[..|s| - 1] + [s[|s| - 1]];
  }

  lemma OfKindLast(s: seq<Entry>, dirs: bool)
    requires s != []
    ensures var e := s[|s| - 1];
      multiset(OfKind(s, dirs))
        == multiset(OfKind(s[..|s| - 1], dirs)) + if IsDirectory(e.flags) == dirs then multiset{e} else multiset{}
  {
  }

  lemma {:induction false} OfKindSplits(s: seq<Entry>)
    ensures multiset(s) == multiset(OfKind(s, true)) + multiset(OfKind(s, false))
  {
    hide IsDirectory;
    if s != [] {
      LastMultiset(s);
      OfKindLast(s, true);
      OfKindLast(s, false);
      hide OfKind;
      OfKindSplits(s[..|s| - 1]);
    }
  }

  lemma OrderedKeeps(s: seq<Entry>, sortopts: SortOpts)
    ensures multiset(Ordered(s, sortopts)) == multiset(s)
  {
    ReversedKeeps(s);
    MergeSortKeeps(Reversed(s), sortopts);
  }

  /** Whatever the keys, arranging keeps every entry. */
  lemma ArrangedKeeps(s: seq<Entry>, diropts: DirOpts, sortopts: SortOpts)
    ensures multiset(Arranged(s, diropts, sortopts)) == multiset(s)
    ensures |Arranged(s, diropts, sortopts)| == |s|
  {
    OrderedKeeps(s, sortopts);
    OrderedKeeps(OfKind(s, true), sortopts);
    OrderedKeeps(OfKind(s, false), sortopts);
    OfKindSplits(s);
    assert |multiset(Arranged(s, diropts, sortopts))| == |multiset(s)|;
  }

  lemma {:induction false} KeptGrows(r: Rules, xs: seq<Found>, k: nat)
    requires k <= |xs|
    ensures Kept(r, xs[..k]) <= Kept(r, xs)
    decreases |xs| - k
  {
    if k == |xs| {
      assert xs[..k] == xs;
    } else {
      KeptGrows(r, xs, k + 1);
      assert xs[..k + 1][..k] == xs[..k];
    }
  }

  lemma ReversedPushed(s: seq<Entry>, e: Entry)
    ensures Reversed(s + [e]) == [e] + Reversed(s)
  {
    ReversedConcat(s, [e]);
    assert Reversed([e]) == [e];
  }

  lemma KeptPushed(kept: seq<Entry>, e: Entry)
    ensures Reversed(kept + [e]) == [e] + Reversed(kept)
    ensures OfKind(kept + [e], IsDirectory(e.flags)) == OfKind(kept, IsDirectory(e.flags)) + [e]
    ensures OfKind(kept + [e], !IsDirectory(e.flags)) == OfKind(kept, !IsDirectory(e.flags))
  {
    ReversedPushed(kept, e);
    assert (kept + [e])[..|kept|] == kept;
  }

  lemma {:induction false} EntriesConcat(a: seq<Node>, b: seq<Node>)
    ensures Entries(a + b) == Entries(a) + Entries(b)
  {
  }

  // ---------- Collecting ----------

  /** Sorts one list unless asked not to. */
  method SortGroup(head: Node?, ghost ns: seq<Node>, sortopts: SortOpts)
      returns (newHead: Node?, ghost sorted: seq<Node>)
    requires IsList(head, ns)
    modifies ns
    ensures IsList(newHead, sorted) && AllIn(sorted, ns)
    ensures Entries(sorted) == GroupSorted(Entries(ns), sortopts)
  {
    newHead, sorted := head, ns;
    if !sortopts.none {
      SortNodesEntries(ns, sortopts);
      SortKeepsNodes(ns, sortopts);
      sorted := SortNodes(ns, sortopts);
      if head != null {
        newHead := SortInPlace(head, ns, sortopts);
      }
    }
  }

  /** What SortGroup does to the entries. */
  function GroupSorted(s: seq<Entry>, sortopts: SortOpts): seq<Entry> {
    if sortopts.none then s else MergeSort(s, sortopts)
  }

  method SortAndJoin(list1: Node?, ghost ns1: seq<Node>, list2: Node?, ghost ns2: seq<Node>, sortopts: SortOpts)
    returns (head: Node?, ghost ns: seq<Node>)
    requires IsList(list1, ns1) && IsList(list2, ns2) && Apart(ns1, ns2)
    modifies ns1, ns2
    ensures IsList(head, ns)
    ensures Entries(ns) == GroupSorted(Entries(ns1), sortopts) + GroupSorted(Entries(ns2), sortopts)
  {
    var head1, s1 := SortGroup(list1, ns1, sortopts);
    var head2, s2 := SortGroup(list2, ns2, sortopts);
    head := Concat(head1, s1, head2, s2);
    ns := s1 + s2;
    EntriesConcat(s1, s2);
  }

  /** The two lists hold exactly the kept entries, the latest first. */
  ghost predicate Split(kept: seq<Entry>, diropts: DirOpts, dirNodes: seq<Node>, fileNodes: seq<Node>) {
    if diropts.noFoldersFirst then
      Entries(dirNodes) == [] && Entries(fileNodes) == Reversed(kept)
    else
      Entries(dirNodes) == Reversed(OfKind(kept, true)) && Entries(fileNodes) == Reversed(OfKind(kept, false))
  }

  lemma KeptStep(kept: seq<Entry>, e: Entry, ds: seq<Node>, fs: seq<Node>, ds': seq<Node>, fs': seq<Node>, n: Node,
      diropts: DirOpts)
    requires Split(kept, diropts, ds, fs) && n.entry == e
    requires var toDirs := IsDirectory(e.flags) && !diropts.noFoldersFirst;
      ds' == (if toDirs then [n] else []) + ds && fs' == (if toDirs then [] else [n]) + fs
    ensures Split(kept + [e], diropts, ds', fs')
  {
    KeptPushed(kept, e);
    ReversedPushed(OfKind(kept, IsDirectory(e.flags)), e);
    EntriesCons(n, ds);
    EntriesCons(n, fs);
    assert [] + ds == ds && [] + fs == fs;
  }

  /** The two lists being filled and the count of entries, as the walk's globals and the plain
      lister's locals hold them. */
  class Collector {
    var dirs: Node?
    var files: Node?
    var count: U16
    ghost var dirNodes: seq<Node>
    ghost var fileNodes: seq<Node>

    ghost predicate Valid()
      reads this, dirNodes, fileNodes
    {
      IsList(dirs, dirNodes) && IsList(files, fileNodes) && Apart(dirNodes, fileNodes)
    }

    /** The lists hold exactly the kept entries, pushed to the front. */
    ghost predicate Holds(kept: seq<Entry>, diropts: DirOpts)
      reads this
    {
      count == |kept| % 65536 && Split(kept, diropts, dirNodes, fileNodes)
    }

    constructor ()
      ensures Valid() && dirNodes == [] && fileNodes == []
      ensures forall diropts :: Holds([], diropts)
    {
      dirs, files, count := null, null, 0;
      dirNodes, fileNodes := [], [];
    }

    /** Puts a new node for e at the front of one of the lists. */
    method PushNew(e: Entry, toDirs: bool) returns (ghost node: Node)
      requires Valid()
      modifies this
      ensures Valid() && fresh(node) && node.entry == e && count == old(count)
      ensures dirNodes == (if toDirs then [node] else []) + old(dirNodes)
      ensures fileNodes == (if toDirs then [] else [node]) + old(fileNodes)
    {
      var added := new Node(e);
      if toDirs {
        dirs := Push(dirs, dirNodes, added);
        dirNodes := [added] + dirNodes;
      } else {
        files := Push(files, fileNodes, added);
        fileNodes := [added] + fileNodes;
      }
      node := added;
    }

    /** Adds one entry and says whether the requested maximum is reached. */
    method Add(name: CString, info: FileInfo, diropts: DirOpts, maxresults: U16, ghost kept: seq<Entry>)
        returns (full: bool, ghost node: Node)
      requires Valid() && Holds(kept, diropts)
      requires maxresults > 0 ==> |kept| < maxresults
      modifies this
      ensures Valid() && Holds(kept + [EntryOf(name, info)], diropts)
      ensures fresh(node)
      ensures dirNodes == old(dirNodes) || dirNodes == [node] + old(dirNodes)
      ensures fileNodes == old(fileNodes) || fileNodes == [node] + old(fileNodes)
      ensures full <==> maxresults > 0 && |kept| + 1 == maxresults
    {
      hide IsList, Split, Entries;
      var e := EntryOf(name, info);
      node := PushNew(e, IsDirectory(info.flags) && !diropts.noFoldersFirst);
      KeptStep(kept, e, old(dirNodes), old(fileNodes), dirNodes, fileNodes, node, diropts);
      count := if count == 65535 then 0 else count + 1;
      full := maxresults > 0 && count >= maxresults;
    }

    /** Sorts the lists unless asked not to, and joins them. */
    method Finish(sortopts: SortOpts, ghost kept: seq<Entry>, diropts: DirOpts)
        returns (head: Node?, ghost ns: seq<Node>)
      requires Valid() && Holds(kept, diropts)
      modifies this, dirNodes, fileNodes
      ensures IsList(head, ns) && Entries(ns) == Arranged(kept, diropts, sortopts)
      ensures count == old(count)
    {
      head, ns := SortAndJoin(dirs, dirNodes, files, fileNodes, sortopts);
    }
  }

  /** Does one of the patterns match the name? */
  method AnyMatches(name: CString, patterns: seq<CString>) returns (b: bool)
    ensures b <==> exists p :: p in patterns && Glob.LoopSays(name, p)
  {
    for k := 0 to |patterns|
      invariant forall p :: p in patterns[..k] ==> !Glob.LoopSays(name, p)
    {
      b := Glob.GitignoreGlobMatch(name, patterns[k]);
      if b {
        return true;
      }
    }
    b := false;
  }

  /** The option filters both listers share. */
  method OptionsAdmit(flags: U8, diropts: DirOpts) returns (b: bool)
    ensures b <==> (IsHidden(flags) ==> diropts.noSkipHidden) && (IsSpecial(flags) ==> diropts.noSkipSpecial)
                   && (IsDirectory(flags) ==> !diropts.noFolders)
  {
    if !diropts.noSkipHidden && IsHidden(flags) {
      return false;
    }
    if !diropts.noSkipSpecial && IsSpecial(flags) {
      return false;
    }
    b := !(diropts.noFolders && IsDirectory(flags));
  }

  /** The filters of _load_directory, in its order. */
  method LoadAdmits(r: Rules, x: Found) returns (b: bool)
    requires r.Load?
    ensures b <==> Listed(r, x)
  {
    var ignored := AnyMatches(x.path, r.ignores);
    if ignored || x.info.None? {
      return false;
    }
    var flags := x.info.value.flags;
    if r.pattern.Some? && (r.diropts.dirPattern || !IsDirectory(flags)) {
      var matched := Pattern.PatternMatch(x.path, r.pattern.value);
      if !matched {
        return false;
      }
    }
    b := OptionsAdmit(flags, r.diropts);
  }

  /** The filters of _nftwfunc, in its order. */
  method WalkAdmits(r: Rules, x: Found) returns (b: bool)
    requires r.Walk?
    ensures b <==> Listed(r, x)
  {
    if |x.path| <= |r.root| + 1 || x.info.None? {
      return false;
    }
    if r.pattern.Some? {
      var matched := Glob.GitignoreGlobMatch(SlashName(r, x), r.pattern.value);
      if !matched {
        return false;
      }
    }
    var bySlash := AnyMatches(SlashName(r, x), r.ignores);
    var byName := AnyMatches(ShownName(r, x), r.ignores);
    if bySlash || byName {
      return false;
    }
    b := OptionsAdmit(x.info.value.flags, r.diropts);
  }

  /** Does the lister at work accept the find? */
  method Admits(r: Rules, x: Found) returns (b: bool)
    ensures b <==> Listed(r, x)
  {
    if r.Load? {
      b := LoadAdmits(r, x);
    } else {
      b := WalkAdmits(r, x);
    }
  }

  lemma KeptNext(r: Rules, xs: seq<Found>, k: nat)
    requires k < |xs|
    ensures Kept(r, xs[..k + 1]) ==
      Kept(r, xs[..k]) + if Listed(r, xs[k]) then [EntryOf(ShownName(r, xs[k]), xs[k].info.value)] else []
  {
    assert xs[..k + 1][..k] == xs[..k];
  }

  /** One find of the enumeration: dropped, or added to the lists. */
  method TakeNext(c: Collector, xs: seq<Found>, k: nat, r: Rules, maxresults: U16, ghost kept: seq<Entry>)
      returns (full: bool, ghost now: seq<Entry>, ghost added: seq<Node>)
    requires c.Valid() && c.Holds(kept, r.diropts)
    requires k < |xs| && kept == Kept(r, xs[..k]) && (maxresults > 0 ==> |kept| < maxresults)
    modifies c
    ensures c.Valid() && c.Holds(now, r.diropts)
    ensures now == Kept(r, xs[..k + 1]) && |now| <= |kept| + 1 && (full <==> maxresults > 0 && |now| == maxresults)
    ensures fresh(added)
    ensures c.dirNodes == old(c.dirNodes) || c.dirNodes == added + old(c.dirNodes)
    ensures c.fileNodes == old(c.fileNodes) || c.fileNodes == added + old(c.fileNodes)
  {
    hide IsList, Split, EntryOf, Collector.Holds, Ignored, PatternAdmits, IsHidden, IsSpecial, Kept;
    full := false;
    now, added := kept, [];
    var admitted := Admits(r, xs[k]);
    KeptNext(r, xs, k);
    if admitted {
      ghost var node;
      full, node := c.Add(ShownName(r, xs[k]), xs[k].info.value, r.diropts, maxresults, kept);
      now, added := kept + [EntryOf(ShownName(r, xs[k]), xs[k].info.value)], [node];
    }
  }

  /** The loop of _load_directory, or the calls nftw makes until the callback returns 1. */
  method Collect(xs: seq<Found>, r: Rules, maxresults: U16) returns (c: Collector, ghost kept: seq<Entry>)
    ensures fresh(c) && c.Valid() && c.Holds(kept, r.diropts)
    ensures fresh(c.dirNodes) && fresh(c.fileNodes)
    ensures kept == FirstN(Kept(r, xs), maxresults)
  {
    c := new Collector();
    kept := [];
    var k := 0;
    hide IsList, Collector.Valid, Collector.Holds, Listed;
    while k < |xs|
      invariant k <= |xs| && kept == Kept(r, xs[..k])
      invariant maxresults > 0 ==> |kept| < maxresults
      invariant fresh(c) && c.Valid() && c.Holds(kept, r.diropts)
      invariant fresh(c.dirNodes) && fresh(c.fileNodes)
    {
      var full;
      ghost var added;
      full, kept, added := TakeNext(c, xs, k, r, maxresults, kept);
      KeptGrows(r, xs, k + 1);
      k := k + 1;
      if full {
        return;
      }
    }
    assert xs[..|xs|] == xs;
  }

  /** Both listers over one enumeration. The list is the arrangement of the first maxresults entries
      kept, and the count is its length modulo 2^16. */
  method List(xs: seq<Found>, r: Rules, sortopts: SortOpts, maxresults: U16)
      returns (head: Node?, ghost ns: seq<Node>, count: U16)
    ensures IsList(head, ns)
    ensures Entries(ns) == Arranged(FirstN(Kept(r, xs), maxresults), r.diropts, sortopts)
    ensures count == |Arranged(FirstN(Kept(r, xs), maxresults), r.diropts, sortopts)| % 65536
  {
    var c, kept := Collect(xs, r, maxresults);
    head, ns := c.Finish(sortopts, kept, r.diropts);
    ArrangedKeeps(kept, r.diropts, sortopts);
    count := c.count;
  }
}

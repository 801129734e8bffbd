/** READDIRX, SEEKDIR and TELLDIR on a loaded listing (src/directory.c): packing entries into one
    reply, and the proof that a client reading page after page gets the whole listing once. */
module Paging {
  import opened CStrings
  import opened Endian
  import opened EntryOrder
  import opened DirList
  import opened Listing
  import opened DirHandle
  import Status

  const MAX_PAYLOAD := 527
  const HEADER_SIZE := 4
  const ENTRY_SIZE := 14

  // ---------- The bytes of an entry and of a page ----------

  /** Byte k of an entry: flags, size, mtime, ctime, the name and its terminator. */
  function EntryByte(e: Entry, k: nat): U8
    requires k < ENTRY_SIZE + |e.name|
  {
    if k == 0 then e.flags
    else if k < 5 then Le32(e.size)[k - 1]
    else if k < 9 then Le32(e.mtime)[k - 5]
    else if k < 13 then Le32(e.ctime)[k - 9]
    else if k < 13 + |e.name| then e.name[k - 13] as int
    else 0
  }

  function Encoded(e: Entry): (r: seq<U8>)
    ensures |r| == ENTRY_SIZE + |e.name| && forall k :: 0 <= k < |r| ==> r[k] == EntryByte(e, k)
  {
    seq(ENTRY_SIZE + |e.name|, k requires 0 <= k < ENTRY_SIZE + |e.name| => EntryByte(e, k))
  }

  /** The bytes of part stand in s from index i on. */
  ghost predicate StandsAt(s: seq<U8>, i: nat, part: seq<U8>) {
    i + |part| <= |s| && forall k :: 0 <= k < |part| ==> s[i + k] == part[k]
  }

  lemma StandsConcat(s: seq<U8>, i: nat, a: seq<U8>, b: seq<U8>)
    requires StandsAt(s, i, a + b)
    ensures StandsAt(s, i, a) && StandsAt(s, i + |a|, b)
  {
    forall k | 0 <= k < |a|
      ensures s[i + k] == a[k]
    {
      assert (a + b)[k] == a[k];
    }
    forall k | 0 <= k < |b|
      ensures s[i + |a| + k] == b[k]
    {
      assert (a + b)[|a| + k] == b[k];
    }
  }

  /** n parts from index at on, one after the other. */
  function Joined(parts: seq<seq<U8>>, at: nat, n: nat): seq<U8>
    requires at + n <= |parts|
  {
    if n == 0 then [] else Joined(parts, at, n - 1) + parts[at + n - 1]
  }

  function Parts(es: seq<Entry>): (r: seq<seq<U8>>)
    ensures |r| == |es| && forall i :: 0 <= i < |es| ==> r[i] == Encoded(es[i])
  {
    seq(|es|, i requires 0 <= i < |es| => Encoded(es[i]))
  }

  /** How many entries, from index at on, go into a reply that holds `sent` entries in `used` bytes. */
  function Taken(es: seq<Entry>, at: nat, req: U8, used: nat, sent: nat): (n: nat)
    requires at <= |es|
    ensures at + n <= |es|
    decreases |es| - at
  {
    if at == |es| || (req != 0 && sent >= req) || used + ENTRY_SIZE + |es[at].name| > MAX_PAYLOAD then 0
    else 1 + Taken(es, at + 1, req, used + ENTRY_SIZE + |es[at].name|, sent + 1)
  }

  /** The bytes of n entries from index at on. */
  function Space(es: seq<Entry>, at: nat, n: nat): nat
    requires at + n <= |es|
    decreases n
  {
    if n == 0 then 0 else ENTRY_SIZE + |es[at].name| + Space(es, at + 1, n - 1)
  }

  /** n entries from index at on are allowed by the requested count and by the space left. */
  predicate Allowed(es: seq<Entry>, at: nat, req: U8, used: nat, sent: nat, n: nat)
    requires at + n <= |es|
  {
    (req != 0 ==> sent + n <= req) && used + Space(es, at, n) <= MAX_PAYLOAD
  }

  lemma {:induction false} JoinedFirst(parts: seq<seq<U8>>, at: nat, n: nat)
    requires n > 0 && at + n <= |parts|
    ensures Joined(parts, at, n) == parts[at] + Joined(parts, at + 1, n - 1)
  {
    if n > 1 {
      JoinedFirst(parts, at, n - 1);
      var x, y, z := parts[at], Joined(parts, at + 1, n - 2), parts[at + n - 1];
      assert (x + y) + z == x + (y + z);
    }
  }

  lemma {:induction false} JoinedSize(es: seq<Entry>, parts: seq<seq<U8>>, at: nat, n: nat)
    requires |parts| == |es| && at + n <= |es|
    requires forall i :: 0 <= i < |es| ==> |parts[i]| == ENTRY_SIZE + |es[i].name|
    ensures |Joined(parts, at, n)| == Space(es, at, n)
    decreases n
  {
    if n > 0 {
      JoinedFirst(parts, at, n);
      JoinedSize(es, parts, at + 1, n - 1);
    }
  }

  /** A page takes the longest prefix that the count and the space allow. */
  lemma {:induction false} TakenIsLongest(es: seq<Entry>, at: nat, req: U8, used: nat, sent: nat)
    requires at <= |es| && used <= MAX_PAYLOAD && (req != 0 ==> sent <= req)
    ensures Allowed(es, at, req, used, sent, Taken(es, at, req, used, sent))
    ensures forall n :: Taken(es, at, req, used, sent) < n <= |es| - at ==> !Allowed(es, at, req, used, sent, n)
    decreases |es| - at
  {
    var t := Taken(es, at, req, used, sent);
    if t > 0 {
      TakenIsLongest(es, at + 1, req, used + ENTRY_SIZE + |es[at].name|, sent + 1);
    }
    forall n | t < n <= |es| - at
      ensures !Allowed(es, at, req, used, sent, n)
    {
      if t > 0 {
        assert !Allowed(es, at + 1, req, used + ENTRY_SIZE + |es[at].name|, sent + 1, n - 1);
      }
    }
  }

  /** Number of entries on the page that starts at the cursor. */
  function PageSize(es: seq<Entry>, at: nat, req: U8): (n: nat)
    requires at <= |es|
    ensures at + n <= |es|
  {
    Taken(es, at, req, HEADER_SIZE, 0)
  }

  lemma LowBytes(v: nat)
    ensures FromLe16([v % 256, v / 256 % 256]) == v % 65536
  {
  }

  /** The reply's own header, then the entries. */
  function PageBytes(n: U8, eof: bool, at: nat, body: seq<U8>): (p: seq<U8>)
    ensures |p| == HEADER_SIZE + |body|
    ensures p[0] == n && p[1] == (if eof then 1 else 0) && FromLe16([p[2], p[3]]) == at % 65536
    ensures StandsAt(p, HEADER_SIZE, body)
  {
    LowBytes(at);
    [n, if eof then 1 else 0, at % 256, at / 256 % 256] + body
  }

  /** The payload of a READDIRX reply. */
  function Payload(es: seq<Entry>, at: nat, req: U8): seq<U8>
    requires at < |es|
  {
    var n := PageSize(es, at, req);
    PageBytes(n % 256, at + n == |es|, at, Joined(Parts(es), at, n))
  }

  /** Every name fits the name buffer of an entry. */
  predicate Listable(es: seq<Entry>) {
    forall i :: 0 <= i < |es| ==> |es[i].name| < MAX_FILENAME_LEN
  }

  /** A page holds between one and 37 entries. */
  lemma PageCount(es: seq<Entry>, at: nat, req: U8)
    requires at < |es| && Listable(es)
    ensures 1 <= PageSize(es, at, req) <= 37
    ensures PageSize(es, at, req) % 256 == PageSize(es, at, req)
  {
    TakenIsLongest(es, at, req, HEADER_SIZE, 0);
    SpaceGrows(es, at, PageSize(es, at, req));
    assert Allowed(es, at, req, HEADER_SIZE, 0, 1);
  }

  lemma {:induction false} SpaceGrows(es: seq<Entry>, at: nat, n: nat)
    requires at + n <= |es|
    ensures Space(es, at, n) >= ENTRY_SIZE * n
    decreases n
  {
    if n > 0 {
      SpaceGrows(es, at + 1, n - 1);
    }
  }

  /** The reply never exceeds the payload limit, and a longer page would exceed it or the requested
      count. */
  lemma PageFits(es: seq<Entry>, at: nat, req: U8)
    requires at < |es| && Listable(es)
    ensures var n := PageSize(es, at, req);
      && HEADER_SIZE <= |Payload(es, at, req)| <= MAX_PAYLOAD
      && (at + n < |es| ==> n == req || |Payload(es, at, req)| + |Encoded(es[at + n])| > MAX_PAYLOAD)
  {
    var n := PageSize(es, at, req);
    TakenIsLongest(es, at, req, HEADER_SIZE, 0);
    JoinedSize(es, Parts(es), at, n);
    if at + n < |es| {
      JoinedSize(es, Parts(es), at, n + 1);
      assert !Allowed(es, at, req, HEADER_SIZE, 0, n + 1);
    }
  }

  // ---------- The client's side ----------

  /** The index of the first zero byte from i on, or the length when there is none. */
  function Terminator(s: seq<U8>, i: nat): (z: nat)
    requires i <= |s|
    ensures i <= z <= |s| && (forall k :: i <= k < z ==> s[k] != 0) && (z < |s| ==> s[z] == 0)
    decreases |s| - i
  {
    if i == |s| || s[i] == 0 then i else Terminator(s, i + 1)
  }

  function Text(s: seq<U8>, i: nat, z: nat): (r: CString)
    requires i <= z <= |s| && forall k :: i <= k < z ==> s[k] != 0
    ensures |r| == z - i && forall k :: 0 <= k < z - i ==> r[k] as int == s[i + k]
  {
    seq(z - i, k requires 0 <= k < z - i => s[i + k] as char)
  }

  function U32At(s: seq<U8>, i: nat): U32
    requires i + 4 <= |s|
  {
    FromLe32([s[i], s[i + 1], s[i + 2], s[i + 3]])
  }

  /** Reads n entries from index i on. */
  function DecodeEntries(s: seq<U8>, i: nat, n: nat): Option<seq<Entry>>
    decreases n
  {
    if n == 0 then Some([])
    else if i + ENTRY_SIZE > |s| then None
    else
      var z := Terminator(s, i + 13);
      if z == |s| then None
      else
        match DecodeEntries(s, z + 1, n - 1)
        case None => None
        case Some(rest) => Some([Entry(s[i], U32At(s, i + 1), U32At(s, i + 5), U32At(s, i + 9),
            Text(s, i + 13, z))] + rest)
  }

  datatype Page = Page(entries: seq<Entry>, eof: bool, dirpos: U16)

  function DecodePage(s: seq<U8>): Option<Page> {
    if |s| < HEADER_SIZE then None
    else
      match DecodeEntries(s, HEADER_SIZE, s[0])
      case None => None
      case Some(es) => Some(Page(es, s[1] % 2 == 1, FromLe16([s[2], s[3]])))
  }

  lemma U32AtLe32(s: seq<U8>, i: nat, v: U32)
    requires StandsAt(s, i, Le32(v))
    ensures U32At(s, i) == v
  {
    RoundTrip32(v, []);
    var w := Le32(v);
    assert s[i + 0] == w[0] && s[i + 1] == w[1] && s[i + 2] == w[2] && s[i + 3] == w[3];
    assert [s[i], s[i + 1], s[i + 2], s[i + 3]] == w;
  }

  lemma DecodeName(s: seq<U8>, i: nat, name: CString)
    requires i + |name| + 1 <= |s| && s[i + |name|] == 0
    requires forall k :: 0 <= k < |name| ==> s[i + k] == name[k] as int
    ensures Terminator(s, i) == i + |name| && Text(s, i, i + |name|) == name
  {
    forall k | i <= k < i + |name|
      ensures s[k] != 0
    {
      assert s[i + (k - i)] == name[k - i] as int;
    }
  }

  lemma NumberStands(s: seq<U8>, i: nat, e: Entry, at: nat, v: U32)
    requires StandsAt(s, i, Encoded(e)) && (at, v) in {(1, e.size), (5, e.mtime), (9, e.ctime)}
    ensures U32At(s, i + at) == v
  {
    forall k | 0 <= k < 4
      ensures s[i + at + k] == Le32(v)[k]
    {
      assert s[i + (at + k)] == EntryByte(e, at + k);
    }
    U32AtLe32(s, i + at, v);
  }

  lemma FlagsAndNameStand(s: seq<U8>, i: nat, e: Entry)
    requires StandsAt(s, i, Encoded(e))
    ensures s[i] == e.flags
    ensures Terminator(s, i + 13) == i + 13 + |e.name| && Text(s, i + 13, i + 13 + |e.name|) == e.name
  {
    hide Le32, Terminator, Text;
    assert s[i + 0] == EntryByte(e, 0);
    forall k | 0 <= k < |e.name|
      ensures s[i + 13 + k] == e.name[k] as int
    {
      assert s[i + (13 + k)] == EntryByte(e, 13 + k);
    }
    assert s[i + (13 + |e.name|)] == EntryByte(e, 13 + |e.name|);
    DecodeName(s, i + 13, e.name);
  }

  lemma DecodeFields(s: seq<U8>, i: nat, e: Entry)
    requires StandsAt(s, i, Encoded(e))
    ensures s[i] == e.flags && U32At(s, i + 1) == e.size && U32At(s, i + 5) == e.mtime && U32At(s, i + 9) == e.ctime
    ensures Terminator(s, i + 13) == i + 13 + |e.name| && Text(s, i + 13, i + 13 + |e.name|) == e.name
  {
    hide EntryByte, U32At, Terminator, Text;
    NumberStands(s, i, e, 1, e.size);
    NumberStands(s, i, e, 5, e.mtime);
    NumberStands(s, i, e, 9, e.ctime);
    FlagsAndNameStand(s, i, e);
  }

  /** The entry in front, and the entries behind it. */
  lemma DecodeFirst(s: seq<U8>, i: nat, e: Entry, n: nat, rest: seq<Entry>)
    requires StandsAt(s, i, Encoded(e)) && DecodeEntries(s, i + |Encoded(e)|, n) == Some(rest)
    ensures DecodeEntries(s, i, n + 1) == Some([e] + rest)
  {
    EntryFits(s, i, e);
    DecodeFields(s, i, e);
    hide StandsAt, U32At, EntryByte, Text, Terminator;
  }

  lemma EntryFits(s: seq<U8>, i: nat, e: Entry)
    requires StandsAt(s, i, Encoded(e))
    ensures i + ENTRY_SIZE + |e.name| <= |s|
  {
  }

  lemma DecodeNone(s: seq<U8>, i: nat)
    ensures DecodeEntries(s, i, 0) == Some([])
  {
  }

  lemma RangeFirst(es: seq<Entry>, at: nat, n: nat)
    requires at + n < |es|
    ensures es[at..at + n + 1] == [es[at]] + es[at + 1..at + n + 1]
  {
  }

  lemma {:induction false} DecodeJoined(s: seq<U8>, i: nat, es: seq<Entry>, parts: seq<seq<U8>>, at: nat, n: nat)
    requires |parts| == |es| && at + n <= |es| && forall k :: 0 <= k < |es| ==> parts[k] == Encoded(es[k])
    requires StandsAt(s, i, Joined(parts, at, n))
    ensures DecodeEntries(s, i, n) == Some(es[at..at + n])
    decreases n
  {
    hide StandsAt, Encoded, DecodeEntries, Joined;
    if n == 0 {
      DecodeNone(s, i);
      assert es[at..at + n] == [];
    } else {
      var first, rest := parts[at], Joined(parts, at + 1, n - 1);
      JoinedFirst(parts, at, n);
      StandsConcat(s, i, first, rest);
      DecodeJoined(s, i + |first|, es, parts, at + 1, n - 1);
      DecodeFirst(s, i, es[at], n - 1, es[at + 1..at + n]);
      RangeFirst(es, at, n - 1);
    }
  }

  lemma DecodeHeader(n: U8, eof: bool, at: nat, body: seq<U8>, es: seq<Entry>)
    requires DecodeEntries(PageBytes(n, eof, at, body), HEADER_SIZE, n) == Some(es)
    ensures DecodePage(PageBytes(n, eof, at, body)) == Some(Page(es, eof, at % 65536))
  {
  }

  /** Decoding a reply gives back the page: its entries, the end flag and the starting position. */
  lemma DecodePayload(es: seq<Entry>, at: nat, req: U8)
    requires at < |es| && Listable(es)
    ensures var n := PageSize(es, at, req);
      DecodePage(Payload(es, at, req)) == Some(Page(es[at..at + n], at + n == |es|, at % 65536))
  {
    hide DecodePage, PageBytes, DecodeEntries, Encoded;
    PageCount(es, at, req);
    var n := PageSize(es, at, req);
    var body := Joined(Parts(es), at, n);
    DecodeJoined(PageBytes(n, at + n == |es|, at, body), HEADER_SIZE, es, Parts(es), at, n);
    DecodeHeader(n, at + n == |es|, at, body, es[at..at + n]);
  }

  // ---------- Reading page after page ----------

  /** Where the cursor is after a run of READDIRX requests with the given counts. */
  function CursorAfter(es: seq<Entry>, at: nat, reqs: seq<U8>): (c: nat)
    requires at <= |es|
    ensures at <= c <= |es|
    decreases |reqs|
  {
    if reqs == [] || at == |es| then at
    else CursorAfter(es, at + PageSize(es, at, reqs[0]), reqs[1..])
  }

  /** The payloads of the run; at the end of the listing the reply has none. */
  function Payloads(es: seq<Entry>, at: nat, reqs: seq<U8>): seq<seq<U8>>
    requires at <= |es|
    decreases |reqs|
  {
    if reqs == [] || at == |es| then []
    else [Payload(es, at, reqs[0])] + Payloads(es, at + PageSize(es, at, reqs[0]), reqs[1..])
  }

  /** The pages those payloads stand for. */
  function PagesOf(es: seq<Entry>, at: nat, reqs: seq<U8>): seq<Page>
    requires at <= |es|
    decreases |reqs|
  {
    if reqs == [] || at == |es| then []
    else
      var next := at + PageSize(es, at, reqs[0]);
      [Page(es[at..next], next == |es|, at % 65536)] + PagesOf(es, next, reqs[1..])
  }

  function Gathered(pages: seq<Page>): seq<Entry> {
    if pages == [] then [] else pages[0].entries + Gathered(pages[1..])
  }

  /** The first page of a run, and the run after it. */
  lemma RunStep(es: seq<Entry>, at: nat, reqs: seq<U8>)
    requires at < |es| && reqs != []
    ensures var next := at + PageSize(es, at, reqs[0]);
      && Payloads(es, at, reqs) == [Payload(es, at, reqs[0])] + Payloads(es, next, reqs[1..])
      && PagesOf(es, at, reqs) == [Page(es[at..next], next == |es|, at % 65536)] + PagesOf(es, next, reqs[1..])
  {
  }

  /** Every reply of the run decodes to its page. */
  lemma {:induction false} PayloadDecodes(es: seq<Entry>, at: nat, reqs: seq<U8>, i: nat)
    requires at <= |es| && Listable(es)
    ensures |Payloads(es, at, reqs)| == |PagesOf(es, at, reqs)|
    ensures i < |Payloads(es, at, reqs)| ==> DecodePage(Payloads(es, at, reqs)[i]) == Some(PagesOf(es, at, reqs)[i])
    decreases |reqs|
  {
    hide DecodePage, Payload, PageSize, Listable;
    if reqs != [] && at < |es| {
      RunStep(es, at, reqs);
      hide Payloads, PagesOf;
      if i == 0 {
        DecodePayload(es, at, reqs[0]);
      }
      PayloadDecodes(es, at + PageSize(es, at, reqs[0]), reqs[1..], if i == 0 then 0 else i - 1);
    }
  }

  /** Every page moves the cursor. */
  lemma {:induction false} PagesAdvance(es: seq<Entry>, at: nat, reqs: seq<U8>)
    requires at <= |es| && Listable(es)
    ensures CursorAfter(es, at, reqs) < |es| ==> CursorAfter(es, at, reqs) >= at + |reqs|
    decreases |reqs|
  {
    if reqs != [] && at < |es| {
      PageCount(es, at, reqs[0]);
      PagesAdvance(es, at + PageSize(es, at, reqs[0]), reqs[1..]);
    }
  }

  /** The pages together are exactly the entries the cursor has passed, in order. */
  lemma {:induction false} PagesCover(es: seq<Entry>, at: nat, reqs: seq<U8>)
    requires at <= |es|
    ensures Gathered(PagesOf(es, at, reqs)) == es[at..CursorAfter(es, at, reqs)]
    decreases |reqs|
  {
    hide PageSize;
    var c := CursorAfter(es, at, reqs);
    if reqs == [] || at == |es| {
      assert es[at..c] == [];
    } else {
      var next := at + PageSize(es, at, reqs[0]);
      PagesCover(es, next, reqs[1..]);
      assert es[at..c] == es[at..next] + es[next..c];
    }
  }

  /** Only the page that reaches the end of the listing carries the end flag. */
  lemma {:induction false} EndFlagOnLastPage(es: seq<Entry>, at: nat, reqs: seq<U8>, i: nat)
    requires at <= |es| && i < |PagesOf(es, at, reqs)|
    ensures PagesOf(es, at, reqs)[i].eof <==> i == |PagesOf(es, at, reqs)| - 1 && CursorAfter(es, at, reqs) == |es|
    decreases |reqs|
  {
    hide PageSize;
    var next := at + PageSize(es, at, reqs[0]);
    var rest := PagesOf(es, next, reqs[1..]);
    if i > 0 {
      EndFlagOnLastPage(es, next, reqs[1..], i - 1);
    } else if rest != [] {
      assert next < |es|;
    } else {
      assert reqs[1..] == [] || next == |es|;
    }
  }

  /** Whatever counts are asked for, the client decodes exactly the entries the cursor has passed,
      once and in order; and as many requests as there are entries read the whole listing. */
  lemma PagingDeliversListing(es: seq<Entry>, reqs: seq<U8>)
    requires Listable(es)
    ensures var replies, pages := Payloads(es, 0, reqs), PagesOf(es, 0, reqs);
      && |replies| == |pages|
      && (forall i :: 0 <= i < |pages| ==> DecodePage(replies[i]) == Some(pages[i]))
      && Gathered(pages) == es[..CursorAfter(es, 0, reqs)]
      && (|reqs| >= |es| ==> Gathered(pages) == es)
  {
    forall i: nat {
      PayloadDecodes(es, 0, reqs, i);
    }
    PayloadDecodes(es, 0, reqs, 0);
    PagesCover(es, 0, reqs);
    PagesAdvance(es, 0, reqs);
    var c := CursorAfter(es, 0, reqs);
    assert es[0..c] == es[..c] && es[..|es|] == es;
  }

  // ---------- Seeking ----------

  /** The cursor SEEKDIR sets: past the end means the end. */
  function SeekTarget(es: seq<Entry>, pos: U32): (c: nat)
    ensures c <= |es|
  {
    if pos < |es| then pos else |es|
  }

  /** A TELLDIR value restores exactly the cursor it was taken at, the end of the listing included. */
  lemma TellThenSeek(es: seq<Entry>, at: nat)
    requires at <= |es| < TWO_32
    ensures SeekTarget(es, FromLe32(Le32(at))) == at
  {
    RoundTrip32(at, []);
  }

  /** The position in a page is the cursor modulo 2^16 (DecodePayload), so seeking to it restores the
      cursor exactly when the page starts below 2^16. */
  lemma DirposThenSeek(es: seq<Entry>, at: nat)
    requires at < |es|
    ensures SeekTarget(es, at % 65536) == at <==> at < 65536
  {
  }

  // ---------- The handlers ----------

  datatype Reply = Reply(status: U8, payload: seq<U8>)

  /** What READDIRX answers for a slot. */
  function ReadReply(s: Slot, req: U8): Reply {
    if s.cursor >= |s.entries| then Reply(Status.EOF, [])
    else Reply(Status.SUCCESS, Payload(s.entries, s.cursor, req))
  }

  /** The slot after READDIRX: only the cursor moves. */
  function AfterRead(s: Slot, req: U8): Slot {
    s.(cursor := s.cursor + if s.cursor >= |s.entries| then 0 else PageSize(s.entries, s.cursor, req))
  }

  function Bytes(s: CString): (r: seq<U8>)
    ensures |r| == |s| && forall i :: 0 <= i < |s| ==> r[i] == s[i] as int
  {
    seq(|s|, i requires 0 <= i < |s| => s[i] as int)
  }

  /** strcpy into the reply. */
  method PutName(buf: array<U8>, at: nat, name: CString)
    requires at + |name| + 1 <= buf.Length
    modifies buf
    ensures Wrote(old(buf[..]), buf[..], at, Bytes(name) + [0])
  {
    for k := 0 to |name|
      invariant Wrote(old(buf[..]), buf[..], at, Bytes(name)[..k])
    {
      buf[at + k] := name[k] as int;
    }
    buf[at + |name|] := 0;
    assert Bytes(name)[..|name|] == Bytes(name);
  }

  /** One entry into the reply: the name first, then the fields before it. */
  method PutEntry(buf: array<U8>, at: nat, e: Entry)
    requires at + ENTRY_SIZE + |e.name| <= buf.Length
    modifies buf
    ensures Wrote(old(buf[..]), buf[..], at, Encoded(e))
  {
    PutName(buf, at + 13, e.name);
    buf[at] := e.flags;
    PutLe32(buf, at + 1, e.size);
    PutLe32(buf, at + 5, e.mtime);
    PutLe32(buf, at + 9, e.ctime);
  }

  /** The reply buffer holds `sent` entries from start on, in its first `total` bytes. */
  ghost predicate Packed(b: seq<U8>, parts: seq<seq<U8>>, start: nat, sent: nat, total: nat) {
    && |b| == MAX_PAYLOAD && start + sent <= |parts|
    && total == HEADER_SIZE + |Joined(parts, start, sent)| <= MAX_PAYLOAD
    && b[HEADER_SIZE..total] == Joined(parts, start, sent)
    && b[0] == sent && b[1] == 0
    && (sent > 0 ==> b[2..4] == Le16(start % 65536))
  }

  lemma PackedEmpty(b: seq<U8>, parts: seq<seq<U8>>, start: nat)
    requires |b| == MAX_PAYLOAD && b[0] == 0 && b[1] == 0 && start <= |parts|
    ensures Packed(b, parts, start, 0, HEADER_SIZE)
  {
  }

  lemma PackedSize(b: seq<U8>, parts: seq<seq<U8>>, start: nat, sent: nat, total: nat)
    requires Packed(b, parts, start, sent, total)
    ensures |b| == MAX_PAYLOAD && HEADER_SIZE <= total <= MAX_PAYLOAD
  {
  }

  lemma PackedStep(b: seq<U8>, c: seq<U8>, parts: seq<seq<U8>>, start: nat, sent: nat, total: nat, end: nat)
    requires Packed(b, parts, start, sent, total) && start + sent < |parts| && |c| == MAX_PAYLOAD
    requires end == total + |parts[start + sent]| <= MAX_PAYLOAD
    requires c[0] == sent + 1 && c[1] == 0 && c[2..4] == Le16(start % 65536)
    requires c[HEADER_SIZE..total] == b[HEADER_SIZE..total]
    requires c[total..end] == parts[start + sent]
    ensures Packed(c, parts, start, sent + 1, end)
  {
    assert c[HEADER_SIZE..end] == c[HEADER_SIZE..total] + c[total..end];
  }

  /** The body of the loop: the position with the first entry, the entry, the count. */
  method PackEntry(buf: array<U8>, dh: Handle, total: nat, sent: nat, ghost parts: seq<seq<U8>>, ghost start: nat)
    requires dh.Valid() && |dh.nodes| == |parts| < TWO_32 && start + sent == dh.cursor < |dh.nodes| && sent < 255
    requires parts[dh.cursor] == Encoded(dh.nodes[dh.cursor].entry)
    requires Packed(buf[..], parts, start, sent, total)
    requires total + |parts[dh.cursor]| <= MAX_PAYLOAD
    modifies buf
    ensures Packed(buf[..], parts, start, sent + 1, total + |parts[dh.cursor]|)
  {
    ghost var b := buf[..];
    if sent == 0 {
      var index := GetIndexForNode(dh.entryList, dh.nodes, dh.currentEntry);
      PutLe16(buf, 2, index % 65536);
    }
    var e := dh.currentEntry.entry;
    PutEntry(buf, total, e);
    buf[0] := sent + 1;
    assert buf[2..4] == Le16(start % 65536);
    assert buf[HEADER_SIZE..total] == b[HEADER_SIZE..total];
    PackedStep(b, buf[..], parts, start, sent, total, total + |parts[dh.cursor]|);
  }

  lemma PackedIsPayload(b: seq<U8>, es: seq<Entry>, start: nat, sent: nat, total: nat, req: U8)
    requires Packed(b, Parts(es), start, sent, total) && start < |es| && sent == PageSize(es, start, req) && sent > 0
    ensures b[1 := if start + sent == |es| then 1 else 0][..total] == Payload(es, start, req)
  {
    hide PageSize, Joined, Encoded;
    var c := b[1 := if start + sent == |es| then 1 else 0];
    assert c[..total] == [c[0], c[1]] + c[2..4] + c[HEADER_SIZE..total];
    assert c[2..4] == b[2..4] && c[HEADER_SIZE..total] == b[HEADER_SIZE..total];
  }

  /** One turn of the loop: pack the current entry and advance. */
  method PackNext(buf: array<U8>, dh: Handle, total: nat, sent: nat, ghost parts: seq<seq<U8>>, ghost start: nat)
      returns (end: nat)
    requires dh.Valid() && |dh.nodes| == |parts| < TWO_32 && start + sent == dh.cursor < |dh.nodes| && sent < 255
    requires parts[dh.cursor] == Encoded(dh.nodes[dh.cursor].entry)
    requires Packed(buf[..], parts, start, sent, total)
    requires total + |parts[dh.cursor]| <= MAX_PAYLOAD
    modifies buf, dh`currentEntry, dh`cursor
    ensures dh.Valid() && dh.cursor == start + sent + 1
    ensures end == total + |parts[start + sent]| && Packed(buf[..], parts, start, sent + 1, end)
  {
    end := total + ENTRY_SIZE + |dh.currentEntry.entry.name|;
    PackEntry(buf, dh, total, sent, parts, start);
    dh.Advance();
  }

  /** The packing loop of tnfs_readdirx. */
  method PackPage(dh: Handle, req: U8, buf: array<U8>, ghost es: seq<Entry>, ghost parts: seq<seq<U8>>)
      returns (total: nat)
    requires dh.Valid() && es == Entries(dh.nodes) && |es| == |parts| < TWO_32 && dh.cursor < |es|
    requires forall i :: 0 <= i < |es| ==> parts[i] == Encoded(es[i])
    requires PageSize(es, dh.cursor, req) < 255
    requires Packed(buf[..], parts, dh.cursor, 0, HEADER_SIZE)
    modifies dh`currentEntry, dh`cursor, buf
    ensures dh.Valid()
    ensures var n := PageSize(es, old(dh.cursor), req);
      dh.cursor == old(dh.cursor) + n && Packed(buf[..], parts, old(dh.cursor), n, total)
  {
    hide Packed, Encoded, IsList;
    ghost var start := dh.cursor;
    var sent: nat := 0;
    total := HEADER_SIZE;
    while dh.currentEntry != null && !(req != 0 && sent >= req)
      invariant dh.Valid()
      invariant dh.cursor == start + sent
      invariant Packed(buf[..], parts, start, sent, total)
      invariant PageSize(es, start, req) == sent + Taken(es, dh.cursor, req, total, sent)
      decreases |es| - dh.cursor
    {
      var size := ENTRY_SIZE + |dh.currentEntry.entry.name|;
      if total + size > MAX_PAYLOAD {
        break;
      }
      total := PackNext(buf, dh, total, sent, parts, start);
      sent := sent + 1;
    }
  }

  /** tnfs_readdirx on a valid handle number. */
  method ReadDirX(dh: Handle, req: U8) returns (reply: Reply)
    requires dh.Valid() && Listable(Entries(dh.nodes)) && |dh.nodes| < TWO_32
    modifies dh`currentEntry, dh`cursor
    ensures dh.Valid()
    ensures reply == ReadReply(old(dh.View()), req)
    ensures dh.View() == AfterRead(old(dh.View()), req)
  {
    if dh.currentEntry == null {
      return Reply(Status.EOF, []);
    }
    var buf := new U8[MAX_PAYLOAD](_ => 0);
    ghost var es, start := Entries(dh.nodes), dh.cursor;
    ghost var n := PageSize(es, start, req);
    PageCount(es, start, req);
    hide Packed, PageSize, Encoded, IsList, Payload;
    PackedEmpty(buf[..], Parts(es), start);
    var total := PackPage(dh, req, buf, es, Parts(es));
    PackedSize(buf[..], Parts(es), start, n, total);
    PackedIsPayload(buf[..], es, start, n, total, req);
    if dh.currentEntry == null {
      buf[1] := 1;
    }
    reply := Reply(Status.SUCCESS, buf[..total]);
  }

  /** tnfs_seekdir on an open handle: a handle with a listing moves its cursor, any other hands the position
      to seekdir(). */
  method SeekDir(dh: Handle, pos: U32) returns (onStream: bool)
    requires dh.Valid()
    modifies dh`currentEntry, dh`cursor
    ensures dh.Valid() && (onStream <==> old(dh.View()).entries == [])
    ensures dh.View() == if onStream then old(dh.View())
        else old(dh.View()).(cursor := SeekTarget(Entries(dh.nodes), pos))
  {
    onStream := dh.entryList == null;
    if !onStream {
      dh.currentEntry := GetNodeAtIndex(dh.entryList, dh.nodes, pos);
      dh.cursor := SeekTarget(Entries(dh.nodes), pos);
    }
  }

  /** tnfs_telldir on an open handle: the cursor, or what telldir() answered. */
  method TellDir(dh: Handle, told: U32) returns (payload: seq<U8>)
    requires dh.Valid() && |dh.nodes| < TWO_32
    ensures payload == Le32(if dh.View().entries == [] then told else dh.cursor)
  {
    if dh.entryList == null {
      return Le32(told);
    }
    var index := GetIndexForNode(dh.entryList, dh.nodes, dh.currentEntry);
    payload := Le32(index);
  }
}

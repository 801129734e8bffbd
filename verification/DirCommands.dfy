/** OPENDIR, OPENDIRX and CLOSEDIR and the release of all handles (src/directory.c), on the slots of
    one session: what they answer, which streams they open and close, and what a reused listing is. */
module DirCommands {
  import opened CStrings
  import opened Endian
  import opened EntryOrder
  import opened Listing
  import opened DirHandle
  import opened Handles
  import opened Paging
  import Os
  import Status

  /** What the operating system answers to opendir: a new stream, or a status. */
  datatype Opening = NotOpened(status: U8) | Opened(stream: nat)

  /** What it answers to a listing: a failure, or the enumeration, the ignore patterns found at the top,
      and the stream opendir returned (a walk leaves no stream open). */
  datatype Enumeration = Failed(status: U8) | Enumerated(stream: nat, found: seq<Found>, ignores: seq<CString>)

  datatype Answer = Answer(slots: seq<Slot>, reply: Reply)

  // ---------- The commands on values ----------

  function OpenDir(slots: seq<Slot>, path: CString, now: int, opening: Opening): Answer {
    var c := Choose(slots, Key(path, 0, 0, None), false, now);
    if !(0 <= c.index < |c.slots|) then Answer(c.slots, Reply(Status.EMFILE, []))
    else
      match opening
      case NotOpened(status) => Answer(c.slots, Reply(status, []))
      case Opened(stream) =>
        Answer(c.slots[c.index := c.slots[c.index].(stream := stream, open := true)],
            Reply(Status.SUCCESS, [c.index % 256]))
  }

  /** The traversal root: the path without one trailing slash. */
  function WalkRoot(path: CString): CString {
    if path != [] && path[|path| - 1] == '/' then path[..|path| - 1] else path
  }

  /** The filters in force for a request. */
  function RulesFor(k: Key, path: CString, ignores: seq<CString>): Rules {
    var opts := DirOptsOf(k.diropt);
    if opts.traverse then Walk(opts, ignores, k.pattern, WalkRoot(path)) else Load(opts, ignores, k.pattern)
  }

  ghost function ListingFor(k: Key, path: CString, maxresults: U16, found: seq<Found>,
      ignores: seq<CString>): seq<Entry> {
    Arranged(FirstN(Kept(RulesFor(k, path, ignores), found), maxresults), DirOptsOf(k.diropt), SortOptsOf(k.sortopt))
  }

  /** The slot after a listing was built into it. */
  ghost function Built(s: Slot, k: Key, maxresults: U16, e: Enumeration): Slot
    requires e.Enumerated?
  {
    var es := ListingFor(k, s.path, maxresults, e.found, e.ignores);
    var t := s.(entries := es, cursor := 0, count := |es| % 65536);
    if DirOptsOf(k.diropt).traverse then t else t.(stream := e.stream, ignores := e.ignores)
  }

  function ReplyWithCount(index: nat, s: Slot): Reply {
    Reply(Status.SUCCESS, [index % 256] + Le16(s.count))
  }

  /** OPENDIRX once a slot has been chosen. */
  ghost function OpenChosen(c: Chosen, k: Key, maxresults: U16, e: Enumeration): Answer {
    if !(0 <= c.index < |c.slots|) then Answer(c.slots, Reply(Status.EMFILE, []))
    else
      var s := c.slots[c.index];
      if DirOptsOf(k.diropt).traverse && s.loaded then
        Answer(c.slots[c.index := s.(open := true)], ReplyWithCount(c.index, s))
      else
        match e
        case Failed(status) => Answer(c.slots, Reply(status, []))
        case Enumerated(_, _, _) =>
          var t := Built(s, k, maxresults, e);
          Answer(c.slots[c.index := t.(open := true, loaded := true)], ReplyWithCount(c.index, t))
  }

  ghost function OpenDirX(slots: seq<Slot>, k: Key, maxresults: U16, now: int, e: Enumeration): Answer {
    OpenChosen(Choose(slots, k, DirOptsOf(k.diropt).traverse, now), k, maxresults, e)
  }

  function CloseDir(slots: seq<Slot>, index: nat): Answer {
    if index >= |slots| || !slots[index].open then Answer(slots, Reply(Status.EBADF, []))
    else
      var s := slots[index];
      Answer(slots[index := s.(open := false, stream := if s.loaded then s.stream else 0)], Reply(Status.SUCCESS, []))
  }

  /** tnfs_freesession on the slots. */
  function AllFreed(slots: seq<Slot>): (r: seq<Slot>)
    ensures |r| == |slots| && forall i :: 0 <= i < |slots| ==> r[i] == Cleared(slots[i])
  {
    seq(|slots|, i requires 0 <= i < |slots| => Cleared(slots[i]))
  }

  // ---------- What the commands keep ----------

  /** The streams open once a slot has been chosen: those the choice freed are closed. */
  function OpenOnceChosen(slots: seq<Slot>, dirs: set<nat>, k: Key, reuse: bool, now: int): set<nat> {
    (dirs - Held(slots)) + Held(Choose(slots, k, reuse, now).slots)
  }

  /** A new stream is not one already open. */
  predicate NewStream(stream: nat, dirs: set<nat>) {
    stream != 0 && stream !in dirs
  }

  lemma OpenDirKeeps(slots: seq<Slot>, path: CString, now: int, opening: Opening, dirs: set<nat>)
    requires AllOk(slots) && Owns(slots, dirs)
    requires opening.Opened? ==> NewStream(opening.stream,
        OpenOnceChosen(slots, dirs, Key(path, 0, 0, None), false, now))
    ensures var a := OpenDir(slots, path, now, opening);
      AllOk(a.slots) && Conserves(slots, dirs, a.slots, (dirs - Held(slots)) + Held(a.slots))
  {
    var k := Key(path, 0, 0, None);
    var c := Choose(slots, k, false, now);
    ChoiceKeepsOk(slots, k, false, now);
    ChoiceConserves(slots, dirs, k, false, now);
    ChoiceGuarantees(slots, k, false, now);
    var mid := (dirs - Held(slots)) + Held(c.slots);
    if c.index >= 0 && opening.Opened? {
      var s := c.slots[c.index].(stream := opening.stream, open := true);
      GainConserves(c.slots, mid, c.index, s);
      ConservesChain(slots, dirs, c.slots, mid, c.slots[c.index := s], mid + {opening.stream});
    }
  }

  lemma ListingSize(k: Key, path: CString, maxresults: U16, found: seq<Found>, ignores: seq<CString>)
    ensures |ListingFor(k, path, maxresults, found, ignores)| <= |found|
  {
    var r := RulesFor(k, path, ignores);
    KeptSize(r, found);
    ArrangedKeeps(FirstN(Kept(r, found), maxresults), DirOptsOf(k.diropt), SortOptsOf(k.sortopt));
  }

  lemma {:induction false} KeptSize(r: Rules, xs: seq<Found>)
    ensures |Kept(r, xs)| <= |xs|
  {
    if xs != [] {
      KeptSize(r, xs[..|xs| - 1]);
    }
  }

  /** What the operating system may answer. */
  predicate Plausible(e: Enumeration, dirs: set<nat>) {
    e.Enumerated? ==> NewStream(e.stream, dirs) && |e.found| < TWO_32
  }

  /** A slot handed out without a listing holds no stream. */
  lemma ChosenIsReset(slots: seq<Slot>, k: Key, reuse: bool, now: int)
    requires AllOk(slots)
    ensures var c := Choose(slots, k, reuse, now);
      |c.slots| == |slots| && -1 <= c.index < |slots|
      && (c.index >= 0 && !c.slots[c.index].loaded ==> c.slots[c.index].stream == 0 && !c.slots[c.index].open)
      && (c.index >= 0 && !reuse ==> !c.slots[c.index].loaded)
  {
    ChoiceGuarantees(slots, k, reuse, now);
  }

  lemma OpenDirXKeeps(slots: seq<Slot>, k: Key, maxresults: U16, now: int, e: Enumeration, dirs: set<nat>)
    requires AllOk(slots) && Owns(slots, dirs) &&
        Plausible(e, OpenOnceChosen(slots, dirs, k, DirOptsOf(k.diropt).traverse, now))
    ensures var a := OpenDirX(slots, k, maxresults, now, e);
      AllOk(a.slots) && Conserves(slots, dirs, a.slots, (dirs - Held(slots)) + Held(a.slots))
  {
    hide Choose, ListingFor, Held, Owns, Conserves, DirOptsOf;
    var traverse := DirOptsOf(k.diropt).traverse;
    var c := Choose(slots, k, traverse, now);
    ChoiceKeepsOk(slots, k, traverse, now);
    ChoiceConserves(slots, dirs, k, traverse, now);
    ChosenIsReset(slots, k, traverse, now);
    var mid := (dirs - Held(slots)) + Held(c.slots);
    if c.index >= 0 {
      var s := c.slots[c.index];
      if traverse && s.loaded {
        SameStreamsConserve(c.slots, mid, c.slots[c.index := s.(open := true)]);
        ConservesChain(slots, dirs, c.slots, mid, c.slots[c.index := s.(open := true)], mid);
      } else if e.Enumerated? {
        ListingSize(k, s.path, maxresults, e.found, e.ignores);
        var t := Built(s, k, maxresults, e).(open := true, loaded := true);
        if traverse {
          SameStreamsConserve(c.slots, mid, c.slots[c.index := t]);
          ConservesChain(slots, dirs, c.slots, mid, c.slots[c.index := t], mid);
        } else {
          GainConserves(c.slots, mid, c.index, t);
          ConservesChain(slots, dirs, c.slots, mid, c.slots[c.index := t], mid + {e.stream});
        }
      }
    }
  }

  lemma CloseDirKeeps(slots: seq<Slot>, index: nat, dirs: set<nat>)
    requires AllOk(slots) && Owns(slots, dirs)
    ensures var a := CloseDir(slots, index);
      AllOk(a.slots) && Conserves(slots, dirs, a.slots, (dirs - Held(slots)) + Held(a.slots))
  {
    if index < |slots| && slots[index].open {
      var s := slots[index];
      var t := s.(open := false, stream := if s.loaded then s.stream else 0);
      if s.loaded {
        SameStreamsConserve(slots, dirs, slots[index := t]);
      } else {
        DropConserves(slots, dirs, index, t);
      }
    } else {
      SameStreamsConserve(slots, dirs, slots);
    }
  }

  /** After a session is freed none of its streams is open, and no other stream was closed. */
  lemma FreeingReleasesAll(slots: seq<Slot>, dirs: set<nat>)
    requires AllOk(slots) && Owns(slots, dirs)
    ensures Held(AllFreed(slots)) == {}
    ensures Conserves(slots, dirs, AllFreed(slots), dirs - Held(slots))
  {
  }

  // ---------- What a reused listing is ----------

  /** A listing built for a request, with the request's key as it was asked and the time of the request. */
  datatype Build = Build(key: Key, entries: seq<Entry>, walked: bool, at: int)

  /** The key as the slot records it: texts clipped to the slot's buffers. */
  function Recorded(k: Key): Key {
    Key(Clipped(k.path, MAX_TNFSPATH), k.diropt, k.sortopt, Some(Clipped(k.pattern.GetOr([]), MAX_TNFSPATH)))
  }

  function SlotKey(s: Slot): Key {
    Key(s.path, s.diropt, s.sortopt, Some(s.pattern))
  }

  /** b is where the slot's listing may come from: its entries, and a key and a time recorded as the slot's. */
  predicate Tells(b: Build, s: Slot) {
    && b.entries == s.entries && b.walked == DirOptsOf(s.diropt).traverse
    && Recorded(b.key) == SlotKey(s) && b.at == s.openAt
  }

  ghost predicate Told(log: seq<Build>, s: Slot) {
    exists b :: b in log && Tells(b, s)
  }

  /** Every cached listing is one that was built for a request that the slot records. */
  ghost predicate Sourced(slots: seq<Slot>, log: seq<Build>) {
    forall i :: 0 <= i < |slots| && slots[i].loaded ==> Told(log, slots[i])
  }

  /** The listing a request builds, if it builds one. */
  ghost function NewBuild(slots: seq<Slot>, k: Key, maxresults: U16, now: int, e: Enumeration): seq<Build> {
    var traverse := DirOptsOf(k.diropt).traverse;
    var c := Choose(slots, k, traverse, now);
    if 0 <= c.index < |c.slots| && e.Enumerated? && !(traverse && c.slots[c.index].loaded) then
      [Build(k, ListingFor(k, c.slots[c.index].path, maxresults, e.found, e.ignores), traverse, now)]
    else []
  }

  lemma ChoiceKeepsSourced(slots: seq<Slot>, k: Key, reuse: bool, now: int, log: seq<Build>)
    requires AllOk(slots) && Sourced(slots, log)
    ensures Sourced(Choose(slots, k, reuse, now).slots, log)
  {
    hide Choose, Told;
    ChoiceKeepsLoaded(slots, k, reuse, now);
    var c := Choose(slots, k, reuse, now).slots;
    forall i | 0 <= i < |c| && c[i].loaded
      ensures Told(log, c[i])
    {
      SameListingIsTold(log, slots[i], c[i]);
    }
  }

  /** What is loaded after a choice was loaded before it, and at most rewound. */
  lemma ChoiceKeepsLoaded(slots: seq<Slot>, k: Key, reuse: bool, now: int)
    ensures var c := Choose(slots, k, reuse, now).slots;
      && |c| == |slots|
      && forall i :: 0 <= i < |c| && c[i].loaded ==>
          slots[i].loaded && (c[i] == slots[i] || c[i] == slots[i].(cursor := 0))
  {
  }

  lemma SameListingIsTold(log: seq<Build>, s: Slot, t: Slot)
    requires Told(log, s) && t.entries == s.entries && SlotKey(t) == SlotKey(s) && t.openAt == s.openAt
    ensures Told(log, t)
  {
    var b :| b in log && Tells(b, s);
    assert Tells(b, t);
  }

  lemma LongerLogTells(log: seq<Build>, more: seq<Build>, s: Slot)
    requires Told(log, s)
    ensures Told(log + more, s)
  {
    var b :| b in log && Tells(b, s);
    assert b in log + more;
  }

  lemma OpenDirXKeepsSourced(slots: seq<Slot>, k: Key, maxresults: U16, now: int, e: Enumeration, log: seq<Build>)
    requires AllOk(slots) && Sourced(slots, log)
    ensures Sourced(OpenDirX(slots, k, maxresults, now, e).slots, log + NewBuild(slots, k, maxresults, now, e))
  {
    hide Choose, ListingFor, DirOptsOf, Told, AllOk;
    var traverse := DirOptsOf(k.diropt).traverse;
    var c := Choose(slots, k, traverse, now);
    ChoiceKeepsSourced(slots, k, traverse, now, log);
    ChosenIsReset(slots, k, traverse, now);
    var more := NewBuild(slots, k, maxresults, now, e);
    var after := OpenDirX(slots, k, maxresults, now, e).slots;
    forall i | 0 <= i < |after| && after[i].loaded
      ensures Told(log + more, after[i])
    {
      if i == c.index && more != [] {
        BuildIsTold(slots, k, maxresults, now, e, log);
      } else {
        SameListingIsTold(log, c.slots[i], after[i]);
        LongerLogTells(log, more, after[i]);
      }
    }
  }

  /** The listing just built is the one that was logged. */
  lemma BuildIsTold(slots: seq<Slot>, k: Key, maxresults: U16, now: int, e: Enumeration, log: seq<Build>)
    requires AllOk(slots) && NewBuild(slots, k, maxresults, now, e) != []
    ensures var c := Choose(slots, k, DirOptsOf(k.diropt).traverse, now);
      && 0 <= c.index < |OpenDirX(slots, k, maxresults, now, e).slots|
      && Told(log + NewBuild(slots, k, maxresults, now, e), OpenDirX(slots, k, maxresults, now, e).slots[c.index])
  {
    hide Choose, ListingFor, DirOptsOf;
    var traverse := DirOptsOf(k.diropt).traverse;
    var c := Choose(slots, k, traverse, now);
    ChosenIsSetUp(slots, k, traverse, now);
    var b := NewBuild(slots, k, maxresults, now, e)[0];
    assert b in log + NewBuild(slots, k, maxresults, now, e);
    assert Tells(b, OpenDirX(slots, k, maxresults, now, e).slots[c.index]);
  }

  /** A slot handed out without a listing records the request. */
  lemma ChosenIsSetUp(slots: seq<Slot>, k: Key, reuse: bool, now: int)
    requires AllOk(slots)
    ensures var c := Choose(slots, k, reuse, now);
      && |c.slots| == |slots| && -1 <= c.index < |slots|
      && (c.index >= 0 && !(reuse && c.slots[c.index].loaded) ==>
            SlotKey(c.slots[c.index]) == Recorded(k) && c.slots[c.index].openAt == now)
  {
    hide Choose;
    ChoiceGuarantees(slots, k, reuse, now);
  }

  /** A key as OPENDIRX requests make it: the path fits its buffer, and an empty pattern is none. */
  predicate Asked(k: Key) {
    |k.path| < MAX_TNFSPATH && k.pattern != Some([])
  }

  predicate AllAsked(log: seq<Build>) {
    forall b :: b in log ==> Asked(b.key)
  }

  /** What a request k gets when b's listing is reused for it: one walked for the same path and options; for
      the same pattern exactly if b's fits the slot's buffer, and so whenever k's is not of the one length that
      a longer pattern is cut to. */
  predicate Reused(b: Build, k: Key) {
    && b.walked && b.key.(pattern := k.pattern) == k
    && (b.key.pattern == k.pattern <==> |b.key.pattern.GetOr([])| < MAX_TNFSPATH)
    && (|k.pattern.GetOr([])| != MAX_TNFSPATH - 1 ==> b.key == k)
  }

  /** A request served from the cache gets the listing of some earlier request, from its first entry on. */
  lemma ReuseServesSameRequest(slots: seq<Slot>, k: Key, maxresults: U16, now: int, e: Enumeration, log: seq<Build>)
    returns (b: Build)
    requires AllOk(slots) && Sourced(slots, log) && AllAsked(log) && Asked(k)
    requires var c := Choose(slots, k, DirOptsOf(k.diropt).traverse, now);
        0 <= c.index < |c.slots| && c.slots[c.index].loaded
    ensures var i := Choose(slots, k, DirOptsOf(k.diropt).traverse, now).index;
      var s := OpenDirX(slots, k, maxresults, now, e).slots[i];
      s.cursor == 0 && b in log && b.entries == s.entries && Reused(b, k) && (slots[i].open || now - b.at <= 300)
  {
    hide Choose, DirOptsOf, SameText;
    var traverse := DirOptsOf(k.diropt).traverse;
    var i := Choose(slots, k, traverse, now).index;
    LoadedIsHit(slots, k, traverse, now);
    b :| b in log && Tells(b, slots[i]);
    ServesReused(b, slots[i], k);
  }

  lemma LoadedIsHit(slots: seq<Slot>, k: Key, reuse: bool, now: int)
    requires AllOk(slots)
    requires var c := Choose(slots, k, reuse, now); 0 <= c.index < |c.slots| && c.slots[c.index].loaded
    ensures var c := Choose(slots, k, reuse, now);
      |c.slots| == |slots| && reuse && Serves(slots[c.index], k) && c.slots[c.index] == slots[c.index].(cursor := 0)
      && (slots[c.index].open || now - slots[c.index].openAt <= 300)
  {
    ChoiceGuarantees(slots, k, reuse, now);
    HitIsRecent(slots, k, reuse, now);
  }

  /** A slot that still has its listing after a choice is open or was set up at most 300 seconds ago. */
  lemma HitIsRecent(slots: seq<Slot>, k: Key, reuse: bool, now: int)
    ensures var c := Choose(slots, k, reuse, now);
      0 <= c.index < |c.slots| == |slots| && c.slots[c.index].loaded ==>
        slots[c.index].open || now - slots[c.index].openAt <= 300
  {
  }

  lemma ServesReused(b: Build, s: Slot, k: Key)
    requires Tells(b, s) && Serves(s, k) && SlotOk(s) && Asked(b.key) && Asked(k) && DirOptsOf(k.diropt).traverse
    ensures Reused(b, k)
  {
    ServesEquals(s.path, k.path);
    ServesEquals(s.pattern, k.pattern.GetOr([]));
  }

  /** A clipped text compares equal only to itself. */
  lemma ServesEquals(a: CString, b: CString)
    requires |a| < MAX_TNFSPATH && SameText(a, b)
    ensures a == b
  {
  }

  // ---------- The commands on the slots of a session ----------

  /** tnfs_opendir, from the choice of a slot on. */
  method DoOpenDir(t: DirTable, os: Os.System, path: CString, now: int, opening: Opening) returns (reply: Reply)
    requires t.Valid() && AllOk(t.View()) && Owns(t.View(), os.dirs)
    requires opening.Opened? ==> NewStream(opening.stream,
        OpenOnceChosen(t.View(), os.dirs, Key(path, 0, 0, None), false, now))
    modifies t.slots, os`dirs
    ensures t.Valid() && Answer(t.View(), reply) == OpenDir(old(t.View()), path, now, opening)
    ensures Owns(t.View(), os.dirs) && Conserves(old(t.View()), old(os.dirs), t.View(), os.dirs)
  {
    hide Choose, Held, Owns, Conserves;
    var k := Key(path, 0, 0, None);
    ChosenIsReset(t.View(), k, false, now);
    ChoiceConserves(t.View(), os.dirs, k, false, now);
    var i := t.FindFree(k, false, now, os);
    ghost var v, d := t.View(), os.dirs;
    if i < 0 {
      return Reply(Status.EMFILE, []);
    }
    if opening.NotOpened? {
      return Reply(opening.status, []);
    }
    DirsAre(old(t.View()), old(os.dirs), v, d);
    GainConserves(v, d, i, v[i].(stream := opening.stream, open := true));
    os.OpenedDir(opening.stream);
    t.OpenStream(i, opening.stream);
    ConservesChain(old(t.View()), old(os.dirs), v, d, t.View(), os.dirs);
    reply := Reply(Status.SUCCESS, [i % 256]);
  }

  lemma DirsAre(slots: seq<Slot>, dirs: set<nat>, after: seq<Slot>, dirs': set<nat>)
    requires Conserves(slots, dirs, after, dirs')
    ensures dirs' == (dirs - Held(slots)) + Held(after)
  {
  }

  /** tnfs_closedir on a one-byte request. */
  method DoCloseDir(t: DirTable, os: Os.System, index: U8) returns (reply: Reply)
    requires t.Valid() && AllOk(t.View()) && Owns(t.View(), os.dirs)
    modifies t.slots, os`dirs
    ensures t.Valid() && Answer(t.View(), reply) == CloseDir(old(t.View()), index)
    ensures Owns(t.View(), os.dirs) && Conserves(old(t.View()), old(os.dirs), t.View(), os.dirs)
  {
    CloseDirKeeps(t.View(), index, os.dirs);
    if index >= MAX_HANDLES || !t.slots[index].open {
      return Reply(Status.EBADF, []);
    }
    assert t.slots[index].View() == t.View()[index];
    t.CloseSlot(index, os);
    reply := Reply(Status.SUCCESS, []);
  }

  /** The slot after tnfs_freesession. */
  function Cleared(s: Slot): Slot {
    if s.loaded || s.open || s.stream != 0 then Freed(s) else s
  }

  method ClearSlot(t: DirTable, i: nat, os: Os.System)
    requires t.Valid() && i < |t.slots| && Owns(t.View(), os.dirs)
    modifies t.slots[i], os`dirs
    ensures t.Valid() && t.View() == old(t.View())[i := Cleared(old(t.View()[i]))]
    ensures Owns(t.View(), os.dirs) && Conserves(old(t.View()), old(os.dirs), t.View(), os.dirs)
  {
    hide Owns, Conserves, Held, Freed, DirTable.Valid;
    SameStreamsConserve(t.View(), os.dirs, t.View());
    if t.slots[i].loaded || t.slots[i].open || t.slots[i].stream != 0 {
      t.FreeSlot(i, os);
    }
  }

  /** The directory part of tnfs_freesession. */
  method FreeAll(t: DirTable, os: Os.System)
    requires t.Valid() && AllOk(t.View()) && Owns(t.View(), os.dirs)
    modifies t.slots, os`dirs
    ensures t.Valid() && t.View() == AllFreed(old(t.View()))
    ensures os.dirs == old(os.dirs) - Held(old(t.View()))
  {
    hide Owns, Conserves, Held, AllOk, Cleared, DirTable.Valid;
    t.Size();
    SameStreamsConserve(t.View(), os.dirs, t.View());
    for i := 0 to MAX_HANDLES
      invariant t.Valid() && Owns(t.View(), os.dirs) && Conserves(old(t.View()), old(os.dirs), t.View(), os.dirs)
      invariant forall j :: 0 <= j < i ==> t.View()[j] == AllFreed(old(t.View()))[j]
      invariant forall j :: i <= j < MAX_HANDLES ==> t.View()[j] == old(t.View())[j]
    {
      ghost var v, d := t.View(), os.dirs;
      ClearSlot(t, i, os);
      ConservesChain(old(t.View()), old(os.dirs), v, d, t.View(), os.dirs);
    }
    assert t.View() == AllFreed(old(t.View()));
    FreeingReleasesAll(old(t.View()), old(os.dirs));
    DirsAre(old(t.View()), old(os.dirs), t.View(), os.dirs);
  }

  /** _load_directory or _traverse_directory into a slot that was set up for the request. */
  method BuildInto(t: DirTable, i: nat, os: Os.System, k: Key, maxresults: U16, e: Enumeration)
    requires t.Valid() && i < |t.slots| && e.Enumerated? && Owns(t.View(), os.dirs)
    requires !DirOptsOf(k.diropt).traverse ==> t.slots[i].stream == 0 && NewStream(e.stream, os.dirs)
    modifies t.slots[i], os`dirs
    ensures t.Valid()
    ensures t.View() == old(t.View())[i := Built(old(t.View()[i]), k, maxresults, e).(open := true, loaded := true)]
    ensures Owns(t.View(), os.dirs) && Conserves(old(t.View()), old(os.dirs), t.View(), os.dirs)
  {
    hide Choose, Held, Owns, Conserves, Arranged;
    ghost var s := t.View()[i];
    assert s == t.slots[i].View();
    ghost var b := Built(s, k, maxresults, e).(open := true, loaded := true);
    var head, ns, count := List(e.found, RulesFor(k, t.slots[i].path, e.ignores), SortOptsOf(k.sortopt), maxresults);
    if DirOptsOf(k.diropt).traverse {
      SameStreamsConserve(t.View(), os.dirs, t.View()[i := b]);
      t.LoadSlot(i, 0, [], head, ns, count, false);
    } else {
      GainConserves(t.View(), os.dirs, i, b);
      os.OpenedDir(e.stream);
      t.LoadSlot(i, e.stream, e.ignores, head, ns, count, true);
    }
  }

  /** tnfs_opendirx with its slot. */
  method OpenSlot(t: DirTable, i: nat, os: Os.System, k: Key, maxresults: U16, e: Enumeration) returns (reply: Reply)
    requires t.Valid() && i < |t.slots| && Owns(t.View(), os.dirs)
    requires !t.View()[i].loaded ==> t.View()[i].stream == 0
    requires !DirOptsOf(k.diropt).traverse ==> !t.View()[i].loaded
    requires e.Enumerated? ==> NewStream(e.stream, os.dirs)
    modifies t.slots[i], os`dirs
    ensures t.Valid() && Answer(t.View(), reply) == OpenChosen(Chosen(old(t.View()), i), k, maxresults, e)
    ensures Owns(t.View(), os.dirs) && Conserves(old(t.View()), old(os.dirs), t.View(), os.dirs)
  {
    hide Held, Owns, Conserves, Built, DirOptsOf;
    assert t.slots[i].View() == t.View()[i];
    if DirOptsOf(k.diropt).traverse && t.slots[i].loaded {
      SameStreamsConserve(t.View(), os.dirs, t.View()[i := t.View()[i].(open := true)]);
      t.Reopen(i);
    } else if e.Failed? {
      SameStreamsConserve(t.View(), os.dirs, t.View());
      return Reply(e.status, []);
    } else {
      BuildInto(t, i, os, k, maxresults, e);
    }
    reply := Reply(Status.SUCCESS, [i % 256] + Le16(t.slots[i].entryCount));
    assert t.slots[i].View() == t.View()[i];
  }

  /** tnfs_opendirx on a well-formed request, from the choice of a slot on. */
  method DoOpenDirX(t: DirTable, os: Os.System, k: Key, maxresults: U16, now: int, e: Enumeration)
      returns (reply: Reply)
    requires t.Valid() && AllOk(t.View()) && Owns(t.View(), os.dirs)
    requires Plausible(e, OpenOnceChosen(t.View(), os.dirs, k, DirOptsOf(k.diropt).traverse, now))
    modifies t.slots, os`dirs
    ensures t.Valid() && Answer(t.View(), reply) == OpenDirX(old(t.View()), k, maxresults, now, e)
    ensures Owns(t.View(), os.dirs) && Conserves(old(t.View()), old(os.dirs), t.View(), os.dirs)
  {
    hide Choose, Held, Owns, Conserves, Built, DirOptsOf, AllOk, ReplyWithCount;
    var traverse := DirOptsOf(k.diropt).traverse;
    ChosenIsReset(t.View(), k, traverse, now);
    var i := t.FindFree(k, traverse, now, os);
    ghost var v, d := t.View(), os.dirs;
    DirsAre(old(t.View()), old(os.dirs), v, d);
    if i < 0 {
      return Reply(Status.EMFILE, []);
    }
    reply := OpenSlot(t, i, os, k, maxresults, e);
    ConservesChain(old(t.View()), old(os.dirs), v, d, t.View(), os.dirs);
  }
}

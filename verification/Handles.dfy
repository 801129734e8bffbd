/** The eight directory handle slots of a session (src/directory.c): allocation, the cache of
    traversed listings, eviction, and who owns which directory stream. */
module Handles {
  import opened CStrings
  import opened Endian
  import opened DirList
  import opened Listing
  import opened DirHandle
  import Os

  const MAX_HANDLES := 8
  const HANDLE_TIMEOUT := 300

  // ---------- Slots as values ----------

  /** strncmp(a, b, MAX_TNFSPATH) == 0. */
  predicate SameText(a: CString, b: CString) {
    (if |a| <= MAX_TNFSPATH then a else a[..MAX_TNFSPATH]) == (if |b| <= MAX_TNFSPATH then b else b[..MAX_TNFSPATH])
  }

  /** What a request asks for; the maximum number of results is not part of it. */
  datatype Key = Key(path: CString, diropt: U8, sortopt: U8, pattern: Option<CString>)

  predicate Serves(s: Slot, k: Key) {
    && s.loaded && SameText(s.path, k.path) && s.diropt == k.diropt && s.sortopt == k.sortopt
    && match k.pattern case None => s.pattern == [] case Some(p) => SameText(s.pattern, p)
  }

  predicate Stale(s: Slot, now: int) {
    !s.open && s.loaded && now > s.openAt + HANDLE_TIMEOUT
  }

  /** _tnfs_free_dir_handle. */
  function Freed(s: Slot): Slot {
    s.(stream := 0, path := [], pattern := [], ignores := [], entries := [], cursor := 0, count := 0, open := false,
        loaded := false)
  }

  /** _tnfs_init_dhandle. */
  function Initialised(s: Slot, k: Key, now: int): Slot {
    s.(stream := 0, path := Clipped(k.path, MAX_TNFSPATH), diropt := k.diropt, sortopt := k.sortopt, openAt := now,
        ignores := [],
       pattern := match k.pattern case None => [] case Some(p) => Clipped(p, MAX_TNFSPATH))
  }

  /** The first index from i on whose slot satisfies p, or the number of slots. */
  function FirstIndex(slots: seq<Slot>, i: nat, p: Slot -> bool): (r: nat)
    requires i <= |slots|
    ensures i <= r <= |slots|
    ensures r < |slots| ==> p(slots[r])
    ensures forall k :: i <= k < r ==> !p(slots[k])
    decreases |slots| - i
  {
    if i == |slots| || p(slots[i]) then i else FirstIndex(slots, i + 1, p)
  }

  function Serving(k: Key): Slot -> bool { (s: Slot) => Serves(s, k) }

  function Unused(): Slot -> bool { (s: Slot) => !s.open && !s.loaded }

  function Closed(): Slot -> bool { (s: Slot) => !s.open }

  function WithoutStale(slots: seq<Slot>, now: int): (r: seq<Slot>)
    ensures |r| == |slots|
    ensures forall i :: 0 <= i < |slots| ==> r[i] == if Stale(slots[i], now) then Freed(slots[i]) else slots[i]
  {
    seq(|slots|, i requires 0 <= i < |slots| => if Stale(slots[i], now) then Freed(slots[i]) else slots[i])
  }

  datatype Chosen = Chosen(slots: seq<Slot>, index: int)

  /** _tnfs_find_free_dir_handle on values; -1 when there is no slot. */
  function Choose(slots: seq<Slot>, k: Key, reuse: bool, now: int): Chosen {
    var s := WithoutStale(slots, now);
    var hit := FirstIndex(s, 0, Serving(k));
    if reuse && hit < |s| then Chosen(s[hit := s[hit].(cursor := 0)], hit) else Take(s, k, now)
  }

  /** Its second and third attempts: an unused slot, else any slot that is not open. */
  function Take(s: seq<Slot>, k: Key, now: int): Chosen {
    var empty := FirstIndex(s, 0, Unused());
    var closed := FirstIndex(s, 0, Closed());
    if empty < |s| then Chosen(s[empty := Initialised(s[empty], k, now)], empty)
    else if closed < |s| then
      Chosen(s[closed := Initialised(if s[closed].loaded then Freed(s[closed]) else s[closed], k, now)], closed)
    else Chosen(s, -1)
  }

  /** What holds of every slot between requests. */
  predicate SlotOk(s: Slot) {
    && s.cursor <= |s.entries| < 0x1_0000_0000
    && (!s.loaded ==> s.entries == [] && s.count == 0 && s.ignores == [])
    && (s.stream != 0 ==> s.open || s.loaded)
    && |s.path| < MAX_TNFSPATH && |s.pattern| < MAX_TNFSPATH
  }

  predicate AllOk(slots: seq<Slot>) {
    |slots| == MAX_HANDLES && forall i :: 0 <= i < |slots| ==> SlotOk(slots[i])
  }

  /** The streams the slots hold. */
  function Held(slots: seq<Slot>): set<nat> {
    set i | 0 <= i < |slots| && slots[i].stream != 0 :: slots[i].stream
  }

  /** Every held stream is open, and no two slots hold the same one. */
  predicate Owns(slots: seq<Slot>, dirs: set<nat>) {
    && Held(slots) <= dirs
    && forall i, j :: 0 <= i < j < |slots| && slots[i].stream != 0 ==> slots[i].stream != slots[j].stream
  }

  /** From one state to the next exactly the streams dropped are closed and exactly the streams gained
      are new: all other open streams stay open. */
  predicate Conserves(before: seq<Slot>, dirs: set<nat>, after: seq<Slot>, dirs': set<nat>) {
    && Owns(after, dirs')
    && dirs' == (dirs - Held(before)) + Held(after)
    && Held(after) !! (dirs - Held(before))
  }

  // ---------- What the choice guarantees ----------

  lemma ChoiceInRange(slots: seq<Slot>, k: Key, reuse: bool, now: int)
    ensures var c := Choose(slots, k, reuse, now); |c.slots| == |slots| && -1 <= c.index < |slots|
  {
  }

  /** There is no slot only when all are open and none can be reused. */
  lemma NoneOnlyWhenAllOpen(slots: seq<Slot>, k: Key, reuse: bool, now: int)
    ensures Choose(slots, k, reuse, now).index == -1 <==>
      (forall i :: 0 <= i < |slots| ==> slots[i].open) &&
          (reuse ==> forall i :: 0 <= i < |slots| ==> !Serves(slots[i], k))
  {
  }

  /** An open slot is untouched, or is the reused one, rewound. */
  lemma OpenSlotsStay(slots: seq<Slot>, k: Key, reuse: bool, now: int)
    ensures var c := Choose(slots, k, reuse, now);
      |c.slots| == |slots| && forall i :: 0 <= i < |slots| && slots[i].open ==>
        c.slots[i] == slots[i] || (reuse && i == c.index && Serves(slots[i], k) && c.slots[i] == slots[i].(cursor := 0))
  {
  }

  /** A cached listing is dropped only when stale, or for this request when no slot was empty. */
  lemma DroppedOnlyIfNeeded(slots: seq<Slot>, k: Key, reuse: bool, now: int)
    ensures var c := Choose(slots, k, reuse, now);
      |c.slots| == |slots| && forall i :: 0 <= i < |slots| && slots[i].loaded && !c.slots[i].loaded ==>
        && !slots[i].open
        && (Stale(slots[i], now) || (i == c.index && forall j :: 0 <= j < |slots| ==> slots[j].open || slots[j].loaded))
  {
  }

  /** The slot as set up for a request, from scratch. */
  function FreshFor(k: Key, now: int): Slot {
    EMPTY.(path := Clipped(k.path, MAX_TNFSPATH), diropt := k.diropt, sortopt := k.sortopt, openAt := now,
           pattern := match k.pattern case None => [] case Some(p) => Clipped(p, MAX_TNFSPATH))
  }

  /** The slot handed out is a reused one, rewound, or one fully reset and set up for the request. */
  lemma HandedOut(slots: seq<Slot>, k: Key, reuse: bool, now: int)
    requires AllOk(slots)
    ensures var c := Choose(slots, k, reuse, now);
      0 <= c.index < |slots| == |c.slots| ==>
        var before, after := slots[c.index], c.slots[c.index];
        if after.loaded then reuse && Serves(before, k) && after == before.(cursor := 0)
        else !before.open && after == FreshFor(k, now)
  {
  }

  /** The slot handed out is a reused one rewound, or a reset one set up for the request; there is
      none only if every slot is open; and open slots are never touched otherwise. */
  lemma ChoiceGuarantees(slots: seq<Slot>, k: Key, reuse: bool, now: int)
    requires AllOk(slots)
    ensures var c := Choose(slots, k, reuse, now);
      && |c.slots| == |slots| && -1 <= c.index < |slots|
      // none only when all are open and none can be reused
      && (c.index == -1 <==>
            (forall i :: 0 <= i < |slots| ==> slots[i].open) &&
                (reuse ==> forall i :: 0 <= i < |slots| ==> !Serves(slots[i], k)))
      // an open slot is untouched, or is the reused one, rewound
      && (forall i :: 0 <= i < |slots| && slots[i].open ==>
            || c.slots[i] == slots[i]
            || (reuse && i == c.index && Serves(slots[i], k) && c.slots[i] == slots[i].(cursor := 0)))
      // a cached listing is dropped only when stale, or for this request when no slot was empty
      && (forall i :: 0 <= i < |slots| && slots[i].loaded && !c.slots[i].loaded ==>
            && !slots[i].open
            && (Stale(slots[i], now)
                || (i == c.index && forall j :: 0 <= j < |slots| ==> slots[j].open || slots[j].loaded)))
      // the slot handed out
      && (c.index >= 0 ==>
            var before, after := slots[c.index], c.slots[c.index];
            if after.loaded then reuse && Serves(before, k) && after == before.(cursor := 0)
            else !before.open && after == FreshFor(k, now))
  {
    ChoiceInRange(slots, k, reuse, now);
    NoneOnlyWhenAllOpen(slots, k, reuse, now);
    OpenSlotsStay(slots, k, reuse, now);
    DroppedOnlyIfNeeded(slots, k, reuse, now);
    HandedOut(slots, k, reuse, now);
    hide Choose, Serves, Stale, FreshFor, AllOk;
  }

  lemma ChoiceKeepsOk(slots: seq<Slot>, k: Key, reuse: bool, now: int)
    requires AllOk(slots)
    ensures AllOk(Choose(slots, k, reuse, now).slots)
  {
    assert AllOk(WithoutStale(slots, now));
    TakeKeepsOk(WithoutStale(slots, now), k, now);
  }

  lemma TakeKeepsOk(slots: seq<Slot>, k: Key, now: int)
    requires AllOk(slots)
    ensures AllOk(Take(slots, k, now).slots)
  {
  }

  /** Which streams a choice closes: those of the slots it frees or sets up. */
  lemma ChoiceConserves(slots: seq<Slot>, dirs: set<nat>, k: Key, reuse: bool, now: int)
    requires AllOk(slots) && Owns(slots, dirs)
    ensures var c := Choose(slots, k, reuse, now);
      && Conserves(slots, dirs, c.slots, (dirs - Held(slots)) + Held(c.slots))
      && (dirs - Held(slots)) + Held(c.slots) <= dirs
  {
    var c := Choose(slots, k, reuse, now).slots;
    forall i | 0 <= i < |slots| && c[i].stream != 0
      ensures c[i].stream == slots[i].stream
    {
    }
    assert Held(c) <= Held(slots);
  }

  lemma HeldIsOpen(slots: seq<Slot>, dirs: set<nat>, i: nat)
    requires i < |slots| && Owns(slots, dirs)
    ensures slots[i].stream != 0 ==> slots[i].stream in dirs
  {
    assert slots[i].stream != 0 ==> slots[i].stream in Held(slots);
  }

  /** Replacing a slot by one without a stream closes exactly the stream it held. */
  lemma DropConserves(slots: seq<Slot>, dirs: set<nat>, i: nat, s: Slot)
    requires i < |slots| && Owns(slots, dirs) && s.stream == 0
    ensures Conserves(slots, dirs, slots[i := s], dirs - (if slots[i].stream != 0 then {slots[i].stream} else {}))
  {
    var after := slots[i := s];
    assert forall j :: 0 <= j < |slots| && j != i ==> after[j] == slots[j];
    forall x | x in Held(slots) && x != slots[i].stream
      ensures x in Held(after)
    {
      var j :| 0 <= j < |slots| && slots[j].stream != 0 && slots[j].stream == x;
      assert after[j].stream == x;
    }
  }

  /** Putting a new stream into a slot without one. */
  lemma GainConserves(slots: seq<Slot>, dirs: set<nat>, i: nat, s: Slot)
    requires i < |slots| && Owns(slots, dirs) && slots[i].stream == 0 && s.stream != 0 && s.stream !in dirs
    ensures Conserves(slots, dirs, slots[i := s], dirs + {s.stream})
  {
    var after := slots[i := s];
    assert forall j :: 0 <= j < |slots| && j != i ==> after[j] == slots[j];
    assert after[i].stream == s.stream;
    forall x | x in Held(slots)
      ensures x in Held(after)
    {
      var j :| 0 <= j < |slots| && slots[j].stream != 0 && slots[j].stream == x;
      assert after[j].stream == x;
    }
  }

  /** Changing anything but streams opens and closes nothing. */
  lemma SameStreamsConserve(slots: seq<Slot>, dirs: set<nat>, after: seq<Slot>)
    requires |after| == |slots| && Owns(slots, dirs)
    requires forall i :: 0 <= i < |slots| ==> after[i].stream == slots[i].stream
    ensures Owns(after, dirs) && Conserves(slots, dirs, after, dirs)
  {
    assert Held(after) == Held(slots) by {
      forall x | x in Held(slots)
        ensures x in Held(after)
      {
        var j :| 0 <= j < |slots| && slots[j].stream != 0 && slots[j].stream == x;
        assert after[j].stream == x;
      }
    }
  }

  lemma ConservesChain(a: seq<Slot>, d: set<nat>, b: seq<Slot>, d': set<nat>, c: seq<Slot>, d'': set<nat>)
    requires Conserves(a, d, b, d') && Conserves(b, d', c, d'')
    ensures Conserves(a, d, c, d'')
  {
    assert d' - Held(b) == d - Held(a);
  }

  // ---------- The slots as objects ----------

  /** _tnfs_free_dir_handle. */
  method FreeHandle(h: Handle, os: Os.System)
    requires h.stream != 0 ==> h.stream in os.dirs
    modifies h, os`dirs
    ensures h.Valid() && h.View() == Freed(old(h.View())) && h.nodes == []
    ensures os.dirs == old(os.dirs) - (if old(h.stream) != 0 then {old(h.stream)} else {})
  {
    hide IsList;
    if h.stream != 0 {
      os.CloseDir(h.stream);
    }
    h.DropListing();
    h.stream := 0;
    h.path := [];
    h.pattern := [];
    h.open := false;
    h.loaded := false;
  }

  /** _tnfs_init_dhandle. */
  method InitHandle(h: Handle, k: Key, now: int, os: Os.System)
    requires h.Valid() && (h.stream != 0 ==> h.stream in os.dirs)
    modifies h, os`dirs
    ensures h.Valid() && h.View() == Initialised(old(h.View()), k, now) && h.nodes == old(h.nodes)
    ensures os.dirs == old(os.dirs) - (if old(h.stream) != 0 then {old(h.stream)} else {})
  {
    hide IsList, Entries;
    if h.stream != 0 {
      os.CloseDir(h.stream);
      h.stream := 0;
    }
    var pattern := match k.pattern case None => [] case Some(p) => Clipped(p, MAX_TNFSPATH);
    h.Prepare(Clipped(k.path, MAX_TNFSPATH), pattern, k.diropt, k.sortopt, now);
  }

  /** The dhandles array of a session. */
  class DirTable {
    const slots: seq<Handle>

    ghost function Nodes(): set<object>
      reads slots
    {
      set h, n: Node | h in slots && n in h.nodes :: n
    }

    ghost predicate Valid()
      reads this, slots, Nodes()
    {
      && |slots| == MAX_HANDLES
      && (forall i, j :: 0 <= i < j < |slots| ==> slots[i] != slots[j])
      // the first conjunct only shows that Valid's frame covers each handle's list
      && (forall h :: h in slots ==> (forall n :: n in h.nodes ==> n in Nodes()) && h.Valid())
    }

    ghost function View(): (v: seq<Slot>)
      reads slots
      ensures |v| == |slots| && forall i :: 0 <= i < |slots| ==> v[i] == slots[i].View()
    {
      seq(|slots|, i requires 0 <= i < |slots| reads slots => slots[i].View())
    }

    constructor ()
      ensures Valid() && View() == seq(MAX_HANDLES, _ => EMPTY) && fresh(slots)
    {
      var hs: seq<Handle> := [];
      while |hs| < MAX_HANDLES
        invariant |hs| <= MAX_HANDLES && fresh(hs)
        invariant forall i, j :: 0 <= i < j < |hs| ==> hs[i] != hs[j]
        invariant forall i :: 0 <= i < |hs| ==> hs[i].Valid() && hs[i].View() == EMPTY && hs[i].nodes == []
      {
        var h := new Handle();
        hs := hs + [h];
      }
      slots := hs;
    }

    method FreeSlot(i: nat, os: Os.System)
      requires Valid() && i < |slots| && Owns(View(), os.dirs)
      modifies slots[i], os`dirs
      ensures Valid() && View() == old(View())[i := Freed(old(View()[i]))]
      ensures Owns(View(), os.dirs) && Conserves(old(View()), old(os.dirs), View(), os.dirs)
    {
      assert slots[i].stream == View()[i].stream;
      DropConserves(View(), os.dirs, i, Freed(View()[i]));
      FreeHandle(slots[i], os);
    }

    method InitSlot(i: nat, k: Key, now: int, os: Os.System)
      requires Valid() && i < |slots| && Owns(View(), os.dirs)
      modifies slots[i], os`dirs
      ensures Valid() && View() == old(View())[i := Initialised(old(View()[i]), k, now)]
      ensures Owns(View(), os.dirs) && Conserves(old(View()), old(os.dirs), View(), os.dirs)
    {
      assert slots[i].stream == View()[i].stream;
      DropConserves(View(), os.dirs, i, Initialised(View()[i], k, now));
      InitHandle(slots[i], k, now, os);
    }

    method RewindSlot(i: nat)
      requires Valid() && i < |slots|
      modifies slots[i]
      ensures Valid() && View() == old(View())[i := old(View()[i]).(cursor := 0)]
    {
      slots[i].Rewind();
    }

    lemma Size()
      requires Valid()
      ensures |slots| == MAX_HANDLES
    {
    }

    method FreeIfStale(i: nat, now: int, os: Os.System)
      requires Valid() && i < |slots| && Owns(View(), os.dirs)
      modifies slots[i], os`dirs
      ensures Valid()
      ensures var s := old(View()[i]); View() == old(View())[i := if Stale(s, now) then Freed(s) else s]
      ensures Owns(View(), os.dirs) && Conserves(old(View()), old(os.dirs), View(), os.dirs)
    {
      hide Owns, Conserves, Held, Freed, Valid;
      SameStreamsConserve(View(), os.dirs, View());
      if !slots[i].open && slots[i].loaded && now > slots[i].openAt + HANDLE_TIMEOUT {
        FreeSlot(i, os);
      }
    }

    /** The first loop of _tnfs_find_free_dir_handle. */
    method FreeStale(now: int, os: Os.System)
      requires Valid() && Owns(View(), os.dirs)
      modifies slots, os`dirs
      ensures Valid() && View() == WithoutStale(old(View()), now)
      ensures Owns(View(), os.dirs) && Conserves(old(View()), old(os.dirs), View(), os.dirs)
    {
      hide Owns, Conserves, Held, Freed, Stale, Valid;
      SameStreamsConserve(View(), os.dirs, View());
      for i := 0 to |slots|
        invariant Valid() && Owns(View(), os.dirs) && Conserves(old(View()), old(os.dirs), View(), os.dirs)
        invariant forall j :: 0 <= j < i ==> View()[j] == WithoutStale(old(View()), now)[j]
        invariant forall j :: i <= j < |slots| ==> View()[j] == old(View())[j]
      {
        ghost var v, d := View(), os.dirs;
        FreeIfStale(i, now, os);
        ConservesChain(old(View()), old(os.dirs), v, d, View(), os.dirs);
      }
      assert View() == WithoutStale(old(View()), now);
    }

    lemma FirstIndexIs(p: Slot -> bool, r: nat)
      requires r <= |slots| && (r < |slots| ==> p(View()[r])) && forall i :: 0 <= i < r ==> !p(View()[i])
      ensures FirstIndex(View(), 0, p) == r
    {
    }

    method FindServing(k: Key) returns (r: nat)
      ensures r == FirstIndex(View(), 0, Serving(k))
    {
      r := 0;
      while r < |slots|
        invariant r <= |slots| && forall i :: 0 <= i < r ==> !Serves(View()[i], k)
      {
        var h := slots[r];
        if h.loaded && SameText(h.path, k.path) && h.diropt == k.diropt && h.sortopt == k.sortopt {
          var samePattern := match k.pattern case None => h.pattern == [] case Some(p) => SameText(h.pattern, p);
          if samePattern {
            break;
          }
        }
        r := r + 1;
      }
      FirstIndexIs(Serving(k), r);
    }

    method FindUnused() returns (r: nat)
      ensures r == FirstIndex(View(), 0, Unused())
    {
      r := 0;
      while r < |slots| && (slots[r].open || slots[r].loaded)
        invariant r <= |slots| && forall i :: 0 <= i < r ==> View()[i].open || View()[i].loaded
      {
        r := r + 1;
      }
      FirstIndexIs(Unused(), r);
    }

    method FindClosed() returns (r: nat)
      ensures r == FirstIndex(View(), 0, Closed())
    {
      r := 0;
      while r < |slots| && slots[r].open
        invariant r <= |slots| && forall i :: 0 <= i < r ==> View()[i].open
      {
        r := r + 1;
      }
      FirstIndexIs(Closed(), r);
    }

    /** Drops the cached listing of slot i, if it has one, and sets the slot up for k. */
    method Recycle(i: nat, k: Key, now: int, os: Os.System)
      requires Valid() && i < |slots| && Owns(View(), os.dirs)
      modifies slots[i], os`dirs
      ensures Valid()
      ensures View() == var s := old(View()[i]); old(View())[i := Initialised(if s.loaded then Freed(s) else s, k, now)]
      ensures Owns(View(), os.dirs) && Conserves(old(View()), old(os.dirs), View(), os.dirs)
    {
      hide Conserves, Owns, Freed, Initialised;
      if slots[i].loaded {
        FreeSlot(i, os);
        ghost var v, d := View(), os.dirs;
        InitSlot(i, k, now, os);
        ConservesChain(old(View()), old(os.dirs), v, d, View(), os.dirs);
      } else {
        InitSlot(i, k, now, os);
      }
    }

    method TakeSlot(k: Key, now: int, os: Os.System) returns (index: int)
      requires Valid() && Owns(View(), os.dirs)
      modifies slots, os`dirs
      ensures Valid() && Chosen(View(), index) == Take(old(View()), k, now)
      ensures Owns(View(), os.dirs) && Conserves(old(View()), old(os.dirs), View(), os.dirs)
    {
      hide Conserves, Owns, Freed, Initialised, FirstIndex;
      index := FindUnused();
      if index < |slots| {
        InitSlot(index, k, now, os);
        return;
      }
      index := FindClosed();
      if index < |slots| {
        Recycle(index, k, now, os);
        return;
      }
      SameStreamsConserve(View(), os.dirs, View());
      index := -1;
    }

    /** _tnfs_find_free_dir_handle. */
    method FindFree(k: Key, reuse: bool, now: int, os: Os.System) returns (index: int)
      requires Valid() && Owns(View(), os.dirs)
      modifies slots, os`dirs
      ensures Valid() && Chosen(View(), index) == Choose(old(View()), k, reuse, now)
      ensures Owns(View(), os.dirs) && Conserves(old(View()), old(os.dirs), View(), os.dirs)
    {
      hide Conserves, Owns, Take, WithoutStale, FirstIndex;
      FreeStale(now, os);
      ghost var v, d := View(), os.dirs;
      if reuse {
        index := FindServing(k);
        if index < |slots| {
          RewindSlot(index);
          SameStreamsConserve(v, d, View());
          ConservesChain(old(View()), old(os.dirs), v, d, View(), os.dirs);
          return;
        }
      }
      index := TakeSlot(k, now, os);
      ConservesChain(old(View()), old(os.dirs), v, d, View(), os.dirs);
    }

    /** A reused listing is open again. */
    method Reopen(i: nat)
      requires Valid() && i < |slots|
      modifies slots[i]
      ensures Valid() && View() == old(View())[i := old(View()[i]).(open := true)]
    {
      slots[i].open := true;
    }

    /** tnfs_opendir's use of the chosen slot. */
    method OpenStream(i: nat, stream: nat)
      requires Valid() && i < |slots|
      modifies slots[i]
      ensures Valid() && View() == old(View())[i := old(View()[i]).(stream := stream, open := true)]
    {
      slots[i].stream := stream;
      slots[i].open := true;
    }

    /** tnfs_closedir on an open slot: a slot without a listing gives its stream back. */
    method CloseSlot(i: nat, os: Os.System)
      requires Valid() && i < |slots| && Owns(View(), os.dirs)
      modifies slots[i], os`dirs
      ensures Valid()
      ensures View() == var s := old(View()[i]);
          old(View())[i := s.(open := false, stream := if s.loaded then s.stream else 0)]
      ensures Owns(View(), os.dirs) && Conserves(old(View()), old(os.dirs), View(), os.dirs)
    {
      hide Conserves, Owns, Held, IsList;
      ghost var s := View()[i];
      assert s == slots[i].View() && (s.stream != 0 ==> s.stream in os.dirs) by { HeldIsOpen(View(), os.dirs, i); }
      ghost var t := s.(open := false, stream := if s.loaded then s.stream else 0);
      if !slots[i].loaded && slots[i].stream != 0 {
        DropConserves(View(), os.dirs, i, t);
        os.CloseDir(slots[i].stream);
        slots[i].stream := 0;
      } else {
        SameStreamsConserve(View(), os.dirs, View()[i := t]);
      }
      slots[i].open := false;
    }

    /** Attaches a listing; a plain listing also brings the stream and the ignore patterns. */
    method LoadSlot(i: nat, stream: nat, ignores: seq<CString>, head: Node?, ghost ns: seq<Node>,
        count: U16, plain: bool)
      requires Valid() && i < |slots| && IsList(head, ns)
      modifies slots[i]
      ensures Valid()
      ensures View() == var s := old(View()[i]).(entries := Entries(ns), cursor := 0, count := count, open := true,
          loaded := true);
        old(View())[i := if plain then s.(stream := stream, ignores := ignores) else s]
    {
      hide IsList, Entries;
      slots[i].SetListing(head, ns, count);
      slots[i].MarkLoaded(stream, ignores, plain);
    }
  }
}

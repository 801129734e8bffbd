/** OPENDIRX and then READDIRX (src/directory.c, src/traverse.c): which files of a directory a client gets to
    see, with which data, and in which order. */
module Browsing {
  import opened CStrings
  import opened Endian
  import opened EntryOrder
  import opened Listing
  import opened ListingOrder
  import opened DirHandle
  import opened Handles
  import opened Paging
  import opened DirCommands
  import opened Commands
  import opened Reading
  import Glob
  import Pattern
  import Paths

  // ---------- Which files are listed ----------

  /** Directory option byte d lets a file be seen: hidden ones (flag 0x02) with option 0x02, special ones (flag
      0x04) with option 0x04, directories (flag 0x01) without option 0x20. */
  predicate Visible(i: FileInfo, d: U8) {
    && (i.flags % 4 >= 2 ==> d % 4 >= 2)
    && (i.flags % 8 >= 4 ==> d % 8 >= 4)
    && (i.flags % 2 == 1 ==> d % 64 < 32)
  }

  lemma FlagsAre(flags: U8)
    ensures IsDirectory(flags) <==> flags % 2 == 1
    ensures IsHidden(flags) <==> flags % 4 >= 2
    ensures IsSpecial(flags) <==> flags % 8 >= 4
  {
    Bit2(flags);
    Bit4(flags);
  }

  /** Without option 0x10 a name is listed if it can be examined and seen, no ignore pattern matches it, and it
      matches the wildcard if there is one; a directory need not, unless option 0x08 asks for it. */
  lemma PlainListing(k: Key, path: CString, ignores: seq<CString>, x: Found)
    requires k.diropt % 32 < 16
    ensures Listed(RulesFor(k, path, ignores), x) <==>
      && x.info.Some? && Visible(x.info.value, k.diropt)
      && (forall p :: p in ignores ==> !Glob.LoopSays(x.path, p))
      && (k.pattern.Some? ==>
            (x.info.value.flags % 2 == 1 && k.diropt % 16 < 8) || Pattern.NameMatches(x.path, k.pattern.value))
  {
    hide Bit, IsDirectory, IsHidden, IsSpecial, Glob.LoopSays, Pattern.NameMatches;
    BitsOf(k.diropt);
    if x.info.Some? {
      FlagsAre(x.info.value.flags);
    }
  }

  /** With it, a file found below the walked directory is listed if it can be examined and seen, no ignore
      pattern matches its path below that directory, with or without a leading slash, and the glob does. */
  lemma WalkedListing(k: Key, path: CString, ignores: seq<CString>, rel: CString, info: Option<FileInfo>)
    requires k.diropt % 32 >= 16 && rel != []
    ensures var x := Found(WalkRoot(path) + ['/'] + rel, info);
      Listed(RulesFor(k, path, ignores), x) <==>
      && info.Some? && Visible(info.value, k.diropt)
      && (forall p :: p in ignores ==> !Glob.LoopSays(rel, p) && !Glob.LoopSays(['/'] + rel, p))
      && (k.pattern.Some? ==> Glob.LoopSays(['/'] + rel, k.pattern.value))
  {
    hide Bit, IsDirectory, IsHidden, IsSpecial, Glob.LoopSays;
    BitsOf(k.diropt);
    var x := Found(WalkRoot(path) + ['/'] + rel, info);
    assert x.path[|WalkRoot(path)| + 1..] == rel && x.path[|WalkRoot(path)|..] == ['/'] + rel;
    if x.info.Some? {
      FlagsAre(x.info.value.flags);
    }
  }

  /** The walked directory itself is not listed, and the root drops one slash at its end. */
  lemma WalkedRoot(k: Key, path: CString, ignores: seq<CString>, info: Option<FileInfo>)
    requires k.diropt % 32 >= 16
    ensures !Listed(RulesFor(k, path, ignores), Found(WalkRoot(path), info))
    ensures WalkRoot(path + ['/']) == path
    ensures path == [] || path[|path| - 1] != '/' ==> WalkRoot(path) == path
  {
    hide Bit;
    BitsOf(k.diropt);
  }

  // ---------- With which data ----------

  /** The entry shows the file's size and times, its flags if it is a directory, and the name as far as 255
      characters of it. */
  predicate Shows(e: Entry, info: FileInfo, name: CString) {
    && e.size == info.size && e.mtime == info.mtime && e.ctime == info.ctime
    && e.flags == (if info.flags % 2 == 1 then info.flags else 0)
    && e.name <= name && |e.name| == (if |name| < 256 then |name| else 255)
  }

  /** The place of each kept entry in the enumeration. */
  ghost function Places(r: Rules, xs: seq<Found>): seq<nat> {
    if xs == [] then []
    else Places(r, xs[..|xs| - 1]) + if Listed(r, xs[|xs| - 1]) then [|xs| - 1] else []
  }

  /** e is the entry of a find that is listed. */
  ghost predicate EntryFor(r: Rules, x: Found, e: Entry) {
    Listed(r, x) && x.info.Some? && Shows(e, x.info.value, ShownName(r, x))
  }

  /** es are the entries of the listed finds, which stand at these places: each once, and in order. */
  ghost predicate ShowsListed(r: Rules, xs: seq<Found>, at: seq<nat>, es: seq<Entry>) {
    && |at| == |es| && (forall m, n :: 0 <= m < n < |at| ==> at[m] < at[n])
    && (forall n :: 0 <= n < |at| ==> at[n] < |xs| && EntryFor(r, xs[at[n]], es[n]))
    && (forall i :: 0 <= i < |xs| && Listed(r, xs[i]) ==> i in at)
  }

  lemma OneMore(r: Rules, xs: seq<Found>, x: Found, at: seq<nat>, es: seq<Entry>, e: Entry)
    requires ShowsListed(r, xs, at, es)
    ensures EntryFor(r, x, e) ==> ShowsListed(r, xs + [x], at + [|xs|], es + [e])
    ensures !Listed(r, x) ==> ShowsListed(r, xs + [x], at, es)
  {
    hide EntryFor, Listed;
    if EntryFor(r, x, e) {
      forall i | 0 <= i < |xs + [x]| && Listed(r, (xs + [x])[i])
        ensures i in at + [|xs|]
      {
        if i < |xs| {
          assert i in at;
        }
      }
    }
  }

  /** The kept entries are the listed finds, each once, in the order of the enumeration, with their data. */
  lemma {:induction false} KeptShows(r: Rules, xs: seq<Found>)
    ensures ShowsListed(r, xs, Places(r, xs), Kept(r, xs))
  {
    hide Listed, ShownName, EntryOf, ShowsListed;
    if xs == [] {
      NothingShown(r);
    } else {
      var front, x := xs[..|xs| - 1], xs[|xs| - 1];
      assert front + [x] == xs;
      KeptShows(r, front);
      if Listed(r, x) {
        EntryShows(r, x);
        OneMore(r, front, x, Places(r, front), Kept(r, front), EntryOf(ShownName(r, x), x.info.value));
      } else {
        OneMore(r, front, x, Places(r, front), Kept(r, front), Entry(0, 0, 0, 0, []));
        assert Places(r, front) + [] == Places(r, front) && Kept(r, front) + [] == Kept(r, front);
      }
    }
  }

  lemma NothingShown(r: Rules)
    ensures ShowsListed(r, [], [], [])
  {
  }

  lemma EntryShows(r: Rules, x: Found)
    requires Listed(r, x)
    ensures x.info.Some? && EntryFor(r, x, EntryOf(ShownName(r, x), x.info.value))
  {
  }

  // ---------- The two requests ----------

  /** An OPENDIRX request: option bytes, the largest number of results (0 for all), pattern, directory. */
  function Opening(d: U8, o: U8, max: U16, pattern: CString, dir: CString): seq<U8> {
    [d, o] + Le16(max) + (Paths.Sent(pattern) + Paths.Sent(dir))
  }

  /** What it asks for. */
  function Wish(path: CString, d: U8, o: U8, pattern: CString): Key {
    Key(path, d, o, if pattern == [] then None else Some(pattern))
  }

  lemma OpeningAsks(cfg: Config, st: State, d: U8, o: U8, max: U16, pattern: CString, dir: CString, inside: bool)
    ensures var data := Opening(d, o, max, pattern, dir);
      && |data| >= 7 - 1 && Terminated(data) && data[..2] == [d, o] && data[2..4] == Le16(max)
      && (|data| >= 7 ==> OpenDirXKey(cfg, st, data, inside) == Wish(DirPath(cfg, st, dir, inside), d, o, pattern))
  {
    hide DirPath, Le16, Paths.NameIn;
    var data := Opening(d, o, max, pattern, dir);
    assert data[4..] == Paths.Sent(pattern) + Paths.Sent(dir);
    assert data[|data| - 1] == Paths.Sent(dir)[|dir|];
    Paths.NameInSent(pattern, Paths.Sent(dir));
    if |data| >= 7 {
      assert data[4 + |pattern| + 1..] == Paths.Sent(dir) + [];
      Paths.NameInSent(dir, []);
    }
  }

  /** The answer to an OPENDIRX that made this listing: a handle and the number of entries, and the handle then
      has the listing, unread. */
  predicate Opened(d: Done, es: seq<Entry>) {
    && d.out.Recorded? && |d.out.reply.payload| == 3 && d.out.reply.payload[0] < 8 == |d.state.slots|
    && d.out.reply.status == 0 && d.out.reply.payload[1..] == Le16(|es| % 65536)
    && d.state.slots[d.out.reply.payload[0]].open && d.state.slots[d.out.reply.payload[0]].cursor == 0
    && d.state.slots[d.out.reply.payload[0]].entries == es
  }

  /** The listing a request asks for, of what the enumeration finds. */
  ghost function ListingOf(k: Key, max: U16, e: Enumeration): seq<Entry>
    requires e.Enumerated?
  {
    ListingFor(k, k.path, max, e.found, e.ignores)
  }

  /** A handle is to spare, and no cached walk serves the request. */
  predicate NeedsListing(slots: seq<Slot>, k: Key) {
    && (exists i :: 0 <= i < |slots| && !slots[i].open)
    && (k.diropt % 32 >= 16 ==> forall i :: 0 <= i < |slots| ==> !Serves(slots[i], k))
  }

  lemma NeededIsMade(slots: seq<Slot>, k: Key, now: int)
    requires AllOk(slots) && NeedsListing(slots, k)
    ensures Lists(slots, k, now)
  {
    hide Bit, Serves, Choose;
    BitsOf(k.diropt);
    var reuse := DirOptsOf(k.diropt).traverse;
    ChoiceGuarantees(slots, k, reuse, now);
  }

  /** An OPENDIRX that lists or walks opens the listing it asks for. */
  lemma OpeningLists(cfg: Config, st: State, d: U8, o: U8, max: U16, pattern: CString, dir: CString, env: Env)
    requires AllOk(st.slots) && env.enumeration.Enumerated? && (pattern != [] || dir != [])
    requires NeedsListing(st.slots, Wish(DirPath(cfg, st, dir, env.inside), d, o, pattern))
    ensures var k := Wish(DirPath(cfg, st, dir, env.inside), d, o, pattern);
      var done := Commands.Handle(cfg, st, 0x17, Opening(d, o, max, pattern, dir), env);
      Opened(done, ListingOf(k, max, env.enumeration)) && done.calls == [CallList(k.path)]
  {
    hide DirPath, Lists, NeedsListing, ListingFor, Opening, Wish, Choose, NewBuild, Le16, FromLe16, OpenDirXKey,
        Terminated, DirOptsOf;
    var data := Opening(d, o, max, pattern, dir);
    var k := Wish(DirPath(cfg, st, dir, env.inside), d, o, pattern);
    OpeningAsks(cfg, st, d, o, max, pattern, dir, env.inside);
    RoundTrip16(max, []);
    OpeningSize(d, o, max, pattern, dir);
    assert OpenDirXKey(cfg, st, data, env.inside) == k;
    NeededIsMade(st.slots, k, env.now);
    WishFits(cfg, st, d, o, pattern, dir, env.inside);
    NewListing(st.slots, k, max, env.now, env.enumeration);
  }

  lemma ListingFits(k: Key, max: U16, e: Enumeration)
    requires e.Enumerated?
    ensures Listable(ListingOf(k, max, e)) && |ListingOf(k, max, e)| <= |e.found|
  {
    ListingIsListable(k, k.path, max, e.found, e.ignores);
    ListingSize(k, k.path, max, e.found, e.ignores);
  }

  /** Enough READDIRX requests on the handle bring the whole listing. */
  lemma OpenedIsRead(cfg: Config, d: Done, es: seq<Entry>, asks: seq<Ask>)
    requires Opened(d, es) && Listable(es) && |asks| >= |es|
    ensures AllReceived(ReadAll(cfg, d.state, d.out.reply.payload[0], asks).outs) == es
  {
    hide Listable;
    ReadingDelivers(cfg, d.state, d.out.reply.payload[0], asks);
  }

  /** What a client that opens a directory and reads on until nothing is left gets to see: of the files the
      enumeration finds the listed ones, each once and with its data, the first max of them if that is not 0,
      and n directories first and the rest behind them, each part in the order asked for. */
  lemma ClientSeesDirectory(
    cfg: Config, st: State, d: U8, o: U8, max: U16, pattern: CString, dir: CString, env: Env, asks: seq<Ask>)
    returns (n: nat)
    requires AllOk(st.slots) && env.enumeration.Enumerated? && (pattern != [] || dir != [])
    requires NeedsListing(st.slots, Wish(DirPath(cfg, st, dir, env.inside), d, o, pattern))
    requires |asks| >= |env.enumeration.found|
    ensures var k := Wish(DirPath(cfg, st, dir, env.inside), d, o, pattern);
      var found := env.enumeration.found;
      var r := RulesFor(k, k.path, env.enumeration.ignores);
      var all := Kept(r, found);
      var kept := if max > 0 && |all| > max then all[..max] else all;
      var done := Commands.Handle(cfg, st, 0x17, Opening(d, o, max, pattern, dir), env);
      && Opened(done, ListingOf(k, max, env.enumeration))
      && ShowsListed(r, found, Places(r, found), Kept(r, found))
      && var seen := AllReceived(ReadAll(cfg, done.state, done.out.reply.payload[0], asks).outs);
         multiset(seen) == multiset(kept) && n <= |seen|
         && (if d % 2 == 1 then n == 0 else AllOfKind(seen[..n], true) && AllOfKind(seen[n..], false))
         && (Apart(kept, o) && o % 2 == 0 ==> InOrder(seen[..n], o) && InOrder(seen[n..], o))
  {
    hide DirPath, NeedsListing, ListingFor, Opening, Wish, Commands.Handle, DirOptsOf, SortOptsOf, Arranged,
        ShowsListed, InOrder,
         AllOfKind, Apart, RulesFor, ReadAll, AllReceived, Places, Kept, ListingOf, Opened, Listable;
    var k := Wish(DirPath(cfg, st, dir, env.inside), d, o, pattern);
    var e := env.enumeration;
    var r := RulesFor(k, k.path, e.ignores);
    var done := Commands.Handle(cfg, st, 0x17, Opening(d, o, max, pattern, dir), env);
    OpeningLists(cfg, st, d, o, max, pattern, dir, env);
    WishBytes(DirPath(cfg, st, dir, env.inside), d, o, pattern);
    KeptShows(r, e.found);
    ListingFits(k, max, e);
    OpenedIsRead(cfg, done, ListingOf(k, max, e), asks);
    ListingIsArranged(k, max, e, d, o);
    n := ArrangedAnyway(FirstN(Kept(r, e.found), max), d, o);
  }

  lemma WishBytes(path: CString, d: U8, o: U8, pattern: CString)
    ensures Wish(path, d, o, pattern).diropt == d && Wish(path, d, o, pattern).sortopt == o
    ensures var p := Wish(path, d, o, pattern).pattern; p.GetOr([]) == pattern && p != Some([])
  {
  }

  lemma ListingIsArranged(k: Key, max: U16, e: Enumeration, d: U8, o: U8)
    requires e.Enumerated? && k.diropt == d && k.sortopt == o
    ensures ListingOf(k, max, e)
            == Arranged(FirstN(Kept(RulesFor(k, k.path, e.ignores), e.found), max), DirOptsOf(d), SortOptsOf(o))
  {
  }

  lemma OpeningSize(d: U8, o: U8, max: U16, pattern: CString, dir: CString)
    ensures |Opening(d, o, max, pattern, dir)| == 6 + |pattern| + |dir|
  {
  }

  lemma WishFits(cfg: Config, st: State, d: U8, o: U8, pattern: CString, dir: CString, inside: bool)
    ensures |Wish(DirPath(cfg, st, dir, inside), d, o, pattern).path| < MAX_TNFSPATH
  {
    hide Paths.Collapsed, Paths.RootPrefix;
  }

  lemma NewListing(slots: seq<Slot>, k: Key, max: U16, now: int, e: Enumeration)
    requires AllOk(slots) && e.Enumerated? && Lists(slots, k, now) && |k.path| < MAX_TNFSPATH
    ensures var a := OpenDirX(slots, k, max, now, e);
      var h := Choose(slots, k, DirOptsOf(k.diropt).traverse, now).index;
      var es := ListingFor(k, k.path, max, e.found, e.ignores);
      && 0 <= h < |a.slots| == 8 && a.reply == Reply(0, [h % 256] + Le16(|es| % 65536))
      && a.slots[h].open && a.slots[h].cursor == 0 && a.slots[h].entries == es
  {
    hide ListingFor, Choose, DirOptsOf;
    var reuse := DirOptsOf(k.diropt).traverse;
    ChosenIsReset(slots, k, reuse, now);
    ChosenIsSetUp(slots, k, reuse, now);
  }

  // ---------- The cache ----------

  /** Slot h is closed and has the listing of a walk made at this time for k, which no other slot serves. */
  predicate WalkCached(slots: seq<Slot>, k: Key, now: int, h: nat, es: seq<Entry>) {
    && h < |slots| && slots[h].entries == es && slots[h].count == |es| % 65536
    && slots[h].loaded && !slots[h].open && slots[h].openAt == now && SlotKey(slots[h]) == DirCommands.Recorded(k)
    && forall i :: 0 <= i < |slots| && i != h ==> !Serves(slots[i], k)
  }

  lemma WalkIsCached(slots: seq<Slot>, k: Key, max: U16, now: int, e: Enumeration)
    requires AllOk(slots) && e.Enumerated? && Lists(slots, k, now) && DirOptsOf(k.diropt).traverse
    requires |k.path| < MAX_TNFSPATH
    ensures var h := Choose(slots, k, true, now).index;
      var after := OpenDirX(slots, k, max, now, e).slots;
      && 0 <= h < |after| && after[h].open && |CloseDir(after, h).slots| == 8
      && WalkCached(CloseDir(after, h).slots, k, now, h, ListingOf(k, max, e))
  {
    hide ListingFor, Serves;
    var c := Choose(slots, k, true, now);
    var h := c.index;
    ChosenIsReset(slots, k, true, now);
    ChosenIsSetUp(slots, k, true, now);
    ChoiceWithoutHit(slots, k, now);
    var after := OpenDirX(slots, k, max, now, e).slots;
    assert forall i :: 0 <= i < |after| && i != h ==> after[i] == c.slots[i];
    assert CloseDir(after, h).slots == after[h := after[h].(open := false)];
  }

  lemma ChoiceWithoutHit(slots: seq<Slot>, k: Key, now: int)
    requires Lists(slots, k, now) && DirOptsOf(k.diropt).traverse
    ensures var c := Choose(slots, k, true, now);
      |c.slots| == |slots| && forall i :: 0 <= i < |c.slots| && i != c.index ==> !Serves(c.slots[i], k)
  {
    hide SameText, DirOptsOf;
  }

  lemma CachedWalkServes(
    slots: seq<Slot>, k: Key, max: U16, walked: int, now: int, h: nat, es: seq<Entry>, e: Enumeration)
    requires WalkCached(slots, k, walked, h, es) && now - walked <= 300 && DirOptsOf(k.diropt).traverse
    requires |k.path| < MAX_TNFSPATH && |k.pattern.GetOr([])| < MAX_TNFSPATH && k.pattern != Some([])
    ensures !Lists(slots, k, now)
    ensures var a := OpenDirX(slots, k, max, now, e);
      && a.reply == Reply(0, [h % 256] + Le16(|es| % 65536))
      && |a.slots| == |slots| && a.slots[h].open && a.slots[h].cursor == 0 && a.slots[h].entries == es
  {
    hide ListingFor, DirOptsOf, SameText;
    SameTextOfItself(k.path);
    SameTextOfItself(k.pattern.GetOr([]));
    assert Serves(slots[h], k);
    NoOtherServes(slots, k, now, h);
  }

  lemma SameTextOfItself(s: CString)
    ensures SameText(s, s) && (|s| < MAX_TNFSPATH ==> Clipped(s, MAX_TNFSPATH) == s)
  {
  }

  lemma NoOtherServes(slots: seq<Slot>, k: Key, now: int, h: nat)
    requires h < |slots| && Serves(slots[h], k) && !Stale(slots[h], now)
    requires forall i :: 0 <= i < |slots| && i != h ==> !Serves(slots[i], k)
    ensures Choose(slots, k, true, now).index == h
    ensures var c := Choose(slots, k, true, now).slots; |c| == |slots| && c[h] == slots[h].(cursor := 0)
  {
    var s := WithoutStale(slots, now);
    var hit := FirstIndex(s, 0, Serving(k));
    assert Serving(k)(s[h]);
    assert hit <= h;
    assert Serving(k)(s[hit]);
  }

  lemma OpeningIsHandled(
    cfg: Config, st: State, d: U8, o: U8, max: U16, pattern: CString, dir: CString, env: Env)
    requires pattern != [] || dir != []
    ensures var k := Wish(DirPath(cfg, st, dir, env.inside), d, o, pattern);
      var done := Commands.Handle(cfg, st, 0x17, Opening(d, o, max, pattern, dir), env);
      var a := OpenDirX(st.slots, k, max, env.now, env.enumeration);
      && done.out == Recorded(a.reply) && done.state.slots == a.slots && done.state.root == st.root
      && done.calls == if Lists(st.slots, k, env.now) then [CallList(k.path)] else []
  {
    hide DirPath, Lists, OpenDirX, Opening, Wish, NewBuild, Le16, FromLe16, OpenDirXKey, Terminated;
    OpeningAsks(cfg, st, d, o, max, pattern, dir, env.inside);
    RoundTrip16(max, []);
    OpeningSize(d, o, max, pattern, dir);
  }

  lemma ClosingIsHandled(cfg: Config, st: State, h: U8, env: Env)
    requires h < |st.slots|
    ensures var done := Commands.Handle(cfg, st, 0x12, [h], env);
      done.state.slots == CloseDir(st.slots, h).slots && done.state.root == st.root
  {
    hide CloseDir;
    assert HandleOf(st, [h], 1) == Some(h as nat);
  }

  lemma SamePath(cfg: Config, st: State, st': State, dir: CString, inside: bool)
    requires st'.root == st.root
    ensures DirPath(cfg, st', dir, inside) == DirPath(cfg, st, dir, inside)
  {
  }

  /** The handle in the answer is the slot chosen. */
  lemma HandleAnswered(slots: seq<Slot>, k: Key, max: U16, now: int, e: Enumeration)
    requires AllOk(slots) && e.Enumerated? && Lists(slots, k, now) && |k.path| < MAX_TNFSPATH
    ensures var p := OpenDirX(slots, k, max, now, e).reply.payload;
      |p| > 0 && p[0] == Choose(slots, k, DirOptsOf(k.diropt).traverse, now).index
  {
    hide ListingFor, Choose, DirOptsOf;
    NewListing(slots, k, max, now, e);
  }

  lemma OpenedShape(d: Done, es: seq<Entry>)
    requires Opened(d, es)
    ensures d.out.Recorded? && |d.out.reply.payload| == 3 && d.out.reply.payload[0] < 8 == |d.state.slots|
  {
  }

  lemma OpenedAgain(d: Done, h: U8, es: seq<Entry>)
    requires h < 8 == |d.state.slots| && d.out == Recorded(Reply(0, [h] + Le16(|es| % 65536)))
    requires d.state.slots[h].open && d.state.slots[h].cursor == 0 && d.state.slots[h].entries == es
    ensures Opened(d, es)
  {
    assert ([h] + Le16(|es| % 65536))[1..] == Le16(|es| % 65536);
  }

  /** The cache serves: a walk that is closed and asked for again within 300 seconds is answered with the same
      listing, from its first entry on, and nothing is walked. */
  lemma WalkIsServedAgain(
    cfg: Config, st: State, d: U8, o: U8, max: U16, pattern: CString, dir: CString, env: Env, closing: Env, again: Env)
    requires AllOk(st.slots) && env.enumeration.Enumerated? && (pattern != [] || dir != []) && d % 32 >= 16
    requires NeedsListing(st.slots, Wish(DirPath(cfg, st, dir, env.inside), d, o, pattern))
    requires |pattern| < 256 && again.inside == env.inside && again.now - env.now <= 300
    ensures var k := Wish(DirPath(cfg, st, dir, env.inside), d, o, pattern);
      var es := ListingOf(k, max, env.enumeration);
      var data := Opening(d, o, max, pattern, dir);
      var done := Commands.Handle(cfg, st, 0x17, data, env);
      && Opened(done, es)
      && var closed := Commands.Handle(cfg, done.state, 0x12, [done.out.reply.payload[0]], closing);
         var more := Commands.Handle(cfg, closed.state, 0x17, data, again);
         Opened(more, es) && more.calls == []
  {
    hide Choose, ListingFor, DirPath, Wish, Opening, Commands.Handle, Lists, NeedsListing, OpenDirX, Bit, CloseDir,
        WalkCached, ListingOf,
         Opened;
    var path := DirPath(cfg, st, dir, env.inside);
    var k := Wish(path, d, o, pattern);
    var es := ListingOf(k, max, env.enumeration);
    var data := Opening(d, o, max, pattern, dir);
    BitsOf(d);
    WishBytes(path, d, o, pattern);
    WishFits(cfg, st, d, o, pattern, dir, env.inside);
    NeededIsMade(st.slots, k, env.now);
    OpeningLists(cfg, st, d, o, max, pattern, dir, env);
    OpeningIsHandled(cfg, st, d, o, max, pattern, dir, env);
    WalkIsCached(st.slots, k, max, env.now, env.enumeration);
    var done := Commands.Handle(cfg, st, 0x17, data, env);
    OpenedShape(done, es);
    var h := done.out.reply.payload[0];
    HandleAnswered(st.slots, k, max, env.now, env.enumeration);
    ClosingIsHandled(cfg, done.state, h, closing);
    var closed := Commands.Handle(cfg, done.state, 0x12, [h], closing);
    SamePath(cfg, st, closed.state, dir, env.inside);
    OpeningIsHandled(cfg, closed.state, d, o, max, pattern, dir, again);
    CachedWalkServes(closed.state.slots, k, max, env.now, again.now, h, es, again.enumeration);
    OpenedAgain(Commands.Handle(cfg, closed.state, 0x17, data, again), h, es);
  }
}

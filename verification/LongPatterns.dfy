/** A pattern too long for its slot (src/directory.c:1396, 1436, src/traverse.c): the walk uses all of it, the
    slot keeps its first 255 characters, and a later request for just those is served the wrong listing. */
module LongPatterns {
  import opened CStrings
  import opened Endian
  import opened EntryOrder
  import opened Listing
  import opened DirHandle
  import opened Handles
  import opened Paging
  import opened DirCommands
  import opened Commands
  import opened Sessions
  import Glob
  import Paths
  import Status

  // ---------- Globs of question marks ----------

  function Marks(n: nat): (g: CString)
    ensures |g| == n && forall i :: 0 <= i < n ==> g[i] == '?'
  {
    seq(n, _ => '?')
  }

  lemma {:induction false} MarksMatch(t: CString, i: nat, n: nat, j: nat)
    requires i <= |t| && j <= n && Glob.SlashFree(t, i, |t|)
    ensures Glob.Matches(t, Marks(n), i, j) <==> |t| - i == n - j
    decreases n - j
  {
    if j < n {
      assert Marks(n)[j] == '?';
    }
    if i < |t| && j < n {
      assert Glob.Accepts(Marks(n), j, t[i]) && Glob.TokenEnd(Marks(n), j) == j + 1;
      MarksMatch(t, i + 1, n, j + 1);
    }
  }

  lemma {:induction false} MarksHaveNoStars(n: nat, j: nat)
    requires j <= n
    ensures !Glob.TripleStarTail(Marks(n), j)
    decreases n - j
  {
    if j < n {
      assert Marks(n)[j] != '*';
      MarksHaveNoStars(n, j + 1);
    }
  }

  /** A path with one slash, in front, matches n question marks if its name has n characters. */
  lemma MarksDecide(name: CString, n: nat)
    requires n > 0 && Glob.SlashFree(name, 0, |name|)
    ensures Glob.LoopSays(['/'] + name, Marks(n)) <==> |name| == n
  {
    var t := ['/'] + name;
    assert Glob.SlashFree(t, 1, |t|) by {
      forall x | 1 <= x < |t|
        ensures t[x] != '/'
      {
        assert t[x] == name[x - 1];
      }
    }
    NameStart(t, 1, |t|);
    MarksHaveNoStars(n, 0);
    Glob.LoopDecidesGlob(t, Marks(n));
    MarksMatch(t, 1, n, 0);
  }

  lemma {:induction false} NameStart(t: CString, start: nat, n: nat)
    requires 0 < start <= n <= |t| && t[start - 1] == '/' && Glob.SlashFree(t, start, n)
    ensures Glob.AfterLastSlash(t, n) == start
    decreases n
  {
    if start < n {
      NameStart(t, start, n - 1);
    }
  }

  // ---------- One file with a long name ----------

  function Name(): (s: CString)
    ensures |s| == 255 && forall i :: 0 <= i < |s| ==> s[i] == 'a'
  {
    seq(255, _ => 'a')
  }

  /** A tree under path that holds one file. */
  function Tree(path: CString): Enumeration {
    Enumerated(0, [Found(WalkRoot(path) + ['/'] + Name(), Some(FileInfo(0, 0, 0, 0)))], [])
  }

  /** A request to walk path for a pattern of n question marks. */
  function Walking(path: CString, n: nat): Key {
    Key(path, 0x10, 0, Some(Marks(n)))
  }

  lemma OneFileListed(path: CString, n: nat)
    requires n > 0
    ensures var x := Tree(path).found[0];
      Listed(RulesFor(Walking(path, n), path, []), x) <==> n == 255
  {
    hide Glob.LoopSays;
    var x := Tree(path).found[0];
    var r := RulesFor(Walking(path, n), path, []);
    assert r.Walk? && r.root == WalkRoot(path);
    assert SlashName(r, x) == ['/'] + Name();
    MarksDecide(Name(), n);
  }

  lemma ListingOfOne(path: CString, n: nat)
    requires n > 0
    ensures |ListingFor(Walking(path, n), path, 0, Tree(path).found, [])| == if n == 255 then 1 else 0
  {
    OneFileListed(path, n);
    hide Listed, RulesFor, EntryOf, Arranged;
    var r := RulesFor(Walking(path, n), path, []);
    var xs := Tree(path).found;
    assert xs[..0] == [];
    assert Kept(r, xs[..0]) == [];
    ArrangedKeeps(Kept(r, xs), DirOptsOf(0x10), SortOptsOf(0));
  }

  // ---------- The three requests ----------

  /** The slot after walking for n marks into the first of eight empty ones. */
  lemma FirstWalk(path: CString, n: nat, now: int)
    requires |path| < MAX_TNFSPATH && n > 0
    ensures var slots := seq(MAX_HANDLES, _ => EMPTY);
      var k := Walking(path, n);
      var es := ListingFor(k, path, 0, Tree(path).found, []);
      var a := OpenDirX(slots, k, 0, now, Tree(path));
      && a == Answer(slots[0 := EMPTY.(path := path, diropt := 0x10, pattern := Clipped(Marks(n), MAX_TNFSPATH),
          openAt := now,
                                       open := true, loaded := true, entries := es, count := |es| % 65536)],
                     Reply(Status.SUCCESS, [0] + Le16(|es| % 65536)))
  {
    hide ListingFor, Tree, Clipped;
    TreeIsEnumerated(path);
    var slots := seq(MAX_HANDLES, _ => EMPTY);
    var k := Walking(path, n);
    assert DirOptsOf(0x10).traverse;
    FitsBuffer(path);
    FirstChoice(k, now);
  }

  lemma FitsBuffer(path: CString)
    requires |path| < MAX_TNFSPATH
    ensures Clipped(path, MAX_TNFSPATH) == path
  {
  }

  lemma FirstChoice(k: Key, now: int)
    ensures var slots := seq(MAX_HANDLES, _ => EMPTY);
      Choose(slots, k, true, now) == Chosen(slots[0 := Initialised(EMPTY, k, now)], 0)
  {
    hide Initialised, SameText;
    var slots := seq(MAX_HANDLES, _ => EMPTY);
    assert WithoutStale(slots, now) == slots;
  }

  lemma TreeIsEnumerated(path: CString)
    ensures var e := Tree(path); e.Enumerated? && e.ignores == []
  {
  }

  lemma LongIsCut()
    ensures Clipped(Marks(256), MAX_TNFSPATH) == Marks(255)
  {
  }

  /** A closed slot with the listing for 255 marks, or what was recorded as that, serves them. */
  lemma SecondIsServed(path: CString, now: int, s: Slot, e: Enumeration)
    requires |path| < MAX_TNFSPATH && s.loaded && !s.open && s.openAt == now
    requires SlotKey(s) == Key(path, 0x10, 0, Some(Marks(255)))
    ensures var slots := seq(MAX_HANDLES, _ => EMPTY)[0 := s];
      OpenDirX(slots, Walking(path, 255), 0, now, e).reply == Reply(Status.SUCCESS, [0] + Le16(s.count))
  {
    hide ListingFor, Marks;
    var slots := seq(MAX_HANDLES, _ => EMPTY)[0 := s];
    assert DirOptsOf(0x10).traverse;
    assert WithoutStale(slots, now) == slots;
    assert Serves(s, Walking(path, 255));
  }

  /** An OPENDIRX request to walk the mount root for n marks. */
  function Data(n: nat): seq<U8> {
    [0x10, 0, 0, 0] + Paths.Sent(Marks(n)) + [0]
  }

  lemma DataAsks(cfg: Config, st: State, n: nat, inside: bool)
    requires n > 1
    ensures |Data(n)| == n + 6 && Terminated(Data(n))
    ensures OpenDirXKey(cfg, st, Data(n), inside) == Walking(DirPath(cfg, st, [], inside), n)
  {
    hide Paths.Collapsed, Paths.RootPrefix, Paths.NameIn;
    assert Data(n)[4..] == Paths.Sent(Marks(n)) + [0];
    Paths.NameInSent(Marks(n), [0]);
    assert Data(n)[4 + n + 1..] == [0];
    LastNameIsEmpty();
  }

  lemma LastNameIsEmpty()
    ensures Paths.NameIn([0]) == []
  {
  }

  /** Walked for first, 255 marks list the file. Walked for after 256 marks, within the time a listing is
      cached, they are served the listing made for those, which is empty. */
  lemma LongPatternServesShorter(cfg: Config, root: CString, env: Env)
    requires env.enumeration == Tree(DirPath(cfg, NewState(root), [], env.inside))
    ensures var st := NewState(root);
      var st1 := Commands.Handle(cfg, st, 0x17, Data(256), env).state;
      var st2 := Commands.Handle(cfg, st1, 0x12, [0], env).state;
      && Commands.Handle(cfg, st, 0x17, Data(255), env).out == Recorded(Reply(Status.SUCCESS, [0] + Le16(1)))
      && Commands.Handle(cfg, st2, 0x17, Data(255), env).out == Recorded(Reply(Status.SUCCESS, [0] + Le16(0)))
  {
    hide OpenDirX, NewBuild, Lists, Data, DirPath, Tree, ListingFor, Walking, Marks, OpenDirXKey;
    var st := NewState(root);
    var path := DirPath(cfg, st, [], env.inside);
    PathFits(cfg, st, env.inside);
    var st1 := Commands.Handle(cfg, st, 0x17, Data(256), env).state;
    DataAsks(cfg, st, 256, env.inside);
    DataAsks(cfg, st, 255, env.inside);
    DataOptions(256);
    DataOptions(255);
    FirstWalk(path, 256, env.now);
    FirstWalk(path, 255, env.now);
    ListingOfOne(path, 256);
    ListingOfOne(path, 255);
    LongIsCut();
    var st2 := Commands.Handle(cfg, st1, 0x12, [0], env).state;
    var s := st1.slots[0].(open := false);
    assert st2.slots == seq(MAX_HANDLES, _ => EMPTY)[0 := s];
    DataAsks(cfg, st2, 255, env.inside);
    SamePath(cfg, st, st2, env.inside);
    SecondIsServed(path, env.now, s, env.enumeration);
  }

  lemma PathFits(cfg: Config, st: State, inside: bool)
    ensures |DirPath(cfg, st, [], inside)| < MAX_TNFSPATH
  {
  }

  lemma SamePath(cfg: Config, st: State, st': State, inside: bool)
    requires st.root == st'.root
    ensures DirPath(cfg, st, [], inside) == DirPath(cfg, st', [], inside)
  {
  }

  lemma DataOptions(n: nat)
    ensures FromLe16(Data(n)[2..4]) == 0
  {
  }
}

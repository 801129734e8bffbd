/** The gitignore-style glob matcher of src/match.c: its meaning as a recursive relation,
    and the two-level backtracking loop proved to decide that relation. */
module Glob {
  import opened CStrings

  // ---------- The meaning of a glob ----------

  /** The value CASE() compares, for NOCASEGLOB = 1. */
  function Fold(c: CChar): (r: int)
    ensures -128 <= r < 128
    ensures r == Promote('/') <==> c == '/'
  {
    Promote(ToLower(c))
  }

  datatype Range = Range(lo: int, hi: int)

  datatype Class = Class(ranges: seq<Range>, end: nat)

  /** The ranges written in g from k up to the closing bracket or the end of the glob, and the
      index where they stop. `last` is the folded previous character, if there is one. */
  function ParseClass(g: CString, k: nat, last: int): (c: Class)
    requires k <= |g|
    ensures k <= c.end <= |g|
    ensures c.end < |g| ==> g[c.end] == ']'
    decreases |g| - k
  {
    if k == |g| || g[k] == ']' then Class([], k)
    else if last < 256 && g[k] == '-' && k + 1 < |g| && g[k + 1] != ']' then
      var rest := ParseClass(g, k + 2, Fold(g[k + 1]));
      Class([Range(last, Fold(g[k + 1]))] + rest.ranges, rest.end)
    else
      var rest := ParseClass(g, k + 1, Fold(g[k]));
      Class([Range(Fold(g[k]), Fold(g[k]))] + rest.ranges, rest.end)
  }

  predicate InRanges(rs: seq<Range>, c: CChar) {
    exists n :: 0 <= n < |rs| && rs[n].lo <= Fold(c) <= rs[n].hi
  }

  predicate Negated(g: CString, j: nat) {
    j + 1 < |g| && (g[j + 1] == '^' || g[j + 1] == '!')
  }

  function ClassAt(g: CString, j: nat): (c: Class)
    requires j < |g|
    ensures j < c.end <= |g|
  {
    ParseClass(g, if Negated(g, j) then j + 2 else j + 1, 256)
  }

  /** Does the one-character token at j accept c? Only a literal slash accepts a slash. */
  predicate Accepts(g: CString, j: nat, c: CChar)
    requires j < |g|
  {
    match g[j]
    case '?' => c != '/'
    case '[' => c != '/' && InRanges(ClassAt(g, j).ranges, c) != Negated(g, j)
    case '\\' => j + 1 < |g| && Fold(g[j + 1]) == Fold(c)
    case _ => Fold(g[j]) == Fold(c)
  }

  /** The index just after the one-character token at j. */
  function TokenEnd(g: CString, j: nat): (e: nat)
    requires j < |g|
    ensures j < e <= |g|
  {
    match g[j]
    case '[' => var e := ClassAt(g, j).end; if e < |g| then e + 1 else e
    case '\\' => if j + 1 < |g| then j + 2 else j + 1
    case _ => j + 1
  }

  predicate OnlyStars(g: CString, j: nat)
    requires j <= |g|
  {
    forall k :: j <= k < |g| ==> g[k] == '*'
  }

  predicate SlashFree(t: CString, i: nat, k: nat)
    requires k <= |t|
  {
    forall x :: i <= x < k ==> t[x] != '/'
  }

  predicate DoubleStar(g: CString, j: nat)
    requires j < |g|
  {
    g[j] == '*' && j + 1 < |g| && g[j + 1] == '*'
  }

  /** The reference relation: t[i..] matches g[j..]. A single star stands for any run without a
      slash, a leading double star and slash for any run at all, a final double star for anything. */
  ghost predicate Matches(t: CString, g: CString, i: nat, j: nat)
    requires i <= |t| && j <= |g|
    decreases |g| - j, 0
  {
    if i == |t| then OnlyStars(g, j)
    else if j == |g| then false
    else if DoubleStar(g, j) then
      || j + 2 == |g|
      || (g[j + 2] == '/' && MatchesLater(t, g, i, j + 3))
    else if g[j] == '*' then
      exists k :: i <= k <= |t| && SlashFree(t, i, k) && Matches(t, g, k, j + 1)
    else
      Accepts(g, j, t[i]) && Matches(t, g, i + 1, TokenEnd(g, j))
  }

  /** Some suffix of t starting at i or later matches g[j..]. */
  ghost predicate MatchesLater(t: CString, g: CString, i: nat, j: nat)
    requires j <= |g|
    decreases |g| - j, 1
  {
    exists k :: i <= k <= |t| && Matches(t, g, k, j)
  }

  /** Where the `*` at glob position j - 1, resumed at text position i, may still try. */
  ghost predicate MatchesAcross(t: CString, g: CString, i: nat, j: nat)
    requires i <= |t| && j <= |g|
  {
    exists k :: i < k <= |t| && SlashFree(t, i, k) && Matches(t, g, k, j)
  }

  /** Three or more unescaped stars end the glob. */
  predicate TripleStarTail(g: CString, j: nat)
    requires j <= |g|
    decreases |g| - j
  {
    j < |g| &&
    if OnlyStars(g, j) then |g| - j >= 3
    else if DoubleStar(g, j) then TripleStarTail(g, j + 2)
    else if g[j] == '*' then TripleStarTail(g, j + 1)
    else TripleStarTail(g, TokenEnd(g, j))
  }

  // ---------- Where matching starts ----------

  /** Index after the `./` pairs that start at i. */
  function SkipDotSlash(t: CString, i: nat): (r: nat)
    requires i <= |t|
    ensures i <= r <= |t|
    decreases |t| - i
  {
    if i + 1 < |t| && t[i] == '.' && t[i + 1] == '/' then SkipDotSlash(t, i + 2) else i
  }

  /** Index after the last slash of t[..n]. */
  function AfterLastSlash(t: CString, n: nat): (r: nat)
    requires n <= |t|
    ensures r <= n && SlashFree(t, r, n)
    ensures r > 0 ==> t[r - 1] == '/'
  {
    if n == 0 then 0 else if t[n - 1] == '/' then n else AfterLastSlash(t, n - 1)
  }

  function TextStart(t: CString, g: CString): (i: nat)
    ensures i <= |t|
  {
    if g != [] && g[0] == '/' then
      var i := SkipDotSlash(t, 0);
      if i < |t| && t[i] == '/' then i + 1 else i
    else if '/' !in g then AfterLastSlash(t, |t|)
    else 0
  }

  function GlobStart(g: CString): (j: nat)
    ensures j <= |g|
  {
    if g != [] && g[0] == '/' then 1 else 0
  }

  ghost predicate GlobMatches(t: CString, g: CString) {
    Matches(t, g, TextStart(t, g), GlobStart(g))
  }

  // ---------- What the two saved points promise ----------

  /** The text position of the single-star point moves with the current position: every later
      restart of that star that succeeds reaches glob position j without meeting a slash. */
  ghost predicate StarShift(t: CString, g: CString, i1: nat, j1: nat, i: nat, j: nat)
    requires i1 <= i <= |t| && j1 <= |g| && j <= |g|
  {
    forall k :: i1 < k <= |t| && SlashFree(t, i1, k) && Matches(t, g, k, j1) ==>
      i + (k - i1) <= |t| && SlashFree(t, i1, i + (k - i1)) && Matches(t, g, i + (k - i1), j)
  }

  lemma AcceptsSlash(g: CString, j: nat, c: CChar, d: CChar)
    requires j < |g| && g[j] != '*' && Accepts(g, j, c) && Accepts(g, j, d)
    ensures c == '/' <==> d == '/'
  {
  }

  lemma TokenKeepsShift(t: CString, g: CString, i1: nat, j1: nat, i: nat, j: nat)
    requires i1 <= i < |t| && j1 <= |g| && j < |g| && g[j] != '*'
    requires Accepts(g, j, t[i])
    requires StarShift(t, g, i1, j1, i, j)
    ensures StarShift(t, g, i1, j1, i + 1, TokenEnd(g, j))
  {
    var e := TokenEnd(g, j);
    forall k | i1 < k <= |t| && SlashFree(t, i1, k) && Matches(t, g, k, j1)
      ensures i + 1 + (k - i1) <= |t| && SlashFree(t, i1, i + 1 + (k - i1)) && Matches(t, g, i + 1 + (k - i1), e)
    {
      var m := i + (k - i1);
      assert SlashFree(t, i1, m) && Matches(t, g, m, j) && !OnlyStars(g, j);
      AcceptsSlash(g, j, t[i], t[m]);
      assert t[i] != '/';
    }
  }

  lemma TokenKeepsLater(t: CString, g: CString, i: nat, j: nat)
    requires i <= |t| && j < |g| && g[j] != '*'
    requires MatchesLater(t, g, i, j)
    ensures MatchesLater(t, g, i + 1, TokenEnd(g, j))
  {
    var k :| i <= k <= |t| && Matches(t, g, k, j);
    assert !OnlyStars(g, j);
    assert Matches(t, g, k + 1, TokenEnd(g, j));
  }

  /** A successful later restart of the old star is subsumed by the new star at the current position. */
  lemma NewStarSubsumesOld(t: CString, g: CString, i1: nat, j1: nat, i: nat, j: nat)
    requires i1 <= i < |t| && j1 <= |g| && j < |g| && g[j] == '*'
    requires DoubleStar(g, j) ==> (j + 2 == |g| || g[j + 2] == '/' || !OnlyStars(g, j))
    requires StarShift(t, g, i1, j1, i, j)
    requires MatchesAcross(t, g, i1, j1)
    ensures Matches(t, g, i, j)
  {
    var k :| i1 < k <= |t| && SlashFree(t, i1, k) && Matches(t, g, k, j1);
    var m := i + (k - i1);
    assert SlashFree(t, i1, m) && Matches(t, g, m, j);
    if DoubleStar(g, j) {
      assert MatchesLater(t, g, i, j);
      NewDoubleStarSubsumesOld(t, g, i, j);
    } else if m == |t| {
      assert OnlyStars(g, j);
      assert SlashFree(t, i, m) && Matches(t, g, m, j + 1);
    } else {
      var n :| m <= n <= |t| && SlashFree(t, m, n) && Matches(t, g, n, j + 1);
      assert SlashFree(t, i, n);
    }
  }

  /** Nothing found from an older `**` point is lost by a `**` met at the current position. */
  lemma NewDoubleStarSubsumesOld(t: CString, g: CString, i: nat, j: nat)
    requires i < |t| && j < |g| && DoubleStar(g, j)
    requires j + 2 == |g| || g[j + 2] == '/' || !OnlyStars(g, j)
    requires MatchesLater(t, g, i, j)
    ensures Matches(t, g, i, j)
  {
    var k :| i <= k <= |t| && Matches(t, g, k, j);
    assert k == |t| ==> OnlyStars(g, j);
    if j + 2 < |g| && k < |t| {
      var r := j + 3;
      assert MatchesLater(t, g, k, r);
      var m :| k <= m <= |t| && Matches(t, g, m, r);
    }
  }

  lemma StarKeepsLater(t: CString, g: CString, i: nat, j: nat)
    requires i <= |t| && j < |g| && g[j] == '*' && !DoubleStar(g, j)
    requires MatchesLater(t, g, i, j)
    ensures MatchesLater(t, g, i, j + 1)
  {
    var k :| i <= k <= |t| && Matches(t, g, k, j);
    if k == |t| {
      assert OnlyStars(g, j);
      assert Matches(t, g, k, j + 1);
    }
  }

  lemma StarUnfolds(t: CString, g: CString, i: nat, j: nat)
    requires i < |t| && j < |g| && g[j] == '*' && !DoubleStar(g, j)
    ensures Matches(t, g, i, j) <==> Matches(t, g, i, j + 1) || MatchesAcross(t, g, i, j + 1)
  {
    assert SlashFree(t, i, i);
  }

  lemma DoubleStarUnfolds(t: CString, g: CString, i: nat, j: nat)
    requires i < |t| && j + 2 < |g| && DoubleStar(g, j) && g[j + 2] == '/'
    ensures Matches(t, g, i, j) <==> MatchesLater(t, g, i, j + 3)
  {
  }

  lemma LaterUnfolds(t: CString, g: CString, i: nat, j: nat)
    requires i < |t| && j <= |g|
    ensures MatchesLater(t, g, i, j) <==> Matches(t, g, i, j) || MatchesLater(t, g, i + 1, j)
  {
  }

  lemma AcrossUnfolds(t: CString, g: CString, i: nat, j: nat)
    requires i < |t| && j <= |g|
    ensures MatchesAcross(t, g, i, j) <==>
      t[i] != '/' && (Matches(t, g, i + 1, j) || MatchesAcross(t, g, i + 1, j))
  {
    if MatchesAcross(t, g, i, j) {
      var k :| i < k <= |t| && SlashFree(t, i, k) && Matches(t, g, k, j);
      assert SlashFree(t, i + 1, k);
    }
    if t[i] != '/' && MatchesAcross(t, g, i + 1, j) {
      var k :| i + 1 < k <= |t| && SlashFree(t, i + 1, k) && Matches(t, g, k, j);
      assert SlashFree(t, i, k);
    }
    assert t[i] != '/' ==> SlashFree(t, i, i + 1);
  }

  // ---------- The loop ----------

  /** The part of the inner class scan still to come, with what it has found so far. */
  method ScanClass(g: CString, j: nat, c: CChar) returns (matched: bool, end: nat)
    requires j < |g| && g[j] == '['
    ensures matched == InRanges(ClassAt(g, j).ranges, c)
    ensures end == ClassAt(g, j).end
  {
    end := if Negated(g, j) then j + 2 else j + 1;
    matched := false;
    var lastchr := 256;
    while end < |g| && g[end] != ']'
      invariant end <= |g|
      invariant ParseClass(g, end, lastchr).end == ClassAt(g, j).end
      invariant InRanges(ClassAt(g, j).ranges, c) == (matched || InRanges(ParseClass(g, end, lastchr).ranges, c))
      decreases |g| - end
    {
      ghost var here := ParseClass(g, end, lastchr);
      if lastchr < 256 && g[end] == '-' && end + 1 < |g| && g[end + 1] != ']' {
        end := end + 1;
        if Fold(c) <= Fold(g[end]) && Fold(c) >= lastchr {
          matched := true;
        }
      } else if Fold(c) == Fold(g[end]) {
        matched := true;
      }
      lastchr := Fold(g[end]);
      end := end + 1;
      ghost var rest := ParseClass(g, end, lastchr);
      assert here.ranges == [here.ranges[0]] + rest.ranges;
      InRangesCons(here.ranges[0], rest.ranges, c);
    }
  }

  lemma InRangesCons(r: Range, rs: seq<Range>, c: CChar)
    ensures InRanges([r] + rs, c) <==> r.lo <= Fold(c) <= r.hi || InRanges(rs, c)
  {
    if InRanges(rs, c) {
      var n :| 0 <= n < |rs| && rs[n].lo <= Fold(c) <= rs[n].hi;
      assert ([r] + rs)[n + 1] == rs[n];
    }
    if r.lo <= Fold(c) <= r.hi {
      assert ([r] + rs)[0] == r;
    }
  }

  /** The prelude: a leading slash anchors the glob, a glob without a slash matches the basename. */
  method StartOfMatch(text: CString, glob: CString) returns (i: nat, j: nat)
    ensures i == TextStart(text, glob) && j == GlobStart(glob)
  {
    i, j := 0, 0;
    if glob != [] && glob[0] == '/' {
      while i + 1 < |text| && text[i] == '.' && text[i + 1] == '/'
        invariant i <= |text|
        invariant SkipDotSlash(text, i) == SkipDotSlash(text, 0)
      {
        i := i + 2;
      }
      if i < |text| && text[i] == '/' {
        i := i + 1;
      }
      j := 1;
    } else if '/' !in glob {
      i := AfterLastSlash(text, |text|);
    }
  }

  /** The `?`, `[` and literal cases of the switch: the next glob index, or -1 when c is refused. */
  method TokenStep(g: CString, j: nat, c: CChar) returns (next: int)
    requires j <= |g| && (j < |g| ==> g[j] != '*')
    ensures next == if j < |g| && Accepts(g, j, c) then TokenEnd(g, j) else -1
  {
    next := -1;
    if j < |g| && g[j] == '?' {
      if c != '/' {
        next := j + 1;
      }
    } else if j < |g| && g[j] == '[' {
      if c != '/' {
        var matched, end := ScanClass(g, j, c);
        if matched != Negated(g, j) {
          next := if end < |g| then end + 1 else end;
        }
      }
    } else {
      var lit := if j < |g| && g[j] == '\\' then j + 1 else j;
      if lit < |g| && Fold(g[lit]) == Fold(c) {
        next := lit + 1;
      }
    }
  }

  /** The loop's variables; -1 stands for a null backup pointer. `live` says that the single-star
      point was saved since the `**` point was last saved or resumed. */
  datatype Scan = Scan(i: nat, j: nat, i1: int, j1: int, i2: int, j2: int, live: bool)

  predicate Bounded(t: CString, g: CString, s: Scan) {
    && s.i <= |t| && s.j <= |g|
    && -1 <= s.i1 <= |t| && -1 <= s.j1 <= |g| && (s.i1 == -1 <==> s.j1 == -1)
    && -1 <= s.i2 <= s.i && -1 <= s.j2 <= s.j && (s.i2 == -1 <==> s.j2 == -1)
    && (s.live ==> s.j1 != -1 && s.i2 <= s.i1 <= s.i && s.j2 <= s.j1 <= s.j)
    && (!s.live && s.j1 != -1 ==> s.i1 < |t| && t[s.i1] == '/')
  }

  /** goal holds exactly when the current position or one of the two saved points can still match,
      and neither saved point has been overtaken. */
  ghost predicate Inv(t: CString, g: CString, goal: bool, s: Scan) {
    && Bounded(t, g, s)
    && (goal <==>
          || Matches(t, g, s.i, s.j)
          || (s.live && MatchesAcross(t, g, s.i1, s.j1))
          || (s.j2 != -1 && MatchesLater(t, g, s.i2 + 1, s.j2)))
    && (s.live ==> StarShift(t, g, s.i1, s.j1, s.i, s.j))
    && (s.live ==> (Matches(t, g, s.i1, s.j1) ==> Matches(t, g, s.i, s.j)))
    && (s.j2 != -1 && MatchesLater(t, g, s.i2 + 1, s.j2) ==>
          MatchesLater(t, g, s.i, s.j) && (s.live ==> MatchesLater(t, g, s.i1, s.j1)))
  }

  lemma InvToken(t: CString, g: CString, goal: bool, s: Scan)
    requires Inv(t, g, goal, s) && s.i < |t| && s.j < |g| && g[s.j] != '*' && Accepts(g, s.j, t[s.i])
    ensures Inv(t, g, goal, s.(i := s.i + 1, j := TokenEnd(g, s.j)))
  {
    if s.live {
      TokenKeepsShift(t, g, s.i1, s.j1, s.i, s.j);
    }
    if s.j2 != -1 && MatchesLater(t, g, s.i2 + 1, s.j2) {
      TokenKeepsLater(t, g, s.i, s.j);
    }
  }

  lemma InvStar(t: CString, g: CString, goal: bool, s: Scan)
    requires Inv(t, g, goal, s) && s.i < |t| && s.j < |g| && g[s.j] == '*' && !DoubleStar(g, s.j)
    ensures Inv(t, g, goal, s.(j := s.j + 1, i1 := s.i, j1 := s.j + 1, live := true))
  {
    StarUnfolds(t, g, s.i, s.j);
    if s.live && MatchesAcross(t, g, s.i1, s.j1) {
      NewStarSubsumesOld(t, g, s.i1, s.j1, s.i, s.j);
    }
    if s.j2 != -1 && MatchesLater(t, g, s.i2 + 1, s.j2) {
      StarKeepsLater(t, g, s.i, s.j);
    }
  }

  /** When a `**` is met, its own alternatives are all that can still match. */
  lemma DoubleStarDecides(t: CString, g: CString, goal: bool, s: Scan)
    requires Inv(t, g, goal, s) && s.i < |t| && s.j < |g| && DoubleStar(g, s.j)
    requires s.j + 2 == |g| || g[s.j + 2] == '/' || !OnlyStars(g, s.j)
    ensures goal <==> Matches(t, g, s.i, s.j)
  {
    if s.live && MatchesAcross(t, g, s.i1, s.j1) {
      NewStarSubsumesOld(t, g, s.i1, s.j1, s.i, s.j);
    }
    if s.j2 != -1 && MatchesLater(t, g, s.i2 + 1, s.j2) {
      NewDoubleStarSubsumesOld(t, g, s.i, s.j);
    }
  }

  lemma InvDoubleStar(t: CString, g: CString, goal: bool, s: Scan)
    requires Inv(t, g, goal, s) && s.i < |t| && s.j + 2 < |g| && DoubleStar(g, s.j) && g[s.j + 2] == '/'
    ensures Inv(t, g, goal, Scan(s.i, s.j + 3, -1, -1, s.i, s.j + 3, false))
  {
    DoubleStarDecides(t, g, goal, s);
    DoubleStarUnfolds(t, g, s.i, s.j);
    LaterUnfolds(t, g, s.i, s.j + 3);
  }

  /** No token of the glob at j accepts the text at i. */
  ghost predicate Stuck(t: CString, g: CString, s: Scan)
    requires s.i < |t| && s.j <= |g|
  {
    s.j < |g| ==> g[s.j] != '*' && !Accepts(g, s.j, t[s.i])
  }

  lemma InvRetryStar(t: CString, g: CString, goal: bool, s: Scan)
    requires Inv(t, g, goal, s) && s.i < |t| && Stuck(t, g, s)
    requires s.j1 != -1 && s.i1 < |t| && t[s.i1] != '/'
    ensures Inv(t, g, goal, s.(i1 := s.i1 + 1, i := s.i1 + 1, j := s.j1))
  {
    AcrossUnfolds(t, g, s.i1, s.j1);
    if s.j2 != -1 && MatchesLater(t, g, s.i2 + 1, s.j2) {
      LaterUnfolds(t, g, s.i1, s.j1);
    }
  }

  lemma InvRetryDoubleStar(t: CString, g: CString, goal: bool, s: Scan)
    requires Inv(t, g, goal, s) && s.i < |t| && Stuck(t, g, s)
    requires s.j1 == -1 || t[s.i1] == '/'
    requires s.j2 != -1
    ensures Inv(t, g, goal, s.(i2 := s.i2 + 1, i := s.i2 + 1, j := s.j2, live := false))
  {
    if s.live {
      AcrossUnfolds(t, g, s.i1, s.j1);
    }
    if s.i2 + 1 < |t| {
      LaterUnfolds(t, g, s.i2 + 1, s.j2);
    }
  }

  lemma InvGivesUp(t: CString, g: CString, goal: bool, s: Scan)
    requires Inv(t, g, goal, s) && s.i < |t| && Stuck(t, g, s)
    requires s.j1 == -1 || t[s.i1] == '/'
    requires s.j2 == -1
    ensures !goal
  {
    if s.live {
      AcrossUnfolds(t, g, s.i1, s.j1);
    }
  }

  lemma ShiftLeavesText(t: CString, g: CString, i1: nat, j1: nat, j: nat)
    requires i1 <= |t| && j1 <= |g| && j <= |g| && StarShift(t, g, i1, j1, |t|, j)
    ensures !MatchesAcross(t, g, i1, j1)
  {
  }

  lemma InvAtEnd(t: CString, g: CString, goal: bool, s: Scan)
    requires Inv(t, g, goal, s) && s.i == |t|
    ensures goal <==> OnlyStars(g, s.j)
  {
    if s.live {
      ShiftLeavesText(t, g, s.i1, s.j1, s.j);
    }
    if s.j2 != -1 && MatchesLater(t, g, s.i2 + 1, s.j2) {
      assert MatchesLater(t, g, s.i, s.j);
    }
  }

  // ---------- How many steps the loop takes ----------

  /** Work done so far: resumed `**` positions first, then resumed `*` positions, then glob index. */
  function Progress(n: nat, m: nat, i2: nat, i1: nat, j: nat): nat {
    (i2 * (n + 1) + i1) * (m + 1) + j
  }

  lemma MulStep(a: nat, b: nat, w: nat)
    requires a < b
    ensures a * w + w <= b * w
  {
    assert (b - 1) * w + w == b * w;
    if a + 1 < b {
      MulStep(a, b - 1, w);
    }
  }

  lemma DigitsGrow(a: nat, x: nat, b: nat, y: nat, w: nat)
    requires x <= w && a <= b && (a == b ==> x < y)
    ensures a * (w + 1) + x < b * (w + 1) + y
  {
    if a < b {
      MulStep(a, b, w + 1);
    }
  }

  /** Progress grows when a more significant counter grows, whatever the others do. */
  lemma ProgressGrows(n: nat, m: nat, i2: nat, i1: nat, j: nat, k2: nat, k1: nat, k: nat)
    requires i1 <= n && j <= m
    requires i2 <= k2 && (i2 == k2 ==> i1 <= k1 && (i1 == k1 ==> j < k))
    ensures Progress(n, m, i2, i1, j) < Progress(n, m, k2, k1, k)
  {
    var a, b := i2 * (n + 1) + i1, k2 * (n + 1) + k1;
    if i2 < k2 || i1 < k1 {
      DigitsGrow(i2, i1, k2, k1, n);
    }
    DigitsGrow(a, j, b, k, m);
  }

  function Spent(t: CString, g: CString, s: Scan): nat
    requires Bounded(t, g, s)
  {
    var i2 := if s.j2 == -1 then 0 else s.i2;
    Progress(|t|, |g|, i2, if s.live then s.i1 else i2, s.j)
  }

  function Limit(t: CString, g: CString): nat {
    Progress(|t|, |g|, |t|, |t|, |g|)
  }

  lemma SpentLimit(t: CString, g: CString, s: Scan)
    requires Bounded(t, g, s)
    ensures Spent(t, g, s) <= Limit(t, g)
    ensures s.i < |t| ==> Spent(t, g, s) < Limit(t, g)
  {
    var i2 := if s.j2 == -1 then 0 else s.i2;
    var i1 := if s.live then s.i1 else i2;
    if i2 != |t| || i1 != |t| || s.j != |g| {
      ProgressGrows(|t|, |g|, i2, i1, s.j, |t|, |t|, |g|);
    }
  }

  /** One of the five moves the loop makes from s. */
  predicate Moves(t: CString, g: CString, s: Scan, u: Scan) {
    || (u.i2 == s.i2 && u.j2 == s.j2 && u.i1 == s.i1 && u.live == s.live && s.j < u.j)
    || (u.i2 == s.i2 && u.j2 == s.j2 && u.live && u.i1 == s.i && s.j < u.j)
    || (u.j2 != -1 && u.i2 == s.i && !u.live && s.j < u.j)
    || (u.i2 == s.i2 && u.j2 == s.j2 && u.live && s.live && u.i1 == s.i1 + 1)
    || (u.j2 != -1 && s.j2 != -1 && u.i2 == s.i2 + 1 && !u.live)
  }

  lemma MoveSpends(t: CString, g: CString, s: Scan, u: Scan)
    requires Bounded(t, g, s) && Bounded(t, g, u) && Moves(t, g, s, u)
    ensures Spent(t, g, s) < Spent(t, g, u) <= Limit(t, g)
  {
    var i2 := if s.j2 == -1 then 0 else s.i2;
    var k2 := if u.j2 == -1 then 0 else u.i2;
    ProgressGrows(|t|, |g|, i2, if s.live then s.i1 else i2, s.j, k2, if u.live then u.i1 else k2, u.j);
    SpentLimit(t, g, u);
  }

  // ---------- The loop as a function, and what it decides ----------

  datatype Outcome = Go(next: Scan) | Stop(result: bool)

  /** One turn of the loop. */
  ghost function Turn(t: CString, g: CString, s: Scan): (o: Outcome)
    requires Bounded(t, g, s) && s.i < |t|
    ensures o.Go? ==> Bounded(t, g, o.next) && Moves(t, g, s, o.next)
  {
    if s.j < |g| && DoubleStar(g, s.j) then
      if s.j + 2 == |g| then Stop(true)
      else if g[s.j + 2] != '/' then Stop(false)
      else Go(Scan(s.i, s.j + 3, -1, -1, s.i, s.j + 3, false))
    else if s.j < |g| && g[s.j] == '*' then
      Go(s.(j := s.j + 1, i1 := s.i, j1 := s.j + 1, live := true))
    else if s.j < |g| && Accepts(g, s.j, t[s.i]) then
      Go(s.(i := s.i + 1, j := TokenEnd(g, s.j)))
    else if s.j1 != -1 && t[s.i1] != '/' then
      Go(s.(i1 := s.i1 + 1, i := s.i1 + 1, j := s.j1))
    else if s.j2 != -1 then
      Go(s.(i2 := s.i2 + 1, i := s.i2 + 1, j := s.j2, live := false))
    else Stop(false)
  }

  ghost function Run(t: CString, g: CString, s: Scan): bool
    requires Bounded(t, g, s)
    decreases Limit(t, g) - Spent(t, g, s)
  {
    if s.i == |t| then OnlyStars(g, s.j)
    else
      match Turn(t, g, s)
      case Stop(result) => result
      case Go(u) =>
        MoveSpends(t, g, s, u);
        Run(t, g, u)
  }

  /** How many turns the loop takes from s. */
  ghost function Turns(t: CString, g: CString, s: Scan): (n: nat)
    requires Bounded(t, g, s)
    ensures n <= Limit(t, g) - Spent(t, g, s)
    decreases Limit(t, g) - Spent(t, g, s)
  {
    SpentLimit(t, g, s);
    if s.i == |t| then 0
    else
      match Turn(t, g, s)
      case Stop(_) => 1
      case Go(u) =>
        MoveSpends(t, g, s, u);
        1 + Turns(t, g, u)
  }

  /** A turn that goes on leaves the answer to the rest of the run; one that stops gives it. */
  lemma RunTurn(t: CString, g: CString, s: Scan)
    requires Bounded(t, g, s) && s.i < |t|
    ensures Turn(t, g, s).Go? ==>
      var u := Turn(t, g, s).next;
      Run(t, g, u) == Run(t, g, s) && Turns(t, g, u) < Turns(t, g, s)
    ensures Turn(t, g, s).Stop? ==> Run(t, g, s) == Turn(t, g, s).result
  {
  }

  lemma RunEnd(t: CString, g: CString, s: Scan)
    requires Bounded(t, g, s) && s.i == |t|
    ensures Run(t, g, s) == OnlyStars(g, s.j)
  {
  }

  function Start(t: CString, g: CString): Scan {
    Scan(TextStart(t, g), GlobStart(g), -1, -1, -1, -1, false)
  }

  lemma TurnKeepsInv(t: CString, g: CString, goal: bool, s: Scan)
    requires Inv(t, g, goal, s) && s.i < |t| && Turn(t, g, s).Go?
    ensures Inv(t, g, goal, Turn(t, g, s).next)
  {
    assert Bounded(t, g, s);
    hide Inv;
    if s.j < |g| && g[s.j] == '*' {
      StarTurnKeepsInv(t, g, goal, s);
    } else if s.j < |g| && Accepts(g, s.j, t[s.i]) {
      InvToken(t, g, goal, s);
    } else if s.j1 != -1 && t[s.i1] != '/' {
      InvRetryStar(t, g, goal, s);
    } else {
      InvRetryDoubleStar(t, g, goal, s);
    }
  }

  lemma StarTurnKeepsInv(t: CString, g: CString, goal: bool, s: Scan)
    requires Inv(t, g, goal, s) && s.i < |t| && Turn(t, g, s).Go? && s.j < |g| && g[s.j] == '*'
    ensures Inv(t, g, goal, Turn(t, g, s).next)
  {
    if DoubleStar(g, s.j) {
      InvDoubleStar(t, g, goal, s);
    } else {
      InvStar(t, g, goal, s);
    }
  }

  lemma TurnAnswers(t: CString, g: CString, goal: bool, s: Scan)
    requires Inv(t, g, goal, s) && s.i < |t| && Turn(t, g, s).Stop?
    ensures Turn(t, g, s).result ==> goal
    ensures goal && !Turn(t, g, s).result ==> OnlyStars(g, s.j) && |g| - s.j >= 3
  {
    if s.j < |g| && DoubleStar(g, s.j) {
      if s.j + 2 == |g| || !OnlyStars(g, s.j) {
        DoubleStarDecides(t, g, goal, s);
      }
    } else {
      InvGivesUp(t, g, goal, s);
    }
  }

  /** No point the loop can resume lies before a run of three or more stars that ends the glob. */
  predicate Regular(g: CString, s: Scan)
    requires s.j <= |g| && -1 <= s.j1 <= |g| && -1 <= s.j2 <= |g|
  {
    && !TripleStarTail(g, s.j)
    && (s.j1 != -1 ==> !TripleStarTail(g, s.j1))
    && (s.j2 != -1 ==> !TripleStarTail(g, s.j2))
  }

  lemma TurnKeepsRegular(t: CString, g: CString, s: Scan)
    requires Bounded(t, g, s) && s.i < |t| && Regular(g, s)
    ensures Turn(t, g, s).Go? ==> Regular(g, Turn(t, g, s).next)
  {
    if s.j + 2 < |g| && DoubleStar(g, s.j) && g[s.j + 2] == '/' {
      assert !OnlyStars(g, s.j) && !OnlyStars(g, s.j + 2);
      assert !TripleStarTail(g, s.j + 2) && TokenEnd(g, s.j + 2) == s.j + 3;
    }
  }

  /** With text left the loop stands before the three or more stars that end the glob. */
  predicate AtFinalStars(t: CString, g: CString, s: Scan)
    requires s.j <= |g|
  {
    s.i < |t| && OnlyStars(g, s.j) && |g| - s.j >= 3
  }

  /** From s on, the loop comes to such a point. */
  ghost predicate MeetsFinalStars(t: CString, g: CString, s: Scan)
    requires Bounded(t, g, s)
    decreases Limit(t, g) - Spent(t, g, s)
  {
    s.i < |t|
    && (AtFinalStars(t, g, s)
        || match Turn(t, g, s)
           case Stop(_) => false
           case Go(u) =>
             MoveSpends(t, g, s, u);
             MeetsFinalStars(t, g, u))
  }

  lemma StopsAtFinalStars(t: CString, g: CString, s: Scan)
    requires Bounded(t, g, s) && AtFinalStars(t, g, s)
    ensures Turn(t, g, s) == Stop(false)
  {
    assert OnlyStars(g, s.j + 1) && OnlyStars(g, s.j + 2);
  }

  lemma {:induction false} RunDecides(t: CString, g: CString, goal: bool, s: Scan)
    requires Inv(t, g, goal, s)
    ensures Run(t, g, s) ==> goal
    ensures Run(t, g, s) <==> goal && !MeetsFinalStars(t, g, s)
    ensures Regular(g, s) ==> (Run(t, g, s) <==> goal)
    decreases Limit(t, g) - Spent(t, g, s)
  {
    if s.i == |t| {
      InvAtEnd(t, g, goal, s);
    } else {
      var o := Turn(t, g, s);
      if Regular(g, s) {
        TurnKeepsRegular(t, g, s);
      }
      if AtFinalStars(t, g, s) {
        StopsAtFinalStars(t, g, s);
      }
      if o.Stop? {
        TurnAnswers(t, g, goal, s);
      } else {
        TurnKeepsInv(t, g, goal, s);
        MoveSpends(t, g, s, o.next);
        RunDecides(t, g, goal, o.next);
      }
    }
  }

  /** What the loop answers for a text and a glob. */
  ghost predicate LoopSays(t: CString, g: CString) {
    Run(t, g, Start(t, g))
  }

  /** Keeping only the latest `*` and the latest `**` loses no match: the loop is sound on every
      glob, and exact on every glob that does not end in three or more unescaped stars. On the others it
      misses a match exactly when it comes to those stars before the end of the text. */
  lemma LoopDecidesGlob(t: CString, g: CString)
    ensures LoopSays(t, g) ==> GlobMatches(t, g)
    ensures LoopSays(t, g) <==> GlobMatches(t, g) && !MeetsFinalStars(t, g, Start(t, g))
    ensures !TripleStarTail(g, GlobStart(g)) ==> (LoopSays(t, g) <==> GlobMatches(t, g))
  {
    RunDecides(t, g, GlobMatches(t, g), Start(t, g));
  }

  /** A glob ending in three stars can lose a match: `**` not followed by a slash gives up at once,
      without resuming the star before it. */
  lemma TripleStarTailLosesMatch(t: CString, g: CString)
    requires t == "aba" && g == "*a***"
    ensures TripleStarTail(g, GlobStart(g))
    ensures GlobMatches(t, g) && !LoopSays(t, g)
  {
    var s := Start(t, g);
    assert s == Scan(0, 0, -1, -1, -1, -1, false);
    TripleStarMatch(t, g);
    var s1 := Scan(0, 1, 0, 1, -1, -1, true);
    var s2 := Scan(1, 2, 0, 1, -1, -1, true);
    assert Turn(t, g, s) == Go(s1);
    assert Turn(t, g, s1) == Go(s2);
    assert Turn(t, g, s2) == Stop(false);
    assert Run(t, g, s1) == Run(t, g, s2);
  }

  lemma TripleStarMatch(t: CString, g: CString)
    requires t == "aba" && g == "*a***"
    ensures Matches(t, g, 0, 0) && TripleStarTail(g, 0)
  {
    assert OnlyStars(g, 2);
    assert Matches(t, g, 3, 2);
    assert Matches(t, g, 2, 1);
    assert SlashFree(t, 0, 2);
  }

  /** Every `**` of the glob is followed by a slash or by the end of the glob. */
  predicate WellFormed(g: CString) {
    forall j :: 0 <= j < |g| - 2 && g[j] == '*' && g[j + 1] == '*' ==> g[j + 2] == '/'
  }

  lemma {:induction false} TailIsThreeStars(g: CString, j: nat)
    requires j <= |g| && TripleStarTail(g, j)
    ensures j <= |g| - 3 && g[|g| - 3..] == "***"
    decreases |g| - j
  {
    if !OnlyStars(g, j) {
      TailIsThreeStars(g, if DoubleStar(g, j) then j + 2 else if g[j] == '*' then j + 1 else TokenEnd(g, j));
    }
  }

  lemma ThreeStarsAtEnd(g: CString)
    requires |g| >= 3 && g[|g| - 3..] == "***"
    ensures !WellFormed(g)
  {
    var last := g[|g| - 3..];
    assert last[0] == g[|g| - 3] && last[1] == g[|g| - 2] && last[2] == g[|g| - 1];
  }

  /** On a glob whose text does not end in three stars the loop is exact, and a well-formed glob is such a glob. */
  lemma ExactOnText(t: CString, g: CString)
    requires WellFormed(g) || |g| < 3 || g[|g| - 3..] != "***"
    ensures LoopSays(t, g) <==> GlobMatches(t, g)
  {
    if TripleStarTail(g, GlobStart(g)) {
      TailIsThreeStars(g, GlobStart(g));
      ThreeStarsAtEnd(g);
    }
    LoopDecidesGlob(t, g);
  }

  /** The cost of a match is quadratic in the text and linear in the glob. */
  lemma LoopCost(t: CString, g: CString)
    ensures Turns(t, g, Start(t, g)) <= |t| * (|t| + 2) * (|g| + 1) + |g|
  {
    assert |t| * (|t| + 1) + |t| == |t| * (|t| + 2);
  }

  /** Trailing stars are ignored at the end of the text. */
  method OnlyStarsLeft(glob: CString, start: nat) returns (r: bool)
    requires start <= |glob|
    ensures r == OnlyStars(glob, start)
  {
    var j := start;
    while j < |glob| && glob[j] == '*'
      invariant start <= j <= |glob|
      invariant OnlyStars(glob, j) <==> OnlyStars(glob, start)
    {
      j := j + 1;
    }
    r := j == |glob|;
  }

  method GitignoreGlobMatch(text: CString, glob: CString) returns (r: bool)
    ensures r == LoopSays(text, glob)
  {
    var i: nat, j: nat := StartOfMatch(text, glob);
    var i1: int, j1: int, i2: int, j2: int := -1, -1, -1, -1;
    ghost var s := Start(text, glob);
    hide Run, Turns, Accepts, TokenEnd, OnlyStars, TextStart, GlobStart;
    while i < |text|
      invariant Bounded(text, glob, s)
      invariant s == Scan(i, j, i1, j1, i2, j2, s.live)
      invariant Run(text, glob, s) == Run(text, glob, Start(text, glob))
      decreases Turns(text, glob, s)
    {
      ghost var o := Turn(text, glob, s);
      RunTurn(text, glob, s);
      s := if o.Go? then o.next else s;
      if j < |glob| && glob[j] == '*' {
        j := j + 1;
        if j < |glob| && glob[j] == '*' {
          j := j + 1;
          if j == |glob| {
            return true;
          }
          if glob[j] != '/' {
            return false;
          }
          j := j + 1;
          i1, j1, i2, j2 := -1, -1, i, j;
        } else {
          i1, j1 := i, j;
        }
        continue;
      }
      var next := TokenStep(glob, j, text[i]);
      if next != -1 {
        i, j := i + 1, next;
      } else if j1 != -1 && text[i1] != '/' {
        i1 := i1 + 1;
        i, j := i1, j1;
      } else if j2 != -1 {
        i2 := i2 + 1;
        i, j := i2, j2;
      } else {
        return false;
      }
    }
    RunEnd(text, glob, s);
    r := OnlyStarsLeft(glob, j);
  }
}

/** What the glob matcher of src/match.c accepts, in plain characters: words, `?`, one `*`, bracket classes,
    a leading and a trailing double star, and upper and lower case. */
module GlobMeaning {
  import opened CStrings
  import opened Glob

  // ---------- Characters ----------

  lemma FoldIsCase(c: CChar, d: CChar)
    ensures Fold(c) == Fold(d) <==> SameLetter(c, d)
  {
    LowerIsCase(c, d);
  }

  /** The number a character is compared by: its lower case, as a signed byte. */
  function CaseValue(c: CChar): int {
    var u := if 'A' <= c <= 'Z' then c as int + 32 else c as int;
    if u < 128 then u else u - 256
  }

  lemma FoldIsValue(c: CChar)
    ensures Fold(c) == CaseValue(c)
  {
  }

  // ---------- Words ----------

  /** A glob of characters that stand for themselves, and of `?`. */
  predicate Wordy(g: CString) {
    forall k :: 0 <= k < |g| ==> g[k] != '*' && g[k] != '[' && g[k] != '\\'
  }

  /** The text fits the glob character by character. */
  predicate Fits(t: CString, g: CString) {
    |t| == |g| && forall k :: 0 <= k < |g| ==> if g[k] == '?' then t[k] != '/' else SameLetter(g[k], t[k])
  }

  predicate Slashless(t: CString) {
    forall k :: 0 <= k < |t| ==> t[k] != '/'
  }

  lemma FitsFirst(t: CString, g: CString)
    requires t != [] && g != []
    ensures Fits(t, g) <==> (if g[0] == '?' then t[0] != '/' else SameLetter(g[0], t[0])) && Fits(t[1..], g[1..])
  {
    if Fits(t, g) {
      assert forall k :: 0 <= k < |g[1..]| ==> g[1..][k] == g[k + 1] && t[1..][k] == t[k + 1];
    } else if Fits(t[1..], g[1..]) {
      assert forall k :: 1 <= k < |g| ==> g[k] == g[1..][k - 1] && t[k] == t[1..][k - 1];
    }
  }

  /** The rest of a glob that is all word. */
  lemma {:induction false} WordMatches(t: CString, g: CString, i: nat, j: nat)
    requires i <= |t| && j <= |g| && Wordy(g[j..])
    ensures Matches(t, g, i, j) <==> Fits(t[i..], g[j..])
    decreases |g| - j
  {
    if i < |t| && j < |g| {
      assert g[j..][0] == g[j];
      assert t[i..][1..] == t[i + 1..] && g[j..][1..] == g[j + 1..];
      TokenOfWord(g, j);
      FoldIsCase(g[j], t[i]);
      FitsFirst(t[i..], g[j..]);
      assert Wordy(g[j..][1..]);
      WordMatches(t, g, i + 1, j + 1);
    } else if j < |g| {
      assert g[j..][0] == g[j];
    }
  }

  lemma TokenOfWord(g: CString, j: nat)
    requires j < |g| && g[j] != '*' && g[j] != '[' && g[j] != '\\'
    ensures TokenEnd(g, j) == j + 1 && !DoubleStar(g, j)
  {
  }

  lemma {:induction false} NoLastSlash(t: CString, n: nat)
    requires n <= |t| && Slashless(t)
    ensures AfterLastSlash(t, n) == 0
  {
    if n > 0 {
      NoLastSlash(t, n - 1);
    }
  }

  /** A word matches the names it fits. */
  lemma WordsMatch(t: CString, g: CString)
    requires Wordy(g) && Slashless(g) && Slashless(t)
    ensures LoopSays(t, g) <==> Fits(t, g)
  {
    NoLastSlash(t, |t|);
    Exactly(t, g);
    assert t[0..] == t && g[0..] == g;
    WordMatches(t, g, 0, 0);
  }

  lemma Exactly(t: CString, g: CString)
    requires g == [] || g[|g| - 1] != '*' || |g| < 3 || g[|g| - 3] != '*' || g[|g| - 2] != '*'
    ensures LoopSays(t, g) <==> GlobMatches(t, g)
  {
    if |g| >= 3 {
      var last := g[|g| - 3..];
      assert last[0] == g[|g| - 3] && last[1] == g[|g| - 2] && last[2] == g[|g| - 1];
    }
    ExactOnText(t, g);
  }

  /** A glob without wildcards matches a name if and only if they differ in case only. */
  lemma LiteralsMatch(t: CString, g: CString)
    requires Wordy(g) && Slashless(g) && Slashless(t) && forall k :: 0 <= k < |g| ==> g[k] != '?'
    ensures LoopSays(t, g) <==> SameWord(t, g)
  {
    WordsMatch(t, g);
  }

  /** A backslash takes away what the next character stands for. */
  lemma EscapedCharacter(c: CChar, d: CChar)
    ensures LoopSays([d], ['\\', c]) <==> SameLetter(c, d)
  {
    var t, g := [d], ['\\', c];
    FoldIsCase(c, d);
    Exactly(t, g);
    assert TokenEnd(g, 0) == 2 && g[0] == '\\';
    assert '/' in g <==> c == '/';
    assert AfterLastSlash(t, 1) == if d == '/' then 1 else AfterLastSlash(t, 0);
    assert TextStart(t, g) == if d == '/' && c != '/' then 1 else 0;
    assert Accepts(g, 0, d) <==> SameLetter(c, d);
    assert Matches(t, g, 1, 2) && !Matches(t, g, 1, 0);
  }

  // ---------- Where in a path a word is looked for ----------

  lemma {:induction false} BaseStart(dir: CString, base: CString, n: nat)
    requires Slashless(base) && |dir| < n <= |dir| + 1 + |base|
    ensures AfterLastSlash(dir + ['/'] + base, n) == |dir| + 1
  {
    var t := dir + ['/'] + base;
    if n > |dir| + 1 {
      assert t[n - 1] == base[n - |dir| - 2];
      BaseStart(dir, base, n - 1);
    }
  }

  /** A word without a slash is compared with the last component of a path. */
  lemma WordsMatchBasename(dir: CString, base: CString, g: CString)
    requires Wordy(g) && Slashless(g) && Slashless(base)
    ensures LoopSays(dir + ['/'] + base, g) <==> Fits(base, g)
  {
    var t := dir + ['/'] + base;
    BaseStart(dir, base, |t|);
    Exactly(t, g);
    assert t[|dir| + 1..] == base && g[0..] == g;
    WordMatches(t, g, |dir| + 1, 0);
  }

  /** A word with a slash inside is compared with the whole path. */
  lemma PathsMatch(t: CString, g: CString)
    requires Wordy(g) && g != [] && g[0] != '/' && !Slashless(g)
    ensures LoopSays(t, g) <==> Fits(t, g)
  {
    Exactly(t, g);
    assert t[0..] == t && g[0..] == g;
    WordMatches(t, g, 0, 0);
  }

  /** A word behind a leading slash is compared with the whole path, whether or not that starts with a slash or
      with `./`. */
  lemma AnchoredWords(t: CString, g: CString)
    requires Wordy(g) && (t == [] || (t[0] != '/' && t[0] != '.'))
    ensures LoopSays(t, ['/'] + g) <==> Fits(t, g)
    ensures LoopSays(['/'] + t, ['/'] + g) <==> Fits(t, g)
    ensures LoopSays(['.', '/'] + t, ['/'] + g) <==> Fits(t, g)
  {
    AnchoredAt(t, g, 0);
    AnchoredAt(['/'] + t, g, 1);
    assert SkipDotSlash(['.', '/'] + t, 0) == 2;
    AnchoredAt(['.', '/'] + t, g, 2);
  }

  lemma AnchoredAt(t: CString, g: CString, i: nat)
    requires Wordy(g) && i <= |t| && TextStart(t, ['/'] + g) == i
    ensures LoopSays(t, ['/'] + g) <==> Fits(t[i..], g)
  {
    var a: CString := ['/'] + g;
    Exactly(t, a);
    assert a[1..] == g;
    WordMatches(t, a, i, 1);
  }

  // ---------- One star ----------

  /** A word in front of the rest of a glob takes as many characters as it has. */
  lemma {:induction false} WordInFront(t: CString, pre: CString, rest: CString, i: nat, j: nat)
    requires Wordy(pre) && j <= |pre| && i <= |t|
    ensures var g := pre + rest;
      var n := i + (|pre| - j);
      Matches(t, g, i, j) <==> n <= |t| && Fits(t[i..n], pre[j..]) && Matches(t, g, n, |pre|)
    decreases |pre| - j
  {
    var g, n := pre + rest, i + (|pre| - j);
    if j < |pre| {
      assert g[j] == pre[j];
      if i < |t| {
        TokenOfWord(g, j);
        FoldIsCase(g[j], t[i]);
        WordInFront(t, pre, rest, i + 1, j + 1);
        if n <= |t| {
          FitsFirst(t[i..n], pre[j..]);
          assert t[i..n][1..] == t[i + 1..n] && pre[j..][1..] == pre[j + 1..];
        }
      }
    }
  }

  /** A star between two words takes any run of characters without a slash, the empty one included. */
  lemma StarBetweenWords(t: CString, pre: CString, suf: CString)
    requires Wordy(pre) && Wordy(suf) && Slashless(pre) && Slashless(suf) && Slashless(t)
    ensures LoopSays(t, pre + ['*'] + suf) <==>
      |pre| + |suf| <= |t| && Fits(t[..|pre|], pre) && Fits(t[|t| - |suf|..], suf)
  {
    var rest := ['*'] + suf;
    var g := pre + rest;
    assert g == pre + ['*'] + suf;
    assert |pre| > 0 ==> g[|pre| - 1] == pre[|pre| - 1];
    assert |suf| > 0 ==> g[|g| - 1] == suf[|suf| - 1];
    assert g[|pre|] == '*' && (suf == [] || g[|pre| + 1] == suf[0]);
    Exactly(t, g);
    NoLastSlash(t, |t|);
    assert Slashless(g);
    WordInFront(t, pre, rest, 0, 0);
    assert pre[0..] == pre && t[0..|t|] == t;
    if |pre| <= |t| {
      assert t[0..|pre|] == t[..|pre|];
      StarThenWord(t, g, |pre|, |pre|, suf);
    }
  }

  lemma StarThenWord(t: CString, g: CString, i: nat, j: nat, suf: CString)
    requires i <= |t| && Slashless(t) && j < |g| && g[j] == '*' && g[j + 1..] == suf && Wordy(suf)
    ensures Matches(t, g, i, j) <==> i + |suf| <= |t| && Fits(t[|t| - |suf|..], suf)
  {
    assert suf != [] ==> g[j + 1] == suf[0];
    if i == |t| {
      assert t[|t|..] == [];
    } else {
      forall k | i <= k <= |t|
        ensures Matches(t, g, k, j + 1) <==> Fits(t[k..], suf)
      {
        WordMatches(t, g, k, j + 1);
      }
      if i + |suf| <= |t| && Fits(t[|t| - |suf|..], suf) {
        assert SlashFree(t, i, |t| - |suf|);
        assert Matches(t, g, |t| - |suf|, j + 1);
      }
      if Matches(t, g, i, j) {
        var k :| i <= k <= |t| && SlashFree(t, i, k) && Matches(t, g, k, j + 1);
        assert Fits(t[k..], suf);
        assert k == |t| - |suf|;
      }
    }
  }

  // ---------- Double stars ----------

  /** A directory followed by `/` and a double star matches all that is below it. */
  lemma AllBelow(t: CString, dir: CString)
    requires Wordy(dir) && dir != [] && dir[0] != '/'
    ensures LoopSays(t, dir + ['/', '*', '*']) <==> |t| > |dir| && Fits(t[..|dir| + 1], dir + ['/'])
  {
    var pre, rest: CString := dir + ['/'], ['*', '*'];
    var g := pre + rest;
    assert g == dir + ['/', '*', '*'];
    assert g[|dir|] == '/' && g[0] == dir[0] && g[|g| - 3] == '/';
    Exactly(t, g);
    WordInFront(t, pre, rest, 0, 0);
    assert pre[0..] == pre;
    if |pre| <= |t| {
      assert t[0..|pre|] == t[..|dir| + 1];
      assert Matches(t, g, |pre|, |pre|);
    }
  }

  /** A word behind a double star and a slash is looked for at every end of the path, not only behind a slash. */
  lemma WordAnywhere(t: CString, g: CString)
    requires Wordy(g)
    ensures LoopSays(t, ['*', '*', '/'] + g) <==> t != [] && |g| <= |t| && Fits(t[|t| - |g|..], g)
  {
    var a: CString := ['*', '*', '/'] + g;
    assert a[2] == '/' && a[3..] == g && (g != [] ==> a[|a| - 1] == g[|g| - 1]);
    Exactly(t, a);
    if t != [] {
      forall k | 0 <= k <= |t|
        ensures Matches(t, a, k, 3) <==> Fits(t[k..], g)
      {
        WordMatches(t, a, k, 3);
      }
      DoubleStarUnfolds(t, a, 0, 0);
    }
  }

  /** So it takes in files that only end in the word. */
  lemma DoubleStarTakesPartOfName()
    ensures LoopSays("ab", "**/b") && LoopSays("a/b", "**/b")
  {
    WordAnywhere("ab", "b");
    WordAnywhere("a/b", "b");
    assert ['*', '*', '/'] + "b" == "**/b";
    assert "ab"[1..] == "b" && "a/b"[2..] == "b";
  }

  // ---------- Bracket classes ----------

  /** What is written in a bracket class: characters and spans. */
  datatype Item = One(c: CChar) | Span(lo: CChar, hi: CChar)

  function Written(items: seq<Item>): CString {
    if items == [] then []
    else (match items[0] case One(c) => [c] case Span(lo, hi) => [lo, '-', hi]) + Written(items[1..])
  }

  predicate Writable(items: seq<Item>) {
    forall n :: 0 <= n < |items| ==>
      match items[n]
      case One(c) => c != ']' && c != '-'
      case Span(lo, hi) => lo != ']' && lo != '-' && hi != ']' && hi != '-'
  }

  /** A character is taken in either case; a span takes what lies between its ends once both are lowered, and
      its lower end in any case. */
  predicate Takes(i: Item, c: CChar) {
    match i
    case One(d) => SameLetter(d, c)
    case Span(lo, hi) => SameLetter(lo, c) || CaseValue(lo) <= CaseValue(c) <= CaseValue(hi)
  }

  predicate AnyTakes(items: seq<Item>, c: CChar) {
    exists n :: 0 <= n < |items| && Takes(items[n], c)
  }

  lemma AnyTakesFirst(items: seq<Item>, c: CChar)
    requires items != []
    ensures AnyTakes(items, c) <==> Takes(items[0], c) || AnyTakes(items[1..], c)
  {
    if AnyTakes(items, c) && !Takes(items[0], c) {
      var n :| 0 <= n < |items| && Takes(items[n], c);
      assert items[1..][n - 1] == items[n];
    }
    if AnyTakes(items[1..], c) {
      var n :| 0 <= n < |items[1..]| && Takes(items[1..][n], c);
      assert items[n + 1] == items[1..][n];
    }
  }

  lemma {:induction false} ClassIsItems(g: CString, k: nat, last: int, items: seq<Item>, c: CChar)
    requires k <= |g| && Writable(items) && g[k..] == Written(items) + [']']
    ensures InRanges(ParseClass(g, k, last).ranges, c) <==> AnyTakes(items, c)
    ensures ParseClass(g, k, last).end == |g| - 1
    decreases |items|
  {
    if items == [] {
      assert g[k] == g[k..][0] == ']';
      assert ParseClass(g, k, last).ranges == [];
    } else {
      var w := g[k..];
      AnyTakesFirst(items, c);
      assert forall n :: 0 <= n < |items[1..]| ==> items[1..][n] == items[n + 1];
      match items[0]
      case One(d) =>
        assert w == [d] + (Written(items[1..]) + [']']);
        assert g[k] == w[0] && g[k + 1..] == w[1..];
        ClassIsItems(g, k + 1, Fold(d), items[1..], c);
        FoldIsCase(d, c);
        InRangesCons(Range(Fold(d), Fold(d)), ParseClass(g, k + 1, Fold(d)).ranges, c);
      case Span(lo, hi) =>
        assert w == [lo, '-', hi] + (Written(items[1..]) + [']']);
        assert g[k] == w[0] && g[k + 1] == w[1] && g[k + 2] == w[2] && g[k + 3..] == w[3..];
        ClassIsItems(g, k + 3, Fold(hi), items[1..], c);
        SpanTakes(lo, hi, c);
        var rest := ParseClass(g, k + 3, Fold(hi)).ranges;
        InRangesCons(Range(Fold(lo), Fold(hi)), rest, c);
        InRangesCons(Range(Fold(lo), Fold(lo)), [Range(Fold(lo), Fold(hi))] + rest, c);
    }
  }

  lemma SpanTakes(lo: CChar, hi: CChar, c: CChar)
    ensures Takes(Span(lo, hi), c) <==> Fold(c) == Fold(lo) || Fold(lo) <= Fold(c) <= Fold(hi)
  {
    FoldIsCase(lo, c);
    FoldIsValue(lo);
    FoldIsValue(hi);
    FoldIsValue(c);
  }

  /** One character of text against one class that stands from index k to the end of the glob. */
  lemma OneClass(g: CString, k: nat, items: seq<Item>, c: CChar)
    requires c != '/' && 0 < k < |g| && g[0] == '[' && k == (if Negated(g, 0) then 2 else 1)
    requires Writable(items) && g[k..] == Written(items) + [']']
    ensures LoopSays([c], g) <==> AnyTakes(items, c) != Negated(g, 0)
  {
    var t := [c];
    ClassIsItems(g, k, 256, items, c);
    assert g[|g| - 1] == g[k..][|g[k..]| - 1] == ']';
    Exactly(t, g);
    assert AfterLastSlash(t, 0) == 0 && TextStart(t, g) == 0;
    assert TokenEnd(g, 0) == |g|;
    assert Matches(t, g, 1, |g|);
  }

  /** A class takes the characters of its items. */
  lemma ClassTakes(items: seq<Item>, c: CChar)
    requires Writable(items) && c != '/'
    requires items == [] || (match items[0] case One(d) => d != '^' && d != '!' case Span(d, _) => d != '^' && d != '!')
    ensures LoopSays([c], ['['] + Written(items) + [']']) <==> AnyTakes(items, c)
  {
    var g: CString := ['['] + Written(items) + [']'];
    assert g[1] == (Written(items) + [']'])[0];
    assert g[1..] == Written(items) + [']'];
    OneClass(g, 1, items, c);
  }

  /** Behind `^` or `!` it takes all the others, but never a slash. */
  lemma InvertedClassTakes(items: seq<Item>, c: CChar, mark: CChar)
    requires Writable(items) && mark in {'^', '!'}
    ensures c != '/' ==> (LoopSays([c], ['[', mark] + Written(items) + [']']) <==> !AnyTakes(items, c))
    ensures !LoopSays(['/'], ['[', mark] + Written(items) + [']'])
  {
    var g: CString := ['[', mark] + Written(items) + [']'];
    assert g[1] == mark && g[2..] == Written(items) + [']'];
    if c != '/' {
      OneClass(g, 2, items, c);
    }
    assert g[|g| - 1] == ']';
    var slash: CString := ['/'];
    Exactly(slash, g);
  }

  // ---------- Case ----------

  lemma {:induction false} SameClass(g: CString, h: CString, k: nat, last: int)
    requires SameWord(g, h) && k <= |g|
    ensures ParseClass(g, k, last) == ParseClass(h, k, last)
    decreases |g| - k
  {
    if k < |g| {
      FoldIsCase(g[k], h[k]);
      if k + 1 < |g| {
        FoldIsCase(g[k + 1], h[k + 1]);
        SameClass(g, h, k + 2, Fold(g[k + 1]));
      }
      SameClass(g, h, k + 1, Fold(g[k]));
    }
  }

  lemma SameToken(g: CString, h: CString, j: nat, c: CChar, d: CChar)
    requires SameWord(g, h) && j < |g| && SameLetter(c, d)
    ensures Accepts(g, j, c) <==> Accepts(h, j, d)
    ensures TokenEnd(g, j) == TokenEnd(h, j)
  {
    SameClass(g, h, if Negated(g, j) then j + 2 else j + 1, 256);
    FoldIsCase(c, d);
    FoldIsCase(g[j], h[j]);
    if j + 1 < |g| {
      FoldIsCase(g[j + 1], h[j + 1]);
    }
  }

  lemma SameTurn(t: CString, u: CString, g: CString, h: CString, s: Scan)
    requires SameWord(t, u) && SameWord(g, h) && Bounded(t, g, s) && s.i < |t|
    ensures Bounded(u, h, s) && Turn(t, g, s) == Turn(u, h, s)
  {
    hide Accepts, TokenEnd;
    if s.j < |g| {
      SameToken(g, h, s.j, t[s.i], u[s.i]);
    }
  }

  lemma {:induction false} SameRun(t: CString, u: CString, g: CString, h: CString, s: Scan)
    requires SameWord(t, u) && SameWord(g, h) && Bounded(t, g, s)
    ensures Bounded(u, h, s) && Run(t, g, s) == Run(u, h, s)
    decreases Limit(t, g) - Spent(t, g, s)
  {
    if s.i == |t| {
      RunEnd(t, g, s);
      RunEnd(u, h, s);
    } else {
      SameTurn(t, u, g, h, s);
      RunTurn(t, g, s);
      RunTurn(u, h, s);
      var o := Turn(t, g, s);
      if o.Go? {
        MoveSpends(t, g, s, o.next);
        SameRun(t, u, g, h, o.next);
      }
    }
  }

  lemma {:induction false} SameStart(t: CString, u: CString, n: nat)
    requires SameWord(t, u) && n <= |t|
    ensures AfterLastSlash(t, n) == AfterLastSlash(u, n)
    ensures SkipDotSlash(t, n) == SkipDotSlash(u, n)
    decreases n
  {
    if n > 0 {
      SameStart(t, u, n - 1);
    }
    SameSkip(t, u, n);
  }

  lemma {:induction false} SameSkip(t: CString, u: CString, i: nat)
    requires SameWord(t, u) && i <= |t|
    ensures SkipDotSlash(t, i) == SkipDotSlash(u, i)
    decreases |t| - i
  {
    if i + 1 < |t| {
      SameSkip(t, u, i + 2);
    }
  }

  /** Upper or lower case, of the text and of the glob, never changes the answer. */
  lemma CaseIsIgnored(t: CString, u: CString, g: CString, h: CString)
    requires SameWord(t, u) && SameWord(g, h)
    ensures LoopSays(t, g) <==> LoopSays(u, h)
  {
    SameSkip(t, u, 0);
    SameStart(t, u, |t|);
    assert '/' in g <==> '/' in h by {
      assert forall k :: 0 <= k < |g| ==> (g[k] == '/' <==> h[k] == '/');
    }
    assert Start(t, g) == Start(u, h);
    SameRun(t, u, g, h, Start(t, g));
  }
}

/** The directory wildcard matcher of src/directory.c: a bottom-up table over prefixes of the name
    and of the pattern, proved to decide the front-to-back wildcard relation. */
module Pattern {
  import opened CStrings

  predicate CharMatches(c: CChar, p: CChar) {
    p == '?' || ToLower(c) == ToLower(p)
  }

  /** s[i..n] matches p[j..m]: a star stands for any run, a question mark for any one character. */
  ghost predicate Matches(s: CString, i: nat, n: nat, p: CString, j: nat, m: nat)
    requires i <= n <= |s| && j <= m <= |p|
    decreases m - j, 0
  {
    if j == m then i == n
    else if p[j] == '*' then SuffixMatches(s, i, n, p, j + 1, m)
    else i < n && CharMatches(s[i], p[j]) && Matches(s, i + 1, n, p, j + 1, m)
  }

  /** Some suffix of s[i..n] matches p[j..m]. */
  ghost predicate SuffixMatches(s: CString, i: nat, n: nat, p: CString, j: nat, m: nat)
    requires i <= n <= |s| && j <= m <= |p|
    decreases m - j, 1
  {
    exists k :: i <= k <= n && Matches(s, k, n, p, j, m)
  }

  /** Some prefix of s[i..n] matches p[j..m]. */
  ghost predicate PrefixMatches(s: CString, i: nat, n: nat, p: CString, j: nat, m: nat)
    requires i <= n <= |s| && j <= m <= |p|
  {
    exists k :: i <= k <= n && Matches(s, i, k, p, j, m)
  }

  /** The relation read from its last pattern character instead of its first. */
  lemma {:induction false} FromTheBack(s: CString, i: nat, n: nat, p: CString, j: nat, m: nat)
    requires i <= n <= |s| && j < m <= |p|
    ensures p[m - 1] == '*' ==> (Matches(s, i, n, p, j, m) <==> PrefixMatches(s, i, n, p, j, m - 1))
    ensures p[m - 1] != '*' ==> (Matches(s, i, n, p, j, m) <==>
      i < n && CharMatches(s[n - 1], p[m - 1]) && Matches(s, i, n - 1, p, j, m - 1))
    decreases m - j
  {
    if j + 1 == m {
      assert p[j] == '*' ==> Matches(s, n, n, p, m, m) && Matches(s, i, i, p, j, j);
    } else if p[j] == '*' {
      StarFromTheBack(s, i, n, p, j, m);
    } else if i < n {
      FromTheBack(s, i + 1, n, p, j + 1, m);
      if p[m - 1] == '*' {
        CharThenStar(s, i, n, p, j, m);
      }
    }
  }

  lemma CharThenStar(s: CString, i: nat, n: nat, p: CString, j: nat, m: nat)
    requires i < n <= |s| && j + 1 < m <= |p| && p[j] != '*'
    ensures PrefixMatches(s, i, n, p, j, m - 1) <==>
      CharMatches(s[i], p[j]) && PrefixMatches(s, i + 1, n, p, j + 1, m - 1)
  {
    if PrefixMatches(s, i, n, p, j, m - 1) {
      var k :| i <= k <= n && Matches(s, i, k, p, j, m - 1);
      assert Matches(s, i + 1, k, p, j + 1, m - 1);
    }
    if CharMatches(s[i], p[j]) && PrefixMatches(s, i + 1, n, p, j + 1, m - 1) {
      var k :| i + 1 <= k <= n && Matches(s, i + 1, k, p, j + 1, m - 1);
      assert Matches(s, i, k, p, j, m - 1);
    }
  }

  lemma {:induction false} StarFromTheBack(s: CString, i: nat, n: nat, p: CString, j: nat, m: nat)
    requires i <= n <= |s| && j + 1 < m <= |p| && p[j] == '*'
    ensures p[m - 1] == '*' ==> (Matches(s, i, n, p, j, m) <==> PrefixMatches(s, i, n, p, j, m - 1))
    ensures p[m - 1] != '*' ==> (Matches(s, i, n, p, j, m) <==>
      i < n && CharMatches(s[n - 1], p[m - 1]) && Matches(s, i, n - 1, p, j, m - 1))
    decreases m - j, 0
  {
    var d := j + 1;
    forall k | i <= k <= n
      ensures p[m - 1] == '*' ==> (Matches(s, k, n, p, d, m) <==> PrefixMatches(s, k, n, p, d, m - 1))
      ensures p[m - 1] != '*' ==> (Matches(s, k, n, p, d, m) <==>
        k < n && CharMatches(s[n - 1], p[m - 1]) && Matches(s, k, n - 1, p, d, m - 1))
    {
      FromTheBack(s, k, n, p, d, m);
    }
    assert Matches(s, i, n, p, j, m) <==> SuffixMatches(s, i, n, p, d, m);
    if p[m - 1] != '*' {
      if i < n {
        assert Matches(s, i, n - 1, p, j, m - 1) <==> SuffixMatches(s, i, n - 1, p, d, m - 1);
        if CharMatches(s[n - 1], p[m - 1]) && SuffixMatches(s, i, n - 1, p, d, m - 1) {
          var k :| i <= k <= n - 1 && Matches(s, k, n - 1, p, d, m - 1);
          assert Matches(s, k, n, p, d, m);
        }
      }
    } else {
      if Matches(s, i, n, p, j, m) {
        var k :| i <= k <= n && Matches(s, k, n, p, d, m);
        var h :| k <= h <= n && Matches(s, k, h, p, d, m - 1);
        assert Matches(s, i, h, p, j, m - 1);
      }
      if PrefixMatches(s, i, n, p, j, m - 1) {
        var h :| i <= h <= n && Matches(s, i, h, p, j, m - 1);
        assert SuffixMatches(s, i, h, p, d, m - 1);
        var k :| i <= k <= h && Matches(s, k, h, p, d, m - 1);
        assert PrefixMatches(s, k, n, p, d, m - 1);
        assert Matches(s, k, n, p, d, m);
      }
    }
  }

  /** A table cell for a star: drop the star, or let it take the last character. */
  lemma StarCell(s: CString, i: nat, n: nat, p: CString, j: nat, m: nat)
    requires i <= n <= |s| && j < m <= |p| && p[m - 1] == '*'
    ensures Matches(s, i, n, p, j, m) <==>
      Matches(s, i, n, p, j, m - 1) || (i < n && Matches(s, i, n - 1, p, j, m))
  {
    FromTheBack(s, i, n, p, j, m);
    if i < n {
      FromTheBack(s, i, n - 1, p, j, m);
    }
  }

  /** The whole name matches the whole pattern. */
  ghost predicate NameMatches(name: CString, pattern: CString) {
    Matches(name, 0, |name|, pattern, 0, |pattern|)
  }

  // ---------- What it means in plain characters ----------

  /** The name fits a pattern without stars character by character. */
  predicate Fits(s: CString, p: CString) {
    |s| == |p| && forall k :: 0 <= k < |p| ==> p[k] == '?' || SameLetter(s[k], p[k])
  }

  predicate Starless(p: CString) {
    forall k :: 0 <= k < |p| ==> p[k] != '*'
  }

  /** A word in front of the rest of a pattern takes as many characters as it has. */
  lemma {:induction false} WordInFront(s: CString, i: nat, pre: CString, j: nat, rest: CString)
    requires i <= |s| && j <= |pre| && Starless(pre)
    ensures var p, n := pre + rest, i + (|pre| - j);
      Matches(s, i, |s|, p, j, |p|) <==> n <= |s| && Fits(s[i..n], pre[j..]) && Matches(s, n, |s|, p, |pre|, |p|)
    decreases |pre| - j
  {
    var p, n := pre + rest, i + (|pre| - j);
    if j < |pre| {
      assert p[j] == pre[j];
      if i < |s| {
        LowerIsCase(s[i], p[j]);
        WordInFront(s, i + 1, pre, j + 1, rest);
        if n <= |s| {
          FitsFirst(s[i..n], pre[j..]);
          assert s[i..n][1..] == s[i + 1..n] && pre[j..][1..] == pre[j + 1..];
        }
      }
    }
  }

  lemma FitsFirst(s: CString, p: CString)
    requires s != [] && p != []
    ensures Fits(s, p) <==> (p[0] == '?' || SameLetter(s[0], p[0])) && Fits(s[1..], p[1..])
  {
    if Fits(s, p) {
      assert forall k :: 0 <= k < |p[1..]| ==> p[1..][k] == p[k + 1] && s[1..][k] == s[k + 1];
    } else if Fits(s[1..], p[1..]) {
      assert forall k :: 1 <= k < |p| ==> p[k] == p[1..][k - 1] && s[k] == s[1..][k - 1];
    }
  }

  /** Without stars the name must fit the pattern; with one star, its front and its back must. */
  lemma WordsAndStar(s: CString, pre: CString, suf: CString)
    requires Starless(pre) && Starless(suf)
    ensures NameMatches(s, pre) <==> Fits(s, pre)
    ensures NameMatches(s, pre + ['*'] + suf) <==>
      |pre| + |suf| <= |s| && Fits(s[..|pre|], pre) && Fits(s[|s| - |suf|..], suf)
  {
    WordInFront(s, 0, pre, 0, []);
    assert pre + [] == pre && pre[0..] == pre && s[0..|s|] == s;
    var p := pre + ['*'] + suf;
    var rest := ['*'] + suf;
    assert p == pre + rest;
    WordInFront(s, 0, pre, 0, rest);
    if |pre| <= |s| {
      assert s[0..|pre|] == s[..|pre|];
      assert p[|pre|] == '*' && p[|pre| + 1..] == suf;
      StarThenWord(s, |pre|, p, |pre|, suf);
    }
  }

  lemma StarThenWord(s: CString, i: nat, p: CString, j: nat, suf: CString)
    requires i <= |s| && j < |p| && p[j] == '*' && p[j + 1..] == suf && Starless(suf)
    ensures Matches(s, i, |s|, p, j, |p|) <==> i + |suf| <= |s| && Fits(s[|s| - |suf|..], suf)
  {
    var d := j + 1;
    forall k | i <= k <= |s|
      ensures Matches(s, k, |s|, p, d, |p|) <==> Fits(s[k..], suf)
    {
      WordAtEnd(s, k, p, d);
    }
    assert Matches(s, i, |s|, p, j, |p|) <==> SuffixMatches(s, i, |s|, p, d, |p|);
    if SuffixMatches(s, i, |s|, p, d, |p|) {
      var k :| i <= k <= |s| && Matches(s, k, |s|, p, d, |p|);
      assert Fits(s[k..], suf);
      assert k == |s| - |suf|;
    }
  }

  lemma WordAtEnd(s: CString, i: nat, p: CString, j: nat)
    requires i <= |s| && j <= |p| && Starless(p[j..])
    ensures Matches(s, i, |s|, p, j, |p|) <==> Fits(s[i..], p[j..])
    decreases |p| - j
  {
    if j < |p| {
      assert p[j..][0] == p[j];
      if i < |s| {
        LowerIsCase(s[i], p[j]);
        FitsFirst(s[i..], p[j..]);
        assert s[i..][1..] == s[i + 1..] && p[j..][1..] == p[j + 1..];
        assert Starless(p[j..][1..]);
        WordAtEnd(s, i + 1, p, j + 1);
      }
    }
  }

  lemma {:induction false} SameMatches(s: CString, t: CString, i: nat, p: CString, q: CString, j: nat)
    requires SameWord(s, t) && SameWord(p, q) && i <= |s| && j <= |p|
    ensures Matches(s, i, |s|, p, j, |p|) <==> Matches(t, i, |t|, q, j, |q|)
    decreases |p| - j
  {
    if j < |p| {
      if p[j] == '*' {
        var d := j + 1;
        forall k | i <= k <= |s|
          ensures Matches(s, k, |s|, p, d, |p|) <==> Matches(t, k, |t|, q, d, |q|)
        {
          SameMatches(s, t, k, p, q, d);
        }
        assert SuffixMatches(s, i, |s|, p, d, |p|) <==> SuffixMatches(t, i, |t|, q, d, |q|);
      } else if i < |s| {
        LowerIsCase(s[i], t[i]);
        LowerIsCase(p[j], q[j]);
        SameMatches(s, t, i + 1, p, q, j + 1);
      }
    }
  }

  /** Upper or lower case, of the name and of the pattern, never changes the answer. */
  lemma CaseIsIgnored(s: CString, t: CString, p: CString, q: CString)
    requires SameWord(s, t) && SameWord(p, q)
    ensures NameMatches(s, p) <==> NameMatches(t, q)
  {
    SameMatches(s, t, 0, p, q, 0);
  }

  /** _pattern_match on non-null arguments. */
  method PatternMatch(src: CString, pattern: CString) returns (r: bool)
    ensures r <==> NameMatches(src, pattern)
  {
    var n, m := |src|, |pattern|;
    if m == 0 {
      return n == 0;
    }
    var table := new bool[n + 1, m + 1]((_, _) => false);
    table[0, 0] := true;
    for j := 1 to m + 1
      invariant forall c :: 0 <= c < j ==> (table[0, c] <==> Matches(src, 0, 0, pattern, 0, c))
      invariant forall i, c :: 0 <= i <= n && 0 <= c <= m && (i > 0 || c >= j) ==> !table[i, c]
    {
      FromTheBack(src, 0, 0, pattern, 0, j);
      if pattern[j - 1] == '*' {
        StarCell(src, 0, 0, pattern, 0, j);
        table[0, j] := table[0, j - 1];
      }
    }
    for i := 1 to n + 1
      invariant forall a, c :: 0 <= a < i && 0 <= c <= m ==> (table[a, c] <==> Matches(src, 0, a, pattern, 0, c))
      invariant forall a :: i <= a <= n ==> !table[a, 0]
    {
      for j := 1 to m + 1
        invariant forall a, c :: 0 <= a < i && 0 <= c <= m ==> (table[a, c] <==> Matches(src, 0, a, pattern, 0, c))
        invariant forall c :: 0 <= c < j ==> (table[i, c] <==> Matches(src, 0, i, pattern, 0, c))
        invariant forall a :: i < a <= n ==> !table[a, 0]
      {
        if pattern[j - 1] == '*' {
          StarCell(src, 0, i, pattern, 0, j);
          table[i, j] := table[i, j - 1] || table[i - 1, j];
        } else {
          FromTheBack(src, 0, i, pattern, 0, j);
          if pattern[j - 1] == '?' || src[i - 1] == pattern[j - 1] || ToLower(src[i - 1]) == ToLower(pattern[j - 1]) {
            table[i, j] := table[i - 1, j - 1];
          } else {
            table[i, j] := false;
          }
        }
      }
    }
    r := table[n, m];
  }
}

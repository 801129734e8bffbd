/** Building the path of a request: strlcat and strlcpy, normalize_path (which may work in place), and
    tnfs_valid_filename, with what the built path can reach. */
module Paths {
  import opened CStrings
  import opened Endian

  const MAX_FILEPATH := 384
  const MAX_ROOT := 128

  /** The buffer starts with s and its terminating NUL. */
  ghost predicate Holds(b: seq<char>, s: CString) {
    |s| < |b| && b[|s|] == '\0' && forall i :: 0 <= i < |s| ==> b[i] == s[i]
  }

  function Cut(s: CString, n: nat): (r: CString)
    ensures |r| <= n && r <= s
  {
    if |s| <= n then s else s[..n]
  }

  // ---------- strlcpy and strlcat ----------

  /** strlcpy: at most siz - 1 characters and always a terminator, unless siz is 0. */
  method StrLCpy(dst: array<char>, src: CString, siz: nat) returns (r: nat)
    requires siz <= dst.Length
    modifies dst
    ensures r == |src|
    ensures siz > 0 ==> Holds(dst[..], Cut(src, siz - 1))
    ensures forall i :: (siz > 0 ==> |Cut(src, siz - 1)| < i) && 0 <= i < dst.Length ==> dst[i] == old(dst[i])
  {
    r := |src|;
    if siz == 0 {
      return;
    }
    var d: nat, n: nat := 0, siz - 1;
    while n != 0 && d < |src|
      invariant d + n == siz - 1 && d <= |src|
      invariant forall i :: 0 <= i < d ==> dst[i] == src[i]
      invariant forall i :: d <= i < dst.Length ==> dst[i] == old(dst[i])
    {
      dst[d] := src[d];
      d, n := d + 1, n - 1;
    }
    dst[d] := '\0';
  }

  /** The first siz bytes hold s: terminated there, or filling them all. */
  ghost predicate Starts(b: seq<char>, s: CString, siz: nat) {
    && |s| <= siz <= |b| && (|s| < siz ==> b[|s|] == '\0')
    && forall i :: 0 <= i < |s| ==> b[i] == s[i]
  }

  /** strlcat; a destination without a terminator in its first siz bytes is left alone. */
  method StrLCat(dst: array<char>, src: CString, siz: nat, ghost was: CString) returns (r: nat)
    requires Starts(dst[..], was, siz)
    modifies dst
    ensures r == |was| + |src|
    ensures if |was| == siz then dst[..] == old(dst[..]) else Holds(dst[..], was + Cut(src, siz - 1 - |was|))
    ensures forall i :: |was| < siz && |was| + |Cut(src, siz - 1 - |was|)| < i < dst.Length ==> dst[i] == old(dst[i])
  {
    var d := 0;
    while d < siz && dst[d] != '\0'
      invariant d <= |was|
    {
      d := d + 1;
    }
    var dlen, n, s := d, siz - d, 0;
    if n == 0 {
      return dlen + |src|;
    }
    while s < |src|
      invariant s <= |src| && n >= 1 && d + n == siz && dlen <= d &&
          d - dlen == (if s <= siz - 1 - dlen then s else siz - 1 - dlen)
      invariant forall i :: 0 <= i < dlen ==> dst[i] == was[i]
      invariant forall i :: dlen <= i < d ==> dst[i] == src[i - dlen]
      invariant forall i :: d <= i < dst.Length ==> dst[i] == old(dst[i])
    {
      if n != 1 {
        dst[d] := src[s];
        d, n := d + 1, n - 1;
      }
      s := s + 1;
    }
    dst[d] := '\0';
    r := dlen + s;
  }

  // ---------- normalize_path ----------

  /** Runs of slashes become one; `slash` says that a slash was just written. */
  function Collapsed(s: CString, slash: bool): (r: CString)
    ensures |r| <= |s|
  {
    if s == [] then []
    else if s[0] != '/' then [s[0]] + Collapsed(s[1..], false)
    else if slash then Collapsed(s[1..], true)
    else ['/'] + Collapsed(s[1..], true)
  }

  /** c occurs twice in a row. */
  predicate Doubled(s: CString, c: CChar) {
    exists i :: 0 <= i < |s| - 1 && s[i] == c && s[i + 1] == c
  }

  lemma DoubledInPart(s: CString, lo: nat, hi: nat, c: CChar)
    requires lo <= hi <= |s|
    ensures Doubled(s[lo..hi], c) ==> Doubled(s, c)
  {
    var t := s[lo..hi];
    if Doubled(t, c) {
      var i :| 0 <= i < |t| - 1 && t[i] == c && t[i + 1] == c;
      assert s[lo + i] == c && s[lo + i + 1] == c;
    }
  }

  lemma {:induction false} CollapsedHasNoDoubleSlash(s: CString, slash: bool)
    ensures !Doubled(Collapsed(s, slash), '/')
    ensures slash && Collapsed(s, slash) != [] ==> Collapsed(s, slash)[0] != '/'
  {
    if s != [] {
      CollapsedHasNoDoubleSlash(s[1..], s[0] == '/');
    }
  }

  lemma {:induction false} CollapsedFixed(s: CString, slash: bool)
    requires !Doubled(s, '/') && (slash && s != [] ==> s[0] != '/')
    ensures Collapsed(s, slash) == s
  {
    if s != [] {
      DoubledInPart(s, 1, |s|, '/');
      assert s[0] == '/' && s[1..] != [] ==> s[1] != '/';
      CollapsedFixed(s[1..], s[0] == '/');
    }
  }

  /** Normalising twice changes nothing more. */
  lemma CollapsedIdempotent(s: CString)
    ensures Collapsed(Collapsed(s, false), false) == Collapsed(s, false)
  {
    CollapsedHasNoDoubleSlash(s, false);
    CollapsedFixed(Collapsed(s, false), false);
  }

  lemma CollapsedStep(s: CString, i: nat, slash: bool)
    requires i < |s|
    ensures Collapsed(s[i..], slash) ==
      (if s[i] == '/' && slash then [] else [s[i]]) + Collapsed(s[i + 1..], s[i] == '/')
    ensures Collapsed(s[|s|..], slash) == []
  {
    assert s[i..][1..] == s[i + 1..];
  }

  /** normalize_path, into another buffer or in place: the source is only read ahead of what is
      written. Its counter never moves, so the size argument does not bound the copy. */
  method NormalizePath(dst: array<char>, src: array<char>, s: CString)
    requires Holds(src[..], s) && (dst == src || dst.Length >= src.Length)
    modifies dst
    ensures Holds(dst[..], Collapsed(s, false))
  {
    hide Collapsed;
    var i, w, slash := 0, 0, false;
    ghost var done: CString := [];
    while src[i] != '\0'
      invariant w <= i <= |s| && |s| < src.Length && src[|s|] == '\0'
      invariant forall k :: i <= k < |s| ==> src[k] == s[k]
      invariant |done| == w && forall k :: 0 <= k < w ==> dst[k] == done[k]
      invariant done + Collapsed(s[i..], slash) == Collapsed(s, false)
      decreases |s| - i
    {
      CollapsedStep(s, i, slash);
      if src[i] != '/' {
        slash := false;
        done := done + [s[i]];
        dst[w] := src[i];
        w := w + 1;
      } else if !slash {
        slash := true;
        done := done + [s[i]];
        dst[w] := '/';
        w := w + 1;
      }
      i := i + 1;
    }
    assert s[i..] == [];
    dst[w] := '\0';
  }

  // ---------- What a path reaches ----------

  /** The components between slashes; there is always at least one, possibly empty. */
  function Components(s: CString): (r: seq<CString>)
    ensures |r| >= 1
  {
    if s == [] then [[]]
    else
      var r := Components(s[1..]);
      if s[0] == '/' then [[]] + r else [[s[0]] + r[0]] + r[1..]
  }

  function Descend(at: seq<CString>, c: CString): seq<CString> {
    if c == [] || c == "." then at
    else if c == ".." then if at == [] then [] else at[..|at| - 1]
    else at + [c]
  }

  /** Where following the components leads, starting from a directory given by its own components. */
  function Resolve(at: seq<CString>, cs: seq<CString>): seq<CString>
    decreases |cs|
  {
    if cs == [] then at else Resolve(Descend(at, cs[0]), cs[1..])
  }

  /** The place a path names, lexically. */
  function Place(s: CString): seq<CString> {
    Resolve([], Components(s))
  }

  predicate Climbs(cs: seq<CString>) {
    exists i :: 0 <= i < |cs| && cs[i] == ".."
  }

  lemma {:induction false} CollapsedKeepsComponents(s: CString, slash: bool, at: seq<CString>)
    ensures slash ==> Resolve(at, Components(Collapsed(s, true))) == Resolve(at, Components(s))
    ensures !slash ==> Components(Collapsed(s, false))[0] == Components(s)[0]
    ensures !slash ==> Resolve(at, Components(Collapsed(s, false))[1..]) == Resolve(at, Components(s)[1..])
  {
    if s != [] {
      var t := s[1..];
      var c := Collapsed(s, slash);
      if s[0] == '/' {
        CollapsedKeepsComponents(t, true, at);
        if !slash {
          assert c == ['/'] + Collapsed(t, true) && c[1..] == Collapsed(t, true);
        }
      } else {
        var d := Collapsed(t, false);
        assert c == [s[0]] + d && c[1..] == d;
        var first := Descend(at, Components(s)[0]);
        CollapsedKeepsComponents(t, false, first);
        CollapsedKeepsComponents(t, false, at);
      }
    }
  }

  /** Normalising a path does not change the place it names. */
  lemma NormalizingKeepsPlace(s: CString)
    ensures Place(Collapsed(s, false)) == Place(s)
  {
    CollapsedKeepsComponents(s, false, Descend([], Components(s)[0]));
  }

  lemma {:induction false} ComponentsJoin(a: CString, b: CString)
    ensures Components(a + ['/'] + b) == Components(a) + Components(b)
  {
    var s := a + ['/'] + b;
    if a == [] {
      assert s[1..] == b;
    } else {
      ComponentsJoin(a[1..], b);
      assert s[0] == a[0] && s[1..] == a[1..] + ['/'] + b;
      HeadOfJoin(a[0], Components(a[1..]), Components(b));
    }
  }

  lemma HeadOfJoin(c: CChar, x: seq<CString>, y: seq<CString>)
    requires x != []
    ensures [[c] + (x + y)[0]] + (x + y)[1..] == ([[c] + x[0]] + x[1..]) + y
    ensures [[]] + (x + y) == ([[]] + x) + y
  {
  }

  lemma {:induction false} ResolveJoin(at: seq<CString>, a: seq<CString>, b: seq<CString>)
    ensures Resolve(at, a + b) == Resolve(Resolve(at, a), b)
    decreases |a|
  {
    if a == [] {
      assert a + b == b;
    } else {
      ResolveJoin(Descend(at, a[0]), a[1..], b);
      assert (a + b)[1..] == a[1..] + b;
    }
  }

  /** Components that never climb lead to a place inside the starting one. */
  lemma {:induction false} NoClimbStaysInside(at: seq<CString>, cs: seq<CString>)
    requires !Climbs(cs)
    ensures at <= Resolve(at, cs)
    decreases |cs|
  {
    if cs != [] {
      assert forall i :: 0 <= i < |cs[1..]| ==> cs[1..][i] == cs[i + 1];
      NoClimbStaysInside(Descend(at, cs[0]), cs[1..]);
    }
  }

  predicate DotDot(s: CString) {
    Doubled(s, '.')
  }

  /** A text without two dots in a row has no climbing component. */
  lemma {:induction false} NoDotDotNoClimb(s: CString)
    requires !DotDot(s)
    ensures !Climbs(Components(s)) && Components(s)[0] <= s
  {
    if s != [] {
      DoubledInPart(s, 1, |s|, '.');
      NoDotDotNoClimb(s[1..]);
      var r := Components(s[1..]);
      if s[0] != '/' {
        var c := Components(s);
        assert c[0] == [s[0]] + r[0] && c[0] <= s;
        assert c[0] != ".." by {
          assert !(s[0] == '.' && |s| > 1 && s[1] == '.');
        }
        assert forall i :: 1 <= i < |c| ==> c[i] == r[i];
      }
    }
  }

  /** A climbing component that is not the last shows as two dots and a slash. */
  predicate DotDotSlash(s: CString) {
    exists i :: 0 <= i < |s| - 2 && s[i] == '.' && s[i + 1] == '.' && s[i + 2] == '/'
  }

  lemma DotDotSlashInTail(s: CString)
    requires s != []
    ensures DotDotSlash(s[1..]) ==> DotDotSlash(s)
  {
    var t := s[1..];
    if DotDotSlash(t) {
      var i :| 0 <= i < |t| - 2 && t[i] == '.' && t[i + 1] == '.' && t[i + 2] == '/';
      assert s[i + 1] == '.' && s[i + 2] == '.' && s[i + 3] == '/';
    }
  }

  lemma {:induction false} NoDotDotSlashNoClimb(s: CString)
    requires !DotDotSlash(s)
    ensures var c := Components(s); !Climbs(c[..|c| - 1])
    ensures var c := Components(s); c[0] <= s && (|c| > 1 ==> |c[0]| < |s| && s[|c[0]|] == '/')
  {
    if s != [] {
      DotDotSlashInTail(s);
      NoDotDotSlashNoClimb(s[1..]);
      var r, c := Components(s[1..]), Components(s);
      if s[0] == '/' {
        assert forall i :: 1 <= i < |c| ==> c[i] == r[i - 1];
      } else {
        assert c[0] == [s[0]] + r[0] && c[0] <= s;
        assert forall i :: 1 <= i < |c| ==> c[i] == r[i];
        assert |c| > 1 ==> c[0] != ".." by {
          assert !(|s| > 2 && s[0] == '.' && s[1] == '.' && s[2] == '/');
        }
      }
    }
  }

  // ---------- tnfs_valid_filename ----------

  /** get_root, before it is cut to the caller's buffer. */
  function RootPrefix(root: CString, sroot: CString): CString {
    root + ['/'] + sroot + ['/']
  }

  /** The path built for a file name: the root prefix and the name, each cut to the space, normalised. */
  function FullPath(root: CString, sroot: CString, name: CString): CString {
    var prefix := Cut(RootPrefix(root, sroot), MAX_FILEPATH - 1);
    Collapsed(prefix + Cut(name, MAX_FILEPATH - 1 - |prefix|), false)
  }

  /** The C string at the start of received bytes. */
  function NameIn(data: seq<U8>): (s: CString)
    ensures |s| <= |data| && (forall i :: 0 <= i < |s| ==> s[i] as int == data[i]) && (|s| < |data| ==> data[|s|] == 0)
  {
    if data == [] || data[0] == 0 then [] else [data[0] as char] + NameIn(data[1..])
  }

  /** What tnfs_valid_filename accepts: a terminated name without two dots in a row. */
  predicate ValidName(data: seq<U8>) {
    data != [] && data[|data| - 1] == 0 && !DotDot(NameIn(data))
  }

  /** strstr(s, "..") != NULL. */
  method FindDotDot(s: CString) returns (found: bool)
    ensures found <==> DotDot(s)
  {
    var i := 0;
    while i + 1 < |s|
      invariant forall k :: 0 <= k < i && k < |s| - 1 ==> !(s[k] == '.' && s[k + 1] == '.')
    {
      if s[i] == '.' && s[i + 1] == '.' {
        return true;
      }
      i := i + 1;
    }
    found := false;
  }

  /** Accepts exactly the terminated names without two dots in a row, and then builds their path. */
  method ValidFilename(fullpath: array<char>, root: CString, sroot: CString, data: seq<U8>) returns (ok: bool)
    requires fullpath.Length == MAX_FILEPATH && |data| > 0
    modifies fullpath
    ensures ok <==> ValidName(data)
    ensures ok ==> Holds(fullpath[..], FullPath(root, sroot, NameIn(data)))
  {
    if data[|data| - 1] != 0 {
      return false;
    }
    var name := NameIn(data);
    var climbs := FindDotDot(name);
    if climbs {
      return false;
    }
    var prefix := Cut(RootPrefix(root, sroot), MAX_FILEPATH - 1);
    var _ := StrLCpy(fullpath, RootPrefix(root, sroot), MAX_FILEPATH);
    var _ := StrLCat(fullpath, name, MAX_FILEPATH, prefix);
    NormalizePath(fullpath, fullpath, prefix + Cut(name, MAX_FILEPATH - 1 - |prefix|));
    ok := true;
  }

  lemma CutPrefix(root: CString, tail: CString, n: nat)
    requires |root| + 1 <= n
    ensures Cut(root + ['/'] + tail, n) == root + ['/'] + Cut(tail, n - |root| - 1)
  {
  }

  lemma ClimbsOfConcat(a: seq<CString>, b: seq<CString>)
    ensures Climbs(a + b) <==> Climbs(a) || Climbs(b)
  {
    if Climbs(a) {
      var i :| 0 <= i < |a| && a[i] == "..";
      assert (a + b)[i] == "..";
    }
    if Climbs(b) {
      var i :| 0 <= i < |b| && b[i] == "..";
      assert (a + b)[|a| + i] == "..";
    }
  }

  /** A path that starts with the root and a slash and does not climb afterwards stays in the root. */
  lemma RootedStays(root: CString, rest: CString)
    requires !Climbs(Components(rest))
    ensures Place(root) <= Place(root + ['/'] + rest)
  {
    ComponentsJoin(root, rest);
    ResolveJoin([], Components(root), Components(rest));
    NoClimbStaysInside(Place(root), Components(rest));
  }

  /** Whatever accepted name a request carries, cut or not, the path built for it names a place inside
      the served root, provided the root prefix itself, as far as it fits, does not climb. */
  lemma AcceptedNamesStayInside(root: CString, sroot: CString, name: CString)
    requires |root| < MAX_ROOT && !DotDot(name)
    requires !Climbs(Components(Cut(RootPrefix(root, sroot), MAX_FILEPATH - 1)))
    ensures Place(root) <= Place(FullPath(root, sroot, name))
  {
    hide Components, Place, Climbs;
    var prefix := Cut(RootPrefix(root, sroot), MAX_FILEPATH - 1);
    var nm := Cut(name, MAX_FILEPATH - 1 - |prefix|);
    var rest := RestOfPath(root, sroot, prefix, nm);
    DoubledInPart(name, 0, |nm|, '.');
    assert name[0..|nm|] == nm;
    RestDoesNotClimb(root, sroot, prefix, nm, rest);
    RootedStays(root, rest);
    NormalizingKeepsPlace(prefix + nm);
  }

  /** What follows the root and its slash in the path that is normalised. */
  lemma RestOfPath(root: CString, sroot: CString, prefix: CString, nm: CString) returns (rest: CString)
    requires |root| < MAX_ROOT && prefix == Cut(RootPrefix(root, sroot), MAX_FILEPATH - 1)
    requires |prefix| + |nm| < MAX_FILEPATH
    ensures prefix + nm == root + ['/'] + rest
    ensures nm == [] ==> prefix == root + ['/'] + rest
    ensures nm != [] ==> prefix == RootPrefix(root, sroot) && rest == sroot + ['/'] + nm
  {
    var tail := sroot + ['/'];
    assert RootPrefix(root, sroot) == root + ['/'] + tail;
    CutPrefix(root, tail, MAX_FILEPATH - 1);
    rest := Cut(tail, MAX_FILEPATH - 2 - |root|) + nm;
    assert prefix + nm == root + ['/'] + rest;
  }

  lemma RestDoesNotClimb(root: CString, sroot: CString, prefix: CString, nm: CString, rest: CString)
    requires !Climbs(Components(prefix)) && !DotDot(nm)
    requires nm == [] ==> prefix == root + ['/'] + rest
    requires nm != [] ==> prefix == RootPrefix(root, sroot) && rest == sroot + ['/'] + nm
    ensures !Climbs(Components(rest))
  {
    hide Components, Climbs;
    if nm == [] {
      ComponentsJoin(root, rest);
      ClimbsOfConcat(Components(root), Components(rest));
    } else {
      NoDotDotNoClimb(nm);
      ComponentsJoin(root + ['/'] + sroot, []);
      assert root + ['/'] + sroot + ['/'] + [] == prefix;
      ClimbsOfConcat(Components(root + ['/'] + sroot), Components([]));
      ComponentsJoin(root, sroot);
      ClimbsOfConcat(Components(root), Components(sroot));
      ComponentsJoin(sroot, nm);
      ClimbsOfConcat(Components(sroot), Components(nm));
    }
  }

  /** The test of validate_dir on the root prefix, as far as its buffer holds it. */
  predicate RootChecked(root: CString, sroot: CString) {
    !DotDotSlash(Cut(RootPrefix(root, sroot), MAX_TNFSPATH - 1))
  }

  /** What the mount check achieves: no component of the root prefix that it saw to its end climbs. That is
      all of them when the prefix fits the buffer. */
  lemma MountCheckStopsClimbing(root: CString, sroot: CString)
    requires RootChecked(root, sroot)
    ensures var c := Components(Cut(RootPrefix(root, sroot), MAX_TNFSPATH - 1)); !Climbs(c[..|c| - 1])
    ensures |RootPrefix(root, sroot)| < MAX_TNFSPATH ==> !Climbs(Components(RootPrefix(root, sroot)))
  {
    var p := RootPrefix(root, sroot);
    NoDotDotSlashNoClimb(Cut(p, MAX_TNFSPATH - 1));
    if |p| < MAX_TNFSPATH {
      ComponentsJoin(root + ['/'] + sroot, []);
      assert root + ['/'] + sroot + ['/'] + [] == p;
      var c := Components(p);
      assert c[|c| - 1] == [] && c == c[..|c| - 1] + [[]];
      ClimbsOfConcat(c[..|c| - 1], [[]]);
    }
  }

  /** No accepted name leads outside under a root that passed the mount check, if the check saw all of the
      root prefix. */
  lemma CheckedRootsHold(root: CString, sroot: CString, name: CString)
    requires |root| < MAX_ROOT && !DotDot(name)
    requires RootChecked(root, sroot) && |RootPrefix(root, sroot)| < MAX_TNFSPATH
    ensures Place(root) <= Place(FullPath(root, sroot, name))
  {
    hide Components, Place, Climbs, DotDotSlash;
    MountCheckStopsClimbing(root, sroot);
    AcceptedNamesStayInside(root, sroot, name);
  }

  // ---------- Exactly when accepted names stay inside ----------

  lemma SlashAddsNothing(x: CString)
    ensures Place(x + ['/']) == Place(x)
  {
    ComponentsJoin(x, []);
    assert x + ['/'] + [] == x + ['/'];
    ResolveJoin([], Components(x), [[]]);
  }

  lemma PlaceBelow(x: CString, y: CString)
    ensures Place(x + ['/'] + y) == Resolve(Place(x), Components(y))
  {
    ComponentsJoin(x, y);
    ResolveJoin([], Components(x), Components(y));
  }

  lemma NamesStayBelow(x: CString, name: CString)
    requires !DotDot(name)
    ensures Place(x + ['/']) <= Place(x + ['/'] + name)
  {
    hide Components, Place, Climbs, Resolve;
    SlashAddsNothing(x);
    PlaceBelow(x, name);
    NoDotDotNoClimb(name);
    NoClimbStaysInside(Place(x), Components(name));
  }

  /** Whether all accepted names stay inside the served root depends on the mount root alone: they do if
      and only if the root prefix, as far as the path buffer holds it, is itself inside. */
  lemma NamesStayInsideExactly(root: CString, sroot: CString)
    ensures (forall name :: !DotDot(name) ==> Place(root) <= Place(FullPath(root, sroot, name)))
            <==> Place(root) <= Place(Cut(RootPrefix(root, sroot), MAX_FILEPATH - 1))
  {
    hide Place, DotDot, RootPrefix, Collapsed;
    var prefix := Cut(RootPrefix(root, sroot), MAX_FILEPATH - 1);
    NothingDoubled();
    assert prefix + Cut([], MAX_FILEPATH - 1 - |prefix|) == prefix;
    NormalizingKeepsPlace(prefix);
    assert Place(FullPath(root, sroot, [])) == Place(prefix);
    forall name | !DotDot(name)
      ensures Place(prefix) <= Place(FullPath(root, sroot, name))
    {
      NameStaysBelowPrefix(root, sroot, name);
    }
  }

  lemma NothingDoubled()
    ensures !DotDot([])
  {
  }

  lemma NameStaysBelowPrefix(root: CString, sroot: CString, name: CString)
    requires !DotDot(name)
    ensures Place(Cut(RootPrefix(root, sroot), MAX_FILEPATH - 1)) <= Place(FullPath(root, sroot, name))
  {
    hide Place, Components, Collapsed;
    var prefix := Cut(RootPrefix(root, sroot), MAX_FILEPATH - 1);
    var nm := Cut(name, MAX_FILEPATH - 1 - |prefix|);
    NormalizingKeepsPlace(prefix + nm);
    if nm == [] {
      assert prefix + nm == prefix;
    } else {
      DoubledInPart(name, 0, |nm|, '.');
      assert name[0..|nm|] == nm;
      NamesStayBelow(root + ['/'] + sroot, nm);
    }
  }

  // ---------- A root the check does not see whole ----------

  function Slashes(n: nat): (s: CString)
    ensures |s| == n && forall i :: 0 <= i < n ==> s[i] == '/'
  {
    seq(n, _ => '/')
  }

  lemma {:induction false} SlashesAddNothing(x: CString, n: nat)
    ensures Place(x + Slashes(n)) == Place(x)
  {
    if n == 0 {
      assert x + Slashes(0) == x;
    } else {
      SlashesAddNothing(x, n - 1);
      SlashAddsNothing(x + Slashes(n - 1));
      assert x + Slashes(n) == x + Slashes(n - 1) + ['/'];
    }
  }

  lemma {:induction false} OneComponent(s: CString)
    requires forall i :: 0 <= i < |s| ==> s[i] != '/'
    ensures Components(s) == [s]
  {
    if s != [] {
      OneComponent(s[1..]);
      assert [s[0]] + s[1..] == s;
    }
  }

  /** Two steps up and two down. */
  lemma UpAndDown()
    ensures Components("../../b/a") == ["..", "..", "b", "a"]
  {
    hide Components;
    ComponentsJoin("..", "../b/a");
    ComponentsJoin("..", "b/a");
    ComponentsJoin("b", "a");
    OneComponent("..");
    OneComponent("b");
    OneComponent("a");
    assert ".." + ['/'] + "../b/a" == "../../b/a" && ".." + ['/'] + "b/a" == "../b/a" && "b" + ['/'] + "a" == "b/a";
  }

  /** A mount root whose first 250 characters are slashes. */
  function LongRoot(): CString {
    Slashes(250) + "../../b"
  }

  lemma LongRootIsChecked()
    ensures RootChecked("/srv", LongRoot())
  {
    var seen := Cut(RootPrefix("/srv", LongRoot()), MAX_TNFSPATH - 1);
    assert forall i :: 0 <= i < |seen| ==> seen[i] != '.';
  }

  lemma LongRootPath()
    ensures var p := RootPrefix("/srv", LongRoot());
      |p| == 263 && p + "a" == "/srv" + Slashes(250) + ['/'] + "../../b/a"
  {
  }

  lemma FitsWhole(root: CString, sroot: CString, name: CString)
    requires |RootPrefix(root, sroot)| + |name| < MAX_FILEPATH
    ensures Place(FullPath(root, sroot, name)) == Place(RootPrefix(root, sroot) + name)
  {
    NormalizingKeepsPlace(RootPrefix(root, sroot) + name);
  }

  lemma Beside(inside: seq<CString>, outside: seq<CString>)
    requires inside == ["srv"] && outside == ["b", "a"]
    ensures !(inside <= outside)
  {
    assert inside[0] != outside[0];
  }

  /** It passes the check, which sees only the slashes, and leads outside. */
  lemma LongRootLeadsOutside()
    ensures RootChecked("/srv", LongRoot()) && !DotDot("a")
    ensures Place(FullPath("/srv", LongRoot(), "a")) == ["b", "a"]
    ensures !(Place("/srv") <= Place(FullPath("/srv", LongRoot(), "a")))
  {
    hide Place, LongRoot, Slashes, FullPath, RootPrefix, RootChecked;
    LongRootIsChecked();
    LongRootPath();
    LongRootPlace();
    FitsWhole("/srv", LongRoot(), "a");
    Beside(Place("/srv"), Place(FullPath("/srv", LongRoot(), "a")));
  }

  lemma LongRootPlace()
    ensures Place("/srv") == ["srv"] && Place("/srv" + Slashes(250) + ['/'] + "../../b/a") == ["b", "a"]
  {
    hide Slashes, Components;
    PlaceOfServed();
    SlashesAddNothing("/srv", 250);
    PlaceBelow("/srv" + Slashes(250), "../../b/a");
    UpAndDown();
    hide Place;
    var up: seq<CString> := ["..", "..", "b", "a"];
    assert Descend(["srv"], "..") == [] && Descend([], "b") == ["b"] && Descend(["b"], "a") == ["b", "a"];
    assert Resolve(["srv"], up) == Resolve([], up[1..]);
    assert Resolve([], up[1..]) == Resolve([], up[2..]);
    assert Resolve([], up[2..]) == Resolve(["b"], up[3..]);
    assert Resolve(["b"], up[3..]) == ["b", "a"];
  }

  lemma PlaceOfServed()
    ensures Place("/srv") == ["srv"]
  {
    hide Components;
    OneComponent("");
    OneComponent("srv");
    ComponentsJoin("", "srv");
    assert "" + ['/'] + "srv" == "/srv";
    var cs: seq<CString> := ["", "srv"];
    assert Resolve([], cs) == Resolve([], cs[1..]);
    assert Resolve([], cs[1..]) == ["srv"];
  }

  /** A path that fits its buffer leads from the served root through the mount root to the name. */
  lemma PathLeads(root: CString, sroot: CString, name: CString)
    requires |RootPrefix(root, sroot)| + |name| < MAX_FILEPATH
    ensures Place(FullPath(root, sroot, name)) == Resolve(Resolve(Place(root), Components(sroot)), Components(name))
  {
    hide Place, Components, Collapsed, Resolve;
    FitsWhole(root, sroot, name);
    assert RootPrefix(root, sroot) + name == root + ['/'] + sroot + ['/'] + name;
    PlaceBelow(root + ['/'] + sroot, name);
    PlaceBelow(root, sroot);
  }

  // ---------- Names in requests ----------

  /** The bytes of a text with its terminator. */
  function Sent(s: CString): (b: seq<U8>)
    ensures |b| == |s| + 1 && b[|s|] == 0 && forall i :: 0 <= i < |s| ==> b[i] == s[i] as int
  {
    seq(|s|, i requires 0 <= i < |s| => s[i] as int) + [0]
  }

  lemma {:induction false} NameInSent(s: CString, rest: seq<U8>)
    ensures NameIn(Sent(s) + rest) == s
  {
    if s != [] {
      NameInSent(s[1..], rest);
      assert (Sent(s) + rest)[1..] == Sent(s[1..]) + rest;
      assert (s[0] as int) as char == s[0];
    }
  }
}

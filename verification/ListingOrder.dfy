/** The order of a listing in plain terms (src/directory.c): what the option bytes of OPENDIRX ask for, names
    compared character by character, and the listing in that order. */
module ListingOrder {
  import opened CStrings
  import opened Endian
  import opened EntryOrder
  import opened Listing

  // ---------- Names ----------

  /** The number a character of a name counts as, in lower case if `fold` is set. */
  function Weight(c: CChar, fold: bool): int {
    if fold && 'A' <= c <= 'Z' then c as int + 32 else c as int
  }

  /** The first k characters of both names weigh the same. */
  predicate SameFront(a: CString, b: CString, fold: bool, k: nat)
    requires k <= |a| && k <= |b|
  {
    forall i :: 0 <= i < k ==> Weight(a[i], fold) == Weight(b[i], fold)
  }

  /** k is where the names part, and there b goes on while a ends, or has the heavier character. */
  predicate PartsAt(a: CString, b: CString, fold: bool, k: nat) {
    k <= |a| && k < |b| && SameFront(a, b, fold, k) && (k == |a| || Weight(a[k], fold) < Weight(b[k], fold))
  }

  /** a comes before b in the alphabet of bytes. */
  predicate NameBefore(a: CString, b: CString, fold: bool) {
    exists k: nat :: k < |b| && PartsAt(a, b, fold, k)
  }

  lemma PartsFurther(a: CString, b: CString, fold: bool, k: nat)
    requires a != [] && b != [] && Weight(a[0], fold) == Weight(b[0], fold)
    ensures PartsAt(a[1..], b[1..], fold, k) <==> PartsAt(a, b, fold, k + 1)
  {
    if PartsAt(a, b, fold, k + 1) {
      assert forall i :: 0 <= i < k ==> a[1..][i] == a[i + 1] && b[1..][i] == b[i + 1];
    }
    if PartsAt(a[1..], b[1..], fold, k) {
      forall i | 0 <= i < k + 1
        ensures Weight(a[i], fold) == Weight(b[i], fold)
      {
        if i > 0 {
          assert a[i] == a[1..][i - 1] && b[i] == b[1..][i - 1];
        }
      }
    }
  }

  lemma BeforeFurther(a: CString, b: CString, fold: bool)
    requires a != [] && b != []
    ensures NameBefore(a, b, fold) <==>
      Weight(a[0], fold) < Weight(b[0], fold)
      || (Weight(a[0], fold) == Weight(b[0], fold) && NameBefore(a[1..], b[1..], fold))
  {
    if NameBefore(a, b, fold) {
      var k: nat :| k < |b| && PartsAt(a, b, fold, k);
      if k > 0 {
        assert Weight(a[0], fold) == Weight(b[0], fold);
        PartsFurther(a, b, fold, k - 1);
      }
    }
    if Weight(a[0], fold) < Weight(b[0], fold) {
      assert PartsAt(a, b, fold, 0);
    }
    if Weight(a[0], fold) == Weight(b[0], fold) && NameBefore(a[1..], b[1..], fold) {
      var k: nat :| k < |b| - 1 && PartsAt(a[1..], b[1..], fold, k);
      PartsFurther(a, b, fold, k);
    }
  }

  /** strcmp and strcasecmp: negative exactly when the first name comes before the second. */
  lemma {:induction false} StrCmpIsOrder(a: CString, b: CString, fold: bool)
    ensures StrCmp(a, b, fold) < 0 <==> NameBefore(a, b, fold)
  {
    if a == [] || b == [] {
      if a == [] && b != [] {
        assert PartsAt(a, b, fold, 0);
      }
    } else {
      BeforeFurther(a, b, fold);
      StrCmpIsOrder(a[1..], b[1..], fold);
    }
  }

  // ---------- The option bytes ----------

  /** a's key is below b's for sort option byte o: the size if bit 0x10 is set, else the time of the last
      change if 0x08 is, else the name, in which case counts if 0x02 is set. */
  predicate KeyBelow(a: Entry, b: Entry, o: U8) {
    if o % 32 >= 16 then a.size < b.size
    else if o % 16 >= 8 then a.mtime < b.mtime
    else NameBefore(a.name, b.name, o % 4 < 2)
  }

  /** b may be listed behind a; bit 0x04 turns the order round. */
  predicate MayFollow(a: Entry, b: Entry, o: U8) {
    if o % 8 >= 4 then !KeyBelow(a, b, o) else !KeyBelow(b, a, o)
  }

  predicate InOrder(s: seq<Entry>, o: U8) {
    forall i, j :: 0 <= i < j < |s| ==> MayFollow(s[i], s[j], o)
  }

  /** Sizes and times, where they are the key, lie less than 2^31 apart. */
  predicate Apart(s: seq<Entry>, o: U8) {
    forall i, j :: 0 <= i < |s| && 0 <= j < |s| ==>
      if o % 32 >= 16 then s[i].size - s[j].size < 0x8000_0000
      else o % 16 >= 8 ==> s[i].mtime - s[j].mtime < 0x8000_0000
  }

  /** The entries of s whose key is that of x, in order. */
  function Equals(s: seq<Entry>, x: Entry, o: U8): seq<Entry> {
    if s == [] then []
    else (if KeyBelow(s[0], x, o) || KeyBelow(x, s[0], o) then [] else [s[0]]) + Equals(s[1..], x, o)
  }

  lemma {:induction false} TiesAreEquals(s: seq<Entry>, x: Entry, o: U8)
    ensures Ties(s, x, SortOptsOf(o)) == Equals(s, x, o)
  {
    if s != [] {
      hide KeyLess, KeyBelow, SortOptsOf;
      KeyLessIsEither(s[0], x, o);
      TiesAreEquals(s[1..], x, o);
    }
  }

  lemma KeyLessIsEither(a: Entry, b: Entry, o: U8)
    ensures KeyLess(a, b, SortOptsOf(o)) || KeyLess(b, a, SortOptsOf(o)) <==> KeyBelow(a, b, o) || KeyBelow(b, a, o)
  {
    KeyLessIs(a, b, o);
    KeyLessIs(b, a, o);
  }

  lemma Bit2(b: U8)
    ensures Bit(b, 2) <==> b % 4 >= 2
  {
    var high, low := b / 4, b % 4;
    assert b / 2 == 2 * high + low / 2;
  }

  lemma Bit4(b: U8)
    ensures Bit(b, 4) <==> b % 8 >= 4
  {
    var high, low := b / 8, b % 8;
    assert b / 4 == 2 * high + low / 4;
  }

  lemma Bit8(b: U8)
    ensures Bit(b, 8) <==> b % 16 >= 8
  {
    var high, low := b / 16, b % 16;
    assert b / 8 == 2 * high + low / 8;
  }

  lemma Bit16(b: U8)
    ensures Bit(b, 16) <==> b % 32 >= 16
  {
    var high, low := b / 32, b % 32;
    assert b / 16 == 2 * high + low / 16;
  }

  lemma Bit32(b: U8)
    ensures Bit(b, 32) <==> b % 64 >= 32
  {
    var high, low := b / 64, b % 64;
    assert b / 32 == 2 * high + low / 32;
  }

  lemma BitsOf(b: U8)
    ensures Bit(b, 1) <==> b % 2 == 1
    ensures Bit(b, 2) <==> b % 4 >= 2
    ensures Bit(b, 4) <==> b % 8 >= 4
    ensures Bit(b, 8) <==> b % 16 >= 8
    ensures Bit(b, 16) <==> b % 32 >= 16
    ensures Bit(b, 32) <==> b % 64 >= 32
  {
    Bit2(b);
    Bit4(b);
    Bit8(b);
    Bit16(b);
    Bit32(b);
  }

  lemma KeyLessIs(a: Entry, b: Entry, o: U8)
    ensures KeyLess(a, b, SortOptsOf(o)) <==> !MayFollow(b, a, o)
  {
    hide Bit;
    BitsOf(o);
    StrCmpIsOrder(a.name, b.name, o % 4 < 2);
    StrCmpIsOrder(b.name, a.name, o % 4 < 2);
  }

  lemma SortedIsInOrder(s: seq<Entry>, o: U8)
    ensures Sorted(s, SortOptsOf(o)) <==> InOrder(s, o)
  {
    forall i, j | 0 <= i < j < |s|
      ensures KeyLess(s[j], s[i], SortOptsOf(o)) <==> !MayFollow(s[i], s[j], o)
    {
      KeyLessIs(s[j], s[i], o);
    }
  }

  function Members(s: seq<Entry>): set<Entry> {
    set e | e in s
  }

  lemma ApartIsClose(s: seq<Entry>, o: U8)
    requires Apart(s, o)
    ensures AllClose(Members(s), SortOptsOf(o))
  {
    hide Bit;
    BitsOf(o);
    var u := Members(s);
    forall a, b | a in u && b in u
      ensures Close(a, b, SortOptsOf(o))
    {
      var i :| 0 <= i < |s| && s[i] == a;
      var j :| 0 <= j < |s| && s[j] == b;
    }
  }

  // ---------- The listing ----------

  predicate AllOfKind(s: seq<Entry>, dirs: bool) {
    forall i :: 0 <= i < |s| ==> (s[i].flags % 2 == 1 <==> dirs)
  }

  lemma {:induction false} OfKindIsThat(s: seq<Entry>, dirs: bool)
    ensures AllOfKind(OfKind(s, dirs), dirs)
  {
    if s != [] {
      OfKindIsThat(s[..|s| - 1], dirs);
    }
  }

  lemma KindSurvives(s: seq<Entry>, t: seq<Entry>, dirs: bool)
    requires AllOfKind(s, dirs) && multiset(t) == multiset(s)
    ensures AllOfKind(t, dirs)
  {
    forall i | 0 <= i < |t|
      ensures t[i].flags % 2 == 1 <==> dirs
    {
      assert t[i] in multiset(s);
    }
  }

  /** Equal keys stand in t in the order of s. */
  ghost predicate TiesKeptIn(t: seq<Entry>, s: seq<Entry>, o: U8) {
    forall x :: Equals(t, x, o) == Equals(s, x, o)
  }

  /** One group comes out in order, or backwards if bit 0x01 says unsorted. */
  lemma GroupInOrder(s: seq<Entry>, o: U8, u: set<Entry>)
    requires AllClose(u, SortOptsOf(o)) && Within(s, u)
    ensures o % 2 == 0 ==> InOrder(Ordered(s, SortOptsOf(o)), o)
    ensures o % 2 == 0 ==> TiesKeptIn(Ordered(s, SortOptsOf(o)), s, o)
    ensures o % 2 == 1 ==> Backwards(Ordered(s, SortOptsOf(o)), s)
    ensures multiset(Ordered(s, SortOptsOf(o))) == multiset(s) && |Ordered(s, SortOptsOf(o))| == |s|
  {
    OrderedKeeps(s, SortOptsOf(o));
    assert |multiset(Ordered(s, SortOptsOf(o)))| == |multiset(s)|;
    if o % 2 == 0 {
      OrderedIsStable(s, SortOptsOf(o), u);
      StableSortMeaning(s, SortOptsOf(o));
      SortedIsInOrder(Ordered(s, SortOptsOf(o)), o);
      forall x
        ensures Equals(Ordered(s, SortOptsOf(o)), x, o) == Equals(s, x, o)
      {
        TiesAreEquals(s, x, o);
        TiesAreEquals(Ordered(s, SortOptsOf(o)), x, o);
      }
    } else {
      ReversedIsBackwards(s);
    }
  }

  predicate Backwards(t: seq<Entry>, s: seq<Entry>) {
    |t| == |s| && forall i :: 0 <= i < |s| ==> t[i] == s[|s| - 1 - i]
  }

  lemma {:induction false} ReversedIsBackwards(s: seq<Entry>)
    ensures Backwards(Reversed(s), s)
  {
    if s != [] {
      var r := Reversed(s[1..]);
      ReversedIsBackwards(s[1..]);
      assert Reversed(s) == r + [s[0]];
      hide Reversed;
      forall i | 0 <= i < |s|
        ensures (r + [s[0]])[i] == s[|s| - 1 - i]
      {
        if i < |r| {
          assert r[i] == s[1..][|s| - 2 - i];
        }
      }
    }
  }

  /** A listing with these option bytes: n directories first unless bit 0x01 of d asks for one group, then the
      rest; each group in the order o asks for, or in the reverse of the enumeration. Nothing is lost. */
  lemma ListingInOrder(s: seq<Entry>, d: U8, o: U8) returns (n: nat)
    requires Apart(s, o)
    ensures var r := Arranged(s, DirOptsOf(d), SortOptsOf(o));
      && multiset(r) == multiset(s) && n <= |r|
      && (if d % 2 == 1 then n == 0 else AllOfKind(r[..n], true) && AllOfKind(r[n..], false))
      && (o % 2 == 0 ==> InOrder(r[..n], o) && InOrder(r[n..], o))
      && (o % 2 == 0 ==>
            if d % 2 == 1 then TiesKeptIn(r, s, o)
            else TiesKeptIn(r[..n], OfKind(s, true), o) && TiesKeptIn(r[n..], OfKind(s, false), o))
      && (o % 2 == 1 ==>
            if d % 2 == 1 then Backwards(r, s)
            else Backwards(r[..n], OfKind(s, true)) && Backwards(r[n..], OfKind(s, false)))
  {
    hide Bit, InOrder, Backwards, TiesKeptIn, Sorted, Ordered, OfKind, AllOfKind;
    BitsOf(d);
    BitsOf(o);
    ApartIsClose(s, o);
    var u := Members(s);
    ArrangedKeeps(s, DirOptsOf(d), SortOptsOf(o));
    var r := Arranged(s, DirOptsOf(d), SortOptsOf(o));
    if d % 2 == 1 {
      n := 0;
      GroupInOrder(s, o, u);
      NothingInOrder(o);
      assert r[..0] == [] && r[0..] == r;
    } else {
      var dirs, files := OfKind(s, true), OfKind(s, false);
      n := |dirs|;
      OfKindWithin(s, true, u);
      OfKindWithin(s, false, u);
      GroupInOrder(dirs, o, u);
      GroupInOrder(files, o, u);
      OfKindIsThat(s, true);
      OfKindIsThat(s, false);
      KindSurvives(dirs, Ordered(dirs, SortOptsOf(o)), true);
      KindSurvives(files, Ordered(files, SortOptsOf(o)), false);
      assert r[..n] == Ordered(dirs, SortOptsOf(o)) && r[n..] == Ordered(files, SortOptsOf(o));
    }
  }

  /** Whether or not the keys are apart, the two parts stand where they should. */
  lemma ArrangedAnyway(s: seq<Entry>, d: U8, o: U8) returns (n: nat)
    ensures var r := Arranged(s, DirOptsOf(d), SortOptsOf(o));
      && multiset(r) == multiset(s) && n <= |r|
      && (if d % 2 == 1 then n == 0 else AllOfKind(r[..n], true) && AllOfKind(r[n..], false))
      && (Apart(s, o) && o % 2 == 0 ==> InOrder(r[..n], o) && InOrder(r[n..], o))
  {
    if Apart(s, o) {
      n := ListingInOrder(s, d, o);
    } else {
      hide Bit, Ordered, OfKind, AllOfKind;
      BitsOf(d);
      ArrangedKeeps(s, DirOptsOf(d), SortOptsOf(o));
      if d % 2 == 1 {
        n := 0;
      } else {
        var dirs, files, opts := OfKind(s, true), OfKind(s, false), SortOptsOf(o);
        var r := Arranged(s, DirOptsOf(d), opts);
        OfKindIsThat(s, true);
        OfKindIsThat(s, false);
        OrderedKeeps(dirs, opts);
        OrderedKeeps(files, opts);
        KindSurvives(dirs, Ordered(dirs, opts), true);
        KindSurvives(files, Ordered(files, opts), false);
        n := |Ordered(dirs, opts)|;
        assert r[..n] == Ordered(dirs, opts) && r[n..] == Ordered(files, opts);
      }
    }
  }

  lemma NothingInOrder(o: U8)
    ensures InOrder([], o)
  {
  }
}

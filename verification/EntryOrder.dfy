/** Directory entries, the comparison of the list merge sort, and a reference stable sort. */
module EntryOrder {
  import opened CStrings
  import opened Endian

  const TWO_31: int := 0x8000_0000
  const TWO_32: int := 0x1_0000_0000

  datatype Entry = Entry(flags: U8, size: U32, mtime: U32, ctime: U32, name: CString)

  /** The bits of the sort option byte. */
  datatype SortOpts = SortOpts(none: bool, caseSensitive: bool, descending: bool, byTime: bool, bySize: bool)

  predicate Bit(b: U8, place: nat)
    requires place in {1, 2, 4, 8, 16, 32}
  {
    b / place % 2 == 1
  }

  function SortOptsOf(b: U8): SortOpts {
    SortOpts(Bit(b, 1), Bit(b, 2), Bit(b, 4), Bit(b, 8), Bit(b, 16))
  }

  // ---------- The comparison the code makes ----------

  /** Conversion of an out-of-range value to a 32-bit int. */
  function ToInt32(x: int): (r: int)
    ensures -TWO_31 <= r < TWO_31
    ensures -TWO_31 <= x < TWO_31 ==> r == x
  {
    var m := x % TWO_32;
    if m < TWO_31 then m else m - TWO_32
  }

  /** The sign of strcmp, or of strcasecmp when `fold` is set. */
  function StrCmp(a: CString, b: CString, fold: bool): (r: int)
    ensures -1 <= r <= 1
  {
    if a == [] then if b == [] then 0 else -1
    else if b == [] then 1
    else
      var x, y := if fold then ToLower(a[0]) else a[0], if fold then ToLower(b[0]) else b[0];
      if x < y then -1 else if y < x then 1 else StrCmp(a[1..], b[1..], fold)
  }

  /** The r of _mergesort_merge. */
  function Compare(a: Entry, b: Entry, opts: SortOpts): int {
    var r :=
      if opts.bySize then ToInt32(a.size - b.size)
      else if opts.byTime then ToInt32(a.mtime - b.mtime)
      else StrCmp(a.name, b.name, !opts.caseSensitive);
    if opts.descending then ToInt32(-r) else r
  }

  predicate Before(a: Entry, b: Entry, opts: SortOpts) {
    Compare(a, b, opts) < 0
  }

  // ---------- The order the options ask for ----------

  /** a is listed strictly before b: by size, else by time, else by name. */
  predicate KeyLess(a: Entry, b: Entry, opts: SortOpts) {
    var x, y := if opts.descending then b else a, if opts.descending then a else b;
    if opts.bySize then x.size < y.size
    else if opts.byTime then x.mtime < y.mtime
    else StrCmp(x.name, y.name, !opts.caseSensitive) < 0
  }

  /** Numeric keys no further apart than a 32-bit int can tell. Names are always close. */
  predicate Close(a: Entry, b: Entry, opts: SortOpts) {
    if opts.bySize then -TWO_31 < a.size - b.size < TWO_31
    else if opts.byTime then -TWO_31 < a.mtime - b.mtime < TWO_31
    else true
  }

  lemma {:induction false} StrCmpFlips(a: CString, b: CString, fold: bool)
    ensures StrCmp(a, b, fold) == -StrCmp(b, a, fold)
  {
    if a != [] && b != [] {
      StrCmpFlips(a[1..], b[1..], fold);
    }
  }

  lemma {:induction false} StrCmpTransitive(a: CString, b: CString, c: CString, fold: bool)
    requires StrCmp(a, b, fold) <= 0 && StrCmp(b, c, fold) <= 0
    ensures StrCmp(a, c, fold) <= 0
    ensures StrCmp(a, b, fold) < 0 || StrCmp(b, c, fold) < 0 ==> StrCmp(a, c, fold) < 0
  {
    if a != [] && b != [] && c != [] {
      var x := if fold then ToLower(a[0]) else a[0];
      var y := if fold then ToLower(b[0]) else b[0];
      var z := if fold then ToLower(c[0]) else c[0];
      if x == y && y == z {
        StrCmpTransitive(a[1..], b[1..], c[1..], fold);
      }
    }
  }

  /** A 32-bit difference and its negation have the sign of the true difference d exactly when d is
      less than 2^31 away from zero. */
  lemma DifferenceExact(d: int)
    requires -TWO_32 < d < TWO_32
    ensures ToInt32(d) == if d < -TWO_31 then d + TWO_32 else if d >= TWO_31 then d - TWO_32 else d
    ensures -TWO_31 < d < TWO_31 ==> ToInt32(d) == d && ToInt32(-d) == -d
  {
  }

  /** The code's comparison orders a pair as asked, both ways round, exactly when the keys are close. */
  lemma CompareExact(a: Entry, b: Entry, opts: SortOpts)
    ensures Close(a, b, opts) <==>
      (Before(a, b, opts) <==> KeyLess(a, b, opts)) && (Before(b, a, opts) <==> KeyLess(b, a, opts))
  {
    if opts.bySize {
      DifferenceExact(a.size - b.size);
      DifferenceExact(b.size - a.size);
    } else if opts.byTime {
      DifferenceExact(a.mtime - b.mtime);
      DifferenceExact(b.mtime - a.mtime);
    } else {
      StrCmpFlips(a.name, b.name, !opts.caseSensitive);
    }
  }

  lemma KeyLessOrders(a: Entry, b: Entry, c: Entry, opts: SortOpts)
    ensures KeyLess(a, b, opts) && KeyLess(b, c, opts) ==> KeyLess(a, c, opts)
    ensures KeyLess(a, c, opts) ==> KeyLess(a, b, opts) || KeyLess(b, c, opts)
    ensures KeyLess(a, b, opts) ==> !KeyLess(b, a, opts)
  {
    var fold := !opts.caseSensitive;
    StrCmpFlips(a.name, b.name, fold);
    StrCmpFlips(b.name, c.name, fold);
    StrCmpFlips(a.name, c.name, fold);
    if StrCmp(a.name, b.name, fold) <= 0 && StrCmp(b.name, c.name, fold) <= 0 {
      StrCmpTransitive(a.name, b.name, c.name, fold);
    }
    if StrCmp(c.name, b.name, fold) <= 0 && StrCmp(b.name, a.name, fold) <= 0 {
      StrCmpTransitive(c.name, b.name, a.name, fold);
    }
  }

  /** Every two entries of u are close. */
  ghost predicate AllClose(u: set<Entry>, opts: SortOpts) {
    forall a, b :: a in u && b in u ==> Close(a, b, opts)
  }

  ghost predicate Within(s: seq<Entry>, u: set<Entry>) {
    forall i :: 0 <= i < |s| ==> s[i] in u
  }

  // ---------- The reference: a stable insertion sort ----------

  /** h goes before the entries it ties with. */
  function Insert(h: Entry, s: seq<Entry>, opts: SortOpts): seq<Entry> {
    if s == [] then [h]
    else if KeyLess(s[0], h, opts) then [s[0]] + Insert(h, s[1..], opts)
    else [h] + s
  }

  function StableSort(s: seq<Entry>, opts: SortOpts): seq<Entry> {
    if s == [] then [] else Insert(s[0], StableSort(s[1..], opts), opts)
  }

  ghost predicate Sorted(s: seq<Entry>, opts: SortOpts) {
    forall i, j :: 0 <= i < j < |s| ==> !KeyLess(s[j], s[i], opts)
  }

  /** The entries of s that tie with x, in order. */
  function Ties(s: seq<Entry>, x: Entry, opts: SortOpts): seq<Entry> {
    if s == [] then []
    else if !KeyLess(s[0], x, opts) && !KeyLess(x, s[0], opts) then [s[0]] + Ties(s[1..], x, opts)
    else Ties(s[1..], x, opts)
  }

  lemma {:induction false} InsertKeeps(h: Entry, s: seq<Entry>, opts: SortOpts)
    ensures multiset(Insert(h, s, opts)) == multiset([h]) + multiset(s)
  {
    if s != [] && KeyLess(s[0], h, opts) {
      InsertKeeps(h, s[1..], opts);
      assert s == [s[0]] + s[1..];
    }
  }

  /** x may stand before all of s. */
  ghost predicate AtMost(x: Entry, s: seq<Entry>, opts: SortOpts) {
    forall j :: 0 <= j < |s| ==> !KeyLess(s[j], x, opts)
  }

  lemma {:induction false} InsertAtMost(x: Entry, h: Entry, s: seq<Entry>, opts: SortOpts)
    requires AtMost(x, s, opts) && !KeyLess(h, x, opts)
    ensures AtMost(x, Insert(h, s, opts), opts)
  {
    if s != [] && KeyLess(s[0], h, opts) {
      InsertAtMost(x, h, s[1..], opts);
    }
  }

  lemma {:induction false} InsertSorts(h: Entry, s: seq<Entry>, opts: SortOpts)
    requires Sorted(s, opts)
    ensures Sorted(Insert(h, s, opts), opts)
  {
    if s == [] {
    } else if KeyLess(s[0], h, opts) {
      InsertSorts(h, s[1..], opts);
      KeyLessOrders(s[0], h, h, opts);
      assert AtMost(s[0], s[1..], opts);
      InsertAtMost(s[0], h, s[1..], opts);
    } else {
      forall j | 0 <= j < |s|
        ensures !KeyLess(s[j], h, opts)
      {
        KeyLessOrders(s[j], s[0], h, opts);
      }
    }
  }

  lemma {:induction false} InsertTies(h: Entry, s: seq<Entry>, x: Entry, opts: SortOpts)
    ensures Ties(Insert(h, s, opts), x, opts) == Ties([h] + s, x, opts)
  {
    if s != [] && KeyLess(s[0], h, opts) {
      InsertTies(h, s[1..], x, opts);
      var r := Insert(h, s[1..], opts);
      assert ([s[0]] + r)[1..] == r && ([h] + s)[1..] == s && ([h] + s[1..])[1..] == s[1..];
      KeyLessOrders(s[0], x, h, opts);
      KeyLessOrders(x, s[0], h, opts);
      KeyLessOrders(s[0], h, x, opts);
      KeyLessOrders(h, x, s[0], opts);
    }
  }

  /** The reference sort orders the entries, keeps them all, and keeps ties in their input order. */
  lemma {:induction false} StableSortMeaning(s: seq<Entry>, opts: SortOpts)
    ensures Sorted(StableSort(s, opts), opts)
    ensures multiset(StableSort(s, opts)) == multiset(s)
    ensures forall x :: Ties(StableSort(s, opts), x, opts) == Ties(s, x, opts)
  {
    if s != [] {
      var r := StableSort(s[1..], opts);
      StableSortMeaning(s[1..], opts);
      InsertSorts(s[0], r, opts);
      InsertKeeps(s[0], r, opts);
      assert s == [s[0]] + s[1..];
      forall x
        ensures Ties(StableSort(s, opts), x, opts) == Ties(s, x, opts)
      {
        InsertTies(s[0], r, x, opts);
        assert ([s[0]] + r)[1..] == r;
      }
    }
  }

  // ---------- The code's merge sort, on sequences ----------

  /** On a tie the right-hand list goes first. */
  function Merge(l: seq<Entry>, r: seq<Entry>, opts: SortOpts): seq<Entry>
    decreases |l| + |r|
  {
    if l == [] then r
    else if r == [] then l
    else if Before(l[0], r[0], opts) then [l[0]] + Merge(l[1..], r, opts)
    else [r[0]] + Merge(l, r[1..], opts)
  }

  function MergeSort(s: seq<Entry>, opts: SortOpts): seq<Entry> {
    if |s| <= 1 then s
    else
      var mid := (|s| + 1) / 2;
      Merge(MergeSort(s[..mid], opts), MergeSort(s[mid..], opts), opts)
  }

  function Reversed(s: seq<Entry>): seq<Entry> {
    if s == [] then [] else Reversed(s[1..]) + [s[0]]
  }

  lemma {:induction false} ReversedConcat(a: seq<Entry>, b: seq<Entry>)
    ensures Reversed(a + b) == Reversed(b) + Reversed(a)
  {
    if a == [] {
      assert a + b == b;
    } else {
      ReversedConcat(a[1..], b);
      assert (a + b)[1..] == a[1..] + b;
    }
  }

  lemma {:induction false} ReversedTwice(s: seq<Entry>)
    ensures Reversed(Reversed(s)) == s
  {
    if s != [] {
      ReversedTwice(s[1..]);
      ReversedConcat(Reversed(s[1..]), [s[0]]);
      assert Reversed([s[0]]) == [s[0]];
    }
  }

  lemma {:induction false} ReversedWithin(s: seq<Entry>, u: set<Entry>)
    requires Within(s, u)
    ensures Within(Reversed(s), u)
  {
    if s != [] {
      ReversedWithin(s[1..], u);
    }
  }

  lemma {:induction false} StableSortWithin(s: seq<Entry>, opts: SortOpts, u: set<Entry>)
    requires Within(s, u)
    ensures Within(StableSort(s, opts), u)
  {
    if s != [] {
      StableSortWithin(s[1..], opts, u);
      InsertWithin(s[0], StableSort(s[1..], opts), opts, u);
    }
  }

  lemma {:induction false} InsertWithin(h: Entry, s: seq<Entry>, opts: SortOpts, u: set<Entry>)
    requires h in u && Within(s, u)
    ensures Within(Insert(h, s, opts), u)
  {
    if s != [] {
      InsertWithin(h, s[1..], opts, u);
    }
  }

  lemma HeadMultiset<T>(s: seq<T>)
    requires s != []
    ensures multiset(s) == multiset{s[0]} + multiset(s[1..])
  {
    assert s == [s[0]] + s[1..];
  }

  lemma {:induction false} ReversedKeeps(s: seq<Entry>)
    ensures multiset(Reversed(s)) == multiset(s)
  {
    if s != [] {
      ReversedKeeps(s[1..]);
      HeadMultiset(s);
    }
  }

  lemma {:induction false} MergeKeeps(l: seq<Entry>, r: seq<Entry>, opts: SortOpts)
    ensures multiset(Merge(l, r, opts)) == multiset(l) + multiset(r)
    decreases |l| + |r|
  {
    if l != [] && r != [] {
      var m := Merge(l, r, opts);
      HeadMultiset(m);
      if Before(l[0], r[0], opts) {
        MergeKeeps(l[1..], r, opts);
        HeadMultiset(l);
        assert m[1..] == Merge(l[1..], r, opts);
      } else {
        MergeKeeps(l, r[1..], opts);
        HeadMultiset(r);
        assert m[1..] == Merge(l, r[1..], opts);
      }
    }
  }

  lemma HalvesMultiset<T>(s: seq<T>, mid: nat)
    requires mid <= |s|
    ensures multiset(s) == multiset(s[..mid]) + multiset(s[mid..])
  {
    assert s == s[..mid] + s[mid..];
  }

  /** Whatever the keys, the merge sort neither loses nor invents an entry. */
  lemma {:induction false} MergeSortKeeps(s: seq<Entry>, opts: SortOpts)
    ensures multiset(MergeSort(s, opts)) == multiset(s)
    decreases |s|
  {
    if |s| > 1 {
      var mid := (|s| + 1) / 2;
      MergeSortKeeps(s[..mid], opts);
      MergeSortKeeps(s[mid..], opts);
      MergeKeeps(MergeSort(s[..mid], opts), MergeSort(s[mid..], opts), opts);
      HalvesMultiset(s, mid);
    }
  }

  /** Inserting into a merge is merging with the insertion made on the right. */
  lemma {:induction false} InsertIntoMerge(h: Entry, l: seq<Entry>, r: seq<Entry>, opts: SortOpts, u: set<Entry>)
    requires AllClose(u, opts) && h in u && Within(l, u) && Within(r, u)
    ensures Insert(h, Merge(l, r, opts), opts) == Merge(l, Insert(h, r, opts), opts)
    decreases |l| + |r|
  {
    if l == [] {
    } else {
      CompareExact(l[0], h, opts);
      if r == [] {
        assert Merge(l, r, opts) == l;
        if KeyLess(l[0], h, opts) {
          InsertIntoMerge(h, l[1..], r, opts, u);
          assert Merge(l[1..], r, opts) == l[1..];
        }
      } else {
        CompareExact(l[0], r[0], opts);
        KeyLessOrders(l[0], r[0], h, opts);
        KeyLessOrders(l[0], h, r[0], opts);
        if Before(l[0], r[0], opts) {
          if KeyLess(l[0], h, opts) {
            InsertIntoMerge(h, l[1..], r, opts, u);
            assert Insert(h, r, opts)[0] == h || Insert(h, r, opts)[0] == r[0];
          }
        } else if KeyLess(r[0], h, opts) {
          InsertIntoMerge(h, l, r[1..], opts, u);
        }
      }
    }
  }

  lemma {:induction false} MergeOfStableSorts(x: seq<Entry>, y: seq<Entry>, opts: SortOpts, u: set<Entry>)
    requires AllClose(u, opts) && Within(x, u) && Within(y, u)
    ensures Merge(StableSort(x, opts), StableSort(y, opts), opts) == StableSort(y + x, opts)
    decreases |y|
  {
    if y == [] {
      assert y + x == x;
    } else {
      MergeOfStableSorts(x, y[1..], opts, u);
      assert (y + x)[1..] == y[1..] + x;
      StableSortWithin(x, opts, u);
      StableSortWithin(y[1..], opts, u);
      InsertIntoMerge(y[0], StableSort(x, opts), StableSort(y[1..], opts), opts, u);
    }
  }

  /** The list merge sort is the stable sort of the reversed list: ties come out in reverse. */
  lemma {:induction false} MergeSortIsStableOnReversed(s: seq<Entry>, opts: SortOpts, u: set<Entry>)
    requires AllClose(u, opts) && Within(s, u)
    ensures MergeSort(s, opts) == StableSort(Reversed(s), opts)
    decreases |s|
  {
    if |s| <= 1 {
      if |s| == 1 {
        assert Reversed(s) == s;
      }
    } else {
      var mid := (|s| + 1) / 2;
      var a, b := s[..mid], s[mid..];
      assert s == a + b;
      MergeSortIsStableOnReversed(a, opts, u);
      MergeSortIsStableOnReversed(b, opts, u);
      ReversedConcat(a, b);
      ReversedWithin(a, u);
      ReversedWithin(b, u);
      MergeOfStableSorts(Reversed(a), Reversed(b), opts, u);
    }
  }

  lemma MergeOfTwo(a: Entry, b: Entry, opts: SortOpts)
    ensures MergeSort([a, b], opts) == if Before(a, b, opts) then [a, b] else [b, a]
  {
    hide Before;
    assert [a, b][..1] == [a] && [a, b][1..] == [b];
    assert Merge([a], [b], opts)
        == if Before(a, b, opts) then [a] + Merge([], [b], opts) else [b] + Merge([a], [], opts);
  }

  /** Of two entries that are not close, one order of input comes out wrong. */
  lemma FarKeysMissort(a: Entry, b: Entry, opts: SortOpts)
    requires !Close(a, b, opts)
    ensures !Sorted(MergeSort([a, b], opts), opts) || !Sorted(MergeSort([b, a], opts), opts)
  {
    CompareExact(a, b, opts);
    FarKeysDiffer(a, b, opts);
    MergeOfTwo(a, b, opts);
    MergeOfTwo(b, a, opts);
    hide Before, KeyLess, Close, MergeSort;
    NotSorted(a, b, opts);
    NotSorted(b, a, opts);
    KeyLessOrders(a, b, a, opts);
  }

  lemma FarKeysDiffer(a: Entry, b: Entry, opts: SortOpts)
    requires !Close(a, b, opts)
    ensures KeyLess(a, b, opts) || KeyLess(b, a, opts)
  {
  }

  lemma NotSorted(a: Entry, b: Entry, opts: SortOpts)
    ensures KeyLess(b, a, opts) ==> !Sorted([a, b], opts)
  {
    assert [a, b][0] == a && [a, b][1] == b;
  }

  /** Sizes 0 and 3 GB, for one, come out in descending order. */
  lemma FarSizesMissort()
    ensures var a := Entry(0, 0, 0, 0, "a"); var b := Entry(0, 0xC000_0000, 0, 0, "b"); var opts := SortOptsOf(16);
      MergeSort([a, b], opts) == [b, a] && KeyLess(a, b, opts)
  {
    MergeOfTwo(Entry(0, 0, 0, 0, "a"), Entry(0, 0xC000_0000, 0, 0, "b"), SortOptsOf(16));
  }

  /** The sort yields sorted lists from all entries of a set if and only if every two of them are close. */
  lemma SortsExactlyCloseKeys(u: set<Entry>, opts: SortOpts)
    ensures (forall s :: Within(s, u) ==> Sorted(MergeSort(s, opts), opts)) <==> AllClose(u, opts)
  {
    if AllClose(u, opts) {
      forall s | Within(s, u)
        ensures Sorted(MergeSort(s, opts), opts)
      {
        MergeSortIsStableOnReversed(s, opts, u);
        StableSortMeaning(Reversed(s), opts);
      }
    } else {
      var a, b :| a in u && b in u && !Close(a, b, opts);
      FarKeysMissort(a, b, opts);
      assert Within([a, b], u) && Within([b, a], u);
    }
  }
}

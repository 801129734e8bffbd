/** The shuffled directory listing of the TNFS_DIR_EXT build (src/directory.c): the step is a prime, and
    exactly when it differs from the number of entries it visits every entry once. */
module Shuffle {
  import opened Endian

  predicate Prime(n: nat) {
    n >= 2 && forall d :: 2 <= d < n ==> n % d != 0
  }

  // ---------- Arithmetic ----------

  lemma MulMono(a: nat, b: nat, c: nat)
    requires a <= b
    ensures a * c <= b * c
  {
    assert b * c == a * c + (b - a) * c;
  }

  lemma MulMono2(a: nat, b: nat, c: nat, d: nat)
    requires a <= b && c <= d
    ensures a * c <= b * d
  {
    MulMono(a, b, c);
    MulMono(c, d, b);
    assert b * c == c * b && b * d == d * b;
  }

  lemma MultipleIsLarge(d: int, k: int)
    requires d > 0 && k != 0
    ensures d * k >= d || d * k <= -d
  {
    if k >= 1 {
      MulMono(1, k, d);
    } else {
      MulMono(1, -k, d);
    }
  }

  lemma QuotientIsUnique(d: int, q: int, r: nat)
    requires r < d
    ensures (d * q + r) % d == r && (d * q + r) / d == q
  {
    var n := d * q + r;
    assert n == d * (n / d) + n % d;
    var k := q - n / d;
    assert d * k == d * q - d * (n / d);
    if k != 0 {
      MultipleIsLarge(d, k);
    }
  }

  lemma MultipleHasNoRest(k: int, d: nat)
    requires d > 0
    ensures k * d % d == 0 && k * d / d == k
  {
    assert k * d == d * k + 0;
    QuotientIsUnique(d, k, 0);
  }

  lemma NoRestIsMultiple(n: int, d: nat)
    requires d > 0 && n % d == 0
    ensures n == n / d * d
  {
    assert n == d * (n / d) + n % d;
  }

  // ---------- The primality test ----------

  /** What the test answers for an odd number: 1 passes and 3 fails, against the truth. */
  predicate Passes(n: nat) {
    n == 1 || (n != 3 && Prime(n))
  }

  function Square(n: nat): nat { n * n }

  /** Of a divisor and its cofactor one is at most the root. */
  lemma SmallDivisor(n: nat, m: nat, d: nat) returns (s: nat)
    requires 2 <= d < n <= Square(m) && n % d == 0
    ensures 2 <= s <= m && s < n && n % s == 0
  {
    var e := n / d;
    NoRestIsMultiple(n, d);
    CofactorIsProper(n, d, e);
    assert n == d * e;
    MultipleHasNoRest(d, e);
    s := if d <= m then d else e;
    if d > m && e > m {
      BothLarge(m, d, e);
    }
  }

  lemma CofactorIsProper(n: nat, d: nat, e: nat)
    requires n == e * d && 2 <= d < n
    ensures 2 <= e < n
  {
    if e <= 1 {
      MulMono(e, 1, d);
    } else {
      MulMono2(e, e, 2, d);
    }
  }

  lemma BothLarge(m: nat, d: nat, e: nat)
    requires d > m && e > m
    ensures e * d > Square(m)
  {
    MulMono2(m + 1, e, m + 1, d);
    assert (m + 1) * (m + 1) == m * m + 2 * m + 1;
  }

  predicate NoDivisorBelow(n: nat, m: nat) {
    forall d :: 2 <= d < m ==> n % d != 0
  }

  /** A number below the square of m with no divisor below m is prime. */
  lemma NoSmallDivisor(n: nat, m: nat)
    requires 2 <= n <= Square(m) && m > 0 && NoDivisorBelow(n, m) && !Divides(m, n)
    ensures Prime(n)
  {
    hide Square;
    forall d | 2 <= d < n
      ensures n % d != 0
    {
      if n % d == 0 {
        var s := SmallDivisor(n, m, d);
      }
    }
  }

  lemma MultipleOfEven(n: nat, d: nat)
    requires d % 2 == 0 && d > 0 && n % d == 0
    ensures n % 2 == 0
  {
    NoRestIsMultiple(n, d);
    var k := n / d;
    assert n == k * (d / 2) * 2;
    MultipleHasNoRest(k * (d / 2), 2);
  }

  lemma EvenDoesNotDivide(n: nat, d: nat)
    requires n % 2 == 1 && d % 2 == 0 && d > 0
    ensures n % d != 0
  {
    if n % d == 0 {
      MultipleOfEven(n, d);
    }
  }

  /** The next odd square, and when it no longer fits 32 bits. */
  lemma NextSquare(d: nat)
    requires 3 <= d <= 65535
    ensures Square(d) + 4 * (d + 1) == Square(d + 2)
    ensures Square(d) < 0x1_0000_0000
    ensures d <= 65533 ==> Square(d + 2) < 0x1_0000_0000
    ensures d >= 65534 ==> 0x1_0000_0000 <= Square(d + 2) < 0x1_0000_0000 + Square(d)
    ensures Square(65536) == 0x1_0000_0000
  {
    MulMono2(d, 65535, d, 65535);
    if d <= 65533 {
      MulMono2(d + 2, 65535, d + 2, 65535);
    }
  }

  /** A number is its own first divisor only if it is 3. */
  lemma SquareExceeds(d: nat, n: nat)
    requires d > 3 && Square(d - 2) < n
    ensures d < n
  {
    MulMono2(2, d - 2, d - 2, d - 2);
    assert d - 2 >= 2 && 2 * (d - 2) <= Square(d - 2);
  }

  predicate Divides(d: nat, n: nat)
    requires d > 0
  {
    n % d == 0
  }

  /** What a turn of the loop does to the divisor and its square. */
  lemma NextTurn(n: nat, d: nat)
    requires n % 2 == 1 && d % 2 == 1 && 3 <= d <= 65535 && NoDivisorBelow(n, d) && !Divides(d, n)
    ensures NoDivisorBelow(n, d + 1) && NoDivisorBelow(n, d + 2) && !Divides(d + 1, n)
    ensures var sq := (Square(d) + 4 * (d + 1)) % 0x1_0000_0000;
      if d == 65535 then sq < Square(d) && Square(d + 1) == 0x1_0000_0000 else sq == Square(d + 2) >= Square(d)
  {
    EvenDoesNotDivide(n, d + 1);
    NextSquare(d);
  }

  /** is_prime, with the square of the divisor kept in 32 bits: when it wraps, every divisor that could
      matter has been tried. */
  method IsPrime(candidate: U32) returns (prime: bool)
    requires candidate % 2 == 1
    ensures prime <==> Passes(candidate)
  {
    hide Square, Prime, NoDivisorBelow, Divides;
    var divn: nat, sq: nat := 3, 9;
    FirstTurn(candidate);
    while sq < candidate && !Divides(divn, candidate)
      invariant 3 <= divn <= 65535 && divn % 2 == 1 && sq == Square(divn) >= 9
      invariant divn > 3 ==> Square(divn - 2) < candidate && candidate > 9
      invariant NoDivisorBelow(candidate, divn)
      decreases 65535 - divn
    {
      NextTurn(candidate, divn);
      var oldSq := sq;
      divn := divn + 1;
      sq := (sq + 4 * divn) % 0x1_0000_0000;
      if sq < oldSq {
        NoSmallDivisor(candidate, divn);
        return true;
      }
      divn := divn + 1;
    }
    prime := !Divides(divn, candidate);
    if candidate >= 5 {
      if prime {
        NoSmallDivisor(candidate, divn);
      } else {
        Composite(candidate, divn);
      }
    }
  }

  lemma FirstTurn(n: nat)
    requires n % 2 == 1
    ensures Square(3) == 9 && NoDivisorBelow(n, 3) && !Divides(3, 1) && Divides(3, 3)
  {
  }

  lemma Composite(n: nat, d: nat)
    requires d >= 3 && n >= 5 && Divides(d, n) && (d > 3 ==> Square(d - 2) < n)
    ensures !Prime(n)
  {
    if d > 3 {
      SquareExceeds(d, n);
    }
    assert n % d == 0;
  }

  /** One odd number on, in 32 bits. */
  function NextOdd(c: U32): U32 {
    (c + 2) % 0x1_0000_0000
  }

  /** next_prime: the first number from the seed on, made odd, that passes the test; the search ends because
      after wrapping round it meets 1. */
  method NextPrime(seed: U32) returns (p: U32)
    ensures p % 2 == 1 && Passes(p)
    ensures p >= seed || p == 1
    ensures forall c :: seed <= c < (if p >= seed then p else 0x1_0000_0000) && c % 2 == 1 ==> !Passes(c)
  {
    hide Prime;
    p := if seed % 2 == 1 then seed else seed + 1;
    ghost var wrapped := false;
    var prime := IsPrime(p);
    while !prime
      invariant p % 2 == 1 && (prime <==> Passes(p))
      invariant if wrapped then p == 1 else p >= seed
      invariant forall c :: seed <= c < (if wrapped then 0x1_0000_0000 else p) && c % 2 == 1 ==> !Passes(c)
      decreases if wrapped then 0 else 0x1_0000_0000 - p
    {
      if p == 0xFFFF_FFFF {
        wrapped := true;
      }
      p := NextOdd(p);
      prime := IsPrime(p);
    }
  }

  // ---------- The walk ----------

  /** The index visited in turn k. */
  function At(start: nat, inc: nat, total: nat, k: nat): nat
    requires total > 0
  {
    (start + k * inc) % total
  }

  /** The iteration of tnfs_readdir with nothing filtered: the indices in the order they are visited. */
  method Walk(start: nat, inc: nat, total: nat) returns (order: seq<nat>)
    requires start < total
    ensures |order| == total && forall k :: 0 <= k < total ==> order[k] == At(start, inc, total, k)
  {
    order := [];
    var at, visited := start, 0;
    AtStart(start, inc, total);
    while visited < total
      invariant visited == |order| <= total && at == At(start, inc, total, visited)
      invariant forall k :: 0 <= k < visited ==> order[k] == At(start, inc, total, k)
    {
      order := order + [at];
      AtNext(start, inc, total, visited);
      at := (at + inc) % total;
      visited := visited + 1;
    }
  }

  lemma AtStart(start: nat, inc: nat, total: nat)
    requires start < total
    ensures At(start, inc, total, 0) == start
  {
  }

  lemma AtNext(start: nat, inc: nat, total: nat, k: nat)
    requires total > 0
    ensures At(start, inc, total, k + 1) == (At(start, inc, total, k) + inc) % total
  {
    var a, q := start + k * inc, (start + k * inc) / total;
    assert a == total * q + a % total;
    assert start + (k + 1) * inc == a + inc;
    var b := a % total + inc;
    assert b == total * (b / total) + b % total;
    assert a + inc == total * (q + b / total) + b % total;
    QuotientIsUnique(total, q + b / total, b % total);
  }

  // ---------- Every index once ----------

  /** Euclid's lemma: a prime that divides a product divides a factor. */
  lemma {:induction false} PrimeDividesFactor(p: nat, a: nat, b: nat)
    requires Prime(p) && 0 < a < p && a * b % p == 0
    ensures b % p == 0
    decreases a
  {
    if a == 1 {
    } else {
      var r := p % a;
      assert p % a != 0;
      RestOfProduct(p, a, b, p / a, r);
      PrimeDividesFactor(p, r, b);
    }
  }

  lemma RestOfProduct(p: nat, a: nat, b: nat, k: nat, r: nat)
    requires p > 0 && p == a * k + r && a * b % p == 0
    ensures r * b % p == 0
  {
    NoRestIsMultiple(a * b, p);
    var q := a * b / p;
    assert r * b == p * b - a * k * b;
    assert a * k * b == k * (a * b) == k * (q * p) == k * q * p;
    assert r * b == (b - k * q) * p by { assert (b - k * q) * p == b * p - k * q * p; }
    MultipleHasNoRest(b - k * q, p);
  }

  /** A prime step larger than the number of entries does not come back to an index early. */
  lemma StepsDoNotMeet(inc: nat, total: nat, m: nat)
    requires Prime(inc) && 0 < total < inc && 0 < m < total
    ensures m * inc % total != 0
  {
    if m * inc % total == 0 {
      NoRestIsMultiple(m * inc, total);
      var q := m * inc / total;
      assert total * q % inc == 0 by {
        assert total * q == m * inc;
        MultipleHasNoRest(m, inc);
      }
      PrimeDividesFactor(inc, total, q);
      TooSmall(inc, total, m, q);
    }
  }

  lemma TooSmall(inc: nat, total: nat, m: nat, q: nat)
    requires inc > 0 && q % inc == 0 && m * inc == q * total && m > 0
    ensures m >= total
  {
    NoRestIsMultiple(q, inc);
    var k := q / inc;
    assert m * inc == k * total * inc by { assert k * inc * total == k * total * inc; }
    Cancel(m, k * total, inc);
    assert k != 0;
    MulMono(1, k, total);
  }

  lemma Cancel(a: int, b: int, c: nat)
    requires c > 0 && a * c == b * c
    ensures a == b
  {
    MultipleHasNoRest(a, c);
    MultipleHasNoRest(b, c);
  }

  lemma SameRest(a: nat, b: nat, t: nat)
    requires t > 0 && a <= b && a % t == b % t
    ensures (b - a) % t == 0
  {
    assert a == t * (a / t) + a % t && b == t * (b / t) + b % t;
    assert b - a == (b / t - a / t) * t;
    MultipleHasNoRest(b / t - a / t, t);
  }

  predicate Different(start: nat, inc: nat, total: nat)
    requires total > 0
  {
    forall j, k :: 0 <= j < k < total ==> At(start, inc, total, j) != At(start, inc, total, k)
  }

  predicate Visits(start: nat, inc: nat, total: nat, x: nat)
    requires total > 0
  {
    exists k :: 0 <= k < total && At(start, inc, total, k) == x
  }

  lemma Distribute(j: nat, k: nat, inc: nat)
    requires j <= k
    ensures k * inc - j * inc == (k - j) * inc && j * inc <= k * inc
  {
    MulMono(j, k, inc);
  }

  lemma TurnsDiffer(start: nat, inc: nat, total: nat, j: nat, k: nat)
    requires Passes(inc) && 0 < total && (total < inc || inc == 1) && j < k < total
    ensures At(start, inc, total, j) != At(start, inc, total, k)
  {
    hide Passes;
    NoMeeting(inc, total, k - j);
    Distribute(j, k, inc);
    var a, b := j * inc, k * inc;
    if (start + a) % total == (start + b) % total {
      SameRest(start + a, start + b, total);
    }
  }

  lemma NoMeeting(inc: nat, total: nat, m: nat)
    requires Passes(inc) && 0 < total && (total < inc || inc == 1) && 0 < m < total
    ensures m * inc % total != 0
  {
    if inc != 1 {
      StepsDoNotMeet(inc, total, m);
    }
  }

  /** With the number of entries itself as the step, the walk stays where it started. */
  lemma StaysInPlace(start: nat, total: nat, k: nat)
    requires start < total
    ensures At(start, total, total, k) == start
  {
    assert start + k * total == total * k + start;
    QuotientIsUnique(total, k, start);
  }

  function Below(n: nat): (s: set<nat>)
    ensures |s| == n && forall x: nat :: x in s <==> x < n
  {
    if n == 0 then {}
    else
      var s := Below(n - 1);
      assert n - 1 !in s;
      s + {n - 1}
  }

  function Visited(start: nat, inc: nat, total: nat, n: nat): (s: set<nat>)
    requires total > 0
    ensures forall x :: x in s <==> exists k :: 0 <= k < n && At(start, inc, total, k) == x
  {
    set k | 0 <= k < n :: At(start, inc, total, k)
  }

  lemma VisitedNext(start: nat, inc: nat, total: nat, n: nat)
    requires total > 0 && n < total && Different(start, inc, total)
    ensures At(start, inc, total, n) !in Visited(start, inc, total, n)
    ensures Visited(start, inc, total, n + 1) == Visited(start, inc, total, n) + {At(start, inc, total, n)}
  {
    hide At;
  }

  lemma NoneVisited(start: nat, inc: nat, total: nat)
    requires total > 0
    ensures Visited(start, inc, total, 0) == {}
  {
  }

  lemma OneLarger(s: set<nat>, x: nat)
    requires x !in s
    ensures |s + {x}| == |s| + 1
  {
  }

  lemma {:induction false} VisitedGrows(start: nat, inc: nat, total: nat, n: nat)
    requires total > 0 && n <= total && Different(start, inc, total)
    ensures |Visited(start, inc, total, n)| == n
  {
    hide At, Visited, Different;
    if n == 0 {
      NoneVisited(start, inc, total);
    } else {
      VisitedGrows(start, inc, total, n - 1);
      VisitedNext(start, inc, total, n - 1);
      OneLarger(Visited(start, inc, total, n - 1), At(start, inc, total, n - 1));
    }
  }

  lemma FullSubset(s: set<nat>, n: nat)
    requires s <= Below(n) && |s| == n
    ensures s == Below(n)
  {
    var rest := Below(n) - s;
    assert Below(n) == s + rest;
    assert |Below(n)| == |s| + |rest|;
  }

  /** The shuffle visits every entry exactly once if and only if its step is not the number of entries; the
      step is what next_prime yields for at least that number. */
  lemma ShuffleVisitsEachOnce(start: nat, inc: nat, total: nat)
    requires Passes(inc) && start < total && 2 <= total && (total <= inc || inc == 1)
    ensures inc != total <==> Different(start, inc, total)
    ensures inc != total <==> forall x :: 0 <= x < total ==> Visits(start, inc, total, x)
  {
    hide At, Passes, Below;
    if inc == total {
      StaysInPlace(start, total, 0);
      StaysInPlace(start, total, 1);
      forall k: nat
        ensures At(start, total, total, k) == start
      {
        StaysInPlace(start, total, k);
      }
      assert !Visits(start, inc, total, if start == 0 then 1 else 0);
    } else {
      forall j, k | 0 <= j < k < total
        ensures At(start, inc, total, j) != At(start, inc, total, k)
      {
        TurnsDiffer(start, inc, total, j, k);
      }
      VisitedGrows(start, inc, total, total);
      InRange(start, inc, total);
      FullSubset(Visited(start, inc, total, total), total);
      forall x | 0 <= x < total
        ensures Visits(start, inc, total, x)
      {
        assert x in Visited(start, inc, total, total);
      }
    }
  }

  lemma InRange(start: nat, inc: nat, total: nat)
    requires total > 0
    ensures Visited(start, inc, total, total) <= Below(total)
  {
  }
}

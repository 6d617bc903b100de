/** The primes and primitive roots tabulated for the UMTS interleaver: every tabulated root generates all
    the units modulo its prime. */
module PrimitiveRoots {
  import opened NumberTheory
  import TurboInterleaver

  /** The sequence s of the interleaver: v^i modulo p, one multiplication at a time. */
  function Power(v: nat, p: nat, i: nat): (s: nat)
    requires p > 1
    ensures s < p
  {
    if i == 0 then 1 else (v * Power(v, p, i - 1)) % p
  }

  /** The powers of v below p - 1 are different units modulo p. */
  ghost predicate PrimitiveRoot(p: nat, v: nat) {
    && p > 2
    && (forall i :: 0 <= i < p - 1 ==> Power(v, p, i) > 0)
    && forall i, j :: 0 <= i < j < p - 1 ==> Power(v, p, i) != Power(v, p, j)
  }

  lemma ModTimes(a: nat, b: nat, p: nat)
    requires p > 0
    ensures (a % p * b) % p == (a * b) % p
  {
    var q, r := a / p, a % p;
    assert a * b == p * (q * b) + r * b by { assert a == p * q + r; }
    var t := (r * b) % p;
    var u := (r * b) / p;
    assert r * b == p * u + t;
    assert a * b == p * (q * b + u) + t;
    ModUnique(a * b, p, q * b + u, t);
  }

  lemma {:induction false} PowerSum(v: nat, p: nat, i: nat, j: nat)
    requires p > 1
    ensures Power(v, p, i + j) == (Power(v, p, i) * Power(v, p, j)) % p
    decreases i
  {
    var b := Power(v, p, j);
    if i == 0 {
      ModUnique(b, p, 0, b);
    } else {
      PowerSum(v, p, i - 1, j);
      TimesLater(v, p, Power(v, p, i - 1), b);
      assert i + j - 1 == i - 1 + j;
    }
  }

  lemma TimesLater(v: nat, p: nat, a: nat, b: nat)
    requires p > 0
    ensures (v * ((a * b) % p)) % p == ((v * a) % p * b) % p
  {
    ModTimes(a * b, v, p);
    ModTimes(v * a, b, p);
    assert (a * b) * v == (v * a) * b;
    assert v * ((a * b) % p) == (a * b) % p * v;
  }

  lemma {:induction false} PowerOfOne(v: nat, p: nat, e: nat, k: nat)
    requires p > 1 && Power(v, p, e) == 1
    ensures Power(v, p, e * k) == 1
    decreases k
  {
    hide Power;
    PowerZero(v, p);
    if k == 0 {
      assert e * 0 == 0;
    } else {
      PowerOfOne(v, p, e, k - 1);
      PowerSum(v, p, e, e * (k - 1));
      assert e * k == e + e * (k - 1);
      ModUnique(1, p, 0, 1);
    }
  }

  /** Primes below 121, by their four small possible divisors. */
  predicate SmallPrime(q: nat) {
    q == 2 || q == 3 || q == 5 || q == 7 || (7 < q < 121 && q % 2 != 0 && q % 3 != 0 && q % 5 != 0 && q % 7 != 0)
  }

  lemma SmallPrimeIsPrime(q: nat)
    requires SmallPrime(q)
    ensures IsPrime(q)
  {
    forall d {:trigger Divides(d, q)} | 2 <= d < q
      ensures !Divides(d, q)
    {
      if Divides(d, q) {
        var e := q / d;
        assert q == d * e;
        assert e >= 2 by { if e <= 1 { MulOrder(d, e, 1); MulOrder(d, 1, e); } }
        if d <= 10 {
          NoSmallDivisor(q, d);
        } else {
          assert e <= 10 by { if e >= 11 { MulOrder(d, 10, e); MulOrder(11, 10, d); } }
          MultipleDivides(e, d);
          if e < q { NoSmallDivisor(q, e); } else { MulOrder(e, 1, d); }
        }
      }
    }
  }

  lemma NoSmallDivisor(q: nat, d: nat)
    requires SmallPrime(q) && 2 <= d <= 10 && d < q
    ensures !Divides(d, q)
  {
    if Divides(d, q) && q > 7 {
      var r := if d % 2 == 0 then 2 else if d % 3 == 0 then 3 else d;
      DividesTransitive(r, d, q);
    } else if q == 7 {
      assert d == 2 || d == 3 || d == 4 || d == 5 || d == 6;
    }
  }

  /** v^e is one when e is a multiple of the order, and the order of v divides p - 1. */
  lemma LeastExponent(v: nat, p: nat, d: nat) returns (e: nat)
    requires p > 1 && d > 0 && Power(v, p, d) == 1
    ensures 0 < e <= d && Power(v, p, e) == 1
    ensures forall k :: 0 < k < e ==> Power(v, p, k) != 1
    decreases d
  {
    if k :| 0 < k < d && Power(v, p, k) == 1 {
      e := LeastExponent(v, p, k);
    } else {
      e := d;
    }
  }

  lemma OrderDivides(v: nat, p: nat, e: nat, n: nat)
    requires p > 1 && e > 0 && Power(v, p, e) == 1 && Power(v, p, n) == 1
    requires forall k :: 0 < k < e ==> Power(v, p, k) != 1
    ensures Divides(e, n)
  {
    var k, r := n / e, n % e;
    assert n == e * k + r;
    PowerOfOne(v, p, e, k);
    PowerSum(v, p, e * k, r);
    assert 1 * Power(v, p, r) == Power(v, p, r);
    ModUnique(Power(v, p, r), p, 0, Power(v, p, r));
  }

  /** What is tabulated about a root beside its value: half way round it is -1, and the odd primes q1, q2, q3
      (repeated, or 2, where p - 1 has fewer) are, with 2, all the primes of p - 1 and none shortens the orbit. */
  predicate Shortens(p: nat, v: nat, q: nat)
    requires p > 1
  {
    q > 0 && Power(v, p, (p - 1) / q) == 1
  }

  predicate PrimeOf(p: nat, q: nat) {
    SmallPrime(q) && p > 1 && (p - 1) % q == 0
  }

  predicate Radical(n: nat, b: int) {
    n > 0 && (b * b * b * b * b * b * b) % n == 0
  }

  lemma RootFromPrimes(p: nat, v: nat, q1: nat, q2: nat, q3: nat)
    requires p > 2 && PrimeOf(p, 2) && Power(v, p, (p - 1) / 2) == p - 1
    requires PrimeOf(p, q1) && PrimeOf(p, q2) && PrimeOf(p, q3) && Radical(p - 1, 2 * q1 * q2 * q3)
    requires !Shortens(p, v, q1) && !Shortens(p, v, q2) && !Shortens(p, v, q3)
    ensures PrimitiveRoot(p, v)
  {
    hide Power, PrimeOf, Radical, Shortens, PrimitiveRoot;
    FullTurn(p, v);
    forall d | 0 < d < p - 1
      ensures Power(v, p, d) != 1
    {
      if Power(v, p, d) == 1 {
        ghost var r := ShortOrbit(p, v, q1, q2, q3, d);
        assert false;
      }
    }
    OrbitIsDistinct(p, v);
  }

  /** An orbit that closes early also closes after (p - 1) / r steps for a prime r of p - 1. */
  lemma ShortOrbit(p: nat, v: nat, q1: nat, q2: nat, q3: nat, d: nat) returns (r: nat)
    requires p > 2 && Power(v, p, p - 1) == 1 && Power(v, p, d) == 1 && 0 < d < p - 1
    requires PrimeOf(p, 2) && PrimeOf(p, q1) && PrimeOf(p, q2) && PrimeOf(p, q3) && Radical(p - 1, 2 * q1 * q2 * q3)
    ensures (r == 2 || r == q1 || r == q2 || r == q3) && Shortens(p, v, r)
  {
    hide Power, SmallPrime, Radical;
    var e := LeastExponent(v, p, d);
    OrderDivides(v, p, e, p - 1);
    MulNonNegative(q1, q2);
    MulNonNegative(q1 * q2, q3);
    assert 2 * q1 * q2 * q3 == 2 * (q1 * q2 * q3);
    r := PrimeOfCofactor(p - 1, e, 2 * q1 * q2 * q3);
    WhichPrime(r, q1, q2, q3);
    PowerOfOne(v, p, e, ((p - 1) / r) / e);
  }

  lemma FullTurn(p: nat, v: nat)
    requires p > 2 && PrimeOf(p, 2) && Power(v, p, (p - 1) / 2) == p - 1
    ensures Power(v, p, p - 1) == 1 && !Shortens(p, v, 2)
  {
    hide Power;
    var h := (p - 1) / 2;
    assert h + h == p - 1;
    PowerSum(v, p, h, h);
    assert (p - 1) * (p - 1) == p * (p - 2) + 1;
    ModUnique((p - 1) * (p - 1), p, p - 2, 1);
  }

  /** A proper divisor e of n leaves a prime of n out: n / r is still a multiple of e. */
  lemma PrimeOfCofactor(n: nat, e: nat, b: nat) returns (r: nat)
    requires 0 < e < n && Divides(e, n) && Radical(n, b)
    ensures IsPrime(r) && Divides(r, n) && Divides(r, b)
    ensures n / r >= 0 && (n / r) == e * ((n / r) / e)
  {
    var h := n / e;
    assert n == e * h;
    assert h >= 2 by { if h <= 1 { MulOrder(e, h, 1); MulOrder(e, 1, h); } }
    r := SmallestPrimeFactor(h);
    var c := h / r;
    assert h == r * c;
    MulNonNegative(e, c);
    assert n == r * (e * c) by { assert e * (r * c) == r * (e * c); }
    MultipleDivides(r, e * c);
    ModUnique(n, r, e * c, 0);
    assert n / r == e * c;
    MultipleDivides(e, c);
    assert Divides(e, e * c);
    RadicalPrime(n, b, r);
  }

  lemma RadicalPrime(n: nat, b: nat, r: nat)
    requires Radical(n, b) && IsPrime(r) && Divides(r, n)
    ensures Divides(r, b)
  {
    DividesTransitive(r, n, b * b * b * b * b * b * b);
    TurboInterleaver.PrimeOfPower7(r, b);
  }

  lemma WhichPrime(r: nat, q1: nat, q2: nat, q3: nat)
    requires IsPrime(r) && Divides(r, 2 * q1 * q2 * q3)
    requires SmallPrime(2) && SmallPrime(q1) && SmallPrime(q2) && SmallPrime(q3)
    ensures r == 2 || r == q1 || r == q2 || r == q3
  {
    hide SmallPrime, Divides;
    MulNonNegative(q1, q2);
    assert 2 * q1 * q2 == 2 * (q1 * q2);
    Euclid(r, 2 * q1 * q2, q3);
    if Divides(r, q3) {
      OnlyItself(r, q3);
    } else {
      Euclid(r, 2 * q1, q2);
      if Divides(r, q2) {
        OnlyItself(r, q2);
      } else {
        Euclid(r, 2, q1);
        if Divides(r, q1) { OnlyItself(r, q1); } else { OnlyItself(r, 2); }
      }
    }
  }

  lemma OnlyItself(r: nat, q: nat)
    requires IsPrime(r) && SmallPrime(q) && Divides(r, q)
    ensures r == q
  {
    SmallPrimeIsPrime(q);
    if r > q { ModUnique(q, r, 0, q); }
  }

  lemma MulZero(a: int)
    ensures 0 * a == 0
  {
  }

  lemma OrbitIsDistinct(p: nat, v: nat)
    requires p > 2 && Power(v, p, p - 1) == 1
    requires forall d :: 0 < d < p - 1 ==> Power(v, p, d) != 1
    ensures PrimitiveRoot(p, v)
  {
    hide Power;
    var n := p - 1;
    forall i | 0 <= i < n
      ensures Power(v, p, i) > 0
    {
      PowerSum(v, p, i, n - i);
      ModUnique(0, p, 0, 0);
      if Power(v, p, i) == 0 { MulZero(Power(v, p, n - i)); }
    }
    forall i, j | 0 <= i < j < n
      ensures Power(v, p, i) != Power(v, p, j)
    {
      PowerSum(v, p, i, n - i);
      PowerSum(v, p, j, n - i);
      PowerSum(v, p, n, j - i);
      assert j + (n - i) == n + (j - i);
      assert 1 * Power(v, p, j - i) == Power(v, p, j - i);
      ModUnique(Power(v, p, j - i), p, 0, Power(v, p, j - i));
    }
  }

  /** One rung of left-to-right exponentiation. */
  predicate Rung(p: nat, v: nat, bit: nat, x: nat, y: nat)
    requires p > 0
  {
    y == (x * x * if bit == 1 then v else 1) % p
  }

  lemma Climb(p: nat, v: nat, e: nat, x: nat, y: nat)
    requires p > 1 && x == Power(v, p, e / 2) && Rung(p, v, e % 2, x, y)
    ensures y == Power(v, p, e)
  {
    var h := e / 2;
    PowerSum(v, p, h, h);
    if e % 2 == 1 {
      ModTimes(x * x, v, p);
      assert v * Power(v, p, h + h) == Power(v, p, h + h) * v;
      assert e == h + h + 1;
    } else {
      assert x * x * 1 == x * x;
    }
  }

  lemma Halving(e: nat)
    requires e < 256
    ensures e / 128 / 2 == 0 && e / 64 / 2 == e / 128 && e / 32 / 2 == e / 64 && e / 16 / 2 == e / 32
    ensures e / 8 / 2 == e / 16 && e / 4 / 2 == e / 8 && e / 2 / 2 == e / 4
  {
  }

  /** v^e modulo p through the eight leading parts of the exponent. */
  lemma Ladder(p: nat, v: nat, e: nat, x1: nat, x2: nat, x3: nat, x4: nat, x5: nat, x6: nat, x7: nat, x8: nat)
    requires p > 1 && e < 256
    requires Rung(p, v, e / 128 % 2, 1, x1) && Rung(p, v, e / 64 % 2, x1, x2) && Rung(p, v, e / 32 % 2, x2, x3)
    requires Rung(p, v, e / 16 % 2, x3, x4) && Rung(p, v, e / 8 % 2, x4, x5) && Rung(p, v, e / 4 % 2, x5, x6)
    requires Rung(p, v, e / 2 % 2, x6, x7) && Rung(p, v, e % 2, x7, x8)
    ensures Power(v, p, e) == x8
  {
    hide Rung, Power;
    PowerZero(v, p);
    Halving(e);
    Climb(p, v, e / 128, 1, x1);
    Climb(p, v, e / 64, x1, x2);
    Climb(p, v, e / 32, x2, x3);
    Climb(p, v, e / 16, x3, x4);
    Climb(p, v, e / 8, x4, x5);
    Climb(p, v, e / 4, x5, x6);
    Climb(p, v, e / 2, x6, x7);
    Climb(p, v, e, x7, x8);
  }

  lemma PowerZero(v: nat, p: nat)
    requires p > 1
    ensures Power(v, p, 0) == 1
  {
  }

  const NOF_PRIMES := 52

  function Of4(k: int, a: nat, b: nat, c: nat, d: nat): nat {
    if k < 2 then if k < 1 then a else b else if k < 3 then c else d
  }

  function TableP(i: nat): nat
    requires i < NOF_PRIMES
  {
    if i < 4 then Of4(i - 0, 7, 11, 13, 17)
    else if i < 8 then Of4(i - 4, 19, 23, 29, 31)
    else if i < 12 then Of4(i - 8, 37, 41, 43, 47)
    else if i < 16 then Of4(i - 12, 53, 59, 61, 67)
    else if i < 20 then Of4(i - 16, 71, 73, 79, 83)
    else if i < 24 then Of4(i - 20, 89, 97, 101, 103)
    else if i < 28 then Of4(i - 24, 107, 109, 113, 127)
    else if i < 32 then Of4(i - 28, 131, 137, 139, 149)
    else if i < 36 then Of4(i - 32, 151, 157, 163, 167)
    else if i < 40 then Of4(i - 36, 173, 179, 181, 191)
    else if i < 44 then Of4(i - 40, 193, 197, 199, 211)
    else if i < 48 then Of4(i - 44, 223, 227, 229, 233)
    else Of4(i - 48, 239, 241, 251, 257)
  }

  function TableV(i: nat): nat
    requires i < NOF_PRIMES
  {
    if i < 4 then Of4(i - 0, 3, 2, 2, 3)
    else if i < 8 then Of4(i - 4, 2, 5, 2, 3)
    else if i < 12 then Of4(i - 8, 2, 6, 3, 5)
    else if i < 16 then Of4(i - 12, 2, 2, 2, 2)
    else if i < 20 then Of4(i - 16, 7, 5, 3, 2)
    else if i < 24 then Of4(i - 20, 3, 5, 2, 5)
    else if i < 28 then Of4(i - 24, 2, 6, 3, 3)
    else if i < 32 then Of4(i - 28, 2, 3, 2, 2)
    else if i < 36 then Of4(i - 32, 6, 5, 2, 5)
    else if i < 40 then Of4(i - 36, 2, 2, 2, 19)
    else if i < 44 then Of4(i - 40, 5, 2, 3, 2)
    else if i < 48 then Of4(i - 44, 3, 2, 6, 3)
    else Of4(i - 48, 7, 7, 6, 3)
  }

  lemma RootsFrom0()
    ensures PrimitiveRoot(7, 3) && PrimitiveRoot(11, 2)
  {
    hide Power, PrimitiveRoot;
    Ladder(7, 3, 3, 1, 1, 1, 1, 1, 1, 3, 6);
    Ladder(7, 3, 2, 1, 1, 1, 1, 1, 1, 3, 2);
    RootFromPrimes(7, 3, 3, 3, 3);
    Ladder(11, 2, 5, 1, 1, 1, 1, 1, 2, 4, 10);
    Ladder(11, 2, 2, 1, 1, 1, 1, 1, 1, 2, 4);
    RootFromPrimes(11, 2, 5, 5, 5);
  }

  lemma RootsFrom2()
    ensures PrimitiveRoot(13, 2) && PrimitiveRoot(17, 3)
  {
    hide Power, PrimitiveRoot;
    Ladder(13, 2, 6, 1, 1, 1, 1, 1, 2, 8, 12);
    Ladder(13, 2, 4, 1, 1, 1, 1, 1, 2, 4, 3);
    RootFromPrimes(13, 2, 3, 3, 3);
    Ladder(17, 3, 8, 1, 1, 1, 1, 3, 9, 13, 16);
    RootFromPrimes(17, 3, 2, 2, 2);
  }

  lemma RootsFrom4()
    ensures PrimitiveRoot(19, 2) && PrimitiveRoot(23, 5)
  {
    hide Power, PrimitiveRoot;
    Ladder(19, 2, 9, 1, 1, 1, 1, 2, 4, 16, 18);
    Ladder(19, 2, 6, 1, 1, 1, 1, 1, 2, 8, 7);
    RootFromPrimes(19, 2, 3, 3, 3);
    Ladder(23, 5, 11, 1, 1, 1, 1, 5, 2, 20, 22);
    Ladder(23, 5, 2, 1, 1, 1, 1, 1, 1, 5, 2);
    RootFromPrimes(23, 5, 11, 11, 11);
  }

  lemma RootsFrom6()
    ensures PrimitiveRoot(29, 2) && PrimitiveRoot(31, 3)
  {
    hide Power, PrimitiveRoot;
    Ladder(29, 2, 14, 1, 1, 1, 1, 2, 8, 12, 28);
    Ladder(29, 2, 4, 1, 1, 1, 1, 1, 2, 4, 16);
    RootFromPrimes(29, 2, 7, 7, 7);
    Ladder(31, 3, 15, 1, 1, 1, 1, 3, 27, 17, 30);
    Ladder(31, 3, 10, 1, 1, 1, 1, 3, 9, 26, 25);
    Ladder(31, 3, 6, 1, 1, 1, 1, 1, 3, 27, 16);
    RootFromPrimes(31, 3, 3, 5, 5);
  }

  lemma RootsFrom8()
    ensures PrimitiveRoot(37, 2) && PrimitiveRoot(41, 6)
  {
    hide Power, PrimitiveRoot;
    Ladder(37, 2, 18, 1, 1, 1, 2, 4, 16, 31, 36);
    Ladder(37, 2, 12, 1, 1, 1, 1, 2, 8, 27, 26);
    RootFromPrimes(37, 2, 3, 3, 3);
    Ladder(41, 6, 20, 1, 1, 1, 6, 36, 27, 32, 40);
    Ladder(41, 6, 8, 1, 1, 1, 1, 6, 36, 25, 10);
    RootFromPrimes(41, 6, 5, 5, 5);
  }

  lemma RootsFrom10()
    ensures PrimitiveRoot(43, 3) && PrimitiveRoot(47, 5)
  {
    hide Power, PrimitiveRoot;
    Ladder(43, 3, 21, 1, 1, 1, 3, 9, 28, 10, 42);
    Ladder(43, 3, 14, 1, 1, 1, 1, 3, 27, 37, 36);
    Ladder(43, 3, 6, 1, 1, 1, 1, 1, 3, 27, 41);
    RootFromPrimes(43, 3, 3, 7, 7);
    Ladder(47, 5, 23, 1, 1, 1, 5, 25, 23, 13, 46);
    Ladder(47, 5, 2, 1, 1, 1, 1, 1, 1, 5, 25);
    RootFromPrimes(47, 5, 23, 23, 23);
  }

  lemma RootsFrom12()
    ensures PrimitiveRoot(53, 2) && PrimitiveRoot(59, 2)
  {
    hide Power, PrimitiveRoot;
    Ladder(53, 2, 26, 1, 1, 1, 2, 8, 11, 30, 52);
    Ladder(53, 2, 4, 1, 1, 1, 1, 1, 2, 4, 16);
    RootFromPrimes(53, 2, 13, 13, 13);
    Ladder(59, 2, 29, 1, 1, 1, 2, 8, 10, 41, 58);
    Ladder(59, 2, 2, 1, 1, 1, 1, 1, 1, 2, 4);
    RootFromPrimes(59, 2, 29, 29, 29);
  }

  lemma RootsFrom14()
    ensures PrimitiveRoot(61, 2)
  {
    hide Power, PrimitiveRoot;
    Ladder(61, 2, 30, 1, 1, 1, 2, 8, 6, 11, 60);
    Ladder(61, 2, 20, 1, 1, 1, 2, 4, 32, 48, 47);
    Ladder(61, 2, 12, 1, 1, 1, 1, 2, 8, 3, 9);
    RootFromPrimes(61, 2, 3, 5, 5);
  }

  lemma RootsFrom15()
    ensures PrimitiveRoot(67, 2)
  {
    hide Power, PrimitiveRoot;
    Ladder(67, 2, 33, 1, 1, 2, 4, 16, 55, 10, 66);
    Ladder(67, 2, 22, 1, 1, 1, 2, 4, 32, 38, 37);
    Ladder(67, 2, 6, 1, 1, 1, 1, 1, 2, 8, 64);
    RootFromPrimes(67, 2, 3, 11, 11);
  }

  lemma RootsFrom16()
    ensures PrimitiveRoot(71, 7) && PrimitiveRoot(73, 5)
  {
    hide Power, PrimitiveRoot;
    Ladder(71, 7, 35, 1, 1, 7, 49, 58, 27, 62, 70);
    Ladder(71, 7, 14, 1, 1, 1, 1, 7, 59, 14, 54);
    Ladder(71, 7, 10, 1, 1, 1, 1, 7, 49, 51, 45);
    RootFromPrimes(71, 7, 5, 7, 7);
    Ladder(73, 5, 36, 1, 1, 5, 25, 41, 10, 27, 72);
    Ladder(73, 5, 24, 1, 1, 1, 5, 52, 3, 9, 8);
    RootFromPrimes(73, 5, 3, 3, 3);
  }

  lemma RootsFrom18()
    ensures PrimitiveRoot(79, 3) && PrimitiveRoot(83, 2)
  {
    hide Power, PrimitiveRoot;
    Ladder(79, 3, 39, 1, 1, 3, 9, 2, 12, 37, 78);
    Ladder(79, 3, 26, 1, 1, 1, 3, 27, 18, 24, 23);
    Ladder(79, 3, 6, 1, 1, 1, 1, 1, 3, 27, 18);
    RootFromPrimes(79, 3, 3, 13, 13);
    Ladder(83, 2, 41, 1, 1, 2, 4, 32, 28, 37, 82);
    Ladder(83, 2, 2, 1, 1, 1, 1, 1, 1, 2, 4);
    RootFromPrimes(83, 2, 41, 41, 41);
  }

  lemma RootsFrom20()
    ensures PrimitiveRoot(89, 3) && PrimitiveRoot(97, 5)
  {
    hide Power, PrimitiveRoot;
    Ladder(89, 3, 44, 1, 1, 3, 9, 65, 37, 34, 88);
    Ladder(89, 3, 8, 1, 1, 1, 1, 3, 9, 81, 64);
    RootFromPrimes(89, 3, 11, 11, 11);
    Ladder(97, 5, 48, 1, 1, 5, 28, 8, 64, 22, 96);
    Ladder(97, 5, 32, 1, 1, 5, 25, 43, 6, 36, 35);
    RootFromPrimes(97, 5, 3, 3, 3);
  }

  lemma RootsFrom22()
    ensures PrimitiveRoot(101, 2) && PrimitiveRoot(103, 5)
  {
    hide Power, PrimitiveRoot;
    Ladder(101, 2, 50, 1, 1, 2, 8, 64, 56, 10, 100);
    Ladder(101, 2, 20, 1, 1, 1, 2, 4, 32, 14, 95);
    RootFromPrimes(101, 2, 5, 5, 5);
    Ladder(103, 5, 51, 1, 1, 5, 22, 72, 34, 12, 102);
    Ladder(103, 5, 34, 1, 1, 5, 25, 7, 49, 57, 56);
    Ladder(103, 5, 6, 1, 1, 1, 1, 1, 5, 22, 72);
    RootFromPrimes(103, 5, 3, 17, 17);
  }

  lemma RootsFrom24()
    ensures PrimitiveRoot(107, 2) && PrimitiveRoot(109, 6)
  {
    hide Power, PrimitiveRoot;
    Ladder(107, 2, 53, 1, 1, 2, 8, 64, 60, 69, 106);
    Ladder(107, 2, 2, 1, 1, 1, 1, 1, 1, 2, 4);
    RootFromPrimes(107, 2, 53, 53, 53);
    Ladder(109, 6, 54, 1, 1, 6, 107, 4, 96, 33, 108);
    Ladder(109, 6, 36, 1, 1, 6, 36, 97, 101, 64, 63);
    RootFromPrimes(109, 6, 3, 3, 3);
  }

  lemma RootsFrom26()
    ensures PrimitiveRoot(113, 3) && PrimitiveRoot(127, 3)
  {
    hide Power, PrimitiveRoot;
    Ladder(113, 3, 56, 1, 1, 3, 27, 40, 18, 98, 112);
    Ladder(113, 3, 16, 1, 1, 1, 3, 9, 81, 7, 49);
    RootFromPrimes(113, 3, 7, 7, 7);
    Ladder(127, 3, 63, 1, 1, 3, 27, 28, 66, 114, 126);
    Ladder(127, 3, 42, 1, 1, 3, 9, 116, 121, 108, 107);
    Ladder(127, 3, 18, 1, 1, 1, 3, 9, 81, 125, 4);
    RootFromPrimes(127, 3, 3, 7, 7);
  }

  lemma RootsFrom28()
    ensures PrimitiveRoot(131, 2) && PrimitiveRoot(137, 3)
  {
    hide Power, PrimitiveRoot;
    Ladder(131, 2, 65, 1, 2, 4, 16, 125, 36, 117, 130);
    Ladder(131, 2, 26, 1, 1, 1, 2, 8, 64, 70, 53);
    Ladder(131, 2, 10, 1, 1, 1, 1, 2, 4, 32, 107);
    RootFromPrimes(131, 2, 5, 13, 13);
    Ladder(137, 3, 68, 1, 3, 9, 81, 122, 127, 100, 136);
    Ladder(137, 3, 8, 1, 1, 1, 1, 3, 9, 81, 122);
    RootFromPrimes(137, 3, 17, 17, 17);
  }

  lemma RootsFrom30()
    ensures PrimitiveRoot(139, 2) && PrimitiveRoot(149, 2)
  {
    hide Power, PrimitiveRoot;
    Ladder(139, 2, 69, 1, 2, 4, 16, 117, 134, 25, 138);
    Ladder(139, 2, 46, 1, 1, 2, 4, 32, 102, 97, 96);
    Ladder(139, 2, 6, 1, 1, 1, 1, 1, 2, 8, 64);
    RootFromPrimes(139, 2, 3, 23, 23);
    Ladder(149, 2, 74, 1, 2, 4, 16, 65, 53, 105, 148);
    Ladder(149, 2, 4, 1, 1, 1, 1, 1, 2, 4, 16);
    RootFromPrimes(149, 2, 37, 37, 37);
  }

  lemma RootsFrom32()
    ensures PrimitiveRoot(151, 6)
  {
    hide Power, PrimitiveRoot;
    Ladder(151, 6, 75, 1, 6, 36, 88, 107, 124, 146, 150);
    Ladder(151, 6, 50, 1, 1, 6, 65, 148, 9, 33, 32);
    Ladder(151, 6, 30, 1, 1, 1, 6, 65, 133, 132, 59);
    RootFromPrimes(151, 6, 3, 5, 5);
  }

  lemma RootsFrom33()
    ensures PrimitiveRoot(157, 5) && PrimitiveRoot(163, 2)
  {
    hide Power, PrimitiveRoot;
    Ladder(157, 5, 78, 1, 5, 25, 154, 45, 77, 129, 156);
    Ladder(157, 5, 52, 1, 1, 5, 125, 82, 22, 13, 12);
    Ladder(157, 5, 12, 1, 1, 1, 1, 5, 125, 82, 130);
    RootFromPrimes(157, 5, 3, 13, 13);
    Ladder(163, 2, 81, 1, 2, 4, 32, 46, 160, 9, 162);
    Ladder(163, 2, 54, 1, 1, 2, 8, 64, 42, 105, 104);
    RootFromPrimes(163, 2, 3, 3, 3);
  }

  lemma RootsFrom35()
    ensures PrimitiveRoot(167, 5) && PrimitiveRoot(173, 2)
  {
    hide Power, PrimitiveRoot;
    Ladder(167, 5, 83, 1, 5, 25, 119, 133, 154, 10, 166);
    Ladder(167, 5, 2, 1, 1, 1, 1, 1, 1, 5, 25);
    RootFromPrimes(167, 5, 83, 83, 83);
    Ladder(173, 2, 86, 1, 2, 4, 32, 159, 46, 80, 172);
    Ladder(173, 2, 4, 1, 1, 1, 1, 1, 2, 4, 16);
    RootFromPrimes(173, 2, 43, 43, 43);
  }

  lemma RootsFrom37()
    ensures PrimitiveRoot(179, 2) && PrimitiveRoot(181, 2)
  {
    hide Power, PrimitiveRoot;
    Ladder(179, 2, 89, 1, 2, 4, 32, 79, 155, 39, 178);
    Ladder(179, 2, 2, 1, 1, 1, 1, 1, 1, 2, 4);
    RootFromPrimes(179, 2, 89, 89, 89);
    Ladder(181, 2, 90, 1, 2, 4, 32, 57, 172, 162, 180);
    Ladder(181, 2, 60, 1, 1, 2, 8, 128, 7, 49, 48);
    Ladder(181, 2, 36, 1, 1, 2, 4, 16, 150, 56, 59);
    RootFromPrimes(181, 2, 3, 5, 5);
  }

  lemma RootsFrom39()
    ensures PrimitiveRoot(191, 19) && PrimitiveRoot(193, 5)
  {
    hide Power, PrimitiveRoot;
    Ladder(191, 19, 95, 1, 19, 170, 166, 33, 63, 157, 190);
    Ladder(191, 19, 38, 1, 1, 19, 170, 59, 53, 82, 39);
    Ladder(191, 19, 10, 1, 1, 1, 1, 19, 170, 166, 52);
    RootFromPrimes(191, 19, 5, 19, 19);
    Ladder(193, 5, 96, 1, 5, 125, 185, 64, 43, 112, 192);
    Ladder(193, 5, 64, 1, 5, 25, 46, 186, 49, 85, 84);
    RootFromPrimes(193, 5, 3, 3, 3);
  }

  lemma RootsFrom41()
    ensures PrimitiveRoot(197, 2) && PrimitiveRoot(199, 3)
  {
    hide Power, PrimitiveRoot;
    Ladder(197, 2, 98, 1, 2, 8, 64, 156, 105, 183, 196);
    Ladder(197, 2, 28, 1, 1, 1, 2, 8, 128, 33, 104);
    RootFromPrimes(197, 2, 7, 7, 7);
    Ladder(199, 3, 99, 1, 3, 27, 132, 111, 182, 71, 198);
    Ladder(199, 3, 66, 1, 3, 9, 81, 193, 36, 107, 106);
    Ladder(199, 3, 18, 1, 1, 1, 3, 9, 81, 181, 125);
    RootFromPrimes(199, 3, 3, 11, 11);
  }

  lemma RootsFrom43()
    ensures PrimitiveRoot(211, 2)
  {
    hide Power, PrimitiveRoot;
    Ladder(211, 2, 105, 1, 2, 8, 64, 174, 103, 59, 210);
    Ladder(211, 2, 70, 1, 2, 4, 16, 45, 41, 197, 196);
    Ladder(211, 2, 42, 1, 1, 2, 4, 32, 180, 23, 107);
    Ladder(211, 2, 30, 1, 1, 1, 2, 8, 128, 63, 171);
    RootFromPrimes(211, 2, 3, 5, 7);
  }

  lemma RootsFrom44()
    ensures PrimitiveRoot(223, 3) && PrimitiveRoot(227, 2)
  {
    hide Power, PrimitiveRoot;
    Ladder(223, 3, 111, 1, 3, 27, 60, 96, 219, 48, 222);
    Ladder(223, 3, 74, 1, 3, 9, 81, 59, 136, 184, 183);
    Ladder(223, 3, 6, 1, 1, 1, 1, 1, 3, 27, 60);
    RootFromPrimes(223, 3, 3, 37, 37);
    Ladder(227, 2, 113, 1, 2, 8, 128, 40, 11, 121, 226);
    Ladder(227, 2, 2, 1, 1, 1, 1, 1, 1, 2, 4);
    RootFromPrimes(227, 2, 113, 113, 113);
  }

  lemma RootsFrom46()
    ensures PrimitiveRoot(229, 6) && PrimitiveRoot(233, 3)
  {
    hide Power, PrimitiveRoot;
    Ladder(229, 6, 114, 1, 6, 216, 98, 215, 196, 122, 228);
    Ladder(229, 6, 76, 1, 6, 36, 151, 93, 140, 135, 134);
    Ladder(229, 6, 12, 1, 1, 1, 1, 6, 216, 169, 165);
    RootFromPrimes(229, 6, 3, 19, 19);
    Ladder(233, 3, 116, 1, 3, 27, 90, 178, 221, 144, 232);
    Ladder(233, 3, 8, 1, 1, 1, 1, 3, 9, 81, 37);
    RootFromPrimes(233, 3, 29, 29, 29);
  }

  lemma RootsFrom48()
    ensures PrimitiveRoot(239, 7)
  {
    hide Power, PrimitiveRoot;
    Ladder(239, 7, 119, 1, 7, 104, 188, 211, 230, 89, 238);
    Ladder(239, 7, 34, 1, 1, 7, 49, 11, 121, 195, 24);
    Ladder(239, 7, 14, 1, 1, 1, 1, 7, 104, 188, 211);
    RootFromPrimes(239, 7, 7, 17, 17);
  }

  lemma RootsFrom49()
    ensures PrimitiveRoot(241, 7) && PrimitiveRoot(251, 6)
  {
    hide Power, PrimitiveRoot;
    Ladder(241, 7, 120, 1, 7, 102, 46, 111, 30, 177, 240);
    Ladder(241, 7, 80, 1, 7, 49, 178, 113, 237, 16, 15);
    Ladder(241, 7, 48, 1, 1, 7, 102, 41, 235, 36, 91);
    RootFromPrimes(241, 7, 3, 5, 5);
    Ladder(251, 6, 125, 1, 6, 216, 71, 126, 127, 65, 250);
    Ladder(251, 6, 50, 1, 1, 6, 216, 221, 147, 138, 219);
    RootFromPrimes(251, 6, 5, 5, 5);
  }

  lemma RootsFrom51()
    ensures PrimitiveRoot(257, 3)
  {
    hide Power, PrimitiveRoot;
    Ladder(257, 3, 128, 3, 9, 81, 136, 249, 64, 241, 256);
    RootFromPrimes(257, 3, 2, 2, 2);
  }

  /** Every tabulated root is primitive. */
  lemma TableOfRoots(i: nat)
    requires i < NOF_PRIMES
    ensures PrimitiveRoot(TableP(i), TableV(i))
  {
    hide PrimitiveRoot;
    RootsFrom0(); RootsFrom2(); RootsFrom4(); RootsFrom6();
    RootsFrom8(); RootsFrom10(); RootsFrom12(); RootsFrom14();
    RootsFrom15(); RootsFrom16(); RootsFrom18(); RootsFrom20();
    RootsFrom22(); RootsFrom24(); RootsFrom26(); RootsFrom28();
    RootsFrom30(); RootsFrom32(); RootsFrom33(); RootsFrom35();
    RootsFrom37(); RootsFrom39(); RootsFrom41(); RootsFrom43();
    RootsFrom44(); RootsFrom46(); RootsFrom48(); RootsFrom49();
    RootsFrom51();
  }
}

/** Divisibility facts behind the algebraic interleavers: Bezout, Euclid's lemma, and
    cancellation of a factor that shares no prime with the modulus. */
module NumberTheory {

  predicate Divides(d: int, n: int)
    requires d != 0
  {
    n % d == 0
  }

  ghost predicate IsPrime(p: int) {
    2 <= p && forall d {:trigger Divides(d, p)} :: 2 <= d < p ==> !Divides(d, p)
  }

  /** No prime divides both a and k, that is, gcd(a, k) == 1. */
  ghost predicate Coprime(a: int, k: int) {
    forall p {:trigger IsPrime(p)} :: IsPrime(p) && Divides(p, a) ==> !Divides(p, k)
  }

  lemma MulNonNegative(a: int, b: int)
    requires a >= 0 && b >= 0
    ensures a * b >= 0
  {
  }

  lemma MulStep(d: int, x: int, y: int)
    requires d > 0 && x < y
    ensures d * x + d <= d * y
  {
    MulNonNegative(d, y - x - 1);
    assert d * (y - x - 1) == d * y - d * x - d;
  }

  /** Multiplying by a positive number keeps the order, with room to spare. */
  lemma MulOrder(d: int, x: int, y: int)
    requires d > 0
    ensures x < y <==> d * x < d * y
    ensures x < y ==> d * x + d <= d * y
    ensures x == y <==> d * x == d * y
  {
    if x < y { MulStep(d, x, y); } else if y < x { MulStep(d, y, x); }
  }

  lemma ModUnique(n: int, d: int, q: int, r: int)
    requires d > 0 && n == d * q + r && 0 <= r < d
    ensures n / d == q && n % d == r
  {
    var q', r' := n / d, n % d;
    assert n == d * q' + r';
    MulOrder(d, q, q');
    MulOrder(d, q', q);
  }

  lemma MultipleDivides(d: int, q: int)
    requires d > 0
    ensures Divides(d, d * q) && Divides(d, q * d)
  {
    ModUnique(d * q, d, q, 0);
    assert q * d == d * q;
  }

  lemma DividesSum(d: int, a: int, b: int)
    requires d > 0 && Divides(d, a) && Divides(d, b)
    ensures Divides(d, a + b) && Divides(d, a - b)
  {
    var x, y := a / d, b / d;
    assert a + b == d * (x + y);
    assert a - b == d * (x - y);
    MultipleDivides(d, x + y);
    MultipleDivides(d, x - y);
  }

  lemma DividesProduct(d: int, a: int, b: int)
    requires d > 0 && Divides(d, a)
    ensures Divides(d, a * b) && Divides(d, b * a)
  {
    var x := a / d;
    assert a * b == d * (x * b) by { assert a == d * x; }
    MultipleDivides(d, x * b);
    assert b * a == a * b;
  }

  lemma DividesTransitive(d: int, e: int, n: int)
    requires d > 0 && e > 0 && Divides(d, e) && Divides(e, n)
    ensures Divides(d, n)
  {
    var q := n / e;
    assert n == e * q;
    DividesProduct(d, e, q);
  }

  /** Extended Euclid: g divides a and b and is an integer combination of them. */
  lemma Bezout(a: nat, b: nat) returns (g: int, x: int, y: int)
    requires a > 0 || b > 0
    ensures g > 0 && Divides(g, a) && Divides(g, b) && g == a * x + b * y
    decreases b
  {
    if b == 0 {
      g, x, y := a, 1, 0;
    } else {
      var q, r := a / b, a % b;
      var x', y';
      g, x', y' := Bezout(b, r);
      x, y := y', x' - q * y';
      assert a == b * q + r;
      DividesProduct(g, b, q);
      DividesSum(g, b * q, r);
      assert a * x + b * y == b * x' + r * y' by {
        assert a * y' == b * q * y' + r * y';
        assert b * (x' - q * y') == b * x' - b * q * y';
      }
    }
  }

  lemma Euclid(p: int, a: nat, b: int)
    requires IsPrime(p) && Divides(p, a * b)
    ensures Divides(p, a) || Divides(p, b)
  {
    if !Divides(p, a) {
      var g, x, y := Bezout(p, a);
      assert g <= p by { if g > p { ModUnique(p, g, 0, p); } }
      assert g == 1;
      assert b == p * x * b + a * y * b;
      assert p * x * b == p * (x * b);
      MultipleDivides(p, x * b);
      assert a * y * b == (a * b) * y;
      DividesProduct(p, a * b, y);
      DividesSum(p, p * (x * b), (a * b) * y);
    }
  }

  lemma SmallestPrimeFactor(k: int) returns (p: int)
    requires k >= 2
    ensures IsPrime(p) && Divides(p, k)
  {
    p := 2;
    while !Divides(p, k)
      invariant 2 <= p <= k
      invariant forall d {:trigger Divides(d, k)} :: 2 <= d < p ==> !Divides(d, k)
      decreases k - p
    {
      p := p + 1;
    }
    forall d {:trigger Divides(d, p)} | 2 <= d < p
      ensures !Divides(d, p)
    {
      if Divides(d, p) { DividesTransitive(d, p, k); }
    }
  }

  /** Cancelling a positive factor from a divisibility. */
  lemma DividesCancel(p: int, k: int, n: int)
    requires p > 0 && k > 0
    ensures p * k > 0 && (Divides(p * k, p * n) <==> Divides(k, n))
  {
    assert p * k > 0;
    if Divides(p * k, p * n) {
      var q := (p * n) / (p * k);
      assert p * n == (p * k) * q == p * (k * q);
      MulOrder(p, n, k * q);
      MultipleDivides(k, q);
    }
    if Divides(k, n) {
      var q := n / k;
      assert p * n == p * (k * q) == (p * k) * q;
      MultipleDivides(p * k, q);
    }
  }

  /** If k divides a * d and d shares no prime with k, then k divides a. */
  lemma CancelCoprime(k: int, a: nat, d: int)
    requires k > 0 && Coprime(d, k) && Divides(k, a * d)
    ensures Divides(k, a)
    decreases k
  {
    if k > 1 {
      var p := SmallestPrimeFactor(k);
      DividesTransitive(p, k, a * d);
      Euclid(p, a, d);
      var k', a' := k / p, a / p;
      assert k == p * k' && a == p * a';
      MulOrder(p, 0, k');
      MulOrder(1, 0, k');
      assert k' < k by { MulOrder(k', 1, p); assert k' * p == k; }
      MulOrder(p, a', 0);
      assert a * d == p * (a' * d);
      DividesCancel(p, k', a' * d);
      CoprimeFactor(d, k', k, p);
      CancelCoprime(k', a', d);
      DividesCancel(p, k', a');
    }
  }

  lemma CoprimeFactor(d: int, k': int, k: int, p: int)
    requires p > 0 && k' > 0 && k == p * k' && Coprime(d, k)
    ensures Coprime(d, k')
  {
    forall r {:trigger IsPrime(r)} | IsPrime(r) && Divides(r, d)
      ensures !Divides(r, k')
    {
      if Divides(r, k') { DividesProduct(r, k', p); }
    }
  }

  /** Exact ceiling of a quotient. */
  function CeilDiv(a: nat, b: nat): (q: nat)
    requires b > 0
    ensures b * q >= a && (a > 0 ==> b * (q - 1) < a)
  {
    var q := (a + b - 1) / b;
    assert a + b - 1 == b * q + (a + b - 1) % b;
    assert b * (q - 1) == b * q - b;
    q
  }
}

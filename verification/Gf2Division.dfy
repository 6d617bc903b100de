/** Long division of binary polynomials, the way a shift register does it (section 5.1.1 of
    TS 36.212). A polynomial is its coefficients, highest power first. */
module Gf2Division {

  function Zeros(n: nat): (z: seq<bool>)
    ensures |z| == n
  {
    seq(n, _ => false)
  }

  function Xor(a: seq<bool>, b: seq<bool>): (c: seq<bool>)
    requires |a| == |b|
    ensures |c| == |a|
  {
    seq(|a|, k requires 0 <= k < |a| => a[k] != b[k])
  }

  ghost predicate IsZero(a: seq<bool>) {
    forall k :: 0 <= k < |a| ==> !a[k]
  }

  /** A generator of degree order: leading and constant coefficient are one. */
  ghost predicate Generator(p: seq<bool>, order: nat) {
    order > 0 && |p| == order + 1 && p[0] && p[order]
  }

  function Scaled(b: bool, p: seq<bool>): (s: seq<bool>)
    ensures |s| == |p|
  {
    if b then p else Zeros(|p|)
  }

  // ---- the shift register -----------------------------------------------------------------

  /** One clock of the division register for input bit b. */
  function Feed(p: seq<bool>, r: seq<bool>, b: bool): (r': seq<bool>)
    requires |p| == |r| + 1 && r != []
    ensures |r'| == |r|
  {
    Xor(r[1..] + [false], Scaled(r[0] != b, p[1..]))
  }

  function FeedAll(p: seq<bool>, r: seq<bool>, bs: seq<bool>): (r': seq<bool>)
    requires |p| == |r| + 1 && r != []
    ensures |r'| == |r|
    decreases |bs|
  {
    if bs == [] then r else FeedAll(p, Feed(p, r, bs[0]), bs[1..])
  }

  /** The remainder of data * x^order: the register after all of data, from zero. */
  function Remainder(p: seq<bool>, data: seq<bool>): (r: seq<bool>)
    requires |p| > 1
    ensures |r| == |p| - 1
  {
    FeedAll(p, Zeros(|p| - 1), data)
  }

  lemma {:induction false} FeedAppend(p: seq<bool>, r: seq<bool>, bs: seq<bool>, cs: seq<bool>)
    requires |p| == |r| + 1 && r != []
    ensures FeedAll(p, r, bs + cs) == FeedAll(p, FeedAll(p, r, bs), cs)
    decreases |bs|
  {
    hide Feed;
    if bs == [] {
      assert bs + cs == cs;
    } else {
      assert (bs + cs)[1..] == bs[1..] + cs;
      FeedAppend(p, Feed(p, r, bs[0]), bs[1..], cs);
    }
  }

  // ---- it divides -------------------------------------------------------------------------

  /** q * p, on |q| + |p| - 1 coefficients. */
  function Product(q: seq<bool>, p: seq<bool>): (m: seq<bool>)
    requires p != []
    ensures |m| == |q| + |p| - 1
    decreases |q|
  {
    if q == [] then Zeros(|p| - 1)
    else
      var n := |q| - 1;
      Xor(Product(q[..n], p) + [false], Zeros(n) + Scaled(q[n], p))
  }

  /** The feedback bits: the quotient. */
  function Quotient(p: seq<bool>, data: seq<bool>): (q: seq<bool>)
    requires |p| > 1
    ensures |q| == |data|
    decreases |data|
  {
    if data == [] then []
    else
      var n := |data| - 1;
      Quotient(p, data[..n]) + [Remainder(p, data[..n])[0] != data[n]]
  }

  /** data * x^order == q * p + r, r on the lowest order coefficients. */
  ghost predicate Division(p: seq<bool>, data: seq<bool>, q: seq<bool>, r: seq<bool>) {
    && |p| == |r| + 1 && |q| == |data|
    && data + Zeros(|r|) == Xor(Product(q, p), Zeros(|data|) + r)
  }

  lemma {:induction false} RegisterDivides(p: seq<bool>, data: seq<bool>, order: nat)
    requires Generator(p, order)
    ensures Division(p, data, Quotient(p, data), Remainder(p, data))
    decreases |data|
  {
    var q, r := Quotient(p, data), Remainder(p, data);
    if data == [] {
      assert Zeros(order) == Xor(Zeros(order), Zeros(0) + Zeros(order));
    } else {
      var n := |data| - 1;
      RegisterDivides(p, data[..n], order);
      assert data == data[..n] + [data[n]];
      FeedAppend(p, Zeros(order), data[..n], [data[n]]);
      assert r == Feed(p, Remainder(p, data[..n]), data[n]);
      DivisionStep(p, data[..n], data[n], Quotient(p, data[..n]), Remainder(p, data[..n]), order);
      assert q[..n] == Quotient(p, data[..n]);
    }
  }

  lemma DivisionStep(p: seq<bool>, data: seq<bool>, b: bool, q: seq<bool>, r: seq<bool>, order: nat)
    requires Generator(p, order) && |r| == order && Division(p, data, q, r)
    ensures Division(p, data + [b], q + [r[0] != b], Feed(p, r, b))
  {
    var n, q' := |data|, q + [r[0] != b];
    var m := Product(q, p);
    assert q'[..n] == q;
    assert Product(q', p) == Xor(m + [false], Zeros(n) + Scaled(r[0] != b, p));
    forall k | 0 <= k < n + order
      ensures m[k] == ((data + Zeros(order))[k] != (Zeros(n) + r)[k])
    {
      assert (data + Zeros(order))[k] == Xor(m, Zeros(n) + r)[k];
    }
    forall k | 0 <= k < n + 1 + order
      ensures (data + [b] + Zeros(order))[k] == Xor(Product(q', p), Zeros(n + 1) + Feed(p, r, b))[k]
    {
    }
  }

  lemma {:induction false} ProductLinear(a: seq<bool>, b: seq<bool>, p: seq<bool>)
    requires |a| == |b| && p != []
    ensures Product(Xor(a, b), p) == Xor(Product(a, p), Product(b, p))
    decreases |a|
  {
    if a != [] {
      var n := |a| - 1;
      ProductLinear(a[..n], b[..n], p);
      assert Xor(a, b)[..n] == Xor(a[..n], b[..n]);
      ProductStepLinear(Product(a[..n], p), Product(b[..n], p), a[n], b[n], n, p);
    }
  }

  lemma ProductStepLinear(m: seq<bool>, m': seq<bool>, b: bool, b': bool, n: nat, p: seq<bool>)
    requires p != [] && |m| == |m'| == n + |p| - 1
    ensures Xor(Xor(m, m') + [false], Zeros(n) + Scaled(b != b', p)) ==
            Xor(Xor(m + [false], Zeros(n) + Scaled(b, p)), Xor(m' + [false], Zeros(n) + Scaled(b', p)))
  {
  }

  lemma {:induction false} ProductOfZero(q: seq<bool>, p: seq<bool>)
    requires p != [] && IsZero(q)
    ensures IsZero(Product(q, p))
    decreases |q|
  {
    if q != [] { ProductOfZero(q[..|q| - 1], p); }
  }

  /** The leading one of q times the leading one of p. */
  lemma {:induction false} LeadingOne(q: seq<bool>, p: seq<bool>, f: nat)
    requires p != [] && p[0] && f < |q| && q[f] && forall k :: 0 <= k < f ==> !q[k]
    ensures Product(q, p)[f]
    decreases |q|
  {
    var n := |q| - 1;
    if f < n { LeadingOne(q[..n], p, f); } else { ProductOfZero(q[..n], p); }
  }

  lemma FirstOne(q: seq<bool>, j: nat) returns (f: nat)
    requires j < |q| && q[j]
    ensures f < |q| && q[f] && forall k :: 0 <= k < f ==> !q[k]
    decreases j
  {
    if k :| 0 <= k < j && q[k] { f := FirstOne(q, k); } else { f := j; }
  }

  /** No multiple of p but zero is shorter than p. */
  lemma ShortMultiple(p: seq<bool>, q: seq<bool>)
    requires p != [] && p[0]
    requires forall k :: 0 <= k < |q| ==> !Product(q, p)[k]
    ensures IsZero(q)
  {
    if j :| 0 <= j < |q| && q[j] {
      var f := FirstOne(q, j);
      LeadingOne(q, p, f);
    }
  }

  /** Division is unique: whatever divides without a remainder of full degree is what the register
      computes. */
  lemma DivisionUnique(p: seq<bool>, data: seq<bool>, order: nat, q: seq<bool>, r: seq<bool>)
    requires Generator(p, order) && Division(p, data, q, r)
    ensures r == Remainder(p, data) && q == Quotient(p, data)
  {
    hide Product, Remainder, Quotient;
    var q', r', n := Quotient(p, data), Remainder(p, data), |data|;
    RegisterDivides(p, data, order);
    ProductLinear(q, q', p);
    var x := Xor(q, q');
    assert Product(x, p) == Xor(Zeros(n) + r, Zeros(n) + r') by {
      forall k | 0 <= k < n + order
        ensures Product(x, p)[k] == Xor(Zeros(n) + r, Zeros(n) + r')[k]
      {
        assert (data + Zeros(order))[k] == Xor(Product(q, p), Zeros(n) + r)[k];
        assert (data + Zeros(order))[k] == Xor(Product(q', p), Zeros(n) + r')[k];
      }
    }
    ShortMultiple(p, x);
    ProductOfZero(x, p);
    assert q == q' by {
      forall k | 0 <= k < n ensures q[k] == q'[k] { assert !x[k]; }
    }
    forall k | 0 <= k < order ensures r[k] == r'[k] { assert !Product(x, p)[n + k]; }
  }

  // ---- linearity --------------------------------------------------------------------------

  lemma FeedLinear(p: seq<bool>, r: seq<bool>, s: seq<bool>, b: bool, c: bool)
    requires |p| == |r| + 1 == |s| + 1 && r != []
    ensures Feed(p, Xor(r, s), b != c) == Xor(Feed(p, r, b), Feed(p, s, c))
  {
  }

  lemma {:induction false} FeedAllLinear(p: seq<bool>, r: seq<bool>, s: seq<bool>, bs: seq<bool>, cs: seq<bool>)
    requires |p| == |r| + 1 == |s| + 1 && r != [] && |bs| == |cs|
    ensures FeedAll(p, Xor(r, s), Xor(bs, cs)) == Xor(FeedAll(p, r, bs), FeedAll(p, s, cs))
    decreases |bs|
  {
    if bs != [] {
      FeedLinear(p, r, s, bs[0], cs[0]);
      assert Xor(bs, cs)[1..] == Xor(bs[1..], cs[1..]);
      hide Feed;
      FeedAllLinear(p, Feed(p, r, bs[0]), Feed(p, s, cs[0]), bs[1..], cs[1..]);
    }
  }

  /** The checksum of a sum is the sum of the checksums. */
  lemma RemainderLinear(p: seq<bool>, a: seq<bool>, b: seq<bool>)
    requires |p| > 1 && |a| == |b|
    ensures Remainder(p, Xor(a, b)) == Xor(Remainder(p, a), Remainder(p, b))
  {
    hide Feed;
    var z := Zeros(|p| - 1);
    assert Xor(z, z) == z;
    FeedAllLinear(p, z, z, a, b);
  }

  // ---- what the register recognises -------------------------------------------------------

  /** Feeding bs clears the register exactly when bs is what it held, from the top down. */
  lemma {:induction false} ClearedBy(p: seq<bool>, order: nat, r: seq<bool>, bs: seq<bool>)
    requires Generator(p, order) && |r| == order && |bs| <= order
    ensures IsZero(FeedAll(p, r, bs)) <==> r == bs + Zeros(order - |bs|)
    decreases |bs|
  {
    if bs == [] {
      if IsZero(r) { assert r == bs + Zeros(order); }
    } else {
      var r', cs := Feed(p, r, bs[0]), bs[1..];
      ClearedBy(p, order, r', cs);
      var z := Zeros(order - |cs|);
      if r == bs + Zeros(order - |bs|) {
        assert r' == cs + z;
      }
      if r' == cs + z {
        assert !(cs + z)[order - 1];
        assert r'[order - 1] == (r[0] != bs[0]);
        forall k | 0 < k < order
          ensures r[k] == (bs + Zeros(order - |bs|))[k]
        {
          assert r'[k - 1] == (cs + z)[k - 1];
        }
      }
    }
  }

  /** A codeword checks to zero exactly when the checksum attached to it is the data's own. */
  lemma ChecksExactly(p: seq<bool>, order: nat, data: seq<bool>, crc: seq<bool>)
    requires Generator(p, order) && |crc| == order
    ensures IsZero(Remainder(p, data + crc)) <==> crc == Remainder(p, data)
  {
    hide Feed;
    FeedAppend(p, Zeros(order), data, crc);
    ClearedBy(p, order, Remainder(p, data), crc);
    assert crc + Zeros(0) == crc;
  }

  /** Zeros keep an empty register empty and a non-empty one non-empty. */
  lemma {:induction false} ZerosKeep(p: seq<bool>, order: nat, r: seq<bool>, n: nat)
    requires Generator(p, order) && |r| == order
    ensures IsZero(FeedAll(p, r, Zeros(n))) <==> IsZero(r)
    decreases n
  {
    if n > 0 {
      var r' := Feed(p, r, false);
      assert Zeros(n)[1..] == Zeros(n - 1);
      ZerosKeep(p, order, r', n - 1);
      if IsZero(r') {
        assert !r'[order - 1];
        forall k | 0 < k < order ensures !r[k] { assert !r'[k - 1]; }
      }
    }
  }

  /** Burst detection: an error that lies within order consecutive bits never checks to zero. */
  lemma BurstDetected(p: seq<bool>, order: nat, codeword: seq<bool>, before: nat, burst: seq<bool>, after: nat)
    requires Generator(p, order) && |burst| <= order && !IsZero(burst)
    requires |codeword| == before + |burst| + after && IsZero(Remainder(p, codeword))
    ensures !IsZero(Remainder(p, Xor(codeword, Zeros(before) + burst + Zeros(after))))
  {
    hide Feed;
    var e, z := Zeros(before) + burst + Zeros(after), Zeros(order);
    RemainderLinear(p, codeword, e);
    FeedAppend(p, z, Zeros(before) + burst, Zeros(after));
    FeedAppend(p, z, Zeros(before), burst);
    var r := FeedAll(p, z, Zeros(before));
    ZerosKeep(p, order, z, before);
    ClearedBy(p, order, r, burst);
    ZerosKeep(p, order, FeedAll(p, r, burst), after);
    var j :| 0 <= j < |burst| && burst[j];
    assert (burst + Zeros(order - |burst|))[j] && !r[j];
    var k :| 0 <= k < order && Remainder(p, e)[k];
    assert Xor(Remainder(p, codeword), Remainder(p, e))[k];
  }
}

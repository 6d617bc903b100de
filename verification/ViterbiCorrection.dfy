/** How much noise the zero-terminated decoder corrects: a bound on the total distortion below
    which the survivor is the encoded message, from the weights of the code's error paths. */
module ViterbiCorrection {
  import opened ConvolutionalCode
  import opened ViterbiMetrics

  // ---- the code is linear -----------------------------------------------------------------

  function Xor(v: seq<bool>, w: seq<bool>): (x: seq<bool>)
    requires |v| == |w|
    ensures |x| == |v|
  {
    seq(|v|, k requires 0 <= k < |v| => v[k] != w[k])
  }

  lemma {:induction false} ParLinear(v: seq<bool>, w: seq<bool>, p: nat)
    requires |v| == |w|
    ensures Par(Value(Xor(v, w)), p) == (Par(Value(v), p) != Par(Value(w), p))
    decreases |v|
  {
    hide Pow2;
    if v == [] {
      ParOfZero(p);
    } else {
      var n := |v| - 1;
      assert Xor(v, w)[..n] == Xor(v[..n], w[..n]);
      ParLinear(v[..n], w[..n], p / 2);
      ParUnfold(v, p);
      ParUnfold(w, p);
      ParUnfold(Xor(v, w), p);
    }
  }

  lemma {:induction false} ParOfZero(p: nat)
    ensures !Par(0, p)
  {
    if p > 0 { ParOfZero(p / 2); }
  }

  lemma ParUnfold(v: seq<bool>, p: nat)
    requires v != []
    ensures Par(Value(v), p) == ((v[|v| - 1] && p % 2 == 1) != Par(Value(v[..|v| - 1]), p / 2))
  {
    hide Pow2, Par;
    ParStep(Value(v[..|v| - 1]), v[|v| - 1], p);
  }

  lemma ParStep(a: nat, u: bool, p: nat)
    ensures Par(2 * a + Num(u), p) == ((u && p % 2 == 1) != Par(a, p / 2))
  {
    assert (2 * a + Num(u)) / 2 == a && (2 * a + Num(u)) % 2 == Num(u);
  }

  /** The outputs of the LTE generators for seven inputs, oldest first. */
  lemma Taps(a: bool, b: bool, c: bool, d: bool, e: bool, f: bool, g: bool)
    ensures var r := Value([a, b, c, d, e, f, g]);
            && Par(r, LTE.p0) == (a != (b != (d != (e != g))))
            && Par(r, LTE.p1) == (a != (d != (e != (f != g))))
            && Par(r, LTE.p2) == (a != (c != (e != (f != g))))
  {
    hide Par, Value;
    TapsOf(a, b, c, d, e, f, g, 0x6D, 0x36, 0x1B);
    TapsOf(a, b, c, d, e, f, g, 0x4F, 0x27, 0x13);
    TapsOf(a, b, c, d, e, f, g, 0x57, 0x2B, 0x15);
    FourTaps(a, b, c, d, 0xD, 0x6, 0x3);
    FourTaps(a, b, c, d, 0x9, 0x4, 0x2);
    FourTaps(a, b, c, d, 0xA, 0x5, 0x2);
  }

  /** The three newest taps of generator p, with its halves given. */
  lemma TapsOf(a: bool, b: bool, c: bool, d: bool, e: bool, f: bool, g: bool, p: nat, p1: nat, p2: nat)
    requires p1 == p / 2 && p2 == p1 / 2
    ensures Par(Value([a, b, c, d, e, f, g]), p) ==
            ((g && p % 2 == 1) != ((f && p1 % 2 == 1) != ((e && p2 % 2 == 1) != Par(Value([a, b, c, d]), p2 / 2))))
  {
    hide Par, Value, Pow2;
    ParUnfold([a, b, c, d, e, f, g], p);
    assert [a, b, c, d, e, f, g][..6] == [a, b, c, d, e, f];
    ParUnfold([a, b, c, d, e, f], p1);
    assert [a, b, c, d, e, f][..5] == [a, b, c, d, e];
    ParUnfold([a, b, c, d, e], p2);
    assert [a, b, c, d, e][..4] == [a, b, c, d];
  }

  /** The four oldest taps. */
  lemma FourTaps(a: bool, b: bool, c: bool, d: bool, p: nat, p1: nat, p2: nat)
    requires p1 == p / 2 && p2 == p1 / 2 && p2 < 4
    ensures Par(Value([a, b, c, d]), p) ==
            ((d && p % 2 == 1) != ((c && p1 % 2 == 1) != ((b && p2 % 2 == 1) != (a && p2 >= 2))))
  {
    hide Par, Value, Pow2;
    ParUnfold([a, b, c, d], p);
    assert [a, b, c, d][..3] == [a, b, c];
    ParUnfold([a, b, c], p1);
    assert [a, b, c][..2] == [a, b];
    ParUnfold([a, b], p2);
    assert [a, b][..1] == [a];
    ParUnfold([a], p2 / 2);
    assert [a][..0] == [];
    EmptyIsZero(p2 / 2 / 2);
  }

  lemma EmptyIsZero(p: nat)
    ensures !Par(Value([]), p)
  {
    ParOfZero(p);
  }

  // ---- weights of error paths -------------------------------------------------------------

  /** Number of the three outputs that are one for register contents v. */
  function Weight(v: seq<bool>): nat {
    Num(Par(Value(v), LTE.p0)) + Num(Par(Value(v), LTE.p1)) + Num(Par(Value(v), LTE.p2))
  }

  /** Total weight of the windows of x that start at lo .. hi - 1. */
  function Weights(x: seq<bool>, lo: nat, hi: nat): nat
    requires lo <= hi && hi + 6 <= |x|
    decreases hi
  {
    if lo == hi then 0 else Weights(x, lo, hi - 1) + Weight(x[hi - 1..hi + 6])
  }

  lemma {:induction false} SplitWeights(x: seq<bool>, a: nat, b: nat, c: nat)
    requires a <= b <= c && c + 6 <= |x|
    ensures Weights(x, a, c) == Weights(x, a, b) + Weights(x, b, c)
    decreases c
  {
    hide Weight;
    if b < c { SplitWeights(x, a, b, c - 1); }
  }

  /** The outputs while the last error a leaves the register, whatever went before it. */
  lemma LastErrorWeight(b6: bool, b5: bool, b4: bool, b3: bool, b2: bool, b1: bool)
    ensures Weight([b6, b5, b4, b3, b2, b1, true]) + Weight([b5, b4, b3, b2, b1, true, false])
            + Weight([b4, b3, b2, b1, true, false, false]) + Weight([b3, b2, b1, true, false, false, false])
            + Weight([b2, b1, true, false, false, false, false]) + Weight([b1, true, false, false, false, false, false])
            + Weight([true, false, false, false, false, false, false]) >=
            if b6 || b5 || b4 || b3 || b2 || b1 then 8 else 15
    ensures !(b6 || b5 || b4 || b3 || b2 || b1) ==>
              Weight([b6, b5, b4, b3, b2, b1, true]) + Weight([b5, b4, b3, b2, b1, true, false])
              + Weight([b4, b3, b2, b1, true, false, false]) + Weight([b3, b2, b1, true, false, false, false])
              + Weight([b2, b1, true, false, false, false, false])
              + Weight([b1, true, false, false, false, false, false])
              + Weight([true, false, false, false, false, false, false]) == 15
  {
    hide Par, Value;
    Taps(b6, b5, b4, b3, b2, b1, true);
    Taps(b5, b4, b3, b2, b1, true, false);
    Taps(b4, b3, b2, b1, true, false, false);
    Taps(b3, b2, b1, true, false, false, false);
    Taps(b2, b1, true, false, false, false, false);
    Taps(b1, true, false, false, false, false, false);
    Taps(true, false, false, false, false, false, false);
  }

  /** The first error enters the register alone: all three outputs are one. */
  lemma FirstErrorWeight()
    ensures Weight([false, false, false, false, false, false, true]) == 3
  {
    hide Par, Value;
    Taps(false, false, false, false, false, false, true);
  }

  /** x is zero from index i + 1 on, and one at i. */
  ghost predicate LastErrorAt(x: seq<bool>, i: nat) {
    i < |x| && x[i] && forall k :: i < k < |x| ==> !x[k]
  }

  lemma {:induction false} FindLast(x: seq<bool>, j: nat) returns (i: nat)
    requires j < |x| && x[j]
    ensures j <= i && LastErrorAt(x, i)
    decreases |x| - j
  {
    if k :| j < k < |x| && x[k] { i := FindLast(x, k); } else { i := j; }
  }

  /** An error path whose last error is followed by six zeros has weight at least 8. */
  lemma TailWeight(x: seq<bool>, i: nat)
    requires LastErrorAt(x, i) && 6 <= i && i + 6 < |x|
    ensures Weights(x, i - 6, i + 1) >= 8
    ensures (forall k :: i - 6 <= k < i ==> !x[k]) ==> Weights(x, i - 6, i + 1) == 15
  {
    hide Weight;
    var a := i - 6;
    LastErrorWeight(x[a], x[a + 1], x[a + 2], x[a + 3], x[a + 4], x[a + 5]);
    SevenAt(x, a);
    SevenAt(x, a + 1);
    SevenAt(x, a + 2);
    SevenAt(x, a + 3);
    SevenAt(x, a + 4);
    SevenAt(x, a + 5);
    SevenAt(x, a + 6);
    SevenWeights(x, a);
  }

  lemma SevenAt(x: seq<bool>, a: nat)
    requires a + 7 <= |x|
    ensures x[a..a + 7] == [x[a], x[a + 1], x[a + 2], x[a + 3], x[a + 4], x[a + 5], x[a + 6]]
  {
  }

  lemma SevenWeights(x: seq<bool>, a: nat)
    requires a + 13 <= |x|
    ensures Weights(x, a, a + 7) ==
            Weight(x[a..a + 7]) + Weight(x[a + 1..a + 8]) + Weight(x[a + 2..a + 9]) + Weight(x[a + 3..a + 10])
            + Weight(x[a + 4..a + 11]) + Weight(x[a + 5..a + 12]) + Weight(x[a + 6..a + 13])
  {
    hide Weight;
    assert Weights(x, a, a + 1) == Weight(x[a..a + 7]);
    assert Weights(x, a, a + 3) == Weight(x[a..a + 7]) + Weight(x[a + 1..a + 8]) + Weight(x[a + 2..a + 9]);
    assert Weights(x, a, a + 5) == Weights(x, a, a + 3) + Weight(x[a + 3..a + 10]) + Weight(x[a + 4..a + 11]);
  }

  // ---- free distance ----------------------------------------------------------------------

  function Pick4(e: bool, f: bool, t0: nat, t1: nat, t2: nat, t3: nat): nat {
    if e then (if f then t3 else t2) else if f then t1 else t0
  }

  function Pick16(c: bool, d: bool, e: bool, f: bool, t0: nat, t1: nat, t2: nat, t3: nat, t4: nat, t5: nat, t6: nat,
                  t7: nat, t8: nat, t9: nat, t10: nat, t11: nat, t12: nat, t13: nat, t14: nat, t15: nat): nat
  {
    if c then
      if d then Pick4(e, f, t12, t13, t14, t15) else Pick4(e, f, t8, t9, t10, t11)
    else
      if d then Pick4(e, f, t4, t5, t6, t7) else Pick4(e, f, t0, t1, t2, t3)
  }

  /** The least weight with which errors a, b, .., f in the register, oldest first, leave it. */
  function ToGo(a: bool, b: bool, c: bool, d: bool, e: bool, f: bool): nat {
    if a then
      if b then Pick16(c, d, e, f, 5, 7, 7, 10, 8, 10, 8, 11, 6, 8, 10, 10, 7, 10, 9, 9)
      else Pick16(c, d, e, f, 3, 11, 7, 10, 6, 10, 11, 10, 6, 10, 8, 10, 7, 10, 10, 9)
    else
      if b then Pick16(c, d, e, f, 4, 10, 8, 11, 7, 9, 9, 10, 7, 9, 9, 9, 8, 10, 8, 9)
      else Pick16(c, d, e, f, 0, 12, 10, 11, 7, 11, 10, 9, 5, 9, 9, 11, 9, 10, 8, 10)
  }

  /** No step gains more towards zero than it weighs. */
  lemma ToGoStep(a: bool, b: bool, c: bool, d: bool, e: bool, f: bool, g: bool)
    ensures Weight([a, b, c, d, e, f, g]) + ToGo(b, c, d, e, f, g) >= ToGo(a, b, c, d, e, f)
  {
    hide Par, Value;
    Taps(a, b, c, d, e, f, g);
  }

  function ToGoAt(x: seq<bool>, k: nat): nat
    requires k + 6 <= |x|
  {
    ToGo(x[k], x[k + 1], x[k + 2], x[k + 3], x[k + 4], x[k + 5])
  }

  lemma {:induction false} WeightsReach(x: seq<bool>, lo: nat, hi: nat)
    requires lo <= hi && hi + 6 <= |x|
    ensures Weights(x, lo, hi) + ToGoAt(x, hi) >= ToGoAt(x, lo)
    decreases hi
  {
    hide Weight, ToGo;
    if lo < hi {
      WeightsReach(x, lo, hi - 1);
      SevenAt(x, hi - 1);
      ToGoStep(x[hi - 1], x[hi], x[hi + 1], x[hi + 2], x[hi + 3], x[hi + 4], x[hi + 5]);
    }
  }

  /** Six zeros from position t on: the register is in state zero at time t. */
  ghost predicate ZeroAt(x: seq<bool>, t: nat) {
    t + 6 <= |x| && forall k :: t <= k < t + 6 ==> !x[k]
  }

  /** Errors between two visits to state zero weigh at least 15. */
  lemma EventWeight(x: seq<bool>, lo: nat, hi: nat, j: nat)
    requires ZeroAt(x, lo) && ZeroAt(x, hi) && lo <= j < hi && x[j + 6]
    ensures Weights(x, lo, hi) >= 15
  {
    hide Weight;
    var f := FirstError(x, lo, j + 6);
    SevenAt(x, f - 6);
    FirstErrorWeight();
    SplitWeights(x, lo, f - 6, hi);
    SplitWeights(x, f - 6, f - 5, hi);
    WeightsReach(x, f - 5, hi);
    assert ToGoAt(x, f - 5) == 12 && ToGoAt(x, hi) == 0;
  }

  lemma FirstError(x: seq<bool>, lo: nat, i: nat) returns (f: nat)
    requires lo <= i < |x| && x[i]
    ensures lo <= f <= i && x[f] && forall k :: lo <= k < f ==> !x[k]
    decreases i
  {
    if k :| lo <= k < i && x[k] { f := FirstError(x, lo, k); } else { f := i; }
  }

  // ---- distances --------------------------------------------------------------------------

  /** The three coded bits of step t. */
  lemma CodedThree(c: Code, s0: State, us: seq<bool>, t: nat)
    requires t < |us|
    ensures var x := Codeword(c, s0, us);
            var r := RegisterAt(s0, us, t);
            x[3 * t] == Par(r, c.p0) && x[3 * t + 1] == Par(r, c.p1) && x[3 * t + 2] == Par(r, c.p2)
  {
    hide Par, RegisterAt;
    assert 3 * t / 3 == t && (3 * t) % 3 == 0 && (3 * t + 1) / 3 == t && (3 * t + 1) % 3 == 1;
    assert (3 * t + 2) / 3 == t && (3 * t + 2) % 3 == 2;
  }

  /** Number of the first n places in which two codewords differ. */
  function Distance(x: seq<bool>, y: seq<bool>, n: nat): nat
    requires n <= |x| && n <= |y|
  {
    if n == 0 then 0 else Distance(x, y, n - 1) + Num(x[n - 1] != y[n - 1])
  }

  lemma WeightOfDifference(v: seq<bool>, w: seq<bool>)
    requires |v| == |w|
    ensures Weight(Xor(v, w)) == Num(Par(Value(v), LTE.p0) != Par(Value(w), LTE.p0))
                                 + Num(Par(Value(v), LTE.p1) != Par(Value(w), LTE.p1))
                                 + Num(Par(Value(v), LTE.p2) != Par(Value(w), LTE.p2))
  {
    hide Value, Par;
    ParLinear(v, w, LTE.p0);
    ParLinear(v, w, LTE.p1);
    ParLinear(v, w, LTE.p2);
  }

  lemma ThreeMore(x: seq<bool>, y: seq<bool>, k: nat)
    requires k + 3 <= |x| && |y| == |x|
    ensures Distance(x, y, k + 3) ==
            Distance(x, y, k) + Num(x[k] != y[k]) + Num(x[k + 1] != y[k + 1]) + Num(x[k + 2] != y[k + 2])
  {
    assert Distance(x, y, k + 2) == Distance(x, y, k) + Num(x[k] != y[k]) + Num(x[k + 1] != y[k + 1]);
  }

  /** The distance of two codewords is the weight of the difference of their paths. */
  lemma {:induction false} DistanceIsWeight(s0: State, us: seq<bool>, r0: State, vs: seq<bool>, t: nat)
    requires |us| == |vs| && t <= |us|
    ensures Distance(Codeword(LTE, s0, us), Codeword(LTE, r0, vs), 3 * t) ==
            Weights(Xor(History(s0, us), History(r0, vs)), 0, t)
  {
    hide Weight, Value, Par, History, Codeword, RegisterAt;
    if t > 0 {
      DistanceIsWeight(s0, us, r0, vs, t - 1);
      var g, h := History(s0, us), History(r0, vs);
      CodedThree(LTE, s0, us, t - 1);
      CodedThree(LTE, r0, vs, t - 1);
      AtIsWindow(s0, us, t - 1);
      AtIsWindow(r0, vs, t - 1);
      WeightOfDifference(g[t - 1..t + 6], h[t - 1..t + 6]);
      assert Xor(g, h)[t - 1..t + 6] == Xor(g[t - 1..t + 6], h[t - 1..t + 6]);
      ThreeMore(Codeword(LTE, s0, us), Codeword(LTE, r0, vs), 3 * (t - 1));
    }
  }

  /** Free distance: the codewords of two different messages differ in at least 15 bits. */
  lemma FreeDistance(m: seq<bool>, m': seq<bool>)
    requires |m| == |m'| && m != m'
    ensures Distance(Codeword(LTE, 0, Inputs(m, false)), Codeword(LTE, 0, Inputs(m', false)), 3 * (|m| + 6)) >= 15
  {
    hide Codeword, Distance, History, Weight, Weights, At;
    var us, vs, n := Inputs(m, false), Inputs(m', false), |m| + 6;
    EncodedEndsInZero(m);
    EncodedEndsInZero(m');
    var j :| 0 <= j < |m| && m[j] != m'[j];
    assert us[j] != vs[j];
    WrongPathWeight(0, us, vs, n, j);
    DistanceIsWeight(0, us, 0, vs, n);
  }

  lemma {:induction false} NoWeight(x: seq<bool>, lo: nat, hi: nat)
    requires lo <= hi && hi + 6 <= |x| && forall k :: lo <= k < hi + 6 ==> !x[k]
    ensures Weights(x, lo, hi) == 0
    decreases hi
  {
    hide Value, Par;
    if lo < hi {
      NoWeight(x, lo, hi - 1);
      SevenAt(x, hi - 1);
      Taps(false, false, false, false, false, false, false);
    }
  }

  lemma SingleErrorWeight(x: seq<bool>, i: nat, n: nat)
    requires LastErrorAt(x, i) && 6 <= i < n && |x| == n + 6 && forall k :: 0 <= k < i ==> !x[k]
    ensures Weights(x, 0, n) == 15
  {
    hide Weight;
    TailWeight(x, i);
    SplitWeights(x, 0, i - 6, n);
    SplitWeights(x, i - 6, i + 1, n);
    NoWeight(x, 0, i - 6);
    NoWeight(x, i + 1, n);
  }

  /** The bound is attained: flipping any one bit of any message flips exactly 15 coded bits. */
  lemma OneBitApart(m: seq<bool>, j: nat)
    requires j < |m|
    ensures Distance(Codeword(LTE, 0, Inputs(m, false)), Codeword(LTE, 0, Inputs(m[j := !m[j]], false)), 3 * (|m| + 6))
            == 15
  {
    hide Codeword, Distance, Weight, Weights;
    var m' := m[j := !m[j]];
    var us, vs, n := Inputs(m, false), Inputs(m', false), |m| + 6;
    StartsInZeros(us);
    StartsInZeros(vs);
    var x := Xor(History(0, us), History(0, vs));
    HistoryAt(0, us);
    HistoryAt(0, vs);
    forall k | 0 <= k < n + 6
      ensures x[k] == (k == j + 6)
    {
      if k >= 6 { assert History(0, us)[k - 6 + 6] == us[k - 6] && History(0, vs)[k - 6 + 6] == vs[k - 6]; }
    }
    SingleErrorWeight(x, j + 6, n);
    DistanceIsWeight(0, us, 0, vs, n);
  }

  /** Total distance of the samples to a codeword. */
  function Distortion(y: seq<Sample>, x: seq<bool>, n: nat): nat
    requires n <= |y| && n <= |x|
  {
    if n == 0 then 0 else Distortion(y, x, n - 1) + Gap(y[n - 1], x[n - 1])
  }

  lemma DistortionThree(y: seq<Sample>, x: seq<bool>, k: nat)
    requires k + 3 <= |y| && k + 3 <= |x|
    ensures Distortion(y, x, k + 3) ==
            Distortion(y, x, k) + Gap(y[k], x[k]) + Gap(y[k + 1], x[k + 1]) + Gap(y[k + 2], x[k + 2])
  {
    hide Gap;
    assert Distortion(y, x, k + 2) == Distortion(y, x, k) + Gap(y[k], x[k]) + Gap(y[k + 1], x[k + 1]);
  }

  /** The cost of a path is its bias and its distortion. */
  lemma {:induction false} CostIsDistortion(tr: Trial, s0: State, us: seq<bool>, t: nat)
    requires t <= |us| && 3 * t <= |tr.y|
    ensures Cost(tr, s0, us, t) == Bias(tr.start, s0) + Distortion(tr.y, Codeword(tr.c, s0, us), 3 * t)
  {
    hide Par, RegisterAt, Bias, Codeword, Gap;
    if t > 0 {
      CostIsDistortion(tr, s0, us, t - 1);
      CodedThree(tr.c, s0, us, t - 1);
      DistortionThree(tr.y, Codeword(tr.c, s0, us), 3 * (t - 1));
    }
  }

  /** Register contents whose difference has weight w cannot both be near the samples. */
  lemma BranchesApart(tr: Trial, t: nat, v: seq<bool>, w: seq<bool>)
    requires tr.c == LTE && 3 * t + 3 <= |tr.y| && |v| == |w|
    ensures Branch(tr, t, Value(v)) + Branch(tr, t, Value(w)) >= 255 * Weight(Xor(v, w))
  {
    hide Value, Par;
    ParLinear(v, w, LTE.p0);
    ParLinear(v, w, LTE.p1);
    ParLinear(v, w, LTE.p2);
  }

  /** Two paths cannot both be cheaper, between any two times, than their difference is heavy. */
  lemma {:induction false} CostsApart(tr: Trial, s0: State, us: seq<bool>, r0: State, vs: seq<bool>, lo: nat, hi: nat)
    requires tr.c == LTE && |us| == |vs| && lo <= hi <= |us| && 3 * hi <= |tr.y|
    ensures Cost(tr, s0, us, hi) + Cost(tr, r0, vs, hi) >=
              Cost(tr, s0, us, lo) + Cost(tr, r0, vs, lo)
              + 255 * Weights(Xor(History(s0, us), History(r0, vs)), lo, hi)
    decreases hi
  {
    hide Branch, Bias, Weight, Value, History, RegisterAt;
    if lo < hi {
      CostsApart(tr, s0, us, r0, vs, lo, hi - 1);
      var g, h := History(s0, us), History(r0, vs);
      AtIsWindow(s0, us, hi - 1);
      AtIsWindow(r0, vs, hi - 1);
      BranchesApart(tr, hi - 1, g[hi - 1..hi + 6], h[hi - 1..hi + 6]);
      assert Xor(g, h)[hi - 1..hi + 6] == Xor(g[hi - 1..hi + 6], h[hi - 1..hi + 6]);
    }
  }

  lemma {:induction false} ValueZero(v: seq<bool>)
    requires Value(v) == 0
    ensures forall k :: 0 <= k < |v| ==> !v[k]
  {
    if v != [] { ValueZero(v[..|v| - 1]); }
  }

  lemma {:induction false} ZeroState(v: seq<bool>)
    requires forall k :: 0 <= k < |v| ==> !v[k]
    ensures Value(v) == 0
  {
    if v != [] { ZeroState(v[..|v| - 1]); }
  }

  /** A path that ends in state zero has fed six zeros last. */
  lemma EndsInZeros(s0: State, us: seq<bool>, n: nat)
    requires |us| == n && At(s0, us, n) == 0
    ensures forall k :: n <= k < n + 6 ==> !History(s0, us)[k]
  {
    hide Value;
    AtIsWindow(s0, us, n);
    var h := History(s0, us);
    ValueZero(h[n..n + 6]);
    forall k | n <= k < n + 6
      ensures !h[k]
    {
      assert h[k] == h[n..n + 6][k - n];
    }
  }

  lemma StartsInZeros(us: seq<bool>)
    ensures forall k :: 0 <= k < 6 ==> !History(0, us)[k]
  {
    SmallPowers();
    ValueZero(BitsOf(0, 6));
  }

  lemma EncodedEndsInZero(msg: seq<bool>)
    ensures At(0, Inputs(msg, false), |msg| + 6) == 0
  {
    var us, n := Inputs(msg, false), |msg| + 6;
    AtIsWindow(0, us, n);
    ZeroState(History(0, us)[n..n + 6]);
  }

  /** Distance below which the decoder cannot be misled. A wrong survivor that starts in state zero
      pays the free distance of fifteen whole bits; one from another start state, which the decoder
      allows at a bias of 63, pays at least eight, and so sets the bound, which is exact
      (ViterbiSharpness). */
  const LIMIT := 63 + 8 * 255

  /** Error correction: when twice the total distortion from the codeword of msg stays below the
      limit, the survivor's inputs are msg. */
  lemma Corrects(tr: Trial, msg: seq<bool>)
    requires tr.c == LTE && tr.start == 0 && |tr.y| == 3 * (|msg| + 6)
    requires 2 * Distortion(tr.y, Codeword(LTE, 0, Inputs(msg, false)), |tr.y|) < LIMIT
    ensures SurvivorInputs(tr, |msg| + 6, 0)[..|msg|] == msg
  {
    hide History, Weight, SurvivorInputs, Survivor, Best, Codeword;
    var n := |msg| + 6;
    var vs, s0, us := Inputs(msg, false), Survivor(tr, n, 0, 0), SurvivorInputs(tr, n, 0);
    EncodedEndsInZero(msg);
    Optimal(tr, n, 0);
    CostIsDistortion(tr, 0, vs, n);
    CostsApart(tr, s0, us, 0, vs, 0, n);
    assert Weights(Xor(History(s0, us), History(0, vs)), 0, n) * 255 + Bias(0, s0) < LIMIT;
    if j :| 0 <= j < |msg| && us[j] != msg[j] {
      WrongPathWeight(s0, us, vs, n, j);
      assert false;
    }
  }

  /** The difference of two paths into state zero that disagree on an input before the tail. */
  lemma WrongPathWeight(s0: State, us: seq<bool>, vs: seq<bool>, n: nat, j: nat)
    requires |us| == |vs| == n && At(s0, us, n) == 0 && At(0, vs, n) == 0 && j < n && us[j] != vs[j]
    ensures Weights(Xor(History(s0, us), History(0, vs)), 0, n) >= if s0 == 0 then 15 else 8
  {
    hide Weight, Weights, At, LastErrorAt;
    var g, h := History(s0, us), History(0, vs);
    EndsInZeros(s0, us, n);
    EndsInZeros(0, vs, n);
    StartsInZeros(us);
    StartsInZeros(vs);
    assert g[j + 6] == us[j] && h[j + 6] == vs[j];
    hide History;
    DifferenceWeight(g, h, n, j + 6, s0 == 0);
  }

  lemma DifferenceWeight(g: seq<bool>, h: seq<bool>, n: nat, j: nat, zeroStart: bool)
    requires |g| == |h| == n + 6 && 6 <= j < n && g[j] != h[j]
    requires forall k :: n <= k < n + 6 ==> !g[k] && !h[k]
    requires zeroStart ==> forall k :: 0 <= k < 6 ==> !g[k] && !h[k]
    ensures Weights(Xor(g, h), 0, n) >= if zeroStart then 15 else 8
  {
    hide Weight, Weights;
    var x := Xor(g, h);
    if zeroStart {
      EventWeight(x, 0, n, j - 6);
    } else {
      var i := FindLast(x, j);
      assert i < n;
      TailWeight(x, i);
      SplitWeights(x, 0, i - 6, i + 1);
      SplitWeights(x, 0, i + 1, n);
    }
  }

  // ---- hard bits --------------------------------------------------------------------------

  /** Number of hard samples, among the first n, on the wrong side of their coded bit. */
  function Flips(y: seq<Sample>, x: seq<bool>, n: nat): nat
    requires n <= |y| && n <= |x|
  {
    if n == 0 then 0 else Flips(y, x, n - 1) + Num((y[n - 1] == 255) != x[n - 1])
  }

  lemma {:induction false} HardDistortion(y: seq<Sample>, x: seq<bool>, n: nat)
    requires n <= |y| && n <= |x| && forall k :: 0 <= k < n ==> y[k] == 0 || y[k] == 255
    ensures Distortion(y, x, n) == 255 * Flips(y, x, n)
  {
    if n > 0 { HardDistortion(y, x, n - 1); }
  }

  /** Any four coded bits may be flipped, wherever they are and however long the frame. */
  lemma FourFlips(tr: Trial, msg: seq<bool>)
    requires tr.c == LTE && tr.start == 0 && |tr.y| == 3 * (|msg| + 6)
    requires forall k :: 0 <= k < |tr.y| ==> tr.y[k] == 0 || tr.y[k] == 255
    requires Flips(tr.y, Codeword(LTE, 0, Inputs(msg, false)), |tr.y|) <= 4
    ensures SurvivorInputs(tr, |msg| + 6, 0)[..|msg|] == msg
  {
    HardDistortion(tr.y, Codeword(LTE, 0, Inputs(msg, false)), |tr.y|);
    Corrects(tr, msg);
  }
}

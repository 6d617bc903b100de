/** How much noise the tail-biting decoder corrects. It works through the received frame three
    times over and takes the survivor into state zero; what it returns is the middle third
    (decode37 in srslte/lib/fec/viterbi.c). */
module TailBiting {
  import opened ConvolutionalCode
  import opened ViterbiMetrics
  import opened ViterbiCorrection

  // ---- long error paths are heavy ---------------------------------------------------------

  /** Potential of a register with errors a, b, .., f, oldest first: no step from or to an error
      lets it fall by more than three times the weight of the step, less two. */
  function Potential(a: bool, b: bool, c: bool, d: bool, e: bool, f: bool): (m: nat)
    ensures m <= 8
  {
    if a then
      if b then Pick16(c, d, e, f, 5, 3, 5, 1, 4, 8, 3, 5, 6, 5, 8, 6, 7, 4, 5, 3)
      else Pick16(c, d, e, f, 1, 6, 5, 5, 4, 8, 4, 3, 4, 3, 6, 7, 2, 5, 4, 5)
    else
      if b then Pick16(c, d, e, f, 2, 3, 8, 2, 5, 7, 6, 6, 4, 2, 5, 4, 6, 6, 8, 1)
      else Pick16(c, d, e, f, 8, 3, 6, 2, 7, 8, 1, 5, 3, 6, 8, 7, 0, 6, 4, 2)
  }

  lemma PotentialStep(a: bool, b: bool, c: bool, d: bool, e: bool, f: bool, g: bool)
    requires a || b || c || d || e || f || g
    ensures 3 * Weight([a, b, c, d, e, f, g]) + Potential(b, c, d, e, f, g) >= Potential(a, b, c, d, e, f) + 2
  {
    hide Par, Value;
    Taps(a, b, c, d, e, f, g);
  }

  function PotentialAt(x: seq<bool>, k: nat): (m: nat)
    requires k + 6 <= |x|
    ensures m <= 8
  {
    Potential(x[k], x[k + 1], x[k + 2], x[k + 3], x[k + 4], x[k + 5])
  }

  /** Some of the seven inputs from t on is an error. */
  ghost predicate ErrorIn(x: seq<bool>, t: nat) {
    t + 7 <= |x| && exists k :: t <= k < t + 7 && x[k]
  }

  lemma {:induction false} PotentialPath(x: seq<bool>, lo: nat, hi: nat)
    requires lo <= hi && hi + 6 <= |x| && forall t :: lo <= t < hi ==> ErrorIn(x, t)
    ensures 3 * Weights(x, lo, hi) + PotentialAt(x, hi) >= PotentialAt(x, lo) + 2 * (hi - lo)
    decreases hi
  {
    hide Weight, Potential;
    if lo < hi {
      PotentialPath(x, lo, hi - 1);
      SevenAt(x, hi - 1);
      assert ErrorIn(x, hi - 1);
      PotentialStep(x[hi - 1], x[hi], x[hi + 1], x[hi + 2], x[hi + 3], x[hi + 4], x[hi + 5]);
    }
  }

  /** A path that never rests in state zero gains two units of weight every three steps. */
  lemma LongPathWeight(x: seq<bool>, lo: nat, hi: nat)
    requires lo <= hi && hi + 6 <= |x| && forall t :: lo <= t < hi ==> ErrorIn(x, t)
    ensures 3 * Weights(x, lo, hi) + 8 >= 2 * (hi - lo)
  {
    hide Weights, PotentialAt;
    PotentialPath(x, lo, hi);
  }

  /** Six inputs into a register of zeros weigh at most 15. */
  lemma SixInputs(a: bool, b: bool, c: bool, d: bool, e: bool, f: bool)
    ensures Weight([false, false, false, false, false, false, a]) + Weight([false, false, false, false, false, a, b])
            + Weight([false, false, false, false, a, b, c]) + Weight([false, false, false, a, b, c, d])
            + Weight([false, false, a, b, c, d, e]) + Weight([false, a, b, c, d, e, f]) <= 15
  {
    hide Par, Value;
    Taps(false, false, false, false, false, false, a);
    Taps(false, false, false, false, false, a, b);
    Taps(false, false, false, false, a, b, c);
    Taps(false, false, false, a, b, c, d);
    Taps(false, false, a, b, c, d, e);
    Taps(false, a, b, c, d, e, f);
  }

  lemma LastSixWeight(x: seq<bool>, lo: nat, n: nat)
    requires lo + 6 <= n && |x| == n + 6 && forall k :: 0 <= k < n ==> !x[k]
    ensures Weights(x, lo, n) <= 15
  {
    hide Weight;
    var m := n - 6;
    SplitWeights(x, lo, m, n);
    NoWeight(x, lo, m);
    SixInputs(x[n], x[n + 1], x[n + 2], x[n + 3], x[n + 4], x[n + 5]);
    SevenAt(x, m);
    SevenAt(x, m + 1);
    SevenAt(x, m + 2);
    SevenAt(x, m + 3);
    SevenAt(x, m + 4);
    SevenAt(x, m + 5);
    SixWeights(x, m);
  }

  lemma SixWeights(x: seq<bool>, a: nat)
    requires a + 12 <= |x|
    ensures Weights(x, a, a + 6) ==
            Weight(x[a..a + 7]) + Weight(x[a + 1..a + 8]) + Weight(x[a + 2..a + 9]) + Weight(x[a + 3..a + 10])
            + Weight(x[a + 4..a + 11]) + Weight(x[a + 5..a + 12])
  {
    hide Weight;
    assert Weights(x, a, a + 1) == Weight(x[a..a + 7]);
    assert Weights(x, a, a + 3) == Weight(x[a..a + 7]) + Weight(x[a + 1..a + 8]) + Weight(x[a + 2..a + 9]);
    assert Weights(x, a, a + 5) == Weights(x, a, a + 3) + Weight(x[a + 3..a + 10]) + Weight(x[a + 4..a + 11]);
  }

  // ---- a tail-biting frame three times ----------------------------------------------------

  function Thrice<T>(s: seq<T>): (r: seq<T>)
    ensures |r| == 3 * |s|
  {
    s + s + s
  }

  lemma ThriceAt<T>(s: seq<T>, k: nat)
    requires k < |s|
    ensures Thrice(s)[k] == Thrice(s)[k + |s|] == Thrice(s)[k + 2 * |s|] == s[k]
  {
  }

  /** After six inputs or more the state is the last six of them. */
  lemma AtLastSix(s0: State, us: seq<bool>)
    requires |us| >= 6
    ensures At(s0, us, |us|) == Value(us[|us| - 6..])
  {
    hide Value, At;
    AtIsWindow(s0, us, |us|);
    HistoryAt(s0, us);
    assert History(s0, us)[|us|..|us| + 6] == us[|us| - 6..];
  }

  /** Only the inputs so far matter. */
  lemma {:induction false} AtPrefix(s0: State, us: seq<bool>, vs: seq<bool>, t: nat)
    requires t <= |us| && t <= |vs| && us[..t] == vs[..t]
    ensures At(s0, us, t) == At(s0, vs, t)
  {
    hide Next;
    if t > 0 {
      assert us[t - 1] == us[..t][t - 1] == vs[t - 1];
      assert us[..t - 1] == us[..t][..t - 1] == vs[..t - 1];
      AtPrefix(s0, us, vs, t - 1);
    }
  }

  /** A tail-biting frame ends in the state it starts from, so three of them are one path. */
  lemma {:induction false} FrameRepeats(msg: seq<bool>, t: nat)
    requires |msg| >= 6 && t <= 2 * |msg|
    ensures var r0, vs := Start(msg, true), Thrice(msg);
            At(r0, vs, t + |msg|) == At(r0, vs, t)
  {
    hide Next;
    var r0, vs, n := Start(msg, true), Thrice(msg), |msg|;
    if t == 0 {
      AtPrefix(r0, vs, msg, n);
      AtLastSix(r0, msg);
      AtLastSix(0, msg[n - 6..]);
      assert msg[n - 6..][0..] == msg[n - 6..];
    } else {
      FrameRepeats(msg, t - 1);
      assert vs[t - 1 + n] == vs[t - 1] by { RepeatAt(msg, t - 1); }
    }
  }

  lemma RepeatAt<T>(s: seq<T>, k: nat)
    requires k < 2 * |s|
    ensures Thrice(s)[k + |s|] == Thrice(s)[k]
  {
    hide Thrice;
    ThriceAt(s, if k < |s| then k else k - |s|);
  }

  /** The codeword of three frames is three times the codeword of one. */
  lemma CodewordRepeats(msg: seq<bool>, k: nat)
    requires |msg| >= 6 && k < 6 * |msg|
    ensures var x := Codeword(LTE, Start(msg, true), Thrice(msg));
            x[k + 3 * |msg|] == x[k]
  {
    hide Par, At, Next, Start;
    var n := |msg|;
    FrameRepeats(msg, k / 3);
    RepeatAt(msg, k / 3);
    assert (k + 3 * n) / 3 == k / 3 + n && (k + 3 * n) % 3 == k % 3;
  }

  lemma FirstFrame(msg: seq<bool>, k: nat)
    requires |msg| >= 6 && k < 3 * |msg|
    ensures Codeword(LTE, Start(msg, true), Thrice(msg))[k] == Codeword(LTE, Start(msg, true), msg)[k]
  {
    hide Par, At, Next, Start;
    assert Thrice(msg)[..k / 3] == msg[..k / 3];
    ThriceAt(msg, k / 3);
    AtPrefix(Start(msg, true), Thrice(msg), msg, k / 3);
  }

  // ---- distortion of a repeated frame -----------------------------------------------------

  lemma {:induction false} DistortionGrows(y: seq<Sample>, x: seq<bool>, m: nat, n: nat)
    requires m <= n <= |y| && n <= |x|
    ensures Distortion(y, x, m) <= Distortion(y, x, n)
    decreases n
  {
    hide Gap;
    if m < n { DistortionGrows(y, x, m, n - 1); }
  }

  /** Both samples and codeword have period q. */
  ghost predicate Periodic(y: seq<Sample>, x: seq<bool>, q: nat) {
    |y| == |x| == 3 * q && forall k :: 0 <= k < 2 * q ==> y[k + q] == y[k] && x[k + q] == x[k]
  }

  lemma {:induction false} DistortionShifts(y: seq<Sample>, x: seq<bool>, q: nat, n: nat)
    requires Periodic(y, x, q) && n <= 2 * q
    ensures Distortion(y, x, n + q) == Distortion(y, x, n) + Distortion(y, x, q)
  {
    hide Gap;
    if n > 0 {
      DistortionShifts(y, x, q, n - 1);
      assert y[n - 1 + q] == y[n - 1] && x[n - 1 + q] == x[n - 1];
    }
  }

  /** What one frame's distortion allows between two times: no more than itself within one frame
      length, three times itself in any case. */
  lemma {:induction false} WindowDistortion(y: seq<Sample>, x: seq<bool>, q: nat, lo: nat, hi: nat)
    requires |y| == |x| == 3 * q && Periodic(y, x, q) && lo <= 2 * q && lo <= hi <= 3 * q
    ensures hi - lo <= q ==> Distortion(y, x, hi) <= Distortion(y, x, lo) + Distortion(y, x, q)
    ensures Distortion(y, x, hi) <= Distortion(y, x, lo) + 3 * Distortion(y, x, q)
  {
    hide Distortion, Periodic;
    DistortionShifts(y, x, q, lo);
    if hi - lo <= q { DistortionGrows(y, x, hi, lo + q); }
    DistortionGrows(y, x, hi, 3 * q);
    DistortionShifts(y, x, q, 2 * q);
    DistortionShifts(y, x, q, q);
  }

  lemma {:induction false} DistortionOfPart(y: seq<Sample>, x: seq<bool>, y': seq<Sample>, x': seq<bool>, n: nat)
    requires n <= |y| && n <= |x| && n <= |y'| && n <= |x'|
    requires forall k :: 0 <= k < n ==> y[k] == y'[k] && x[k] == x'[k]
    ensures Distortion(y, x, n) == Distortion(y', x', n)
  {
    hide Gap;
    if n > 0 { DistortionOfPart(y, x, y', x', n - 1); }
  }

  /** Distortion of a received frame. */
  function FrameDistortion(y: seq<Sample>, msg: seq<bool>): nat
    requires |msg| >= 6 && |y| == 3 * |msg|
  {
    Distortion(y, Codeword(LTE, Start(msg, true), msg), |y|)
  }

  lemma FramesPeriodic(y: seq<Sample>, msg: seq<bool>)
    requires |msg| >= 6 && |y| == 3 * |msg|
    ensures var x := Codeword(LTE, Start(msg, true), Thrice(msg));
            Periodic(Thrice(y), x, |y|) && Distortion(Thrice(y), x, |y|) == FrameDistortion(y, msg)
  {
    hide Codeword, Start, Gap, Distortion, Thrice;
    var x, q := Codeword(LTE, Start(msg, true), Thrice(msg)), |y|;
    forall k | 0 <= k < 2 * q
      ensures Thrice(y)[k + q] == Thrice(y)[k] && x[k + q] == x[k]
    {
      RepeatAt(y, k);
      CodewordRepeats(msg, k);
    }
    forall k | 0 <= k < q
      ensures Thrice(y)[k] == y[k] && x[k] == Codeword(LTE, Start(msg, true), msg)[k]
    {
      FirstFrame(msg, k);
      ThriceAt(y, k);
    }
    DistortionOfPart(Thrice(y), x, y, Codeword(LTE, Start(msg, true), msg), q);
  }

  // ---- the survivor against other paths ---------------------------------------------------

  /** From any time on, the metric is no worse than along any path. */
  lemma {:induction false} BestAlong(tr: Trial, r0: State, vs: seq<bool>, lo: nat, hi: nat)
    requires lo <= hi <= |vs| && 3 * hi <= |tr.y|
    ensures Best(tr, hi, At(r0, vs, hi)) + Cost(tr, r0, vs, lo) <= Best(tr, lo, At(r0, vs, lo)) + Cost(tr, r0, vs, hi)
    decreases hi
  {
    hide Best, Branch, Register, Next;
    if lo < hi {
      BestAlong(tr, r0, vs, lo, hi - 1);
      BestStep(tr, hi - 1, At(r0, vs, hi - 1), vs[hi - 1]);
    }
  }

  /** Paths whose difference is light cost about the same. */
  lemma BranchesNear(tr: Trial, t: nat, v: seq<bool>, w: seq<bool>)
    requires tr.c == LTE && 3 * t + 3 <= |tr.y| && |v| == |w|
    ensures Branch(tr, t, Value(w)) <= Branch(tr, t, Value(v)) + 255 * Weight(Xor(v, w))
  {
    hide Value, Par;
    WeightOfDifference(v, w);
  }

  lemma {:induction false} CostsNear(tr: Trial, r0: State, vs: seq<bool>, ws: seq<bool>, lo: nat, hi: nat)
    requires tr.c == LTE && |vs| == |ws| && lo <= hi <= |vs| && 3 * hi <= |tr.y|
    ensures Cost(tr, r0, ws, hi) + Cost(tr, r0, vs, lo) <=
              Cost(tr, r0, ws, lo) + Cost(tr, r0, vs, hi) + 255 * Weights(Xor(History(r0, vs), History(r0, ws)), lo, hi)
    decreases hi
  {
    hide Branch, Bias, Weight, Value, History, RegisterAt;
    if lo < hi {
      CostsNear(tr, r0, vs, ws, lo, hi - 1);
      var g, h := History(r0, vs), History(r0, ws);
      AtIsWindow(r0, vs, hi - 1);
      AtIsWindow(r0, ws, hi - 1);
      BranchesNear(tr, hi - 1, g[hi - 1..hi + 6], h[hi - 1..hi + 6]);
      assert Xor(g, h)[hi - 1..hi + 6] == Xor(g[hi - 1..hi + 6], h[hi - 1..hi + 6]);
    }
  }

  /** Where the difference is zero, so is the difference of the states. */
  lemma SameState(s0: State, us: seq<bool>, r0: State, vs: seq<bool>, t: nat)
    requires |us| == |vs| && t <= |us| && ZeroAt(Xor(History(s0, us), History(r0, vs)), t)
    ensures At(s0, us, t) == At(r0, vs, t)
  {
    hide Value, History, At;
    AtIsWindow(s0, us, t);
    AtIsWindow(r0, vs, t);
    var g, h := History(s0, us), History(r0, vs);
    forall k | t <= k < t + 6
      ensures g[k] == h[k]
    {
      assert !Xor(g, h)[k];
    }
    assert g[t..t + 6] == h[t..t + 6];
  }

  /** The path vs, but led to state zero by its last six inputs. */
  function Closed(vs: seq<bool>): (ws: seq<bool>)
    requires |vs| >= 6
    ensures |ws| == |vs|
  {
    vs[..|vs| - 6] + Zeros(6)
  }

  lemma ClosedPath(r0: State, vs: seq<bool>, t: nat)
    requires |vs| >= 6 && t + 6 <= |vs|
    ensures At(r0, Closed(vs), |vs|) == 0 && At(r0, Closed(vs), t) == At(r0, vs, t)
    ensures Weights(Xor(History(r0, vs), History(r0, Closed(vs))), t, |vs|) <= 15
  {
    hide Value, At, Weights;
    var ws, n := Closed(vs), |vs|;
    AtLastSix(r0, ws);
    ZeroState(ws[n - 6..]);
    assert ws[..t] == vs[..t];
    AtPrefix(r0, ws, vs, t);
    var x := Xor(History(r0, vs), History(r0, ws));
    forall k | 0 <= k < n
      ensures !x[k]
    {
      if k >= 6 { assert History(r0, vs)[k] == vs[k - 6] && History(r0, ws)[k] == ws[k - 6]; }
    }
    LastSixWeight(x, t, n);
  }

  // ---- error events -----------------------------------------------------------------------

  /** The survivor into state zero, compared with the path of the message: x is the difference of
      their histories. */
  ghost predicate Setup(tr: Trial, n: nat, msg: seq<bool>, x: seq<bool>) {
    && tr.c == LTE && tr.start == -1 && |msg| >= 6 && n == 3 * |msg| && |tr.y| == 3 * n
    && x == Xor(History(Survivor(tr, n, 0, 0), SurvivorInputs(tr, n, 0)), History(Start(msg, true), Thrice(msg)))
  }

  /** The last visit of the difference to state zero until j, or the beginning. */
  lemma EventBegin(x: seq<bool>, j: nat) returns (lo: nat)
    requires j + 6 <= |x|
    ensures lo <= j && (ZeroAt(x, lo) || lo == 0) && forall t :: lo < t <= j ==> !ZeroAt(x, t)
  {
    lo := j;
    while lo > 0 && !ZeroAt(x, lo)
      invariant 0 <= lo <= j && forall t :: lo < t <= j ==> !ZeroAt(x, t)
    {
      lo := lo - 1;
    }
  }

  /** The first one after j, or the end. */
  lemma EventEnd(x: seq<bool>, j: nat) returns (hi: nat)
    requires j + 7 <= |x|
    ensures j < hi && hi + 6 <= |x| && (ZeroAt(x, hi) || hi + 6 == |x|)
    ensures forall t :: j < t < hi ==> !ZeroAt(x, t)
  {
    hi := j + 1;
    while hi + 6 < |x| && !ZeroAt(x, hi)
      invariant j < hi && hi + 6 <= |x| && forall t :: j < t < hi ==> !ZeroAt(x, t)
    {
      hi := hi + 1;
    }
  }

  /** During an event every seven inputs hold an error. */
  lemma EventErrors(x: seq<bool>, lo: nat, j: nat, hi: nat)
    requires lo <= j < hi && hi + 6 <= |x| && x[j + 6]
    requires forall t :: lo < t < hi ==> t == j || !ZeroAt(x, t)
    requires lo < j ==> !ZeroAt(x, j)
    ensures forall t :: lo <= t < hi ==> ErrorIn(x, t)
  {
    forall t | lo <= t < hi
      ensures ErrorIn(x, t)
    {
      if t == j {
        assert x[j + 6];
      } else {
        var u := if t < j then t + 1 else t;
        assert !ZeroAt(x, u);
        var k :| u <= k < u + 6 && x[k];
      }
    }
  }

  /** At the beginning of an event the message path is as cheap as the survivor. */
  lemma BeginsEven(tr: Trial, n: nat, msg: seq<bool>, x: seq<bool>, lo: nat)
    requires Setup(tr, n, msg, x) && lo <= n && (ZeroAt(x, lo) || lo == 0)
    ensures Best(tr, lo, At(Start(msg, true), Thrice(msg), lo)) ==
            Cost(tr, Survivor(tr, n, 0, 0), SurvivorInputs(tr, n, 0), lo)
  {
    hide Branch, Survivor, SurvivorInputs, History, Start;
    if ZeroAt(x, lo) {
      SameState(Survivor(tr, n, 0, 0), SurvivorInputs(tr, n, 0), Start(msg, true), Thrice(msg), lo);
      SurvivorAttains(tr, n, 0, lo);
    }
  }

  /** Over an event the survivor costs no more than the message path, or, when it lasts to the very
      end, no more than the message path led to state zero. */
  lemma SurvivorCheaper(tr: Trial, n: nat, msg: seq<bool>, x: seq<bool>, lo: nat, hi: nat)
    requires Setup(tr, n, msg, x) && lo <= hi <= n && (ZeroAt(x, lo) || lo == 0)
    requires ZeroAt(x, hi) || (hi == n && lo + 6 <= n)
    ensures var s0, us, r0, vs := Survivor(tr, n, 0, 0), SurvivorInputs(tr, n, 0), Start(msg, true), Thrice(msg);
            Cost(tr, s0, us, hi) + Cost(tr, r0, vs, lo) <=
              Cost(tr, s0, us, lo) + Cost(tr, r0, vs, hi) + if ZeroAt(x, hi) then 0 else 15 * 255
  {
    hide Branch, Survivor, SurvivorInputs, History, Start, Best, Cost, Weights, At;
    var s0, us, r0, vs := Survivor(tr, n, 0, 0), SurvivorInputs(tr, n, 0), Start(msg, true), Thrice(msg);
    BeginsEven(tr, n, msg, x, lo);
    SurvivorAttains(tr, n, 0, hi);
    if ZeroAt(x, hi) {
      SameState(s0, us, r0, vs, hi);
      BestAlong(tr, r0, vs, lo, hi);
    } else {
      var ws := Closed(vs);
      ClosedPath(r0, vs, lo);
      BestAlong(tr, r0, ws, lo, n);
      CostsNear(tr, r0, vs, ws, lo, n);
      SurvivorEnd(tr, n);
    }
  }

  lemma SurvivorEnd(tr: Trial, n: nat)
    requires 3 * n <= |tr.y|
    ensures Survivor(tr, n, 0, n) == 0
  {
  }

  /** The weight of an event is paid for twice by the distortion of the message path. */
  lemma EventCost(tr: Trial, n: nat, msg: seq<bool>, x: seq<bool>, lo: nat, hi: nat)
    requires Setup(tr, n, msg, x) && lo <= hi <= n && (ZeroAt(x, lo) || lo == 0)
    requires ZeroAt(x, hi) || (hi == n && lo + 6 <= n)
    ensures var w := Codeword(LTE, Start(msg, true), Thrice(msg));
            255 * Weights(x, lo, hi) <=
              2 * (Distortion(tr.y, w, 3 * hi) - Distortion(tr.y, w, 3 * lo)) + if ZeroAt(x, hi) then 0 else 15 * 255
  {
    hide Branch, Survivor, SurvivorInputs, History, Start, Best, Cost, Weights, Distortion, Codeword, ZeroAt, Thrice;
    var s0, us, r0, vs := Survivor(tr, n, 0, 0), SurvivorInputs(tr, n, 0), Start(msg, true), Thrice(msg);
    SurvivorCheaper(tr, n, msg, x, lo, hi);
    CostsApart(tr, s0, us, r0, vs, lo, hi);
    CostIsDistortion(tr, r0, vs, lo);
    CostIsDistortion(tr, r0, vs, hi);
  }

  // ---- correction -------------------------------------------------------------------------

  /** Distortion d of a frame of n bits is within reach: less than half the free distance, and
      small against what a path wrong for a whole frame weighs. */
  predicate Correctable(n: nat, d: nat) {
    2 * d < 15 * 255 && 18 * d + 53 * 255 < 2 * n * 255
  }

  /** Error correction: a tail-biting frame within reach of the codeword of msg decodes to msg. */
  lemma TailBitingCorrects(tr: Trial, y: seq<Sample>, msg: seq<bool>)
    requires tr.c == LTE && tr.start == -1 && tr.y == Thrice(y) && |msg| >= 6 && |y| == 3 * |msg|
    requires Correctable(|msg|, FrameDistortion(y, msg))
    ensures SurvivorInputs(tr, 3 * |msg|, 0)[|msg|..2 * |msg|] == msg
  {
    hide Survivor, SurvivorInputs, History, Start, FrameDistortion, Correctable, Thrice, Xor;
    var f, n := |msg|, 3 * |msg|;
    var us := SurvivorInputs(tr, n, 0);
    var x := Xor(History(Survivor(tr, n, 0, 0), us), History(Start(msg, true), Thrice(msg)));
    forall j | f <= j < 2 * f
      ensures us[j] == msg[j - f]
    {
      if us[j] != msg[j - f] {
        DifferenceAt(tr, n, msg, x, j);
        NoError(tr, y, n, msg, x, j);
      }
    }
  }

  lemma DifferenceAt(tr: Trial, n: nat, msg: seq<bool>, x: seq<bool>, j: nat)
    requires Setup(tr, n, msg, x) && |msg| <= j < 2 * |msg|
    ensures x[j + 6] == (SurvivorInputs(tr, n, 0)[j] != msg[j - |msg|])
  {
    hide Survivor, SurvivorInputs, Start, Thrice;
    ThriceAt(msg, j - |msg|);
    HistoryAt(Survivor(tr, n, 0, 0), SurvivorInputs(tr, n, 0));
    HistoryAt(Start(msg, true), Thrice(msg));
  }

  /** No event reaches into the middle frame. */
  lemma NoError(tr: Trial, y: seq<Sample>, n: nat, msg: seq<bool>, x: seq<bool>, j: nat)
    requires Setup(tr, n, msg, x) && tr.y == Thrice(y) && |y| == 3 * |msg|
    requires Correctable(|msg|, FrameDistortion(y, msg)) && |msg| <= j < 2 * |msg|
    ensures !x[j + 6]
  {
    hide Survivor, SurvivorInputs, History, Start, FrameDistortion, Codeword, Distortion, Weights, Thrice, Xor;
    hide ZeroAt, ErrorIn;
    var f := |msg|;
    var w := Codeword(LTE, Start(msg, true), Thrice(msg));
    if x[j + 6] {
      var lo := EventBegin(x, j);
      var hi := EventEnd(x, j);
      EventCost(tr, n, msg, x, lo, hi);
      FramesPeriodic(y, msg);
      WindowDistortion(tr.y, w, |y|, 3 * lo, 3 * hi);
      EventErrors(x, lo, j, hi);
      LongPathWeight(x, lo, hi);
      if hi - lo <= f && ZeroAt(x, lo) && ZeroAt(x, hi) {
        EventWeight(x, lo, hi, j);
      }
      assert false;
    }
  }

  /** Hard bits: up to seven flipped bits in a frame are corrected, as long as the frame is long
      enough for that many. */
  lemma FlippedFrame(tr: Trial, y: seq<Sample>, msg: seq<bool>)
    requires tr.c == LTE && tr.start == -1 && tr.y == Thrice(y) && |msg| >= 6 && |y| == 3 * |msg|
    requires forall k :: 0 <= k < |y| ==> y[k] == 0 || y[k] == 255
    requires var flips := Flips(y, Codeword(LTE, Start(msg, true), msg), |y|);
             flips <= 7 && 18 * flips + 53 < 2 * |msg|
    ensures SurvivorInputs(tr, 3 * |msg|, 0)[|msg|..2 * |msg|] == msg
  {
    hide SurvivorInputs, Start, Codeword;
    HardDistortion(y, Codeword(LTE, Start(msg, true), msg), |y|);
    TailBitingCorrects(tr, y, msg);
  }
}

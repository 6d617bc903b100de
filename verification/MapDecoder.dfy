/** The max-log-MAP decoder of one constituent code, over exact arithmetic
    (map_gen_* in srslte/lib/fec/turbodecoder_gen.c). */
module MapDecoder {
  import opened Trellis

  /** Penalty for paths that do not start or end in the all-zero state. */
  const INF: real := 90000.0

  function Max(a: real, b: real): real {
    if b > a then b else a
  }

  function Bias(s: State): real {
    if s == ZERO then 0.0 else -INF
  }

  /** What input bit u in state s earns from the systematic value x and the parity value y. */
  function Gain(x: real, y: real, s: State, u: bool): real {
    (if u then x else 0.0) + (if Parity(s, u) then y else 0.0)
  }

  /** Total gain of the inputs us fed from step k on in state s. */
  function Score(x: seq<real>, y: seq<real>, k: nat, s: State, us: seq<bool>): real
    requires |x| == |y| && k + |us| <= |x|
    decreases |us|
  {
    if us == [] then 0.0
    else Gain(x[k], y[k], s, us[0]) + Score(x, y, k + 1, Next(s, us[0]), us[1..])
  }

  /** Score of a complete path through the trellis. */
  function PathScore(x: seq<real>, y: seq<real>, s: State, us: seq<bool>): real
    requires |us| == |x| == |y|
  {
    Bias(s) + Score(x, y, 0, s, us) + Bias(Run(s, us))
  }

  /** v is the best score among all complete paths whose input at step k is u. */
  ghost predicate IsBestScore(x: seq<real>, y: seq<real>, k: nat, u: bool, v: real)
    requires k < |x| == |y|
  {
    && (forall s, us: seq<bool> {:trigger PathScore(x, y, s, us)} ::
          |us| == |x| && us[k] == u ==> PathScore(x, y, s, us) <= v)
    && (exists s, us: seq<bool> {:trigger PathScore(x, y, s, us)} ::
          |us| == |x| && us[k] == u && PathScore(x, y, s, us) == v)
  }

  // ---- the two recursions over the trellis -----------------------------------------------

  function Beta(x: seq<real>, y: seq<real>, k: nat, s: State): real
    requires |x| == |y| && k <= |x|
    decreases |x| - k
  {
    if k == |x| then Bias(s)
    else Max(Gain(x[k], y[k], s, false) + Beta(x, y, k + 1, Next(s, false)),
             Gain(x[k], y[k], s, true) + Beta(x, y, k + 1, Next(s, true)))
  }

  function Alpha(x: seq<real>, y: seq<real>, k: nat, s: State): real
    requires |x| == |y| && k <= |x|
    decreases k, 0
  {
    if k == 0 then Bias(s)
    else Max(Into(x, y, k - 1, s, true), Into(x, y, k - 1, s, false))
  }

  /** Best score of reaching s after step k with input u. */
  function Into(x: seq<real>, y: seq<real>, k: nat, s: State, u: bool): real
    requires |x| == |y| && k < |x|
    decreases k, 1
  {
    Alpha(x, y, k, Prev(s, u)) + Gain(x[k], y[k], Prev(s, u), u)
  }

  /** Best score of a path that takes input u at step k and then reaches state number i. */
  function Through(x: seq<real>, y: seq<real>, k: nat, u: bool, i: nat): real
    requires |x| == |y| && k < |x| && i < 8
  {
    Into(x, y, k, StateAt(i), u) + Beta(x, y, k + 1, StateAt(i))
  }

  function BestUpTo(x: seq<real>, y: seq<real>, k: nat, u: bool, i: nat): real
    requires |x| == |y| && k < |x| && i < 8
  {
    if i == 0 then Through(x, y, k, u, 0)
    else Max(BestUpTo(x, y, k, u, i - 1), Through(x, y, k, u, i))
  }

  /** The log-likelihood ratio the decoder outputs for step k. */
  function Llr(x: seq<real>, y: seq<real>, k: nat): real
    requires |x| == |y| && k < |x|
  {
    BestUpTo(x, y, k, true, 7) - BestUpTo(x, y, k, false, 7)
  }

  // ---- exactness --------------------------------------------------------------------------

  lemma {:induction false} ScoreAppend(x: seq<real>, y: seq<real>, k: nat, s: State, us: seq<bool>, vs: seq<bool>)
    requires |x| == |y| && k + |us| + |vs| <= |x|
    ensures Score(x, y, k, s, us + vs) == Score(x, y, k, s, us) + Score(x, y, k + |us|, Run(s, us), vs)
    decreases |us|
  {
    if us == [] {
      assert us + vs == vs;
    } else {
      assert (us + vs)[1..] == us[1..] + vs;
      ScoreAppend(x, y, k + 1, Next(s, us[0]), us[1..], vs);
    }
  }

  lemma {:induction false} BetaBounds(x: seq<real>, y: seq<real>, k: nat, s: State, us: seq<bool>)
    requires |x| == |y| && k + |us| == |x|
    ensures Score(x, y, k, s, us) + Bias(Run(s, us)) <= Beta(x, y, k, s)
    decreases |us|
  {
    if us != [] {
      BetaBounds(x, y, k + 1, Next(s, us[0]), us[1..]);
    }
  }

  lemma {:induction false} BetaAttained(x: seq<real>, y: seq<real>, k: nat, s: State) returns (us: seq<bool>)
    requires |x| == |y| && k <= |x|
    ensures k + |us| == |x| && Score(x, y, k, s, us) + Bias(Run(s, us)) == Beta(x, y, k, s)
    decreases |x| - k
  {
    if k == |x| {
      us := [];
    } else {
      var u := Gain(x[k], y[k], s, true) + Beta(x, y, k + 1, Next(s, true)) >
               Gain(x[k], y[k], s, false) + Beta(x, y, k + 1, Next(s, false));
      var vs := BetaAttained(x, y, k + 1, Next(s, u));
      us := [u] + vs;
      assert us[1..] == vs;
    }
  }

  lemma {:induction false} AlphaBounds(x: seq<real>, y: seq<real>, s: State, us: seq<bool>)
    requires |us| <= |x| == |y|
    ensures Bias(s) + Score(x, y, 0, s, us) <= Alpha(x, y, |us|, Run(s, us))
    ensures us != [] ==> var k := |us| - 1;
              Bias(s) + Score(x, y, 0, s, us) <= Into(x, y, k, Run(s, us), us[k])
    decreases |us|
  {
    if us != [] {
      var k := |us| - 1;
      var init, u := us[..k], us[k];
      assert us == init + [u];
      AlphaBounds(x, y, s, init);
      ScoreAppend(x, y, 0, s, init, [u]);
      RunAppend(s, init, [u]);
      PrevOfNext(Run(s, init), u);
    }
  }

  lemma {:induction false} AlphaAttained(x: seq<real>, y: seq<real>, k: nat, t: State)
    returns (s: State, us: seq<bool>)
    requires |x| == |y| && k <= |x|
    ensures |us| == k && Run(s, us) == t && Bias(s) + Score(x, y, 0, s, us) == Alpha(x, y, k, t)
    decreases k, 0
  {
    if k == 0 {
      s, us := t, [];
    } else {
      s, us := IntoAttained(x, y, k - 1, t, !(Into(x, y, k - 1, t, false) > Into(x, y, k - 1, t, true)));
    }
  }

  lemma {:induction false} IntoAttained(x: seq<real>, y: seq<real>, k: nat, t: State, u: bool)
    returns (s: State, us: seq<bool>)
    requires |x| == |y| && k < |x|
    ensures |us| == k + 1 && us[k] == u && Run(s, us) == t
    ensures Bias(s) + Score(x, y, 0, s, us) == Into(x, y, k, t, u)
    decreases k, 1
  {
    var init;
    s, init := AlphaAttained(x, y, k, Prev(t, u));
    us := init + [u];
    ScoreAppend(x, y, 0, s, init, [u]);
    RunAppend(s, init, [u]);
  }

  lemma BestUpToBounds(x: seq<real>, y: seq<real>, k: nat, u: bool, i: nat, j: nat)
    requires |x| == |y| && k < |x| && j <= i < 8
    ensures Through(x, y, k, u, j) <= BestUpTo(x, y, k, u, i)
  {
  }

  lemma BestUpToAttained(x: seq<real>, y: seq<real>, k: nat, u: bool, i: nat) returns (j: nat)
    requires |x| == |y| && k < |x| && i < 8
    ensures j <= i && Through(x, y, k, u, j) == BestUpTo(x, y, k, u, i)
  {
    if i == 0 || Through(x, y, k, u, i) > BestUpTo(x, y, k, u, i - 1) {
      j := i;
    } else {
      j := BestUpToAttained(x, y, k, u, i - 1);
    }
  }

  /** The forward and backward recursions meet in the best score over all paths through bit k. */
  lemma BestUpToIsBest(x: seq<real>, y: seq<real>, k: nat, u: bool)
    requires k < |x| == |y|
    ensures IsBestScore(x, y, k, u, BestUpTo(x, y, k, u, 7))
  {
    var v := BestUpTo(x, y, k, u, 7);
    forall s, us: seq<bool> | |us| == |x| && us[k] == u
      ensures PathScore(x, y, s, us) <= v
    {
      var head, rest := us[..k + 1], us[k + 1..];
      assert us == head + rest;
      ScoreAppend(x, y, 0, s, head, rest);
      RunAppend(s, head, rest);
      AlphaBounds(x, y, s, head);
      BetaBounds(x, y, k + 1, Run(s, head), rest);
      BestUpToBounds(x, y, k, u, 7, Index(Run(s, head)));
    }
    var i := BestUpToAttained(x, y, k, u, 7);
    var s, head := IntoAttained(x, y, k, StateAt(i), u);
    var rest := BetaAttained(x, y, k + 1, StateAt(i));
    ScoreAppend(x, y, 0, s, head, rest);
    RunAppend(s, head, rest);
    assert PathScore(x, y, s, head + rest) == v;
  }

  /** Max-log-MAP is exact: the output is the best score with bit k set minus the best with it
      clear, over all paths of the encoder's trellis. */
  lemma LlrIsExact(x: seq<real>, y: seq<real>, k: nat) returns (v1: real, v0: real)
    requires k < |x| == |y|
    ensures Llr(x, y, k) == v1 - v0
    ensures IsBestScore(x, y, k, true, v1) && IsBestScore(x, y, k, false, v0)
  {
    v1, v0 := BestUpTo(x, y, k, true, 7), BestUpTo(x, y, k, false, 7);
    BestUpToIsBest(x, y, k, true);
    BestUpToIsBest(x, y, k, false);
  }

  // ---- the extrinsic part -----------------------------------------------------------------

  /** What the decoder finds out about bit k from everything but its own systematic value. */
  function Extrinsic(x: seq<real>, y: seq<real>, k: nat): real
    requires |x| == |y| && k < |x|
  {
    Llr(x[k := 0.0], y, k)
  }

  lemma {:induction false} ScoreWithout(x: seq<real>, y: seq<real>, j: nat, s: State, us: seq<bool>, k: nat)
    requires |x| == |y| && j + |us| <= |x| && k < |x|
    ensures Score(x, y, j, s, us) ==
            Score(x[k := 0.0], y, j, s, us) + if j <= k < j + |us| && us[k - j] then x[k] else 0.0
    decreases |us|
  {
    if us != [] {
      ScoreWithout(x, y, j + 1, Next(s, us[0]), us[1..], k);
    }
  }

  /** Taking the systematic value of step k away lowers the best score through bit u by what that
      value earned. */
  lemma BestWithout(x: seq<real>, y: seq<real>, k: nat, u: bool, v: real, v': real)
    requires k < |x| == |y| && IsBestScore(x, y, k, u, v) && IsBestScore(x[k := 0.0], y, k, u, v')
    ensures v == v' + if u then x[k] else 0.0
  {
    var s, us: seq<bool> :| |us| == |x| && us[k] == u && PathScore(x, y, s, us) == v;
    ScoreWithout(x, y, 0, s, us, k);
    assert PathScore(x[k := 0.0], y, s, us) <= v';
    var s', us': seq<bool> :| |us'| == |x| && us'[k] == u && PathScore(x[k := 0.0], y, s', us') == v';
    ScoreWithout(x, y, 0, s', us', k);
    assert PathScore(x, y, s', us') <= v;
  }

  /** The output is the systematic value plus the extrinsic part. */
  lemma LlrSplits(x: seq<real>, y: seq<real>, k: nat)
    requires k < |x| == |y|
    ensures Llr(x, y, k) == x[k] + Extrinsic(x, y, k)
  {
    hide Llr, IsBestScore;
    var v1, v0 := LlrIsExact(x, y, k);
    var w1, w0 := LlrIsExact(x[k := 0.0], y, k);
    BestWithout(x, y, k, true, v1, w1);
    BestWithout(x, y, k, false, v0, w0);
  }

  /** The output is positive just if some path through a one scores better than all through a zero. */
  lemma PositiveMeansOne(x: seq<real>, y: seq<real>, k: nat)
    requires k < |x| == |y|
    ensures Llr(x, y, k) > 0.0 <==>
              exists s, us: seq<bool> {:trigger PathScore(x, y, s, us)} ::
                |us| == |x| && us[k] && forall s', us': seq<bool> {:trigger PathScore(x, y, s', us')} ::
                  |us'| == |x| && !us'[k] ==> PathScore(x, y, s', us') < PathScore(x, y, s, us)
  {
    hide Llr, PathScore;
    var v1, v0 := LlrIsExact(x, y, k);
    var s0, us0: seq<bool> :| |us0| == |x| && !us0[k] && PathScore(x, y, s0, us0) == v0;
    if Llr(x, y, k) > 0.0 {
      var s, us: seq<bool> :| |us| == |x| && us[k] && PathScore(x, y, s, us) == v1;
      assert forall s', us': seq<bool> {:trigger PathScore(x, y, s', us')} ::
          |us'| == |x| && !us'[k] ==> PathScore(x, y, s', us') < PathScore(x, y, s, us);
    }
  }

  // ---- noise-free input -------------------------------------------------------------------

  /** A soft value that does not oppose bit b. */
  predicate Agrees(v: real, b: bool) {
    if b then v >= 0.0 else v <= 0.0
  }

  function Positive(v: real): real {
    if v > 0.0 then v else 0.0
  }

  function Magnitude(v: real): real {
    if v > 0.0 then v else -v
  }

  /** No path earns more than the sum of the positive soft values from step k on. */
  function Ceiling(x: seq<real>, y: seq<real>, k: nat, n: nat): real
    requires |x| == |y| && k + n <= |x|
    decreases n
  {
    if n == 0 then 0.0 else Positive(x[k]) + Positive(y[k]) + Ceiling(x, y, k + 1, n - 1)
  }

  /** A path that opposes the sign of x at step j falls short of the ceiling by |x[j]|. */
  lemma {:induction false} ScoreBelowCeiling(x: seq<real>, y: seq<real>, k: nat, s: State, vs: seq<bool>, j: nat)
    requires |x| == |y| && k + |vs| <= |x|
    ensures Score(x, y, k, s, vs) <= Ceiling(x, y, k, |vs|)
    ensures k <= j < k + |vs| && Agrees(x[j], !vs[j - k]) ==>
              Score(x, y, k, s, vs) <= Ceiling(x, y, k, |vs|) - Magnitude(x[j])
    decreases |vs|
  {
    if vs != [] {
      ScoreBelowCeiling(x, y, k + 1, Next(s, vs[0]), vs[1..], j);
    }
  }

  lemma {:induction false} CodePathReachesCeiling(x: seq<real>, y: seq<real>, k: nat, s: State, us: seq<bool>)
    requires |x| == |y| && k + |us| <= |x|
    requires forall t :: 0 <= t < |us| ==> Agrees(x[k + t], us[t]) && Agrees(y[k + t], Parities(s, us)[t])
    ensures Score(x, y, k, s, us) == Ceiling(x, y, k, |us|)
    decreases |us|
  {
    if us != [] {
      var ps := Parities(s, us);
      assert Agrees(x[k + 0], us[0]) && Agrees(y[k + 0], ps[0]);
      forall t | 0 <= t < |us| - 1
        ensures Agrees(x[k + 1 + t], us[1..][t]) && Agrees(y[k + 1 + t], Parities(Next(s, us[0]), us[1..])[t])
      {
        assert Agrees(x[k + (t + 1)], us[t + 1]) && Agrees(y[k + (t + 1)], ps[t + 1]);
      }
      CodePathReachesCeiling(x, y, k + 1, Next(s, us[0]), us[1..]);
    }
  }

  /** Soft values x and y do not oppose the terminated block us and its parity bits. */
  ghost predicate NoiseFree(x: seq<real>, y: seq<real>, us: seq<bool>) {
    && |us| == |x| == |y|
    && Run(ZERO, us) == ZERO
    && forall t :: 0 <= t < |us| ==> Agrees(x[t], us[t]) && Agrees(y[t], Parities(ZERO, us)[t])
  }

  /** On noise-free input the decoder's output has the sign of the bit and at least the
      magnitude of the systematic value. */
  lemma LlrFollowsCode(x: seq<real>, y: seq<real>, us: seq<bool>, k: nat)
    requires NoiseFree(x, y, us) && k < |us|
    ensures us[k] ==> Llr(x, y, k) >= x[k]
    ensures !us[k] ==> Llr(x, y, k) <= x[k]
  {
    var v1, v0 := LlrIsExact(x, y, k);
    CodePathReachesCeiling(x, y, 0, ZERO, us);
    assert PathScore(x, y, ZERO, us) == Ceiling(x, y, 0, |x|);
    var other := if us[k] then v0 else v1;
    var s, vs: seq<bool> :| |vs| == |x| && vs[k] == !us[k] && PathScore(x, y, s, vs) == other;
    ScoreBelowCeiling(x, y, 0, s, vs, k);
  }

  // ---- the two unrolled passes ------------------------------------------------------------

  /** Backward metrics of all eight states at step k. */
  function BetaRow(x: seq<real>, y: seq<real>, k: nat): (r: seq<real>)
    requires |x| == |y| && k <= |x|
    ensures |r| == 8
  {
    seq(8, i requires 0 <= i < 8 => Beta(x, y, k, StateAt(i)))
  }

  function AlphaRow(x: seq<real>, y: seq<real>, k: nat): (r: seq<real>)
    requires |x| == |y| && k <= |x|
    ensures |r| == 8
  {
    seq(8, i requires 0 <= i < 8 => Alpha(x, y, k, StateAt(i)))
  }

  function MaxOf(a: seq<real>, b: seq<real>): (r: seq<real>)
    requires |a| == |b|
    ensures |r| == |a|
  {
    seq(|a|, i requires 0 <= i < |a| => Max(a[i], b[i]))
  }

  /** One backward step for state s, from the metrics c of the eight successors. */
  function BackwardStep(c: seq<real>, x: real, y: real, s: State): real
    requires |c| == 8
  {
    Max(Gain(x, y, s, false) + c[Index(Next(s, false))], Gain(x, y, s, true) + c[Index(Next(s, true))])
  }

  /** One forward step into state s with input u, from the metrics c of the eight predecessors. */
  function ForwardStep(c: seq<real>, x: real, y: real, s: State, u: bool): real
    requires |c| == 8
  {
    c[Index(Prev(s, u))] + Gain(x, y, Prev(s, u), u)
  }

  /** The arrays m_b and new of map_gen_beta. */
  function BackwardB(c: seq<real>, x: real, y: real): (r: seq<real>)
    requires |c| == 8
    ensures |r| == 8
  {
    var xy := x + y;
    [c[4] + xy, c[4], c[5] + y, c[5] + x, c[6] + x, c[6] + y, c[7], c[7] + xy]
  }

  function BackwardNew(c: seq<real>, x: real, y: real): (r: seq<real>)
    requires |c| == 8
    ensures |r| == 8
  {
    var xy := x + y;
    [c[0], c[0] + xy, c[1] + x, c[1] + y, c[2] + y, c[2] + x, c[3] + xy, c[3]]
  }

  /** The arrays m_b and new of map_gen_alpha. */
  function ForwardB(c: seq<real>, x: real, y: real): (r: seq<real>)
    requires |c| == 8
    ensures |r| == 8
  {
    [c[0], c[3] + y, c[4] + y, c[7], c[1], c[2] + y, c[5] + y, c[6]]
  }

  function ForwardNew(c: seq<real>, x: real, y: real): (r: seq<real>)
    requires |c| == 8
    ensures |r| == 8
  {
    var xy := x + y;
    [c[1] + xy, c[2] + x, c[5] + x, c[6] + xy, c[0] + xy, c[3] + x, c[4] + x, c[7] + xy]
  }

  /** The unrolled backward butterflies are the encoder's trellis. */
  lemma BackwardIsTrellis(c: seq<real>, x: real, y: real, i: nat)
    requires |c| == 8 && i < 8
    ensures MaxOf(BackwardNew(c, x, y), BackwardB(c, x, y))[i] == BackwardStep(c, x, y, StateAt(i))
  {
  }

  /** The unrolled forward butterflies are the same trellis: m_b holds the transitions on
      input 0, new those on input 1. */
  lemma ForwardIsTrellis(c: seq<real>, x: real, y: real, i: nat)
    requires |c| == 8 && i < 8
    ensures ForwardB(c, x, y)[i] == ForwardStep(c, x, y, StateAt(i), false)
    ensures ForwardNew(c, x, y)[i] == ForwardStep(c, x, y, StateAt(i), true)
  {
  }

  lemma BetaRowStep(x: seq<real>, y: seq<real>, k: nat)
    requires |x| == |y| && k < |x|
    ensures var c := BetaRow(x, y, k + 1);
            BetaRow(x, y, k) == MaxOf(BackwardNew(c, x[k], y[k]), BackwardB(c, x[k], y[k]))
  {
    var c := BetaRow(x, y, k + 1);
    forall i: nat | i < 8
      ensures BetaRow(x, y, k)[i] == MaxOf(BackwardNew(c, x[k], y[k]), BackwardB(c, x[k], y[k]))[i]
    {
      BackwardIsTrellis(c, x[k], y[k], i);
    }
  }

  lemma AlphaRowStep(x: seq<real>, y: seq<real>, k: nat)
    requires |x| == |y| && k < |x|
    ensures var c := AlphaRow(x, y, k);
            && AlphaRow(x, y, k + 1) == MaxOf(ForwardNew(c, x[k], y[k]), ForwardB(c, x[k], y[k]))
            && forall i :: 0 <= i < 8 ==>
                 && ForwardNew(c, x[k], y[k])[i] == Into(x, y, k, StateAt(i), true)
                 && ForwardB(c, x[k], y[k])[i] == Into(x, y, k, StateAt(i), false)
  {
    var c := AlphaRow(x, y, k);
    forall i: nat | i < 8
      ensures ForwardNew(c, x[k], y[k])[i] == Into(x, y, k, StateAt(i), true)
      ensures ForwardB(c, x[k], y[k])[i] == Into(x, y, k, StateAt(i), false)
    {
      ForwardIsTrellis(c, x[k], y[k], i);
    }
  }

  /** srslte_map_gen_vl_t */
  class MapGen {
    const maxLongCb: nat
    const beta: array<real>

    ghost predicate Valid() {
      beta.Length == 8 * (maxLongCb + 12 + 1)
    }

    /** map_gen_init */
    constructor (maxLongCb: nat)
      ensures Valid() && this.maxLongCb == maxLongCb && fresh(beta)
    {
      this.maxLongCb := maxLongCb;
      beta := new real[8 * (maxLongCb + 12 + 1)](_ => 0.0);
    }

    /** beta holds the backward metrics of steps lo to hi, eight to a step. */
    ghost predicate HoldsRows(x: seq<real>, y: seq<real>, lo: nat, hi: nat)
      requires |x| == |y| && hi <= |x|
      reads beta
    {
      && 8 * hi + 8 <= beta.Length
      && forall k :: lo <= k <= hi ==> beta[8 * k..8 * k + 8] == BetaRow(x, y, k)
    }

    /** The inner loop of map_gen_beta: settle the eight maxima of step k and store them. */
    method StoreRow(k: nat, mb: seq<real>, next: seq<real>) returns (cur: seq<real>)
      requires 8 * k + 8 <= beta.Length && |mb| == |next| == 8
      modifies beta
      ensures cur == MaxOf(next, mb) && beta[8 * k..8 * k + 8] == cur
      ensures forall m :: 0 <= m < beta.Length && !(8 * k <= m < 8 * k + 8) ==> beta[m] == old(beta[m])
    {
      var settled := next;
      cur := next;
      for i := 0 to 8
        invariant |settled| == |cur| == 8
        invariant forall j :: i <= j < 8 ==> settled[j] == next[j]
        invariant forall j :: 0 <= j < i ==> cur[j] == Max(next[j], mb[j])
        invariant forall j :: 8 * k <= j < 8 * k + i ==> beta[j] == cur[j - 8 * k]
        invariant forall m :: 0 <= m < beta.Length && !(8 * k <= m < 8 * k + 8) ==> beta[m] == old(beta[m])
      {
        if mb[i] > settled[i] {
          settled := settled[i := mb[i]];
        }
        cur := cur[i := settled[i]];
        beta[8 * k + i] := cur[i];
      }
    }

    /** map_gen_beta */
    method BetaPass(input: array<real>, parity: array<real>, longCb: nat, ghost x: seq<real>, ghost y: seq<real>)
      requires Valid() && longCb <= maxLongCb
      requires longCb + 3 <= input.Length && longCb + 3 <= parity.Length && beta != input && beta != parity
      requires x == input[..longCb + 3] && y == parity[..longCb + 3]
      requires HoldsRows(x, y, longCb + 3, longCb + 3)
      modifies beta
      ensures HoldsRows(x, y, 0, longCb + 3)
    {
      hide BetaRow, BackwardB, BackwardNew, MaxOf;
      var end := longCb + 3;
      var cur := beta[8 * end..8 * end + 8];
      for k := end downto 0
        invariant cur == BetaRow(x, y, k)
        invariant HoldsRows(x, y, k, end)
      {
        BetaRowStep(x, y, k);
        var mb, next := BackwardB(cur, input[k], parity[k]), BackwardNew(cur, input[k], parity[k]);
        ghost var before := beta[..];
        cur := StoreRow(k, mb, next);
        forall m | k < m <= end
          ensures beta[8 * m..8 * m + 8] == BetaRow(x, y, m)
        {
          assert before[8 * m..8 * m + 8] == BetaRow(x, y, m);
          assert beta[8 * m..8 * m + 8] == before[8 * m..8 * m + 8];
        }
      }
    }

    /** The two maximum searches of map_gen_alpha. */
    method BestOf(next: seq<real>, mb: seq<real>, betaRow: seq<real>) returns (m1: real, m0: real)
      requires |next| == |mb| == |betaRow| == 8
      ensures m1 == MaxSum(next, betaRow, 7) && m0 == MaxSum(mb, betaRow, 7)
    {
      m1, m0 := next[0] + betaRow[0], mb[0] + betaRow[0];
      for i := 1 to 8
        invariant m1 == MaxSum(next, betaRow, i - 1) && m0 == MaxSum(mb, betaRow, i - 1)
      {
        if next[i] + betaRow[i] > m1 { m1 := next[i] + betaRow[i]; }
        if mb[i] + betaRow[i] > m0 { m0 := mb[i] + betaRow[i]; }
      }
    }

    /** One step of map_gen_alpha: from the forward metrics before step k to those after it, and
        the output for step k. */
    method AlphaStep(cur: seq<real>, xk: real, yk: real, betaRow: seq<real>, ghost x: seq<real>, ghost y: seq<real>,
                     ghost k: nat) returns (next: seq<real>, out: real)
      requires |x| == |y| && k < |x| && xk == x[k] && yk == y[k]
      requires cur == AlphaRow(x, y, k) && betaRow == BetaRow(x, y, k + 1)
      ensures next == AlphaRow(x, y, k + 1) && out == Llr(x, y, k)
    {
      AlphaRowStep(x, y, k);
      var mb := ForwardB(cur, xk, yk);
      next := ForwardNew(cur, xk, yk);
      hide AlphaRow, BetaRow, ForwardB, ForwardNew;
      BestIsMaxSum(x, y, k, true, next, 7);
      BestIsMaxSum(x, y, k, false, mb, 7);
      var m1, m0 := BestOf(next, mb, betaRow);
      next := MaxOf(next, mb);
      out := m1 - m0;
    }

    /** map_gen_alpha */
    method AlphaPass(input: array<real>, parity: array<real>, output: array<real>, longCb: nat,
                     ghost x: seq<real>, ghost y: seq<real>)
      requires Valid() && longCb <= maxLongCb && longCb <= output.Length
      requires longCb + 3 <= input.Length && longCb + 3 <= parity.Length
      requires output != input && output != parity && output != beta
      requires x == input[..longCb + 3] && y == parity[..longCb + 3]
      requires HoldsRows(x, y, 0, longCb + 3)
      modifies output
      ensures forall k :: 0 <= k < longCb ==> output[k] == Llr(x, y, k)
      ensures forall k :: longCb <= k < output.Length ==> output[k] == old(output[k])
    {
      var cur: seq<real> := [0.0, -INF, -INF, -INF, -INF, -INF, -INF, -INF];
      assert cur == AlphaRow(x, y, 0);
      hide AlphaRow, BetaRow, Llr;
      for k := 1 to longCb + 1
        invariant cur == AlphaRow(x, y, k - 1)
        invariant forall m :: 0 <= m < k - 1 ==> output[m] == Llr(x, y, m)
        invariant forall m :: k - 1 <= m < output.Length ==> output[m] == old(output[m])
      {
        var out;
        cur, out := AlphaStep(cur, input[k - 1], parity[k - 1], beta[8 * k..8 * k + 8], x, y, k - 1);
        output[k - 1] := out;
      }
    }

    /** map_gen_dec: the output is the exact log-likelihood ratio of every bit of the block. */
    method Dec(input: array<real>, parity: array<real>, output: array<real>, longCb: nat)
      requires Valid() && longCb <= maxLongCb && longCb <= output.Length
      requires longCb + 3 <= input.Length && longCb + 3 <= parity.Length
      requires output != input && output != parity && output != beta && beta != input && beta != parity
      modifies beta, output
      ensures forall k :: 0 <= k < longCb ==>
                output[k] == Llr(input[..longCb + 3], parity[..longCb + 3], k)
      ensures forall k :: longCb <= k < output.Length ==> output[k] == old(output[k])
    {
      var end := longCb + 3;
      beta[8 * end] := 0.0;
      for k := 1 to 8
        invariant beta[8 * end] == 0.0
        invariant forall j :: 8 * end < j < 8 * end + k ==> beta[j] == -INF
        invariant forall j :: 0 <= j < output.Length ==> output[j] == old(output[j])
      {
        beta[8 * end + k] := -INF;
      }
      ghost var x, y := input[..end], parity[..end];
      assert beta[8 * end..8 * end + 8] == BetaRow(x, y, end);
      BetaPass(input, parity, longCb, x, y);
      AlphaPass(input, parity, output, longCb, x, y);
    }
  }

  /** Largest of a[j] + b[j] for j up to i. */
  function MaxSum(a: seq<real>, b: seq<real>, i: nat): real
    requires |a| == |b| && i < |a|
  {
    if i == 0 then a[0] + b[0] else Max(MaxSum(a, b, i - 1), a[i] + b[i])
  }

  lemma {:induction false} BestIsMaxSum(x: seq<real>, y: seq<real>, k: nat, u: bool, a: seq<real>, i: nat)
    requires |x| == |y| && k < |x| && |a| == 8 && i < 8
    requires forall j :: 0 <= j < 8 ==> a[j] == Into(x, y, k, StateAt(j), u)
    ensures MaxSum(a, BetaRow(x, y, k + 1), i) == BestUpTo(x, y, k, u, i)
  {
    hide Into, Beta;
    if i > 0 { BestIsMaxSum(x, y, k, u, a, i - 1); }
  }
}

/** What the Viterbi decoder computes (srslte/lib/fec/viterbi37_port.c): best path metrics,
    decisions and the survivor they lead back along. */
module ViterbiMetrics {
  import opened ConvolutionalCode
  import opened NumberTheory

  /** A received soft bit: 0 for a certain zero, 255 for a certain one. */
  type Sample = y: nat | y < 256

  /** A decoding run: the code, the state given to the initialisation (-1 for unknown) and the
      samples received since. */
  datatype Trial = Trial(c: Code, start: int, y: seq<Sample>)

  /** Distance of sample y to a coded bit. */
  function Gap(y: Sample, b: bool): (g: nat)
    ensures g <= 255
  {
    if b then 255 - y else y
  }

  /** Distance of the t-th three samples to the outputs for register contents r. */
  function Branch(tr: Trial, t: nat, r: nat): (d: nat)
    requires 3 * t + 3 <= |tr.y|
    ensures d <= 765
  {
    Gap(tr.y[3 * t], Par(r, tr.c.p0)) + Gap(tr.y[3 * t + 1], Par(r, tr.c.p1)) + Gap(tr.y[3 * t + 2], Par(r, tr.c.p2))
  }

  function Bias(start: int, s: State): (b: nat)
    ensures b <= 63
  {
    if s == start then 0 else 63
  }

  /** The two states that lead to s. */
  function Pred(s: State, d: bool): State {
    s / 2 + if d then 32 else 0
  }

  lemma PredLeads(p: State, s: State)
    ensures forall d :: Next(Pred(s, d), s % 2 == 1) == s && Register(Pred(s, d), s % 2 == 1) == s + if d then 64 else 0
    ensures forall u :: Next(p, u) == s ==> u == (s % 2 == 1) && p == Pred(s, p >= 32)
  {
  }

  /** The least cost of reaching state s with t steps. */
  function Best(tr: Trial, t: nat, s: State): (m: nat)
    requires 3 * t <= |tr.y|
    decreases t, 2
  {
    if t == 0 then Bias(tr.start, s)
    else if Decision(tr, t - 1, s) then Via(tr, t - 1, s, true) else Via(tr, t - 1, s, false)
  }

  /** The least cost of reaching s with t + 1 steps through one of its predecessors. */
  function Via(tr: Trial, t: nat, s: State, d: bool): (m: nat)
    requires 3 * t + 3 <= |tr.y|
    decreases t + 1, 0
  {
    Best(tr, t, Pred(s, d)) + Branch(tr, t, s + if d then 64 else 0)
  }

  /** Whether step t into s comes from the upper predecessor. */
  function Decision(tr: Trial, t: nat, s: State): bool
    requires 3 * t + 3 <= |tr.y|
    decreases t + 1, 1
  {
    Via(tr, t, s, false) > Via(tr, t, s, true)
  }

  /** Later samples do not change earlier metrics. */
  lemma {:induction false} BestPrefix(tr: Trial, tr': Trial, t: nat, s: State)
    requires tr.c == tr'.c && tr.start == tr'.start && tr.y <= tr'.y && 3 * t <= |tr.y|
    ensures Best(tr, t, s) == Best(tr', t, s)
    decreases t
  {
    if t > 0 {
      BestPrefix(tr, tr', t - 1, Pred(s, false));
      BestPrefix(tr, tr', t - 1, Pred(s, true));
      ViaPrefix(tr, tr', t - 1, s);
    }
  }

  lemma ViaPrefix(tr: Trial, tr': Trial, t: nat, s: State)
    requires tr.c == tr'.c && tr.start == tr'.start && tr.y <= tr'.y && 3 * t + 3 <= |tr.y|
    requires forall d :: Best(tr, t, Pred(s, d)) == Best(tr', t, Pred(s, d))
    ensures forall d :: Via(tr, t, s, d) == Via(tr', t, s, d)
    ensures Decision(tr, t, s) == Decision(tr', t, s)
  {
    hide Best, Par;
  }

  lemma DecisionPrefix(tr: Trial, tr': Trial, t: nat, s: State)
    requires tr.c == tr'.c && tr.start == tr'.start && tr.y <= tr'.y && 3 * t + 3 <= |tr.y|
    ensures Decision(tr, t, s) == Decision(tr', t, s)
  {
    BestPrefix(tr, tr', t, Pred(s, false));
    BestPrefix(tr, tr', t, Pred(s, true));
    ViaPrefix(tr, tr', t, s);
  }

  /** One step costs at most 765 more. */
  lemma BestStep(tr: Trial, t: nat, p: State, u: bool)
    requires 3 * t + 3 <= |tr.y|
    ensures Best(tr, t + 1, Next(p, u)) <= Best(tr, t, p) + Branch(tr, t, Register(p, u))
  {
    var s := Next(p, u);
    PredLeads(p, s);
    hide Branch, Next, Register;
    assert Via(tr, t, s, p >= 32) == Best(tr, t, p) + Branch(tr, t, Register(p, u));
  }

  // ---- optimality -------------------------------------------------------------------------

  /** The cost of the first t steps of a path. */
  function Cost(tr: Trial, s0: State, us: seq<bool>, t: nat): nat
    requires t <= |us| && 3 * t <= |tr.y|
  {
    if t == 0 then Bias(tr.start, s0) else Cost(tr, s0, us, t - 1) + Branch(tr, t - 1, RegisterAt(s0, us, t - 1))
  }

  /** No path into a state is cheaper than its metric. */
  lemma {:induction false} BestIsLeast(tr: Trial, s0: State, us: seq<bool>, t: nat)
    requires t <= |us| && 3 * t <= |tr.y|
    ensures Best(tr, t, At(s0, us, t)) <= Cost(tr, s0, us, t)
  {
    hide Branch, Register;
    if t > 0 {
      BestIsLeast(tr, s0, us, t - 1);
      BestStep(tr, t - 1, At(s0, us, t - 1), us[t - 1]);
    }
  }

  /** The state at time t of the survivor that is in state e at time n. */
  function Survivor(tr: Trial, n: nat, e: State, t: nat): State
    requires t <= n && 3 * n <= |tr.y|
    decreases n - t
  {
    if t == n then e
    else var s := Survivor(tr, n, e, t + 1); Pred(s, Decision(tr, t, s))
  }

  /** The inputs along the survivor. */
  function SurvivorInputs(tr: Trial, n: nat, e: State): (us: seq<bool>)
    requires 3 * n <= |tr.y|
    ensures |us| == n
  {
    seq(n, t requires 0 <= t < n => Survivor(tr, n, e, t + 1) % 2 == 1)
  }

  /** The survivor is a path of the encoder, and its cost is the metric of every state it visits. */
  lemma {:induction false} SurvivorAttains(tr: Trial, n: nat, e: State, t: nat)
    requires t <= n && 3 * n <= |tr.y|
    ensures var s0, us := Survivor(tr, n, e, 0), SurvivorInputs(tr, n, e);
            At(s0, us, t) == Survivor(tr, n, e, t) && Cost(tr, s0, us, t) == Best(tr, t, Survivor(tr, n, e, t))
    decreases t
  {
    hide Branch, Bias;
    if t > 0 {
      SurvivorAttains(tr, n, e, t - 1);
      var s := Survivor(tr, n, e, t);
      var p := Survivor(tr, n, e, t - 1);
      var us := SurvivorInputs(tr, n, e);
      assert p == Pred(s, Decision(tr, t - 1, s));
      assert us[t - 1] == (s % 2 == 1);
      PredLeads(p, s);
      hide Next, Register, Survivor, SurvivorInputs;
      assert Best(tr, t, s) == Via(tr, t - 1, s, Decision(tr, t - 1, s));
    }
  }

  /** The metric of state e after n steps is the least cost of a path into e, and the survivor is
      such a path. */
  lemma Optimal(tr: Trial, n: nat, e: State)
    requires 3 * n <= |tr.y|
    ensures var s0, us := Survivor(tr, n, e, 0), SurvivorInputs(tr, n, e);
            At(s0, us, n) == e && Cost(tr, s0, us, n) == Best(tr, n, e)
    ensures forall s0: State, us :: |us| == n && At(s0, us, n) == e ==> Best(tr, n, e) <= Cost(tr, s0, us, n)
  {
    SurvivorAttains(tr, n, e, n);
    forall s0: State, us | |us| == n && At(s0, us, n) == e
      ensures Best(tr, n, e) <= Cost(tr, s0, us, n)
    {
      BestIsLeast(tr, s0, us, n);
    }
  }

  /** The decision taken at a state of the survivor is the input six steps before: what chainback
      reads off. */
  lemma DecisionIsInput(tr: Trial, n: nat, e: State, k: nat)
    requires k + 7 <= n && 3 * n <= |tr.y|
    ensures Decision(tr, k + 6, Survivor(tr, n, e, k + 7)) == SurvivorInputs(tr, n, e)[k]
  {
    hide Decision, SurvivorInputs;
    var s0, us := Survivor(tr, n, e, 0), SurvivorInputs(tr, n, e);
    SurvivorAttains(tr, n, e, k + 6);
    AtIsWindow(s0, us, k + 6);
    assert History(s0, us)[k + 6] == us[k];
    var s := Survivor(tr, n, e, k + 7);
    assert Survivor(tr, n, e, k + 6) == Pred(s, Decision(tr, k + 6, s));
  }

  // ---- the metrics stay close together ----------------------------------------------------

  const SPREAD := 63 + 6 * 765

  lemma {:induction false} BestBelow(tr: Trial, t: nat, s: State)
    requires 3 * t <= |tr.y|
    ensures Best(tr, t, s) <= 63 + 765 * t
  {
    hide Branch;
    if t > 0 { BestBelow(tr, t - 1, Pred(s, false)); }
  }

  /** Some state was at least as good k steps earlier. */
  lemma {:induction false} EarlierBest(tr: Trial, t: nat, k: nat, s: State) returns (p: State)
    requires k <= t && 3 * t <= |tr.y|
    ensures Best(tr, t - k, p) <= Best(tr, t, s)
    decreases k
  {
    if k == 0 { p := s; } else {
      hide Branch;
      p := EarlierBest(tr, t - 1, k - 1, Pred(s, Decision(tr, t - 1, s)));
    }
  }

  /** From every state, six steps reach any state. */
  lemma SixSteps(tr: Trial, t: nat, p: State, s: State)
    requires 3 * (t + 6) <= |tr.y|
    ensures Best(tr, t + 6, s) <= Best(tr, t, p) + 6 * 765
  {
    hide Best, Next, Value, Branch, BitsOf, Pow2, Register, Par;
    SmallPowers();
    var us := BitsOf(s, 6);
    assert At(p, us, 6) == s by {
      AtIsWindow(p, us, 6);
      assert History(p, us)[6..12] == us;
    }
    for k := 0 to 6
      invariant Best(tr, t + k, At(p, us, k)) <= Best(tr, t, p) + k * 765
    {
      BestStep(tr, t + k, At(p, us, k), us[k]);
    }
  }

  /** Metrics of the same step never differ by more than a constant, however long the frame. */
  lemma SpreadBounded(tr: Trial, t: nat, s: State, s': State)
    requires 3 * t <= |tr.y|
    ensures Best(tr, t, s) <= Best(tr, t, s') + SPREAD
  {
    hide Best;
    if t < 6 {
      BestBelow(tr, t, s);
    } else {
      var p := EarlierBest(tr, t, 6, s');
      SixSteps(tr, t - 6, p, s);
    }
  }
}

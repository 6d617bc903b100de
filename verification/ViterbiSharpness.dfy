/** The correction limit of the zero-terminated decoder is exact: one step beyond it some frame of
    every length is decoded wrongly (decode37 in srslte/lib/fec/viterbi.c). */
module ViterbiSharpness {
  import opened ConvolutionalCode
  import opened ViterbiMetrics
  import opened ViterbiCorrection

  /** The cost of one step in terms of the history of the path. */
  lemma StepCost(tr: Trial, s0: State, us: seq<bool>, t: nat)
    requires tr.c == LTE && t < |us| && 3 * t + 3 <= |tr.y|
    ensures var h, y := History(s0, us), tr.y;
            Cost(tr, s0, us, t + 1) == Cost(tr, s0, us, t)
              + Gap(y[3 * t], h[t] != (h[t + 1] != (h[t + 3] != (h[t + 4] != h[t + 6]))))
              + Gap(y[3 * t + 1], h[t] != (h[t + 3] != (h[t + 4] != (h[t + 5] != h[t + 6]))))
              + Gap(y[3 * t + 2], h[t] != (h[t + 2] != (h[t + 4] != (h[t + 5] != h[t + 6]))))
  {
    hide Par, Value, History, Gap, RegisterAt;
    var h := History(s0, us);
    AtIsWindow(s0, us, t);
    SevenAt(h, t);
    Taps(h[t], h[t + 1], h[t + 2], h[t + 3], h[t + 4], h[t + 5], h[t + 6]);
  }

  lemma {:induction false} CostGrows(tr: Trial, s0: State, us: seq<bool>, lo: nat, hi: nat)
    requires lo <= hi <= |us| && 3 * hi <= |tr.y|
    ensures Cost(tr, s0, us, lo) <= Cost(tr, s0, us, hi)
    decreases hi
  {
    hide Branch, RegisterAt;
    if lo < hi { CostGrows(tr, s0, us, lo, hi - 1); }
  }

  // ---- a frame that misleads --------------------------------------------------------------

  /** Received for k zeros: four certain ones, and one sample of value e, at places where the path
      from start state 24 with a single one as input has ones, too. */
  function Misleading(k: nat, e: Sample): (y: seq<Sample>)
    ensures |y| == 3 * (k + 6)
  {
    seq(3 * (k + 6), i => if i == 14 then e else if i == 15 || 18 <= i <= 20 then 255 else 0)
  }

  function Attempt(k: nat, e: Sample): Trial {
    Trial(LTE, 0, Misleading(k, e))
  }

  function SingleOne(k: nat): (us: seq<bool>)
    ensures |us| == k + 6
  {
    [true] + Zeros(k + 5)
  }

  /** The register contents of state 24. */
  lemma StateTwentyFour()
    ensures Pow2(3) == 8 && Pow2(4) == 16 && Pow2(5) == 32 && Pow2(6) == 64
    ensures BitsOf(24, 6) == [false, true, true, false, false, false]
  {
    SmallPowers();
    assert Pow2(2) == 4 && Pow2(3) == 8 && Pow2(4) == 16;
    assert BitsOf(0, 1) == [false];
    assert BitsOf(1, 2) == [false, true];
    assert BitsOf(3, 3) == [false, true, true];
    assert BitsOf(6, 4) == [false, true, true, false];
    assert BitsOf(12, 5) == [false, true, true, false, false];
  }

  /** The history of the wrong path. */
  lemma WrongHistory(k: nat)
    requires k >= 1
    ensures var h := History(24, SingleOne(k));
            forall q :: 0 <= q < k + 12 ==> h[q] == (q == 1 || q == 2 || q == 6)
  {
    hide BitsOf;
    StateTwentyFour();
  }

  lemma WrongStart(k: nat, e: Sample)
    requires k >= 1
    ensures Cost(Attempt(k, e), 24, SingleOne(k), 7) == 1083 - e
  {
    hide Cost, History, Misleading;
    var tr, us := Attempt(k, e), SingleOne(k);
    WrongHistory(k);
    SamplesAt(k, e);
    CostAtStart(tr, 24, us);
    StepCost(tr, 24, us, 0);
    StepCost(tr, 24, us, 1);
    StepCost(tr, 24, us, 2);
    StepCost(tr, 24, us, 3);
    StepCost(tr, 24, us, 4);
    StepCost(tr, 24, us, 5);
    StepCost(tr, 24, us, 6);
  }

  lemma CostAtStart(tr: Trial, s0: State, us: seq<bool>)
    ensures Cost(tr, s0, us, 0) == Bias(tr.start, s0)
  {
  }

  lemma SamplesAt(k: nat, e: Sample)
    requires k >= 1
    ensures var y := Misleading(k, e);
            forall i :: 0 <= i < |y| ==> y[i] == if i == 14 then e else if i == 15 || 18 <= i <= 20 then 255 else 0
  {
  }

  /** Nothing is added after the seventh step where neither path nor samples have a one. */
  lemma {:induction false} QuietEnd(k: nat, e: Sample, s0: State, us: seq<bool>, t: nat)
    requires k >= 1 && |us| == k + 6 && 7 <= t <= k + 6 && forall q :: 7 <= q < k + 12 ==> !History(s0, us)[q]
    ensures Cost(Attempt(k, e), s0, us, t) == Cost(Attempt(k, e), s0, us, 7)
  {
    hide Cost, History, Misleading;
    if t > 7 {
      QuietEnd(k, e, s0, us, t - 1);
      SamplesAt(k, e);
      StepCost(Attempt(k, e), s0, us, t - 1);
    }
  }

  lemma WrongCost(k: nat, e: Sample)
    requires k >= 1
    ensures Cost(Attempt(k, e), 24, SingleOne(k), k + 6) == 1083 - e && At(24, SingleOne(k), k + 6) == 0
  {
    hide Cost, History, Misleading, At, Value;
    WrongHistory(k);
    WrongStart(k, e);
    QuietEnd(k, e, 24, SingleOne(k), k + 6);
    AtIsWindow(24, SingleOne(k), k + 6);
    ZeroState(History(24, SingleOne(k))[k + 6..k + 12]);
  }

  /** The message path costs its distortion, and no other start state makes it cheaper. */
  lemma SilentCost(k: nat, e: Sample, s0: State)
    requires k >= 1
    ensures Cost(Attempt(k, e), s0, Zeros(k + 6), k + 6) >= 1020 + e
    ensures s0 == 0 ==> Cost(Attempt(k, e), s0, Zeros(k + 6), k + 6) == 1020 + e
  {
    hide Cost, Misleading, BitsOf;
    var tr, us := Attempt(k, e), Zeros(k + 6);
    SmallPowers();
    SamplesAt(k, e);
    assert forall q :: 6 <= q < k + 12 ==> !History(s0, us)[q];
    if s0 == 0 { StartsInZeros(us); }
    hide History;
    CostAtStart(tr, s0, us);
    StepCost(tr, s0, us, 0);
    StepCost(tr, s0, us, 1);
    StepCost(tr, s0, us, 2);
    StepCost(tr, s0, us, 3);
    StepCost(tr, s0, us, 4);
    StepCost(tr, s0, us, 5);
    StepCost(tr, s0, us, 6);
    QuietEnd(k, e, s0, us, k + 6);
  }

  ghost predicate FrameOf(tr: Trial, msg: seq<bool>) {
    tr.c == LTE && tr.start == 0 && |tr.y| == 3 * (|msg| + 6)
  }

  /** Distortion of a received frame against the codeword of msg. */
  function FrameNoise(tr: Trial, msg: seq<bool>): nat
    requires |tr.y| == 3 * (|msg| + 6)
  {
    Distortion(tr.y, Codeword(LTE, 0, Inputs(msg, false)), |tr.y|)
  }

  /** The survivor's inputs are the message. */
  predicate Decodes(tr: Trial, msg: seq<bool>)
    requires |tr.y| == 3 * (|msg| + 6)
  {
    SurvivorInputs(tr, |msg| + 6, 0)[..|msg|] == msg
  }

  lemma MisleadingNoise(k: nat, e: Sample)
    requires k >= 1
    ensures FrameNoise(Attempt(k, e), Zeros(k)) == 1020 + e
  {
    hide Cost, Misleading, Codeword, Distortion;
    assert Inputs(Zeros(k), false) == Zeros(k + 6);
    SilentCost(k, e, 0);
    CostIsDistortion(Attempt(k, e), 0, Zeros(k + 6), k + 6);
  }

  /** A survivor into state zero that starts with the message of zeros has only zeros as inputs. */
  lemma SilentSurvivor(tr: Trial, k: nat)
    requires k >= 1 && FrameOf(tr, Zeros(k)) && Decodes(tr, Zeros(k))
    ensures SurvivorInputs(tr, k + 6, 0) == Zeros(k + 6)
  {
    hide SurvivorInputs, Survivor, Best, Cost;
    var s0, us := Survivor(tr, k + 6, 0, 0), SurvivorInputs(tr, k + 6, 0);
    Optimal(tr, k + 6, 0);
    EndsInZeros(s0, us, k + 6);
    HistoryAt(s0, us);
    forall q | 0 <= q < k + 6
      ensures us[q] == Zeros(k + 6)[q]
    {
      if q < k {
        assert us[..k][q] == Zeros(k)[q];
      } else {
        assert History(s0, us)[q + 6] == us[q];
      }
    }
  }

  /** The frame is not decoded to the message. */
  lemma Misled(k: nat, e: Sample)
    requires k >= 1 && 32 <= e
    ensures !Decodes(Attempt(k, e), Zeros(k))
  {
    hide SurvivorInputs, Survivor, Best, Cost, Misleading, Decodes;
    var tr, n := Attempt(k, e), k + 6;
    if Decodes(tr, Zeros(k)) {
      SilentSurvivor(tr, k);
      Optimal(tr, n, 0);
      SilentCost(k, e, Survivor(tr, n, 0, 0));
      WrongCost(k, e);
      assert false;
    }
  }

  /** Every frame of k bits at distortion d or less is decoded if and only if 2 d is below the limit. */
  lemma LimitIsSharp(k: nat, d: nat)
    requires k >= 1
    ensures (forall tr: Trial, msg: seq<bool> :: |msg| == k && FrameOf(tr, msg) && FrameNoise(tr, msg) <= d ==>
               Decodes(tr, msg)) <==>
              2 * d < LIMIT
  {
    hide SurvivorInputs, Codeword, Distortion, Misleading;
    if 2 * d < LIMIT {
      forall tr: Trial, msg: seq<bool> | |msg| == k && FrameOf(tr, msg) && FrameNoise(tr, msg) <= d
        ensures Decodes(tr, msg)
      {
        Corrects(tr, msg);
      }
    } else {
      MisleadingNoise(k, 32);
      Misled(k, 32);
      assert FrameOf(Attempt(k, 32), Zeros(k));
    }
  }

  ghost predicate Hard(y: seq<Sample>) {
    forall i :: 0 <= i < |y| ==> y[i] == 0 || y[i] == 255
  }

  function FrameFlips(tr: Trial, msg: seq<bool>): nat
    requires |tr.y| == 3 * (|msg| + 6)
  {
    Flips(tr.y, Codeword(LTE, 0, Inputs(msg, false)), |tr.y|)
  }

  /** Any m flipped bits in a frame of k bits are corrected if and only if m is at most four. */
  lemma FourIsSharp(k: nat, m: nat)
    requires k >= 1
    ensures (forall tr: Trial, msg: seq<bool> ::
               |msg| == k && FrameOf(tr, msg) && Hard(tr.y) && FrameFlips(tr, msg) <= m ==> Decodes(tr, msg)) <==>
              m <= 4
  {
    hide SurvivorInputs, Codeword, Distortion, Flips, Misleading;
    if m <= 4 {
      forall tr: Trial, msg: seq<bool> |
        |msg| == k && FrameOf(tr, msg) && Hard(tr.y) && FrameFlips(tr, msg) <= m
        ensures Decodes(tr, msg)
      {
        FourFlips(tr, msg);
      }
    } else {
      var tr, msg := Attempt(k, 255), Zeros(k);
      SamplesAt(k, 255);
      MisleadingNoise(k, 255);
      Misled(k, 255);
      HardDistortion(tr.y, Codeword(LTE, 0, Inputs(msg, false)), |tr.y|);
      assert FrameOf(tr, msg) && Hard(tr.y) && FrameFlips(tr, msg) == 5;
    }
  }
}

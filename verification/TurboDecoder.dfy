/** The iterative turbo decoder (srslte_tdec_gen_* in srslte/lib/fec/turbodecoder_gen.c). */
module TurboDecoder {
  import opened Trellis
  import opened Permutations
  import opened CodeBlockSizes
  import opened TurboInterleaver
  import opened TurboEncoder
  import opened MapDecoder
  import Bytes

  // ---- what one iteration computes --------------------------------------------------------

  /** Systematic input of the first MAP pass: received value plus a-priori value, then the tail. */
  function Systematic1(r: seq<real>, w: seq<real>): (x: seq<real>)
    requires |r| == 3 * |w| + 12
    ensures |x| == |w| + 3
  {
    var n := |w|;
    seq(n + 3, i requires 0 <= i < n + 3 => if i < n then r[3 * i] + w[i] else r[3 * n + 2 * (i - n)])
  }

  function Parity1(r: seq<real>, n: nat): (y: seq<real>)
    requires |r| == 3 * n + 12
    ensures |y| == n + 3
  {
    seq(n + 3, i requires 0 <= i < n + 3 => if i < n then r[3 * i + 1] else r[3 * n + 2 * (i - n) + 1])
  }

  /** Systematic input of the second MAP pass: extrinsic values of the first, interleaved. */
  function Systematic2(r: seq<real>, w: seq<real>, l1: seq<real>, fw: seq<nat>): (x: seq<real>)
    requires |r| == 3 * |w| + 12 && |l1| == |fw| == |w|
    requires forall i :: 0 <= i < |fw| ==> fw[i] < |fw|
    ensures |x| == |w| + 3
  {
    var n := |w|;
    seq(n + 3, i requires 0 <= i < n + 3 =>
      if i < n then l1[fw[i]] - w[fw[i]] else r[3 * n + 6 + 2 * (i - n)])
  }

  function Parity2(r: seq<real>, n: nat): (y: seq<real>)
    requires |r| == 3 * n + 12
    ensures |y| == n + 3
  {
    seq(n + 3, i requires 0 <= i < n + 3 => if i < n then r[3 * i + 2] else r[3 * n + 6 + 2 * (i - n) + 1])
  }

  function Llrs(x: seq<real>, y: seq<real>, n: nat): (l: seq<real>)
    requires |x| == |y| == n + 3
    ensures |l| == n
  {
    seq(n, k requires 0 <= k < n => Llr(x, y, k))
  }

  function Llr1(r: seq<real>, w: seq<real>): (l: seq<real>)
    requires |r| == 3 * |w| + 12
    ensures |l| == |w|
  {
    Llrs(Systematic1(r, w), Parity1(r, |w|), |w|)
  }

  function Llr2(r: seq<real>, w: seq<real>, fw: seq<nat>): (l: seq<real>)
    requires |r| == 3 * |w| + 12 && |fw| == |w|
    requires forall i :: 0 <= i < |fw| ==> fw[i] < |fw|
    ensures |l| == |w|
  {
    Llrs(Systematic2(r, w, Llr1(r, w), fw), Parity2(r, |w|), |w|)
  }

  /** The a-priori values the next iteration starts from. */
  function NextApriori(r: seq<real>, w: seq<real>, fw: seq<nat>, rv: seq<nat>): (w': seq<real>)
    requires |r| == 3 * |w| + 12 && |fw| == |w| && MutuallyInverse(fw, rv)
    ensures |w'| == |w|
  {
    var l1, l2 := Llr1(r, w), Llr2(r, w, fw);
    seq(|w|, i requires 0 <= i < |w| => w[i] + (l2[rv[i]] - l1[i]))
  }

  function Apriori(r: seq<real>, n: nat, fw: seq<nat>, rv: seq<nat>, iterations: nat): (w: seq<real>)
    requires |r| == 3 * n + 12 && |fw| == n && MutuallyInverse(fw, rv)
    ensures |w| == n
  {
    if iterations == 0 then seq(n, _ => 0.0)
    else NextApriori(r, Apriori(r, n, fw, rv, iterations - 1), fw, rv)
  }

  /** Hard decisions after the iteration that starts from a-priori values w. */
  function Decisions(r: seq<real>, w: seq<real>, fw: seq<nat>, rv: seq<nat>): (d: seq<bool>)
    requires |r| == 3 * |w| + 12 && |fw| == |w| && MutuallyInverse(fw, rv)
    ensures |d| == |w|
  {
    var l2 := Llr2(r, w, fw);
    seq(|w|, i requires 0 <= i < |w| => l2[rv[i]] > 0.0)
  }

  /** Second-decoder output of the iteration that follows the given number of iterations. */
  ghost function LlrAfter(r: seq<real>, n: nat, fw: seq<nat>, rv: seq<nat>, iterations: nat): (l: seq<real>)
    requires |r| == 3 * n + 12 && |fw| == n && MutuallyInverse(fw, rv)
    ensures |l| == n
  {
    InverseBounds(fw, rv);
    Llr2(r, Apriori(r, n, fw, rv, iterations), fw)
  }

  // ---- what the two decoders tell each other ----------------------------------------------

  /** What the first decoder finds out about bit i. */
  function FirstExtrinsic(r: seq<real>, w: seq<real>, i: nat): real
    requires |r| == 3 * |w| + 12 && i < |w|
  {
    Extrinsic(Systematic1(r, w), Parity1(r, |w|), i)
  }

  /** What the second decoder finds out about step k of the interleaved block. */
  function SecondExtrinsic(r: seq<real>, w: seq<real>, fw: seq<nat>, k: nat): real
    requires |r| == 3 * |w| + 12 && |fw| == |w| && k < |w|
    requires forall i :: 0 <= i < |fw| ==> fw[i] < |fw|
  {
    Extrinsic(Systematic2(r, w, Llr1(r, w), fw), Parity2(r, |w|), k)
  }

  lemma FirstSplits(r: seq<real>, w: seq<real>, i: nat)
    requires |r| == 3 * |w| + 12 && i < |w|
    ensures Llr1(r, w)[i] == r[3 * i] + w[i] + FirstExtrinsic(r, w, i)
  {
    hide Llr, Extrinsic;
    LlrSplits(Systematic1(r, w), Parity1(r, |w|), i);
  }

  lemma SecondSplits(r: seq<real>, w: seq<real>, fw: seq<nat>, k: nat)
    requires |r| == 3 * |w| + 12 && |fw| == |w| && k < |w|
    requires forall i :: 0 <= i < |fw| ==> fw[i] < |fw|
    ensures Llr2(r, w, fw)[k] == Systematic2(r, w, Llr1(r, w), fw)[k] + SecondExtrinsic(r, w, fw, k)
  {
    hide Llr, Extrinsic, Systematic2, Llr1;
    LlrSplits(Systematic2(r, w, Llr1(r, w), fw), Parity2(r, |w|), k);
  }

  /** The second decoder starts from the received value and what the first one found out; the
      a-priori value it was given has cancelled. */
  lemma SecondStartsFrom(r: seq<real>, w: seq<real>, fw: seq<nat>, k: nat)
    requires |r| == 3 * |w| + 12 && |fw| == |w| && k < |w|
    requires forall i :: 0 <= i < |fw| ==> fw[i] < |fw|
    ensures Systematic2(r, w, Llr1(r, w), fw)[k] == r[3 * fw[k]] + FirstExtrinsic(r, w, fw[k])
  {
    hide Llr1, FirstExtrinsic;
    FirstSplits(r, w, fw[k]);
  }

  /** The next a-priori value is what the second decoder found out, and nothing else; the decision is
      the sign of all there is: received value and the findings of both. */
  lemma NextIsExtrinsic(r: seq<real>, w: seq<real>, fw: seq<nat>, rv: seq<nat>, i: nat)
    requires |r| == 3 * |w| + 12 && |fw| == |w| && MutuallyInverse(fw, rv) && i < |w|
    ensures rv[i] < |w| && forall j :: 0 <= j < |fw| ==> fw[j] < |fw|
    ensures NextApriori(r, w, fw, rv)[i] == SecondExtrinsic(r, w, fw, rv[i])
    ensures Decisions(r, w, fw, rv)[i] <==>
              r[3 * i] + FirstExtrinsic(r, w, i) + SecondExtrinsic(r, w, fw, rv[i]) > 0.0
  {
    hide Llr1, Llr2, FirstExtrinsic, SecondExtrinsic, Systematic2;
    InverseBounds(fw, rv);
    FirstSplits(r, w, i);
    SecondSplits(r, w, fw, rv[i]);
    SecondStartsFrom(r, w, fw, rv[i]);
  }

  // ---- what the path scores measure -------------------------------------------------------

  /** Sum of the values at which the first n bits are one. */
  function Weighted(v: seq<real>, us: seq<bool>, n: nat): real
    requires n <= |v| && n <= |us|
  {
    if n == 0 then 0.0 else Weighted(v, us, n - 1) + Part(v, us, n - 1)
  }

  function Part(v: seq<real>, us: seq<bool>, k: nat): real
    requires k < |v| && k < |us|
  {
    if us[k] then v[k] else 0.0
  }

  lemma {:induction false} ScoreIsWeighted(x: seq<real>, y: seq<real>, us: seq<bool>, n: nat)
    requires |x| == |y| && n <= |us| <= |x|
    ensures Score(x, y, 0, ZERO, us[..n]) == Weighted(x, us, n) + Weighted(y, Parities(ZERO, us), n)
  {
    if n > 0 {
      ScoreIsWeighted(x, y, us, n - 1);
      assert us[..n] == us[..n - 1] + [us[n - 1]];
      ScoreAppend(x, y, 0, ZERO, us[..n - 1], [us[n - 1]]);
      RunStep(ZERO, us, n - 1);
    } else {
      assert us[..0] == [];
    }
  }

  /** Over the block, three coded bits at a time. */
  lemma {:induction false} BlockWeights(r: seq<real>, w: seq<real>, x2: seq<real>, c: seq<bool>, u1: seq<bool>,
                                        p1: seq<bool>, u2: seq<bool>, p2: seq<bool>, t: nat)
    requires |r| == |c| == 3 * |w| + 12 && t <= |w| && |x2| == |w| + 3 == |u1| == |p1| == |u2| == |p2|
    requires forall k: nat :: k < |w| + 3 ==> CarriesStep(c, |w|, u1, p1, u2, p2, k)
    ensures Weighted(Systematic1(r, w), u1, t) + Weighted(Parity1(r, |w|), p1, t)
            + Weighted(x2, u2, t) + Weighted(Parity2(r, |w|), p2, t) ==
            Weighted(r, c, 3 * t) + Weighted(w, u1, t) + Weighted(x2, u2, t)
  {
    if t > 0 {
      BlockWeights(r, w, x2, c, u1, p1, u2, p2, t - 1);
      assert CarriesStep(c, |w|, u1, p1, u2, p2, t - 1);
      ThreeWeights(r, c, 3 * (t - 1));
    }
  }

  lemma ThreeWeights(v: seq<real>, us: seq<bool>, n: nat)
    requires n + 3 <= |v| && n + 3 <= |us|
    ensures Weighted(v, us, n + 3) == Weighted(v, us, n) + Part(v, us, n) + Part(v, us, n + 1) + Part(v, us, n + 2)
  {
    hide Part;
    assert Weighted(v, us, n + 2) == Weighted(v, us, n + 1) + Part(v, us, n + 1);
  }

  lemma TailStep(r: seq<real>, w: seq<real>, l1: seq<real>, fw: seq<nat>, c: seq<bool>, u1: seq<bool>,
                 p1: seq<bool>, u2: seq<bool>, p2: seq<bool>, t: nat)
    requires |r| == |c| == 3 * |w| + 12 && |w| + 3 == |u1| == |p1| == |u2| == |p2| && |l1| == |fw| == |w| && t < 3
    requires forall i :: 0 <= i < |fw| ==> fw[i] < |fw|
    requires CarriesStep(c, |w|, u1, p1, u2, p2, |w| + t)
    ensures var n, x1, x2 := |w|, Systematic1(r, w), Systematic2(r, w, l1, fw);
            && Part(x1, u1, n + t) == Part(r, c, 3 * n + 2 * t)
            && Part(Parity1(r, n), p1, n + t) == Part(r, c, 3 * n + 2 * t + 1)
            && Part(x2, u2, n + t) == Part(r, c, 3 * n + 6 + 2 * t)
            && Part(Parity2(r, n), p2, n + t) == Part(r, c, 3 * n + 6 + 2 * t + 1)
  {
  }

  /** The twelve tail bits: three steps of each encoder. */
  lemma {:induction false} TailWeights(r: seq<real>, w: seq<real>, l1: seq<real>, fw: seq<nat>, c: seq<bool>,
                                       u1: seq<bool>, p1: seq<bool>, u2: seq<bool>, p2: seq<bool>)
    requires |r| == |c| == 3 * |w| + 12 && |w| + 3 == |u1| == |p1| == |u2| == |p2| && |l1| == |fw| == |w|
    requires forall i :: 0 <= i < |fw| ==> fw[i] < |fw|
    requires forall k: nat :: k < |w| + 3 ==> CarriesStep(c, |w|, u1, p1, u2, p2, k)
    ensures var n, x1, x2 := |w|, Systematic1(r, w), Systematic2(r, w, l1, fw);
            Weighted(x1, u1, n + 3) + Weighted(Parity1(r, n), p1, n + 3)
            + Weighted(x2, u2, n + 3) + Weighted(Parity2(r, n), p2, n + 3) ==
            Weighted(x1, u1, n) + Weighted(Parity1(r, n), p1, n)
            + Weighted(x2, u2, n) + Weighted(Parity2(r, n), p2, n)
            + Weighted(r, c, 3 * n + 12) - Weighted(r, c, 3 * n)
  {
    hide Weighted, Part, CarriesStep, Systematic1, Systematic2, Parity1, Parity2;
    var n, x1, x2 := |w|, Systematic1(r, w), Systematic2(r, w, l1, fw);
    TailStep(r, w, l1, fw, c, u1, p1, u2, p2, 0);
    TailStep(r, w, l1, fw, c, u1, p1, u2, p2, 1);
    TailStep(r, w, l1, fw, c, u1, p1, u2, p2, 2);
    ThreeWeights(x1, u1, n);
    ThreeWeights(Parity1(r, n), p1, n);
    ThreeWeights(x2, u2, n);
    ThreeWeights(Parity2(r, n), p2, n);
    TwelveWeights(r, c, 3 * n);
  }

  lemma {:induction false} TwelveWeights(v: seq<real>, us: seq<bool>, m: nat)
    requires m + 12 <= |v| && m + 12 <= |us|
    ensures Weighted(v, us, m + 12) == Weighted(v, us, m)
              + Part(v, us, m) + Part(v, us, m + 1) + Part(v, us, m + 2) + Part(v, us, m + 3)
              + Part(v, us, m + 4) + Part(v, us, m + 5) + Part(v, us, m + 6) + Part(v, us, m + 7)
              + Part(v, us, m + 8) + Part(v, us, m + 9) + Part(v, us, m + 10) + Part(v, us, m + 11)
  {
    hide Weighted, Part;
    ThreeWeights(v, us, m);
    ThreeWeights(v, us, m + 3);
    ThreeWeights(v, us, m + 6);
    ThreeWeights(v, us, m + 9);
  }

  /** For the codeword of any message a and interleaved message b, what its paths score in the two
      passes adds up to the correlation of everything received with the codeword, plus what the
      a-priori values add to a and the exchanged values to b. */
  lemma ScoresCorrelate(r: seq<real>, w: seq<real>, fw: seq<nat>, a: seq<bool>, b: seq<bool>)
    requires |r| == 3 * |w| + 12 && |fw| == |w| == |a| == |b| && forall i :: 0 <= i < |fw| ==> fw[i] < |fw|
    ensures var n, x2 := |w|, Systematic2(r, w, Llr1(r, w), fw);
            Score(Systematic1(r, w), Parity1(r, n), 0, ZERO, Terminated(a))
            + Score(x2, Parity2(r, n), 0, ZERO, Terminated(b)) ==
            Weighted(r, Codeword(a, b), 3 * n + 12) + Weighted(w, a, n) + Weighted(x2, b, n)
  {
    hide Llr1, Codeword, Score, Weighted, Systematic1, Systematic2, Parity1, Parity2, CarriesStep;
    var n, l1, u1, u2, c := |w|, Llr1(r, w), Terminated(a), Terminated(b), Codeword(a, b);
    var x1, x2, p1, p2 := Systematic1(r, w), Systematic2(r, w, l1, fw), Parities(ZERO, u1), Parities(ZERO, u2);
    forall k: nat | k < n + 3
      ensures CarriesStep(c, n, u1, p1, u2, p2, k)
    {
      CodewordCarriesStep(a, b, k);
    }
    ScoreIsWeighted(x1, Parity1(r, n), u1, n + 3);
    ScoreIsWeighted(x2, Parity2(r, n), u2, n + 3);
    assert u1[..n + 3] == u1 && u2[..n + 3] == u2;
    BlockWeights(r, w, x2, c, u1, p1, u2, p2, n);
    TailWeights(r, w, l1, fw, c, u1, p1, u2, p2);
    WeightedHead(w, u1, a, n);
    WeightedHead(x2, u2, b, n);
  }

  lemma {:induction false} WeightedHead(v: seq<real>, us: seq<bool>, vs: seq<bool>, n: nat)
    requires n <= |v| && n <= |us| && n <= |vs| && us[..n] == vs[..n]
    ensures Weighted(v, us, n) == Weighted(v, vs, n)
  {
    if n > 0 {
      assert us[n - 1] == us[..n][n - 1] == vs[n - 1];
      assert us[..n - 1] == us[..n][..n - 1] == vs[..n - 1];
      WeightedHead(v, us, vs, n - 1);
    }
  }

  // ---- the round trip ---------------------------------------------------------------------

  /** Received values that do not oppose the coded block, with every systematic value nonzero. */
  ghost predicate Receives(r: seq<real>, c: seq<bool>, n: nat) {
    && |r| == |c| == 3 * n + 12
    && (forall k :: 0 <= k < |r| ==> Agrees(r[k], c[k]))
    && (forall i {:trigger r[3 * i]} :: 0 <= i < n ==> r[3 * i] != 0.0)
  }

  /** The a-priori values never oppose the message. */
  ghost predicate Supports(w: seq<real>, msg: seq<bool>) {
    |w| == |msg| && forall i :: 0 <= i < |w| ==> Agrees(w[i], msg[i])
  }

  lemma ParitiesOfThree(s: State, a: bool, b: bool, c: bool)
    ensures var s1 := Next(s, a);
            Parities(s, [a, b, c]) == [Parity(s, a), Parity(s1, b), Parity(Next(s1, b), c)]
  {
    var s1 := Next(s, a);
    var s2 := Next(s1, b);
    assert [a, b, c][1..] == [b, c] && [b, c][1..] == [c] && [c][1..] == [];
    assert Parities(s2, [c]) == [Parity(s2, c)];
    assert Parities(s1, [b, c]) == [Parity(s1, b)] + Parities(s2, [c]);
    assert Parities(s, [a, b, c]) == [Parity(s, a)] + Parities(s1, [b, c]);
  }

  /** Position by position, the tail of a constituent encoder is the end of its terminated input
      and of the parities of that input. */
  lemma TailBitsTerminate(a: seq<bool>)
    ensures var t, p := TailBits(Run(ZERO, a)), Parities(ZERO, Terminated(a));
            && p[..|a|] == Parities(ZERO, a)
            && Tail(Run(ZERO, a)) == [t[0], t[2], t[4]]
            && p[|a|..] == [t[1], t[3], t[5]]
  {
    var s := Run(ZERO, a);
    var u := Tail(s);
    RunAppend(ZERO, a, u);
    ParitiesOfThree(s, u[0], u[1], u[2]);
  }

  /** Where step t of each constituent code sits in coded block c: u1, p1 and u2, p2 are the
      terminated inputs and the parities of the two encoders, n the block size. */
  ghost predicate CarriesStep(c: seq<bool>, n: nat, u1: seq<bool>, p1: seq<bool>,
                              u2: seq<bool>, p2: seq<bool>, t: nat)
    requires |c| == 3 * n + 12 && t < n + 3 == |u1| == |p1| == |u2| == |p2|
  {
    if t < n then c[3 * t] == u1[t] && c[3 * t + 1] == p1[t] && c[3 * t + 2] == p2[t]
    else
      var j := 3 * n + 2 * (t - n);
      c[j] == u1[t] && c[j + 1] == p1[t] && c[j + 6] == u2[t] && c[j + 7] == p2[t]
  }

  lemma CodewordCarriesStep(a: seq<bool>, b: seq<bool>, t: nat)
    requires |a| == |b| && t < |a| + 3
    ensures CarriesStep(Codeword(a, b), |a|, Terminated(a), Parities(ZERO, Terminated(a)),
                        Terminated(b), Parities(ZERO, Terminated(b)), t)
  {
    TailBitsTerminate(a);
    TailBitsTerminate(b);
    var n, c := |a|, Codeword(a, b);
    assert c[..3 * n] == Merge3(a, Parities(ZERO, a), Parities(ZERO, b));
    assert c[3 * n..3 * n + 6] == TailBits(Run(ZERO, a));
    assert c[3 * n + 6..] == TailBits(Run(ZERO, b));
    if t < n {
      Merge3At(a, Parities(ZERO, a), Parities(ZERO, b), t);
    }
    StepFromParts(c, a, b, Tail(Run(ZERO, a)), Tail(Run(ZERO, b)),
                  Parities(ZERO, Terminated(a)), Parities(ZERO, Terminated(b)), t);
  }

  lemma StepFromParts(c: seq<bool>, a: seq<bool>, b: seq<bool>, ta: seq<bool>, tb: seq<bool>,
                      p1: seq<bool>, p2: seq<bool>, t: nat)
    requires |ta| == |tb| == 3 && t < |a| + 3 == |b| + 3 == |p1| == |p2| && |c| == 3 * |a| + 12
    requires t < |a| ==>
               c[..3 * |a|][3 * t] == a[t] && c[..3 * |a|][3 * t + 1] == p1[..|a|][t] &&
               c[..3 * |a|][3 * t + 2] == p2[..|a|][t]
    requires var n, q1 := |a|, p1[|a|..]; c[3 * n..3 * n + 6] == [ta[0], q1[0], ta[1], q1[1], ta[2], q1[2]]
    requires var n, q2 := |a|, p2[|a|..]; c[3 * n + 6..] == [tb[0], q2[0], tb[1], q2[1], tb[2], q2[2]]
    ensures CarriesStep(c, |a|, a + ta, p1, b + tb, p2, t)
  {
    var n := |a|;
    if t >= n {
      var j := 2 * (t - n);
      assert c[3 * n + j] == c[3 * n..3 * n + 6][j] && c[3 * n + j + 1] == c[3 * n..3 * n + 6][j + 1];
      assert c[3 * n + j + 6] == c[3 * n + 6..][j] && c[3 * n + j + 7] == c[3 * n + 6..][j + 1];
    }
  }

  /** First constituent code: its soft inputs are noise-free for the message and its tail. */
  lemma FirstPassNoiseFree(r: seq<real>, w: seq<real>, msg: seq<bool>, b: seq<bool>)
    requires |msg| == |b| && Receives(r, Codeword(msg, b), |msg|) && Supports(w, msg)
    ensures NoiseFree(Systematic1(r, w), Parity1(r, |w|), Terminated(msg))
  {
    var u1, u2 := Terminated(msg), Terminated(b);
    TerminatedEndsAtZero(msg);
    forall t | 0 <= t < |u1|
      ensures Agrees(Systematic1(r, w)[t], u1[t]) && Agrees(Parity1(r, |w|)[t], Parities(ZERO, u1)[t])
    {
      CodewordCarriesStep(msg, b, t);
      FirstInputs(r, w, Codeword(msg, b), msg, u1, Parities(ZERO, u1), u2, Parities(ZERO, u2), t);
    }
  }

  lemma FirstInputs(r: seq<real>, w: seq<real>, c: seq<bool>, msg: seq<bool>, u1: seq<bool>, p1: seq<bool>,
                    u2: seq<bool>, p2: seq<bool>, t: nat)
    requires Receives(r, c, |msg|) && Supports(w, msg)
    requires t < |msg| + 3 == |u1| == |p1| == |u2| == |p2| && u1[..|msg|] == msg
    requires CarriesStep(c, |msg|, u1, p1, u2, p2, t)
    ensures Agrees(Systematic1(r, w)[t], u1[t]) && Agrees(Parity1(r, |w|)[t], p1[t])
  {
    var n := |msg|;
    if t < n {
      assert u1[t] == u1[..n][t];
      assert Agrees(r[3 * t], c[3 * t]) && Agrees(r[3 * t + 1], c[3 * t + 1]);
    } else {
      var j := 3 * n + 2 * (t - n);
      assert Agrees(r[j], c[j]) && Agrees(r[j + 1], c[j + 1]);
    }
  }

  /** Second constituent code: the same for the interleaved message, on extrinsic values that
      support it. */
  lemma SecondPassNoiseFree(r: seq<real>, w: seq<real>, l1: seq<real>, fw: seq<nat>, msg: seq<bool>, b: seq<bool>)
    requires |msg| == |b| == |w| == |l1| == |fw| && Receives(r, Codeword(msg, b), |msg|)
    requires forall i :: 0 <= i < |fw| ==> fw[i] < |fw| && Agrees(l1[fw[i]] - w[fw[i]], b[i])
    ensures NoiseFree(Systematic2(r, w, l1, fw), Parity2(r, |w|), Terminated(b))
  {
    var u1, u2 := Terminated(msg), Terminated(b);
    TerminatedEndsAtZero(b);
    forall t | 0 <= t < |u2|
      ensures Agrees(Systematic2(r, w, l1, fw)[t], u2[t]) && Agrees(Parity2(r, |w|)[t], Parities(ZERO, u2)[t])
    {
      CodewordCarriesStep(msg, b, t);
      SecondInputs(r, w, l1, fw, Codeword(msg, b), b, u1, Parities(ZERO, u1), u2, Parities(ZERO, u2), t);
    }
  }

  lemma SecondInputs(r: seq<real>, w: seq<real>, l1: seq<real>, fw: seq<nat>, c: seq<bool>, b: seq<bool>,
                     u1: seq<bool>, p1: seq<bool>, u2: seq<bool>, p2: seq<bool>, t: nat)
    requires |b| == |w| == |l1| == |fw| && Receives(r, c, |b|)
    requires forall i :: 0 <= i < |fw| ==> fw[i] < |fw| && Agrees(l1[fw[i]] - w[fw[i]], b[i])
    requires t < |b| + 3 == |u1| == |p1| == |u2| == |p2| && u2[..|b|] == b
    requires CarriesStep(c, |b|, u1, p1, u2, p2, t)
    ensures Agrees(Systematic2(r, w, l1, fw)[t], u2[t]) && Agrees(Parity2(r, |w|)[t], p2[t])
  {
    var n := |b|;
    if t < n {
      assert u2[t] == u2[..n][t];
      assert Agrees(r[3 * t + 2], c[3 * t + 2]);
    } else {
      var j := 3 * n + 2 * (t - n);
      assert Agrees(r[j + 6], c[j + 6]) && Agrees(r[j + 7], c[j + 7]);
    }
  }

  /** r is a noise-free reception of message msg under interleaver fw with inverse rv. */
  ghost predicate Clean(r: seq<real>, fw: seq<nat>, rv: seq<nat>, msg: seq<bool>) {
    |fw| == |msg| && MutuallyInverse(fw, rv) && Receives(r, Codeword(msg, Permuted(msg, fw)), |msg|)
  }

  /** One iteration on noise-free input keeps the a-priori values in support of the message and
      decides every bit correctly. */
  lemma IterationRoundTrip(r: seq<real>, w: seq<real>, fw: seq<nat>, rv: seq<nat>, msg: seq<bool>)
    requires Clean(r, fw, rv, msg) && Supports(w, msg)
    ensures Supports(NextApriori(r, w, fw, rv), msg)
    ensures Decisions(r, w, fw, rv) == msg
  {
    var n, b := |msg|, Permuted(msg, fw);
    var c, l1, l2 := Codeword(msg, b), Llr1(r, w), Llr2(r, w, fw);
    FirstPassNoiseFree(r, w, msg, b);
    forall i | 0 <= i < n
      ensures msg[i] ==> l1[i] - w[i] >= r[3 * i] > 0.0
      ensures !msg[i] ==> l1[i] - w[i] <= r[3 * i] < 0.0
    {
      LlrFollowsCode(Systematic1(r, w), Parity1(r, n), Terminated(msg), i);
      Merge3At(msg, Parities(ZERO, msg), Parities(ZERO, b), i);
      assert Agrees(r[3 * i], c[3 * i]) && r[3 * i] != 0.0;
    }
    SecondPassNoiseFree(r, w, l1, fw, msg, b);
    forall i | 0 <= i < n
      ensures msg[i] ==> l2[rv[i]] >= l1[i] - w[i]
      ensures !msg[i] ==> l2[rv[i]] <= l1[i] - w[i]
    {
      LlrFollowsCode(Systematic2(r, w, l1, fw), Parity2(r, n), Terminated(b), rv[i]);
      assert b[rv[i]] == msg[i];
    }
  }

  lemma IterationKeepsSupport(r: seq<real>, w: seq<real>, w': seq<real>, fw: seq<nat>, rv: seq<nat>, msg: seq<bool>)
    requires Clean(r, fw, rv, msg) && Supports(w, msg) && w' == NextApriori(r, w, fw, rv)
    ensures Supports(w', msg)
  {
    IterationRoundTrip(r, w, fw, rv, msg);
  }

  lemma {:induction false} AprioriSupports(r: seq<real>, fw: seq<nat>, rv: seq<nat>, msg: seq<bool>, iterations: nat)
    requires Clean(r, fw, rv, msg)
    ensures Supports(Apriori(r, |msg|, fw, rv, iterations), msg)
  {
    hide NextApriori;
    var w := Apriori(r, |msg|, fw, rv, iterations);
    if iterations > 0 {
      AprioriSupports(r, fw, rv, msg, iterations - 1);
      IterationKeepsSupport(r, Apriori(r, |msg|, fw, rv, iterations - 1), w, fw, rv, msg);
    }
  }

  /** Turbo round trip: after any number of iterations, the first included, the decisions on
      noise-free input are the message that was encoded. */
  lemma TurboRoundTrip(r: seq<real>, fw: seq<nat>, rv: seq<nat>, msg: seq<bool>, iterations: nat)
    requires Clean(r, fw, rv, msg)
    ensures Decisions(r, Apriori(r, |msg|, fw, rv, iterations), fw, rv) == msg
  {
    AprioriSupports(r, fw, rv, msg, iterations);
    IterationRoundTrip(r, Apriori(r, |msg|, fw, rv, iterations), fw, rv, msg);
  }

  lemma CleanDecides(r: seq<real>, n: nat, fw: seq<nat>, rv: seq<nat>, iterations: nat)
    requires |r| == 3 * n + 12 && |fw| == n && MutuallyInverse(fw, rv)
    ensures forall msg :: Clean(r, fw, rv, msg) ==> Decisions(r, Apriori(r, n, fw, rv, iterations), fw, rv) == msg
  {
    hide Clean, MutuallyInverse, Decisions, Apriori;
    forall msg | Clean(r, fw, rv, msg)
      ensures Decisions(r, Apriori(r, n, fw, rv, iterations), fw, rv) == msg
    {
      CleanLength(r, fw, rv, msg);
      TurboRoundTrip(r, fw, rv, msg, iterations);
    }
  }

  lemma CleanLength(r: seq<real>, fw: seq<nat>, rv: seq<nat>, msg: seq<bool>)
    requires Clean(r, fw, rv, msg)
    ensures |msg| == |fw|
  {
  }

  /** srslte_tdec_gen_t: the handle, its work buffers, and the interleavers of all 188 sizes. */
  class Decoder {
    const maxLongCb: nat
    const dec: MapGen
    const llr1: array<real>
    const llr2: array<real>
    const w: array<real>
    const syst: array<real>
    const parity: array<real>
    const forward: seq<seq<nat>>
    const reverse: seq<seq<nat>>
    var currentCbidx: int

    ghost predicate Valid()
      reads this
    {
      && dec.Valid() && dec.maxLongCb == maxLongCb
      && llr1.Length == llr2.Length == w.Length == syst.Length == parity.Length == maxLongCb + 12
      && llr1 != llr2 && llr1 != w && llr1 != syst && llr1 != parity && llr1 != dec.beta
      && llr2 != w && llr2 != syst && llr2 != parity && llr2 != dec.beta
      && w != syst && w != parity && w != dec.beta
      && syst != parity && syst != dec.beta && parity != dec.beta
      && |forward| == |reverse| == NOF_TC_CB_SIZES
      && (forall i :: 0 <= i < NOF_TC_CB_SIZES ==>
            forward[i] == QppTable(i) && MutuallyInverse(forward[i], reverse[i]))
      && -1 <= currentCbidx < NOF_TC_CB_SIZES
    }

    /** The decoder has been reset for blocks of longCb bits. */
    ghost predicate Ready(longCb: nat)
      reads this
    {
      Valid() && longCb <= maxLongCb && currentCbidx >= 0 && BlockSize(currentCbidx) == longCb
    }

    /** srslte_tdec_gen_init */
    constructor (maxLongCb: nat)
      ensures Valid() && this.maxLongCb == maxLongCb && currentCbidx == -1
      ensures fresh(dec.beta) && fresh(llr1) && fresh(llr2) && fresh(w) && fresh(syst) && fresh(parity)
    {
      this.maxLongCb := maxLongCb;
      var len := maxLongCb + 12;
      llr1 := new real[len](_ => 0.0);
      llr2 := new real[len](_ => 0.0);
      w := new real[len](_ => 0.0);
      syst := new real[len](_ => 0.0);
      parity := new real[len](_ => 0.0);
      dec := new MapGen(maxLongCb);
      currentCbidx := -1;
      var fws, rvs := Decoder.BuildInterleavers();
      forward, reverse := fws, rvs;
    }

    /** The interleaver loop of srslte_tdec_gen_init. */
    static method BuildInterleavers() returns (forward: seq<seq<nat>>, reverse: seq<seq<nat>>)
      ensures |forward| == |reverse| == NOF_TC_CB_SIZES
      ensures forall k :: 0 <= k < NOF_TC_CB_SIZES ==>
                forward[k] == QppTable(k) && MutuallyInverse(forward[k], reverse[k])
    {
      hide QppTable, MutuallyInverse, BlockSize;
      forward, reverse := [], [];
      for i := 0 to NOF_TC_CB_SIZES
        invariant |forward| == |reverse| == i
        invariant forall k :: 0 <= k < i ==> forward[k] == QppTable(k) && MutuallyInverse(forward[k], reverse[k])
      {
        var longCb := CbSize(i);
        var interleaver := new Interleaver(longCb);
        IndexForSize(i);
        var ret := interleaver.LteGen(longCb);
        forward := forward + [interleaver.forward[..longCb]];
        reverse := reverse + [interleaver.reverse[..longCb]];
      }
    }

    /** srslte_tdec_gen_reset. A length between two block sizes is accepted as the next size. */
    method Reset(longCb: nat) returns (ret: int)
      requires Valid()
      modifies this`currentCbidx, w
      ensures Valid()
      ensures ret == if longCb <= maxLongCb && longCb <= MAX_LEN_CB then 0 else ERROR
      ensures ret == 0 ==> currentCbidx == IndexFor(longCb)
      ensures longCb <= maxLongCb ==> forall i :: 0 <= i < longCb ==> w[i] == 0.0
    {
      if longCb > maxLongCb { return ERROR; }
      for i := 0 to longCb
        invariant forall k :: 0 <= k < i ==> w[k] == 0.0
      {
        w[i] := 0.0;
      }
      currentCbidx := CbIndex(longCb);
      if currentCbidx < 0 { return ERROR; }
      return 0;
    }

    static lemma FirstInputsAre(r: seq<real>, w: seq<real>, x: seq<real>, y: seq<real>)
      requires |r| == 3 * |w| + 12 && |x| == |y| == |w| + 3
      requires forall k :: 0 <= k < |w| ==> x[k] == r[3 * k] + w[k] && y[k] == r[3 * k + 1]
      requires forall k :: |w| <= k < |w| + 3 ==>
                 x[k] == r[3 * |w| + 2 * (k - |w|)] && y[k] == r[3 * |w| + 2 * (k - |w|) + 1]
      ensures x == Systematic1(r, w) && y == Parity1(r, |w|)
    {
    }

    static lemma SecondInputsAre(r: seq<real>, w: seq<real>, l1: seq<real>, fw: seq<nat>, x: seq<real>, y: seq<real>)
      requires |r| == 3 * |w| + 12 && |x| == |y| == |w| + 3 && |l1| == |fw| == |w|
      requires forall i :: 0 <= i < |fw| ==> fw[i] < |fw|
      requires forall k :: 0 <= k < |w| ==> x[k] == l1[fw[k]] - w[fw[k]] && y[k] == r[3 * k + 2]
      requires forall k :: |w| <= k < |w| + 3 ==>
                 x[k] == r[3 * |w| + 6 + 2 * (k - |w|)] && y[k] == r[3 * |w| + 6 + 2 * (k - |w|) + 1]
      ensures x == Systematic2(r, w, l1, fw) && y == Parity2(r, |w|)
    {
    }

    /** The three tail pairs behind the block. */
    method PrepareTail(input: array<real>, longCb: nat, start: nat)
      requires Valid() && longCb <= maxLongCb && start + 6 <= input.Length && input != syst && input != parity
      modifies syst, parity
      ensures forall k :: longCb <= k < longCb + 3 ==>
                syst[k] == input[start + 2 * (k - longCb)] && parity[k] == input[start + 2 * (k - longCb) + 1]
      ensures forall k :: 0 <= k < longCb ==> syst[k] == old(syst[k]) && parity[k] == old(parity[k])
    {
      hide MutuallyInverse, QppTable;
      for i := longCb to longCb + 3
        invariant forall k :: 0 <= k < longCb ==> syst[k] == old(syst[k]) && parity[k] == old(parity[k])
        invariant forall k :: longCb <= k < i ==>
                    syst[k] == input[start + 2 * (k - longCb)] && parity[k] == input[start + 2 * (k - longCb) + 1]
      {
        syst[i] := input[start + 2 * (i - longCb)];
        parity[i] := input[start + 2 * (i - longCb) + 1];
      }
    }

    /** Fill syst and parity for the first MAP pass. */
    method PrepareFirst(input: array<real>, longCb: nat)
      requires Valid() && longCb <= maxLongCb && input.Length == 3 * longCb + 12
      requires input != syst && input != parity
      modifies syst, parity
      ensures syst[..longCb + 3] == Systematic1(input[..], w[..longCb])
      ensures parity[..longCb + 3] == Parity1(input[..], longCb)
    {
      hide MutuallyInverse, QppTable, Systematic1, Parity1;
      for i := 0 to longCb
        invariant forall k :: 0 <= k < i ==> syst[k] == input[3 * k] + w[k] && parity[k] == input[3 * k + 1]
      {
        syst[i] := input[3 * i] + w[i];
        parity[i] := input[3 * i + 1];
      }
      PrepareTail(input, longCb, 3 * longCb);
      FirstInputsAre(input[..], w[..longCb], syst[..longCb + 3], parity[..longCb + 3]);
    }

    /** Fill syst and parity for the second MAP pass. */
    method PrepareSecond(input: array<real>, longCb: nat, inter: seq<nat>)
      requires Valid() && longCb <= maxLongCb && input.Length == 3 * longCb + 12
      requires |inter| == longCb && forall i :: 0 <= i < longCb ==> inter[i] < longCb
      requires input != syst && input != parity
      modifies syst, parity
      ensures syst[..longCb + 3] ==
              Systematic2(input[..], w[..longCb], llr1[..longCb], inter)
      ensures parity[..longCb + 3] == Parity2(input[..], longCb)
    {
      hide MutuallyInverse, QppTable, Systematic2, Parity2;
      for i := 0 to longCb
        invariant forall k :: 0 <= k < i ==>
                    syst[k] == llr1[inter[k]] - w[inter[k]] && parity[k] == input[3 * k + 2]
      {
        syst[i] := llr1[inter[i]] - w[inter[i]];
        parity[i] := input[3 * i + 2];
      }
      PrepareTail(input, longCb, 3 * longCb + 6);
      SecondInputsAre(input[..], w[..longCb], llr1[..longCb], inter, syst[..longCb + 3], parity[..longCb + 3]);
    }

    method FirstPass(input: array<real>, longCb: nat)
      requires Valid() && longCb <= maxLongCb && input.Length == 3 * longCb + 12
      requires input != syst && input != parity && input != llr1 && input != dec.beta
      modifies dec.beta, llr1, syst, parity
      ensures llr1[..longCb] == Llr1(input[..], w[..longCb])
    {
      hide MutuallyInverse, QppTable;
      ghost var x, y := Systematic1(input[..], w[..longCb]), Parity1(input[..], longCb);
      PrepareFirst(input, longCb);
      hide Systematic1, Parity1, Llr;
      dec.Dec(syst, parity, llr1, longCb);
      assert llr1[..longCb] == Llrs(x, y, longCb);
    }

    method SecondPass(input: array<real>, longCb: nat, inter: seq<nat>)
      requires Valid() && longCb <= maxLongCb && input.Length == 3 * longCb + 12
      requires |inter| == longCb && forall i :: 0 <= i < longCb ==> inter[i] < longCb
      requires input != syst && input != parity && input != llr2 && input != dec.beta
      requires llr1[..longCb] == Llr1(input[..], w[..longCb])
      modifies dec.beta, llr2, syst, parity
      ensures llr2[..longCb] == Llr2(input[..], w[..longCb], inter)
    {
      hide MutuallyInverse, QppTable, Llr1;
      ghost var x := Systematic2(input[..], w[..longCb], llr1[..longCb], inter);
      ghost var y := Parity2(input[..], longCb);
      PrepareSecond(input, longCb, inter);
      hide Systematic2, Parity2, Llr;
      dec.Dec(syst, parity, llr2, longCb);
      assert llr2[..longCb] == Llrs(x, y, longCb);
    }

    /** srslte_tdec_gen_iteration */
    method Iteration(input: array<real>, longCb: nat)
      requires Ready(longCb) && input.Length == 3 * longCb + 12
      requires input != syst && input != parity && input != llr1 && input != llr2 && input != w && input != dec.beta
      modifies dec.beta, llr1, llr2, w, syst, parity
      ensures var fw, rv := forward[currentCbidx], reverse[currentCbidx];
              && llr2[..longCb] == Llr2(input[..], old(w[..longCb]), fw)
              && w[..longCb] == NextApriori(input[..], old(w[..longCb]), fw, rv)
      ensures var fw, rv, w0, x := forward[currentCbidx], reverse[currentCbidx], old(w[..longCb]), input[..];
              && (forall i :: 0 <= i < longCb ==> fw[i] < longCb && rv[i] < longCb)
              && forall i :: 0 <= i < longCb ==> w[i] == SecondExtrinsic(x, w0, fw, rv[i])
    {
      hide MutuallyInverse, QppTable, Llr1, Llr2;
      var inter, deinter := forward[currentCbidx], reverse[currentCbidx];
      InverseBounds(inter, deinter);
      ghost var r, w0 := input[..], w[..longCb];
      FirstPass(input, longCb);
      assert w[..longCb] == w0 && input[..] == r;
      SecondPass(input, longCb, inter);
      assert w[..longCb] == w0 && input[..] == r;
      ghost var l1, l2 := llr1[..longCb], llr2[..longCb];
      UpdateApriori(longCb, deinter);
      assert forall k :: 0 <= k < longCb ==> w[k] == w0[k] + (l2[deinter[k]] - l1[k]);
      assert w[..longCb] == NextApriori(r, w0, inter, deinter);
      hide NextApriori, SecondExtrinsic;
      forall i | 0 <= i < longCb
        ensures w[i] == SecondExtrinsic(r, w0, inter, deinter[i])
      {
        NextIsExtrinsic(r, w0, inter, deinter, i);
        assert w[..longCb][i] == w[i];
      }
    }

    /** The closing loop of srslte_tdec_gen_iteration. */
    method UpdateApriori(longCb: nat, deinter: seq<nat>)
      requires Valid() && longCb <= maxLongCb
      requires |deinter| == longCb && forall i :: 0 <= i < longCb ==> deinter[i] < longCb
      modifies w
      ensures forall k :: 0 <= k < longCb ==> w[k] == old(w[k]) + (llr2[deinter[k]] - llr1[k])
    {
      hide MutuallyInverse, QppTable;
      for i := 0 to longCb
        invariant forall k :: 0 <= k < i ==> w[k] == old(w[k]) + (llr2[deinter[k]] - llr1[k])
        invariant forall k :: i <= k < longCb ==> w[k] == old(w[k])
      {
        w[i] := w[i] + (llr2[deinter[i]] - llr1[i]);
      }
    }

    /** What the decision loops read from llr2. */
    ghost function HardBits(longCb: nat): (d: seq<bool>)
      requires Ready(longCb)
      reads this, llr2
      ensures |d| == longCb
    {
      var rv := reverse[currentCbidx];
      InverseBounds(forward[currentCbidx], rv);
      var l := llr2[..longCb];
      seq(longCb, i requires 0 <= i < longCb => l[rv[i]] > 0.0)
    }

    lemma HardBitAt(longCb: nat, j: nat)
      requires Ready(longCb) && j < longCb
      ensures j < |reverse[currentCbidx]| && reverse[currentCbidx][j] < longCb
      ensures HardBits(longCb)[j] == (llr2[reverse[currentCbidx][j]] > 0.0)
    {
      hide QppTable;
    }

    /** srslte_tdec_gen_decision: one byte, 0 or 1, for each bit. */
    method Decision(output: array<nat>, longCb: nat)
      requires Ready(longCb) && longCb <= output.Length
      modifies output
      ensures forall i :: 0 <= i < longCb ==> output[i] == if HardBits(longCb)[i] then 1 else 0
    {
      hide MutuallyInverse, QppTable;
      var deinter := reverse[currentCbidx];
      InverseBounds(forward[currentCbidx], deinter);
      ghost var d := HardBits(longCb);
      for i := 0 to longCb
        invariant forall k :: 0 <= k < i ==> output[k] == if d[k] then 1 else 0
      {
        output[i] := if llr2[deinter[i]] > 0.0 then 1 else 0;
      }
    }

    /** The eight decisions that make up byte i. */
    method EightDecisions(deinter: seq<nat>, i: nat, longCb: nat) returns (b: Bytes.byte)
      requires Ready(longCb) && deinter == reverse[currentCbidx] && 8 * i + 8 <= longCb
      ensures Bytes.UnpackByte(b) == HardBits(longCb)[8 * i..8 * i + 8]
    {
      hide MutuallyInverse, QppTable, Bytes.PackByte, Bytes.UnpackByte, HardBits, BlockSize;
      InverseBounds(forward[currentCbidx], deinter);
      ghost var h, n := HardBits(longCb), 8 * i;
      forall j | n <= j < n + 8 {
        HardBitAt(longCb, j);
      }
      var b0, b1 := llr2[deinter[8 * i]] > 0.0, llr2[deinter[8 * i + 1]] > 0.0;
      var b2, b3 := llr2[deinter[8 * i + 2]] > 0.0, llr2[deinter[8 * i + 3]] > 0.0;
      var b4, b5 := llr2[deinter[8 * i + 4]] > 0.0, llr2[deinter[8 * i + 5]] > 0.0;
      var b6, b7 := llr2[deinter[8 * i + 6]] > 0.0, llr2[deinter[8 * i + 7]] > 0.0;
      assert b0 == h[n] && b1 == h[n + 1] && b2 == h[n + 2] && b3 == h[n + 3];
      assert b4 == h[n + 4] && b5 == h[n + 5] && b6 == h[n + 6] && b7 == h[n + 7];
      var bits := [b0, b1, b2, b3, b4, b5, b6, b7];
      b := Bytes.PackByte(bits);
      Bytes.UnpackOfPack(bits);
      Bytes.EightBits(bits, h, n);
    }

    /** srslte_tdec_gen_decision_byte: eight bits to a byte, most significant first. */
    method DecisionByte(output: array<Bytes.byte>, longCb: nat)
      requires Ready(longCb) && longCb / 8 <= output.Length && output as object != llr2
      modifies output
      ensures Bytes.Bits(output[..longCb / 8]) == HardBits(longCb)
      ensures forall i :: longCb / 8 <= i < output.Length ==> output[i] == old(output[i])
    {
      ghost var d := HardBits(longCb);
      hide MutuallyInverse, QppTable, Bytes.Bits, HardBits, Bytes.UnpackByte, BlockSize;
      var deinter := reverse[currentCbidx];
      assert output[..0] == [] && Bytes.Bits([]) == d[..0];
      for i := 0 to longCb / 8
        invariant Bytes.Bits(output[..i]) == d[..8 * i]
        invariant HardBits(longCb) == d
        invariant forall k :: longCb / 8 <= k < output.Length ==> output[k] == old(output[k])
      {
        var b := EightDecisions(deinter, i, longCb);
        Bytes.BitsAppend(output[..i], b);
        output[i] := b;
        assert output[..i + 1] == output[..i] + [b];
        assert d[..8 * (i + 1)] == d[..8 * i] + d[8 * i..8 * i + 8];
      }
      assert d[..8 * (longCb / 8)] == d;
    }

    /** srslte_tdec_gen_run_all: reset, at least one iteration, byte decisions. On a noise-free
        reception of any message the bytes are that message, whatever the iteration count. */
    method RunAll(input: array<real>, output: array<Bytes.byte>, nofIterations: nat, longCb: nat) returns (ret: int)
      requires Valid() && (longCb <= maxLongCb && longCb <= MAX_LEN_CB ==> IsCbSize(longCb))
      requires input.Length == 3 * longCb + 12 && longCb / 8 <= output.Length
      requires output as object !in {llr1, llr2, w, syst, parity, dec.beta, input}
      requires input != syst && input != parity && input != llr1 && input != llr2 && input != w && input != dec.beta
      modifies this`currentCbidx, dec.beta, llr1, llr2, w, syst, parity, output
      ensures Valid()
      ensures ret == if longCb <= maxLongCb && longCb <= MAX_LEN_CB then 0 else ERROR
      ensures ret != 0 ==> output[..] == old(output[..])
      ensures ret == 0 ==>
                && Ready(longCb)
                && var fw, rv := forward[currentCbidx], reverse[currentCbidx];
                   var n := if nofIterations <= 1 then 0 else nofIterations - 1;
                   Bytes.Bits(output[..longCb / 8]) ==
                   Decisions(input[..], Apriori(input[..], longCb, fw, rv, n), fw, rv)
      ensures ret == 0 ==>
                forall msg :: Clean(input[..], forward[currentCbidx], reverse[currentCbidx], msg) ==>
                  Bytes.Bits(output[..longCb / 8]) == msg
    {
      hide MutuallyInverse, QppTable, LlrAfter, Apriori, Decisions, Clean;
      ret := Reset(longCb);
      if ret != 0 { return; }
      IndexForExact(longCb);
      ghost var r, fw, rv := input[..], forward[currentCbidx], reverse[currentCbidx];
      ghost var n := Iterate(input, nofIterations, longCb);
      DecisionByte(output, longCb);
      DecisionsAreHardBits(r, longCb, n);
      CleanDecides(r, longCb, fw, rv, n);
    }

    lemma DecisionsAreHardBits(r: seq<real>, longCb: nat, n: nat)
      requires Ready(longCb) && |r| == 3 * longCb + 12
      requires llr2[..longCb] == LlrAfter(r, longCb, forward[currentCbidx], reverse[currentCbidx], n)
      ensures HardBits(longCb) ==
              Decisions(r, Apriori(r, longCb, forward[currentCbidx], reverse[currentCbidx], n),
                        forward[currentCbidx], reverse[currentCbidx])
    {
      hide MutuallyInverse, QppTable, Llr2, Apriori;
      InverseBounds(forward[currentCbidx], reverse[currentCbidx]);
    }

    /** The do-while loop of srslte_tdec_gen_run_all; n is the number of iterations after the first. */
    method Iterate(input: array<real>, nofIterations: nat, longCb: nat) returns (ghost n: nat)
      requires Ready(longCb) && input.Length == 3 * longCb + 12
      requires input != syst && input != parity && input != llr1 && input != llr2 && input != w && input != dec.beta
      requires forall i :: 0 <= i < longCb ==> w[i] == 0.0
      modifies dec.beta, llr1, llr2, w, syst, parity
      ensures Ready(longCb) && n == if nofIterations <= 1 then 0 else nofIterations - 1
      ensures llr2[..longCb] == LlrAfter(input[..], longCb, forward[currentCbidx], reverse[currentCbidx], n)
    {
      hide MutuallyInverse, QppTable, Llr2, NextApriori;
      ghost var r, fw, rv := input[..], forward[currentCbidx], reverse[currentCbidx];
      InverseBounds(fw, rv);
      assert w[..longCb] == Apriori(r, longCb, fw, rv, 0);
      n := 0;
      Iteration(input, longCb);
      var iter := 1;
      while iter < nofIterations
        invariant Ready(longCb) && input[..] == r
        invariant n == iter - 1 && (iter <= nofIterations || iter == 1)
        invariant llr2[..longCb] == LlrAfter(r, longCb, fw, rv, n)
        invariant w[..longCb] == Apriori(r, longCb, fw, rv, n + 1)
      {
        n := n + 1;
        Iteration(input, longCb);
        iter := iter + 1;
      }
    }
  }
}

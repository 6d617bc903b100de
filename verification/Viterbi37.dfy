/** The Viterbi decoder for the rate 1/3, constraint length 7 code (srslte/lib/fec/viterbi37_port.c
    and decode37 in srslte/lib/fec/viterbi.c). */
module Viterbi37 {
  import opened NumberTheory
  import opened ConvolutionalCode
  import opened ViterbiMetrics
  import opened ViterbiCorrection
  import opened TailBiting
  import opened Words

  const TB_ITER := 3

  /** A branch-table entry, 0 or 255, exclusive-ored with a sample. */
  function XorSample(entry: nat, y: Sample): (g: nat)
    requires entry == 0 || entry == 255
    ensures g == Gap(y, entry == 255)
  {
    if entry == 255 then 255 - y else y
  }

  function Entry(b: bool): (e: nat)
    ensures e == 0 || e == 255
  {
    if b then 255 else 0
  }

  /** The branch metric of the lower predecessor of state 2i. The other three branches of the
      butterfly follow from it. */
  lemma ButterflyBranches(tr: Trial, t: nat, i: nat)
    requires i < 32 && 3 * t + 3 <= |tr.y| && tr.c.Valid()
    ensures Branch(tr, t, 2 * i) == Gap(tr.y[3 * t], Par(2 * i, tr.c.p0)) + Gap(tr.y[3 * t + 1], Par(2 * i, tr.c.p1))
                                    + Gap(tr.y[3 * t + 2], Par(2 * i, tr.c.p2)) <= 765
    ensures Branch(tr, t, 2 * i + 1) == 765 - Branch(tr, t, 2 * i)
    ensures Branch(tr, t, 2 * i + 64) == 765 - Branch(tr, t, 2 * i)
    ensures Branch(tr, t, 2 * i + 1 + 64) == Branch(tr, t, 2 * i)
  {
    OtherBranches(tr.c.p0, i);
    OtherBranches(tr.c.p1, i);
    OtherBranches(tr.c.p2, i);
    hide Par;
  }

  lemma OtherBranches(p: nat, i: nat)
    requires FullLength(p) && i < 32
    ensures Par(2 * i + 1, p) == !Par(2 * i, p) && Par(2 * i + 64, p) == !Par(2 * i, p)
    ensures Par(2 * i + 1 + 64, p) == Par(2 * i, p)
  {
    hide Par;
    ParOfOdd(i, p);
    SmallPowers();
    ParOfTop(2 * i, p, 6);
    ParOfTop(2 * i + 1, p, 6);
  }

  /** The four path metrics of butterfly i. */
  lemma ButterflyPaths(tr: Trial, t: nat, i: nat)
    requires i < 32 && 3 * t + 3 <= |tr.y| && tr.c.Valid()
    ensures var metric := Branch(tr, t, 2 * i);
            && Via(tr, t, 2 * i, false) == Best(tr, t, i) + metric
            && Via(tr, t, 2 * i, true) == Best(tr, t, i + 32) + (765 - metric)
            && Via(tr, t, 2 * i + 1, false) == Best(tr, t, i) + (765 - metric)
            && Via(tr, t, 2 * i + 1, true) == Best(tr, t, i + 32) + metric
  {
    hide Best, Branch;
    ButterflyBranches(tr, t, i);
    assert Pred(2 * i, false) == i && Pred(2 * i, true) == i + 32;
    assert Pred(2 * i + 1, false) == i && Pred(2 * i + 1, true) == i + 32;
  }

  /** The stored decision and metric of one of the two new states. */
  lemma SelectIsBest(tr: Trial, t: nat, s: State, m0: u32, m1: u32)
    requires 3 * t + 3 <= |tr.y|
    requires m0 == Via(tr, t, s, false) % W && m1 == Via(tr, t, s, true) % W
    ensures SignedPositive(Sub(m0, m1)) == Decision(tr, t, s)
    ensures (if Decision(tr, t, s) then m1 else m0) == Best(tr, t + 1, s) % W
  {
    SpreadBounded(tr, t, Pred(s, false), Pred(s, true));
    SpreadBounded(tr, t, Pred(s, true), Pred(s, false));
    BestUnfold(tr, t, s);
    ViaUnfold(tr, t, s);
    hide Best, Branch, Pred, Via, SignedPositive, Sub;
    SignedCompare(Via(tr, t, s, false), Via(tr, t, s, true));
  }

  lemma BestUnfold(tr: Trial, t: nat, s: State)
    requires 3 * t + 3 <= |tr.y|
    ensures Best(tr, t + 1, s) == Via(tr, t, s, Decision(tr, t, s))
    ensures Decision(tr, t, s) == (Via(tr, t, s, false) > Via(tr, t, s, true))
  {
    hide Branch, Pred;
  }

  lemma ViaUnfold(tr: Trial, t: nat, s: State)
    requires 3 * t + 3 <= |tr.y|
    ensures forall d :: Best(tr, t, Pred(s, d)) <= Via(tr, t, s, d) <= Best(tr, t, Pred(s, d)) + 765
  {
    hide Branch, Pred, Best;
  }

  /** One butterfly in wrap-around arithmetic. */
  method Compare(old0: u32, old1: u32, metric: nat, ghost tr: Trial, ghost t: nat, ghost i: nat)
    returns (even: u32, evenBit: word, odd: u32, oddBit: word)
    requires i < 32 && 3 * t + 3 <= |tr.y| && tr.c.Valid() && metric == Branch(tr, t, 2 * i)
    requires old0 == Best(tr, t, i) % W && old1 == Best(tr, t, i + 32) % W
    ensures even == Best(tr, t + 1, 2 * i) % W && odd == Best(tr, t + 1, 2 * i + 1) % W
    ensures evenBit == (if Decision(tr, t, 2 * i) then 1 else 0)
    ensures oddBit == (if Decision(tr, t, 2 * i + 1) then 1 else 0)
  {
    hide Best, Branch, Via, Decision, SignedPositive, Sub, Add;
    ButterflyBranches(tr, t, i);
    ButterflyPaths(tr, t, i);
    var m0 := Add(old0, metric);
    var m1 := Add(old1, 765 - metric);
    AddMod(Best(tr, t, i), metric);
    AddMod(Best(tr, t, i + 32), 765 - metric);
    SelectIsBest(tr, t, 2 * i, m0, m1);
    var decision := SignedPositive(Sub(m0, m1));
    even := if decision then m1 else m0;
    evenBit := if decision then 1 else 0;
    var d := Sub(metric + metric, 765);
    ShiftMetrics(Best(tr, t, i), Best(tr, t, i + 32), metric);
    m0 := Sub(m0, d);
    m1 := Add(m1, d);
    SelectIsBest(tr, t, 2 * i + 1, m0, m1);
    decision := SignedPositive(Sub(m0, m1));
    odd := if decision then m1 else m0;
    oddBit := if decision then 1 else 0;
  }

  /** Moving both sums by the wrapped difference gives the sums of the odd state. */
  lemma ShiftMetrics(b0: nat, b1: nat, metric: nat)
    ensures var d := Sub(metric + metric, 765);
            && Sub((b0 + metric) % W, d) == (b0 + (765 - metric)) % W
            && Add((b1 + (765 - metric)) % W, d) == (b1 + metric) % W
  {
    var e := 2 * metric - 765;
    var qe, qa, qb := e / W, (b0 + metric) / W, (b1 + (765 - metric)) / W;
    assert e == W * qe + e % W;
    assert b0 + metric == W * qa + (b0 + metric) % W;
    assert b1 + (765 - metric) == W * qb + (b1 + (765 - metric)) % W;
    ModShiftBy((b0 + metric) % W - e % W, b0 + (765 - metric), qe - qa);
    ModShiftBy((b1 + (765 - metric)) % W + e % W, b1 + metric, -qe - qb);
  }

  lemma ModShiftBy(a: int, b: int, q: int)
    requires a == b + W * q
    ensures a % W == b % W
  {
    ModUnique(a, W, b / W + q, b % W);
  }

  function Bit(b: bool): (w: word)
    ensures w == 0 || w == 1
  {
    if b then 1 else 0
  }

  /** The decision bit kept for state s in a pair of decision words. */
  function Kept(w0: word, w1: word, s: State): word {
    if s < 32 then Get(w0, s) else Get(w1, s - 32)
  }

  /** Words w0 and w1 hold the decisions of step t for the states below upto, and nothing else. */
  ghost predicate Row(w0: word, w1: word, tr: Trial, t: nat, upto: nat)
    requires 3 * t + 3 <= |tr.y|
  {
    forall s: State :: Kept(w0, w1, s) == Bit(s < upto && Decision(tr, t, s))
  }

  lemma EmptyRow(tr: Trial, t: nat)
    requires 3 * t + 3 <= |tr.y|
    ensures Row(0, 0, tr, t, 0)
  {
    hide Get, Decision;
    forall s: State
      ensures Kept(0, 0, s) == 0
    {
      GetZero(s % 32);
    }
  }

  /** The word that decision s goes to, with the decision put in. */
  function PutKept(w: word, s: State, d: word): word {
    Put(w, s % 32, d)
  }

  lemma KeptPutLow(w0: word, w1: word, s: State, d: word, j: State)
    requires s < 32 && d <= 1 && Kept(w0, w1, s) == 0
    ensures Kept(PutKept(w0, s, d), w1, j) == if j == s then d else Kept(w0, w1, j)
  {
    hide Get, Put;
    if j < 32 { GetPut(w0, j, s, d); }
  }

  lemma KeptPutHigh(w0: word, w1: word, s: State, d: word, j: State)
    requires s >= 32 && d <= 1 && Kept(w0, w1, s) == 0
    ensures Kept(w0, PutKept(w1, s, d), j) == if j == s then d else Kept(w0, w1, j)
  {
    hide Get, Put;
    if j >= 32 { GetPut(w1, j - 32, s - 32, d); }
  }

  lemma RowPutLow(w0: word, w1: word, tr: Trial, t: nat, s: State)
    requires 3 * t + 3 <= |tr.y| && Row(w0, w1, tr, t, s) && s < 32
    ensures Row(PutKept(w0, s, Bit(Decision(tr, t, s))), w1, tr, t, s + 1)
  {
    hide Kept, PutKept, Decision;
    var d := Bit(Decision(tr, t, s));
    forall j: State
      ensures Kept(PutKept(w0, s, d), w1, j) == Bit(j < s + 1 && Decision(tr, t, j))
    {
      assert Kept(w0, w1, s) == 0;
      KeptPutLow(w0, w1, s, d, j);
    }
  }

  lemma RowPutHigh(w0: word, w1: word, tr: Trial, t: nat, s: State)
    requires 3 * t + 3 <= |tr.y| && Row(w0, w1, tr, t, s) && s >= 32
    ensures Row(w0, PutKept(w1, s, Bit(Decision(tr, t, s))), tr, t, s + 1)
  {
    hide Kept, PutKept, Decision;
    var d := Bit(Decision(tr, t, s));
    forall j: State
      ensures Kept(w0, PutKept(w1, s, d), j) == Bit(j < s + 1 && Decision(tr, t, j))
    {
      assert Kept(w0, w1, s) == 0;
      KeptPutHigh(w0, w1, s, d, j);
    }
  }

  /** Branchtab37 for code c. */
  ghost predicate IsBranchTable(table: seq<seq<nat>>, c: Code) {
    && |table| == 3 && |table[0]| == |table[1]| == |table[2]| == 32
    && (forall s :: 0 <= s < 32 ==> table[0][s] == Entry(Par(2 * s, c.p0)))
    && (forall s :: 0 <= s < 32 ==> table[1][s] == Entry(Par(2 * s, c.p1)))
    && forall s :: 0 <= s < 32 ==> table[2][s] == Entry(Par(2 * s, c.p2))
  }

  /** struct v37: path metrics in two buffers that are swapped at every step, and one pair of
      decision words per step. */
  class V37 {
    const metrics1: array<u32>
    const metrics2: array<u32>
    const decisions: array2<word>
    const len: nat
    const branchtab: seq<seq<nat>>
    ghost const code: Code
    var dp: nat
    var oldMetrics: array<u32>
    var newMetrics: array<u32>

    ghost predicate Valid()
      reads this
    {
      && code.Valid()
      && metrics1.Length == metrics2.Length == 64 && metrics1 != metrics2
      && ((oldMetrics == metrics1 && newMetrics == metrics2) || (oldMetrics == metrics2 && newMetrics == metrics1))
      && decisions.Length0 == len && decisions.Length1 == 2 && dp <= len
      && IsBranchTable(branchtab, code)
    }

    /** Buffer m holds the path metrics after k steps of trial tr, wrapped to 32 bits. */
    ghost predicate Metrics(m: array<u32>, tr: Trial, k: nat)
      reads m
    {
      m.Length == 64 && 3 * k <= |tr.y| && forall s: State :: m[s] == Best(tr, k, s) % W
    }

    /** The decision words hold the decisions of the first k steps of trial tr. */
    ghost predicate Decisions(tr: Trial, k: nat)
      requires decisions.Length1 == 2
      reads decisions
    {
      k <= decisions.Length0 && 3 * k <= |tr.y| &&
      forall t :: 0 <= t < k ==> Row(decisions[t, 0], decisions[t, 1], tr, t, 64)
    }

    /** No decision has been put down for step t or any later one. */
    ghost predicate Blank(t: nat)
      requires decisions.Length1 == 2
      reads decisions
    {
      forall u, w :: t <= u < decisions.Length0 && 0 <= w < 2 ==> decisions[u, w] == 0
    }

    /** The decoder has worked through the dp steps of trial tr. */
    ghost predicate Worked(tr: Trial)
      reads this, oldMetrics, decisions
    {
      Valid() && tr.c == code && |tr.y| == 3 * dp && Metrics(oldMetrics, tr, dp) && Decisions(tr, dp)
    }

    /** create_viterbi37_port with set_viterbi37_polynomial_port */
    constructor (c: Code, length: nat)
      requires c.Valid()
      ensures Valid() && code == c && len == length + 6
      ensures fresh(metrics1) && fresh(metrics2) && fresh(decisions)
    {
      metrics1 := new u32[64](_ => 0);
      metrics2 := new u32[64](_ => 0);
      decisions := new word[length + 6, 2]((_, _) => 0);
      len := length + 6;
      code := c;
      var table := V37.BranchTable(c);
      branchtab := table;
      dp := 0;
      new;
      oldMetrics, newMetrics := metrics1, metrics2;
    }

    static method BranchTable(c: Code) returns (table: seq<seq<nat>>)
      ensures IsBranchTable(table, c)
    {
      hide Par;
      var t0, t1, t2 := [], [], [];
      for state := 0 to 32
        invariant |t0| == |t1| == |t2| == state
        invariant forall s :: 0 <= s < state ==> t0[s] == Entry(Par(2 * s, c.p0))
        invariant forall s :: 0 <= s < state ==> t1[s] == Entry(Par(2 * s, c.p1))
        invariant forall s :: 0 <= s < state ==> t2[s] == Entry(Par(2 * s, c.p2))
      {
        t0 := t0 + [Entry(Par(2 * state, c.p0))];
        t1 := t1 + [Entry(Par(2 * state, c.p1))];
        t2 := t2 + [Entry(Par(2 * state, c.p2))];
      }
      table := [t0, t1, t2];
    }

    /** init_viterbi37_port */
    method Init(startingState: int) returns (ghost tr: Trial)
      requires Valid() && -1 <= startingState < 64
      modifies this, metrics1, metrics2, decisions
      ensures tr == Trial(code, startingState, []) && Valid() && Worked(tr) && dp == 0 && Blank(0)
    {
      tr := Trial(code, startingState, []);
      Clear();
      for i := 0 to 64
        invariant forall s :: 0 <= s < i ==> metrics1[s] == 63
        modifies metrics1
      {
        metrics1[i] := 63;
      }
      oldMetrics, newMetrics, dp := metrics1, metrics2, 0;
      if startingState != -1 {
        oldMetrics[startingState] := 0;
      }
      forall s: State
        ensures oldMetrics[s] == Best(tr, 0, s) % W
      {
        SmallModW(Bias(startingState, s));
      }
    }

    /** clear_v37 */
    method Clear()
      requires Valid()
      modifies metrics1, metrics2, decisions
      ensures forall t, w :: 0 <= t < len && 0 <= w < 2 ==> decisions[t, w] == 0
      ensures forall s :: 0 <= s < 64 ==> metrics1[s] == metrics2[s] == 0
    {
      for t := 0 to len
        invariant forall u, w :: 0 <= u < t && 0 <= w < 2 ==> decisions[u, w] == 0
        modifies decisions
      {
        decisions[t, 0], decisions[t, 1] := 0, 0;
      }
      for i := 0 to 64
        invariant forall s :: 0 <= s < i ==> metrics1[s] == metrics2[s] == 0
        modifies metrics1, metrics2
      {
        metrics1[i], metrics2[i] := 0, 0;
      }
    }

    static lemma SmallModW(m: nat)
      requires m < W
      ensures m % W == m
    {
    }

    /** BFLY(i) */
    method Butterfly(i: nat, sym0: Sample, sym1: Sample, sym2: Sample, d: nat, ghost tr: Trial)
      requires Valid() && i < 32 && d < len && tr.c == code && 3 * d + 3 <= |tr.y|
      requires sym0 == tr.y[3 * d] && sym1 == tr.y[3 * d + 1] && sym2 == tr.y[3 * d + 2]
      requires oldMetrics[i] == Best(tr, d, i) % W && oldMetrics[i + 32] == Best(tr, d, i + 32) % W
      requires Row(decisions[d, 0], decisions[d, 1], tr, d, 2 * i)
      modifies newMetrics, decisions
      ensures newMetrics[2 * i] == Best(tr, d + 1, 2 * i) % W && newMetrics[2 * i + 1] == Best(tr, d + 1, 2 * i + 1) % W
      ensures forall s :: 0 <= s < 64 && s / 2 != i ==> newMetrics[s] == old(newMetrics[s])
      ensures Row(decisions[d, 0], decisions[d, 1], tr, d, 2 * i + 2)
      ensures forall t, w :: 0 <= t < len && 0 <= w < 2 && t != d ==> decisions[t, w] == old(decisions[t, w])
    {
      hide Best, Decision, Row, Put, Par, Branch;
      var metric := XorSample(branchtab[0][i], sym0) + XorSample(branchtab[1][i], sym1)
                    + XorSample(branchtab[2][i], sym2);
      ButterflyBranches(tr, d, i);
      var even, evenBit, odd, oddBit := Compare(oldMetrics[i], oldMetrics[i + 32], metric, tr, d, i);
      newMetrics[2 * i] := even;
      newMetrics[2 * i + 1] := odd;
      StoreDecision(d, 2 * i, evenBit, tr);
      StoreDecision(d, 2 * i + 1, oddBit, tr);
    }

    /** d->w[i/16] |= decision << (..) for new state s */
    method StoreDecision(d: nat, s: State, decision: word, ghost tr: Trial)
      requires Valid() && d < len && 3 * d + 3 <= |tr.y|
      requires Row(decisions[d, 0], decisions[d, 1], tr, d, s) && decision == Bit(Decision(tr, d, s))
      modifies decisions
      ensures Row(decisions[d, 0], decisions[d, 1], tr, d, s + 1)
      ensures forall t, w :: 0 <= t < len && 0 <= w < 2 && t != d ==> decisions[t, w] == old(decisions[t, w])
    {
      hide Decision, Row, Put, IsBranchTable;
      if s < 32 { RowPutLow(decisions[d, 0], decisions[d, 1], tr, d, s); }
      else { RowPutHigh(decisions[d, 0], decisions[d, 1], tr, d, s); }
      decisions[d, s / 32] := Put(decisions[d, s / 32], s % 32, decision);
    }

    /** The 32 butterflies of one step. */
    method Step(sym0: Sample, sym1: Sample, sym2: Sample, d: nat, ghost tr: Trial)
      requires Valid() && d < len && tr.c == code && 3 * d + 3 <= |tr.y|
      requires sym0 == tr.y[3 * d] && sym1 == tr.y[3 * d + 1] && sym2 == tr.y[3 * d + 2]
      requires Metrics(oldMetrics, tr, d)
      modifies newMetrics, decisions
      ensures Metrics(newMetrics, tr, d + 1) && Row(decisions[d, 0], decisions[d, 1], tr, d, 64)
      ensures forall t, w :: 0 <= t < len && 0 <= w < 2 && t != d ==> decisions[t, w] == old(decisions[t, w])
    {
      hide Best, Row, IsBranchTable;
      decisions[d, 0], decisions[d, 1] := 0, 0;
      EmptyRow(tr, d);
      for i := 0 to 32
        invariant Row(decisions[d, 0], decisions[d, 1], tr, d, 2 * i)
        invariant forall s: State :: s < 2 * i ==> newMetrics[s] == Best(tr, d + 1, s) % W
        invariant forall t, w :: 0 <= t < len && 0 <= w < 2 && t != d ==> decisions[t, w] == old(decisions[t, w])
      {
        Butterfly(i, sym0, sym1, sym2, d, tr);
      }
    }

    /** update_viterbi37_blk_port: nbits further steps. */
    method Update(syms: array<Sample>, nbits: nat, ghost tr0: Trial) returns (ghost tr: Trial)
      requires Worked(tr0) && 3 * nbits <= syms.Length && dp + nbits <= len
      requires syms as object !in {metrics1, metrics2}
      modifies this, metrics1, metrics2, decisions
      ensures dp == old(dp) + nbits && tr == tr0.(y := tr0.y + syms[..3 * nbits]) && Valid() && Worked(tr)
      ensures old(Blank(dp)) ==> Blank(dp)
    {
      tr := tr0.(y := tr0.y + syms[..3 * nbits]);
      ghost var ys := syms[..3 * nbits];
      ghost var dp0 := dp;
      LongerTrial(tr0, tr);
      hide Best, Row, IsBranchTable;
      for k := 0 to nbits
        invariant Valid() && dp == dp0 + k && syms[..3 * nbits] == ys
        invariant Metrics(oldMetrics, tr, dp) && Decisions(tr, dp) && (old(Blank(dp)) ==> Blank(dp))
      {
        NextSamples(tr0.y, ys, dp0, k);
        Step(syms[3 * k], syms[3 * k + 1], syms[3 * k + 2], dp, tr);
        oldMetrics, newMetrics := newMetrics, oldMetrics;
        dp := dp + 1;
      }
    }

    static lemma NextSamples(y: seq<Sample>, ys: seq<Sample>, d: nat, k: nat)
      requires |y| == 3 * d && 3 * k + 3 <= |ys|
      ensures (y + ys)[3 * (d + k)] == ys[3 * k] && (y + ys)[3 * (d + k) + 1] == ys[3 * k + 1]
      ensures (y + ys)[3 * (d + k) + 2] == ys[3 * k + 2]
    {
    }

    lemma LongerTrial(tr0: Trial, tr: Trial)
      requires Worked(tr0) && tr.c == tr0.c && tr.start == tr0.start && tr0.y <= tr.y
      ensures Metrics(oldMetrics, tr, dp) && Decisions(tr, dp)
    {
      hide Best, Decision, Kept;
      forall s: State
        ensures oldMetrics[s] == Best(tr, dp, s) % W
      {
        BestPrefix(tr0, tr, dp, s);
      }
      forall t | 0 <= t < dp
        ensures Row(decisions[t, 0], decisions[t, 1], tr, t, 64)
      {
        RowPrefix(decisions[t, 0], decisions[t, 1], tr0, tr, t);
      }
    }

    static lemma RowPrefix(w0: word, w1: word, tr0: Trial, tr: Trial, t: nat)
      requires tr.c == tr0.c && tr.start == tr0.start && tr0.y <= tr.y && 3 * t + 3 <= |tr0.y|
      requires Row(w0, w1, tr0, t, 64)
      ensures Row(w0, w1, tr, t, 64)
    {
      hide Decision, Kept;
      forall s: State
        ensures Kept(w0, w1, s) == Bit(s < 64 && Decision(tr, t, s))
      {
        DecisionPrefix(tr0, tr, t, s);
      }
    }

    /** The search for the best state at the end of update_viterbi37_blk_port: the last one of least
        stored metric, which is least in truth while no metric can have wrapped. */
    method BestState(ghost tr: Trial) returns (best: State)
      requires Worked(tr)
      ensures forall s: State :: oldMetrics[best] <= oldMetrics[s] && (s > best ==> oldMetrics[best] < oldMetrics[s])
      ensures 63 + 765 * dp < W ==> forall s: State :: Best(tr, dp, best) <= Best(tr, dp, s)
    {
      hide Best, Row, IsBranchTable;
      var bst: State, minmetric := 0, W - 1;
      for i := 0 to 64
        invariant forall s: State :: s < i ==> minmetric <= oldMetrics[s] && (s > bst ==> minmetric < oldMetrics[s])
        invariant i > 0 ==> bst < i && minmetric == oldMetrics[bst]
        invariant i == 0 ==> minmetric == W - 1
      {
        if oldMetrics[i] <= minmetric {
          bst, minmetric := i, oldMetrics[i];
        }
      }
      best := bst;
      forall s: State | 63 + 765 * dp < W
        ensures Best(tr, dp, best) <= Best(tr, dp, s)
      {
        BestBelow(tr, dp, s);
        BestBelow(tr, dp, best);
        SmallModW(Best(tr, dp, s));
        SmallModW(Best(tr, dp, best));
        assert oldMetrics[s] == Best(tr, dp, s) % W;
      }
    }

    /** chainback_viterbi37_port: walk back from endstate, reading the decisions from step
        nbits + 5 down to step 6. With six steps of tail before it, it writes the survivor's inputs.
        Without them it reads six blank rows first: they are written out as six zeros, and by then
        endstate has left the register, so that the walk goes on from state zero, whatever endstate
        was. */
    method Chainback(data: array<bool>, nbits: nat, endstate: State, ghost tr: Trial)
      requires Worked(tr) && (dp == nbits + 6 || (dp == nbits && Blank(dp))) && nbits + 6 <= len && nbits <= data.Length
      requires data as object !in {metrics1, metrics2}
      modifies data
      ensures dp == nbits + 6 ==> data[..nbits] == SurvivorInputs(tr, dp, endstate)[..nbits]
      ensures dp == nbits ==>
                forall k :: 0 <= k < nbits ==> data[k] == (k + 6 < nbits && SurvivorInputs(tr, nbits, 0)[k])
      ensures forall k :: nbits <= k < data.Length ==> data[k] == old(data[k])
    {
      hide Best, Row, SurvivorInputs, Decision, IsBranchTable, Kept, Survivor, Traced;
      var e, k := 4 * endstate, nbits;
      TraceStart(tr, dp, nbits, endstate);
      while k != 0
        invariant 0 <= k <= nbits && e < 256 && e / 4 == Traced(tr, dp, nbits, endstate, k)
        invariant forall m :: k <= m < nbits ==> data[m] == TracedBit(tr, dp, nbits, endstate, m)
        invariant forall m :: nbits <= m < data.Length ==> data[m] == old(data[m])
      {
        k := k - 1;
        var bit := ReadDecision(k + 6, e / 4, tr);
        TraceStep(tr, dp, nbits, endstate, k);
        BackOneStep(e, bit);
        e := e / 2 + if bit then 128 else 0;
        data[k] := bit;
      }
    }

    /** The register with two spare low bits moves like the state it holds. */
    static lemma BackOneStep(e: nat, bit: bool)
      requires e < 256
      ensures (e / 2 + if bit then 128 else 0) < 256 && (e / 2 + if bit then 128 else 0) / 4 == Pred(e / 4, bit)
    {
    }

    method ReadDecision(t: nat, s: State, ghost tr: Trial) returns (bit: bool)
      requires Worked(tr) && t < len && (t < dp || Blank(dp))
      ensures bit == (t < dp && Decision(tr, t, s))
    {
      hide Best, Decision, IsBranchTable, Get;
      var w := decisions[t, s / 32];
      GetZero(s % 32);
      assert t < dp ==> Row(decisions[t, 0], decisions[t, 1], tr, t, 64);
      assert Kept(decisions[t, 0], decisions[t, 1], s) == Get(w, s % 32);
      bit := Get(w, s % 32) == 1;
    }
  }

  // ---- what chainback walks along ---------------------------------------------------------

  /** The state in which the walk back over d steps is at time d. */
  function EndOf(d: nat, nbits: nat, endstate: State): State {
    if d == nbits + 6 then endstate else 0
  }

  /** The state before bit k is read: one of the survivor, or, above the last step, what is left of
      endstate. */
  function Traced(tr: Trial, d: nat, nbits: nat, endstate: State, k: nat): State
    requires 3 * d <= |tr.y| && k <= nbits
  {
    if k + 6 <= d then Survivor(tr, d, EndOf(d, nbits, endstate), k + 6)
    else Shifted(endstate, nbits - k)
  }

  function Shifted(s: State, m: nat): State {
    if m == 0 then s else Shifted(s, m - 1) / 2
  }

  function TracedBit(tr: Trial, d: nat, nbits: nat, endstate: State, k: nat): bool
    requires 3 * d <= |tr.y| && k < nbits
  {
    k + 6 < d && SurvivorInputs(tr, d, EndOf(d, nbits, endstate))[k]
  }

  lemma TraceStart(tr: Trial, d: nat, nbits: nat, endstate: State)
    requires 3 * d <= |tr.y| && (d == nbits || d == nbits + 6)
    ensures Traced(tr, d, nbits, endstate, nbits) == endstate
  {
  }

  lemma TraceStep(tr: Trial, d: nat, nbits: nat, endstate: State, k: nat)
    requires 3 * d <= |tr.y| && (d == nbits || d == nbits + 6) && k < nbits
    ensures var s, bit := Traced(tr, d, nbits, endstate, k + 1), TracedBit(tr, d, nbits, endstate, k);
            && bit == (k + 6 < d && Decision(tr, k + 6, s))
            && Traced(tr, d, nbits, endstate, k) == Pred(s, bit)
  {
    hide SurvivorInputs, Decision;
    if k + 6 < d {
      DecisionIsInput(tr, d, EndOf(d, nbits, endstate), k);
    } else if k + 6 == d {
      assert nbits - k == 6;
      SixShifts(endstate);
    }
  }

  /** Six shifts clear the register. */
  lemma SixShifts(s: State)
    ensures Shifted(s, 6) == 0 && Shifted(s, 5) / 2 == 0
  {
    assert Shifted(s, 1) == s / 2;
    assert Shifted(s, 3) == Shifted(s, 1) / 2 / 2;
    assert Shifted(s, 5) == Shifted(s, 3) / 2 / 2;
  }

  /** srslte_viterbi_t */
  class ViterbiDecoder {
    const framebits: nat
    const tailBiting: bool
    const ptr: V37
    const tmp: array<Sample>

    ghost predicate Valid()
      reads this, ptr
    {
      && ptr.Valid() && ptr.len == TB_ITER * framebits + 6
      && tmp as object !in {ptr.metrics1, ptr.metrics2}
      && (tailBiting ==> tmp.Length == TB_ITER * 3 * (framebits + K - 1))
    }

    /** init37 */
    constructor (poly: Code, framebits: nat, tailBiting: bool)
      requires poly.Valid()
      ensures Valid() && this.framebits == framebits && this.tailBiting == tailBiting && ptr.code == poly
      ensures fresh(ptr) && fresh(ptr.metrics1) && fresh(ptr.metrics2) && fresh(ptr.decisions) && fresh(tmp)
    {
      this.framebits, this.tailBiting := framebits, tailBiting;
      ptr := new V37(poly, TB_ITER * framebits);
      tmp := new Sample[if tailBiting then TB_ITER * 3 * (framebits + K - 1) else 0](_ => 0);
    }

    /** decode37. A zero-terminated frame decodes to the inputs of a path into state zero that no
        other path beats. A tail-biting frame is taken three times in a row, with any start state;
        the result is the middle third of the inputs of the best path into state zero. With the LTE
        generators both are the encoded message whenever the samples are near enough to its
        codeword. */
    method Decode(symbols: array<Sample>, data: array<bool>, frameLength: nat) returns (ret: int)
      requires Valid() && frameLength <= data.Length
      requires 3 * (if tailBiting then frameLength else frameLength + K - 1) <= symbols.Length
      requires symbols as object !in {ptr.metrics1 as object, ptr.metrics2, tmp}
      requires data as object !in {ptr.metrics1 as object, ptr.metrics2, tmp, symbols}
      modifies ptr, ptr.metrics1, ptr.metrics2, ptr.decisions, data, tmp
      ensures Valid() && ret == if frameLength > framebits then -1 else framebits
      ensures ret == -1 ==> data[..] == old(data[..])
      ensures ret != -1 && !tailBiting ==>
                var n := frameLength + 6;
                var tr := Trial(ptr.code, 0, symbols[..3 * n]);
                data[..frameLength] == SurvivorInputs(tr, n, 0)[..frameLength]
      ensures ret != -1 && !tailBiting && ptr.code == LTE ==>
                forall msg :: |msg| == frameLength && WithinLimit(symbols[..3 * (frameLength + 6)], msg) ==>
                  data[..frameLength] == msg
      ensures ret != -1 && tailBiting ==>
                var tr := Trial(ptr.code, -1, Thrice(symbols[..3 * frameLength]));
                forall j :: 0 <= j < frameLength ==>
                  data[j] == (j + 6 < 2 * frameLength && SurvivorInputs(tr, 3 * frameLength, 0)[frameLength + j])
      ensures ret != -1 && tailBiting && ptr.code == LTE ==>
                forall msg :: |msg| == frameLength && WithinReach(symbols[..3 * frameLength], msg) ==>
                  data[..frameLength] == msg
      ensures forall k :: frameLength <= k < data.Length ==> data[k] == old(data[k])
    {
      hide SurvivorInputs, WithinLimit, WithinReach;
      if frameLength > framebits { return -1; }
      if tailBiting {
        DecodeTailBiting(symbols, data, frameLength);
      } else {
        DecodeTerminated(symbols, data, frameLength);
      }
      return framebits;
    }

    method DecodeTerminated(symbols: array<Sample>, data: array<bool>, frameLength: nat)
      requires Valid() && frameLength <= framebits && frameLength <= data.Length
      requires 3 * (frameLength + K - 1) <= symbols.Length
      requires symbols as object !in {ptr.metrics1, ptr.metrics2}
      requires data as object !in {ptr.metrics1 as object, ptr.metrics2, symbols}
      modifies ptr, ptr.metrics1, ptr.metrics2, ptr.decisions, data
      ensures Valid()
      ensures var n := frameLength + 6;
              var tr := Trial(ptr.code, 0, symbols[..3 * n]);
              data[..frameLength] == SurvivorInputs(tr, n, 0)[..frameLength]
      ensures ptr.code == LTE ==>
                forall msg :: |msg| == frameLength && WithinLimit(symbols[..3 * (frameLength + 6)], msg) ==>
                  data[..frameLength] == msg
      ensures forall k :: frameLength <= k < data.Length ==> data[k] == old(data[k])
    {
      hide SurvivorInputs, WithinLimit;
      ghost var ys := symbols[..3 * (frameLength + 6)];
      ghost var tr := ptr.Init(0);
      tr := ptr.Update(symbols, frameLength + K - 1, tr);
      assert tr == Trial(ptr.code, 0, ys);
      ptr.Chainback(data, frameLength, 0, tr);
      if ptr.code == LTE { WithinLimitDecides(tr, frameLength); }
    }

    /** The best state found goes into chainback, which does not depend on it. */
    method DecodeTailBiting(symbols: array<Sample>, data: array<bool>, frameLength: nat)
      requires Valid() && tailBiting && frameLength <= framebits && frameLength <= data.Length
      requires 3 * frameLength <= symbols.Length && symbols as object !in {ptr.metrics1 as object, ptr.metrics2, tmp}
      requires data as object !in {ptr.metrics1 as object, ptr.metrics2, tmp, symbols}
      modifies ptr, ptr.metrics1, ptr.metrics2, ptr.decisions, data, tmp
      ensures Valid()
      ensures var tr := Trial(ptr.code, -1, Thrice(symbols[..3 * frameLength]));
              forall j :: 0 <= j < frameLength ==>
                data[j] == (j + 6 < 2 * frameLength && SurvivorInputs(tr, 3 * frameLength, 0)[frameLength + j])
      ensures ptr.code == LTE ==>
                forall msg :: |msg| == frameLength && WithinReach(symbols[..3 * frameLength], msg) ==>
                  data[..frameLength] == msg
      ensures forall k :: frameLength <= k < data.Length ==> data[k] == old(data[k])
    {
      hide SurvivorInputs, WithinReach, Thrice, V37.Worked, V37.Blank, V37.Valid;
      ghost var ys := symbols[..3 * frameLength];
      ghost var tr := ptr.Init(-1);
      RepeatFrame(symbols, frameLength);
      tr := ptr.Update(tmp, TB_ITER * frameLength, tr);
      assert tr == Trial(ptr.code, -1, Thrice(ys));
      var bestState := ptr.BestState(tr);
      var bits := new bool[TB_ITER * frameLength](_ => false);
      ptr.Chainback(bits, TB_ITER * frameLength, bestState, tr);
      TakeMiddle(bits, data, frameLength);
      if ptr.code == LTE { WithinReachDecides(tr, ys, frameLength, data[..frameLength]); }
    }

    /** The three copies of the frame. */
    method RepeatFrame(symbols: array<Sample>, frameLength: nat)
      requires Valid() && tailBiting && frameLength <= framebits && 3 * frameLength <= symbols.Length
      requires symbols != tmp
      modifies tmp
      ensures tmp[..9 * frameLength] == Thrice(symbols[..3 * frameLength])
    {
      hide V37.Valid, Thrice;
      ghost var ys := symbols[..3 * frameLength];
      for i := 0 to TB_ITER
        invariant tmp[..i * (3 * frameLength)] == Thrice(ys)[..i * (3 * frameLength)]
      {
        ThricePart(ys, i);
        CopySamples(tmp, i * (3 * frameLength), symbols, 3 * frameLength);
        assert tmp[..(i + 1) * (3 * frameLength)] ==
               tmp[..i * (3 * frameLength)] + tmp[i * (3 * frameLength)..(i + 1) * (3 * frameLength)];
      }
    }
  }

  lemma ThricePart<T>(s: seq<T>, i: nat)
    requires i < 3
    ensures (i + 1) * |s| == i * |s| + |s| <= 3 * |s|
    ensures Thrice(s)[..(i + 1) * |s|] == Thrice(s)[..i * |s|] + s
  {
    if i == 0 {
      assert Thrice(s)[..|s|] == s;
    } else if i == 1 {
      assert Thrice(s)[..2 * |s|] == s + s && Thrice(s)[..|s|] == s;
    } else {
      assert Thrice(s)[..2 * |s|] == s + s;
    }
  }

  /** The middle third of the decoded bits. */
  method TakeMiddle(bits: array<bool>, data: array<bool>, frameLength: nat)
    requires bits != data && bits.Length == TB_ITER * frameLength && frameLength <= data.Length
    modifies data
    ensures forall j :: 0 <= j < frameLength ==> data[j] == bits[frameLength + j]
    ensures forall k :: frameLength <= k < data.Length ==> data[k] == old(data[k])
  {
    for j := 0 to frameLength
      invariant forall k :: 0 <= k < j ==> data[k] == bits[frameLength + k]
      invariant forall k :: frameLength <= k < data.Length ==> data[k] == old(data[k])
    {
      data[j] := bits[TB_ITER / 2 * frameLength + j];
    }
  }

  /** memcpy */
  method CopySamples(dst: array<Sample>, dstAt: nat, src: array<Sample>, n: nat)
    requires dst != src && dstAt + n <= dst.Length && n <= src.Length
    modifies dst
    ensures dst[dstAt..dstAt + n] == src[..n] && dst[..dstAt] == old(dst[..dstAt])
  {
    for k := 0 to n
      invariant forall q :: 0 <= q < k ==> dst[dstAt + q] == src[q]
      invariant forall q :: 0 <= q < dstAt ==> dst[q] == old(dst[q])
    {
      dst[dstAt + k] := src[k];
    }
  }

  /** The samples are close enough to the codeword of msg to be corrected. */
  ghost predicate WithinLimit(y: seq<Sample>, msg: seq<bool>) {
    |y| == 3 * (|msg| + 6) && 2 * Distortion(y, Codeword(LTE, 0, Inputs(msg, false)), |y|) < LIMIT
  }

  /** The samples of a tail-biting frame are near enough to the codeword of msg. */
  ghost predicate WithinReach(y: seq<Sample>, msg: seq<bool>) {
    |msg| >= 6 && |y| == 3 * |msg| && Correctable(|msg|, FrameDistortion(y, msg))
  }

  lemma WithinReachDecides(tr: Trial, y: seq<Sample>, n: nat, data: seq<bool>)
    requires tr.c == LTE && tr.start == -1 && |y| == 3 * n && tr.y == Thrice(y) && |data| == n
    requires forall j :: 0 <= j < n ==> data[j] == (j + 6 < 2 * n && SurvivorInputs(tr, 3 * n, 0)[n + j])
    ensures forall msg :: |msg| == n && WithinReach(y, msg) ==> data == msg
  {
    hide SurvivorInputs, Correctable, FrameDistortion, Thrice;
    forall msg | |msg| == n && WithinReach(y, msg)
      ensures data == msg
    {
      TailBitingCorrects(tr, y, msg);
      var us := SurvivorInputs(tr, 3 * n, 0);
      forall j | 0 <= j < n ensures data[j] == msg[j] { assert us[n..2 * n][j] == us[n + j]; }
    }
  }

  lemma WithinLimitDecides(tr: Trial, n: nat)
    requires tr.c == LTE && tr.start == 0 && |tr.y| == 3 * (n + 6)
    ensures forall msg :: |msg| == n && WithinLimit(tr.y, msg) ==> SurvivorInputs(tr, n + 6, 0)[..n] == msg
  {
    forall msg | |msg| == n && WithinLimit(tr.y, msg)
      ensures SurvivorInputs(tr, n + 6, 0)[..n] == msg
    {
      Corrects(tr, msg);
    }
  }
}

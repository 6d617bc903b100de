/** What soft combining adds up to: table receiver and direct receiver collect, for every coded
    bit, exactly the values received for it. */
module RateMatchTurboHarq {
  import opened NumberTheory
  import opened SubBlock
  import opened CircularBuffer
  import opened TurboCircularBuffer
  import opened RateMatchTurboTx
  import opened RateMatchTurboTables
  import opened RateMatchTurboRx

  /** Sum of the first upto values of a transmission of redundancy version rv that belong to
      coded bit m. */
  function Arrived(n: nat, rv: nat, input: seq<int>, m: nat, upto: nat): int
    requires n > 0 && upto <= |input|
  {
    if upto == 0 then 0
    else Arrived(n, rv, input, m, upto - 1) + if Sent(n, rv, upto - 1) == m then input[upto - 1] else 0
  }

  /** The receive table holds the transmit order, so the table loops add up what arrived. */
  lemma {:induction false} ReceivedIsArrived(n: nat, rv: nat, table: seq<nat>, input: seq<int>, m: nat, upto: nat)
    requires n > 0 && |table| == 3 * n && upto <= |input|
    requires forall k :: 0 <= k < 3 * n ==> table[k] == Sent(n, rv, k)
    ensures Received(table, input, m, upto) == Arrived(n, rv, input, m, upto)
  {
    hide Sent;
    if upto > 0 {
      ReceivedIsArrived(n, rv, table, input, m, upto - 1);
      SentPeriodic(n, rv, upto - 1);
    }
  }

  /** A transmission of no more than 3 n values brings each to its own coded bit, unchanged. */
  lemma {:induction false} ArrivedOnce(n: nat, rv: nat, input: seq<int>, k: nat, upto: nat)
    requires n > 0 && k < |input| <= 3 * n && upto <= |input|
    ensures Arrived(n, rv, input, Sent(n, rv, k), upto) == if k < upto then input[k] else 0
  {
    if upto > 0 {
      ArrivedOnce(n, rv, input, k, upto - 1);
      if k != upto - 1 { SentApart(n, rv, k, upto - 1); }
    }
  }

  lemma SentApart(n: nat, rv: nat, j: nat, k: nat)
    requires n > 0 && j < 3 * n && k < 3 * n && j != k
    ensures Sent(n, rv, j) != Sent(n, rv, k)
  {
    hide Sent;
    SentIsPermutation(n, rv);
    var s: seq<nat> := seq(3 * n, k requires 0 <= k < 3 * n => Sent(n, rv, k));
    if j < k { assert s[j] != s[k]; } else { assert s[k] != s[j]; }
  }

  /** The sum of the first m places of s. */
  function SumOf(s: seq<int>, m: nat): int
    requires m <= |s|
  {
    if m == 0 then 0 else SumOf(s, m - 1) + s[m - 1]
  }

  function AllArrived(n: nat, rv: nat, input: seq<int>, upto: nat): (s: seq<int>)
    requires n > 0 && upto <= |input|
    ensures |s| == 3 * n
  {
    seq(3 * n, m requires 0 <= m < 3 * n => Arrived(n, rv, input, m, upto))
  }

  /** Conservation: however long the transmission, the soft buffer as a whole gains what was received. */
  lemma {:induction false} NothingLost(n: nat, rv: nat, input: seq<int>, upto: nat)
    requires n > 0 && upto <= |input|
    ensures SumOf(AllArrived(n, rv, input, upto), 3 * n) == SumOf(input, upto)
  {
    hide AllArrived;
    if upto == 0 {
      ZeroSum(n, rv, input, 3 * n);
    } else {
      NothingLost(n, rv, input, upto - 1);
      SumStep(n, rv, input, upto, 3 * n);
    }
  }

  lemma {:induction false} ZeroSum(n: nat, rv: nat, input: seq<int>, m: nat)
    requires n > 0 && m <= 3 * n
    ensures SumOf(AllArrived(n, rv, input, 0), m) == 0
  {
    if m > 0 { ZeroSum(n, rv, input, m - 1); }
  }

  lemma {:induction false} SumStep(n: nat, rv: nat, input: seq<int>, upto: nat, m: nat)
    requires n > 0 && 0 < upto <= |input| && m <= 3 * n
    ensures SumOf(AllArrived(n, rv, input, upto), m) ==
            SumOf(AllArrived(n, rv, input, upto - 1), m) + if Sent(n, rv, upto - 1) < m then input[upto - 1] else 0
  {
    hide Sent;
    if m > 0 { SumStep(n, rv, input, upto, m - 1); }
  }

  // ---- hybrid ARQ -------------------------------------------------------------------------

  datatype Reception = Reception(rv: nat, values: seq<int>)

  /** Everything that arrived for coded bit m over a sequence of receptions. */
  function TotalArrived(n: nat, rs: seq<Reception>, m: nat): int
    requires n > 0
  {
    if rs == [] then 0
    else
      var last := rs[|rs| - 1];
      TotalArrived(n, rs[..|rs| - 1], m) + Arrived(n, last.rv, last.values, m, |last.values|)
  }

  /** buffers[k + 1] is buffers[k] after the k-th reception went through a table receiver. */
  ghost predicate ReceivedInTurn(n: nat, tables: seq<seq<nat>>, rs: seq<Reception>, buffers: seq<seq<int>>) {
    && |buffers| == |rs| + 1
    && (forall rv {:trigger tables[rv]} :: 0 <= rv < |tables| ==>
          |tables[rv]| == 3 * n > 0 && forall k :: 0 <= k < 3 * n ==> tables[rv][k] == Sent(n, rv, k))
    && forall k :: 0 <= k < |rs| ==>
         && rs[k].rv < |tables|
         && Combined(buffers[k], buffers[k + 1], tables[rs[k].rv], rs[k].values, |rs[k].values|)
  }

  /** Soft combining loses nothing and invents nothing: after any sequence of receptions, at any
      redundancy versions and lengths, each value of the buffer is what it was at first plus
      everything that arrived for its coded bit. */
  lemma {:induction false} HarqConserves(n: nat, tables: seq<seq<nat>>, rs: seq<Reception>, buffers: seq<seq<int>>,
                                         m: nat)
    requires n > 0 && ReceivedInTurn(n, tables, rs, buffers) && m < |buffers[0]|
    ensures |buffers[|rs|]| == |buffers[0]|
    ensures buffers[|rs|][m] == buffers[0][m] + TotalArrived(n, rs, m)
    decreases |rs|
  {
    if rs != [] {
      var k := |rs| - 1;
      var init, bs := rs[..k], buffers[..k + 1];
      assert forall i :: 0 <= i < k ==> init[i] == rs[i];
      assert forall i :: 0 <= i <= k ==> bs[i] == buffers[i];
      HarqConserves(n, tables, init, bs, m);
      ReceivedIsArrived(n, rs[k].rv, tables[rs[k].rv], rs[k].values, m, |rs[k].values|);
    }
  }

  /** A value that does not oppose bit b. */
  predicate Favours(v: int, b: bool) {
    if b then v >= 0 else v <= 0
  }

  /** Noise-free values sent for coded block c. */
  ghost predicate CleanReception(n: nat, c: seq<bool>, r: Reception)
    requires n > 0 && |c| == 3 * n
  {
    forall i :: 0 <= i < |r.values| ==> r.values[i] != 0 && Favours(r.values[i], c[Sent(n, r.rv, i)])
  }

  /** Coded bit m was among those sent. */
  ghost predicate Covers(n: nat, r: Reception, m: nat)
    requires n > 0
  {
    exists i :: 0 <= i < |r.values| && Sent(n, r.rv, i) == m
  }

  lemma {:induction false} ArrivedFavours(n: nat, c: seq<bool>, r: Reception, m: nat, upto: nat)
    requires n > 0 && |c| == 3 * n && m < 3 * n && upto <= |r.values| && CleanReception(n, c, r)
    ensures Favours(Arrived(n, r.rv, r.values, m, upto), c[m])
    ensures (exists i :: 0 <= i < upto && Sent(n, r.rv, i) == m) ==> Arrived(n, r.rv, r.values, m, upto) != 0
  {
    hide Sent;
    if upto > 0 {
      ArrivedFavours(n, c, r, m, upto - 1);
      assert r.values[upto - 1] != 0 && Favours(r.values[upto - 1], c[Sent(n, r.rv, upto - 1)]);
    }
  }

  lemma ReceptionFavours(n: nat, c: seq<bool>, r: Reception, m: nat)
    requires n > 0 && |c| == 3 * n && m < 3 * n && CleanReception(n, c, r)
    ensures Favours(Arrived(n, r.rv, r.values, m, |r.values|), c[m])
    ensures Covers(n, r, m) ==> Arrived(n, r.rv, r.values, m, |r.values|) != 0
  {
    ArrivedFavours(n, c, r, m, |r.values|);
  }

  /** Coded bit m was sent in at least one of the receptions. */
  ghost predicate Covered(n: nat, rs: seq<Reception>, m: nat)
    requires n > 0
  {
    rs != [] && (Covered(n, rs[..|rs| - 1], m) || Covers(n, rs[|rs| - 1], m))
  }

  lemma {:induction false} CoveredMeans(n: nat, rs: seq<Reception>, m: nat)
    requires n > 0
    ensures Covered(n, rs, m) <==> exists k :: 0 <= k < |rs| && Covers(n, rs[k], m)
    decreases |rs|
  {
    hide Covers;
    if rs != [] { CoveredMeans(n, rs[..|rs| - 1], m); }
  }

  /** Combining noise-free receptions never turns a value against its bit, and a bit sent at least
      once ends up nonzero. */
  lemma {:induction false} CleanTotals(n: nat, c: seq<bool>, rs: seq<Reception>, m: nat)
    requires n > 0 && |c| == 3 * n && m < 3 * n
    requires forall k :: 0 <= k < |rs| ==> CleanReception(n, c, rs[k])
    ensures Favours(TotalArrived(n, rs, m), c[m])
    ensures Covered(n, rs, m) ==> TotalArrived(n, rs, m) != 0
    decreases |rs|
  {
    if rs != [] {
      hide Covers, Arrived, CleanReception;
      CleanTotals(n, c, rs[..|rs| - 1], m);
      ReceptionFavours(n, c, rs[|rs| - 1], m);
    }
  }

  // ---- the direct receiver ----------------------------------------------------------------

  /** A soft value, or the SRSLTE_RX_NULL marker. */
  datatype Soft = RxNull | Llr(v: int)

  function Amount(s: Soft): int {
    if s.Llr? then s.v else 0
  }

  /** Positions the direct receiver fills when the first nofFillerBits bits are fillers. */
  function RxMask(n: nat, nofFillerBits: nat): (m: seq<bool>)
    requires n > 0
    ensures |m| == 3 * Padded(n) && Total(m) > 0
  {
    var m := seq(3 * Padded(n), p requires 0 <= p < 3 * Padded(n) => !SkipAt(n, p, nofFillerBits));
    ThirdStreamOpen(n, nofFillerBits);
    KeptAt(m, Position(n, 2));
    m
  }

  /** Fillers never reach the third stream, so something can always be received. */
  lemma ThirdStreamOpen(n: nat, nofFillerBits: nat)
    requires n > 0
    ensures Position(n, 2) < 3 * Padded(n) && !SkipAt(n, Position(n, 2), nofFillerBits)
  {
    hide Cell, ReadCell, Place, Tc, Rows, Padded, Dummies;
    SlotOfPosition(n, 2);
    SkipIsDummy(n, Position(n, 2));
    OccupiedAt(n, Position(n, 2));
    PaddedEven(n, Position(n, 2));
  }

  lemma RxMaskWithoutFillers(n: nat)
    requires n > 0
    ensures RxMask(n, 0) == Occupied(n)
  {
    hide SkipAt;
    forall p | 0 <= p < 3 * Padded(n)
      ensures RxMask(n, 0)[p] == Occupied(n)[p]
    {
      SkipIsDummy(n, p);
    }
  }

  /** Sum of the first upto values deposited in position p. */
  function Deposited(mask: seq<bool>, start: nat, input: seq<Soft>, p: nat, upto: nat): int
    requires start <= |mask| && Total(mask) > 0 && upto <= |input|
  {
    if upto == 0 then 0
    else Deposited(mask, start, input, p, upto - 1)
         + if Select(mask, start, upto - 1) == p then Amount(input[upto - 1]) else 0
  }

  /** Soft-combine one value into a position; null values leave it alone. */
  method CombineAt(wBuff: array<Soft>, jp: nat, s: Soft)
    requires jp < wBuff.Length
    modifies wBuff
    ensures Amount(wBuff[jp]) == Amount(old(wBuff[jp])) + Amount(s)
    ensures forall p :: 0 <= p < wBuff.Length && p != jp ==> wBuff[p] == old(wBuff[p])
  {
    if wBuff[jp] == RxNull {
      wBuff[jp] := s;
    } else if s != RxNull {
      wBuff[jp] := Llr(wBuff[jp].v + s.v);
    }
  }

  /** Buffer w is w0 with the first upto values deposited. */
  ghost predicate Holds(w0: seq<Soft>, w: seq<Soft>, mask: seq<bool>, start: nat, xs: seq<Soft>, upto: nat)
    requires start <= |mask| && Total(mask) > 0 && upto <= |xs|
  {
    && |mask| <= |w| == |w0|
    && forall p :: 0 <= p < |mask| ==> Amount(w[p]) == Amount(w0[p]) + Deposited(mask, start, xs, p, upto)
  }

  lemma HoldsNothing(w0: seq<Soft>, mask: seq<bool>, start: nat, xs: seq<Soft>)
    requires start <= |mask| <= |w0| && Total(mask) > 0
    ensures Holds(w0, w0, mask, start, xs, 0)
  {
  }

  lemma HoldsStep(w0: seq<Soft>, w: seq<Soft>, w': seq<Soft>, mask: seq<bool>, start: nat, xs: seq<Soft>, k: nat,
                  jp: nat)
    requires start <= |mask| && Total(mask) > 0 && k < |xs| && Select(mask, start, k) == jp
    requires Holds(w0, w, mask, start, xs, k) && |w'| == |w| && jp < |w|
    requires Amount(w'[jp]) == Amount(w[jp]) + Amount(xs[k])
    requires forall p :: 0 <= p < |w| && p != jp ==> w'[p] == w[p]
    ensures Holds(w0, w', mask, start, xs, k + 1)
  {
    hide Select, Total;
  }

  lemma SkipIsMasked(n: nat, jp: nat, nofFillerBits: nat)
    requires n > 0 && jp < 3 * Padded(n)
    ensures RxMask(n, nofFillerBits)[jp] == !SkipAt(n, jp, nofFillerBits)
  {
    hide SkipAt;
  }

  /** First loop of srslte_rm_turbo_rx: walk the buffer from k0 and combine. */
  method Deposit(wBuff: array<Soft>, input: array<Soft>, n: nat, inLen: nat, rvIdx: nat, nofFillerBits: nat)
    requires n > 0 && 3 * Padded(n) <= wBuff.Length && inLen <= input.Length && wBuff != input
    modifies wBuff
    ensures Holds(old(wBuff[..]), wBuff[..], RxMask(n, nofFillerBits), Start(n, rvIdx) % (3 * Padded(n)), input[..],
                  inLen)
  {
    hide Kept, Select, Ahead, Advance, SkipAt, Reading, Round, Start, Rows, Padded, Amount, Deposited, RxMask, Holds;
    hide Total;
    var nCb, k0 := 3 * Padded(n), Start(n, rvIdx);
    ghost var mask, start, xs, w0 := RxMask(n, nofFillerBits), k0 % nCb, input[..], wBuff[..];
    RoundStart(k0, nCb);
    ReadStart(mask, start);
    HoldsNothing(w0, mask, start, xs);
    var k, j := 0, 0;
    while k < inLen
      invariant 0 <= k <= inLen && Reading(mask, start, k, Round(k0, j, nCb))
      invariant Holds(w0, wBuff[..], mask, start, xs, k)
      decreases inLen - k, Ahead(mask, Round(k0, j, nCb))
    {
      var jp := Round(k0, j, nCb);
      ReadStep(mask, start, k, jp);
      RoundStep(mask, k0, j);
      SkipIsMasked(n, jp, nofFillerBits);
      if !SkipAt(n, jp, nofFillerBits) {
        ghost var w := wBuff[..];
        CombineAt(wBuff, jp, input[k]);
        HoldsStep(w0, w, wBuff[..], mask, start, xs, k, jp);
        k := k + 1;
      }
      j := j + 1;
    }
  }

  /** Second loop of srslte_rm_turbo_rx: read every coded bit back from its position. */
  method Collect(wBuff: array<Soft>, output: array<int>, n: nat)
    requires n > 0 && 3 * Padded(n) <= wBuff.Length && 3 * n <= output.Length && wBuff as object != output
    modifies output
    ensures forall m :: 0 <= m < 3 * n ==> Position(n, m) < 3 * Padded(n) && output[m] == Amount(wBuff[Position(n, m)])
  {
    hide TripleAt, Position, Padded;
    for i := 0 to n
      invariant forall m :: 0 <= m < 3 * i ==>
                  Position(n, m) < 3 * Padded(n) && output[m] == Amount(wBuff[Position(n, m)])
    {
      for j := 0 to 3
        invariant forall m :: 0 <= m < 3 * i + j ==>
                    Position(n, m) < 3 * Padded(n) && output[m] == Amount(wBuff[Position(n, m)])
      {
        SlotOfPosition(n, 3 * i + j);
        var kidx := TripleAt(n, i, j);
        output[i * 3 + j] := if wBuff[kidx] != RxNull then wBuff[kidx].v else 0;
      }
    }
  }

  /** srslte_rm_turbo_rx */
  method RmTurboRx(wBuff: array<Soft>, wBuffLen: nat, input: array<Soft>, inLen: nat, output: array<int>,
                   outLen: nat, rvIdx: nat, nofFillerBits: nat) returns (ret: int)
    requires wBuff != input && wBuff as object != output && wBuffLen == wBuff.Length
    requires inLen <= input.Length && outLen <= output.Length && outLen / 3 <= 65536
    modifies wBuff, output
    ensures ret == if outLen < 3 || 3 * Padded(outLen / 3) > wBuffLen then -1 else 0
    ensures ret != 0 ==> wBuff[..] == old(wBuff[..]) && output[..] == old(output[..])
    ensures ret == 0 ==>
              var n := outLen / 3;
              && (forall p :: 0 <= p < 3 * Padded(n) ==>
                    Amount(wBuff[p]) == Amount(old(wBuff[p])) +
                    Deposited(RxMask(n, nofFillerBits), Start(n, rvIdx) % (3 * Padded(n)), old(input[..]), p, inLen))
              && forall m :: 0 <= m < 3 * n ==>
                   Position(n, m) < 3 * Padded(n) && output[m] == Amount(wBuff[Position(n, m)])
  {
    hide Deposited, RxMask, Position, Start;
    if outLen < 3 { return -1; }
    var n := outLen / 3;
    var nrows := ((n - 1) % 65536) / NCOLS + 1;
    assert nrows == Rows(n);
    if 3 * (nrows * NCOLS) > wBuffLen { return -1; }
    ghost var xs := input[..];
    Deposit(wBuff, input, n, inLen, rvIdx, nofFillerBits);
    assert input[..] == xs;
    Collect(wBuff, output, n);
    return 0;
  }

  /** Without fillers the direct receiver adds to coded bit m exactly what arrived for it, like
      the table receiver. */
  lemma {:induction false} DepositedIsArrived(n: nat, rv: nat, input: seq<Soft>, m: nat, upto: nat)
    requires n > 0 && m < 3 * n && upto <= |input|
    ensures RxMask(n, 0) == Occupied(n) && Total(Occupied(n)) > 0
    ensures var amounts := seq(|input|, i requires 0 <= i < |input| => Amount(input[i]));
            Deposited(Occupied(n), Start(n, rv) % (3 * Padded(n)), input, Position(n, m), upto) ==
            Arrived(n, rv, amounts, m, upto)
    decreases upto
  {
    hide Position, SlotAt, Occupied, Start, RxMask;
    RxMaskWithoutFillers(n);
    TotalIsLength(n);
    if upto > 0 {
      DepositedIsArrived(n, rv, input, m, upto - 1);
      var p := SentFrom(n, rv, upto - 1);
      PositionOfSlot(n, p);
      SlotOfPosition(n, m);
    }
  }
}

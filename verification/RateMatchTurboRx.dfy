/** Receiving side of the turbo rate matcher (srslte/lib/fec/rm_turbo.c): the receive table, the
    soft-combining loops that use it, scalar and in chunks, and the direct receiver. */
module RateMatchTurboRx {
  import opened NumberTheory
  import opened Permutations
  import opened SubBlock
  import opened CircularBuffer
  import opened TurboCircularBuffer
  import opened RateMatchTurboTx
  import opened RateMatchTurboTables

  // ---- the receive table ------------------------------------------------------------------

  /** The matrix cell read k-th, as the receivers compute it. */
  function ReadCell(n: nat, k: nat): (x: nat)
    requires n > 0 && k < Padded(n)
    ensures x == Cell(Tc(), Rows(n), k)
  {
    DivBound(k, Rows(n));
    (k % Rows(n)) * NCOLS + PermTc(k / Rows(n))
  }

  /** The dummy test both receivers make at position jp, with the first nofFillerBits symbols of
      the first two streams counted as dummies. */
  function SkipAt(n: nat, jp: nat, nofFillerBits: nat): bool
    requires n > 0 && jp < 3 * Padded(n)
  {
    if jp < Padded(n) || jp % 2 == 0 then
      var x := ReadCell(n, if jp >= Padded(n) then (jp - Padded(n)) / 2 else jp);
      x < Dummies(n) || x - Dummies(n) < nofFillerBits
    else
      (ReadCell(n, (jp - Padded(n) - 1) / 2) + 1) % Padded(n) < Dummies(n)
  }

  lemma SkipIsDummy(n: nat, jp: nat)
    requires n > 0 && jp < 3 * Padded(n)
    ensures SkipAt(n, jp, 0) <==> !Occupied(n)[jp]
  {
    hide Cell, ReadCell, Tc, Rows, Padded, Dummies, Occupied;
    OccupiedAt(n, jp);
    if jp >= Padded(n) { PaddedEven(n, jp); }
  }

  /** When cell x is read, as the receivers compute it. */
  function ReadPlace(n: nat, x: nat): (k: nat)
    requires n > 0 && x < Padded(n)
    ensures k == Place(Tc(), Rows(n), x) < Padded(n)
  {
    PlaceFormula(n, x);
    PermTc(x % NCOLS) * Rows(n) + x / NCOLS
  }

  lemma PlaceFormula(n: nat, x: nat)
    requires n > 0 && x < Padded(n)
    ensures PermTc(x % NCOLS) * Rows(n) + x / NCOLS == Place(Tc(), Rows(n), x) < Padded(n)
  {
    assert Tc()[x % NCOLS] == PermTc(x % NCOLS);
    hide PermTc, MutuallyInverse, Tc;
    ColumnTables();
    CellOfPlace(Tc(), Tc(), Rows(n), x);
  }

  /** The last loop of both receivers: where symbol j of triple i sits in the buffer. */
  function TripleAt(n: nat, i: nat, j: nat): (p: nat)
    requires i < n && j < 3
    ensures p == Position(n, 3 * i + j)
  {
    hide Place, ReadPlace, MutuallyInverse, Rows, Padded, Tc;
    var kp, x := Padded(n), i + Dummies(n);
    TripleIndex(i, j);
    if j != 2 then
      kp * j + (j + 1) * ReadPlace(n, x)
    else
      var k := if x == 0 then kp - 1 else x - 1;
      PredMod(x, kp);
      SmallMod(ReadPlace(n, k), kp);
      2 * (ReadPlace(n, k) % kp) + kp + 1
  }

  lemma TripleIndex(i: nat, j: nat)
    requires j < 3
    ensures (3 * i + j) / 3 == i && (3 * i + j) % 3 == j
  {
  }

  lemma PredMod(x: nat, kp: nat)
    requires x < kp
    ensures (x + kp - 1) % kp == if x == 0 then kp - 1 else x - 1
  {
    if x == 0 { ModUnique(kp - 1, kp, 0, kp - 1); } else { ModUnique(x + kp - 1, kp, 1, x - 1); }
  }

  /** srslte_rm_turbo_gentable_receive, for a coded block of three streams of n symbols. The
      scratch tables may hold anything beforehand. */
  method GenTableReceive(table: array<nat>, tempTable1: array<nat>, tempTable2: array<nat>, n: nat, rvIdx: nat)
    requires n > 0 && 3 * n <= table.Length && 3 * n <= tempTable1.Length && 3 * Padded(n) <= tempTable2.Length
    requires table != tempTable1 && table != tempTable2 && tempTable1 != tempTable2
    modifies table, tempTable1, tempTable2
    ensures forall k :: 0 <= k < 3 * n ==> table[k] == Sent(n, rvIdx, k)
  {
    hide SentFrom, Sent, SlotAt;
    PositionsInOrder(tempTable1, n, rvIdx);
    SymbolsByPosition(tempTable2, n);
    for i := 0 to 3 * n
      invariant forall k :: 0 <= k < i ==> table[k] == Sent(n, rvIdx, k)
      modifies table
    {
      SentFacts(n, rvIdx, i);
      table[i] := tempTable2[tempTable1[i]];
    }
  }

  lemma SentFacts(n: nat, rv: nat, k: nat)
    requires n > 0
    ensures SentFrom(n, rv, k) < 3 * Padded(n) && SlotAt(n, SentFrom(n, rv, k)) == Data(Sent(n, rv, k))
  {
    hide SlotAt;
  }

  /** First loop of the generator: the non-dummy positions in the order they are sent. */
  method PositionsInOrder(tempTable1: array<nat>, n: nat, rvIdx: nat)
    requires n > 0 && 3 * n <= tempTable1.Length
    modifies tempTable1
    ensures forall k :: 0 <= k < 3 * n ==> tempTable1[k] == SentFrom(n, rvIdx, k)
  {
    hide Kept, Select, Ahead, Advance, SkipAt, Occupied, SlotAt, Reading, Round, Start, Rows, Padded, Total, SentFrom;
    TotalIsLength(n);
    var nCb, k0 := 3 * Padded(n), Start(n, rvIdx);
    var k, j := 0, 0;
    RoundStart(k0, nCb);
    ReadStart(Occupied(n), k0 % nCb);
    while k < 3 * n
      invariant 0 <= k <= 3 * n && Reading(Occupied(n), k0 % nCb, k, Round(k0, j, nCb))
      invariant forall m :: 0 <= m < k ==> tempTable1[m] == SentFrom(n, rvIdx, m)
      decreases 3 * n - k, Ahead(Occupied(n), Round(k0, j, nCb))
    {
      var jp := Round(k0, j, nCb);
      ReadStep(Occupied(n), k0 % nCb, k, jp);
      RoundStep(Occupied(n), k0, j);
      SkipIsDummy(n, jp);
      SentFromSelects(n, rvIdx, k);
      if !SkipAt(n, jp, 0) {
        tempTable1[k] := Round(jp, 0, nCb);
        RoundStart(jp, nCb);
        SmallMod(jp, nCb);
        k := k + 1;
      }
      j := j + 1;
    }
  }

  /** Second loop of the generator: for every position that holds a symbol, which one. */
  method SymbolsByPosition(tempTable2: array<nat>, n: nat)
    requires n > 0 && 3 * Padded(n) <= tempTable2.Length
    modifies tempTable2
    ensures forall p :: 0 <= p < 3 * Padded(n) && SlotAt(n, p).Data? ==> tempTable2[p] == SlotAt(n, p).i
  {
    hide SlotAt, TripleAt, Position;
    for i := 0 to n
      invariant forall p :: 0 <= p < 3 * Padded(n) && SlotAt(n, p).Data? && SlotAt(n, p).i < 3 * i ==>
                  tempTable2[p] == SlotAt(n, p).i
    {
      for j := 0 to 3
        invariant forall p :: 0 <= p < 3 * Padded(n) && SlotAt(n, p).Data? && SlotAt(n, p).i < 3 * i + j ==>
                    tempTable2[p] == SlotAt(n, p).i
      {
        var kidx := TripleAt(n, i, j);
        SlotOfPosition(n, 3 * i + j);
        tempTable2[kidx] := 3 * i + j;
        forall p | 0 <= p < 3 * Padded(n) && SlotAt(n, p).Data? && SlotAt(n, p).i == 3 * i + j
          ensures p == kidx
        {
          PositionOfSlot(n, p);
        }
      }
    }
    forall p | 0 <= p < 3 * Padded(n) && SlotAt(n, p).Data?
      ensures SlotAt(n, p).i < 3 * n
    {
      PositionOfSlot(n, p);
    }
  }

  /** The receive table of each redundancy version is a permutation of the coded block. */
  lemma SentIsPermutation(n: nat, rv: nat)
    requires n > 0
    ensures IsPermutation(seq(3 * n, k requires 0 <= k < 3 * n => Sent(n, rv, k)))
  {
    CompactIsPermutation(n);
    var c: seq<nat> := seq(3 * n, m requires 0 <= m < 3 * n => Compact(n, m));
    hide Compact, Sent, CompactStart, Round;
    forall j, k | 0 <= j < k < 3 * n
      ensures Sent(n, rv, j) != Sent(n, rv, k)
    {
      CompactSends(n, rv, j);
      CompactSends(n, rv, k);
      var a, b := Round(CompactStart(n, rv), j, 3 * n), Round(CompactStart(n, rv), k, 3 * n);
      RoundDistinct(CompactStart(n, rv), j, k, 3 * n);
      assert c[a] != c[b];
    }
  }

  lemma RoundDistinct(start: nat, j: nat, k: nat, t: nat)
    requires j < k < t
    ensures Round(start, j, t) != Round(start, k, t)
  {
    if Round(start, j, t) == Round(start, k, t) {
      var q := (start + k) / t - (start + j) / t;
      assert k - j == t * q;
      MulOrder(t, 0, q);
      MulOrder(t, q, 1);
    }
  }

  /** Every redundancy version starts over after one pass over the coded block. */
  lemma SentPeriodic(n: nat, rv: nat, k: nat)
    requires n > 0
    ensures Sent(n, rv, k % (3 * n)) == Sent(n, rv, k)
  {
    hide Compact, Sent, Round, CompactStart;
    CompactSends(n, rv, k);
    CompactSends(n, rv, k % (3 * n));
    RoundShift(CompactStart(n, rv), k, 3 * n);
  }

  lemma RoundShift(c: nat, k: nat, t: nat)
    requires t > 0
    ensures Round(c, k % t, t) == Round(c, k, t)
  {
    var q, s := k / t, c + k % t;
    assert k == t * q + k % t && s == t * (s / t) + s % t;
    assert c + k == t * (q + s / t) + s % t;
    ModUnique(c + k, t, q + s / t, s % t);
  }

  // ---- soft combining ---------------------------------------------------------------------

  /** Sum of the first upto received values for coded bit m, when value i belongs to bit
      table[i % |table|]. */
  function Received(table: seq<nat>, input: seq<int>, m: nat, upto: nat): int
    requires |table| > 0 && upto <= |input|
  {
    if upto == 0 then 0
    else Received(table, input, m, upto - 1) + if table[(upto - 1) % |table|] == m then input[upto - 1] else 0
  }

  /** output is before with the first upto received values added. */
  ghost predicate Combined(before: seq<int>, output: seq<int>, table: seq<nat>, input: seq<int>, upto: nat)
    requires |table| > 0 && upto <= |input|
  {
    |before| == |output| && forall m :: 0 <= m < |output| ==> output[m] == before[m] + Received(table, input, m, upto)
  }

  /** Adding one value where the table says takes upto one further. */
  lemma CombinedStep(before: seq<int>, output: seq<int>, table: seq<nat>, input: seq<int>, upto: nat, t: nat)
    requires |table| > 0 && upto < |input| && Combined(before, output, table, input, upto)
    requires t < |table| && t == upto % |table| && table[t] < |output|
    ensures Combined(before, output[table[t] := output[table[t]] + input[upto]], table, input, upto + 1)
  {
  }

  /** srslte_rm_turbo_rx_lut, scalar loop */
  method RxLutScalar(input: seq<int>, output: array<int>, inLen: nat, deinter: seq<nat>)
    requires |deinter| > 0 && inLen <= |input|
    requires forall i :: 0 <= i < |deinter| ==> deinter[i] < output.Length
    modifies output
    ensures Combined(old(output[..]), output[..], deinter, input, inLen)
  {
    AddRange(input, output, 0, inLen, deinter, output[..]);
  }

  /** The loop body shared by all the receive loops: values from .. to, one at a time. */
  method AddRange(input: seq<int>, output: array<int>, from: nat, to: nat, deinter: seq<nat>, ghost before: seq<int>)
    requires |deinter| > 0 && from <= to <= |input|
    requires forall i :: 0 <= i < |deinter| ==> deinter[i] < output.Length
    requires Combined(before, output[..], deinter, input, from)
    modifies output
    ensures Combined(before, output[..], deinter, input, to)
  {
    for i := from to to
      invariant Combined(before, output[..], deinter, input, i)
    {
      hide Combined;
      CombinedStep(before, output[..], deinter, input, i, i % |deinter|);
      ghost var o := output[..];
      output[deinter[i % |deinter|]] := output[deinter[i % |deinter|]] + input[i];
      assert output[..] == o[deinter[i % |deinter|] := o[deinter[i % |deinter|]] + input[i]];
    }
  }

  /** One vector step: lanes values from xPtr on, with the table entries from lutPtr on. */
  method AddLanes(input: seq<int>, output: array<int>, lanes: nat, xPtr: nat, lutPtr: nat, deinter: seq<nat>,
                  ghost before: seq<int>)
    requires |deinter| > 0 && xPtr + lanes <= |input| && lutPtr + lanes <= |deinter|
    requires xPtr % |deinter| == lutPtr
    requires forall i :: 0 <= i < |deinter| ==> deinter[i] < output.Length
    requires Combined(before, output[..], deinter, input, xPtr)
    modifies output
    ensures Combined(before, output[..], deinter, input, xPtr + lanes)
  {
    for j := 0 to lanes
      invariant Combined(before, output[..], deinter, input, xPtr + j)
    {
      hide Combined;
      ghost var d := |deinter|;
      ModUnique(xPtr + j, d, xPtr / d, lutPtr + j);
      CombinedStep(before, output[..], deinter, input, xPtr + j, lutPtr + j);
      var x, l := input[xPtr + j], deinter[lutPtr + j];
      ghost var o := output[..];
      output[l] := output[l] + x;
      assert output[..] == o[l := o[l] + x];
    }
  }

  /** srslte_rm_turbo_rx_lut_sse (8 lanes) and srslte_rm_turbo_rx_lut_avx (16 lanes): every
      received value is added exactly once, as in the scalar loop, for any input length. */
  method RxLutSimd(input: seq<int>, output: array<int>, inLen: nat, deinter: seq<nat>, lanes: nat)
    requires lanes == 8 || lanes == 16
    requires |deinter| % 8 == 4 && |deinter| > lanes
    requires inLen <= |input|
    requires forall i :: 0 <= i < |deinter| ==> deinter[i] < output.Length
    modifies output
    ensures Combined(old(output[..]), output[..], deinter, input, inLen)
  {
    hide Combined;
    var outLen := |deinter|;
    ghost var before := output[..];
    assert Combined(before, output[..], deinter, input, 0) by { NothingCombined(before, deinter, input); }
    if inLen <= outLen {
      var xPtr := 0;
      for i := 0 to inLen / lanes
        invariant xPtr == lanes * i
        invariant Combined(before, output[..], deinter, input, xPtr)
      {
        MulOrder(lanes, i + 1, inLen / lanes);
        SmallMod(xPtr, outLen);
        AddLanes(input, output, lanes, xPtr, xPtr, deinter, before);
        xPtr := xPtr + lanes;
      }
      AddRange(input, output, lanes * (inLen / lanes), inLen, deinter, before);
    } else {
      RxWrapping(input, output, inLen, deinter, lanes, before);
    }
  }

  /** The wrapping branch: vector steps until fewer than lanes table entries are left, then the
      last 4 or 12 entries one by one, and back to the head of the table. */
  method RxWrapping(input: seq<int>, output: array<int>, inLen: nat, deinter: seq<nat>, lanes: nat,
                    ghost before: seq<int>)
    requires lanes == 8 || lanes == 16
    requires |deinter| % 8 == 4 && lanes < |deinter| < inLen <= |input|
    requires forall i :: 0 <= i < |deinter| ==> deinter[i] < output.Length
    requires Combined(before, output[..], deinter, input, 0)
    modifies output
    ensures Combined(before, output[..], deinter, input, inLen)
  {
    hide Combined, Aligned, WrapBase, FixUp;
    var outLen := |deinter|;
    var fixUp := FixUp(lanes, outLen);
    var intCnt, inputCnt, nwrapps, xPtr, lutPtr := lanes, 0, 0, 0, 0;
    AlignedStart(lanes);
    while inputCnt + lanes < inLen
      invariant 0 <= nwrapps && xPtr == inputCnt <= inLen && 0 <= lutPtr && intCnt == lutPtr + lanes
      invariant Aligned(lanes, lutPtr)
      invariant inputCnt + lanes < inLen ==> intCnt < outLen && inputCnt == WrapBase(nwrapps, outLen) + lutPtr
      invariant Combined(before, output[..], deinter, input, inputCnt)
      decreases inLen - inputCnt
    {
      WrapMod(outLen, nwrapps, lutPtr);
      AddLanes(input, output, lanes, xPtr, lutPtr, deinter, before);
      AlignedStep(lanes, lutPtr);
      xPtr := xPtr + lanes;
      lutPtr := lutPtr + lanes;
      intCnt := intCnt + lanes;
      inputCnt := inputCnt + lanes;
      if intCnt >= outLen && inputCnt + lanes < inLen {
        LastEntries(lanes, outLen, lutPtr);
        var end := WrapBase(nwrapps + 1, outLen);
        AddRange(input, output, end - fixUp, end, deinter, before);
        inputCnt := inputCnt + fixUp;
        nwrapps := nwrapps + 1;
        intCnt := lanes;
        xPtr := WrapBase(nwrapps, outLen);
        lutPtr := 0;
      }
    }
    AddRange(input, output, inputCnt, inLen, deinter, before);
  }

  /** Input index where lap nwrapps starts. */
  function WrapBase(nwrapps: nat, outLen: nat): nat {
    nwrapps * outLen
  }

  /** Length of the fix-up loop. */
  function FixUp(lanes: nat, outLen: nat): (f: nat)
    ensures f <= 12
  {
    if lanes == 16 && outLen % 16 == 12 then 12 else 4
  }

  predicate Aligned(lanes: nat, lutPtr: nat) {
    if lanes == 8 then lutPtr % 8 == 0 else lutPtr % 16 == 0
  }

  lemma AlignedStart(lanes: nat)
    ensures Aligned(lanes, 0)
    ensures forall outLen: nat :: WrapBase(0, outLen) == 0
  {
  }

  lemma AlignedStep(lanes: nat, lutPtr: nat)
    requires (lanes == 8 || lanes == 16) && Aligned(lanes, lutPtr)
    ensures Aligned(lanes, lutPtr + lanes)
  {
  }

  lemma WrapMod(outLen: nat, nwrapps: nat, lutPtr: nat)
    requires lutPtr < outLen
    ensures (WrapBase(nwrapps, outLen) + lutPtr) % outLen == lutPtr
  {
    ModUnique(nwrapps * outLen + lutPtr, outLen, nwrapps, lutPtr);
  }

  /** What the vector steps leave over is what the fix-up loop adds. */
  lemma LastEntries(lanes: nat, outLen: nat, lutPtr: nat)
    requires outLen % 8 == 4 && lutPtr < outLen <= lutPtr + lanes
    requires (lanes == 8 || lanes == 16) && Aligned(lanes, lutPtr)
    ensures outLen - lutPtr == FixUp(lanes, outLen)
    ensures Aligned(lanes, 0)
    ensures forall nwrapps: nat :: WrapBase(nwrapps + 1, outLen) == WrapBase(nwrapps, outLen) + outLen
  {
    forall nwrapps: nat
      ensures WrapBase(nwrapps + 1, outLen) == WrapBase(nwrapps, outLen) + outLen
    {
      assert (nwrapps + 1) * outLen == nwrapps * outLen + outLen;
    }
  }

  lemma NothingCombined(before: seq<int>, table: seq<nat>, input: seq<int>)
    requires |table| > 0
    ensures Combined(before, before, table, input, 0)
  {
  }
}

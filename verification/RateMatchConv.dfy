/** Rate matching of the convolutional code (srslte/lib/fec/rm_conv.c, section 5.1.4.2 of
    TS 36.212): three interleaved streams one after the other, read round from the start. */
module RateMatchConv {
  import opened NumberTheory
  import opened Permutations
  import opened SubBlock
  import opened CircularBuffer
  import opened TurboEncoder
  import opened TurboCircularBuffer
  import opened RateMatchTurboHarq

  const NROWS_MAX := 32

  /** Position p is place InStream(p) of stream StreamOf(p). */
  function InStream(n: nat, p: nat): (q: nat)
    requires n > 0
    ensures q < Padded(n)
  {
    p % Padded(n)
  }

  function StreamOf(n: nat, p: nat): nat
    requires n > 0
  {
    p / Padded(n)
  }

  function CellConv(n: nat, q: nat): nat
    requires n > 0 && q < Padded(n)
  {
    Cell(Cc(), Rows(n), q)
  }

  /** What position p of the buffer holds. */
  function SlotAtConv(n: nat, p: nat): Slot
    requires n > 0 && p < 3 * Padded(n)
  {
    SlotOfCell(n, CellConv(n, InStream(n, p)), StreamOf(n, p))
  }

  lemma StreamBelow3(n: nat, p: nat)
    requires n > 0 && p < 3 * Padded(n)
    ensures StreamOf(n, p) < 3 && p == Padded(n) * StreamOf(n, p) + InStream(n, p)
  {
    hide Rows, Padded;
    MulOrder(Padded(n), StreamOf(n, p), 2);
  }

  /** The layout, by the row i and the column j of the sub-block interleavers: the three streams are
      read one behind the other; the dummies fill the first row from the left. */
  lemma BufferIsConv(n: nat, rows: nat, j: nat, i: nat, s: nat)
    requires 32 * rows - 32 < n <= 32 * rows && j < 32 && i < rows && s < 3
    ensures var kp, d, x, p := 32 * rows, 32 * rows - n, 32 * i + PermCc(j), s * (32 * rows) + (j * rows + i);
            && 0 <= p < 3 * kp && kp == Padded(n)
            && SlotAtConv(n, p) == if x < d then Dummy else Data(3 * (x - d) + s)
  {
    hide PermCc, Cell;
    assert Rows(n) == rows;
    CellIs(Cc(), rows, j, i);
    ModUnique(s * (32 * rows) + (j * rows + i), 32 * rows, s, j * rows + i);
  }

  /** Where symbol i of the coded block sits. */
  function PositionConv(n: nat, i: nat): nat
    requires n > 0
  {
    Padded(n) * (i % 3) + Place(CcInv(), Rows(n), i / 3 + Dummies(n))
  }

  lemma PlaceOfSymbol(n: nat, i: nat)
    requires n > 0 && i < 3 * n
    ensures var q := Place(CcInv(), Rows(n), i / 3 + Dummies(n));
            q < Padded(n) && Cell(Cc(), Rows(n), q) == i / 3 + Dummies(n)
  {
    hide Cell, Place, Cc, CcInv, Rows, MutuallyInverse;
    ColumnTables();
    CellOfPlace(Cc(), CcInv(), Rows(n), i / 3 + Dummies(n));
  }

  lemma SlotOfPositionConv(n: nat, i: nat)
    requires n > 0 && i < 3 * n
    ensures PositionConv(n, i) < 3 * Padded(n) && SlotAtConv(n, PositionConv(n, i)) == Data(i)
  {
    hide Cell, Place, Cc, CcInv, Rows;
    var q := Place(CcInv(), Rows(n), i / 3 + Dummies(n));
    PlaceOfSymbol(n, i);
    MulOrder(Padded(n), i % 3, 2);
    ModUnique(PositionConv(n, i), Padded(n), i % 3, q);
  }

  lemma PositionOfSlotConv(n: nat, p: nat)
    requires n > 0 && p < 3 * Padded(n) && SlotAtConv(n, p).Data?
    ensures SlotAtConv(n, p).i < 3 * n && PositionConv(n, SlotAtConv(n, p).i) == p
  {
    hide Cell, Place, Cc, CcInv, Rows, MutuallyInverse;
    var q, s := InStream(n, p), StreamOf(n, p);
    StreamBelow3(n, p);
    ColumnTables();
    PlaceOfCell(Cc(), CcInv(), Rows(n), q);
    var x := Cell(Cc(), Rows(n), q);
    var i := 3 * (x - Dummies(n)) + s;
    assert i / 3 == x - Dummies(n) && i % 3 == s;
  }

  function OccupiedConv(n: nat): (m: seq<bool>)
    requires n > 0
    ensures |m| == 3 * Padded(n)
  {
    seq(3 * Padded(n), p requires 0 <= p < 3 * Padded(n) => SlotAtConv(n, p).Data?)
  }

  lemma OccupiedConvAt(n: nat, p: nat)
    requires n > 0 && p < 3 * Padded(n)
    ensures OccupiedConv(n)[p] == SlotAtConv(n, p).Data?
  {
    hide SlotAtConv, Padded;
  }

  /** The symbols in the order of their positions. */
  ghost function Order(n: nat): (src: seq<nat>)
    requires n > 0
    ensures |src| == Total(OccupiedConv(n))
  {
    var kept := Kept(OccupiedConv(n), 3 * Padded(n));
    seq(|kept|, k requires 0 <= k < |kept| => SlotAtConv(n, kept[k]).i)
  }

  lemma OrderAt(n: nat, k: nat)
    requires n > 0 && k < |Order(n)|
    ensures var p := Kept(OccupiedConv(n), 3 * Padded(n))[k];
            SlotAtConv(n, p) == Data(Order(n)[k]) && PositionConv(n, Order(n)[k]) == p && Order(n)[k] < 3 * n
  {
    hide SlotAtConv, Padded, Kept, PositionConv;
    OccupiedConvAt(n, Kept(OccupiedConv(n), 3 * Padded(n))[k]);
    PositionOfSlotConv(n, Kept(OccupiedConv(n), 3 * Padded(n))[k]);
  }

  /** Every symbol has its place in the order: after the occupied positions before it. */
  lemma PlaceInOrder(n: nat, i: nat)
    requires n > 0 && i < 3 * n
    ensures PositionConv(n, i) < 3 * Padded(n)
    ensures var k := |Kept(OccupiedConv(n), PositionConv(n, i))|; k < |Order(n)| && Order(n)[k] == i
  {
    hide SlotAtConv, Padded, Kept, PositionConv;
    SlotOfPositionConv(n, i);
    OccupiedConvAt(n, PositionConv(n, i));
    KeptAt(OccupiedConv(n), PositionConv(n, i));
  }

  /** Every symbol of the coded block sits in exactly one position. */
  lemma OrderIsPermutation(n: nat)
    requires n > 0
    ensures Total(OccupiedConv(n)) == 3 * n && IsPermutation(Order(n))
  {
    hide SlotAtConv, Padded, Kept, PositionConv, Order, OccupiedConv, Total;
    var src := Order(n);
    forall j, k | 0 <= j < k < |src|
      ensures src[j] != src[k]
    {
      OrderAt(n, j);
      OrderAt(n, k);
      assert Total(OccupiedConv(n)) == |Kept(OccupiedConv(n), 3 * Padded(n))| by { TotalIs(OccupiedConv(n)); }
      KeptIncreasing(OccupiedConv(n), 3 * Padded(n), j, k);
    }
    DistinctCardinality(src);
    forall i: nat
      ensures i in Elements(src) <==> i in Below(3 * n)
    {
      if i in Elements(src) { var k :| 0 <= k < |src| && src[k] == i; OrderAt(n, k); }
      if i < 3 * n { PlaceInOrder(n, i); }
    }
    assert Elements(src) == Below(3 * n);
    forall k | 0 <= k < |src| ensures src[k] < |src| { OrderAt(n, k); }
  }

  lemma TotalIs(keep: seq<bool>)
    ensures Total(keep) == |Kept(keep, |keep|)|
  {
  }

  /** The symbol sent k-th: the coded block is repeated in its interleaved order. */
  ghost function SentConv(n: nat, k: nat): (i: nat)
    requires n > 0
    ensures i < 3 * n
  {
    OrderIsPermutation(n);
    Order(n)[k % (3 * n)]
  }

  lemma SelectConv(n: nat, k: nat)
    requires n > 0
    ensures Total(OccupiedConv(n)) > 0
    ensures var p := Select(OccupiedConv(n), 0, k);
            SlotAtConv(n, p) == Data(SentConv(n, k)) && p == PositionConv(n, SentConv(n, k))
  {
    OrderIsPermutation(n);
    assert Kept(OccupiedConv(n), 0) == [];
    hide SlotAtConv, Padded, Kept, PositionConv, OccupiedConv, Order;
    TotalIs(OccupiedConv(n));
    OrderAt(n, k % (3 * n));
  }

  // ---- transmission -----------------------------------------------------------------------

  /** What the buffer holds in position p for coded block x. */
  function Held(x: seq<bool>, n: nat, p: nat): TxBit
    requires n > 0 && |x| == 3 * n && p < 3 * Padded(n)
  {
    var slot := SlotAtConv(n, p);
    if slot.Data? && slot.i < |x| then Bit(x[slot.i]) else Null
  }

  lemma CellOfColumn(n: nat, s: nat, j: nat, i: nat)
    requires n > 0 && s < 3 && j < NCOLS && i < Rows(n)
    ensures var p := Padded(n) * s + (Rows(n) * j + i);
            && Rows(n) * j + i < Padded(n) && p < 3 * Padded(n)
            && InStream(n, p) == Rows(n) * j + i && StreamOf(n, p) == s
            && CellConv(n, InStream(n, p)) == i * NCOLS + PermCc(j)
  {
    var rows, kp := Rows(n), Padded(n);
    hide PermCc, Rows;
    assert kp == NCOLS * rows;
    hide Padded;
    MulOrder(rows, j, NCOLS - 1);
    assert rows * (NCOLS - 1) == NCOLS * rows - rows;
    MulOrder(kp, s, 2);
    ModUnique(kp * s + (rows * j + i), kp, s, rows * j + i);
    ModUnique(rows * j + i, rows, j, i);
  }

  /** One column of one stream of the sub-block interleaver. */
  method FillColumn(tmp: array<TxBit>, input: array<bool>, n: nat, s: nat, j: nat, k0: nat, ghost x: seq<bool>)
    returns (k: nat)
    requires n > 0 && s < 3 && j < NCOLS && tmp.Length >= 3 * Padded(n) && 3 * n <= input.Length && x == input[..3 * n]
    requires tmp as object != input
    requires k0 == Padded(n) * s + Rows(n) * j && k0 + Rows(n) <= 3 * Padded(n)
    requires forall p :: 0 <= p < k0 ==> tmp[p] == Held(x, n, p)
    modifies tmp
    ensures k == k0 + Rows(n) && forall p :: 0 <= p < k ==> tmp[p] == Held(x, n, p)
  {
    hide PermCc, CellConv, InStream, StreamOf, Rows, Padded;
    var ndummy := Dummies(n);
    k := k0;
    for i := 0 to Rows(n)
      invariant k == k0 + i <= 3 * Padded(n)
      invariant forall p :: 0 <= p < k ==> tmp[p] == Held(x, n, p)
    {
      CellOfColumn(n, s, j, i);
      var c := i * NCOLS + PermCc(j);
      CellBelow(n, k);
      if c < ndummy {
        tmp[k] := Null;
      } else {
        tmp[k] := Bit(input[(c - ndummy) * 3 + s]);
      }
      k := k + 1;
    }
  }

  lemma CellBelow(n: nat, p: nat)
    requires n > 0 && p < 3 * Padded(n)
    ensures CellConv(n, InStream(n, p)) < Padded(n)
  {
    hide Rows, MutuallyInverse, Cell;
    ColumnTables();
    PlaceOfCell(Cc(), CcInv(), Rows(n), InStream(n, p));
  }

  /** The sub-block interleaver loops of srslte_rm_conv_tx. */
  method Fill(tmp: array<TxBit>, input: array<bool>, n: nat, ghost x: seq<bool>)
    requires n > 0 && tmp.Length >= 3 * Padded(n) && 3 * n <= input.Length && x == input[..3 * n]
    requires tmp as object != input
    modifies tmp
    ensures forall p :: 0 <= p < 3 * Padded(n) ==> tmp[p] == Held(x, n, p)
  {
    hide Held, Rows;
    var k := 0;
    for s := 0 to 3
      invariant k == Padded(n) * s
      invariant forall p :: 0 <= p < k && p < 3 * Padded(n) ==> tmp[p] == Held(x, n, p)
    {
      for j := 0 to NCOLS
        invariant k == Padded(n) * s + Rows(n) * j
        invariant forall p :: 0 <= p < k && p < 3 * Padded(n) ==> tmp[p] == Held(x, n, p)
      {
        ColumnEnds(n, s, j);
        k := FillColumn(tmp, input, n, s, j, k, x);
      }
    }
  }

  lemma ColumnEnds(n: nat, s: nat, j: nat)
    requires n > 0 && s < 3 && j < NCOLS
    ensures Padded(n) * s + Rows(n) * j + Rows(n) == Padded(n) * s + Rows(n) * (j + 1)
    ensures Padded(n) * s + Rows(n) * (j + 1) <= Padded(n) * (s + 1) <= 3 * Padded(n)
  {
    var rows, kp := Rows(n), Padded(n);
    assert kp == NCOLS * rows;
    hide Rows, Padded;
    MulOrder(rows, j, NCOLS - 1);
    assert rows * (NCOLS - 1) == NCOLS * rows - rows;
    MulOrder(kp, s, 2);
  }

  /** srslte_rm_conv_tx: the coded bits in their interleaved order, round and round. */
  method RmConvTx(input: array<bool>, inLen: nat, output: array<bool>, outLen: nat) returns (ret: int)
    requires input != output && inLen <= input.Length && outLen <= output.Length
    modifies output
    ensures ret == if inLen < 3 || Rows(inLen / 3) > NROWS_MAX then -1 else 0
    ensures ret != 0 ==> output[..] == old(output[..])
    ensures ret == 0 ==> forall k :: 0 <= k < outLen ==> output[k] == input[SentConv(inLen / 3, k)]
  {
    if inLen < 3 { return -1; }
    var n := inLen / 3;
    if Rows(n) > NROWS_MAX { return -1; }
    var tmp := new TxBit[3 * NCOLS * NROWS_MAX](_ => Null);
    ghost var x := input[..3 * n];
    Fill(tmp, input, n, x);
    ReadOut(tmp, output, n, outLen, x);
    return 0;
  }

  /** Bit collection and selection. */
  method ReadOut(tmp: array<TxBit>, output: array<bool>, n: nat, outLen: nat, ghost x: seq<bool>)
    requires n > 0 && tmp.Length >= 3 * Padded(n) && outLen <= output.Length && tmp as object != output && |x| == 3 * n
    requires forall p :: 0 <= p < 3 * Padded(n) ==> tmp[p] == Held(x, n, p)
    modifies output
    ensures forall k :: 0 <= k < outLen ==> output[k] == x[SentConv(n, k)]
  {
    hide SlotAtConv, Padded, Kept, Select, Ahead, Reading, Total, OccupiedConv, PositionConv, SentConv;
    ghost var mask := OccupiedConv(n);
    SelectConv(n, 0);
    BufferNotEmpty(n);
    ReadStart(mask, 0);
    var k, j := 0, 0;
    while k < outLen
      invariant 0 <= k <= outLen && 0 <= j < 3 * Padded(n) && Reading(mask, 0, k, j)
      invariant forall m :: 0 <= m < k ==> output[m] == x[SentConv(n, m)]
      decreases outLen - k, Ahead(mask, j)
    {
      ReadStep(mask, 0, k, j);
      OccupiedConvAt(n, j);
      SelectConv(n, k);
      if SlotAtConv(n, j).Data? { PositionOfSlotConv(n, j); }
      if tmp[j] != Null {
        output[k] := tmp[j].b;
        k := k + 1;
      }
      j := j + 1;
      if j == 3 * Padded(n) {
        j := 0;
      }
    }
  }

  lemma BufferNotEmpty(n: nat)
    requires n > 0
    ensures Padded(n) > 0
  {
  }

  // ---- reception --------------------------------------------------------------------------

  /** Sum of the first upto received values that belong to coded bit m. */
  ghost function ArrivedConv(n: nat, input: seq<Soft>, m: nat, upto: nat): int
    requires n > 0 && upto <= |input|
  {
    if upto == 0 then 0
    else ArrivedConv(n, input, m, upto - 1) + if SentConv(n, upto - 1) == m then Amount(input[upto - 1]) else 0
  }

  /** A frame of no more than 3 n values brings each to its own coded bit, unchanged. */
  lemma {:induction false} ArrivedOnceConv(n: nat, input: seq<Soft>, k: nat, upto: nat)
    requires n > 0 && k < |input| <= 3 * n && upto <= |input|
    ensures ArrivedConv(n, input, SentConv(n, k), upto) == if k < upto then Amount(input[k]) else 0
  {
    hide Order, Amount;
    if upto > 0 {
      ArrivedOnceConv(n, input, k, upto - 1);
      OrderIsPermutation(n);
      ModUnique(k, 3 * n, 0, k);
      ModUnique(upto - 1, 3 * n, 0, upto - 1);
      if k < upto - 1 { assert Order(n)[k] != Order(n)[upto - 1]; }
      if k > upto - 1 { assert Order(n)[upto - 1] != Order(n)[k]; }
    }
  }

  /** What is deposited in a symbol's position is what arrived for it. */
  lemma {:induction false} DepositedIsArrivedConv(n: nat, input: seq<Soft>, m: nat, upto: nat)
    requires n > 0 && m < 3 * n && upto <= |input|
    ensures Total(OccupiedConv(n)) > 0
    ensures Deposited(OccupiedConv(n), 0, input, PositionConv(n, m), upto) == ArrivedConv(n, input, m, upto)
  {
    hide SlotAtConv, Padded, Select, OccupiedConv, PositionConv, SentConv, Amount, Total;
    SelectConv(n, 0);
    if upto > 0 {
      DepositedIsArrivedConv(n, input, m, upto - 1);
      SelectConv(n, upto - 1);
      SlotOfPositionConv(n, m);
    }
  }

  /** The receiving loop's test for a data position. */
  function HoldsData(n: nat, j: nat): bool
    requires n > 0 && j < 3 * Padded(n)
  {
    DivBound(InStream(n, j), Rows(n));
    var di, dj := j % Padded(n) / Rows(n), j % Padded(n) % Rows(n);
    dj * NCOLS + PermCc(di) >= Dummies(n)
  }

  lemma HoldsDataIsOccupied(n: nat, j: nat)
    requires n > 0 && j < 3 * Padded(n)
    ensures HoldsData(n, j) <==> OccupiedConv(n)[j]
  {
    hide PermCc, OccupiedConv, Rows;
    OccupiedConvAt(n, j);
    DivBound(InStream(n, j), Rows(n));
  }

  /** Undo bit collection: deposit every value in the position it was sent from. */
  method DepositConv(tmp: array<Soft>, input: array<Soft>, n: nat, inLen: nat)
    requires n > 0 && tmp.Length >= 3 * Padded(n) && inLen <= input.Length && tmp != input
    requires forall p :: 0 <= p < tmp.Length ==> tmp[p] == RxNull
    modifies tmp
    ensures Total(OccupiedConv(n)) > 0
    ensures Holds(old(tmp[..]), tmp[..], OccupiedConv(n), 0, input[..], inLen)
  {
    hide SlotAtConv, Padded, Kept, Select, Ahead, Reading, Total, OccupiedConv, Holds, Amount, Deposited, HoldsData;
    ghost var mask, xs, w0 := OccupiedConv(n), input[..], tmp[..];
    SelectConv(n, 0);
    BufferNotEmpty(n);
    ReadStart(mask, 0);
    HoldsNothing(w0, mask, 0, xs);
    var k, j := 0, 0;
    while k < inLen
      invariant 0 <= k <= inLen && 0 <= j < 3 * Padded(n) && Reading(mask, 0, k, j)
      invariant Holds(w0, tmp[..], mask, 0, xs, k)
      decreases inLen - k, Ahead(mask, j)
    {
      ReadStep(mask, 0, k, j);
      HoldsDataIsOccupied(n, j);
      if HoldsData(n, j) {
        ghost var w := tmp[..];
        CombineAt(tmp, j, input[k]);
        HoldsStep(w0, w, tmp[..], mask, 0, xs, k, j);
        k := k + 1;
      }
      j := j + 1;
      if j == 3 * Padded(n) {
        j := 0;
      }
    }
  }

  /** Deinterleaving: read every coded bit back from its position. */
  method CollectConv(tmp: array<Soft>, output: array<int>, n: nat)
    requires n > 0 && tmp.Length >= 3 * Padded(n) && 3 * n <= output.Length && tmp as object != output
    modifies output
    ensures forall m :: 0 <= m < 3 * n ==>
              PositionConv(n, m) < 3 * Padded(n) && output[m] == Amount(tmp[PositionConv(n, m)])
    ensures forall m :: 3 * n <= m < output.Length ==> output[m] == old(output[m])
  {
    hide PositionConv, Padded, Rows, Dummies, PermCcInv;
    for i := 0 to n
      invariant forall m :: 0 <= m < 3 * i ==>
                  PositionConv(n, m) < 3 * Padded(n) && output[m] == Amount(tmp[PositionConv(n, m)])
      invariant forall m :: 3 * n <= m < output.Length ==> output[m] == old(output[m])
    {
      for j := 0 to 3
        invariant forall m :: 0 <= m < 3 * i + j ==>
                    PositionConv(n, m) < 3 * Padded(n) && output[m] == Amount(tmp[PositionConv(n, m)])
        invariant forall m :: 3 * n <= m < output.Length ==> output[m] == old(output[m])
      {
        PositionFormula(n, i, j);
        var di, dj := (i + Dummies(n)) / NCOLS, (i + Dummies(n)) % NCOLS;
        var o := tmp[Padded(n) * j + PermCcInv(dj) * Rows(n) + di];
        output[i * 3 + j] := if o != RxNull then o.v else 0;
      }
    }
  }

  lemma PositionFormula(n: nat, i: nat, j: nat)
    requires i < n && j < 3
    ensures var x := i + Dummies(n);
            Padded(n) * j + PermCcInv(x % NCOLS) * Rows(n) + x / NCOLS == PositionConv(n, 3 * i + j) < 3 * Padded(n)
  {
    hide PermCcInv, Rows, Padded, Dummies, CcInv, SlotAtConv;
    ThirdOf(i, j);
    SlotOfPositionConv(n, 3 * i + j);
    CcInvAt((i + Dummies(n)) % NCOLS);
  }

  lemma ThirdOf(i: nat, j: nat)
    requires j < 3
    ensures (3 * i + j) / 3 == i && (3 * i + j) % 3 == j
  {
  }

  lemma CcInvAt(c: nat)
    requires c < NCOLS
    ensures CcInv()[c] == PermCcInv(c)
  {
    hide PermCcInv;
  }

  /** srslte_rm_conv_rx and srslte_rm_conv_rx_s: coded bit m is the sum of exactly the received
      copies of it. */
  method RmConvRx(input: array<Soft>, inLen: nat, output: array<int>, outLen: nat) returns (ret: int)
    requires inLen <= input.Length && outLen <= output.Length && input as object != output
    modifies output
    ensures ret == if outLen < 3 || Rows(outLen / 3) > NROWS_MAX then -1 else 0
    ensures ret != 0 ==> output[..] == old(output[..])
    ensures ret == 0 ==>
              var n := outLen / 3;
              && (forall m :: 0 <= m < 3 * n ==> output[m] == ArrivedConv(n, input[..], m, inLen))
              && forall m :: 3 * n <= m < output.Length ==> output[m] == old(output[m])
  {
    hide PositionConv, ArrivedConv, Deposited, OccupiedConv;
    if outLen < 3 { return -1; }
    var n := outLen / 3;
    if Rows(n) > NROWS_MAX { return -1; }
    var tmp := new Soft[3 * NCOLS * NROWS_MAX](_ => RxNull);
    ghost var w0 := tmp[..];
    DepositConv(tmp, input, n, inLen);
    CollectConv(tmp, output, n);
    forall m | 0 <= m < 3 * n
      ensures output[m] == ArrivedConv(n, input[..], m, inLen)
    {
      DepositedIsArrivedConv(n, input[..], m, inLen);
      assert Amount(w0[PositionConv(n, m)]) == 0;
    }
    return 0;
  }

  // ---- round trip -------------------------------------------------------------------------

  /** As soon as the block has been sent once in full, every bit has arrived. */
  lemma EveryBitSent(n: nat, m: nat) returns (k: nat)
    requires m < 3 * n
    ensures k < 3 * n && SentConv(n, k) == m
  {
    hide SlotAtConv, Padded, Kept, PositionConv, Order;
    OrderIsPermutation(n);
    PlaceInOrder(n, m);
    k := |Kept(OccupiedConv(n), PositionConv(n, m))|;
    SmallMod(k, 3 * n);
  }

  lemma {:induction false} ArrivedConvFavours(n: nat, c: seq<bool>, input: seq<Soft>, m: nat, upto: nat)
    requires n > 0 && |c| == 3 * n && m < 3 * n && upto <= |input|
    requires forall k :: 0 <= k < upto ==> Amount(input[k]) != 0 && Favours(Amount(input[k]), c[SentConv(n, k)])
    ensures Favours(ArrivedConv(n, input, m, upto), c[m])
    ensures (exists k :: 0 <= k < upto && SentConv(n, k) == m) ==> ArrivedConv(n, input, m, upto) != 0
    ensures (forall k :: 0 <= k < upto ==> SentConv(n, k) != m) ==> ArrivedConv(n, input, m, upto) == 0
  {
    hide SentConv, Amount;
    if upto > 0 {
      ArrivedConvFavours(n, c, input, m, upto - 1);
      assert Amount(input[upto - 1]) != 0 && Favours(Amount(input[upto - 1]), c[SentConv(n, upto - 1)]);
    }
  }

  /** Round trip: noise-free values for at least one whole pass give every coded bit back. */
  lemma ConvRoundTrip(n: nat, c: seq<bool>, input: seq<Soft>, m: nat)
    requires n > 0 && |c| == 3 * n && m < 3 * n && |input| >= 3 * n
    requires forall k :: 0 <= k < |input| ==> Amount(input[k]) != 0 && Favours(Amount(input[k]), c[SentConv(n, k)])
    ensures var v := ArrivedConv(n, input, m, |input|); v != 0 && (v > 0 <==> c[m])
  {
    hide SentConv, Amount, ArrivedConv;
    var k := EveryBitSent(n, m);
    ArrivedConvFavours(n, c, input, m, |input|);
  }
}

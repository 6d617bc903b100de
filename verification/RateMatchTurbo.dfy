/** Turbo code rate matching (srslte/lib/fec/rm_turbo.c, section 5.1.4.1 of TS 36.212): the
    circular buffer of one coded block of three streams of n symbols each. */
module TurboCircularBuffer {
  import opened NumberTheory
  import opened Permutations
  import opened SubBlock
  import opened CircularBuffer

  function Rows(n: nat): (r: nat)
    requires n > 0
    ensures r > 0 && NCOLS * r - NCOLS < n <= NCOLS * r
  {
    (n - 1) / NCOLS + 1
  }

  /** Size of one interleaved stream, K_p, and the number of dummies in front of it. */
  function Padded(n: nat): (k: nat)
    requires n > 0
    ensures n <= k
  {
    NCOLS * Rows(n)
  }

  function Dummies(n: nat): (d: nat)
    requires n > 0
    ensures d < NCOLS
  {
    Padded(n) - n
  }

  /** What a position of the circular buffer holds: a dummy, or symbol i of the coded block. */
  datatype Slot = Dummy | Data(i: nat)

  /** Cell x of the padded matrix of stream s; the first cells are dummies. */
  function SlotOfCell(n: nat, x: nat, s: nat): Slot
    requires n > 0
  {
    if x < Dummies(n) then Dummy else Data(3 * (x - Dummies(n)) + s)
  }

  /** The circular buffer: the interleaved systematic stream, then the two interleaved parity
      streams alternating, the second of them shifted by one cell. */
  function SlotAt(n: nat, p: nat): Slot
    requires n > 0 && p < 3 * Padded(n)
  {
    if p < Padded(n) then SlotOfCell(n, Cell(Tc(), Rows(n), p), 0)
    else if (p - Padded(n)) % 2 == 0 then SlotOfCell(n, Cell(Tc(), Rows(n), (p - Padded(n)) / 2), 1)
    else SlotOfCell(n, (Cell(Tc(), Rows(n), (p - Padded(n)) / 2) + 1) % Padded(n), 2)
  }

  /** The layout, by the row i and the column j of the sub-block interleavers: the systematic stream is
      read into the first kp places, the parity streams into every other one behind them, the second
      of these one cell later; the dummies fill the first row from the left. */
  lemma BufferIs(n: nat, rows: nat, j: nat, i: nat)
    requires 32 * rows - 32 < n <= 32 * rows && j < 32 && i < rows
    ensures var kp, d, x, q := 32 * rows, 32 * rows - n, 32 * i + PermTc(j), j * rows + i;
            var y := (x + 1) % kp;
            && 0 <= q && 2 * q + 1 < 2 * kp && kp == Padded(n)
            && SlotAt(n, q) == (if x < d then Dummy else Data(3 * (x - d)))
            && SlotAt(n, kp + 2 * q) == (if x < d then Dummy else Data(3 * (x - d) + 1))
            && SlotAt(n, kp + 2 * q + 1) == if y < d then Dummy else Data(3 * (y - d) + 2)
  {
    hide PermTc, Cell;
    assert Rows(n) == rows;
    CellIs(Tc(), rows, j, i);
    var kp, q := 32 * rows, j * rows + i;
    assert (kp + 2 * q - kp) / 2 == q && (kp + 2 * q + 1 - kp) / 2 == q;
    assert (kp + 2 * q - kp) % 2 == 0 && (kp + 2 * q + 1 - kp) % 2 == 1;
  }

  /** Where symbol i of the coded block sits. */
  function Position(n: nat, i: nat): nat
    requires n > 0
  {
    if i % 3 == 0 then Place(Tc(), Rows(n), i / 3 + Dummies(n))
    else if i % 3 == 1 then Padded(n) + 2 * Place(Tc(), Rows(n), i / 3 + Dummies(n))
    else Padded(n) + 2 * Place(Tc(), Rows(n), (i / 3 + Dummies(n) + Padded(n) - 1) % Padded(n)) + 1
  }

  lemma Shift(x: nat, kp: nat)
    requires x < kp
    ensures (x + kp - 1) % kp < kp && ((x + kp - 1) % kp + 1) % kp == x
    ensures ((x + 1) % kp + kp - 1) % kp == x
  {
    if x == 0 {
      ModUnique(kp - 1, kp, 0, kp - 1);
      ModUnique(kp, kp, 1, 0);
    } else {
      ModUnique(x + kp - 1, kp, 1, x - 1);
      ModUnique(x, kp, 0, x);
    }
    if x + 1 == kp {
      ModUnique(kp, kp, 1, 0);
      ModUnique(kp - 1, kp, 0, kp - 1);
    } else {
      ModUnique(x + 1, kp, 0, x + 1);
      ModUnique(x + kp, kp, 1, x);
    }
  }

  lemma SlotOfPosition(n: nat, i: nat)
    requires n > 0 && i < 3 * n
    ensures Position(n, i) < 3 * Padded(n) && SlotAt(n, Position(n, i)) == Data(i)
  {
    hide Cell, Place, Tc, Rows, Padded, Dummies;
    var kp, x, s := Padded(n), i / 3 + Dummies(n), i % 3;
    StreamSymbol(n, i);
    if s < 2 {
      PlaceOfData(n, x);
      var q := Place(Tc(), Rows(n), x);
      assert s == 1 ==> (kp + 2 * q - kp) / 2 == q && (kp + 2 * q - kp) % 2 == 0;
    } else {
      Shift(x, kp);
      var y := (x + kp - 1) % kp;
      PlaceOfData(n, y);
      var q := Place(Tc(), Rows(n), y);
      assert (kp + 2 * q + 1 - kp) / 2 == q && (kp + 2 * q + 1 - kp) % 2 == 1;
    }
  }

  lemma StreamSymbol(n: nat, i: nat)
    requires n > 0 && i < 3 * n
    ensures var x := i / 3 + Dummies(n); x < Padded(n) && 3 * (x - Dummies(n)) + i % 3 == i
  {
    hide Rows;
  }

  lemma PlaceOfData(n: nat, x: nat)
    requires n > 0 && x < Padded(n)
    ensures Place(Tc(), Rows(n), x) < Padded(n) && Cell(Tc(), Rows(n), Place(Tc(), Rows(n), x)) == x
  {
    hide Cell, Place, Tc, Rows, MutuallyInverse;
    ColumnTables();
    CellOfPlace(Tc(), Tc(), Rows(n), x);
  }

  lemma PositionOfSlot(n: nat, p: nat)
    requires n > 0 && p < 3 * Padded(n) && SlotAt(n, p).Data?
    ensures SlotAt(n, p).i < 3 * n && Position(n, SlotAt(n, p).i) == p
  {
    hide Cell, Place, Tc, MutuallyInverse;
    ColumnTables();
    var kp, rows, i := Padded(n), Rows(n), SlotAt(n, p).i;
    var k := if p < kp then p else (p - kp) / 2;
    PlaceOfCell(Tc(), Tc(), rows, k);
    var x := Cell(Tc(), rows, k);
    Shift(x, kp);
    if p < kp {
      assert i == 3 * (x - Dummies(n)) && i / 3 + Dummies(n) == x;
    } else if (p - kp) % 2 == 0 {
      assert i == 3 * (x - Dummies(n)) + 1 && i / 3 + Dummies(n) == x;
    } else {
      var y := (x + 1) % kp;
      assert i == 3 * (y - Dummies(n)) + 2 && i / 3 + Dummies(n) == y;
    }
  }

  /** The positions that are not dummies. */
  function Occupied(n: nat): (m: seq<bool>)
    requires n > 0
    ensures |m| == 3 * Padded(n)
  {
    seq(3 * Padded(n), p requires 0 <= p < 3 * Padded(n) => SlotAt(n, p).Data?)
  }

  lemma OccupiedAt(n: nat, p: nat)
    requires n > 0 && p < 3 * Padded(n)
    ensures Occupied(n)[p] == SlotAt(n, p).Data?
  {
    hide SlotAt, Padded;
  }

  lemma PaddedEven(n: nat, p: nat)
    requires n > 0 && p >= Padded(n)
    ensures (p - Padded(n)) % 2 == p % 2
    ensures p % 2 == 1 ==> (p - Padded(n) - 1) / 2 == (p - Padded(n)) / 2
  {
    hide Rows;
  }

  /** Every symbol of the coded block sits in exactly one position. */
  lemma TotalIsLength(n: nat)
    requires n > 0
    ensures Total(Occupied(n)) == 3 * n
  {
    var m := Occupied(n);
    var kept := Kept(m, |m|);
    var src: seq<nat> := seq(|kept|, k requires 0 <= k < |kept| => SlotAt(n, kept[k]).i);
    forall j, k | 0 <= j < k < |src|
      ensures src[j] != src[k]
    {
      KeptIncreasing(m, |m|, j, k);
      PositionOfSlot(n, kept[j]);
      PositionOfSlot(n, kept[k]);
    }
    DistinctCardinality(src);
    assert Elements(src) == Below(3 * n) by {
      forall i: nat
        ensures i in Elements(src) <==> i < 3 * n
      {
        if i in Elements(src) {
          var k :| 0 <= k < |src| && src[k] == i;
          PositionOfSlot(n, kept[k]);
        }
        if i < 3 * n {
          SlotOfPosition(n, i);
          KeptAt(m, Position(n, i));
          assert src[|Kept(m, Position(n, i))|] == i;
        }
      }
    }
  }

  /** k0: where redundancy version rv starts. */
  function Start(n: nat, rv: nat): nat
    requires n > 0
  {
    Rows(n) * (2 * CeilDiv(3 * Padded(n), 8 * Rows(n)) * rv + 2)
  }

  lemma StartIsColumn(n: nat, rv: nat)
    requires n > 0
    ensures Start(n, rv) == Rows(n) * (24 * rv + 2)
    ensures rv < 4 ==> Start(n, rv) < 3 * Padded(n)
  {
    var rows := Rows(n);
    assert 3 * Padded(n) + 8 * rows - 1 == (8 * rows) * 12 + (8 * rows - 1);
    ModUnique(3 * Padded(n) + 8 * rows - 1, 8 * rows, 12, 8 * rows - 1);
    if rv < 4 { MulOrder(rows, 24 * rv + 2, 96); }
  }

  /** The position that redundancy version rv transmits k-th. */
  function SentFrom(n: nat, rv: nat, k: nat): (p: nat)
    requires n > 0
    ensures p < 3 * Padded(n) && SlotAt(n, p).Data? && SlotAt(n, p).i < 3 * n
  {
    TotalIsLength(n);
    PositionOfSlot(n, Select(Occupied(n), Start(n, rv) % (3 * Padded(n)), k));
    Select(Occupied(n), Start(n, rv) % (3 * Padded(n)), k)
  }

  lemma SentFromSelects(n: nat, rv: nat, k: nat)
    requires n > 0
    ensures Total(Occupied(n)) > 0
    ensures SentFrom(n, rv, k) == Select(Occupied(n), Start(n, rv) % (3 * Padded(n)), k)
  {
    TotalIsLength(n);
  }

  /** The symbol of the coded block that redundancy version rv transmits k-th. */
  function Sent(n: nat, rv: nat, k: nat): (i: nat)
    requires n > 0
    ensures i < 3 * n
  {
    SlotAt(n, SentFrom(n, rv, k)).i
  }
}

/** The direct rate matcher (srslte_rm_turbo_tx): fill the whole circular buffer, then read it
    round from k0, skipping every null. */
module RateMatchTurboTx {
  import opened NumberTheory
  import opened Permutations
  import opened SubBlock
  import opened CircularBuffer
  import opened TurboEncoder
  import opened TurboCircularBuffer

  /** The circular buffer filled from the coded block x of three streams of n symbols. */
  function Collected(x: seq<TxBit>, n: nat): (w: seq<TxBit>)
    requires n > 0 && |x| == 3 * n
    ensures |w| == 3 * Padded(n)
  {
    seq(3 * Padded(n), p requires 0 <= p < 3 * Padded(n) =>
      var slot := SlotAt(n, p);
      if slot.Data? && slot.i < |x| then x[slot.i] else Null)
  }

  function NonNull(w: seq<TxBit>): (m: seq<bool>)
    ensures |m| == |w|
  {
    seq(|w|, p requires 0 <= p < |w| => w[p] != Null)
  }

  /** A filled buffer without fillers has a null exactly where the layout has a dummy. */
  lemma NonNullOfCollected(x: seq<TxBit>, n: nat)
    requires n > 0 && |x| == 3 * n && forall i :: 0 <= i < |x| ==> x[i] != Null
    ensures NonNull(Collected(x, n)) == Occupied(n)
  {
    forall p | 0 <= p < 3 * Padded(n)
      ensures NonNull(Collected(x, n))[p] == Occupied(n)[p]
    {
      if SlotAt(n, p).Data? { PositionOfSlot(n, p); }
    }
  }

  /** What redundancy version rv transmits k-th from the filled buffer w, if there is a bit in it. */
  function Transmitted(w: seq<TxBit>, n: nat, rv: nat, k: nat): TxBit
    requires n > 0 && |w| == 3 * Padded(n)
  {
    if Total(NonNull(w)) > 0 then w[Select(NonNull(w), Start(n, rv) % (3 * Padded(n)), k)] else Null
  }

  /** Without fillers the k-th transmitted symbol is symbol Sent(n, rv, k) of the coded block. */
  lemma TransmittedIsSent(x: seq<TxBit>, n: nat, rv: nat, k: nat)
    requires n > 0 && |x| == 3 * n && forall i :: 0 <= i < |x| ==> x[i] != Null
    ensures Total(NonNull(Collected(x, n))) == 3 * n
    ensures Transmitted(Collected(x, n), n, rv, k) == x[Sent(n, rv, k)]
  {
    NonNullOfCollected(x, n);
    TotalIsLength(n);
  }

  lemma SomeNonNull(w: seq<TxBit>, p: nat)
    requires p < |w| && w[p] != Null
    ensures Total(NonNull(w)) > 0
  {
    KeptAt(NonNull(w), p);
  }

  /** A bit of the block is in the filled buffer. */
  lemma BitIsCollected(x: seq<TxBit>, n: nat, i: nat)
    requires n > 0 && |x| == 3 * n && i < 3 * n && x[i] != Null
    ensures Total(NonNull(Collected(x, n))) > 0
  {
    hide Position, SlotAt, Padded, Total, NonNull;
    SlotOfPosition(n, i);
    SomeNonNull(Collected(x, n), Position(n, i));
  }

  /** k = j * rows + i is in column j and row i. */
  lemma ColumnRow(rows: nat, j: nat, i: nat)
    requires i < rows && j < NCOLS
    ensures var k := j * rows + i; k < NCOLS * rows && k / rows == j && k % rows == i
    ensures Cell(Tc(), rows, j * rows + i) == i * NCOLS + PermTc(j)
  {
    MulOrder(rows, j, NCOLS - 1);
    assert rows * j == j * rows && rows * (NCOLS - 1) == NCOLS * rows - rows;
    ModUnique(j * rows + i, rows, j, i);
  }

  /** Where the q-th symbol read from stream s goes. */
  function Lane(n: nat, s: nat, q: nat): nat
    requires n > 0
  {
    if s == 0 then q else if s == 1 then Padded(n) + 2 * q else Padded(n) + 2 * q + 1
  }

  predicate InLane(n: nat, s: nat, p: nat)
    requires n > 0
  {
    if s == 0 then p < Padded(n) else p >= Padded(n) && (p - Padded(n)) % 2 == s - 1
  }

  /** The matrix cell whose content the q-th symbol of stream s is. */
  function LaneCell(n: nat, s: nat, q: nat): (x: nat)
    requires n > 0 && q < Padded(n)
  {
    if s < 2 then Cell(Tc(), Rows(n), q) else (Cell(Tc(), Rows(n), q) + 1) % Padded(n)
  }

  lemma LaneCellBound(n: nat, s: nat, q: nat)
    requires n > 0 && q < Padded(n)
    ensures LaneCell(n, s, q) < Padded(n)
  {
    ColumnTables();
    PlaceOfCell(Tc(), Tc(), Rows(n), q);
  }

  lemma LaneSlot(n: nat, s: nat, q: nat)
    requires n > 0 && s < 3 && q < Padded(n)
    ensures Lane(n, s, q) < 3 * Padded(n) && InLane(n, s, Lane(n, s, q))
    ensures SlotAt(n, Lane(n, s, q)) == SlotOfCell(n, LaneCell(n, s, q), s)
  {
    hide Cell, Tc, SlotOfCell;
    var p := Lane(n, s, q);
    if s > 0 {
      assert p - Padded(n) == 2 * q + (s - 1);
      assert (p - Padded(n)) / 2 == q && (p - Padded(n)) % 2 == s - 1;
    }
  }

  lemma CollectedLane(x: seq<TxBit>, n: nat, s: nat, q: nat)
    requires n > 0 && |x| == 3 * n && s < 3 && q < Padded(n)
    ensures Lane(n, s, q) < 3 * Padded(n) && InLane(n, s, Lane(n, s, q))
    ensures LaneCell(n, s, q) < Padded(n)
    ensures var c := LaneCell(n, s, q);
            Collected(x, n)[Lane(n, s, q)] == if c < Dummies(n) then Null else x[3 * (c - Dummies(n)) + s]
  {
    hide LaneCell, Lane, InLane, SlotAt;
    LaneCellBound(n, s, q);
    LaneSlot(n, s, q);
  }

  /** The first upto symbols of stream s are in place. */
  ghost predicate Filled(w: seq<TxBit>, x: seq<TxBit>, n: nat, s: nat, upto: nat)
    requires n > 0 && |x| == 3 * n && s < 3 && upto <= Padded(n) && 3 * Padded(n) <= |w|
  {
    forall q {:trigger Lane(n, s, q)} :: 0 <= q < upto ==>
      Lane(n, s, q) < 3 * Padded(n) && w[Lane(n, s, q)] == Collected(x, n)[Lane(n, s, q)]
  }

  lemma NothingFilled(w: seq<TxBit>, x: seq<TxBit>, n: nat, s: nat)
    requires n > 0 && |x| == 3 * n && s < 3 && 3 * Padded(n) <= |w|
    ensures Filled(w, x, n, s, 0)
  {
  }

  lemma FilledStep(w: seq<TxBit>, w': seq<TxBit>, x: seq<TxBit>, n: nat, s: nat, q: nat)
    requires n > 0 && |x| == 3 * n && s < 3 && q < Padded(n) && 3 * Padded(n) <= |w| == |w'|
    requires Filled(w, x, n, s, q)
    requires var p := Lane(n, s, q);
             p < 3 * Padded(n) && w' == w[p := Collected(x, n)[p]]
    ensures Filled(w', x, n, s, q + 1)
  {
  }

  /** Body of the sub-block interleaver loop: row i of column j of stream s. */
  method WriteSymbol(wBuff: array<TxBit>, input: array<TxBit>, n: nat, s: nat, j: nat, i: nat, k: nat,
                     ghost x: seq<TxBit>, ghost q: nat)
    requires n > 0 && s < 2 && 3 * n <= input.Length && 3 * Padded(n) <= wBuff.Length && wBuff != input
    requires x == input[..3 * n] && j < NCOLS && i < Rows(n)
    requires q == j * Rows(n) + i && q < Padded(n) && k == s * Padded(n) + q
    requires Filled(wBuff[..], x, n, s, q)
    modifies wBuff
    ensures Filled(wBuff[..], x, n, s, q + 1)
    ensures forall p :: 0 <= p < wBuff.Length && !InLane(n, s, p) ==> wBuff[p] == old(wBuff[p])
  {
    hide Collected, Cell, PermTc, InLane, Filled;
    var nrows, kp, ndummy := Rows(n), Padded(n), Dummies(n);
    ghost var w := wBuff[..];
    ColumnRow(nrows, j, i);
    ModUnique(k, kp, s, q);
    CollectedLane(x, n, s, q);
    var kidx := if s == 0 then k % kp else kp + 2 * (k % kp);
    if i * NCOLS + PermTc(j) < ndummy {
      wBuff[kidx] := Null;
    } else {
      wBuff[kidx] := input[(i * NCOLS + PermTc(j) - ndummy) * 3 + s];
    }
    assert wBuff[..] == w[kidx := Collected(x, n)[kidx]];
    FilledStep(w, wBuff[..], x, n, s, q);
  }

  /** The sub-block interleaver loop of stream s = 0 or 1. */
  method FillStream(wBuff: array<TxBit>, input: array<TxBit>, n: nat, s: nat, ghost x: seq<TxBit>)
    requires n > 0 && s < 2 && 3 * n <= input.Length && 3 * Padded(n) <= wBuff.Length && wBuff != input
    requires x == input[..3 * n]
    modifies wBuff
    ensures Filled(wBuff[..], x, n, s, Padded(n))
    ensures forall p :: 0 <= p < wBuff.Length && !InLane(n, s, p) ==> wBuff[p] == old(wBuff[p])
  {
    hide Collected, Filled, InLane, Rows;
    var nrows, k := Rows(n), s * Padded(n);
    NothingFilled(wBuff[..], x, n, s);
    ghost var q := 0;
    for j := 0 to NCOLS
      invariant q == j * nrows && k == s * Padded(n) + q
      invariant q <= Padded(n) && Filled(wBuff[..], x, n, s, q)
      invariant forall p :: 0 <= p < wBuff.Length && !InLane(n, s, p) ==> wBuff[p] == old(wBuff[p])
    {
      MulOrder(nrows, j, NCOLS - 1);
      for i := 0 to nrows
        invariant q == j * nrows + i && k == s * Padded(n) + q
        invariant q <= Padded(n) && Filled(wBuff[..], x, n, s, q)
        invariant forall p :: 0 <= p < wBuff.Length && !InLane(n, s, p) ==> wBuff[p] == old(wBuff[p])
      {
        WriteSymbol(wBuff, input, n, s, j, i, k, x, q);
        k, q := k + 1, q + 1;
      }
    }
  }

  /** The loop for the second parity stream, which is shifted by one cell. */
  method FillThird(wBuff: array<TxBit>, input: array<TxBit>, n: nat, ghost x: seq<TxBit>)
    requires n > 0 && 3 * n <= input.Length && 3 * Padded(n) <= wBuff.Length && wBuff != input
    requires x == input[..3 * n]
    modifies wBuff
    ensures Filled(wBuff[..], x, n, 2, Padded(n))
    ensures forall p :: 0 <= p < wBuff.Length && !InLane(n, 2, p) ==> wBuff[p] == old(wBuff[p])
  {
    hide Collected;
    var nrows, kp, ndummy := Rows(n), Padded(n), Dummies(n);
    for k := 0 to kp
      invariant Filled(wBuff[..], x, n, 2, k)
      invariant forall p :: 0 <= p < wBuff.Length && !InLane(n, 2, p) ==> wBuff[p] == old(wBuff[p])
    {
      ghost var w := wBuff[..];
      CollectedLane(x, n, 2, k);
      DivBound(k, nrows);
      var kidx := (PermTc(k / nrows) + NCOLS * (k % nrows) + 1) % kp;
      assert kidx == LaneCell(n, 2, k);
      if kidx < ndummy {
        wBuff[kp + 2 * k + 1] := Null;
      } else {
        wBuff[kp + 2 * k + 1] := input[3 * (kidx - ndummy) + 2];
      }
      assert wBuff[..] == w[kp + 2 * k + 1 := Collected(x, n)[kp + 2 * k + 1]];
      FilledStep(w, wBuff[..], x, n, 2, k);
    }
  }

  lemma FilledKept(w: seq<TxBit>, w': seq<TxBit>, x: seq<TxBit>, n: nat, s: nat, s': nat)
    requires n > 0 && |x| == 3 * n && s < 3 && s' < 3 && s != s' && 3 * Padded(n) <= |w| == |w'|
    requires Filled(w, x, n, s, Padded(n))
    requires forall p :: 0 <= p < |w| && !InLane(n, s', p) ==> w'[p] == w[p]
    ensures Filled(w', x, n, s, Padded(n))
  {
    hide Collected;
  }

  lemma LanesCover(w: seq<TxBit>, x: seq<TxBit>, n: nat)
    requires n > 0 && |x| == 3 * n && 3 * Padded(n) <= |w|
    requires Filled(w, x, n, 0, Padded(n)) && Filled(w, x, n, 1, Padded(n)) && Filled(w, x, n, 2, Padded(n))
    ensures w[..3 * Padded(n)] == Collected(x, n)
  {
    hide Collected;
    var kp := Padded(n);
    forall p | 0 <= p < 3 * kp
      ensures w[p] == Collected(x, n)[p]
    {
      var s := if p < kp then 0 else (p - kp) % 2 + 1;
      var q := if p < kp then p else (p - kp) / 2;
      assert Lane(n, s, q) == p;
    }
  }

  /** Bit selection: walk the buffer from k0 and copy every symbol that is not null. */
  method BitSelection(wBuff: array<TxBit>, output: array<TxBit>, n: nat, outLen: nat, rvIdx: nat)
    requires n > 0 && 3 * Padded(n) <= wBuff.Length && outLen <= output.Length && wBuff != output
    requires outLen > 0 ==> Total(NonNull(wBuff[..3 * Padded(n)])) > 0
    modifies output
    ensures forall k :: 0 <= k < outLen ==> output[k] == Transmitted(wBuff[..3 * Padded(n)], n, rvIdx, k)
    ensures forall k :: outLen <= k < output.Length ==> output[k] == old(output[k])
  {
    hide Kept, Select, Ahead, Advance, Reading, Round, Start, Padded, Total;
    var nCb, k0 := 3 * Padded(n), Start(n, rvIdx);
    ghost var w := wBuff[..nCb];
    ghost var mask, start := NonNull(w), k0 % nCb;
    var k, j := 0, 0;
    RoundStart(k0, nCb);
    if outLen > 0 { ReadStart(mask, start); }
    while k < outLen
      invariant 0 <= k <= outLen
      invariant outLen > 0 ==> Reading(mask, start, k, Round(k0, j, nCb))
      invariant forall m :: 0 <= m < k ==> output[m] == Transmitted(w, n, rvIdx, m)
      invariant forall m :: outLen <= m < output.Length ==> output[m] == old(output[m])
      decreases outLen - k, Ahead(mask, Round(k0, j, nCb))
    {
      var jp := Round(k0, j, nCb);
      ReadStep(mask, start, k, jp);
      RoundStep(mask, k0, j);
      if wBuff[jp] != Null {
        output[k] := wBuff[jp];
        k := k + 1;
      }
      j := j + 1;
    }
  }

  /** Symbols per stream as the original sees them: its row count passes through 16 bits, so that of a longer
      block only whole rows up to that count are taken. */
  function StreamSymbols(inLen: nat): (n: nat)
    requires inLen >= 3
    ensures 0 < n <= inLen / 3
  {
    var n := inLen / 3;
    if n <= 65536 then n else ((n - 1) % 65536 / NCOLS + 1) * NCOLS
  }

  lemma StreamRows(inLen: nat)
    requires inLen >= 3
    ensures (inLen / 3 - 1) % 65536 / NCOLS + 1 == Rows(StreamSymbols(inLen))
  {
  }

  /** There is something to send: without a bit in the buffer the original never returns. */
  ghost predicate HasBit(w: seq<TxBit>) {
    exists p :: 0 <= p < |w| && w[p] != Null
  }

  /** srslte_rm_turbo_tx */
  method RmTurboTx(wBuff: array<TxBit>, wBuffLen: nat, input: array<TxBit>, inLen: nat,
                   output: array<TxBit>, outLen: nat, rvIdx: nat) returns (ret: int)
    requires wBuff != input && wBuff != output && input != output
    requires wBuffLen == wBuff.Length && inLen <= input.Length && outLen <= output.Length
    requires outLen > 0 && inLen >= 3 && 3 * Padded(StreamSymbols(inLen)) <= wBuffLen ==>
               var n := StreamSymbols(inLen);
               if rvIdx == 0 then HasBit(input[..3 * n]) else HasBit(wBuff[..3 * Padded(n)])
    modifies wBuff, output
    ensures ret == if inLen < 3 || 3 * Padded(StreamSymbols(inLen)) > wBuffLen then -1 else 0
    ensures ret != 0 ==> wBuff[..] == old(wBuff[..]) && output[..] == old(output[..])
    ensures ret == 0 ==>
              var n := StreamSymbols(inLen);
              && (rvIdx == 0 ==> wBuff[..3 * Padded(n)] == Collected(input[..3 * n], n))
              && (rvIdx != 0 ==> wBuff[..] == old(wBuff[..]))
              && forall k :: 0 <= k < outLen ==>
                   output[k] == Transmitted(wBuff[..3 * Padded(n)], n, rvIdx, k)
  {
    hide Collected, NonNull, Transmitted, StreamSymbols, Rows, Total;
    if inLen < 3 { return -1; }
    ghost var n := StreamSymbols(inLen);
    var nrows := (inLen / 3 - 1) % 65536 / NCOLS + 1;
    StreamRows(inLen);
    if 3 * (nrows * NCOLS) > wBuffLen { return -1; }
    if rvIdx == 0 {
      Fill(wBuff, input, inLen);
      if outLen > 0 {
        ghost var i :| 0 <= i < 3 * n && input[..3 * n][i] != Null;
        BitIsCollected(input[..3 * n], n, i);
      }
    } else if outLen > 0 {
      ghost var p :| 0 <= p < 3 * Padded(n) && wBuff[..3 * Padded(n)][p] != Null;
      SomeNonNull(wBuff[..3 * Padded(n)], p);
    }
    BitSelection(wBuff, output, StreamSymbols(inLen), outLen, rvIdx);
    return 0;
  }

  /** Sub-block interleaving and bit collection of all three streams. */
  method Fill(wBuff: array<TxBit>, input: array<TxBit>, inLen: nat)
    requires inLen >= 3 && inLen <= input.Length && 3 * Padded(StreamSymbols(inLen)) <= wBuff.Length && wBuff != input
    modifies wBuff
    ensures var n := StreamSymbols(inLen); wBuff[..3 * Padded(n)] == Collected(input[..3 * n], n)
  {
    hide Collected, StreamSymbols, Rows;
    var n := StreamSymbols(inLen);
    ghost var x := input[..3 * n];
    FillStream(wBuff, input, n, 0, x);
    ghost var w0 := wBuff[..];
    FillStream(wBuff, input, n, 1, x);
    ghost var w1 := wBuff[..];
    FilledKept(w0, w1, x, n, 0, 1);
    FillThird(wBuff, input, n, x);
    FilledKept(w1, wBuff[..], x, n, 0, 2);
    FilledKept(w1, wBuff[..], x, n, 1, 2);
    LanesCover(wBuff[..], x, n);
  }
}

/** The lookup tables of the fast turbo rate matcher (srslte_rm_turbo_gentable_* in
    srslte/lib/fec/rm_turbo.c): the circular buffer with its dummies squeezed out. */
module RateMatchTurboTables {
  import opened NumberTheory
  import opened Permutations
  import opened SubBlock
  import opened CircularBuffer
  import opened TurboCircularBuffer
  import opened RateMatchTurboTx

  /** The coded symbol in position m of the squeezed buffer. */
  function Compact(n: nat, m: nat): (i: nat)
    requires n > 0 && m < 3 * n
    ensures i < 3 * n
  {
    TotalIsLength(n);
    PositionOfSlot(n, Kept(Occupied(n), 3 * Padded(n))[m]);
    SlotAt(n, Kept(Occupied(n), 3 * Padded(n))[m]).i
  }

  /** Where redundancy version rv starts in the squeezed buffer: the non-dummies before k0. */
  function CompactStart(n: nat, rv: nat): nat
    requires n > 0
  {
    |Kept(Occupied(n), Start(n, rv) % (3 * Padded(n)))|
  }

  /** Reading the squeezed buffer round from there is what redundancy version rv sends. */
  lemma CompactSends(n: nat, rv: nat, k: nat)
    requires n > 0
    ensures Compact(n, Round(CompactStart(n, rv), k, 3 * n)) == Sent(n, rv, k)
  {
    TotalIsLength(n);
  }

  /** The squeezed buffer is a permutation of the coded block. */
  lemma CompactIsPermutation(n: nat)
    requires n > 0
    ensures IsPermutation(seq(3 * n, m requires 0 <= m < 3 * n => Compact(n, m)))
  {
    TotalIsLength(n);
    var kept := Kept(Occupied(n), 3 * Padded(n));
    forall j, k | 0 <= j < k < 3 * n
      ensures Compact(n, j) != Compact(n, k)
    {
      KeptIncreasing(Occupied(n), 3 * Padded(n), j, k);
      PositionOfSlot(n, kept[j]);
      PositionOfSlot(n, kept[k]);
    }
  }

  /** The systematic symbol kept m-th in the first part of the buffer. */
  ghost function SystematicSources(n: nat): (src: seq<nat>)
    requires n > 0
    ensures |src| == |Kept(Occupied(n), Padded(n))|
  {
    var kept := Kept(Occupied(n), Padded(n));
    seq(|kept|, k requires 0 <= k < |kept| => SlotAt(n, kept[k]).i / 3)
  }

  lemma SystematicSlot(n: nat, p: nat)
    requires n > 0 && p < Padded(n) && Occupied(n)[p]
    ensures SlotAt(n, p).Data? && SlotAt(n, p).i % 3 == 0 && SlotAt(n, p).i < 3 * n
    ensures Position(n, SlotAt(n, p).i) == p
  {
    PositionOfSlot(n, p);
  }

  lemma ParitySlot(n: nat, p: nat)
    requires n > 0 && Padded(n) <= p < 3 * Padded(n) && Occupied(n)[p]
    ensures SlotAt(n, p).Data? && SlotAt(n, p).i % 3 != 0
  {
    hide Cell;
  }

  lemma SystematicDistinct(n: nat, j: nat, k: nat)
    requires n > 0 && j < k < |SystematicSources(n)|
    ensures SystematicSources(n)[j] != SystematicSources(n)[k]
  {
    hide SlotAt, Occupied, Kept, Position;
    var kept := Kept(Occupied(n), Padded(n));
    KeptIncreasing(Occupied(n), Padded(n), j, k);
    SystematicSlot(n, kept[j]);
    SystematicSlot(n, kept[k]);
  }

  lemma SystematicPosition(n: nat, i: nat)
    requires i < n
    ensures Position(n, 3 * i) < Padded(n) && Occupied(n)[Position(n, 3 * i)]
    ensures SlotAt(n, Position(n, 3 * i)) == Data(3 * i)
  {
    hide Cell, SlotAt, Place, MutuallyInverse, Tc;
    SlotOfPosition(n, 3 * i);
    ColumnTables();
    CellOfPlace(Tc(), Tc(), Rows(n), i + Dummies(n));
    assert (3 * i) % 3 == 0 && (3 * i) / 3 == i;
  }

  lemma SystematicComplete(n: nat, i: nat)
    requires n > 0
    ensures i in SystematicSources(n) <==> i < n
  {
    hide SlotAt, Kept, Position, Occupied;
    var mask, kp, src := Occupied(n), Padded(n), SystematicSources(n);
    if i in src {
      var k :| 0 <= k < |src| && src[k] == i;
      SystematicSlot(n, Kept(mask, kp)[k]);
    }
    if i < n {
      var p := Position(n, 3 * i);
      SystematicPosition(n, i);
      KeptBelow(mask, p, kp);
      assert src[|Kept(mask, p)|] == i;
    }
  }

  /** The first part of the buffer holds exactly the n systematic symbols. */
  lemma SystematicPart(n: nat)
    requires n > 0
    ensures |Kept(Occupied(n), Padded(n))| == n
  {
    hide SystematicSources;
    var src := SystematicSources(n);
    forall j, k | 0 <= j < k < |src|
      ensures src[j] != src[k]
    {
      SystematicDistinct(n, j, k);
    }
    DistinctCardinality(src);
    forall i: nat
      ensures i in Elements(src) <==> i in Below(n)
    {
      SystematicComplete(n, i);
    }
    assert Elements(src) == Below(n);
  }

  /** In the squeezed buffer the systematic symbols come first. */
  lemma CompactStream(n: nat, m: nat)
    requires n > 0 && m < 3 * n
    ensures m < n <==> Compact(n, m) % 3 == 0
  {
    hide SlotAt, Kept, Position, Occupied;
    TotalIsLength(n);
    SystematicPart(n);
    var mask, kp := Occupied(n), Padded(n);
    var p := Kept(mask, 3 * kp)[m];
    KeptPrefix(mask, kp, 3 * kp);
    if m < n {
      assert p == Kept(mask, kp)[m];
      SystematicSlot(n, p);
    } else {
      KeptBeyond(mask, kp, 3 * kp, m);
      ParitySlot(n, p);
    }
  }

  // ---- generating the tables --------------------------------------------------------------

  /** Entry m of the two transmit tables put end to end: the index of the symbol within the
      systematic stream, or within the two parity streams laid one after the other. */
  function TableEntry(n: nat, m: nat): nat
    requires n > 0 && m < 3 * n
  {
    if m < n || Compact(n, m) % 3 == 1 then Compact(n, m) / 3 else Compact(n, m) / 3 + n
  }

  /** The slot table k0_vec[rv][1] before position p is visited: the number of kept positions
      before k0 once a kept position at or beyond k0 has been seen, -1 until then. */
  function K0Seen(n: nat, rv: nat, p: nat): int
    requires n > 0 && p <= 3 * Padded(n)
  {
    var start := Start(n, rv) % (3 * Padded(n));
    if start < p && CompactStart(n, rv) < |Kept(Occupied(n), p)| then CompactStart(n, rv) else -1
  }

  lemma K0Step(n: nat, rv: nat, p: nat)
    requires n > 0 && p < 3 * Padded(n)
    ensures var start, seen := Start(n, rv) % (3 * Padded(n)), K0Seen(n, rv, p);
            K0Seen(n, rv, p + 1) == if seen == -1 && start <= p && Occupied(n)[p] then |Kept(Occupied(n), p)| else seen
  {
    hide SlotAt, Start, Occupied;
    var start := Start(n, rv) % (3 * Padded(n));
    if start <= p { KeptPrefix(Occupied(n), start, p); }
  }

  /** By the end of the buffer k0 has been passed by a kept position, for all four versions. */
  lemma K0Complete(n: nat, rv: nat)
    requires n > 0 && rv < 4
    ensures K0Seen(n, rv, 3 * Padded(n)) == CompactStart(n, rv) < 3 * n
  {
    var kp, rows, start := Padded(n), Rows(n), Start(n, rv);
    StartIsColumn(n, rv);
    NumberTheory.ModUnique(start, 3 * kp, 0, start);
    var p := 3 * kp - 2;
    assert rows * (24 * rv + 2) <= rows * 74 by { MulOrder(rows, 24 * rv + 2, 74); }
    LastEvenKept(n);
    hide SlotAt, Start, Occupied, Rows;
    KeptPrefix(Occupied(n), start, p);
    KeptBelow(Occupied(n), p, 3 * kp);
    TotalIsLength(n);
  }

  lemma LastCell(n: nat)
    requires n > 0
    ensures SlotOfCell(n, Padded(n) - 1, 1).Data?
  {
    hide Rows;
  }

  lemma LastEvenKept(n: nat)
    requires n > 0
    ensures Occupied(n)[3 * Padded(n) - 2]
  {
    var kp, rows := Padded(n), Rows(n);
    assert kp == 32 * rows;
    assert PermTc(31) == 31;
    hide Cell, PermTc, Rows, Padded, SlotOfCell, Occupied, Tc;
    ColumnRow(rows, 31, rows - 1);
    assert 31 * rows + (rows - 1) == kp - 1;
    OccupiedAt(n, 3 * kp - 2);
    assert SlotOfCell(n, kp - 1, 1).Data? by { LastCell(n); }
    assert (3 * kp - 2 - kp) / 2 == kp - 1 && (3 * kp - 2 - kp) % 2 == 0;
    assert SlotAt(n, 3 * kp - 2) == SlotOfCell(n, kp - 1, 1);
  }

  lemma CompactAt(n: nat, m: nat)
    requires n > 0 && m < 3 * n
    ensures Total(Occupied(n)) == 3 * n
    ensures SlotAt(n, Kept(Occupied(n), 3 * Padded(n))[m]) == Data(Compact(n, m))
  {
    hide SlotAt, Padded, Position;
    TotalIsLength(n);
    PositionOfSlot(n, Kept(Occupied(n), 3 * Padded(n))[m]);
    OccupiedAt(n, Kept(Occupied(n), 3 * Padded(n))[m]);
  }

  /** What visiting position p, which comes from cell x of stream s, does to table and counter. */
  lemma VisitCell(n: nat, p: nat, s: nat, x: nat)
    requires n > 0 && p < 3 * Padded(n) && s < 3 && SlotAt(n, p) == SlotOfCell(n, x, s)
    ensures Occupied(n)[p] <==> x >= Dummies(n)
    ensures |Kept(Occupied(n), p + 1)| == |Kept(Occupied(n), p)| + if x >= Dummies(n) then 1 else 0
    ensures x >= Dummies(n) ==>
              var m := |Kept(Occupied(n), p)|;
              && m < 3 * n && Compact(n, m) == 3 * (x - Dummies(n)) + s
              && TableEntry(n, m) == if s == 2 then x - Dummies(n) + n else x - Dummies(n)
  {
    hide SlotAt, Occupied, Kept, Position, Rows, Dummies, Compact, Total;
    var c := SlotAt(n, p);
    OccupiedAt(n, p);
    KeptStep(Occupied(n), p);
    if c.Data? {
      KeptAt(Occupied(n), p);
      TotalIsLength(n);
      var m := |Kept(Occupied(n), p)|;
      CompactAt(n, m);
      CompactStream(n, m);
    }
  }

  /** The loop over the four redundancy versions that both generators run at every position. */
  method UpdateK0(k0v: array<int>, n: nat, p: nat, lastIsNull: bool, kb: int)
    requires n > 0 && p < 3 * Padded(n) && k0v.Length == 4
    requires lastIsNull == !Occupied(n)[p] && (!lastIsNull ==> kb == |Kept(Occupied(n), p)|)
    requires forall i :: 0 <= i < 4 ==> k0v[i] == K0Seen(n, i, p)
    modifies k0v
    ensures forall i :: 0 <= i < 4 ==> k0v[i] == K0Seen(n, i, p + 1)
  {
    hide K0Seen, Occupied;
    for i := 0 to 4
      invariant forall j :: 0 <= j < i ==> k0v[j] == K0Seen(n, j, p + 1)
      invariant forall j :: i <= j < 4 ==> k0v[j] == K0Seen(n, j, p)
    {
      K0Step(n, i, p);
      if k0v[i] == -1 {
        if Start(n, i) % (3 * Padded(n)) <= p && !lastIsNull {
          k0v[i] := kb;
        }
      }
    }
  }

  /** The tables filled so far: entries of all kept positions below p, k0_vec as seen below p. */
  ghost predicate Generated(n: nat, table: seq<nat>, offset: nat, k0v: seq<int>, p: nat)
    requires n > 0 && p <= 3 * Padded(n)
  {
    && |k0v| == 4
    && (forall i :: 0 <= i < 4 ==> k0v[i] == K0Seen(n, i, p))
    && (forall m :: offset <= m < |Kept(Occupied(n), p)| ==> EntryReady(n, table, offset, m))
  }

  ghost predicate EntryReady(n: nat, table: seq<nat>, offset: nat, m: nat)
    requires n > 0
  {
    m < 3 * n && 0 <= m - offset < |table| && table[m - offset] == TableEntry(n, m)
  }

  /** One position of either generator: if its cell is not a dummy, append the entry value. */
  method VisitPosition(table: array<nat>, k0v: array<int>, n: nat, kb: nat, isData: bool, value: nat,
                       offset: nat, ghost p: nat, buffIdx: nat) returns (kb': nat)
    requires n > 0 && p < 3 * Padded(n) && buffIdx == p && k0v.Length == 4
    requires Generated(n, table[..], offset, k0v[..], p)
    requires offset + kb == |Kept(Occupied(n), p)| && isData == Occupied(n)[p]
    requires |Kept(Occupied(n), p + 1)| == offset + kb + if isData then 1 else 0
    requires isData ==> offset + kb < 3 * n && kb < table.Length && value == TableEntry(n, offset + kb)
    modifies table, k0v
    ensures Generated(n, table[..], offset, k0v[..], p + 1)
    ensures offset + kb' == |Kept(Occupied(n), p + 1)|
  {
    hide Occupied, K0Seen, TableEntry, Kept, Generated;
    ghost var t := table[..];
    GeneratedShape(n, t, offset, k0v[..], p);
    kb' := kb;
    var lastIsNull := true;
    if isData {
      table[kb] := value;
      kb' := kb + 1;
      lastIsNull := false;
    }
    ghost var k := k0v[..];
    UpdateK0(k0v, n, buffIdx, lastIsNull, offset + kb' - 1);
    GeneratedStep(n, t, table[..], offset, k, k0v[..], p, isData);
  }

  lemma GeneratedShape(n: nat, table: seq<nat>, offset: nat, k0v: seq<int>, p: nat)
    requires n > 0 && p <= 3 * Padded(n) && Generated(n, table, offset, k0v, p)
    ensures |k0v| == 4 && forall i :: 0 <= i < 4 ==> k0v[i] == K0Seen(n, i, p)
  {
  }

  lemma GeneratedStep(n: nat, t: seq<nat>, t': seq<nat>, offset: nat, k: seq<int>, k': seq<int>, p: nat, isData: bool)
    requires n > 0 && p < 3 * Padded(n) && Generated(n, t, offset, k, p)
    requires |k'| == 4 && forall i :: 0 <= i < 4 ==> k'[i] == K0Seen(n, i, p + 1)
    requires var m := |Kept(Occupied(n), p)|;
             && m >= offset && |Kept(Occupied(n), p + 1)| == m + (if isData then 1 else 0)
             && (isData ==> m < 3 * n && m - offset < |t| && t' == t[m - offset := TableEntry(n, m)])
             && (!isData ==> t' == t)
    ensures Generated(n, t', offset, k', p + 1)
  {
    hide Occupied, K0Seen, TableEntry, Kept, Padded;
    var c := |Kept(Occupied(n), p)|;
    forall m | offset <= m < |Kept(Occupied(n), p + 1)|
      ensures EntryReady(n, t', offset, m)
    {
      if m < c {
        assert EntryReady(n, t, offset, m);
      }
    }
  }

  lemma NothingGenerated(n: nat, table: seq<nat>, k0v: seq<int>)
    requires n > 0 && |k0v| == 4 && forall i :: 0 <= i < 4 ==> k0v[i] == -1
    ensures Generated(n, table, 0, k0v, 0)
  {
  }

  /** srslte_rm_turbo_gentable_systematic */
  method GenTableSystematic(table: array<nat>, k0v: array<int>, n: nat)
    requires n > 0 && table.Length >= n && k0v.Length == 4
    requires forall i :: 0 <= i < 4 ==> k0v[i] == -1
    modifies table, k0v
    ensures Generated(n, table[..], 0, k0v[..], Padded(n)) && |Kept(Occupied(n), Padded(n))| == n
  {
    NothingGenerated(n, table[..], k0v[..]);
    SystematicPart(n);
    var kb, buffIdx := 0, 0;
    assert |Kept(Occupied(n), 0)| == 0;
    hide Generated, Kept, Rows, Occupied, Padded;
    for j := 0 to NCOLS
      invariant buffIdx == Rows(n) * j <= Padded(n)
      invariant kb == |Kept(Occupied(n), buffIdx)| && Generated(n, table[..], 0, k0v[..], buffIdx)
    {
      ColumnBound(n, j);
      kb, buffIdx := SystematicColumn(table, k0v, n, j, kb, buffIdx);
    }
    ColumnBound(n, 31);
  }

  lemma ColumnBound(n: nat, j: nat)
    requires n > 0 && j < NCOLS
    ensures Rows(n) * j + Rows(n) == Rows(n) * (j + 1) <= Padded(n) == Rows(n) * NCOLS
  {
    NumberTheory.MulOrder(Rows(n), j + 1, NCOLS);
    NumberTheory.MulOrder(Rows(n), NCOLS, j + 1);
  }

  /** The inner loop of the systematic generator. */
  method SystematicColumn(table: array<nat>, k0v: array<int>, n: nat, j: nat, kb0: nat, idx0: nat)
    returns (kb: nat, buffIdx: nat)
    requires n > 0 && table.Length >= n && k0v.Length == 4 && j < NCOLS
    requires idx0 == Rows(n) * j && idx0 + Rows(n) <= Padded(n)
    requires kb0 == |Kept(Occupied(n), idx0)| && Generated(n, table[..], 0, k0v[..], idx0)
    modifies table, k0v
    ensures buffIdx == idx0 + Rows(n)
    ensures kb == |Kept(Occupied(n), buffIdx)| && Generated(n, table[..], 0, k0v[..], buffIdx)
  {
    hide Generated, Kept, PermTc, Rows, Occupied, TableEntry;
    var ndummy := Dummies(n);
    kb, buffIdx := kb0, idx0;
    for i := 0 to Rows(n)
      invariant buffIdx == idx0 + i <= Padded(n)
      invariant kb == |Kept(Occupied(n), buffIdx)| && Generated(n, table[..], 0, k0v[..], buffIdx)
    {
      SystematicVisit(n, j, i, buffIdx);
      var x := i * NCOLS + PermTc(j);
      kb := VisitPosition(table, k0v, n, kb, x >= ndummy, if x >= ndummy then x - ndummy else 0, 0, buffIdx, buffIdx);
      buffIdx := buffIdx + 1;
    }
  }

  lemma SystematicVisit(n: nat, j: nat, i: nat, p: nat)
    requires n > 0 && j < NCOLS && i < Rows(n) && p == Rows(n) * j + i < Padded(n)
    ensures var x := i * NCOLS + PermTc(j);
            && (Occupied(n)[p] <==> x >= Dummies(n))
            && |Kept(Occupied(n), p + 1)| == |Kept(Occupied(n), p)| + (if x >= Dummies(n) then 1 else 0)
            && (x >= Dummies(n) ==>
                  |Kept(Occupied(n), p)| < n && TableEntry(n, |Kept(Occupied(n), p)|) == x - Dummies(n))
  {
    hide PermTc, TableEntry, Occupied, Kept;
    var x := i * NCOLS + PermTc(j);
    ColumnRow(Rows(n), j, i);
    assert p == j * Rows(n) + i;
    VisitCell(n, p, 0, x);
    if x >= Dummies(n) {
      SystematicPart(n);
      KeptPrefix(Occupied(n), p + 1, Padded(n));
    }
  }

  lemma NoneYet(n: nat, table: seq<nat>, k0v: seq<int>)
    requires n > 0 && Generated(n, [], n, k0v, Padded(n)) && |Kept(Occupied(n), Padded(n))| == n
    ensures Generated(n, table, n, k0v, Padded(n))
  {
  }

  /** srslte_rm_turbo_gentable_parity, with offset n; buffIdx counts the pairs already visited. */
  method GenTableParity(table: array<nat>, k0v: array<int>, n: nat)
    requires n > 0 && table.Length >= 2 * n && k0v.Length == 4
    requires Generated(n, [], n, k0v[..], Padded(n)) && |Kept(Occupied(n), Padded(n))| == n
    modifies table, k0v
    ensures Generated(n, table[..], n, k0v[..], 3 * Padded(n))
  {
    hide Generated, Kept, Rows, Occupied, Padded, SlotAt, TableEntry;
    NoneYet(n, table[..], k0v[..]);
    var kb, buffIdx := 0, 0;
    for j := 0 to NCOLS
      invariant buffIdx == Rows(n) * j <= Padded(n)
      invariant n + kb == |Kept(Occupied(n), Padded(n) + 2 * buffIdx)|
      invariant Generated(n, table[..], n, k0v[..], Padded(n) + 2 * buffIdx)
    {
      ColumnBound(n, j);
      kb, buffIdx := ParityColumn(table, k0v, n, j, kb, buffIdx);
    }
    ColumnBound(n, 31);
  }

  /** The inner loop of the parity generator. */
  method ParityColumn(table: array<nat>, k0v: array<int>, n: nat, j: nat, kb0: nat, idx0: nat)
    returns (kb: nat, buffIdx: nat)
    requires n > 0 && table.Length >= 2 * n && k0v.Length == 4 && j < NCOLS
    requires idx0 == Rows(n) * j && idx0 + Rows(n) <= Padded(n) && |Kept(Occupied(n), Padded(n))| == n
    requires n + kb0 == |Kept(Occupied(n), Padded(n) + 2 * idx0)|
    requires Generated(n, table[..], n, k0v[..], Padded(n) + 2 * idx0)
    modifies table, k0v
    ensures buffIdx == idx0 + Rows(n)
    ensures n + kb == |Kept(Occupied(n), Padded(n) + 2 * buffIdx)|
    ensures Generated(n, table[..], n, k0v[..], Padded(n) + 2 * buffIdx)
  {
    hide Generated, Kept, PermTc, Rows, Occupied, TableEntry, Padded, Dummies;
    var nrows, ndummy, kp := Rows(n), Dummies(n), Padded(n);
    kb, buffIdx := kb0, idx0;
    for i := 0 to nrows
      invariant buffIdx == idx0 + i <= kp
      invariant n + kb == |Kept(Occupied(n), kp + 2 * buffIdx)| && Generated(n, table[..], n, k0v[..], kp + 2 * buffIdx)
    {
      ParityVisit(n, j, i, buffIdx);
      var p := kp + 2 * buffIdx;
      var x := i * NCOLS + PermTc(j);
      kb := VisitPosition(table, k0v, n, kb, x >= ndummy, if x >= ndummy then x - ndummy else 0, n, p,
                          2 * buffIdx + kp);
      var kidx := (PermTc(buffIdx / nrows) + NCOLS * (buffIdx % nrows) + 1) % kp;
      kb := VisitPosition(table, k0v, n, kb, kidx - ndummy >= 0, if kidx >= ndummy then kidx - ndummy + n else 0, n,
                          p + 1, 2 * buffIdx + 1 + kp);
      buffIdx := buffIdx + 1;
    }
  }

  lemma ParityVisit(n: nat, j: nat, i: nat, b: nat)
    requires n > 0 && j < NCOLS && i < Rows(n) && b == Rows(n) * j + i < Padded(n)
    requires |Kept(Occupied(n), Padded(n))| == n
    ensures b / Rows(n) == j && b % Rows(n) == i
    ensures var x, kp := i * NCOLS + PermTc(j), Padded(n);
            var p, y := kp + 2 * b, (x + 1) % kp;
            && (Occupied(n)[p] <==> x >= Dummies(n))
            && |Kept(Occupied(n), p + 1)| == |Kept(Occupied(n), p)| + (if x >= Dummies(n) then 1 else 0)
            && (x >= Dummies(n) ==>
                  n <= |Kept(Occupied(n), p)| < 3 * n && TableEntry(n, |Kept(Occupied(n), p)|) == x - Dummies(n))
            && (Occupied(n)[p + 1] <==> y >= Dummies(n))
            && |Kept(Occupied(n), p + 2)| == |Kept(Occupied(n), p + 1)| + (if y >= Dummies(n) then 1 else 0)
            && (y >= Dummies(n) ==> n <= |Kept(Occupied(n), p + 1)| < 3 * n
                                    && TableEntry(n, |Kept(Occupied(n), p + 1)|) == y - Dummies(n) + n)
  {
    hide PermTc, TableEntry, Occupied, Kept;
    var x, kp := i * NCOLS + PermTc(j), Padded(n);
    var p, y := kp + 2 * b, (x + 1) % kp;
    ColumnRow(Rows(n), j, i);
    assert b == j * Rows(n) + i;
    assert (p - kp) / 2 == b && (p + 1 - kp) / 2 == b && (p + 1 - kp) % 2 == 1;
    VisitCell(n, p, 1, x);
    VisitCell(n, p + 1, 2, y);
    KeptPrefix(Occupied(n), kp, p);
    KeptPrefix(Occupied(n), kp, p + 1);
  }
}

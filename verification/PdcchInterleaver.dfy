/** The interleaving of the control channel's element groups (section 6.8.5 of TS 36.211). */
module PdcchInterleaver {
  import opened NumberTheory
  import opened Permutations
  import opened SubBlock
  import opened CircularBuffer
  import opened TurboCircularBuffer

  /** The positions of the padded matrix that hold a group, read column by column. */
  ghost function Filled(n: nat): (keep: seq<bool>)
    requires n > 0
    ensures |keep| == Padded(n)
  {
    seq(Padded(n), q requires 0 <= q < Padded(n) => Cell(Cc(), Rows(n), q) >= Dummies(n))
  }

  lemma FilledAt(n: nat, q: nat)
    requires n > 0 && q < Padded(n)
    ensures Filled(n)[q] == (Cell(Cc(), Rows(n), q) >= Dummies(n))
    ensures Cell(Cc(), Rows(n), q) < Padded(n) && Place(CcInv(), Rows(n), Cell(Cc(), Rows(n), q)) == q
  {
    hide Cell, Place, Cc, CcInv;
    ColumnTables();
    PlaceOfCell(Cc(), CcInv(), Rows(n), q);
  }

  /** Where group m of the interleaved list is read. */
  function ReadAt(n: nat, m: nat): (q: nat)
    requires n > 0
  {
    Place(CcInv(), Rows(n), m + Dummies(n))
  }

  lemma ReadAtIs(n: nat, m: nat)
    requires m < n
    ensures ReadAt(n, m) < Padded(n) && Filled(n)[ReadAt(n, m)]
    ensures Cell(Cc(), Rows(n), ReadAt(n, m)) == m + Dummies(n)
  {
    hide Cell, Place, Cc, CcInv;
    ColumnTables();
    CellOfPlace(Cc(), CcInv(), Rows(n), m + Dummies(n));
    FilledAt(n, ReadAt(n, m));
  }

  ghost function Rank(n: nat, q: nat): nat
    requires n > 0 && q <= Padded(n)
  {
    |Kept(Filled(n), q)|
  }

  lemma RankOrder(n: nat, q: nat, q': nat)
    requires n > 0 && q < q' < Padded(n) && Filled(n)[q]
    ensures Rank(n, q) < Rank(n, q')
  {
    hide Kept;
    KeptBelow(Filled(n), q, q');
  }

  ghost function Ranks(n: nat): (r: seq<nat>)
    requires n > 0
    ensures |r| == n
  {
    seq<nat>(n, m requires 0 <= m < n => (ReadAtIs(n, m); Rank(n, ReadAt(n, m))))
  }

  /** The groups of the interleaved list are read as 0, 1, ..., n - 1 in some order. */
  lemma RanksArePermutation(n: nat)
    requires n > 0
    ensures IsPermutation(Ranks(n)) && Total(Filled(n)) == n
  {
    hide Kept, Cell, ReadAt, Filled;
    var cells := seq<nat>(Total(Filled(n)), k requires 0 <= k < Total(Filled(n)) => CellNumber(n, k));
    forall i, j | 0 <= i < j < |cells|
      ensures cells[i] != cells[j]
    {
      CellNumbersDiffer(n, i, j);
    }
    DistinctCardinality(cells);
    forall m | 0 <= m < n
      ensures m in cells
    {
      ReadAtIs(n, m);
      KeptAt(Filled(n), ReadAt(n, m));
      var k := |Kept(Filled(n), ReadAt(n, m))|;
      assert cells[k] == m;
    }
    assert Elements(cells) == Below(n);
    forall i, j | 0 <= i < j < n
      ensures Ranks(n)[i] != Ranks(n)[j]
    {
      RanksDiffer(n, i, j);
    }
    forall i | 0 <= i < n
      ensures Ranks(n)[i] < n
    {
      ReadAtIs(n, i);
      KeptAt(Filled(n), ReadAt(n, i));
    }
  }

  lemma RanksDiffer(n: nat, i: nat, j: nat)
    requires i < j < n
    ensures Ranks(n)[i] != Ranks(n)[j]
  {
    hide Kept, Cell, ReadAt, Filled, Rank;
    ReadAtIs(n, i);
    ReadAtIs(n, j);
    var q, q' := ReadAt(n, i), ReadAt(n, j);
    if q < q' { RankOrder(n, q, q'); } else if q' < q { RankOrder(n, q', q); }
  }

  /** The group found at the k-th position read. */
  ghost function CellNumber(n: nat, k: nat): (m: nat)
    requires n > 0 && k < Total(Filled(n))
    ensures m < n
  {
    var q := Kept(Filled(n), Padded(n))[k];
    FilledAt(n, q);
    Cell(Cc(), Rows(n), q) - Dummies(n)
  }

  lemma CellNumbersDiffer(n: nat, i: nat, j: nat)
    requires n > 0 && i < j < Total(Filled(n))
    ensures CellNumber(n, i) != CellNumber(n, j)
  {
    hide Kept, Cell, Filled, Place;
    var q, q' := Kept(Filled(n), Padded(n))[i], Kept(Filled(n), Padded(n))[j];
    KeptIncreasing(Filled(n), Padded(n), i, j);
    FilledAt(n, q);
    FilledAt(n, q');
  }

  /** The cyclic shift by the cell identity. */
  function Shifted(n: nat, id: nat, k: nat): (p: nat)
    requires n > 0
    ensures p < n
  {
    (k - id) % n
  }

  lemma ShiftFormula(n: nat, id: nat, k: nat)
    requires n > 0
    ensures k < id ==> (n + k - id % n) % n == Shifted(n, id, k)
    ensures k >= id ==> (k - id) % n == Shifted(n, id, k)
  {
    var q := id / n;
    assert id == n * q + id % n;
    var t, r := (n + k - id % n) / n, (n + k - id % n) % n;
    assert n + k - id % n == n * t + r;
    assert k - id == n * (t - q - 1) + r by { assert n * (t - q - 1) == n * t - n * q - n; }
    ModUnique(k - id, n, t - q - 1, r);
  }

  lemma ShiftedDiffer(n: nat, id: nat, k: nat, k': nat)
    requires k < k' < n
    ensures Shifted(n, id, k) != Shifted(n, id, k')
  {
    if Shifted(n, id, k) == Shifted(n, id, k') {
      var a, b := (k - id) / n, (k' - id) / n;
      assert k' - k == n * (b - a) by {
        assert k - id == n * a + Shifted(n, id, k);
        assert k' - id == n * b + Shifted(n, id, k');
        assert n * (b - a) == n * b - n * a;
      }
      ModUnique(k' - k, n, b - a, 0);
      ModUnique(k' - k, n, 0, k' - k);
    }
  }

  /** Which group of the numbered list comes m-th after interleaving. */
  ghost function Order(n: nat, id: nat): (p: seq<nat>)
    requires n > 0
    ensures |p| == n
  {
    seq<nat>(n, m requires 0 <= m < n => Shifted(n, id, Ranks(n)[m]))
  }

  /** The interleaver by the row i and the column j of the matrix: the cell there holds a group behind the
      dummies, and its group goes as far into the list as groups are read before it, less the cell
      identity. */
  lemma ReadsByColumns(n: nat, id: nat, rows: nat, j: nat, i: nat)
    requires 32 * rows - 32 < n <= 32 * rows && j < 32 && i < rows
    ensures var x, d, q := 32 * i + PermCc(j), 32 * rows - n, j * rows + i;
            && 0 <= q < Padded(n) && Padded(n) == 32 * rows
            && (Filled(n)[q] <==> x >= d)
            && (x >= d ==> x - d < n && Order(n, id)[x - d] == (|Kept(Filled(n), q)| - id) % n)
  {
    hide PermCc, Cell, Kept, Place;
    assert Rows(n) == rows;
    CellIs(Cc(), rows, j, i);
    var x, d, q := 32 * i + PermCc(j), 32 * rows - n, j * rows + i;
    FilledAt(n, q);
    if x >= d { ReadAtIs(n, x - d); }
  }

  lemma OrderIsPermutation(n: nat, id: nat)
    requires n > 0
    ensures IsPermutation(Order(n, id))
  {
    hide Ranks, Shifted;
    RanksArePermutation(n);
    var r := Ranks(n);
    forall i, j | 0 <= i < j < n
      ensures Order(n, id)[i] != Order(n, id)[j]
    {
      if r[i] < r[j] { ShiftedDiffer(n, id, r[i], r[j]); } else { ShiftedDiffer(n, id, r[j], r[i]); }
    }
  }

  // Everything read before position q has been placed.
  ghost predicate Placed(tmp: seq<nat>, out: seq<nat>, id: nat, q: nat)
    requires tmp != []
  {
    && |out| == |tmp| && q <= Padded(|tmp|)
    && forall m :: 0 <= m < |tmp| && ReadAt(|tmp|, m) < q ==> out[m] == tmp[Order(|tmp|, id)[m]]
  }

  lemma PlacedAll(tmp: seq<nat>, out: seq<nat>, id: nat)
    requires tmp != [] && Placed(tmp, out, id, Padded(|tmp|))
    ensures forall m :: 0 <= m < |tmp| ==> Order(|tmp|, id)[m] < |tmp| && out[m] == tmp[Order(|tmp|, id)[m]]
  {
    hide ReadAt, Order;
    OrderIsPermutation(|tmp|, id);
    forall m | 0 <= m < |tmp|
      ensures ReadAt(|tmp|, m) < Padded(|tmp|)
    {
      ReadAtIs(|tmp|, m);
    }
  }

  lemma PlacedStep(tmp: seq<nat>, out: seq<nat>, out': seq<nat>, id: nat, q: nat)
    requires tmp != [] && q < Padded(|tmp|) && Placed(tmp, out, id, q)
    requires var n, x := |tmp|, Cell(Cc(), Rows(|tmp|), q);
             if x < Dummies(n) then out' == out
             else x - Dummies(n) < n && out' == out[x - Dummies(n) := tmp[Shifted(n, id, Rank(n, q))]]
    ensures Placed(tmp, out', id, q + 1)
  {
    hide Place, Rank, Cell, Shifted, Filled, Kept;
    var n := |tmp|;
    FilledAt(n, q);
    forall m | 0 <= m < n && ReadAt(n, m) < q + 1
      ensures out'[m] == tmp[Order(n, id)[m]]
    {
      ReadAtIs(n, m);
    }
  }

  lemma CellAt(n: nat, j: nat, i: nat)
    requires n > 0 && j < NCOLS && i < Rows(n)
    ensures var q := j * Rows(n) + i;
            && 0 <= q < Padded(n) && Cell(Cc(), Rows(n), q) == i * NCOLS + PermCc(j) < Padded(n)
            && Rank(n, q + 1) == Rank(n, q) + if i * NCOLS + PermCc(j) >= Dummies(n) then 1 else 0
  {
    hide Kept;
    var q := j * Rows(n) + i;
    ModUnique(q, Rows(n), j, i);
    MulOrder(Rows(n), j, NCOLS);
    MulNonNegative(j, Rows(n));
    assert Cc()[j] == PermCc(j);
    FilledAt(n, q);
    KeptStep(Filled(n), q);
  }

  /** Interleaves the list column by column of a 32-column matrix and shifts it by the cell identity. */
  method Interleave(tmp: seq<nat>, id: nat) returns (out: array<nat>)
    requires tmp != []
    ensures fresh(out) && out.Length == |tmp|
    ensures forall m :: 0 <= m < |tmp| ==> Order(|tmp|, id)[m] < |tmp| && out[m] == tmp[Order(|tmp|, id)[m]]
  {
    hide Placed, Rank, Order;
    var nofRegs := |tmp|;
    out := new nat[nofRegs];
    var nrows := (nofRegs - 1) / NCOLS + 1;
    assert nrows == Rows(nofRegs);
    var ndummy := NCOLS * nrows - nofRegs;
    StartPlaced(tmp, out[..], id);
    var k, j := 0, 0;
    while j < NCOLS
      invariant j <= NCOLS && 0 <= j * nrows <= Padded(nofRegs) && k == Rank(nofRegs, j * nrows)
      invariant Placed(tmp, out[..], id, j * nrows)
    {
      k := InterleaveColumn(tmp, id, out, j, k);
      NextColumn(nrows, j);
      j := j + 1;
    }
    PlacedAll(tmp, out[..], id);
  }

  lemma StartPlaced(tmp: seq<nat>, out: seq<nat>, id: nat)
    requires tmp != [] && |out| == |tmp|
    ensures Placed(tmp, out, id, 0) && Rank(|tmp|, 0) == 0
  {
  }

  lemma NextColumn(nrows: nat, j: nat)
    requires j < NCOLS
    ensures j * nrows + nrows == (j + 1) * nrows <= NCOLS * nrows
  {
    if nrows > 0 { MulOrder(nrows, j, NCOLS); }
  }

  method InterleaveColumn(tmp: seq<nat>, id: nat, out: array<nat>, j: nat, k0: nat) returns (k: nat)
    requires tmp != [] && out.Length == |tmp| && j < NCOLS && 0 <= j * Rows(|tmp|) <= Padded(|tmp|)
    requires k0 == Rank(|tmp|, j * Rows(|tmp|)) && Placed(tmp, out[..], id, j * Rows(|tmp|))
    modifies out
    ensures 0 <= (j + 1) * Rows(|tmp|) <= Padded(|tmp|)
    ensures k == Rank(|tmp|, (j + 1) * Rows(|tmp|)) && Placed(tmp, out[..], id, (j + 1) * Rows(|tmp|))
  {
    hide Placed, Rank, Order, Cell, Shifted;
    var n, nrows := |tmp|, Rows(|tmp|);
    var ndummy := Dummies(n);
    NextColumn(nrows, j);
    k := k0;
    var i := 0;
    ghost var q := j * nrows;
    while i < nrows
      invariant i <= nrows && q == j * nrows + i <= Padded(n) && k == Rank(n, q) && Placed(tmp, out[..], id, q)
    {
      CellAt(n, j, i);
      ghost var was := out[..];
      if i * NCOLS + PermCc(j) >= ndummy {
        var m := i * NCOLS + PermCc(j) - ndummy;
        ShiftFormula(n, id, k);
        var kp := if k < id then (n + k - id % n) % n else (k - id) % n;
        out[m] := tmp[kp];
        k := k + 1;
      }
      PlacedStep(tmp, was, out[..], id, q);
      q := q + 1;
      i := i + 1;
    }
  }
}

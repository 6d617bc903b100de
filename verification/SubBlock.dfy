/** The 32-column sub-block interleaver shared by the rate matchers and the PDCCH mapping
    (sections 5.1.4.1.1 and 5.1.4.2.1 of TS 36.212): written row by row, read column by column
    with the columns permuted. */
module SubBlock {
  import opened NumberTheory
  import opened Permutations
  import opened CodeBlockSizes

  const NCOLS := 32

  /** RM_PERM_TC */
  function PermTc(j: nat): (c: nat)
    requires j < NCOLS
    ensures c < NCOLS
  {
    if j < 8 then Of8(j, 0, 16, 8, 24, 4, 20, 12, 28)
    else if j < 16 then Of8(j - 8, 2, 18, 10, 26, 6, 22, 14, 30)
    else if j < 24 then Of8(j - 16, 1, 17, 9, 25, 5, 21, 13, 29)
    else Of8(j - 24, 3, 19, 11, 27, 7, 23, 15, 31)
  }

  /** RM_PERM_CC and PDCCH_PERM */
  function PermCc(j: nat): (c: nat)
    requires j < NCOLS
    ensures c < NCOLS
  {
    if j < 8 then Of8(j, 1, 17, 9, 25, 5, 21, 13, 29)
    else if j < 16 then Of8(j - 8, 3, 19, 11, 27, 7, 23, 15, 31)
    else if j < 24 then Of8(j - 16, 0, 16, 8, 24, 4, 20, 12, 28)
    else Of8(j - 24, 2, 18, 10, 26, 6, 22, 14, 30)
  }

  /** RM_PERM_CC_INV */
  function PermCcInv(j: nat): (c: nat)
    requires j < NCOLS
    ensures c < NCOLS
  {
    if j < 8 then Of8(j, 16, 0, 24, 8, 20, 4, 28, 12)
    else if j < 16 then Of8(j - 8, 18, 2, 26, 10, 22, 6, 30, 14)
    else if j < 24 then Of8(j - 16, 17, 1, 25, 9, 21, 5, 29, 13)
    else Of8(j - 24, 19, 3, 27, 11, 23, 7, 31, 15)
  }

  function Bit(b: bool): nat {
    if b then 1 else 0
  }

  /** The turbo permutation reverses the five bits of the column number; the convolutional one flips
      the lowest bit of the result. */
  lemma PermsReverseBits(a: bool, b: bool, c: bool, d: bool, e: bool)
    ensures var j := 16 * Bit(a) + 8 * Bit(b) + 4 * Bit(c) + 2 * Bit(d) + Bit(e);
            && PermTc(j) == 16 * Bit(e) + 8 * Bit(d) + 4 * Bit(c) + 2 * Bit(b) + Bit(a)
            && PermCc(j) == 16 * Bit(e) + 8 * Bit(d) + 4 * Bit(c) + 2 * Bit(b) + Bit(!a)
  {
  }

  function Tc(): (t: seq<nat>)
    ensures |t| == NCOLS
  {
    seq(NCOLS, j requires 0 <= j < NCOLS => PermTc(j))
  }

  function Cc(): (t: seq<nat>)
    ensures |t| == NCOLS
  {
    seq(NCOLS, j requires 0 <= j < NCOLS => PermCc(j))
  }

  function CcInv(): (t: seq<nat>)
    ensures |t| == NCOLS
  {
    seq(NCOLS, j requires 0 <= j < NCOLS => PermCcInv(j))
  }

  lemma PermTcInvolution(j: nat)
    requires j < NCOLS
    ensures PermTc(PermTc(j)) == j
  {
  }

  lemma PermCcInverse(j: nat)
    requires j < NCOLS
    ensures PermCcInv(PermCc(j)) == j && PermCc(PermCcInv(j)) == j
  {
  }

  /** The turbo column permutation is its own inverse; the convolutional one has the table's. */
  lemma ColumnTables()
    ensures MutuallyInverse(Tc(), Tc()) && MutuallyInverse(Cc(), CcInv())
  {
    forall j | 0 <= j < NCOLS
      ensures Tc()[j] < NCOLS && Tc()[Tc()[j]] == j
      ensures Cc()[j] < NCOLS && CcInv()[j] < NCOLS && CcInv()[Cc()[j]] == j && Cc()[CcInv()[j]] == j
    {
      PermTcInvolution(j);
      PermCcInverse(j);
    }
  }

  /** A column permutation with its inverse. */
  ghost predicate Columns(perm: seq<nat>, inv: seq<nat>) {
    |perm| == NCOLS && MutuallyInverse(perm, inv)
  }

  /** The cell of a matrix of the given number of rows that is read k-th. */
  function Cell(perm: seq<nat>, rows: nat, k: nat): nat
    requires |perm| == NCOLS && k < NCOLS * rows
  {
    MulOrder(rows, k / rows, NCOLS);
    (k % rows) * NCOLS + perm[k / rows]
  }

  /** Read column by column: row i of column j comes j * rows + i-th. */
  lemma CellIs(perm: seq<nat>, rows: nat, j: nat, i: nat)
    requires |perm| == NCOLS && j < NCOLS && i < rows
    ensures 0 <= j * rows + i < NCOLS * rows && Cell(perm, rows, j * rows + i) == 32 * i + perm[j]
  {
    MulNonNegative(j, rows);
    MulOrder(rows, j, NCOLS);
    ModUnique(j * rows + i, rows, j, i);
  }

  /** When cell x is read. */
  function Place(inv: seq<nat>, rows: nat, x: nat): nat
    requires |inv| == NCOLS
  {
    x / NCOLS + rows * inv[x % NCOLS]
  }

  lemma DivBound(k: nat, rows: nat)
    requires rows > 0 && k < NCOLS * rows
    ensures k / rows < NCOLS
  {
    MulOrder(rows, NCOLS, k / rows + 1);
  }

  lemma PlaceOfCell(perm: seq<nat>, inv: seq<nat>, rows: nat, k: nat)
    requires Columns(perm, inv) && k < NCOLS * rows
    ensures Cell(perm, rows, k) < NCOLS * rows && Place(inv, rows, Cell(perm, rows, k)) == k
  {
    DivBound(k, rows);
    var x := Cell(perm, rows, k);
    assert perm[k / rows] < NCOLS && inv[perm[k / rows]] == k / rows;
    ModUnique(x, NCOLS, k % rows, perm[k / rows]);
    assert k == rows * (k / rows) + k % rows;
  }

  lemma CellOfPlace(perm: seq<nat>, inv: seq<nat>, rows: nat, x: nat)
    requires Columns(perm, inv) && x < NCOLS * rows
    ensures Place(inv, rows, x) < NCOLS * rows && Cell(perm, rows, Place(inv, rows, x)) == x
  {
    var c := inv[x % NCOLS];
    assert perm[c] == x % NCOLS;
    assert x / NCOLS < rows;
    MulOrder(rows, c, NCOLS - 1);
    assert rows * (NCOLS - 1) == NCOLS * rows - rows;
    ModUnique(Place(inv, rows, x), rows, c, x / NCOLS);
  }
}

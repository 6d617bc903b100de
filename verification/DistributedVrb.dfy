/** Distributed virtual resource blocks (srslte/lib/phch/ra.c, section 6.2.3.2 of TS 36.211): an
    interleaver followed by a gap. */
module DistributedVrb {
  import opened NumberTheory
  import opened Permutations

  /** srslte_ra_type0_P */
  function Type0P(nofPrb: nat): (p: nat)
    ensures 1 <= p <= 4
  {
    if nofPrb <= 10 then 1 else if nofPrb <= 26 then 2 else if nofPrb <= 63 then 3 else 4
  }

  /** srslte_ra_type2_ngap, for the first or the second gap */
  function Gap(nofPrb: nat, first: bool): nat {
    if nofPrb <= 10 then nofPrb / 2
    else if nofPrb == 11 then 4
    else if nofPrb <= 19 then 8
    else if nofPrb <= 26 then 12
    else if nofPrb <= 44 then 18
    else if nofPrb <= 49 then 27
    else if nofPrb <= 63 then if first then 27 else 9
    else if nofPrb <= 79 then if first then 32 else 16
    else if first then 48 else 16
  }

  /** srslte_ra_type2_n_vrb_dl for the first gap */
  function Vrbs(nofPrb: nat): nat
    requires Gap(nofPrb, true) <= nofPrb
  {
    2 * if Gap(nofPrb, true) < nofPrb - Gap(nofPrb, true) then Gap(nofPrb, true) else nofPrb - Gap(nofPrb, true)
  }

  /** N_tilde_vrb as the grant computes it: for the second gap twice the number of the first. */
  function Places(nofPrb: nat, first: bool): nat
    requires Gap(nofPrb, true) <= nofPrb
  {
    if first then Vrbs(nofPrb) else 2 * Vrbs(nofPrb)
  }

  /** Rows of the four-column interleaver. */
  function Rows(nofPrb: nat, first: bool): nat
    requires Gap(nofPrb, true) <= nofPrb
  {
    CeilDiv(Places(nofPrb, first), 4 * Type0P(nofPrb)) * Type0P(nofPrb)
  }

  /** Virtual blocks of a carrier. With the second gap they are whole groups of twice the gap
      (section 6.2.3.2 of TS 36.211). */
  function Range(nofPrb: nat, first: bool): nat
    requires Gap(nofPrb, true) <= nofPrb && Gap(nofPrb, first) > 0
  {
    if first then Vrbs(nofPrb) else nofPrb / (2 * Gap(nofPrb, first)) * (2 * Gap(nofPrb, first))
  }

  /** An interleaver of v places in 4 columns of r rows, z of them missing at the end of the
      second and of the fourth column. */
  ghost predicate Shape(v: nat, r: nat, z: nat) {
    v + 2 * z == 4 * r && z <= r
  }

  /** The second gap is for 50 blocks or more. */
  predicate Bandwidth(nofPrb: nat, first: bool) {
    (if first then 6 else 50) <= nofPrb <= 110
  }

  /** Rounding up to whole multiples of p rows gives such a shape. */
  lemma RoundedShape(v: nat, p: nat)
    requires 1 <= p <= 4 && v % 2 == 0 && v >= 2 * p
    ensures var r := CeilDiv(v, 4 * p) * p;
            v <= 4 * r < v + 4 * p && Shape(v, r, (4 * r - v) / 2)
  {
    hide CeilDiv;
    var q := CeilDiv(v, 4 * p);
    RoundUp(v, 4 * p, q);
    FourTimes(p, q);
    ShapeOfRows(v, p, q * p);
  }

  lemma FourTimes(p: nat, q: nat)
    requires q >= 1
    ensures 4 * p * q == 4 * (q * p) && (q == 1 ==> q * p == p) && (q > 1 ==> q * p >= 2 * p)
  {
    if q > 1 { assert q * p == 2 * p + (q - 2) * p; }
  }

  lemma ShapeOfRows(v: nat, p: nat, r: nat)
    requires v % 2 == 0 && v >= 2 * p && v <= 4 * r < v + 4 * p && (r == p || r >= 2 * p)
    ensures Shape(v, r, (4 * r - v) / 2)
  {
    var w := v / 2;
    assert v == 2 * w && 4 * r - v == 2 * (2 * r - w);
    assert (4 * r - v) / 2 == 2 * r - w;
  }

  lemma RoundUp(v: nat, k: nat, q: nat)
    requires k > 0 && v > 0 && q == CeilDiv(v, k)
    ensures q >= 1 && v <= k * q < v + k
  {
  }

  /** The bandwidths of a cell have an even number of places, and both halves fit. */
  lemma BandwidthShape(nofPrb: nat)
    requires 6 <= nofPrb <= 110
    ensures 0 < Gap(nofPrb, true) <= nofPrb
    ensures var v, r := Places(nofPrb, true), Rows(nofPrb, true);
            v > 0 && v % 2 == 0 && 4 * r >= v && Shape(v, r, (4 * r - v) / 2)
    ensures Vrbs(nofPrb) / 2 <= Gap(nofPrb, true) && Vrbs(nofPrb) / 2 + Gap(nofPrb, true) <= nofPrb
  {
    hide Shape, CeilDiv;
    RoundedShape(Vrbs(nofPrb), Type0P(nofPrb));
  }

  /** With the second gap the rows are many against the gap, and what the standard allows stays
      within them. */
  lemma SecondShape(nofPrb: nat)
    requires 50 <= nofPrb <= 110
    ensures Gap(nofPrb, true) <= nofPrb
    ensures var v, r, gap := Places(nofPrb, false), Rows(nofPrb, false), Gap(nofPrb, false);
            && v > 0 && v % 2 == 0 && 4 * r >= v && Shape(v, r, (4 * r - v) / 2)
            && 0 < gap && 2 * gap <= r && Range(nofPrb, false) <= 4 * (r - (4 * r - v) / 2)
            && Range(nofPrb, false) + 4 * gap <= 4 * r && Range(nofPrb, false) + 4 * r <= 2 * v
            && Range(nofPrb, false) + 4 * (r + gap) <= 4 * nofPrb
  {
    if nofPrb <= 63 {
      assert Type0P(nofPrb) == 3 && Gap(nofPrb, false) == 9;
      assert Range(nofPrb, false) == nofPrb / 18 * 18;
    } else if nofPrb <= 79 {
      assert Vrbs(nofPrb) == 64;
    } else {
      assert Type0P(nofPrb) == 4 && Gap(nofPrb, false) == 16;
      assert Range(nofPrb, false) == nofPrb / 32 * 32;
    }
  }

  /** The carriers of TS 36.104: gaps, virtual blocks and rows. */
  lemma StandardCarriers()
    ensures Gap(6, true) == 3 && Vrbs(6) == 6 && Rows(6, true) == 2
    ensures Gap(15, true) == 8 && Vrbs(15) == 14 && Rows(15, true) == 4
    ensures Gap(25, true) == 12 && Vrbs(25) == 24 && Rows(25, true) == 6
    ensures Gap(50, true) == 27 && Vrbs(50) == 46 && Rows(50, true) == 12 && Gap(50, false) == 9
    ensures Gap(75, true) == 32 && Vrbs(75) == 64 && Rows(75, true) == 16 && Gap(75, false) == 16
    ensures Gap(100, true) == 48 && Vrbs(100) == 96 && Rows(100, true) == 24 && Gap(100, false) == 16
  {
  }

  /** Where place n goes, as the code computes it. */
  function Spread(v: nat, r: nat, n: nat): int {
    var nNull := 4 * r - v;
    var prb := 2 * r * (n % 2) + n / 2;
    var prb2 := r * (n % 4) + n / 4;
    if nNull != 0 && n >= v - nNull && n % 2 == 1 then prb - r
    else if nNull != 0 && n >= v - nNull && n % 2 == 0 then prb - r + nNull / 2
    else if nNull != 0 && n < v - nNull && n % 4 >= 2 then prb2 - nNull / 2
    else prb2
  }

  /** Row and column written n-th: four to a row, then two to a row. */
  function RowOf(r: nat, z: nat, n: nat): nat
    requires z <= r
  {
    if n < 4 * (r - z) then n / 4 else r - z + (n - 4 * (r - z)) / 2
  }

  function ColumnOf(r: nat, z: nat, n: nat): (c: nat)
    requires z <= r
    ensures c < 4
  {
    if n < 4 * (r - z) then n % 4 else 2 * (n % 2)
  }

  /** First place of a column when reading down the columns. */
  function ColumnStart(r: nat, z: nat, c: nat): nat
    requires z <= r
  {
    if c == 0 then 0 else if c == 1 then r else if c == 2 then 2 * r - z else 3 * r - z
  }

  /** The code writes the rows and reads the columns. */
  lemma SpreadIsInterleaver(v: nat, r: nat, z: nat, n: nat)
    requires Shape(v, r, z) && n < v
    ensures Spread(v, r, n) == ColumnStart(r, z, ColumnOf(r, z, n)) + RowOf(r, z, n)
  {
    assert 4 * r - v == 2 * z && v - 2 * z == 4 * (r - z);
    assert r * (n % 4) == (if n % 4 == 0 then 0 else if n % 4 == 1 then r else if n % 4 == 2 then 2 * r else 3 * r);
    assert 2 * r * (n % 2) == if n % 2 == 0 then 0 else 2 * r;
    if n >= 4 * (r - z) {
      assert (n - 4 * (r - z)) / 2 == n / 2 - 2 * (r - z) && (n - 4 * (r - z)) % 2 == n % 2;
    }
  }

  /** The cells are written row by row: those of the second and the fourth column only in the first
      r - z rows. */
  lemma WrittenByRows(r: nat, z: nat, n: nat)
    requires z <= r && n < 4 * r - 2 * z
    ensures RowOf(r, z, n) < r && (ColumnOf(r, z, n) % 2 == 1 ==> RowOf(r, z, n) < r - z)
    ensures n + 1 < 4 * r - 2 * z ==>
              4 * RowOf(r, z, n) + ColumnOf(r, z, n) < 4 * RowOf(r, z, n + 1) + ColumnOf(r, z, n + 1)
    ensures n == 0 ==> ColumnOf(r, z, n) == RowOf(r, z, n) == 0
  {
  }

  /** They are read column by column: a cell comes later than another just if it stands in a later
      column, or further down. */
  lemma ReadByColumns(r: nat, z: nat, m: nat, n: nat)
    requires z <= r && m < 4 * r - 2 * z && n < 4 * r - 2 * z
    ensures var x := ColumnStart(r, z, ColumnOf(r, z, m)) + RowOf(r, z, m);
            var y := ColumnStart(r, z, ColumnOf(r, z, n)) + RowOf(r, z, n);
            x < y <==> ColumnOf(r, z, m) < ColumnOf(r, z, n) ||
                       (ColumnOf(r, z, m) == ColumnOf(r, z, n) && RowOf(r, z, m) < RowOf(r, z, n))
  {
    hide ColumnOf, RowOf;
    WrittenByRows(r, z, m);
    WrittenByRows(r, z, n);
  }

  /** The place that goes to x. */
  function Gather(r: nat, z: nat, x: nat): nat
    requires z <= r && x < 4 * r - 2 * z
  {
    var c := if x < r then 0 else if x < 2 * r - z then 1 else if x < 3 * r - z then 2 else 3;
    var row := x - ColumnStart(r, z, c);
    if row < r - z then 4 * row + c else 4 * (r - z) + 2 * (row - (r - z)) + c / 2
  }

  lemma GatherOfSpread(v: nat, r: nat, z: nat, n: nat)
    requires Shape(v, r, z) && n < v
    ensures 0 <= Spread(v, r, n) < v && Gather(r, z, Spread(v, r, n)) == n
  {
    SpreadIsInterleaver(v, r, z, n);
    hide Spread;
    var m := n - 4 * (r - z);
    if m >= 0 { assert m % 2 == n % 2 && m == 2 * (m / 2) + m % 2; }
  }

  /** The cell whose number Gather gives is the one that is read x-th. */
  lemma GatherCell(r: nat, z: nat, x: nat)
    requires z <= r && x < 4 * r - 2 * z
    ensures var n := Gather(r, z, x);
            n < 4 * r - 2 * z && x == ColumnStart(r, z, ColumnOf(r, z, n)) + RowOf(r, z, n)
  {
    var c := if x < r then 0 else if x < 2 * r - z then 1 else if x < 3 * r - z then 2 else 3;
    var row := x - ColumnStart(r, z, c);
    if row < r - z {
      CellNumber(4 * row + c, 4, row, c);
    } else {
      CellNumber(2 * (row - (r - z)) + c / 2, 2, row - (r - z), c / 2);
    }
  }

  lemma CellNumber(n: nat, k: nat, row: nat, c: nat)
    requires (k == 2 || k == 4) && c < k && n == k * row + c
    ensures n / k == row && n % k == c
  {
    ModUnique(n, k, row, c);
  }

  lemma SpreadOfGather(v: nat, r: nat, z: nat, x: nat)
    requires Shape(v, r, z) && x < v
    ensures Gather(r, z, x) < v && Spread(v, r, Gather(r, z, x)) == x
  {
    hide Spread, Gather, ColumnStart, ColumnOf, RowOf;
    GatherCell(r, z, x);
    SpreadIsInterleaver(v, r, z, Gather(r, z, x));
  }

  // ---- physical resource blocks -----------------------------------------------------------

  /** The gap: the upper half moves up. */
  function Physical(v: nat, gap: nat, x: int): int {
    if x < v / 2 then x else x + gap - v / 2
  }

  /** Places of slot 0 and slot 1 for virtual block n. */
  function Slot(nofPrb: nat, first: bool, slot: nat, n: nat): int
    requires Gap(nofPrb, true) <= nofPrb && Vrbs(nofPrb) > 0
  {
    var v := Places(nofPrb, first);
    var odd := Spread(v, Rows(nofPrb, first), n);
    Physical(v, Gap(nofPrb, first), if slot == 0 then odd else (odd + v / 2) % v)
  }

  /** Half a turn of an even number of places. */
  lemma HalfTurn(v: nat, x: nat)
    requires v % 2 == 0 && x < v
    ensures (x + v / 2) % v == if x < v / 2 then x + v / 2 else x - v / 2
  {
    if x < v / 2 { ModUnique(x + v / 2, v, 0, x + v / 2); } else { ModUnique(x + v / 2, v, 1, x - v / 2); }
  }

  /** Half a turn before the gap is the gap after it. */
  lemma GapApart(v: nat, gap: nat, x: nat)
    requires v % 2 == 0 && x < v
    ensures var p, q := Physical(v, gap, x), Physical(v, gap, (x + v / 2) % v);
            p - q == gap || q - p == gap
  {
    HalfTurn(v, x);
  }

  /** Places of the lower rows stay inside the band. */
  lemma LowRowsFit(v: nat, r: nat, z: nat, gap: nat, n: nat, nofPrb: nat)
    requires Shape(v, r, z) && n < v && n < 4 * (r - z) && n + 4 * (r + gap) < 4 * nofPrb && v % 2 == 0
    ensures 0 <= Physical(v, gap, Spread(v, r, n)) < nofPrb
    ensures 0 <= Physical(v, gap, (Spread(v, r, n) + v / 2) % v) < nofPrb
  {
    hide Spread;
    GatherOfSpread(v, r, z, n);
    SpreadIsInterleaver(v, r, z, n);
    HalfTurn(v, Spread(v, r, n));
  }

  /** Both slots of a virtual block lie inside the band, exactly the gap apart. */
  lemma SlotsApart(nofPrb: nat, first: bool, n: nat)
    requires Bandwidth(nofPrb, first) && Gap(nofPrb, true) <= nofPrb && 0 < Gap(nofPrb, first)
    requires n < Range(nofPrb, first) && Vrbs(nofPrb) > 0
    ensures 0 <= Slot(nofPrb, first, 0, n) < nofPrb && 0 <= Slot(nofPrb, first, 1, n) < nofPrb
    ensures Slot(nofPrb, first, 1, n) - Slot(nofPrb, first, 0, n) == Gap(nofPrb, first)
            || Slot(nofPrb, first, 0, n) - Slot(nofPrb, first, 1, n) == Gap(nofPrb, first)
  {
    hide Spread, Rows, Gap, Gather, Vrbs, Shape;
    var v, r, gap := Places(nofPrb, first), Rows(nofPrb, first), Gap(nofPrb, first);
    if first { BandwidthShape(nofPrb); } else { SecondShape(nofPrb); }
    var z := (4 * r - v) / 2;
    GatherOfSpread(v, r, z, n);
    GapApart(v, gap, Spread(v, r, n));
    if first {
      HalfTurn(v, Spread(v, r, n));
    } else {
      hide Range, Physical;
      LowRowsFit(v, r, z, gap, n, nofPrb);
    }
  }

  /** With the first gap virtual block n goes, in slot 0, to the place where the interleaver reads its
      cell, moved up by gap - v / 2 from the upper half on; in slot 1 to the place half a turn further,
      moved likewise. */
  lemma FirstSlot(nofPrb: nat, n: nat)
    requires 6 <= nofPrb <= 110 && Gap(nofPrb, true) <= nofPrb && n < Vrbs(nofPrb)
    ensures var v, r, gap := Vrbs(nofPrb), Rows(nofPrb, true), Gap(nofPrb, true);
            && v <= 4 * r <= v + 2 * r
            && var z := (4 * r - v) / 2;
               && z <= r
               && var x := ColumnStart(r, z, ColumnOf(r, z, n)) + RowOf(r, z, n);
                  && Slot(nofPrb, true, 0, n) == (if x < v / 2 then x else x - v / 2 + gap)
                  && Slot(nofPrb, true, 1, n) == (if x < v / 2 then x + gap else x - v / 2)
  {
    hide Spread, Rows, Gap, Vrbs, Gather, ColumnStart, ColumnOf, RowOf;
    BandwidthShape(nofPrb);
    var v, r := Vrbs(nofPrb), Rows(nofPrb, true);
    GatherOfSpread(v, r, (4 * r - v) / 2, n);
    SpreadIsInterleaver(v, r, (4 * r - v) / 2, n);
    HalfTurn(v, Spread(v, r, n));
  }

  lemma PhysicalInjective(v: nat, gap: nat, x: nat, y: nat)
    requires v / 2 <= gap && x < v && y < v && x != y
    ensures Physical(v, gap, x) != Physical(v, gap, y)
  {
  }

  /** In each slot different virtual blocks take different physical blocks. */
  lemma SlotInjective(nofPrb: nat, slot: nat, m: nat, n: nat)
    requires 6 <= nofPrb <= 110 && Gap(nofPrb, true) <= nofPrb && m < n < Vrbs(nofPrb)
    ensures Slot(nofPrb, true, slot, m) != Slot(nofPrb, true, slot, n)
  {
    hide Spread, Rows, Gap, Vrbs, Gather, Physical;
    BandwidthShape(nofPrb);
    var v, r := Vrbs(nofPrb), Rows(nofPrb, true);
    GatherOfSpread(v, r, (4 * r - v) / 2, m);
    GatherOfSpread(v, r, (4 * r - v) / 2, n);
    var x, y := Spread(v, r, m), Spread(v, r, n);
    HalfTurn(v, x);
    HalfTurn(v, y);
    PhysicalInjective(v, Gap(nofPrb, true), x, y);
    PhysicalInjective(v, Gap(nofPrb, true), (x + v / 2) % v, (y + v / 2) % v);
  }

  // ---- the second gap ---------------------------------------------------------------------

  /** The place of row q and column c. */
  function LowPlace(v: nat, r: nat, q: nat, c: nat): nat {
    q + if c == 0 then 0 else if c == 1 then r else if c == 2 then v / 2 else r + v / 2
  }

  /** The virtual blocks of a carrier fill the matrix four to a row. */
  lemma LowBlock(nofPrb: nat, n: nat)
    requires 50 <= nofPrb <= 110 && Gap(nofPrb, true) <= nofPrb && 0 < Gap(nofPrb, false)
    requires n < Range(nofPrb, false)
    ensures var v, r := Places(nofPrb, false), Rows(nofPrb, false);
            n < v && Spread(v, r, n) == LowPlace(v, r, n / 4, n % 4)
  {
    hide Spread, Rows, Gap, Vrbs, Range;
    SecondShape(nofPrb);
    var v, r := Places(nofPrb, false), Rows(nofPrb, false);
    SpreadIsInterleaver(v, r, (4 * r - v) / 2, n);
  }

  /** Row q and column c after the gap, in slot 1 half a turn and so two columns on. */
  function LowSlot(r: nat, gap: nat, slot: nat, q: nat, c: nat): nat {
    var d := if slot == 0 then c else (c + 2) % 4;
    q + if d == 0 then 0 else if d == 1 then r else if d == 2 then gap else r + gap
  }

  lemma LowPhysical(v: nat, r: nat, gap: nat, q: nat, c: nat)
    requires v % 2 == 0 && q + r < v / 2 && c < 4
    ensures var x := LowPlace(v, r, q, c);
            && Physical(v, gap, x) == LowSlot(r, gap, 0, q, c)
            && Physical(v, gap, (x + v / 2) % v) == LowSlot(r, gap, 1, q, c)
  {
    HalfTurn(v, LowPlace(v, r, q, c));
  }

  /** With the second gap a virtual block goes to its row, moved by the rows, by the gap or by both,
      as its column says. */
  lemma SecondSlot(nofPrb: nat, slot: nat, n: nat)
    requires 50 <= nofPrb <= 110 && Allowed(nofPrb, false, n, 1) && slot < 2
    ensures Slot(nofPrb, false, slot, n) ==
            LowSlot(Rows(nofPrb, false), Gap(nofPrb, false), slot, n / 4, n % 4)
  {
    hide Spread, Rows, Gap, Vrbs, Range, Physical, LowPlace, LowSlot, Shape;
    SecondShape(nofPrb);
    LowBlock(nofPrb, n);
    var v, r := Places(nofPrb, false), Rows(nofPrb, false);
    assert n / 4 + r < v / 2;
    LowPhysical(v, r, Gap(nofPrb, false), n / 4, n % 4);
  }

  /** The distance from a virtual block to the one that takes the same physical block of the slot:
      the blocks before the gap, in slot 0 those of columns 2 and 3, meet those after it. */
  predicate Meets(gap: nat, slot: nat, m: nat, n: nat) {
    if slot == 0 then m % 4 >= 2 && n == m + 4 * gap - 2 else m % 4 < 2 && n == m + 4 * gap + 2
  }

  /** Rows are too many for blocks a row apart to meet in any other way. */
  lemma LowSlotsMeet(r: nat, gap: nat, slot: nat, m: nat, n: nat)
    requires slot < 2 && m < n && n + 4 * gap < 4 * r && gap > 0
    ensures LowSlot(r, gap, slot, m / 4, m % 4) == LowSlot(r, gap, slot, n / 4, n % 4) <==> Meets(gap, slot, m, n)
  {
    var q, c, q', c' := m / 4, m % 4, n / 4, n % 4;
    assert m == 4 * q + c && n == 4 * q' + c';
  }

  /** With the second gap two virtual blocks take the same physical block of a slot exactly when
      they are four gaps apart, less or more two. */
  lemma SecondMeets(nofPrb: nat, slot: nat, m: nat, n: nat)
    requires 50 <= nofPrb <= 110 && Allowed(nofPrb, false, n, 1) && slot < 2 && m < n
    ensures Slot(nofPrb, false, slot, m) == Slot(nofPrb, false, slot, n) <==>
              Meets(Gap(nofPrb, false), slot, m, n)
  {
    hide Spread, Rows, Gap, Vrbs, Range, LowSlot, Meets, Slot;
    SecondShape(nofPrb);
    SecondSlot(nofPrb, slot, m);
    SecondSlot(nofPrb, slot, n);
    LowSlotsMeet(Rows(nofPrb, false), Gap(nofPrb, false), slot, m, n);
  }

  // ---- allocations ------------------------------------------------------------------------

  /** The physical block of slot 0 or 1 for virtual block n. */
  ghost function Block(nofPrb: nat, first: bool, slot: nat, n: nat): (y: nat)
    requires Bandwidth(nofPrb, first) && Allowed(nofPrb, first, n, 1) && slot < 2
    ensures y < nofPrb && y == Slot(nofPrb, first, slot, n)
  {
    SlotsApart(nofPrb, first, n);
    Slot(nofPrb, first, slot, n)
  }

  /** The allocation lies within the virtual blocks of the carrier. */
  predicate Allowed(nofPrb: nat, first: bool, start: nat, len: nat) {
    && 0 < Gap(nofPrb, first) && Gap(nofPrb, true) <= nofPrb && Vrbs(nofPrb) > 0
    && start + len <= Range(nofPrb, first)
  }

  /** The physical blocks of a slot that an allocation takes. */
  ghost function Taken(nofPrb: nat, first: bool, slot: nat, start: nat, len: nat): (t: seq<nat>)
    requires Bandwidth(nofPrb, first) && Allowed(nofPrb, first, start, len) && slot < 2
    ensures |t| == len
  {
    seq<nat>(len, i requires 0 <= i < len => Block(nofPrb, first, slot, start + i))
  }

  /** How much shorter than 4 N_gap an allocation from start on must stay in slot 0. Slot 1 allows
      more. */
  function Slack(start: nat): (k: nat)
    ensures k <= 2
  {
    match start % 4
    case 0 => 0
    case 1 => 1
    case _ => 2
  }

  /** The second gap keeps the blocks of the allocation apart. */
  predicate KeepsApart(nofPrb: nat, start: nat, len: nat) {
    len + Slack(start) <= 4 * Gap(nofPrb, false)
  }

  /** An allocation meets itself in slot 0 exactly when it is too long, and in slot 1 only then. */
  lemma MeetsWithin(gap: nat, start: nat, len: nat)
    requires gap > 0
    ensures len + Slack(start) > 4 * gap ==>
              var m := start + 2 - Slack(start);
              m % 4 >= 2 && start <= m && m + 4 * gap - 2 < start + len
    ensures len + Slack(start) <= 4 * gap ==>
              forall slot, m, n :: slot < 2 && start <= m < n < start + len ==> !Meets(gap, slot, m, n)
  {
  }

  /** An allocation of len virtual blocks takes exactly len physical ones in each slot: always with
      the first gap, and with the second one if it is short enough. */
  lemma TakesExactly(nofPrb: nat, first: bool, slot: nat, start: nat, len: nat)
    requires Bandwidth(nofPrb, first) && Allowed(nofPrb, first, start, len) && slot < 2
    requires first || KeepsApart(nofPrb, start, len)
    ensures Distinct(Taken(nofPrb, first, slot, start, len))
    ensures |Elements(Taken(nofPrb, first, slot, start, len))| == len
  {
    hide Slot, Gap, Vrbs, Slack, Meets;
    var t := Taken(nofPrb, first, slot, start, len);
    forall i, j | 0 <= i < j < |t|
      ensures t[i] != t[j]
    {
      if first {
        SlotInjective(nofPrb, slot, start + i, start + j);
      } else {
        MeetsWithin(Gap(nofPrb, false), start, len);
        SecondMeets(nofPrb, slot, start + i, start + j);
      }
      assert t[i] == Block(nofPrb, first, slot, start + i) && t[j] == Block(nofPrb, first, slot, start + j);
    }
    DistinctCardinality(t);
  }

  /** With the second gap an allocation, wherever it starts, takes different physical blocks in both
      slots if and only if it is short enough. */
  lemma SecondExactly(nofPrb: nat, start: nat, len: nat)
    requires 50 <= nofPrb <= 110 && Allowed(nofPrb, false, start, len)
    ensures (forall slot: nat :: slot < 2 ==> Distinct(Taken(nofPrb, false, slot, start, len))) <==>
              KeepsApart(nofPrb, start, len)
  {
    hide Slot, Gap, Vrbs, Distinct, Range, Slack, Meets;
    if KeepsApart(nofPrb, start, len) {
      forall slot: nat | slot < 2
        ensures Distinct(Taken(nofPrb, false, slot, start, len))
      {
        TakesExactly(nofPrb, false, slot, start, len);
      }
    } else {
      TooLong(nofPrb, start, len);
    }
  }

  lemma TooLong(nofPrb: nat, start: nat, len: nat)
    requires 50 <= nofPrb <= 110 && Allowed(nofPrb, false, start, len) && !KeepsApart(nofPrb, start, len)
    ensures !Distinct(Taken(nofPrb, false, 0, start, len))
  {
    hide Slot, Gap, Vrbs, Distinct, Range;
    var t, gap := Taken(nofPrb, false, 0, start, len), Gap(nofPrb, false);
    MeetsWithin(gap, start, len);
    var m := start + 2 - Slack(start);
    var n := m + 4 * gap - 2;
    SecondMeets(nofPrb, 0, m, n);
    assert t[m - start] == Block(nofPrb, false, 0, m) && t[n - start] == Block(nofPrb, false, 0, n);
    NotDistinct(t, m - start, n - start);
  }

  lemma NotDistinct(t: seq<nat>, i: nat, j: nat)
    requires i < j < |t| && t[i] == t[j]
    ensures !Distinct(t)
  {
  }

  /** It happens: a carrier of 100 blocks has 96 virtual blocks with the second gap; of the 65 from
      the first one on, and of the 63 from the third one on, two share a physical block, while the 60
      from the twenty-first one on do not. */
  lemma SecondGapFails()
    ensures Allowed(100, false, 0, 65) && !(forall slot: nat :: slot < 2 ==> Distinct(Taken(100, false, slot, 0, 65)))
    ensures Allowed(100, false, 2, 63) && !(forall slot: nat :: slot < 2 ==> Distinct(Taken(100, false, slot, 2, 63)))
    ensures Allowed(100, false, 20, 60) && forall slot: nat :: slot < 2 ==> Distinct(Taken(100, false, slot, 20, 60))
  {
    hide Taken, Distinct;
    SecondExactly(100, 0, 65);
    SecondExactly(100, 2, 63);
    SecondExactly(100, 20, 60);
  }

  /** The distributed branch of dl_dci_to_grant_prb_allocation: it marks, in each slot, the blocks
      taken by the allocation and no others, and counts len of them. */
  method Allocate(prb0: array<bool>, prb1: array<bool>, nofPrb: nat, first: bool, rbStart: nat, lCrb: nat)
    returns (nofTaken: nat)
    requires Bandwidth(nofPrb, first) && Allowed(nofPrb, first, rbStart, lCrb)
    requires prb0 != prb1 && prb0.Length >= nofPrb && prb1.Length >= nofPrb
    requires forall y :: 0 <= y < nofPrb ==> !prb0[y] && !prb1[y]
    modifies prb0, prb1
    ensures nofTaken == lCrb
    ensures forall y :: 0 <= y < nofPrb ==> (prb0[y] <==> y in Taken(nofPrb, first, 0, rbStart, lCrb))
    ensures forall y :: 0 <= y < nofPrb ==> (prb1[y] <==> y in Taken(nofPrb, first, 1, rbStart, lCrb))
  {
    hide Slot, Gap, Vrbs, Spread, Rows, Range;
    nofTaken := 0;
    ghost var t0, t1 := Taken(nofPrb, first, 0, rbStart, lCrb), Taken(nofPrb, first, 1, rbStart, lCrb);
    for i := 0 to lCrb
      invariant nofTaken == i
      invariant forall y :: 0 <= y < nofPrb ==> (prb0[y] <==> y in t0[..i])
      invariant forall y :: 0 <= y < nofPrb ==> (prb1[y] <==> y in t1[..i])
    {
      var nVrb := i + rbStart;
      assert t0[..i + 1] == t0[..i] + [t0[i]] && t1[..i + 1] == t1[..i] + [t1[i]];
      assert t0[i] == Block(nofPrb, first, 0, nVrb) && t1[i] == Block(nofPrb, first, 1, nVrb);
      prb0[Slot(nofPrb, first, 0, nVrb)] := true;
      nofTaken := nofTaken + 1;
      prb1[Slot(nofPrb, first, 1, nVrb)] := true;
    }
  }
}

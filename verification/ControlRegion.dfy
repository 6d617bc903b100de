/** The control channels of a subframe (srslte/lib/phch/regs.c): which groups each channel is given, and the
    writing and reading of its symbols. */
module ControlRegion {
  import opened NumberTheory
  import opened Permutations
  import opened RegGrid
  import opened RegAllocation
  import opened Symbols
  import PdcchInterleaver

  const PCFICH_NREGS := 4
  const PHICH_REGS_X_GROUP := 3
  const ERROR_INVALID_INPUTS := -2

  /** The flags say which groups have been given away. */
  ghost predicate Flags(a: seq<bool>, taken: seq<nat>) {
    forall r :: 0 <= r < |a| ==> (a[r] <==> r in taken)
  }

  /** All free groups of the symbols from lo on and below hi, each once. */
  ghost predicate ListOf(regs: seq<Reg>, a: seq<bool>, lo: nat, hi: nat, list: seq<nat>)
    requires |a| == |regs|
  {
    Distinct(list) && forall r :: r in list <==> 0 <= r < |regs| && lo <= regs[r].l < hi && !a[r]
  }

  /** The groups of the symbols from lo on and below hi that are not taken, in the order of their
      numbers; those among the first n. */
  function FreeUpTo(regs: seq<Reg>, taken: seq<nat>, lo: nat, hi: nat, n: nat): (list: seq<nat>)
    requires n <= |regs|
    ensures forall r :: r in list <==> 0 <= r < n && lo <= regs[r].l < hi && r !in taken
    ensures Distinct(list)
  {
    if n == 0 then []
    else
      var list := FreeUpTo(regs, taken, lo, hi, n - 1);
      if lo <= regs[n - 1].l < hi && n - 1 !in taken then list + [n - 1] else list
  }

  function FreeGroups(regs: seq<Reg>, taken: seq<nat>, lo: nat, hi: nat): (list: seq<nat>) {
    FreeUpTo(regs, taken, lo, hi, |regs|)
  }

  lemma {:induction false} FreeInOrder(regs: seq<Reg>, taken: seq<nat>, lo: nat, hi: nat, n: nat)
    requires n <= |regs|
    ensures Ascending(FreeUpTo(regs, taken, lo, hi, n))
  {
    hide Ascending;
    if n == 0 {
      EmptyAscends();
    } else {
      var list := FreeUpTo(regs, taken, lo, hi, n - 1);
      FreeInOrder(regs, taken, lo, hi, n - 1);
      AscendsTo(list, n - 1);
    }
  }

  ghost predicate Ascending(list: seq<nat>) {
    forall i, j :: 0 <= i < j < |list| ==> list[i] < list[j]
  }

  lemma EmptyAscends()
    ensures Ascending([])
  {
  }

  lemma AscendsTo(list: seq<nat>, n: nat)
    requires Ascending(list) && forall r :: r in list ==> r < n
    ensures Ascending(list + [n])
  {
    forall i | 0 <= i < |list|
      ensures list[i] < n
    {
      assert list[i] in list;
    }
  }

  /** They are all the free groups, each once. */
  lemma FreeIsList(regs: seq<Reg>, a: seq<bool>, taken: seq<nat>, lo: nat, hi: nat)
    requires |a| == |regs| && Flags(a, taken)
    ensures ListOf(regs, a, lo, hi, FreeGroups(regs, taken, lo, hi))
  {
  }

  // ---- PCFICH ----

  function PcfichPlace(c: Carrier, i: nat): nat
    requires c.Valid()
  {
    (c.id % (2 * c.nofPrb) + i * c.nofPrb / 2) % (2 * c.nofPrb)
  }

  lemma PcfichFormula(c: Carrier, i: nat)
    requires c.Valid()
    ensures ((NRE / 2) * (c.id % (2 * c.nofPrb)) + (i * c.nofPrb / 2) * (NRE / 2)) % (c.nofPrb * NRE)
            == 6 * PcfichPlace(c, i)
    ensures PcfichPlace(c, i) < 2 * c.nofPrb
  {
    var n := 2 * c.nofPrb;
    var a := c.id % n + i * c.nofPrb / 2;
    assert a == n * (a / n) + a % n;
    assert 6 * a == (n * 6) * (a / n) + 6 * (a % n) by { assert 6 * (n * (a / n)) == (n * 6) * (a / n); }
    ModUnique(6 * a, n * 6, a / n, 6 * (a % n));
  }

  lemma PcfichApart(c: Carrier, i: nat, j: nat)
    requires c.Valid() && i < j < PCFICH_NREGS
    ensures PcfichPlace(c, i) != PcfichPlace(c, j)
  {
    var n := 2 * c.nofPrb;
    var a, b := i * c.nofPrb / 2, j * c.nofPrb / 2;
    assert a < b < n by {
      assert i == 0 || i == 1 || i == 2;
      assert j == 1 || j == 2 || j == 3;
    }
    CyclicDistinct(n, c.id % n, a, b);
  }

  lemma CyclicDistinct(n: nat, base: nat, a: nat, b: nat)
    requires a < b < n
    ensures (base + a) % n != (base + b) % n
  {
    if (base + a) % n == (base + b) % n {
      var x, y := (base + a) / n, (base + b) / n;
      assert b - a == n * (y - x) by { assert n * (y - x) == n * y - n * x; }
      ModUnique(b - a, n, y - x, 0);
      ModUnique(b - a, n, 0, b - a);
    }
  }

  ghost predicate IsPcfich(c: Carrier, regs: seq<Reg>, list: seq<nat>) {
    && c.Valid() && |list| <= PCFICH_NREGS
    && forall i :: 0 <= i < |list| ==>
         list[i] < |regs| && regs[list[i]].l == 0 && regs[list[i]].k0 == 6 * PcfichPlace(c, i)
  }

  /** Section 6.7.4 of TS 36.211: group i starts i quarters of the band above the place of the cell. */
  lemma PcfichGroups(c: Carrier, regs: seq<Reg>, list: seq<nat>, i: nat)
    requires IsPcfich(c, regs, list) && i < |list|
    ensures list[i] < |regs| && regs[list[i]].l == 0
    ensures regs[list[i]].k0 == (6 * (c.id % (2 * c.nofPrb)) + i * c.nofPrb / 2 * 6) % (12 * c.nofPrb)
  {
    hide PcfichPlace;
    PcfichFormula(c, i);
    assert c.nofPrb * NRE == 12 * c.nofPrb;
  }

  lemma PcfichDistinct(c: Carrier, regs: seq<Reg>, list: seq<nat>)
    requires IsPcfich(c, regs, list)
    ensures Distinct(list)
  {
    hide PcfichPlace;
    forall i, j | 0 <= i < j < |list|
      ensures list[i] != list[j]
    {
      PcfichApart(c, i, j);
    }
  }

  // ---- PHICH ----

  /** Number of PHICH mapping units, section 6.9 of TS 36.211. */
  function PhichUnits(c: Carrier): nat {
    match c.ng
    case Sixth => CeilDiv(c.nofPrb, 48)
    case Half => CeilDiv(c.nofPrb, 16)
    case One => CeilDiv(c.nofPrb, 8)
    case Two => CeilDiv(c.nofPrb, 4)
  }

  /** Six times N_g. */
  function SixNg(ng: Ng): nat {
    match ng
    case Sixth => 1
    case Half => 3
    case One => 6
    case Two => 12
  }

  /** The number of units is N_g N / 8, rounded up. */
  lemma UnitsRoundUp(c: Carrier)
    requires c.nofPrb > 0
    ensures 48 * (PhichUnits(c) - 1) < SixNg(c.ng) * c.nofPrb <= 48 * PhichUnits(c)
  {
  }

  lemma UnitsBound(c: Carrier)
    requires c.Valid()
    ensures 0 < PhichUnits(c) && 4 * PhichUnits(c) <= c.nofPrb + 3
    ensures 3 * PhichUnits(c) <= 2 * c.nofPrb - 4 && 3 * PhichUnits(c) + 4 < 2 * c.nofPrb
  {
  }

  /** Symbol of the i-th group of a unit. */
  function UnitSymbol(c: Carrier, i: nat): nat {
    if c.phichExtended then i else 0
  }

  ghost predicate FreeLists(c: Carrier, regs: seq<Reg>, a: seq<bool>, lists: seq<seq<nat>>) {
    && |a| == |regs| && |lists| == 3 && c.Valid()
    && forall l :: 0 <= l < 3 ==> ListOf(regs, a, l, l + 1, lists[l]) && |lists[l]| >= 3 * PhichUnits(c) > 0
  }

  function UnitIndex(c: Carrier, n: nat, n0: nat, mi: nat, i: nat): (x: nat)
    requires n > 0 && n0 > 0
    ensures x < n
  {
    MulNonNegative(c.id, n);
    (c.id * n / n0 + mi + i * n / 3) % n
  }

  /** The i-th group of unit mi. */
  function UnitGroup(c: Carrier, lists: seq<seq<nat>>, mi: nat, i: nat): nat
    requires |lists| == 3 && i < 3 && |lists[0]| > 0 && |lists[UnitSymbol(c, i)]| > 0
  {
    lists[UnitSymbol(c, i)][UnitIndex(c, |lists[UnitSymbol(c, i)]|, |lists[0]|, mi, i)]
  }

  lemma UnitGroupsDiffer(c: Carrier, regs: seq<Reg>, a: seq<bool>, lists: seq<seq<nat>>, mi: nat, i: nat, mj: nat,
                         j: nat)
    requires FreeLists(c, regs, a, lists) && i < 3 && j < 3 && mi < PhichUnits(c) && mj < PhichUnits(c)
    requires mi != mj || i != j
    ensures UnitGroup(c, lists, mi, i) != UnitGroup(c, lists, mj, j)
  {
    hide PhichUnits, UnitIndex;
    var l, k := UnitSymbol(c, i), UnitSymbol(c, j);
    var x, y := UnitGroup(c, lists, mi, i), UnitGroup(c, lists, mj, j);
    assert x in lists[l] && y in lists[k];
    if l == k {
      var n := |lists[l]|;
      IndicesDiffer(c, n, |lists[0]|, mi, i, mj, j);
      var u, v := UnitIndex(c, n, |lists[0]|, mi, i), UnitIndex(c, n, |lists[0]|, mj, j);
      if u < v { assert lists[l][u] != lists[l][v]; } else { assert lists[l][v] != lists[l][u]; }
    }
  }

  lemma IndicesDiffer(c: Carrier, n: nat, n0: nat, mi: nat, i: nat, mj: nat, j: nat)
    requires n >= 3 * PhichUnits(c) && n0 > 0 && i < 3 && j < 3 && mi < PhichUnits(c) && mj < PhichUnits(c)
    requires mi != mj || i != j
    ensures UnitIndex(c, n, n0, mi, i) != UnitIndex(c, n, n0, mj, j)
  {
    hide PhichUnits;
    MulNonNegative(c.id, n);
    var base := c.id * n / n0;
    var a, b := mi + i * n / 3, mj + j * n / 3;
    Thirds(n, PhichUnits(c), mi, i, mj, j);
    if a < b { CyclicDistinct(n, base, a, b); } else { CyclicDistinct(n, base, b, a); }
    assert base + a == c.id * n / n0 + mi + i * n / 3;
    assert base + b == c.id * n / n0 + mj + j * n / 3;
  }

  lemma Thirds(n: nat, units: nat, mi: nat, i: nat, mj: nat, j: nat)
    requires n >= 3 * units && i < 3 && j < 3 && mi < units && mj < units && (mi != mj || i != j)
    ensures mi + i * n / 3 != mj + j * n / 3 && mi + i * n / 3 < n && mj + j * n / 3 < n
  {
    assert i == 0 || i == 1 || i == 2;
    assert j == 0 || j == 1 || j == 2;
  }

  /** All groups of the PHICH units. */
  function Flat(units: seq<seq<nat>>): seq<nat> {
    if units == [] then [] else Flat(units[..|units| - 1]) + units[|units| - 1]
  }

  // The first e groups, unit by unit, are those the mapping prescribes.
  ghost predicate IsPhich(c: Carrier, lists: seq<seq<nat>>, groups: seq<nat>)
    requires |lists| == 3 && forall l :: 0 <= l < 3 ==> |lists[l]| > 0
  {
    forall e :: 0 <= e < |groups| ==> groups[e] == UnitGroup(c, lists, e / 3, e % 3)
  }

  lemma NextGroupIsFree(c: Carrier, regs: seq<Reg>, a: seq<bool>, lists: seq<seq<nat>>, groups: seq<nat>,
                        pcfich: seq<nat>)
    requires FreeLists(c, regs, a, lists) && Flags(a, pcfich) && IsPhich(c, lists, groups)
    requires |groups| < 3 * PhichUnits(c)
    ensures var x := UnitGroup(c, lists, |groups| / 3, |groups| % 3);
            x < |regs| && x !in pcfich && x !in groups && IsPhich(c, lists, groups + [x])
            && regs[x].l == UnitSymbol(c, |groups| % 3)
  {
    hide PhichUnits, UnitIndex;
    var e := |groups|;
    var x := UnitGroup(c, lists, e / 3, e % 3);
    assert x in lists[UnitSymbol(c, e % 3)];
    forall d | 0 <= d < e
      ensures groups[d] != x
    {
      UnitGroupsDiffer(c, regs, a, lists, d / 3, d % 3, e / 3, e % 3);
    }
  }

  // ---- PDCCH ----

  function CtrlSymbols(c: Carrier, cfi: nat): nat {
    if c.nofPrb < 10 then cfi + 2 else cfi + 1
  }

  lemma IndexIs(c: Carrier, lists: seq<seq<nat>>, mi: nat, i: nat)
    requires |lists| == 3 && i < 3 && |lists[0]| > 0 && |lists[UnitSymbol(c, i)]| > 0
    ensures var list := lists[UnitSymbol(c, i)];
            var x := c.id * |list| / |lists[0]| + mi + i * |list| / 3;
            0 <= c.id * |list| && 0 <= x % |list| < |list| && UnitGroup(c, lists, mi, i) == list[x % |list|]
  {
    MulNonNegative(c.id, |lists[UnitSymbol(c, i)]|);
  }

  /** A rearranged list holds the same groups. */
  lemma Rearranged(regs: seq<Reg>, a: seq<bool>, lo: nat, hi: nat, list: seq<nat>, out: seq<nat>, order: seq<nat>)
    requires |a| == |regs| && ListOf(regs, a, lo, hi, list)
    requires IsPermutation(order) && |order| == |list| == |out|
    requires forall m :: 0 <= m < |out| ==> out[m] == list[order[m]]
    ensures ListOf(regs, a, lo, hi, out)
  {
    forall r | r in list
      ensures r in out
    {
      var k :| 0 <= k < |list| && list[k] == r;
      PermutationHits(order, k);
      var m :| 0 <= m < |order| && order[m] == k;
      assert out[m] == r;
    }
    forall i, j | 0 <= i < j < |out|
      ensures out[i] != out[j]
    {
      var x, y := order[i], order[j];
      assert x != y;
      if x < y { assert list[x] != list[y]; } else { assert list[y] != list[x]; }
    }
  }

  /** The allocation is complete: every group given to a channel is given to no other. */
  ghost predicate Allocated(c: Carrier, regs: seq<Reg>, a: seq<bool>, pcfich: seq<nat>, phich: seq<seq<nat>>,
                            pdcch: seq<seq<nat>>, nofPdcch: seq<nat>) {
    && Numbered(c, regs) && |a| == |regs|
    && |pcfich| == PCFICH_NREGS && IsPcfich(c, regs, pcfich)
    && IsUnits(c, regs, phich)
    && Distinct(pcfich + Flat(phich)) && Flags(a, pcfich + Flat(phich))
    && (forall r :: r in pcfich + Flat(phich) ==> r < |regs|)
    && |pdcch| == |nofPdcch| == 3
    && forall f :: 0 <= f < 3 ==> ListOf(regs, a, 0, CtrlSymbols(c, f), pdcch[f]) && nofPdcch[f] == |pdcch[f]| / 9 * 9
  }

  ghost predicate IsUnits(c: Carrier, regs: seq<Reg>, phich: seq<seq<nat>>) {
    && |phich| == PhichUnits(c)
    && forall m :: 0 <= m < |phich| ==>
         && |phich[m]| == PHICH_REGS_X_GROUP
         && forall i :: 0 <= i < PHICH_REGS_X_GROUP ==> phich[m][i] < |regs| && regs[phich[m][i]].l == UnitSymbol(c, i)
  }

  /** The lists from which the PHICH units take their groups: what the PCFICH leaves of each symbol. */
  function PhichLists(regs: seq<Reg>, pcfich: seq<nat>): (lists: seq<seq<nat>>)
    ensures |lists| == 3
  {
    [FreeGroups(regs, pcfich, 0, 1), FreeGroups(regs, pcfich, 1, 2), FreeGroups(regs, pcfich, 2, 3)]
  }

  /** Every unit has the groups that section 6.9.3 of TS 36.211 gives it. */
  ghost predicate PhichPlaced(c: Carrier, regs: seq<Reg>, pcfich: seq<nat>, phich: seq<seq<nat>>) {
    var lists := PhichLists(regs, pcfich);
    && (forall l :: 0 <= l < 3 ==> |lists[l]| > 0)
    && UnitsFrom(c, lists, phich)
  }

  ghost predicate UnitsFrom(c: Carrier, lists: seq<seq<nat>>, phich: seq<seq<nat>>)
    requires |lists| == 3 && forall l :: 0 <= l < 3 ==> |lists[l]| > 0
  {
    forall m, i :: 0 <= m < |phich| && 0 <= i < PHICH_REGS_X_GROUP && i < |phich[m]| ==>
      phich[m][i] == UnitGroup(c, lists, m, i)
  }

  /** The groups of unit m, one a third of the list behind the other: all among the groups that the
      PCFICH leaves of the first symbol, or with extended duration in one symbol each. */
  lemma PhichGroups(c: Carrier, regs: seq<Reg>, pcfich: seq<nat>, phich: seq<seq<nat>>, m: nat, i: nat)
    requires PhichPlaced(c, regs, pcfich, phich) && m < |phich| && i < 3 <= |phich[m]|
    ensures var l := if c.phichExtended then i else 0;
            var list, n0 := FreeGroups(regs, pcfich, l, l + 1), |FreeGroups(regs, pcfich, 0, 1)|;
            && n0 > 0 && |list| > 0
            && var x := (c.id * |list| / n0 + m + i * |list| / 3) % |list|;
               0 <= x && phich[m][i] == list[x]
  {
    hide UnitIndex, FreeGroups;
    var lists := PhichLists(regs, pcfich);
    assert phich[m][i] == UnitGroup(c, lists, m, i);
    IndexIs(c, lists, m, i);
  }

  /** The list is the free groups, interleaved and shifted as section 6.8.5 of TS 36.211 says. */
  ghost predicate PdcchPlaced(c: Carrier, free: seq<nat>, list: seq<nat>) {
    && |list| == |free| > 0
    && forall m :: 0 <= m < |list| ==>
         var p := PdcchInterleaver.Order(|free|, c.id)[m];
         p < |free| && list[m] == free[p]
  }

  /** Every channel has exactly the groups that the mapping prescribes, in the prescribed order. */
  ghost predicate Placed(c: Carrier, regs: seq<Reg>, pcfich: seq<nat>, phich: seq<seq<nat>>, pdcch: seq<seq<nat>>) {
    && PhichPlaced(c, regs, pcfich, phich)
    && |pdcch| == 3
    && forall f :: 0 <= f < 3 ==>
         PdcchPlaced(c, FreeGroups(regs, pcfich + Flat(phich), 0, CtrlSymbols(c, f)), pdcch[f])
  }

  lemma DistinctAppend(f: seq<nat>, x: nat)
    requires Distinct(f) && x !in f
    ensures Distinct(f + [x])
  {
  }

  lemma FlatAppend(units: seq<seq<nat>>, group: seq<nat>)
    ensures Flat(units + [group]) == Flat(units) + group
  {
    assert (units + [group])[..|units|] == units;
  }

  method FindReg(regs: seq<Reg>, k: nat, l: nat) returns (r: int)
    ensures r == -1 ==> forall i :: 0 <= i < |regs| ==> !(regs[i].l == l && regs[i].k0 == k)
    ensures r != -1 ==> 0 <= r < |regs| && regs[r].l == l && regs[r].k0 == k
  {
    var i := 0;
    while i < |regs|
      invariant i <= |regs| && forall j :: 0 <= j < i ==> !(regs[j].l == l && regs[j].k0 == k)
    {
      if regs[i].l == l && regs[i].k0 == k { return i; }
      i := i + 1;
    }
    return -1;
  }

  class Regs {
    const cell: Carrier
    var regs: seq<Reg>
    var isAssigned: array<bool>
    var pcfich: seq<nat>
    var phich: seq<seq<nat>>
    var ngroupsPhich: nat
    var pdcch: seq<seq<nat>>
    var nofPdcch: seq<nat>
    var cfi: nat
    var cfiInitiated: bool

    ghost predicate Ready()
      reads this, isAssigned
    {
      && Allocated(cell, regs, isAssigned[..], pcfich, phich, pdcch, nofPdcch)
      && Placed(cell, regs, pcfich, phich, pdcch)
      && ngroupsPhich == PhichUnits(cell) * (if cell.extended then 2 else 1)
      && cfi < 3 == |pdcch| == |nofPdcch|
    }

    constructor (cell: Carrier)
      ensures this.cell == cell && !cfiInitiated && fresh(isAssigned)
    {
      this.cell := cell;
      regs, pcfich, phich, pdcch, nofPdcch := [], [], [], [], [];
      isAssigned := new bool[0];
      ngroupsPhich, cfi, cfiInitiated := 0, 0, false;
    }

    /** The four groups of the PCFICH. The search always finds a free group, so the two error exits of the
        original are never taken. */
    method PcfichInit() returns (ret: int)
      requires Numbered(cell, regs) && isAssigned.Length == |regs| && Flags(isAssigned[..], [])
      modifies this`pcfich, isAssigned
      ensures ret == 0 && |pcfich| == PCFICH_NREGS && IsPcfich(cell, regs, pcfich)
      ensures Flags(isAssigned[..], pcfich) && Distinct(pcfich)
    {
      hide Numbered, PcfichPlace;
      NumberedCell(cell, regs);
      pcfich := [];
      var kHat := (NRE / 2) * (cell.id % (2 * cell.nofPrb));
      var i := 0;
      while i < PCFICH_NREGS
        invariant i <= PCFICH_NREGS && |pcfich| == i && IsPcfich(cell, regs, pcfich) && Flags(isAssigned[..], pcfich)
      {
        PcfichFormula(cell, i);
        var k := (kHat + (i * cell.nofPrb / 2) * (NRE / 2)) % (cell.nofPrb * NRE);
        var r := FindReg(regs, k, 0);
        OuterIs(cell, regs, 0, PcfichPlace(cell, i));
        assert r != -1;
        PcfichIsNew(cell, regs, pcfich, r);
        isAssigned[r] := true;
        pcfich := pcfich + [r];
        i := i + 1;
      }
      PcfichDistinct(cell, regs, pcfich);
      ret := 0;
    }

    static lemma PcfichIsNew(c: Carrier, regs: seq<Reg>, list: seq<nat>, r: nat)
      requires IsPcfich(c, regs, list) && |list| < PCFICH_NREGS && r < |regs|
      requires regs[r].l == 0 && regs[r].k0 == 6 * PcfichPlace(c, |list|)
      ensures r !in list && IsPcfich(c, regs, list + [r])
    {
      hide PcfichPlace;
      forall j | 0 <= j < |list|
        ensures list[j] != r
      {
        PcfichApart(c, j, |list|);
      }
    }

    /** The free groups of the first three symbols, each symbol's in order. */
    method FreeBySymbol(ghost taken: seq<nat>) returns (lists: seq<seq<nat>>)
      requires isAssigned.Length == |regs| && Flags(isAssigned[..], taken)
      ensures lists == PhichLists(regs, taken)
      ensures forall l :: 0 <= l < 3 ==> ListOf(regs, isAssigned[..], l, l + 1, lists[l])
    {
      hide FreeGroups, ListOf;
      var l0 := FreeIn(0, 1, taken);
      var l1 := FreeIn(1, 2, taken);
      var l2 := FreeIn(2, 3, taken);
      lists := [l0, l1, l2];
    }

    /** The free groups of the symbols from lo on and below hi, in the order of their numbers. */
    method FreeIn(lo: nat, hi: nat, ghost taken: seq<nat>) returns (list: seq<nat>)
      requires isAssigned.Length == |regs| && Flags(isAssigned[..], taken)
      ensures list == FreeGroups(regs, taken, lo, hi) && ListOf(regs, isAssigned[..], lo, hi, list)
    {
      list := [];
      var i := 0;
      while i < |regs|
        invariant i <= |regs| && list == FreeUpTo(regs, taken, lo, hi, i)
      {
        assert isAssigned[..][i] == (i in taken);
        if lo <= regs[i].l < hi && !isAssigned[i] { list := list + [i]; }
        i := i + 1;
      }
      FreeIsList(regs, isAssigned[..], taken, lo, hi);
    }

    method PhichInit() returns (ret: int)
      requires Numbered(cell, regs) && isAssigned.Length == |regs|
      requires |pcfich| == PCFICH_NREGS && Flags(isAssigned[..], pcfich) && Distinct(pcfich)
      requires forall r :: r in pcfich ==> r < |regs|
      modifies this`phich, this`ngroupsPhich, isAssigned
      ensures ret == 0 && IsUnits(cell, regs, phich) && PhichPlaced(cell, regs, pcfich, phich)
      ensures ngroupsPhich == PhichUnits(cell) * (if cell.extended then 2 else 1)
      ensures Distinct(pcfich + Flat(phich)) && Flags(isAssigned[..], pcfich + Flat(phich))
      ensures forall r :: r in pcfich + Flat(phich) ==> r < |regs|
    {
      hide Numbered, PhichUnits, ListOf, Distinct, PhichLists, UnitsFrom;
      hide FreeUpTo, FreeGroups, UnitGroup, UnitIndex, UnitsSoFar, IsPhich, Flat, Flags, IsUnits, FreeLists;
      ngroupsPhich := PhichUnits(cell);
      var lists := FreeBySymbol(pcfich);
      LongLists(cell, regs, isAssigned[..], pcfich, lists);
      ghost var a0 := isAssigned[..];
      phich := [];
      NoUnits(cell, regs, lists);
      assert pcfich + Flat(phich) == pcfich;
      var mi := 0;
      while mi < ngroupsPhich
        invariant mi == |phich| <= ngroupsPhich == PhichUnits(cell)
        invariant UnitsSoFar(cell, regs, phich) && IsPhich(cell, lists, Flat(phich)) && |Flat(phich)| == 3 * mi
        invariant UnitsFrom(cell, lists, phich)
        invariant Distinct(pcfich + Flat(phich)) && Flags(isAssigned[..], pcfich + Flat(phich))
        invariant forall r :: r in pcfich + Flat(phich) ==> r < |regs|
      {
        var group := OneUnit(lists, mi, a0);
        FlatAppend(phich, group);
        NextUnit(cell, regs, lists, phich, group);
        assert pcfich + Flat(phich) + group == pcfich + (Flat(phich) + group);
        phich := phich + [group];
        mi := mi + 1;
      }
      AllUnits(cell, regs, phich);
      if cell.extended { ngroupsPhich := ngroupsPhich * 2; }
      ret := 0;
    }

    static ghost predicate UnitsSoFar(c: Carrier, regs: seq<Reg>, phich: seq<seq<nat>>) {
      forall m :: 0 <= m < |phich| ==>
        && |phich[m]| == PHICH_REGS_X_GROUP
        && forall i :: 0 <= i < PHICH_REGS_X_GROUP ==> phich[m][i] < |regs| && regs[phich[m][i]].l == UnitSymbol(c, i)
    }

    static lemma NoUnits(c: Carrier, regs: seq<Reg>, lists: seq<seq<nat>>)
      requires |lists| == 3 && forall l :: 0 <= l < 3 ==> |lists[l]| > 0
      ensures UnitsFrom(c, lists, []) && UnitsSoFar(c, regs, []) && Flat([]) == [] && IsPhich(c, lists, [])
    {
    }

    static lemma NextUnit(c: Carrier, regs: seq<Reg>, lists: seq<seq<nat>>, phich: seq<seq<nat>>, group: seq<nat>)
      requires |lists| == 3 && (forall l :: 0 <= l < 3 ==> |lists[l]| > 0) && UnitsFrom(c, lists, phich)
      requires |group| == 3 && forall i :: 0 <= i < 3 ==> group[i] == UnitGroup(c, lists, |phich|, i)
      requires UnitsSoFar(c, regs, phich)
      requires forall i :: 0 <= i < 3 ==> group[i] < |regs| && regs[group[i]].l == UnitSymbol(c, i)
      ensures UnitsFrom(c, lists, phich + [group]) && UnitsSoFar(c, regs, phich + [group])
    {
      hide UnitGroup;
    }

    static lemma AllUnits(c: Carrier, regs: seq<Reg>, phich: seq<seq<nat>>)
      requires UnitsSoFar(c, regs, phich) && |phich| == PhichUnits(c)
      ensures IsUnits(c, regs, phich)
    {
      hide PhichUnits;
    }

    static lemma LongLists(c: Carrier, regs: seq<Reg>, a: seq<bool>, pcfich: seq<nat>, lists: seq<seq<nat>>)
      requires Numbered(c, regs) && |a| == |regs| && |pcfich| == PCFICH_NREGS && Flags(a, pcfich) && |lists| == 3
      requires forall l :: 0 <= l < 3 ==> ListOf(regs, a, l, l + 1, lists[l])
      ensures FreeLists(c, regs, a, lists) && forall l :: 0 <= l < 3 ==> |lists[l]| > 0
    {
      hide PhichUnits, Numbered;
      NumberedCell(c, regs);
      UnitsBound(c);
      forall l | 0 <= l < 3
        ensures |lists[l]| >= 3 * PhichUnits(c)
      {
        ManyFree(c, regs, pcfich, lists[l], l);
      }
    }

    static lemma NumberedCell(c: Carrier, regs: seq<Reg>)
      requires Numbered(c, regs)
      ensures c.Valid()
    {
    }

    /** The three groups of one mapping unit. */
    method OneUnit(lists: seq<seq<nat>>, mi: nat, ghost a0: seq<bool>) returns (group: seq<nat>)
      requires FreeLists(cell, regs, a0, lists) && Flags(a0, pcfich) && mi < PhichUnits(cell)
      requires isAssigned.Length == |regs|
      requires IsPhich(cell, lists, Flat(phich)) && |Flat(phich)| == 3 * mi
      requires Distinct(pcfich + Flat(phich)) && Flags(isAssigned[..], pcfich + Flat(phich))
      requires forall r :: r in pcfich + Flat(phich) ==> r < |regs|
      modifies isAssigned
      ensures |group| == 3 && IsPhich(cell, lists, Flat(phich) + group)
      ensures forall i :: 0 <= i < 3 ==> group[i] == UnitGroup(cell, lists, mi, i)
      ensures forall i :: 0 <= i < 3 ==> group[i] < |regs| && regs[group[i]].l == UnitSymbol(cell, i)
      ensures Distinct(pcfich + Flat(phich) + group) && Flags(isAssigned[..], pcfich + Flat(phich) + group)
      ensures forall r :: r in pcfich + Flat(phich) + group ==> r < |regs|
    {
      hide PhichUnits, Distinct, UnitIndex, Flat, UnitGroup, IsPhich, Flags;
      ghost var taken := pcfich + Flat(phich);
      group := [];
      assert taken + group == taken && Flat(phich) + group == Flat(phich);
      var i := 0;
      while i < 3
        invariant i == |group| <= 3 && isAssigned.Length == |regs| && IsPhich(cell, lists, Flat(phich) + group)
        invariant forall j :: 0 <= j < i ==> group[j] < |regs| && regs[group[j]].l == UnitSymbol(cell, j)
        invariant forall j :: 0 <= j < i ==> group[j] == UnitGroup(cell, lists, mi, j)
        invariant Distinct(taken + group) && Flags(isAssigned[..], taken + group)
        invariant forall r :: r in taken + group ==> r < |regs|
      {
        var li := if cell.phichExtended then i else 0;
        MulNonNegative(cell.id, |lists[li]|);
        var ni := (cell.id * |lists[li]| / |lists[0]| + mi + i * |lists[li]| / 3) % |lists[li]|;
        IndexIs(cell, lists, mi, i);
        NextGroupIsFree(cell, regs, a0, lists, Flat(phich) + group, pcfich);
        assert (3 * mi + i) / 3 == mi && (3 * mi + i) % 3 == i;
        var x := lists[li][ni];
        assert x == UnitGroup(cell, lists, mi, i);
        DistinctAppend(taken + group, x);
        assert taken + group + [x] == taken + (group + [x]);
        assert Flat(phich) + group + [x] == Flat(phich) + (group + [x]);
        FlagsGrow(isAssigned[..], taken + group, x);
        ghost var was := isAssigned[..];
        isAssigned[x] := true;
        assert isAssigned[..] == was[x := true];
        group := group + [x];
        i := i + 1;
      }
    }

    static lemma FlagsGrow(a: seq<bool>, taken: seq<nat>, x: nat)
      requires Flags(a, taken) && x < |a|
      ensures Flags(a[x := true], taken + [x])
    {
    }

    /** For each of the three sizes of the control region the free groups, interleaved and shifted. */
    method PdcchInit() returns (ret: int)
      requires Numbered(cell, regs) && isAssigned.Length == |regs| && Flags(isAssigned[..], pcfich + Flat(phich))
      requires |pcfich + Flat(phich)| < 2 * cell.nofPrb
      modifies this`pdcch, this`nofPdcch
      ensures ret == 0 && |pdcch| == |nofPdcch| == 3
      ensures forall f :: 0 <= f < 3 ==>
                ListOf(regs, isAssigned[..], 0, CtrlSymbols(cell, f), pdcch[f]) && nofPdcch[f] == |pdcch[f]| / 9 * 9
      ensures forall f :: 0 <= f < 3 ==>
                PdcchPlaced(cell, FreeGroups(regs, pcfich + Flat(phich), 0, CtrlSymbols(cell, f)), pdcch[f])
    {
      hide Numbered, ListOf, PdcchInterleaver.Order, FreeGroups, PdcchPlaced;
      pdcch, nofPdcch := [], [];
      var f := 0;
      while f < 3
        invariant f <= 3 && |pdcch| == |nofPdcch| == f
        invariant forall e :: 0 <= e < f ==>
                    ListOf(regs, isAssigned[..], 0, CtrlSymbols(cell, e), pdcch[e]) && nofPdcch[e] == |pdcch[e]| / 9 * 9
        invariant forall e :: 0 <= e < f ==>
                    PdcchPlaced(cell, FreeGroups(regs, pcfich + Flat(phich), 0, CtrlSymbols(cell, e)), pdcch[e])
      {
        var nofCtrlSymbols := if cell.nofPrb < 10 then f + 2 else f + 1;
        var tmp := FreeIn(0, nofCtrlSymbols, pcfich + Flat(phich));
        SomeFree(cell, regs, isAssigned[..], pcfich + Flat(phich), nofCtrlSymbols, tmp);
        var out := PdcchInterleaver.Interleave(tmp, cell.id);
        PdcchInterleaver.OrderIsPermutation(|tmp|, cell.id);
        Rearranged(regs, isAssigned[..], 0, nofCtrlSymbols, tmp, out[..], PdcchInterleaver.Order(|tmp|, cell.id));
        PlacedBy(cell, tmp, out[..]);
        pdcch := pdcch + [out[..]];
        nofPdcch := nofPdcch + [out.Length / 9 * 9];
        f := f + 1;
      }
      ret := 0;
    }

    static lemma PlacedBy(c: Carrier, free: seq<nat>, list: seq<nat>)
      requires |list| == |free| > 0
      requires forall m :: 0 <= m < |free| ==>
                 PdcchInterleaver.Order(|free|, c.id)[m] < |free| &&
                 list[m] == free[PdcchInterleaver.Order(|free|, c.id)[m]]
      ensures PdcchPlaced(c, free, list)
    {
      hide PdcchInterleaver.Order;
    }

    static lemma SomeFree(c: Carrier, regs: seq<Reg>, a: seq<bool>, taken: seq<nat>, hi: nat, list: seq<nat>)
      requires Numbered(c, regs) && |a| == |regs| && Flags(a, taken) && |taken| < 2 * c.nofPrb && hi > 0
      requires ListOf(regs, a, 0, hi, list)
      ensures list != []
    {
      hide Numbered;
      NumberedCell(c, regs);
      ManyFree(c, regs, taken, list, 0);
    }

    /** The number of groups of a block in a symbol, or an error. */
    method NumXSymbol(symbol: nat) returns (n: int)
      requires symbol < 4
      ensures cell.nofPorts == 1 || cell.nofPorts == 2 || cell.nofPorts == 4 ==> n == cell.NumGroups(symbol)
      ensures cell.nofPorts != 1 && cell.nofPorts != 2 && cell.nofPorts != 4 ==> (n == -1 <==> symbol == 1)
    {
      match symbol
      case 0 => n := 2;
      case 1 => n := if cell.nofPorts == 1 || cell.nofPorts == 2 then 3 else if cell.nofPorts == 4 then 2 else -1;
      case 2 => n := 3;
      case 3 => n := if !cell.extended then 3 else 2;
    }

    /** Numbers the groups and allocates all three channels. It fails exactly on a number of ports that is
        not 1, 2 or 4. */
    method Init() returns (ret: int)
      requires 6 <= cell.nofPrb <= 110
      modifies this
      ensures ret == if cell.nofPorts == 1 || cell.nofPorts == 2 || cell.nofPorts == 4 then 0 else -1
      ensures ret == 0 ==> Ready() && !cfiInitiated && fresh(isAssigned)
      ensures ret == 0 ==> OffPilots(cell, regs)
      ensures ret == 0 ==>
                forall l, k :: 0 <= l < cell.MaxCtrl() && 0 <= k < NRE * cell.nofPrb ==>
                  (Grouped(regs, l, k) <==> !Pilot(cell, l, k))
    {
      hide Numbered, PhichUnits, ListOf, Distinct, IsPcfich, Flags, Carrier.NumGroups, Allocated, IsUnits;
      hide PhichPlaced, PdcchPlaced, FreeGroups, OffPilots, Grouped, Pilot;
      var i := 0;
      while i < cell.MaxCtrl()
        invariant i <= cell.MaxCtrl()
        invariant i > 1 ==> cell.nofPorts == 1 || cell.nofPorts == 2 || cell.nofPorts == 4
      {
        var n := NumXSymbol(i);
        if n == -1 { return -1; }
        i := i + 1;
      }
      cfiInitiated, cfi := false, 0;
      regs := NumberRegs(cell);
      isAssigned := new bool[|regs|](_ => false);
      NoFlags(isAssigned[..]);
      AllOffPilots(cell, regs);
      forall l, k | 0 <= l < cell.MaxCtrl() && 0 <= k < NRE * cell.nofPrb
        ensures Grouped(regs, l, k) <==> !Pilot(cell, l, k)
      {
        GroupsAvoidPilots(cell, regs, l, k);
      }
      ret := PcfichInit();
      PcfichInside(cell, regs, pcfich);
      ret := PhichInit();
      UnitsTaken(cell, regs, pcfich, phich);
      ret := PdcchInit();
      Assemble(cell, regs, isAssigned[..], pcfich, phich, pdcch, nofPdcch);
    }

    static lemma Assemble(c: Carrier, regs: seq<Reg>, a: seq<bool>, pcfich: seq<nat>, phich: seq<seq<nat>>,
                          pdcch: seq<seq<nat>>, nofPdcch: seq<nat>)
      requires Numbered(c, regs) && |a| == |regs|
      requires |pcfich| == PCFICH_NREGS && IsPcfich(c, regs, pcfich) && IsUnits(c, regs, phich)
      requires Distinct(pcfich + Flat(phich)) && Flags(a, pcfich + Flat(phich))
      requires forall r :: r in pcfich + Flat(phich) ==> r < |regs|
      requires |pdcch| == |nofPdcch| == 3
      requires forall f :: 0 <= f < 3 ==>
                 ListOf(regs, a, 0, CtrlSymbols(c, f), pdcch[f]) && nofPdcch[f] == |pdcch[f]| / 9 * 9
      ensures Allocated(c, regs, a, pcfich, phich, pdcch, nofPdcch)
    {
      hide Numbered, PhichUnits, ListOf, Distinct, IsPcfich, Flags;
    }

    static lemma NoFlags(a: seq<bool>)
      requires forall r :: 0 <= r < |a| ==> !a[r]
      ensures Flags(a, [])
    {
    }

    static lemma PcfichInside(c: Carrier, regs: seq<Reg>, list: seq<nat>)
      requires IsPcfich(c, regs, list)
      ensures forall r :: r in list ==> r < |regs|
    {
    }

    static lemma UnitsTaken(c: Carrier, regs: seq<Reg>, pcfich: seq<nat>, phich: seq<seq<nat>>)
      requires Numbered(c, regs) && |pcfich| == PCFICH_NREGS && IsUnits(c, regs, phich)
      ensures |pcfich + Flat(phich)| < 2 * c.nofPrb
    {
      hide PhichUnits, Numbered;
      NumberedCell(c, regs);
      UnitsBound(c);
      FlatLength(phich);
    }

    static lemma {:induction false} FlatLength(units: seq<seq<nat>>)
      requires forall m :: 0 <= m < |units| ==> |units[m]| == 3
      ensures |Flat(units)| == 3 * |units|
    {
      if units != [] { FlatLength(units[..|units| - 1]); }
    }

    // ---- using the channels ----

    /** Selects the size of the control region; with extended PHICH duration it needs three symbols. */
    method SetCfi(newCfi: nat) returns (ret: int)
      requires Ready()
      modifies this`cfi, this`cfiInitiated
      ensures Ready()
      ensures ret == if 0 < newCfi <= 3 && !(cell.phichExtended && CtrlSymbols(cell, newCfi - 1) < 3) then 0
              else ERROR_INVALID_INPUTS
      ensures if ret == 0 then cfiInitiated && cfi == newCfi - 1
              else cfiInitiated == old(cfiInitiated) && cfi == old(cfi)
    {
      hide Allocated;
      if newCfi > 0 && newCfi <= 3 {
        if cell.phichExtended && ((cell.nofPrb < 10 && newCfi < 2) || (cell.nofPrb >= 10 && newCfi < 3)) {
          return ERROR_INVALID_INPUTS;
        } else {
          cfiInitiated := true;
          cfi := newCfi - 1;
          return 0;
        }
      } else {
        return ERROR_INVALID_INPUTS;
      }
    }

    method PcfichPut(symbols: array<Symbol>, grid: array<Symbol>) returns (n: nat)
      requires Ready() && symbols.Length == 16 && InGrid(cell, grid.Length) && symbols != grid
      modifies grid
      ensures n == 16 && Carries(cell, regs, grid[..], pcfich, symbols[..])
      ensures OthersKept(cell, regs, old(grid[..]), grid[..], pcfich)
    {
      hide Allocated, Carries, OthersKept;
      PcfichFacts();
      n := PutList(cell, regs, pcfich, symbols, grid);
      assert symbols[..16] == symbols[..];
    }

    method PcfichGet(grid: array<Symbol>, symbols: array<Symbol>) returns (n: nat)
      requires Ready() && symbols.Length == 16 && InGrid(cell, grid.Length) && symbols != grid
      modifies symbols
      ensures n == 16 && Carries(cell, regs, grid[..], pcfich, symbols[..])
    {
      hide Allocated, Carries;
      PcfichFacts();
      n := GetList(cell, regs, pcfich, grid, symbols);
      assert symbols[..16] == symbols[..];
    }

    /** Adds the symbols of one PHICH group; with extended cyclic prefix two groups share a mapping unit. */
    method PhichAdd(symbols: array<Symbol>, ngroup: nat, grid: array<Symbol>) returns (ret: int)
      requires Ready() && symbols.Length == 12 && InGrid(cell, grid.Length) && symbols != grid
      modifies grid
      ensures ret == if ngroup < ngroupsPhich then 12 else ERROR_INVALID_INPUTS
      ensures ret < 0 ==> grid[..] == old(grid[..])
      ensures ret >= 0 ==>
                && Unit(ngroup) < |phich|
                && OthersKept(cell, regs, old(grid[..]), grid[..], phich[Unit(ngroup)])
                && forall e :: Carries(cell, regs, old(grid[..]), phich[Unit(ngroup)], e) ==>
                     Carries(cell, regs, grid[..], phich[Unit(ngroup)], Sums(e, symbols[..]))
    {
      hide Allocated, Carries, OthersKept;
      if ngroup >= ngroupsPhich { return ERROR_INVALID_INPUTS; }
      var unit := ngroup;
      if cell.extended { unit := unit / 2; }
      PhichFacts(unit);
      ret := AddList(cell, regs, phich[unit], symbols, grid);
    }

    method PhichGet(grid: array<Symbol>, symbols: array<Symbol>, ngroup: nat) returns (ret: int)
      requires Ready() && symbols.Length == 12 && InGrid(cell, grid.Length) && symbols != grid
      modifies symbols
      ensures ret == if ngroup < ngroupsPhich then 12 else ERROR_INVALID_INPUTS
      ensures ret >= 0 ==> Unit(ngroup) < |phich| && Carries(cell, regs, grid[..], phich[Unit(ngroup)], symbols[..])
    {
      hide Allocated, Carries;
      if ngroup >= ngroupsPhich { return ERROR_INVALID_INPUTS; }
      var unit := ngroup;
      if cell.extended { unit := unit / 2; }
      PhichFacts(unit);
      ret := GetList(cell, regs, phich[unit], grid, symbols);
      assert symbols[..12] == symbols[..];
    }

    /** The mapping unit of a group. */
    function Unit(ngroup: nat): (u: nat)
      ensures if cell.extended then ngroup == 2 * u || ngroup == 2 * u + 1 else u == ngroup
    {
      if cell.extended then ngroup / 2 else ngroup
    }

    lemma PhichFacts(unit: nat)
      requires Ready() && unit < PhichUnits(cell)
      ensures Numbered(cell, regs) && unit < |phich| && |phich[unit]| == 3
      ensures Distinct(phich[unit]) && forall r :: r in phich[unit] ==> r < |regs|
    {
      hide Numbered, PhichUnits, ListOf, Flat;
      var start := UnitInFlat(phich, unit);
      var all := pcfich + Flat(phich);
      assert forall i :: 0 <= i < 3 ==> phich[unit][i] == all[|pcfich| + (start + i)];
    }

    static lemma {:induction false} UnitInFlat(units: seq<seq<nat>>, u: nat) returns (start: nat)
      requires u < |units| && |units[u]| == 3
      ensures start + 3 <= |Flat(units)| && units[u] == Flat(units)[start..start + 3]
      decreases |units|
    {
      var init := units[..|units| - 1];
      if u == |units| - 1 {
        start := |Flat(init)|;
      } else {
        start := UnitInFlat(init, u);
        assert Flat(units)[start..start + 3] == Flat(init)[start..start + 3];
      }
    }

    lemma PcfichFacts()
      requires Ready()
      ensures Numbered(cell, regs) && |pcfich| == 4 && Distinct(pcfich) && forall r :: r in pcfich ==> r < |regs|
    {
      hide Numbered, PhichUnits, ListOf;
      PcfichDistinct(cell, regs, pcfich);
    }

    lemma PdcchFacts(start: nat, nofRegs: nat)
      requires Ready() && start + nofRegs <= nofPdcch[cfi]
      ensures start + nofRegs <= |pdcch[cfi]| && Numbered(cell, regs)
      ensures var list := pdcch[cfi][start..start + nofRegs]; Distinct(list) && forall r :: r in list ==> r < |regs|
    {
      hide Numbered, PhichUnits, IsPcfich, IsUnits;
      var list := pdcch[cfi][start..start + nofRegs];
      forall r | r in list
        ensures r < |regs|
      {
        assert r in pdcch[cfi];
      }
    }

    /** Writes the symbols of nofRegs groups from group start of the interleaved list on. */
    method PdcchPutOffset(d: array<Symbol>, grid: array<Symbol>, start: nat, nofRegs: nat) returns (ret: int)
      requires Ready() && InGrid(cell, grid.Length) && d != grid
      requires start + nofRegs <= nofPdcch[cfi] ==> 4 * nofRegs <= d.Length
      modifies grid
      ensures ret == if cfiInitiated && start + nofRegs <= nofPdcch[cfi] then 4 * nofRegs else -1
      ensures ret == -1 ==> grid[..] == old(grid[..])
      ensures ret != -1 ==>
                && start + nofRegs <= |pdcch[cfi]|
                && Carries(cell, regs, grid[..], pdcch[cfi][start..start + nofRegs], d[..4 * nofRegs])
                && OthersKept(cell, regs, old(grid[..]), grid[..], pdcch[cfi][start..start + nofRegs])
    {
      hide Allocated, Carries, OthersKept;
      if cfiInitiated && start + nofRegs <= nofPdcch[cfi] {
        PdcchFacts(start, nofRegs);
        ret := PutList(cell, regs, pdcch[cfi][start..start + nofRegs], d, grid);
      } else {
        ret := -1;
      }
    }

    method PdcchGetOffset(grid: array<Symbol>, d: array<Symbol>, start: nat, nofRegs: nat) returns (ret: int)
      requires Ready() && InGrid(cell, grid.Length) && d != grid
      requires start + nofRegs <= nofPdcch[cfi] ==> 4 * nofRegs <= d.Length
      modifies d
      ensures ret == if cfiInitiated && start + nofRegs <= nofPdcch[cfi] then 4 * nofRegs else -1
      ensures ret != -1 ==>
                && start + nofRegs <= |pdcch[cfi]|
                && Carries(cell, regs, grid[..], pdcch[cfi][start..start + nofRegs], d[..4 * nofRegs])
    {
      hide Allocated, Carries;
      if cfiInitiated && start + nofRegs <= nofPdcch[cfi] {
        PdcchFacts(start, nofRegs);
        ret := GetList(cell, regs, pdcch[cfi][start..start + nofRegs], grid, d);
      } else {
        ret := -1;
      }
    }
  }

  // ---- symbols of groups ----

  predicate InGrid(c: Carrier, n: nat) {
    c.MaxCtrl() * (c.nofPrb * NRE) <= n
  }

  /** Element t of a group in the grid. */
  function Element(c: Carrier, g: Reg, t: nat): (x: nat)
    requires t < |g.k|
  {
    MulNonNegative(g.l, c.nofPrb * NRE);
    g.k[t] + g.l * (c.nofPrb * NRE)
  }

  lemma ElementsApart(c: Carrier, regs: seq<Reg>, r: nat, t: nat, r': nat, t': nat)
    requires Numbered(c, regs) && r < |regs| && r' < |regs| && t < 4 && t' < 4
    ensures |regs[r].k| == |regs[r'].k| == 4
    ensures Element(c, regs[r], t) == Element(c, regs[r'], t') ==> r == r' && t == t'
  {
    hide Numbered;
    ElementsInside(c, regs, r, t);
    ElementsInside(c, regs, r', t');
    if Element(c, regs[r], t) == Element(c, regs[r'], t') {
      ModUnique(Element(c, regs[r], t), c.nofPrb * NRE, regs[r].l, regs[r].k[t]);
      ModUnique(Element(c, regs[r], t), c.nofPrb * NRE, regs[r'].l, regs[r'].k[t']);
      ElementsDistinct(c, regs, r, t, r', t');
    }
  }

  /** With control format f + 1, and one symbol more below 10 blocks, every element of the control symbols
      is a reference or belongs to exactly one group, of the PCFICH, the PHICH or the PDCCH. */
  lemma RegionIsFilled(c: Carrier, regs: seq<Reg>, a: seq<bool>, pcfich: seq<nat>, phich: seq<seq<nat>>,
                       pdcch: seq<seq<nat>>, nofPdcch: seq<nat>, f: nat, l: nat, k: nat)
    requires Allocated(c, regs, a, pcfich, phich, pdcch, nofPdcch) && f < 3
    requires l < f + 1 + (if c.nofPrb < 10 then 1 else 0) && k < 12 * c.nofPrb
    ensures l * (12 * c.nofPrb) + k >= 0
    ensures Pilot(c, l, k) || Owned(c, regs, pcfich + Flat(phich) + pdcch[f], l * (12 * c.nofPrb) + k)
    ensures Pilot(c, l, k) ==> !Owned(c, regs, pcfich + Flat(phich) + pdcch[f], l * (12 * c.nofPrb) + k)
    ensures Distinct(pcfich + Flat(phich) + pdcch[f])
  {
    hide Numbered, Flat, IsPcfich, IsUnits, Pilot, Element;
    var x, taken := l * (12 * c.nofPrb) + k, pcfich + Flat(phich);
    MulNonNegative(l, 12 * c.nofPrb);
    NumberedFacts(c, regs);
    GroupsAvoidPilots(c, regs, l, k);
    DistinctJoin(taken, pdcch[f]);
    if !Pilot(c, l, k) {
      var r, t :| 0 <= r < |regs| && 0 <= t < |regs[r].k| && regs[r].l == l && regs[r].k[t] == k;
      ElementAt(c, regs[r], t);
      assert IsElement(c, regs, r, t, x);
      assert r in taken || r in pdcch[f];
      assert r in taken + pdcch[f];
    } else if Owned(c, regs, taken + pdcch[f], x) {
      var r, t :| r in taken + pdcch[f] && IsElement(c, regs, r, t, x);
      PilotNotElement(c, regs, r, t, l, k);
    }
  }

  lemma DistinctJoin(s: seq<nat>, t: seq<nat>)
    requires Distinct(s) && Distinct(t) && forall x :: x in t ==> x !in s
    ensures Distinct(s + t)
  {
    var u := s + t;
    forall i, j | 0 <= i < j < |u|
      ensures u[i] != u[j]
    {
      if j >= |s| { assert u[j] in t; }
      if i < |s| { assert u[i] in s; }
    }
  }

  lemma NumberedFacts(c: Carrier, regs: seq<Reg>)
    requires Numbered(c, regs)
    ensures c.Valid() && c.MaxCtrl() == (if c.nofPrb < 10 then 4 else 3)
  {
  }

  /** Elements lie in the grid symbol by symbol, 12 to a block. */
  lemma ElementAt(c: Carrier, g: Reg, t: nat)
    requires t < |g.k|
    ensures Element(c, g, t) == g.l * (12 * c.nofPrb) + g.k[t]
  {
    assert c.nofPrb * NRE == 12 * c.nofPrb;
  }

  lemma PilotNotElement(c: Carrier, regs: seq<Reg>, r: nat, t: nat, l: nat, k: nat)
    requires Numbered(c, regs) && l < c.MaxCtrl() && k < NRE * c.nofPrb && Pilot(c, l, k)
    ensures l * (12 * c.nofPrb) + k >= 0 && !IsElement(c, regs, r, t, l * (12 * c.nofPrb) + k)
  {
    hide Numbered, Pilot, Element;
    var n, x := 12 * c.nofPrb, l * (12 * c.nofPrb) + k;
    MulNonNegative(l, n);
    if IsElement(c, regs, r, t, x) {
      ElementsAreFour(c, regs, r);
      ElementsInside(c, regs, r, t);
      ElementAt(c, regs[r], t);
      ModUnique(x, n, l, k);
      ModUnique(x, n, regs[r].l, regs[r].k[t]);
      assert Grouped(regs, l, k);
      GroupsAvoidPilots(c, regs, l, k);
    }
  }

  lemma ElementsAreFour(c: Carrier, regs: seq<Reg>, r: nat)
    requires Numbered(c, regs) && r < |regs|
    ensures |regs[r].k| == 4
  {
    hide Numbered;
    ElementsInside(c, regs, r, 0);
  }

  lemma ElementInGrid(c: Carrier, regs: seq<Reg>, r: nat, t: nat, n: nat)
    requires Numbered(c, regs) && r < |regs| && t < 4 && InGrid(c, n)
    ensures |regs[r].k| == 4 && Element(c, regs[r], t) < n
  {
    hide Numbered;
    ElementsInside(c, regs, r, t);
    MulOrder(c.nofPrb * NRE, regs[r].l, c.MaxCtrl());
  }

  /** Symbol t of the i-th group. */
  function Part(d: seq<Symbol>, i: nat, t: nat): Symbol
    requires 4 * i + t < |d|
  {
    d[4 * i + t]
  }

  /** The grid holds the symbols at the elements of the listed groups, in their order. */
  ghost predicate Carries(c: Carrier, regs: seq<Reg>, grid: seq<Symbol>, list: seq<nat>, d: seq<Symbol>) {
    && |d| == 4 * |list|
    && forall i, t {:trigger Part(d, i, t)} :: 0 <= i < |list| && 0 <= t < 4 ==>
         Holds(c, regs, grid, list[i], t, Part(d, i, t))
  }

  ghost predicate Holds(c: Carrier, regs: seq<Reg>, grid: seq<Symbol>, r: nat, t: nat, s: Symbol) {
    r < |regs| && t < |regs[r].k| && Element(c, regs[r], t) < |grid| && grid[Element(c, regs[r], t)] == s
  }

  /** No element outside the listed groups has changed. */
  ghost predicate OthersKept(c: Carrier, regs: seq<Reg>, grid0: seq<Symbol>, grid: seq<Symbol>, list: seq<nat>) {
    && |grid| == |grid0|
    && forall x :: 0 <= x < |grid| && !Owned(c, regs, list, x) ==> grid[x] == grid0[x]
  }

  ghost predicate Owned(c: Carrier, regs: seq<Reg>, list: seq<nat>, x: nat) {
    exists r, t {:trigger IsElement(c, regs, r, t, x)} :: r in list && IsElement(c, regs, r, t, x)
  }

  ghost predicate IsElement(c: Carrier, regs: seq<Reg>, r: nat, t: nat, x: nat) {
    r < |regs| && t < |regs[r].k| && Element(c, regs[r], t) == x
  }

  /** What was read from where something was written is what was written. */
  lemma CarriesOne(c: Carrier, regs: seq<Reg>, grid: seq<Symbol>, list: seq<nat>, d: seq<Symbol>, e: seq<Symbol>)
    requires Carries(c, regs, grid, list, d) && Carries(c, regs, grid, list, e)
    ensures d == e
  {
    forall x | 0 <= x < |d|
      ensures d[x] == e[x]
    {
      assert Part(d, x / 4, x % 4) == d[x] && Part(e, x / 4, x % 4) == e[x];
    }
  }

  /** Writing one channel leaves every other channel's symbols in place. */
  lemma ChannelsApart(c: Carrier, regs: seq<Reg>, grid: seq<Symbol>, grid': seq<Symbol>, list: seq<nat>, d: seq<Symbol>,
                      other: seq<nat>)
    requires Numbered(c, regs) && Carries(c, regs, grid, list, d) && OthersKept(c, regs, grid, grid', other)
    requires forall r :: r in list ==> r !in other && r < |regs|
    ensures Carries(c, regs, grid', list, d)
  {
    hide Numbered, Element;
    forall i, t {:trigger Part(d, i, t)} | 0 <= i < |list| && 0 <= t < 4
      ensures Holds(c, regs, grid', list[i], t, Part(d, i, t))
    {
      var r := list[i];
      assert Holds(c, regs, grid, r, t, Part(d, i, t));
      forall r', t' {:trigger IsElement(c, regs, r', t', Element(c, regs[r], t))} |
        r' in other && IsElement(c, regs, r', t', Element(c, regs[r], t))
        ensures false
      {
        ElementsInside(c, regs, r', 0);
        ElementsApart(c, regs, r, t, r', t');
      }
      assert !Owned(c, regs, other, Element(c, regs[r], t));
    }
  }

  /** The groups of the three channels are disjoint lists. */
  lemma ListsApart(c: Carrier, regs: seq<Reg>, a: seq<bool>, pcfich: seq<nat>, phich: seq<seq<nat>>,
                   pdcch: seq<seq<nat>>, nofPdcch: seq<nat>, f: nat)
    requires Allocated(c, regs, a, pcfich, phich, pdcch, nofPdcch) && f < 3
    ensures forall r :: r in pdcch[f] ==> r !in pcfich && r !in Flat(phich)
    ensures forall r :: r in pcfich ==> r !in Flat(phich)
  {
    hide Numbered, IsUnits, IsPcfich;
    var all := pcfich + Flat(phich);
    forall r | r in pcfich
      ensures r !in Flat(phich)
    {
      var i :| 0 <= i < |pcfich| && pcfich[i] == r;
      forall j | 0 <= j < |Flat(phich)|
        ensures Flat(phich)[j] != r
      {
        assert all[i] != all[|pcfich| + j];
      }
    }
    forall r | r in pdcch[f]
      ensures r !in all
    {
    }
  }

  method PutReg(c: Carrier, reg: Reg, d: array<Symbol>, k: nat, grid: array<Symbol>)
    requires |reg.k| == 4 && k + 4 <= d.Length && d != grid
    requires forall t :: 0 <= t < 4 ==> Element(c, reg, t) < grid.Length
    requires forall t, u :: 0 <= t < u < 4 ==> Element(c, reg, t) != Element(c, reg, u)
    modifies grid
    ensures forall t :: 0 <= t < 4 ==> grid[Element(c, reg, t)] == d[k + t]
    ensures forall x :: 0 <= x < grid.Length && (forall t :: 0 <= t < 4 ==> x != Element(c, reg, t)) ==>
              grid[x] == old(grid[x])
  {
    hide Element;
    var i := 0;
    while i < 4
      invariant i <= 4 && forall t :: 0 <= t < i ==> grid[Element(c, reg, t)] == d[k + t]
      invariant forall x :: 0 <= x < grid.Length && (forall t :: 0 <= t < 4 ==> x != Element(c, reg, t)) ==>
                  grid[x] == old(grid[x])
    {
      grid[Element(c, reg, i)] := d[k + i];
      i := i + 1;
    }
  }

  method GetReg(c: Carrier, reg: Reg, grid: array<Symbol>, d: array<Symbol>, k: nat)
    requires |reg.k| == 4 && k + 4 <= d.Length && d != grid
    requires forall t :: 0 <= t < 4 ==> Element(c, reg, t) < grid.Length
    modifies d
    ensures forall t :: 0 <= t < 4 ==> grid[Element(c, reg, t)] == d[k + t]
    ensures forall x :: 0 <= x < d.Length && !(k <= x < k + 4) ==> d[x] == old(d[x])
  {
    hide Element;
    var i := 0;
    while i < 4
      invariant i <= 4 && forall t :: 0 <= t < i ==> grid[Element(c, reg, t)] == d[k + t]
      invariant forall x :: 0 <= x < d.Length && !(k <= x < k + 4) ==> d[x] == old(d[x])
    {
      d[k + i] := grid[Element(c, reg, i)];
      i := i + 1;
    }
  }

  lemma GroupReady(c: Carrier, regs: seq<Reg>, r: nat, n: nat)
    requires Numbered(c, regs) && r < |regs| && InGrid(c, n)
    ensures |regs[r].k| == 4
    ensures forall t :: 0 <= t < 4 ==> Element(c, regs[r], t) < n
    ensures forall t, u :: 0 <= t < u < 4 ==> Element(c, regs[r], t) != Element(c, regs[r], u)
  {
    hide Numbered, Element;
    ElementsInside(c, regs, r, 0);
    forall t | 0 <= t < 4
      ensures Element(c, regs[r], t) < n
    {
      ElementInGrid(c, regs, r, t, n);
    }
    forall t, u | 0 <= t < u < 4
      ensures Element(c, regs[r], t) != Element(c, regs[r], u)
    {
      ElementsApart(c, regs, r, t, r, u);
    }
  }

  // The first n groups of the list hold their symbols.
  ghost predicate CarriesTo(c: Carrier, regs: seq<Reg>, grid: seq<Symbol>, list: seq<nat>, d: seq<Symbol>, n: nat) {
    && |d| == 4 * |list| && n <= |list|
    && forall i, t {:trigger Part(d, i, t)} :: 0 <= i < n && 0 <= t < 4 ==>
         Holds(c, regs, grid, list[i], t, Part(d, i, t))
  }

  lemma PutStep(c: Carrier, regs: seq<Reg>, grid0: seq<Symbol>, grid: seq<Symbol>, grid': seq<Symbol>, list: seq<nat>,
                d: seq<Symbol>, n: nat)
    requires Numbered(c, regs) && Distinct(list) && (forall r :: r in list ==> r < |regs|) && InGrid(c, |grid|)
    requires CarriesTo(c, regs, grid, list, d, n) && OthersKept(c, regs, grid0, grid, list) && n < |list|
    requires |grid'| == |grid|
    requires list[n] < |regs| && |regs[list[n]].k| == 4
    requires forall t :: 0 <= t < 4 ==>
               Element(c, regs[list[n]], t) < |grid'| && grid'[Element(c, regs[list[n]], t)] == d[4 * n + t]
    requires forall x :: 0 <= x < |grid'| && (forall t :: 0 <= t < 4 ==> x != Element(c, regs[list[n]], t)) ==>
               grid'[x] == grid[x]
    ensures CarriesTo(c, regs, grid', list, d, n + 1) && OthersKept(c, regs, grid0, grid', list)
  {
    hide Numbered, Element, Owned;
    forall i, t {:trigger Part(d, i, t)} | 0 <= i < n + 1 && 0 <= t < 4
      ensures Holds(c, regs, grid', list[i], t, Part(d, i, t))
    {
      if i < n {
        assert Holds(c, regs, grid, list[i], t, Part(d, i, t));
        forall u | 0 <= u < 4
          ensures Element(c, regs[list[i]], t) != Element(c, regs[list[n]], u)
        {
          ElementsApart(c, regs, list[i], t, list[n], u);
        }
      }
    }
    forall x | 0 <= x < |grid'| && !Owned(c, regs, list, x)
      ensures grid'[x] == grid0[x]
    {
      forall t | 0 <= t < 4
        ensures x != Element(c, regs[list[n]], t)
      {
        OwnedElement(c, regs, list, n, t);
      }
    }
  }

  lemma OwnedElement(c: Carrier, regs: seq<Reg>, list: seq<nat>, n: nat, t: nat)
    requires n < |list| && list[n] < |regs| && t < |regs[list[n]].k|
    ensures Owned(c, regs, list, Element(c, regs[list[n]], t))
  {
    hide Element;
    assert list[n] in list && IsElement(c, regs, list[n], t, Element(c, regs[list[n]], t));
  }

  /** Writes four symbols to each listed group. */
  method PutList(c: Carrier, regs: seq<Reg>, list: seq<nat>, d: array<Symbol>, grid: array<Symbol>) returns (k: nat)
    requires Numbered(c, regs) && Distinct(list) && (forall r :: r in list ==> r < |regs|)
    requires InGrid(c, grid.Length) && 4 * |list| <= d.Length && d != grid
    modifies grid
    ensures k == 4 * |list| && Carries(c, regs, grid[..], list, d[..4 * |list|])
    ensures OthersKept(c, regs, old(grid[..]), grid[..], list)
  {
    hide Numbered, Element, Owned, Holds, Distinct;
    k := 0;
    var i := 0;
    ghost var data := d[..4 * |list|];
    while i < |list|
      invariant i <= |list| && k == 4 * i && data == d[..4 * |list|]
      invariant CarriesTo(c, regs, grid[..], list, data, i) && OthersKept(c, regs, old(grid[..]), grid[..], list)
    {
      assert list[i] in list;
      GroupReady(c, regs, list[i], grid.Length);
      ghost var before := grid[..];
      PutReg(c, regs[list[i]], d, k, grid);
      PutStep(c, regs, old(grid[..]), before, grid[..], list, data, i);
      k := k + 4;
      i := i + 1;
    }
  }

  lemma GetStep(c: Carrier, regs: seq<Reg>, grid: seq<Symbol>, list: seq<nat>, d: seq<Symbol>, d': seq<Symbol>, n: nat)
    requires CarriesTo(c, regs, grid, list, d, n) && n < |list| && |d'| == |d| && list[n] < |regs|
    requires |regs[list[n]].k| == 4
    requires forall t :: 0 <= t < 4 ==>
               Element(c, regs[list[n]], t) < |grid| && grid[Element(c, regs[list[n]], t)] == d'[4 * n + t]
    requires forall x :: 0 <= x < |d| && !(4 * n <= x < 4 * n + 4) ==> d'[x] == d[x]
    ensures CarriesTo(c, regs, grid, list, d', n + 1)
  {
    hide Element;
    forall i, t {:trigger Part(d', i, t)} | 0 <= i < n + 1 && 0 <= t < 4
      ensures Holds(c, regs, grid, list[i], t, Part(d', i, t))
    {
      if i < n { assert Holds(c, regs, grid, list[i], t, Part(d, i, t)); }
    }
  }

  /** Reads four symbols from each listed group. */
  method GetList(c: Carrier, regs: seq<Reg>, list: seq<nat>, grid: array<Symbol>, d: array<Symbol>) returns (k: nat)
    requires Numbered(c, regs) && (forall r :: r in list ==> r < |regs|)
    requires InGrid(c, grid.Length) && 4 * |list| <= d.Length && d != grid
    modifies d
    ensures k == 4 * |list| && Carries(c, regs, grid[..], list, d[..4 * |list|])
    ensures forall x :: 4 * |list| <= x < d.Length ==> d[x] == old(d[x])
  {
    hide Numbered, Element, Holds;
    k := 0;
    var i := 0;
    while i < |list|
      invariant i <= |list| && k == 4 * i && CarriesTo(c, regs, grid[..], list, d[..4 * |list|], i)
      invariant forall x :: 4 * |list| <= x < d.Length ==> d[x] == old(d[x])
    {
      assert list[i] in list;
      GroupReady(c, regs, list[i], grid.Length);
      ghost var before := d[..4 * |list|];
      GetReg(c, regs[list[i]], grid, d, k);
      GetStep(c, regs, grid[..], list, before, d[..4 * |list|], i);
      k := k + 4;
      i := i + 1;
    }
  }

  /** Symbol by symbol sums. */
  function Sums(e: seq<Symbol>, d: seq<Symbol>): (s: seq<Symbol>)
    ensures |s| == |e|
  {
    seq(|e|, x requires 0 <= x < |e| => if x < |d| then e[x].Plus(d[x]) else e[x])
  }

  method AddReg(c: Carrier, reg: Reg, d: array<Symbol>, k: nat, grid: array<Symbol>)
    requires |reg.k| == 4 && k + 4 <= d.Length && d != grid
    requires forall t :: 0 <= t < 4 ==> Element(c, reg, t) < grid.Length
    requires forall t, u :: 0 <= t < u < 4 ==> Element(c, reg, t) != Element(c, reg, u)
    modifies grid
    ensures forall t :: 0 <= t < 4 ==> grid[Element(c, reg, t)] == old(grid[Element(c, reg, t)]).Plus(d[k + t])
    ensures forall x :: 0 <= x < grid.Length && (forall t :: 0 <= t < 4 ==> x != Element(c, reg, t)) ==>
              grid[x] == old(grid[x])
  {
    hide Element;
    var i := 0;
    while i < 4
      invariant i <= 4
      invariant forall t :: 0 <= t < i ==> grid[Element(c, reg, t)] == old(grid[Element(c, reg, t)]).Plus(d[k + t])
      invariant forall t :: i <= t < 4 ==> grid[Element(c, reg, t)] == old(grid[Element(c, reg, t)])
      invariant forall x :: 0 <= x < grid.Length && (forall t :: 0 <= t < 4 ==> x != Element(c, reg, t)) ==>
                  grid[x] == old(grid[x])
    {
      grid[Element(c, reg, i)] := grid[Element(c, reg, i)].Plus(d[k + i]);
      i := i + 1;
    }
  }

  // The first n groups have had their symbols added, the rest are as they were.
  ghost predicate AddedTo(c: Carrier, regs: seq<Reg>, grid0: seq<Symbol>, grid: seq<Symbol>, list: seq<nat>,
                          d: seq<Symbol>, n: nat) {
    && |d| == 4 * |list| && n <= |list| && |grid| == |grid0|
    && forall i, t :: 0 <= i < |list| && 0 <= t < 4 ==> Gains(c, regs, grid0, grid, list, d, n, i, t)
  }

  ghost predicate Gains(c: Carrier, regs: seq<Reg>, grid0: seq<Symbol>, grid: seq<Symbol>, list: seq<nat>,
                        d: seq<Symbol>, n: nat, i: nat, t: nat)
    requires i < |list| && t < 4 && |d| == 4 * |list|
  {
    var r := list[i];
    && |grid| == |grid0| && r < |regs| && t < |regs[r].k| && Element(c, regs[r], t) < |grid|
    && grid[Element(c, regs[r], t)] ==
       if i < n then grid0[Element(c, regs[r], t)].Plus(Part(d, i, t)) else grid0[Element(c, regs[r], t)]
  }

  lemma NothingAdded(c: Carrier, regs: seq<Reg>, grid: seq<Symbol>, list: seq<nat>, d: seq<Symbol>)
    requires Numbered(c, regs) && (forall r :: r in list ==> r < |regs|) && InGrid(c, |grid|) && |d| == 4 * |list|
    ensures AddedTo(c, regs, grid, grid, list, d, 0) && OthersKept(c, regs, grid, grid, list)
  {
    hide Numbered, Element, Owned;
    forall i, t | 0 <= i < |list| && 0 <= t < 4
      ensures Gains(c, regs, grid, grid, list, d, 0, i, t)
    {
      assert list[i] in list;
      ElementInGrid(c, regs, list[i], t, |grid|);
    }
  }

  lemma AddStep(c: Carrier, regs: seq<Reg>, grid0: seq<Symbol>, grid: seq<Symbol>, grid': seq<Symbol>, list: seq<nat>,
                d: seq<Symbol>, n: nat)
    requires Numbered(c, regs) && Distinct(list) && (forall r :: r in list ==> r < |regs|)
    requires AddedTo(c, regs, grid0, grid, list, d, n) && OthersKept(c, regs, grid0, grid, list) && n < |list|
    requires |grid'| == |grid|
    requires list[n] < |regs| && |regs[list[n]].k| == 4
    requires forall t :: 0 <= t < 4 ==>
               Element(c, regs[list[n]], t) < |grid'| &&
               grid'[Element(c, regs[list[n]], t)] == grid[Element(c, regs[list[n]], t)].Plus(d[4 * n + t])
    requires forall x :: 0 <= x < |grid'| && (forall t :: 0 <= t < 4 ==> x != Element(c, regs[list[n]], t)) ==>
               grid'[x] == grid[x]
    ensures AddedTo(c, regs, grid0, grid', list, d, n + 1) && OthersKept(c, regs, grid0, grid', list)
  {
    hide Numbered, Element, Owned;
    var next := n + 1;
    forall i, t | 0 <= i < |list| && 0 <= t < 4
      ensures Gains(c, regs, grid0, grid', list, d, next, i, t)
    {
      assert Gains(c, regs, grid0, grid, list, d, n, i, t);
      if i != n {
        forall u | 0 <= u < 4
          ensures Element(c, regs[list[i]], t) != Element(c, regs[list[n]], u)
        {
          ElementsApart(c, regs, list[i], t, list[n], u);
        }
      }
    }
    forall x | 0 <= x < |grid'| && !Owned(c, regs, list, x)
      ensures grid'[x] == grid0[x]
    {
      forall t | 0 <= t < 4
        ensures x != Element(c, regs[list[n]], t)
      {
        OwnedElement(c, regs, list, n, t);
      }
    }
  }

  lemma AddedSums(c: Carrier, regs: seq<Reg>, grid0: seq<Symbol>, grid: seq<Symbol>, list: seq<nat>, d: seq<Symbol>,
                  e: seq<Symbol>)
    requires AddedTo(c, regs, grid0, grid, list, d, |list|) && Carries(c, regs, grid0, list, e)
    ensures Carries(c, regs, grid, list, Sums(e, d))
  {
    hide Element;
    var s := Sums(e, d);
    forall i, t {:trigger Part(s, i, t)} | 0 <= i < |list| && 0 <= t < 4
      ensures Holds(c, regs, grid, list[i], t, Part(s, i, t))
    {
      assert Gains(c, regs, grid0, grid, list, d, |list|, i, t);
      assert Holds(c, regs, grid0, list[i], t, Part(e, i, t));
    }
  }

  /** Adds four symbols to each listed group. */
  method AddList(c: Carrier, regs: seq<Reg>, list: seq<nat>, d: array<Symbol>, grid: array<Symbol>) returns (k: nat)
    requires Numbered(c, regs) && Distinct(list) && (forall r :: r in list ==> r < |regs|)
    requires InGrid(c, grid.Length) && d.Length == 4 * |list| && d != grid
    modifies grid
    ensures k == 4 * |list| && OthersKept(c, regs, old(grid[..]), grid[..], list)
    ensures forall e :: Carries(c, regs, old(grid[..]), list, e) ==> Carries(c, regs, grid[..], list, Sums(e, d[..]))
  {
    hide Numbered, Element, Owned, Holds, Distinct, Gains, Carries, Sums;
    k := 0;
    var i := 0;
    NothingAdded(c, regs, grid[..], list, d[..]);
    while i < |list|
      invariant i <= |list| && k == 4 * i
      invariant AddedTo(c, regs, old(grid[..]), grid[..], list, d[..], i)
      invariant OthersKept(c, regs, old(grid[..]), grid[..], list)
    {
      assert list[i] in list;
      GroupReady(c, regs, list[i], grid.Length);
      ghost var before := grid[..];
      AddReg(c, regs[list[i]], d, k, grid);
      AddStep(c, regs, old(grid[..]), before, grid[..], list, d[..], i);
      k := k + 4;
      i := i + 1;
    }
    forall e | Carries(c, regs, old(grid[..]), list, e)
      ensures Carries(c, regs, grid[..], list, Sums(e, d[..]))
    {
      AddedSums(c, regs, old(grid[..]), grid[..], list, d[..], e);
    }
  }
}

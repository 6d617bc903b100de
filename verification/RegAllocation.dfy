/** The allocation of the control region's resource element groups to its channels
    (srslte/lib/phch/regs.c, sections 6.7.4, 6.8.5 and 6.9.3 of TS 36.211). */
module RegAllocation {
  import opened CircularBuffer
  import opened NumberTheory
  import opened Permutations
  import opened RegGrid
  import PdcchInterleaver
  import ReferenceSignals

  /** A group: its four subcarriers, the lowest subcarrier it is known by, and its symbol. */
  datatype Reg = Reg(k: seq<nat>, k0: nat, l: nat)

  ghost function RegAt(c: Carrier, x: nat): (g: Reg)
    ensures |g.k| == 4
  {
    Reg([c.Subcarrier(x, 0), c.Subcarrier(x, 1), c.Subcarrier(x, 2), c.Subcarrier(x, 3)], c.First(x), c.SymbolAt(x))
  }

  /** The scan step that numbered group r. */
  ghost function StepOfReg(c: Carrier, r: nat): (x: nat)
    requires c.Valid() && r < c.NofRegs()
    ensures x < c.Steps() && c.Has(x)
  {
    c.CountIsTotal();
    var x := Kept(c.Mask(), c.Steps())[r];
    c.MaskAt(x);
    x
  }

  ghost predicate Numbered(c: Carrier, regs: seq<Reg>) {
    && c.Valid() && |regs| == c.NofRegs()
    && forall r :: 0 <= r < |regs| ==> regs[r] == RegAt(c, StepOfReg(c, r))
  }

  lemma StepsDiffer(c: Carrier, r: nat, r': nat)
    requires c.Valid() && r < c.NofRegs() && r' < c.NofRegs() && StepOfReg(c, r) == StepOfReg(c, r')
    ensures r == r'
  {
    hide Kept, Carrier.Mask, Carrier.NofRegs, Carrier.Steps;
    c.CountIsTotal();
    if r < r' { KeptIncreasing(c.Mask(), c.Steps(), r, r'); }
    if r' < r { KeptIncreasing(c.Mask(), c.Steps(), r', r); }
  }

  /** No two groups share an element of the grid. */
  lemma ElementsDistinct(c: Carrier, regs: seq<Reg>, r: nat, t: nat, r': nat, t': nat)
    requires Numbered(c, regs) && r < |regs| && r' < |regs| && t < 4 && t' < 4
    requires |regs[r].k| == |regs[r'].k| == 4
    requires regs[r].l == regs[r'].l && regs[r].k[t] == regs[r'].k[t']
    ensures r == r' && t == t'
  {
    hide StepOfReg, Carrier.Subcarrier, Carrier.SymbolAt;
    var x, y := StepOfReg(c, r), StepOfReg(c, r');
    c.GroupsDisjoint(x, t, y, t');
    StepsDiffer(c, r, r');
  }

  /** A group lies inside the carrier and avoids the reference symbols. */
  lemma ElementsInside(c: Carrier, regs: seq<Reg>, r: nat, t: nat)
    requires Numbered(c, regs) && r < |regs| && t < 4
    ensures |regs[r].k| == 4 && regs[r].k[t] < NRE * c.nofPrb && regs[r].l < c.MaxCtrl()
    ensures c.NumGroups(regs[r].l) == 2 ==> regs[r].k[t] % 3 != c.RefShift()
  {
    hide StepOfReg, Carrier.Subcarrier, Carrier.First;
    c.OwnerOfElement(StepOfReg(c, r), t);
  }

  // ---- groups and reference signals ----

  /** The references that the groups make room for: those of ports 0 and 1 even where there is one
      port, and of ports 2 and 3 where there are four. */
  ghost predicate Pilot(c: Carrier, l: nat, k: nat) {
    ReferenceSignals.IsPilot(c.id, if c.extended then 6 else 7, if c.nofPorts == 4 then 4 else 2, 0, l, k)
  }

  ghost predicate Grouped(regs: seq<Reg>, l: nat, k: nat) {
    exists r, t {:trigger regs[r].k[t]} ::
      0 <= r < |regs| && 0 <= t < |regs[r].k| && regs[r].l == l && regs[r].k[t] == k
  }

  lemma PilotResidue(c: Carrier, l: nat, k: nat)
    requires c.Valid() && l < c.MaxCtrl()
    ensures Pilot(c, l, k) <==> c.NumGroups(l) == 2 && k % 3 == c.RefShift()
  {
    ReferenceSignals.PilotIs(c.id, if c.extended then 6 else 7, if c.nofPorts == 4 then 4 else 2, 0, l, k);
  }

  /** A subcarrier off the references is an element of the group that owns it. */
  lemma OwnerTakes(c: Carrier, l: nat, k: nat) returns (x: nat, t: nat)
    requires c.Valid() && l < c.MaxCtrl() && k < NRE * c.nofPrb
    requires c.NumGroups(l) == 2 ==> k % 3 != c.RefShift()
    ensures x < c.Steps() && c.Has(x) && c.SymbolAt(x) == l && t < 4 && c.Subcarrier(x, t) == k
  {
    hide Carrier.StepOf, Carrier.NumGroups, Carrier.RefShift;
    var b, r := k / NRE, k % NRE;
    assert k == NRE * b + r && b < c.nofPrb;
    var layer := if c.NumGroups(l) == 3 then r / 4 else if r < 6 then 0 else 2;
    c.StepParts(b, layer, l);
    x := c.StepOf(b, layer, l);
    if c.NumGroups(l) == 3 {
      t := r % 4;
    } else {
      t := Unskipped(c.RefShift(), r % 6);
      assert k % 3 == r % 6 % 3;
      SkippingBack(c.RefShift(), r % 6);
    }
  }

  /** Which of the four the subcarrier is. */
  function Unskipped(vo: nat, r: nat): nat {
    if r < vo then r else if r < vo + 3 && r > 0 then r - 1 else if r > 1 then r - 2 else 0
  }

  lemma SkippingBack(vo: nat, r: nat)
    requires vo < 3 && r < 6 && r % 3 != vo
    ensures Unskipped(vo, r) < 4 && Skipping(vo, Unskipped(vo, r)) == r
  {
  }

  /** Exactness: the groups take every subcarrier of the control symbols but the references, and no
      reference. */
  lemma GroupsAvoidPilots(c: Carrier, regs: seq<Reg>, l: nat, k: nat)
    requires Numbered(c, regs) && l < c.MaxCtrl() && k < NRE * c.nofPrb
    ensures Grouped(regs, l, k) <==> !Pilot(c, l, k)
  {
    hide StepOfReg, Carrier.Subcarrier, Carrier.First, Carrier.NumGroups, Carrier.RefShift, Pilot;
    PilotResidue(c, l, k);
    if Grouped(regs, l, k) {
      var r, t :| 0 <= r < |regs| && 0 <= t < |regs[r].k| && regs[r].l == l && regs[r].k[t] == k;
      assert regs[r] == RegAt(c, StepOfReg(c, r));
      ElementsInside(c, regs, r, t);
    }
    if !Pilot(c, l, k) {
      var x, t := OwnerTakes(c, l, k);
      var r := RegOfStep(c, x);
      assert regs[r] == RegAt(c, x) && regs[r].k[t] == k;
    }
  }

  /** The number that a scan step gets. */
  lemma RegOfStep(c: Carrier, x: nat) returns (r: nat)
    requires c.Valid() && x < c.Steps() && c.Has(x)
    ensures r < c.NofRegs() && StepOfReg(c, r) == x
  {
    hide Kept, Carrier.Mask, Carrier.NofRegs, Carrier.Steps;
    c.MaskAt(x);
    c.CountIsTotal();
    KeptAt(c.Mask(), x);
    r := |Kept(c.Mask(), x)|;
  }

  /** No element of any group is a reference. */
  ghost predicate OffPilots(c: Carrier, regs: seq<Reg>) {
    forall r, t {:trigger regs[r].k[t]} :: 0 <= r < |regs| && 0 <= t < |regs[r].k| ==>
      !Pilot(c, regs[r].l, regs[r].k[t])
  }

  lemma AllOffPilots(c: Carrier, regs: seq<Reg>)
    requires Numbered(c, regs)
    ensures OffPilots(c, regs)
  {
    hide Pilot, StepOfReg, Carrier.Subcarrier, Carrier.First, Carrier.NumGroups, Carrier.RefShift, Carrier.SymbolAt;
    forall r, t | 0 <= r < |regs| && 0 <= t < |regs[r].k|
      ensures !Pilot(c, regs[r].l, regs[r].k[t])
    {
      assert regs[r] == RegAt(c, StepOfReg(c, r));
      ElementsInside(c, regs, r, t);
      GroupsAvoidPilots(c, regs, regs[r].l, regs[r].k[t]);
    }
  }

  // ---- the order of the numbers ----

  /** Group g comes before g' in the order of section 6.8.5 of TS 36.211: by subcarrier, then symbol. */
  predicate Before(g: Reg, g': Reg) {
    g.k0 < g'.k0 || (g.k0 == g'.k0 && g.l < g'.l)
  }

  /** The scan order is that order, unless the control region can hold a fourth symbol with
      references. */
  lemma StepsInOrder(c: Carrier, x: nat, y: nat)
    requires c.Valid() && x < y < c.Steps() && c.Has(x) && c.Has(y) && !(c.extended && c.nofPrb < 10)
    ensures Before(RegAt(c, x), RegAt(c, y))
  {
    hide Carrier.StepOf, Carrier.Subcarrier;
    c.StepIs(x);
    c.StepIs(y);
    var b, j, l, b', j', l' := c.PrbAt(x), c.LayerAt(x), c.SymbolAt(x), c.PrbAt(y), c.LayerAt(y), c.SymbolAt(y);
    StepOrder(c, b, j, l, b', j', l');
    hide Carrier.PrbAt, Carrier.LayerAt, Carrier.SymbolAt;
    assert c.First(x) < NRE * b + NRE;
  }

  lemma StepOrder(c: Carrier, b: nat, j: nat, l: nat, b': nat, j': nat, l': nat)
    requires j < 3 && j' < 3 && l < c.MaxCtrl() && l' < c.MaxCtrl()
    requires c.StepOf(b, j, l) < c.StepOf(b', j', l')
    ensures b < b' || (b == b' && (j < j' || (j == j' && l < l')))
  {
    var m, q, q' := c.MaxCtrl(), 3 * b + j, 3 * b' + j';
    MulOrder(m, q', q);
  }

  ghost predicate InOrder(regs: seq<Reg>) {
    forall r, r' :: 0 <= r < r' < |regs| ==> Before(regs[r], regs[r'])
  }

  /** The groups are numbered as section 6.8.5 of TS 36.211 asks if and only if the carrier is not both
      narrower than 10 blocks and of extended prefix. */
  lemma NumberedInOrder(c: Carrier, regs: seq<Reg>)
    requires Numbered(c, regs)
    ensures InOrder(regs) <==> !(c.extended && c.nofPrb < 10)
  {
    hide Kept, Carrier.Mask, Carrier.NofRegs, Carrier.Steps, RegAt, Carrier.Has;
    if !(c.extended && c.nofPrb < 10) {
      forall r, r' | 0 <= r < r' < |regs|
        ensures Before(regs[r], regs[r'])
      {
        c.CountIsTotal();
        KeptIncreasing(c.Mask(), c.Steps(), r, r');
        StepsInOrder(c, StepOfReg(c, r), StepOfReg(c, r'));
      }
    } else {
      var r, r' := OutOfOrder(c, regs);
    }
  }

  /** In the third symbol the last group of a block starts at subcarrier 8, in the fourth at 6, and it
      is numbered later. */
  lemma OutOfOrder(c: Carrier, regs: seq<Reg>) returns (r: nat, r': nat)
    requires Numbered(c, regs) && c.extended && c.nofPrb < 10
    ensures r < r' < |regs| && !Before(regs[r], regs[r'])
  {
    hide Kept, Carrier.Mask, Carrier.NofRegs, Carrier.Steps;
    c.StepParts(0, 2, 2);
    c.StepParts(0, 2, 3);
    r := RegOfStep(c, c.StepOf(0, 2, 2));
    r' := RegOfStep(c, c.StepOf(0, 2, 3));
    c.CountIsTotal();
    if r' < r { KeptIncreasing(c.Mask(), c.Steps(), r', r); }
  }

  /** Every symbol has two groups in each block, one starting with the block. */
  ghost function Outer(c: Carrier, l: nat, m: nat): (r: nat)
    requires c.Valid() && l < c.MaxCtrl() && m < 2 * c.nofPrb
    ensures r < c.NofRegs() && StepOfReg(c, r) == c.StepOf(m / 2, 2 * (m % 2), l)
  {
    var x := c.StepOf(m / 2, 2 * (m % 2), l);
    c.StepParts(m / 2, 2 * (m % 2), l);
    c.MaskAt(x);
    c.CountIsTotal();
    KeptAt(c.Mask(), x);
    |Kept(c.Mask(), x)|
  }

  lemma OuterIs(c: Carrier, regs: seq<Reg>, l: nat, m: nat)
    requires Numbered(c, regs) && l < c.MaxCtrl() && m < 2 * c.nofPrb
    ensures Outer(c, l, m) < |regs| && regs[Outer(c, l, m)].l == l
    ensures l == 0 ==> regs[Outer(c, l, m)].k0 == 6 * m
  {
    hide Outer, StepOfReg, Carrier.StepOf, Carrier.Subcarrier;
    c.StepParts(m / 2, 2 * (m % 2), l);
  }

  lemma OuterDistinct(c: Carrier, l: nat, m: nat, m': nat)
    requires c.Valid() && l < c.MaxCtrl() && m < m' < 2 * c.nofPrb
    ensures Outer(c, l, m) != Outer(c, l, m')
  {
    hide Outer, StepOfReg, Carrier.StepOf;
    c.StepParts(m / 2, 2 * (m % 2), l);
    c.StepParts(m' / 2, 2 * (m' % 2), l);
  }

  lemma {:induction false} ElementsAtMost(f: seq<nat>)
    ensures |Elements(f)| <= |f|
  {
    if f != [] {
      var init, last := f[..|f| - 1], f[|f| - 1];
      ElementsAtMost(init);
      assert Elements(f) == Elements(init) + {last};
    }
  }

  /** A list of all groups of a symbol that are not taken is long. */
  lemma ManyFree(c: Carrier, regs: seq<Reg>, taken: seq<nat>, list: seq<nat>, l: nat)
    requires Numbered(c, regs) && l < c.MaxCtrl()
    requires forall r :: 0 <= r < |regs| && regs[r].l == l && r !in taken ==> r in list
    ensures |list| + |taken| >= 2 * c.nofPrb
  {
    hide Outer;
    var outer := seq<nat>(2 * c.nofPrb, m requires 0 <= m < 2 * c.nofPrb => Outer(c, l, m));
    forall i, j | 0 <= i < j < |outer|
      ensures outer[i] != outer[j]
    {
      OuterDistinct(c, l, i, j);
    }
    DistinctCardinality(outer);
    ElementsAtMost(list);
    ElementsAtMost(taken);
    forall r | r in outer
      ensures r in list || r in taken
    {
      var m :| 0 <= m < |outer| && outer[m] == r;
      OuterIs(c, regs, l, m);
    }
    assert Elements(outer) <= Elements(list) + Elements(taken);
    SubsetSize(Elements(outer), Elements(list) + Elements(taken));
  }

  lemma SubsetSize<T>(a: set<T>, b: set<T>)
    requires a <= b
    ensures |a| <= |b|
  {
    assert b == a + (b - a);
  }

  // ---- numbering the groups ----

  /** The indices of one group. */
  method RegInit(symbol: nat, nreg: nat, k0: nat, maxreg: nat, vo: nat) returns (ret: int, reg: Reg)
    requires vo < 3
    ensures ret == if maxreg == 2 || maxreg == 3 then 0 else -1
    ensures ret == 0 ==> reg.l == symbol && |reg.k| == 4
    ensures maxreg == 2 ==>
              reg.k0 == k0 + nreg * 6 && forall t :: 0 <= t < 4 ==> reg.k[t] == k0 + nreg * 6 + Skipping(vo, t)
    ensures maxreg == 3 ==> reg.k0 == k0 + nreg * 4 && forall t :: 0 <= t < 4 ==> reg.k[t] == k0 + nreg * 4 + t
  {
    var k := new nat[4];
    if maxreg == 2 {
      var j, i := 0, 0;
      while i < vo
        invariant i <= vo && j == i && forall t :: 0 <= t < j ==> k[t] == k0 + nreg * 6 + Skipping(vo, t)
      {
        k[j] := k0 + nreg * 6 + i;
        j, i := j + 1, i + 1;
      }
      i := 0;
      while i < 2
        invariant i <= 2 && j == vo + i && forall t :: 0 <= t < j ==> k[t] == k0 + nreg * 6 + Skipping(vo, t)
      {
        k[j] := k0 + nreg * 6 + i + vo + 1;
        j, i := j + 1, i + 1;
      }
      var z := j;
      i := 0;
      while i < 4 - z
        invariant i <= 4 - z && j == z + i && forall t :: 0 <= t < j ==> k[t] == k0 + nreg * 6 + Skipping(vo, t)
      {
        k[j] := k0 + nreg * 6 + vo + 3 + i + 1;
        j, i := j + 1, i + 1;
      }
      return 0, Reg(k[..], k0 + nreg * 6, symbol);
    } else if maxreg == 3 {
      var i := 0;
      while i < 4
        invariant i <= 4 && forall t :: 0 <= t < i ==> k[t] == k0 + nreg * 4 + t
      {
        k[i] := k0 + nreg * 4 + i;
        i := i + 1;
      }
      return 0, Reg(k[..], k0 + nreg * 4, symbol);
    } else {
      return -1, Reg([], 0, symbol);
    }
  }

  // The groups met before scan step x have been numbered.
  ghost predicate NumberedTo(c: Carrier, regs: seq<Reg>, x: nat) {
    && c.Valid() && x <= c.Steps() && |regs| == |Kept(c.Mask(), x)| <= c.NofRegs()
    && forall r :: 0 <= r < |regs| ==> regs[r] == RegAt(c, StepOfReg(c, r))
  }

  lemma NumberedStep(c: Carrier, regs: seq<Reg>, x: nat)
    requires NumberedTo(c, regs, x) && x < c.Steps()
    ensures c.Has(x) ==> NumberedTo(c, regs + [RegAt(c, x)], x + 1)
    ensures !c.Has(x) ==> NumberedTo(c, regs, x + 1)
  {
    hide Kept, Carrier.Mask, RegAt, Carrier.Has, Carrier.NofRegs, Carrier.Steps;
    c.MaskAt(x);
    KeptStep(c.Mask(), x);
    c.CountIsTotal();
    KeptPrefix(c.Mask(), x + 1, c.Steps());
    if c.Has(x) { KeptAt(c.Mask(), x); }
  }

  lemma AllNumbered(c: Carrier, regs: seq<Reg>, x: nat)
    requires NumberedTo(c, regs, x) && |regs| >= c.NofRegs()
    ensures Numbered(c, regs)
  {
  }

  lemma MoreSteps(c: Carrier, regs: seq<Reg>, x: nat)
    requires NumberedTo(c, regs, x) && |regs| < c.NofRegs()
    ensures x < c.Steps()
  {
    c.CountIsTotal();
  }

  lemma NothingNumbered(c: Carrier)
    requires c.Valid()
    ensures NumberedTo(c, [], 0)
  {
    hide Carrier.NofRegs;
  }

  /** Numbers the groups by lowest subcarrier, then symbol. */
  method NumberRegs(c: Carrier) returns (regs: seq<Reg>)
    requires c.Valid()
    ensures Numbered(c, regs)
  {
    hide NumberedTo, RegAt, Carrier.NofRegs, Numbered, Carrier.StepOf, Carrier.Has, Carrier.Steps;
    regs := [];
    NothingNumbered(c);
    var vo := c.RefShift();
    var nofRegs := c.NofRegs();
    var j := new nat[4](_ => 0);
    var i, prb, jmax := 0, 0, 0;
    ghost var x := 0;
    FirstStep(c);
    while |regs| < nofRegs
      invariant i < c.MaxCtrl() && jmax < 3 && x == c.StepOf(prb, jmax, i)
      invariant NumberedTo(c, regs, x)
      invariant forall l :: 0 <= l < c.MaxCtrl() ==> j[l] == c.GroupsBelow(l, jmax + if l < i then 1 else 0)
      decreases c.Steps() - x
    {
      MoreSteps(c, regs, x);
      NumberedStep(c, regs, x);
      c.StepParts(prb, jmax, i);
      HasGroup(c, x);
      if c.NumGroups(i) == 3 || (c.NumGroups(i) == 2 && jmax != 1) {
        var ret, reg := RegInit(i, j[i], prb * NRE, c.NumGroups(i), vo);
        GroupIs(c, x, reg);
        regs := regs + [reg];
        j[i] := j[i] + 1;
      }
      NextStep(c, prb, jmax, i);
      i := i + 1;
      if i == c.MaxCtrl() {
        i := 0;
        jmax := jmax + 1;
      }
      if jmax == 3 {
        prb := prb + 1;
        forall l | 0 <= l < 4 { j[l] := 0; }
        jmax := 0;
      }
      x := x + 1;
    }
    AllNumbered(c, regs, x);
  }

  lemma FirstStep(c: Carrier)
    ensures c.StepOf(0, 0, 0) == 0
  {
  }

  lemma HasGroup(c: Carrier, x: nat)
    ensures c.Has(x) <==> c.NumGroups(c.SymbolAt(x)) == 3 || (c.NumGroups(c.SymbolAt(x)) == 2 && c.LayerAt(x) != 1)
  {
  }

  lemma NextStep(c: Carrier, prb: nat, layer: nat, l: nat)
    requires layer < 3 && l < c.MaxCtrl()
    ensures c.StepOf(prb, layer, l) + 1 ==
            if l + 1 < c.MaxCtrl() then c.StepOf(prb, layer, l + 1)
            else if layer + 1 < 3 then c.StepOf(prb, layer + 1, 0) else c.StepOf(prb + 1, 0, 0)
  {
  }

  lemma GroupIs(c: Carrier, x: nat, reg: Reg)
    requires reg.l == c.SymbolAt(x) && |reg.k| == 4
    requires var n, g := c.NumGroups(c.SymbolAt(x)), c.GroupsBelow(c.SymbolAt(x), c.LayerAt(x));
             if n == 2 then
               && reg.k0 == c.PrbAt(x) * NRE + g * 6
               && forall t :: 0 <= t < 4 ==> reg.k[t] == c.PrbAt(x) * NRE + g * 6 + Skipping(c.RefShift(), t)
             else
               && reg.k0 == c.PrbAt(x) * NRE + g * 4
               && forall t :: 0 <= t < 4 ==> reg.k[t] == c.PrbAt(x) * NRE + g * 4 + t
    ensures reg == RegAt(c, x)
  {
    hide Carrier.SymbolAt, Carrier.PrbAt, Carrier.GroupsBelow, Carrier.LayerAt;
    assert reg.k == RegAt(c, x).k;
  }
}

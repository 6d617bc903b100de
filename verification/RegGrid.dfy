/** The resource element groups of the control region (section 6.2.4 of TS 36.211): which elements each group
    takes and in which order the groups are numbered. */
module RegGrid {
  import opened CircularBuffer
  import opened NumberTheory

  const NRE := 12

  /** The four of six subcarriers that are not references, which sit at vo and vo + 3. */
  function Skipping(vo: nat, t: nat): nat {
    if t < vo then t else if t < vo + 2 then t + 1 else t + 2
  }

  datatype Ng = Sixth | Half | One | Two

  datatype Carrier = Carrier(id: nat, nofPrb: nat, nofPorts: nat, extended: bool, phichExtended: bool, ng: Ng) {
    predicate Valid() {
      6 <= nofPrb <= 110 && (nofPorts == 1 || nofPorts == 2 || nofPorts == 4)
    }

    function MaxCtrl(): (m: nat)
      ensures m == 3 || m == 4
    {
      if nofPrb < 10 then 4 else 3
    }

    /** Groups of a block in a symbol: two where the symbol holds references, three elsewhere. */
    function NumGroups(l: nat): (n: nat)
      ensures n == 2 || n == 3
    {
      if l == 0 || (l == 1 && nofPorts == 4) || (l == 3 && extended) then 2 else 3
    }

    /** Groups of a block in all symbols. */
    function PerPrb(): nat {
      NumGroups(0) + NumGroups(1) + NumGroups(2) + if MaxCtrl() == 4 then NumGroups(3) else 0
    }

    function NofRegs(): nat {
      nofPrb * PerPrb()
    }

    /** The allocation scans blocks, within a block three layers, within a layer the symbols. */
    function Steps(): nat {
      nofPrb * (3 * MaxCtrl())
    }

    function SymbolAt(x: nat): (l: nat)
      ensures l < MaxCtrl()
    {
      x % MaxCtrl()
    }

    function LayerAt(x: nat): (j: nat)
      ensures j < 3
    {
      x / MaxCtrl() % 3
    }

    function PrbAt(x: nat): nat {
      x / MaxCtrl() / 3
    }

    function StepOf(prb: nat, layer: nat, l: nat): nat {
      (prb * 3 + layer) * MaxCtrl() + l
    }

    lemma StepParts(prb: nat, layer: nat, l: nat)
      requires layer < 3 && l < MaxCtrl()
      ensures var x := StepOf(prb, layer, l); x >= 0 && SymbolAt(x) == l && LayerAt(x) == layer && PrbAt(x) == prb
      ensures prb < nofPrb ==> StepOf(prb, layer, l) < Steps()
    {
      var q := prb * 3 + layer;
      ModUnique(q * MaxCtrl() + l, MaxCtrl(), q, l);
      assert q * MaxCtrl() == MaxCtrl() * q;
      MulNonNegative(q, MaxCtrl());
    }

    lemma StepIs(x: nat)
      requires x < Steps()
      ensures x == StepOf(PrbAt(x), LayerAt(x), SymbolAt(x)) && PrbAt(x) < nofPrb
    {
      var q := x / MaxCtrl();
      assert x == MaxCtrl() * q + x % MaxCtrl();
      assert q == 3 * (q / 3) + q % 3;
    }

    /** The layer in the middle has no group where the symbol has only two. */
    predicate Has(x: nat) {
      NumGroups(SymbolAt(x)) == 3 || LayerAt(x) != 1
    }

    function Mask(): (m: seq<bool>)
      ensures |m| == Steps()
    {
      seq(Steps(), x requires 0 <= x < Steps() => Has(x))
    }

    /** The number of groups of a symbol in the layers below. */
    function GroupsBelow(l: nat, layer: nat): nat {
      if NumGroups(l) == 3 then layer else if layer == 0 then 0 else if layer < 3 then 1 else 2
    }

    /** The lowest subcarrier of the group. */
    function First(x: nat): nat {
      PrbAt(x) * NRE + GroupsBelow(SymbolAt(x), LayerAt(x)) * if NumGroups(SymbolAt(x)) == 3 then 4 else 6
    }

    function RefShift(): (vo: nat)
      ensures vo < 3
    {
      id % 3
    }

    function Subcarrier(x: nat, t: nat): nat {
      First(x) + if NumGroups(SymbolAt(x)) == 3 then t else Skipping(RefShift(), t)
    }

    /** The group that owns subcarrier k of symbol l. */
    function Owner(l: nat, k: nat): nat {
      StepOf(k / NRE, if NumGroups(l) == 3 then k % NRE / 4 else if k % NRE < 6 then 0 else 2, l)
    }

    lemma OwnerOfElement(x: nat, t: nat)
      requires Valid() && x < Steps() && Has(x) && t < 4
      ensures Owner(SymbolAt(x), Subcarrier(x, t)) == x && Subcarrier(x, t) < NRE * nofPrb
      ensures NumGroups(SymbolAt(x)) == 2 ==> Subcarrier(x, t) % 3 != RefShift()
    {
      hide StepOf;
      StepIs(x);
      Within(x, t);
      var r := Subcarrier(x, t) - PrbAt(x) * NRE;
      ModUnique(Subcarrier(x, t), NRE, PrbAt(x), r);
    }

    lemma Within(x: nat, t: nat)
      requires Has(x) && t < 4
      ensures var r := Subcarrier(x, t) - PrbAt(x) * NRE;
              && 0 <= r < NRE
              && (NumGroups(SymbolAt(x)) == 3 ==> r / 4 == LayerAt(x))
              && (NumGroups(SymbolAt(x)) == 2 ==>
                    r % 3 != RefShift() && if r < 6 then LayerAt(x) == 0 else LayerAt(x) == 2)
              && Subcarrier(x, t) % 3 == r % 3
    {
    }

    lemma SkippingIncreases(t: nat, u: nat)
      requires t < u < 4
      ensures Skipping(RefShift(), t) < Skipping(RefShift(), u)
    {
    }

    /** No two groups share an element, and the four elements of a group differ. */
    lemma GroupsDisjoint(x: nat, t: nat, y: nat, u: nat)
      requires Valid() && x < Steps() && y < Steps() && Has(x) && Has(y) && t < 4 && u < 4
      requires SymbolAt(x) == SymbolAt(y) && Subcarrier(x, t) == Subcarrier(y, u)
      ensures x == y && t == u
    {
      OwnerOfElement(x, t);
      OwnerOfElement(y, u);
      if t < u { SkippingIncreases(t, u); } else if u < t { SkippingIncreases(u, t); }
    }

    // ---- numbering ----

    lemma MaskAt(x: nat)
      requires x < Steps()
      ensures Mask()[x] == Has(x)
    {
    }

    /** One layer of a block adds a group for each of its symbols that has one. */
    lemma LayerCount(prb: nat, layer: nat)
      requires Valid() && prb < nofPrb && layer < 3
      ensures var x, m := StepOf(prb, layer, 0), MaxCtrl();
              && 0 <= x <= x + m <= |Mask()|
              && |Kept(Mask(), x + m)| == |Kept(Mask(), x)| + In(layer, 0) + In(layer, 1) + In(layer, 2)
                 + if m == 4 then In(layer, 3) else 0
    {
      hide Kept, Mask, In, StepOf;
      var x := StepOf(prb, layer, 0);
      Add(prb, layer, 0);
      Add(prb, layer, 1);
      Add(prb, layer, 2);
      if MaxCtrl() == 4 { Add(prb, layer, 3); }
    }

    function In(layer: nat, l: nat): nat {
      if NumGroups(l) == 3 || layer != 1 then 1 else 0
    }

    lemma Add(prb: nat, layer: nat, l: nat)
      requires Valid() && prb < nofPrb && layer < 3 && l < MaxCtrl()
      ensures var x := StepOf(prb, layer, l);
              && x < |Mask()| && x == StepOf(prb, layer, 0) + l >= l
              && |Kept(Mask(), x + 1)| == |Kept(Mask(), x)| + In(layer, l)
    {
      hide Kept, Mask;
      StepParts(prb, layer, l);
      StepParts(prb, layer, 0);
      MaskAt(StepOf(prb, layer, l));
      KeptStep(Mask(), StepOf(prb, layer, l));
    }

    lemma PrbCount(prb: nat)
      requires Valid() && prb < nofPrb
      ensures var x, y := StepOf(prb, 0, 0), StepOf(prb + 1, 0, 0);
              && 0 <= x <= |Mask()| && 0 <= y <= |Mask()| && |Kept(Mask(), y)| == |Kept(Mask(), x)| + PerPrb()
    {
      hide Kept, Mask, StepOf;
      LayerCount(prb, 0);
      LayerCount(prb, 1);
      LayerCount(prb, 2);
      LayersMeet(prb);
    }

    lemma LayersMeet(prb: nat)
      ensures StepOf(prb, 0, 0) + MaxCtrl() == StepOf(prb, 1, 0)
      ensures StepOf(prb, 1, 0) + MaxCtrl() == StepOf(prb, 2, 0)
      ensures StepOf(prb, 2, 0) + MaxCtrl() == StepOf(prb + 1, 0, 0)
    {
    }

    lemma {:induction false} PrefixCount(prb: nat)
      requires Valid() && prb <= nofPrb
      ensures 0 <= StepOf(prb, 0, 0) <= |Mask()| && |Kept(Mask(), StepOf(prb, 0, 0))| == prb * PerPrb()
    {
      hide Mask, PerPrb;
      if prb > 0 {
        PrefixCount(prb - 1);
        PrbCount(prb - 1);
        assert (prb - 1) * PerPrb() + PerPrb() == prb * PerPrb();
      }
    }

    /** The scan meets exactly the number of groups that was counted beforehand. */
    lemma CountIsTotal()
      requires Valid()
      ensures Total(Mask()) == NofRegs()
    {
      hide Mask, Kept, PerPrb;
      PrefixCount(nofPrb);
      assert StepOf(nofPrb, 0, 0) == Steps();
    }
  }
}

/** Whether the shared channel's copy keeps clear of the reference symbols. Where half a block is copied, the
    shift of the references is the one left over from the last whole block, so the answer depends on what else
    is granted. */
module PdschReferences {
  import opened NumberTheory
  import opened PdschMapping
  import ReferenceSignals

  /** A reference symbol of the cell, section 6.10.1.2 of TS 36.211. */
  predicate IsReference(c: Cell, l: nat, k: nat) {
    c.HasRef(l) && k % c.Spacing() == c.RefShift(l)
  }

  /** They are the references of the cell's ports, in both slots. */
  lemma ReferencesArePilots(c: Cell, s: nat, l: nat, k: nat)
    requires c.Valid() && s < 2 && l < c.Nsymb()
    ensures IsReference(c, l, k) <==> ReferenceSignals.IsPilot(c.id, c.Nsymb(), c.nofPorts, s, l, k)
  {
    ReferenceSignals.PilotIs(c.id, c.Nsymb(), c.nofPorts, s, l, k);
  }

  // ---- synchronization signals and broadcast channel ----

  /** The places of a slot that srslte_pss_put_slot and srslte_sss_put_slot write in the symbol that starts
      at place start: 62 values and five zeros at either side. */
  predicate Signal(c: Cell, start: nat, g: nat) {
    var k := start + c.nofPrb * NRE / 2 - 31;
    k - 5 <= g < k + 62 + 5
  }

  /** srslte_enb_dl_put_sync: the secondary signal is always placed as with the normal prefix. */
  predicate Synchronizes(c: Cell, sf: nat, s: nat, g: nat) {
    && s == 0 && (sf == 0 || sf == 5)
    && (Signal(c, (c.Nsymb() - 1) * (c.nofPrb * NRE), g) || Signal(c, (7 - 2) * (c.nofPrb * NRE), g))
  }

  /** srslte_pbch_cp: 72 places in each of the first four symbols of the second slot of subframe 0. */
  predicate Broadcasts(c: Cell, sf: nat, s: nat, i: nat, g: nat) {
    var start := i * (c.nofPrb * NRE) + (c.nofPrb * NRE / 2 - 36);
    s == 1 && sf == 0 && i < 4 && start <= g < start + 72
  }

  /** The shared channel leaves free what the synchronization signals and the broadcast channel take, and
      nothing else, but for one symbol: with the extended prefix the code writes the secondary signal over
      the primary one, and its own symbol stays empty. */
  lemma ReservedIs(job: Job, s: nat, l: nat, n: nat, k: nat)
    requires job.Valid() && s < 2 && l < job.cell.Nsymb() && n < job.cell.nofPrb && k < NRE
    ensures var c, x := job.cell, NRE * n + k;
            var g := l * (c.nofPrb * NRE) + x;
            && g >= 0
            && (Synchronizes(c, job.sf, s, g) || Broadcasts(c, job.sf, s, l, g) <==>
                job.Reserved(s, l) && c.Central(x) && !(c.extended && s == 0 && l == 4))
  {
    var c, x := job.cell, NRE * n + k;
    var w := c.nofPrb * NRE;
    MulNonNegative(l, w);
    assert x < w && w / 2 == 6 * c.nofPrb;
    InSymbol(w, l, c.Nsymb() - 1, x);
    InSymbol(w, l, 5, x);
  }

  /** A window in the middle of symbol i holds a place of symbol l only if they are the same. */
  lemma InSymbol(w: nat, l: nat, i: nat, x: nat)
    requires x < w && w >= 72
    ensures 0 <= l * w && 0 <= i * w
    ensures var a := i * w + w / 2 - 36; a <= l * w + x < a + 72 <==> l == i && w / 2 - 36 <= x < w / 2 + 36
  {
    MulNonNegative(l, w);
    MulNonNegative(i, w);
    MulOrder(w, l, i);
    MulOrder(w, i, l);
  }

  ghost predicate RefsAvoided(job: Job)
    requires job.Valid()
  {
    forall b, k {:trigger job.Used(b, k)} :: 0 <= b < job.Blocks() && 0 <= k < NRE && job.Used(b, k) ==>
      !IsReference(job.cell, job.SymbolOf(b), k)
  }

  /** Block b is copied whole and has references. */
  ghost predicate SetsShift(job: Job, b: nat)
    requires job.Valid() && b < job.Blocks()
  {
    job.BlockInside(b);
    job.Whole(job.SlotOf(b), job.SymbolOf(b), b % job.cell.nofPrb) && job.cell.HasRef(job.SymbolOf(b))
  }

  /** Half of block b is copied and has references. */
  ghost predicate UsesShift(job: Job, b: nat)
    requires job.Valid() && b < job.Blocks()
  {
    job.BlockInside(b);
    var s, l, n := job.SlotOf(b), job.SymbolOf(b), b % job.cell.nofPrb;
    job.prb[s][n] && job.Edge(s, l, n) && job.cell.HasRef(l)
  }

  ghost predicate ShiftsRight(job: Job)
    requires job.Valid()
  {
    forall b {:trigger UsesShift(job, b)} :: 0 <= b < job.Blocks() && UsesShift(job, b) ==>
      job.ShiftBefore(b) == job.cell.RefShift(job.SymbolOf(b))
  }

  /** The references are avoided just when every left-over shift that is used is the right one. */
  lemma AvoidedIffRight(job: Job)
    requires job.Valid()
    ensures RefsAvoided(job) <==> ShiftsRight(job)
  {
    hide Job.Used, Job.Blocks, UsesShift, IsReference, Job.ShiftBefore;
    if ShiftsRight(job) {
      forall b, k {:trigger job.Used(b, k)} | 0 <= b < job.Blocks() && 0 <= k < NRE && job.Used(b, k)
        ensures !IsReference(job.cell, job.SymbolOf(b), k)
      {
        UsedElement(job, b, k);
      }
    }
    if RefsAvoided(job) {
      forall b {:trigger UsesShift(job, b)} | 0 <= b < job.Blocks() && UsesShift(job, b)
        ensures job.ShiftBefore(b) == job.cell.RefShift(job.SymbolOf(b))
      {
        WrongShiftHits(job, b);
      }
    }
  }

  lemma UsedElement(job: Job, b: nat, k: nat)
    requires job.Valid() && b < job.Blocks() && k < NRE && job.Used(b, k)
    requires UsesShift(job, b) ==> job.ShiftBefore(b) == job.cell.RefShift(job.SymbolOf(b))
    ensures !IsReference(job.cell, job.SymbolOf(b), k)
  {
    hide Job.Blocks, Job.ShiftBefore, Cell.HasRef, Cell.RefShift, Job.Reserved;
    job.BlockInside(b);
    job.FreeParts(job.SlotOf(b), job.SymbolOf(b), b % job.cell.nofPrb, k);
  }

  /** In a half that skips the wrong subcarriers some reference is used. */
  lemma WrongShiftHits(job: Job, b: nat)
    requires job.Valid() && b < job.Blocks() && UsesShift(job, b)
    ensures job.ShiftBefore(b) == job.cell.RefShift(job.SymbolOf(b)) ||
            exists k: nat {:trigger job.Used(b, k)} ::
              k < NRE && job.Used(b, k) && IsReference(job.cell, job.SymbolOf(b), k)
  {
    hide Job.Blocks, Job.ShiftBefore, Cell.HasRef, Cell.RefShift, Job.Reserved;
    job.BlockInside(b);
    var s, l, n := job.SlotOf(b), job.SymbolOf(b), b % job.cell.nofPrb;
    var v := job.cell.RefShift(l);
    EdgeIsMiddle(job, s, l, n);
    var k := if n + 3 == job.cell.nofPrb / 2 then v else 6 + v;
    assert k % job.cell.Spacing() == v;
    job.FreeParts(s, l, n, k);
    if job.ShiftBefore(b) != v { assert job.Used(b, k); }
  }

  lemma EdgeIsMiddle(job: Job, s: nat, l: nat, n: nat)
    requires job.Valid() && job.Edge(s, l, n)
    ensures job.cell.Middle(n) && !job.Open(s, l, n)
    ensures n + 3 == job.cell.nofPrb / 2 || n == job.cell.nofPrb / 2 + 3
  {
  }

  // ---- which shift is left over ----

  lemma {:induction false} ShiftKept(job: Job, a: nat, b: nat)
    requires job.Valid() && a <= b <= job.Blocks() && forall x :: a <= x < b ==> !SetsShift(job, x)
    ensures job.ShiftBefore(b) == job.ShiftBefore(a)
    decreases b
  {
    hide Job.Blocks, Job.Whole, Cell.HasRef, Cell.RefShift;
    if a < b {
      ShiftKept(job, a, b - 1);
      assert !SetsShift(job, b - 1);
    }
  }

  /** Once set to v the shift stays v while only v is set. */
  lemma {:induction false} ShiftStays(job: Job, a: nat, b: nat, v: nat)
    requires job.Valid() && a <= b <= job.Blocks()
    requires forall x :: a <= x < b && SetsShift(job, x) ==> job.cell.RefShift(job.SymbolOf(x)) == v
    requires job.ShiftBefore(a) == v || exists x :: a <= x < b && SetsShift(job, x)
    ensures job.ShiftBefore(b) == v
    decreases b
  {
    hide Job.Blocks, Job.Whole, Cell.HasRef, Cell.RefShift, Job.SymbolOf, Job.SlotOf;
    if a < b {
      if !SetsShift(job, b - 1) {
        ShiftStays(job, a, b - 1, v);
      } else {
        assert job.cell.RefShift(job.SymbolOf(b - 1)) == v;
      }
    }
  }

  // ---- the condition ----

  predicate EdgeGranted(job: Job)
    requires job.cell.Valid() && |job.prb| == 2 && |job.prb[1]| == job.cell.nofPrb
  {
    var m := job.cell.nofPrb / 2;
    job.prb[1][m - 3] || (m + 3 < job.cell.nofPrb && job.prb[1][m + 3])
  }

  predicate LowerGranted(job: Job)
    requires job.cell.Valid() && |job.prb| == 2 && |job.prb[1]| == job.cell.nofPrb
  {
    exists n :: 0 <= n < job.cell.nofPrb / 2 - 3 && job.prb[1][n]
  }

  predicate FirstSlotShifts(job: Job)
    requires job.cell.Valid() && |job.prb| == 2
  {
    job.lstart <= job.cell.Nsymb() - 3 && exists n :: 0 <= n < |job.prb[0]| && job.prb[0][n]
  }

  /** What a caller can check before the copy. */
  ghost predicate Safe(job: Job)
    requires job.Valid()
  {
    || job.sf != 0 || job.cell.nofPrb % 2 == 0 || !EdgeGranted(job) || LowerGranted(job)
    || (job.cell.nofPorts > 1 && (job.cell.id % 3 == 0 || FirstSlotShifts(job)))
    || (job.cell.nofPorts == 1 && !job.cell.extended && job.cell.id % 6 == 0 && !FirstSlotShifts(job))
  }

  /** Where a shift is used: in the edge blocks of the second slot of subframe 0 of an odd carrier. */
  lemma UseIsEdge(job: Job, b: nat)
    requires job.Valid() && b < job.Blocks() && UsesShift(job, b)
    ensures job.sf == 0 && job.cell.nofPrb % 2 == 1 && EdgeGranted(job)
    ensures job.SlotOf(b) == 1 && (job.SymbolOf(b) == 0 || (job.SymbolOf(b) == 1 && job.cell.nofPorts == 4)
                                   || (job.SymbolOf(b) == 3 && job.cell.extended))
    ensures b % job.cell.nofPrb + 3 == job.cell.nofPrb / 2 || b % job.cell.nofPrb == job.cell.nofPrb / 2 + 3
  {
    job.BlockInside(b);
  }

  /** Block n of symbol l in slot s. */
  ghost function BlockOf(job: Job, s: nat, l: nat, n: nat): (b: nat)
    requires job.Valid() && s < 2 && l < job.cell.Nsymb() && n < job.cell.nofPrb
    ensures b < job.Blocks() && job.SlotOf(b) == s && job.SymbolOf(b) == l && b % job.cell.nofPrb == n
    ensures b == FirstOf(job, s, l) + n
  {
    job.BlockAt(s, l, n);
    FirstOf(job, s, l) + n
  }

  /** Blocks are numbered by slot, symbol and position. */
  lemma BlockOrder(job: Job, b: nat, s: nat, l: nat)
    requires job.Valid() && b < job.Blocks() && s < 2 && l < job.cell.Nsymb()
    ensures b < FirstOf(job, s, l) <==> job.SlotOf(b) < s || (job.SlotOf(b) == s && job.SymbolOf(b) < l)
    ensures b < FirstOf(job, s, l) + job.cell.nofPrb <==>
              job.SlotOf(b) < s || (job.SlotOf(b) == s && job.SymbolOf(b) <= l)
  {
    hide Job.Blocks, Job.SlotOf, Job.SymbolOf;
    job.BlockInside(b);
    var q, p := job.SlotOf(b) * job.cell.Nsymb() + job.SymbolOf(b), s * job.cell.Nsymb() + l;
    RowOrder(job.cell.nofPrb, q, b % job.cell.nofPrb, p);
    SlotOrder(job, job.SlotOf(b), job.SymbolOf(b), s, l);
  }

  lemma RowOrder(cols: nat, q: nat, n: nat, p: nat)
    requires n < cols
    ensures q * cols + n < p * cols <==> q < p
    ensures q * cols + n < p * cols + cols <==> q <= p
  {
    MulOrder(cols, q, p);
    MulOrder(cols, p, q);
  }

  lemma SlotOrder(job: Job, s: nat, l: nat, s': nat, l': nat)
    requires s < 2 && s' < 2 && l < job.cell.Nsymb() && l' < job.cell.Nsymb()
    ensures s * job.cell.Nsymb() + l < s' * job.cell.Nsymb() + l' <==> s < s' || (s == s' && l < l')
    ensures s * job.cell.Nsymb() + l <= s' * job.cell.Nsymb() + l' <==> s < s' || (s == s' && l <= l')
  {
  }

  lemma SetsShiftIs(job: Job, s: nat, l: nat, n: nat)
    requires job.Valid() && s < 2 && l < job.cell.Nsymb() && n < job.cell.nofPrb
    ensures SetsShift(job, BlockOf(job, s, l, n)) <==> job.Whole(s, l, n) && job.cell.HasRef(l)
    ensures UsesShift(job, BlockOf(job, s, l, n)) <==> job.prb[s][n] && job.Edge(s, l, n) && job.cell.HasRef(l)
  {
  }

  /** A whole block with references in the first slot needs a grant there and room for references. */
  lemma FirstSlotSets(job: Job, b: nat)
    requires job.Valid() && b < job.Blocks() && SetsShift(job, b) && job.SlotOf(b) == 0
    ensures FirstSlotShifts(job)
  {
    job.BlockInside(b);
  }

  lemma FirstSlotBlock(job: Job) returns (b: nat)
    requires job.Valid() && FirstSlotShifts(job)
    ensures b < job.Blocks() && SetsShift(job, b) && job.SlotOf(b) == 0 && job.SymbolOf(b) == job.cell.Nsymb() - 3
  {
    var n :| 0 <= n < |job.prb[0]| && job.prb[0][n];
    b := BlockOf(job, 0, job.cell.Nsymb() - 3, n);
    SetsShiftIs(job, 0, job.cell.Nsymb() - 3, n);
  }

  /** With a lower block granted every edge block follows a whole one of the same symbol. */
  lemma LowerSets(job: Job, b: nat)
    requires job.Valid() && b < job.Blocks() && UsesShift(job, b) && LowerGranted(job)
    ensures job.ShiftBefore(b) == job.cell.RefShift(job.SymbolOf(b))
  {
    hide Job.Blocks, Job.ShiftBefore, Cell.RefShift, FirstOf, UsesShift, SetsShift;
    UseIsEdge(job, b);
    job.BlockInside(b);
    var l := job.SymbolOf(b);
    var n0 :| 0 <= n0 < job.cell.nofPrb / 2 - 3 && job.prb[1][n0];
    var a := BlockOf(job, 1, l, n0);
    UsesHasRef(job, b);
    SetsShiftIs(job, 1, l, n0);
    assert b == BlockOf(job, 1, l, b % job.cell.nofPrb) by { SameBlock(job, b); }
    forall x | a <= x < b && SetsShift(job, x)
      ensures job.cell.RefShift(job.SymbolOf(x)) == job.cell.RefShift(l)
    {
      BlockOrder(job, x, 1, l);
    }
    ShiftStays(job, a, b, job.cell.RefShift(l));
  }

  lemma SameBlock(job: Job, b: nat)
    requires job.Valid() && b < job.Blocks() && job.SlotOf(b) < 2 && job.SymbolOf(b) < job.cell.Nsymb()
    ensures b == BlockOf(job, job.SlotOf(b), job.SymbolOf(b), b % job.cell.nofPrb)
  {
    job.BlockInside(b);
  }

  lemma UsesHasRef(job: Job, b: nat)
    requires job.Valid() && b < job.Blocks() && UsesShift(job, b)
    ensures job.cell.HasRef(job.SymbolOf(b))
  {
  }

  lemma SafeIsRight(job: Job)
    requires job.Valid() && Safe(job)
    ensures ShiftsRight(job)
  {
    hide Job.Blocks, Job.ShiftBefore, UsesShift, SetsShift, LowerGranted, FirstSlotShifts, EdgeGranted;
    forall b {:trigger UsesShift(job, b)} | 0 <= b < job.Blocks() && UsesShift(job, b)
      ensures job.ShiftBefore(b) == job.cell.RefShift(job.SymbolOf(b))
    {
      UseIsEdge(job, b);
      FirstShift(job);
      if LowerGranted(job) {
        LowerSets(job, b);
      } else {
        if job.cell.nofPorts > 1 && FirstSlotShifts(job) {
          var x := FirstSlotBlock(job);
          SlotsInOrder(job, x, b);
        }
        if job.cell.nofPorts == 1 {
          forall x | 0 <= x < b && SetsShift(job, x)
            ensures job.cell.RefShift(job.SymbolOf(x)) == 0
          {
            OnlyFirstSymbol(job, x, b);
          }
        }
        ShiftStays(job, 0, b, job.cell.RefShift(job.SymbolOf(b)));
      }
    }
  }

  lemma SlotsInOrder(job: Job, x: nat, b: nat)
    requires job.Valid() && x < job.Blocks() && b < job.Blocks() && job.SlotOf(x) < job.SlotOf(b) < 2
    ensures x < b
  {
    job.BlockInside(b);
    BlockOrder(job, x, 1, 0);
    BlockOrder(job, b, 1, 0);
  }

  lemma OnlyFirstSymbol(job: Job, x: nat, b: nat)
    requires job.Valid() && x < b < job.Blocks() && SetsShift(job, x) && !FirstSlotShifts(job)
    requires job.SlotOf(b) == 1 && job.SymbolOf(b) == 0
    ensures job.SlotOf(x) == 1 && job.SymbolOf(x) == 0
  {
    hide Job.Blocks, SetsShift, FirstSlotShifts;
    job.BlockInside(x);
    if job.SlotOf(x) == 0 { FirstSlotSets(job, x); }
    BlockOrder(job, b, 1, 0);
    BlockOrder(job, x, 1, 0);
  }

  /** The lowest granted edge block of the second slot. */
  function LowestEdge(job: Job): (e: nat)
    requires job.Valid() && EdgeGranted(job)
    ensures e < job.cell.nofPrb && job.prb[1][e] && (e + 3 == job.cell.nofPrb / 2 || e == job.cell.nofPrb / 2 + 3)
  {
    if job.prb[1][job.cell.nofPrb / 2 - 3] then job.cell.nofPrb / 2 - 3 else job.cell.nofPrb / 2 + 3
  }

  /** Before it no block of its symbol is copied whole. */
  lemma NothingBeforeEdge(job: Job, x: nat, l: nat)
    requires job.Valid() && EdgeGranted(job) && !LowerGranted(job) && job.sf == 0 && l < 4
    requires x < job.Blocks() && job.SlotOf(x) == 1 && job.SymbolOf(x) == l && x % job.cell.nofPrb < LowestEdge(job)
    ensures !SetsShift(job, x)
  {
  }

  lemma UnsafeIsWrong(job: Job)
    requires job.Valid() && !Safe(job)
    ensures !ShiftsRight(job)
  {
    hide Job.Blocks, Job.ShiftBefore, UsesShift, SetsShift, LowerGranted, FirstSlotShifts, EdgeGranted, LowestEdge;
    var e := LowestEdge(job);
    var b := BlockOf(job, 1, 0, e);
    SetsShiftIs(job, 1, 0, e);
    AtSecondSlot(job);
    forall x | FirstOf(job, 1, 0) <= x < b
      ensures !SetsShift(job, x)
    {
      BlockOrder(job, x, 1, 0);
      job.BlockInside(x);
      SameBlock(job, x);
      NothingBeforeEdge(job, x, 0);
    }
    FirstInside(job);
    ShiftKept(job, FirstOf(job, 1, 0), b);
    if job.ShiftBefore(b) == job.cell.RefShift(0) {
      UnsafeThird(job);
    }
  }

  lemma FirstInside(job: Job)
    requires job.Valid()
    ensures FirstOf(job, 1, 0) <= job.Blocks() && FirstOf(job, 0, 0) == 0
  {
    NextSymbolOf(job, 1, 0);
  }

  /** What the first slot leaves over. */
  lemma AtSecondSlot(job: Job)
    requires job.Valid()
    ensures FirstOf(job, 1, 0) <= job.Blocks()
    ensures !FirstSlotShifts(job) ==> job.ShiftBefore(FirstOf(job, 1, 0)) == 0
    ensures FirstSlotShifts(job) && job.cell.nofPorts == 1 ==>
              job.ShiftBefore(FirstOf(job, 1, 0)) == (job.cell.id + 3) % 6
  {
    hide Job.Blocks, Job.ShiftBefore, SetsShift, FirstSlotShifts, FirstOf;
    FirstInside(job);
    FirstShift(job);
    var b1, l := FirstOf(job, 1, 0), job.cell.Nsymb() - 3;
    if FirstSlotShifts(job) {
      if job.cell.nofPorts == 1 {
        var a := FirstSlotBlock(job);
        BlockOrder(job, a, 1, 0);
        BlockOrder(job, a, 0, l);
        forall x | a <= x < b1 && SetsShift(job, x)
          ensures job.cell.RefShift(job.SymbolOf(x)) == (job.cell.id + 3) % 6
        {
          BlockOrder(job, x, 1, 0);
          BlockOrder(job, x, 0, l);
          SetsHasRef(job, x);
        }
        ShiftStays(job, a, b1, (job.cell.id + 3) % 6);
      }
    } else {
      forall x | 0 <= x < b1
        ensures !SetsShift(job, x)
      {
        BlockOrder(job, x, 1, 0);
        if SetsShift(job, x) { FirstSlotSets(job, x); }
      }
      ShiftKept(job, 0, b1);
    }
  }

  lemma SetsHasRef(job: Job, b: nat)
    requires job.Valid() && b < job.Blocks() && SetsShift(job, b)
    ensures job.cell.HasRef(job.SymbolOf(b)) && job.SymbolOf(b) < job.cell.Nsymb()
  {
    job.BlockInside(b);
  }

  /** One port, extended prefix: the fourth symbol of the second slot still meets the shift of the first. */
  lemma UnsafeThird(job: Job)
    requires job.Valid() && !Safe(job)
    requires job.cell.nofPorts == 1 && job.cell.extended && job.cell.id % 6 == 0 && !FirstSlotShifts(job)
    ensures !ShiftsRight(job)
  {
    hide Job.Blocks, Job.ShiftBefore, UsesShift, SetsShift, LowerGranted, FirstSlotShifts, EdgeGranted, LowestEdge;
    hide FirstOf;
    var e := LowestEdge(job);
    var b := BlockOf(job, 1, 3, e);
    SetsShiftIs(job, 1, 3, e);
    FirstShift(job);
    forall x | 0 <= x < b && SetsShift(job, x)
      ensures job.cell.RefShift(job.SymbolOf(x)) == 0
    {
      SetsHasRef(job, x);
      job.BlockInside(x);
      if job.SlotOf(x) == 0 { FirstSlotSets(job, x); }
      BlockOrder(job, x, 1, 3);
      BlockOrder(job, b, 1, 3);
      if job.SymbolOf(x) == 3 {
        SameBlock(job, x);
        NothingBeforeEdge(job, x, 3);
      }
    }
    ShiftStays(job, 0, b, 0);
  }

  /** The copy keeps clear of every reference symbol if and only if the grant is safe. */
  lemma AvoidedIffSafe(job: Job)
    requires job.Valid()
    ensures RefsAvoided(job) <==> Safe(job)
  {
    hide RefsAvoided, ShiftsRight, Safe;
    AvoidedIffRight(job);
    if Safe(job) { SafeIsRight(job); } else { UnsafeIsWrong(job); }
  }

  /** Then the copy takes exactly the granted elements outside the control region, the synchronization signals,
      the broadcast channel and the reference symbols (section 6.3.5 of TS 36.211). */
  lemma SafeCopiesExactly(job: Job, b: nat, k: nat)
    requires job.Valid() && Safe(job) && b < job.Blocks() && k < NRE
    ensures job.SlotOf(b) < 2 && b % job.cell.nofPrb < job.cell.nofPrb
    ensures job.Used(b, k) <==>
            job.Free(job.SlotOf(b), job.SymbolOf(b), b % job.cell.nofPrb, k) &&
            !IsReference(job.cell, job.SymbolOf(b), k)
  {
    hide Safe, Job.Blocks, Job.ShiftBefore, Cell.HasRef, Cell.RefShift, Job.Reserved;
    SafeIsRight(job);
    job.BlockInside(b);
    job.FreeParts(job.SlotOf(b), job.SymbolOf(b), b % job.cell.nofPrb, k);
    assert UsesShift(job, b) ==> job.ShiftBefore(b) == job.cell.RefShift(job.SymbolOf(b));
  }

  /** Place by place of the subframe grid, 12 to a block, the blocks of a symbol in a row: the channel is what
      is granted, behind the control region and not taken by a reference, a synchronization signal or the
      broadcast channel; with the extended prefix not the symbol kept for the secondary signal either. */
  lemma ChannelIsRest(job: Job, s: nat, l: nat, n: nat, k: nat)
    requires job.Valid() && Safe(job) && s < 2 && l < job.cell.Nsymb() && n < job.cell.nofPrb && k < NRE
    ensures var c, x := job.cell, 12 * n + k;
            var w := 12 * c.nofPrb;
            var g, h := l * w + x, (s * c.Nsymb() + l) * w + x;
            && g >= 0 && 0 <= h < |job.Mask()|
            && (job.Mask()[h] <==>
                  && job.prb[s][n] && (s == 0 ==> l >= job.lstart)
                  && !ReferenceSignals.IsPilot(c.id, c.Nsymb(), c.nofPorts, s, l, x)
                  && !Synchronizes(c, job.sf, s, g) && !Broadcasts(c, job.sf, s, l, g)
                  && !(c.extended && s == 0 && l == 4 && job.Reserved(s, l) && c.Central(x)))
  {
    hide Safe, Job.Mask, IsReference, Synchronizes, Broadcasts, Job.Reserved, Cell.Central, Cell.HasRef, Cell.RefShift;
    hide ReferenceSignals.IsPilot, Job.ShiftIn, Job.Blocks, Job.Used, Cell.Nsymb;
    var c := job.cell;
    var b := UsedIs(job, s, l, n, k);
    ReservedIs(job, s, l, n, k);
    ReferencesArePilots(c, s, l, 12 * n + k);
    job.MaskAt(b, k);
    MulNonNegative(l, 12 * c.nofPrb);
    BlockPlace(s * c.Nsymb() + l, c.nofPrb, n, k);
  }

  lemma UsedIs(job: Job, s: nat, l: nat, n: nat, k: nat) returns (b: nat)
    requires job.Valid() && Safe(job) && s < 2 && l < job.cell.Nsymb() && n < job.cell.nofPrb && k < NRE
    ensures b == (s * job.cell.Nsymb() + l) * job.cell.nofPrb + n && b < job.Blocks()
    ensures job.Used(b, k) <==>
              && job.prb[s][n] && (s == 0 ==> l >= job.lstart) && !IsReference(job.cell, l, 12 * n + k)
              && !(job.Reserved(s, l) && job.cell.Central(12 * n + k))
  {
    hide Safe, IsReference, Job.Reserved, Cell.Central, Job.Used, Job.Blocks;
    job.BlockAt(s, l, n);
    b := (s * job.cell.Nsymb() + l) * job.cell.nofPrb + n;
    ReferenceRepeats(job.cell, l, n, k);
    SafeCopiesExactly(job, b, k);
  }

  lemma BlockPlace(q: nat, nofPrb: nat, n: nat, k: nat)
    ensures q * (12 * nofPrb) + (12 * n + k) == 12 * (q * nofPrb + n) + k
  {
  }

  /** References repeat from block to block. */
  lemma ReferenceRepeats(c: Cell, l: nat, n: nat, k: nat)
    ensures IsReference(c, l, 12 * n + k) <==> IsReference(c, l, k)
  {
    hide Cell.HasRef, Cell.RefShift;
    var w := c.Spacing();
    var q, r := k / w, k % w;
    assert k == w * q + r;
    ModUnique(12 * n + k, w, (if w == 3 then 4 * n else 2 * n) + q, r);
  }

  /** A single block at the edge, one port: its reference symbols in the second slot are overwritten. */
  lemma UnsafeGrantExists()
    ensures var job := Job(Cell(0, 7, 1, false), [[true] + seq(6, _ => false), [true] + seq(6, _ => false)], 1, 0);
            job.Valid() && !RefsAvoided(job)
  {
    var job := Job(Cell(0, 7, 1, false), [[true] + seq(6, _ => false), [true] + seq(6, _ => false)], 1, 0);
    hide RefsAvoided;
    assert job.prb[0][0] && job.prb[1][0];
    assert !Safe(job);
    AvoidedIffSafe(job);
  }
}

/** The resource elements of the downlink shared channel: the copy of srslte/lib/phch/pdsch.c between a list
    of symbols and the subframe grid, and the count of srslte/lib/phch/ra.c written separately from it. */
module PdschMapping {
  import opened CircularBuffer
  import opened NumberTheory
  import opened Symbols

  const NRE := 12

  lemma InGrid(rows: nat, cols: nat, b: nat)
    requires cols > 0 && b < rows * cols
    ensures b / cols < rows && b % cols < cols && b == (b / cols) * cols + b % cols
  {
    var q := b / cols;
    assert b == cols * q + b % cols;
    if q >= rows { MulOrder(cols, rows, q); }
  }

  lemma OfGrid(rows: nat, cols: nat, q: nat, n: nat)
    requires q < rows && n < cols
    ensures 0 <= q * cols + n < rows * cols && (q * cols + n) / cols == q && (q * cols + n) % cols == n
    ensures q * cols + cols <= rows * cols
  {
    ModUnique(cols * q + n, cols, q, n);
    MulOrder(cols, q, rows);
    MulNonNegative(q, cols);
  }

  datatype Cell = Cell(id: nat, nofPrb: nat, nofPorts: nat, extended: bool) {
    predicate Valid() {
      nofPrb >= 6 && (nofPorts == 1 || nofPorts == 2 || nofPorts == 4)
    }

    function Nsymb(): nat {
      if extended then 6 else 7
    }

    function NofRefs(): nat {
      if nofPorts == 1 then 2 else 4
    }

    /** Distance in subcarriers between two reference symbols. */
    function Spacing(): (w: nat)
      ensures w == 3 || w == 6
    {
      if nofPorts == 1 then 6 else 3
    }

    predicate HasRef(l: nat) {
      (l == 1 && nofPorts == 4) || l == 0 || l == Nsymb() - 3
    }

    /** Where the references of a symbol start, section 6.10.1.2 of TS 36.211. */
    function RefShift(l: nat): (v: nat)
      ensures v < Spacing()
    {
      if nofPorts == 1 then if l == 0 then id % 6 else (id + 3) % 6 else id % 3
    }

    predicate Middle(n: nat) {
      nofPrb / 2 - 3 <= n < nofPrb / 2 + 3 + nofPrb % 2
    }

    /** The 72 subcarriers around the carrier, which hold the synchronization signals and the broadcast channel. */
    predicate Central(c: nat) {
      6 * nofPrb - 36 <= c < 6 * nofPrb + 36
    }
  }

  /** One transmission: the blocks granted in each slot, the first symbol after the control region and the subframe. */
  datatype Job = Job(cell: Cell, prb: seq<seq<bool>>, lstart: nat, sf: nat) {
    ghost predicate Valid() {
      && cell.Valid() && |prb| == 2 && |prb[0]| == |prb[1]| == cell.nofPrb
      && lstart <= cell.Nsymb() - 2
    }

    /** Symbols of a slot whose central subcarriers are reserved. */
    predicate Reserved(s: nat, l: nat) {
      || (s == 0 && (sf == 0 || sf == 5) && l >= cell.Nsymb() - 2)
      || (s == 1 && sf == 0 && l < 4)
    }

    /** Subcarrier k of block n may carry the channel in symbol l of slot s, references apart. */
    predicate Free(s: nat, l: nat, n: nat, k: nat)
      requires s < 2 == |prb| && n < |prb[s]|
    {
      && prb[s][n]
      && (s == 0 ==> l >= lstart)
      && !(Reserved(s, l) && cell.Central(NRE * n + k))
    }

    /** Nothing of the block is reserved in this symbol. */
    predicate Open(s: nat, l: nat, n: nat) {
      (s == 0 ==> l >= lstart) && !(Reserved(s, l) && cell.Middle(n))
    }

    /** The block is copied whole. */
    predicate Whole(s: nat, l: nat, n: nat)
      requires s < 2 == |prb| && n < |prb[s]|
    {
      prb[s][n] && Open(s, l, n)
    }

    function Blocks(): nat {
      2 * cell.Nsymb() * cell.nofPrb
    }

    function SlotOf(b: nat): nat
      requires cell.nofPrb > 0
    {
      if b / cell.nofPrb < cell.Nsymb() then 0 else 1
    }

    function SymbolOf(b: nat): nat
      requires cell.nofPrb > 0
    {
      if b / cell.nofPrb < cell.Nsymb() then b / cell.nofPrb else b / cell.nofPrb - cell.Nsymb()
    }

    lemma BlockInside(b: nat)
      requires Valid() && b < Blocks()
      ensures SlotOf(b) < 2 && SymbolOf(b) < cell.Nsymb() && b % cell.nofPrb < cell.nofPrb
      ensures b == (SlotOf(b) * cell.Nsymb() + SymbolOf(b)) * cell.nofPrb + b % cell.nofPrb
    {
      InGrid(2 * cell.Nsymb(), cell.nofPrb, b);
    }

    lemma BlockAt(s: nat, l: nat, n: nat)
      requires Valid() && s < 2 && l < cell.Nsymb() && n < cell.nofPrb
      ensures var b := (s * cell.Nsymb() + l) * cell.nofPrb + n;
              0 <= b < Blocks() && SlotOf(b) == s && SymbolOf(b) == l && b % cell.nofPrb == n
    {
      OfGrid(2 * cell.Nsymb(), cell.nofPrb, s * cell.Nsymb() + l, n);
    }

    /** The reference shift in force when block b is reached: that of the last whole block with references. */
    ghost function ShiftBefore(b: nat): (v: nat)
      requires Valid() && b <= Blocks()
      ensures v < cell.Spacing()
    {
      if b == 0 then 0
      else
        BlockInside(b - 1);
        var s, l, n := SlotOf(b - 1), SymbolOf(b - 1), (b - 1) % cell.nofPrb;
        if Whole(s, l, n) && cell.HasRef(l) then cell.RefShift(l) else ShiftBefore(b - 1)
    }

    ghost function ShiftIn(b: nat): (v: nat)
      requires Valid() && b < Blocks()
      ensures v < cell.Spacing()
    {
      BlockInside(b);
      if Whole(SlotOf(b), SymbolOf(b), b % cell.nofPrb) then cell.RefShift(SymbolOf(b)) else ShiftBefore(b)
    }

    /** Subcarrier k of block b carries a symbol of the channel. */
    ghost predicate Used(b: nat, k: nat)
      requires Valid() && b < Blocks() && k < NRE
    {
      BlockInside(b);
      && Free(SlotOf(b), SymbolOf(b), b % cell.nofPrb, k)
      && (cell.HasRef(SymbolOf(b)) ==> k % cell.Spacing() != ShiftIn(b))
    }

    /** The grid positions of the channel, in the order of the grid. */
    ghost function Mask(): (m: seq<bool>)
      requires Valid()
      ensures |m| == NRE * Blocks()
    {
      seq(NRE * Blocks(), g requires 0 <= g < NRE * Blocks() => Used(g / NRE, g % NRE))
    }

    /** The reserved subcarriers end inside the block. */
    predicate Edge(s: nat, l: nat, n: nat) {
      cell.nofPrb % 2 == 1 && Reserved(s, l) && (n + 3 == cell.nofPrb / 2 || n == cell.nofPrb / 2 + 3)
    }

    /** How many symbols of the channel the block carries when it is granted. */
    function Capacity(s: nat, l: nat, n: nat): (c: nat)
    {
      if Open(s, l, n) then NRE - if cell.HasRef(l) then cell.NofRefs() else 0
      else if Edge(s, l, n) then 6 - if cell.HasRef(l) then cell.NofRefs() / 2 else 0
      else 0
    }

    function Load(s: nat, l: nat, n: nat): (c: nat)
      requires s < 2 == |prb| && n < |prb[s]|
    {
      if prb[s][n] then Capacity(s, l, n) else 0
    }

    /** The lower half of the block lies outside the reserved subcarriers. */
    predicate LowHalf(s: nat, l: nat, n: nat)
      requires s < 2 == |prb| && n < |prb[s]|
    {
      prb[s][n] && Edge(s, l, n) && n + 3 == cell.nofPrb / 2
    }

    predicate HighHalf(s: nat, l: nat, n: nat)
      requires s < 2 == |prb| && n < |prb[s]|
    {
      prb[s][n] && Edge(s, l, n) && n == cell.nofPrb / 2 + 3
    }

    /** The central subcarriers end inside a block just when the number of blocks is odd. */
    lemma FreeParts(s: nat, l: nat, n: nat, k: nat)
      requires Valid() && s < 2 && l < cell.Nsymb() && n < cell.nofPrb && k < NRE
      ensures Whole(s, l, n) ==> Free(s, l, n, k) && !LowHalf(s, l, n) && !HighHalf(s, l, n)
      ensures LowHalf(s, l, n) ==> (Free(s, l, n, k) <==> k < 6) && !HighHalf(s, l, n)
      ensures HighHalf(s, l, n) ==> (Free(s, l, n, k) <==> k >= 6)
      ensures !Whole(s, l, n) && !LowHalf(s, l, n) && !HighHalf(s, l, n) ==> !Free(s, l, n, k)
    {
    }

    lemma MaskIs(b: nat, k: nat, s: nat, l: nat, n: nat)
      requires Valid() && b < Blocks() && k < NRE && s == SlotOf(b) && l == SymbolOf(b) && n == b % cell.nofPrb
      requires s < 2 && l < cell.Nsymb() && n < cell.nofPrb
      ensures NRE * b + k < |Mask()|
      ensures Mask()[NRE * b + k] ==
              (Free(s, l, n, k) && (cell.HasRef(l) ==> k % cell.Spacing() != ShiftIn(b)))
    {
      hide Mask, Free;
      MaskAt(b, k);
    }

    ghost predicate Clear(g: nat, n: nat)
      requires Valid()
    {
      g + n <= |Mask()| && forall x :: g <= x < g + n ==> !Mask()[x]
    }

    /** n intervals between references, or as many subcarriers without references. */
    ghost predicate Stretch(g: nat, n: nat, l: nat, v: nat)
      requires Valid()
    {
      if cell.HasRef(l) then Referenced(Mask(), g, n, cell.Spacing(), v)
      else g + n * cell.Spacing() <= |Mask()| && forall x :: g <= x < g + n * cell.Spacing() ==> Mask()[x]
    }

    lemma BlockParts(b: nat, s: nat, l: nat, n: nat)
      requires Valid() && b < Blocks() && s == SlotOf(b) && l == SymbolOf(b) && n == b % cell.nofPrb
      requires s < 2 && l < cell.Nsymb() && n < cell.nofPrb
      ensures NRE * b + NRE <= |Mask()| && cell.NofRefs() * cell.Spacing() == NRE
      ensures cell.NofRefs() / 2 * cell.Spacing() == 6
      ensures Whole(s, l, n) ==> Stretch(NRE * b, cell.NofRefs(), l, cell.RefShift(l))
      ensures LowHalf(s, l, n) ==> Stretch(NRE * b, cell.NofRefs() / 2, l, ShiftBefore(b)) && Clear(NRE * b + 6, 6)
      ensures HighHalf(s, l, n) ==> Clear(NRE * b, 6) && Stretch(NRE * b + 6, cell.NofRefs() / 2, l, ShiftBefore(b))
      ensures !Whole(s, l, n) && !LowHalf(s, l, n) && !HighHalf(s, l, n) ==> Clear(NRE * b, NRE)
    {
      hide Mask, Free, Whole, LowHalf, HighHalf, ShiftBefore;
      FreeParts(s, l, n, 0);
      ShiftInIs(b, s, l, n);
      var m := Mask();
      forall x | NRE * b <= x < NRE * b + NRE
        ensures m[x] == (Free(s, l, n, x - NRE * b) &&
                         (cell.HasRef(l) ==> (x - NRE * b) % cell.Spacing() != ShiftIn(b)))
      {
        MaskIs(b, x - NRE * b, s, l, n);
      }
      forall x | NRE * b + 6 <= x < NRE * b + NRE
        ensures m[x] == (Free(s, l, n, x - NRE * b) &&
                         (cell.HasRef(l) ==> (x - (NRE * b + 6)) % cell.Spacing() != ShiftIn(b)))
      {
        MaskIs(b, x - NRE * b, s, l, n);
        SixMore(x - (NRE * b + 6));
      }
      forall k | 0 <= k < NRE
        ensures Whole(s, l, n) ==> Free(s, l, n, k)
        ensures LowHalf(s, l, n) ==> (Free(s, l, n, k) <==> k < 6)
        ensures HighHalf(s, l, n) ==> (Free(s, l, n, k) <==> k >= 6)
        ensures !Whole(s, l, n) && !LowHalf(s, l, n) && !HighHalf(s, l, n) ==> !Free(s, l, n, k)
      {
        FreeParts(s, l, n, k);
      }
    }

    lemma ShiftInIs(b: nat, s: nat, l: nat, n: nat)
      requires Valid() && b < Blocks() && s == SlotOf(b) && l == SymbolOf(b) && n == b % cell.nofPrb
      requires s < 2 && l < cell.Nsymb() && n < cell.nofPrb
      ensures ShiftIn(b) == if Whole(s, l, n) then cell.RefShift(l) else ShiftBefore(b)
    {
    }

    lemma SixMore(d: nat)
      ensures (d + 6) % cell.Spacing() == d % cell.Spacing()
    {
    }

    lemma MaskAt(b: nat, k: nat)
      requires Valid() && b < Blocks() && k < NRE
      ensures NRE * b + k < |Mask()| && Mask()[NRE * b + k] == Used(b, k)
    {
      hide Used;
      assert (NRE * b + k) / NRE == b && (NRE * b + k) % NRE == k;
    }
  }

  // ---- copying ----

  /** A transfer between a list of symbols and the masked positions of a grid: into the grid when put. */
  datatype Transfer = Transfer(put: bool, mask: seq<bool>, before: seq<Symbol>)

  ghost function Rank(mask: seq<bool>, g: nat): (r: nat)
    requires g <= |mask|
  {
    |Kept(mask, g)|
  }

  ghost predicate Fits(tr: Transfer, input: seq<Symbol>) {
    if tr.put then |tr.mask| <= |tr.before| && Total(tr.mask) <= |input|
    else |tr.mask| <= |input| && Total(tr.mask) <= |tr.before|
  }

  /** Everything up to grid position g has been transferred and nothing else has changed. */
  ghost predicate Moved(tr: Transfer, input: seq<Symbol>, output: seq<Symbol>, g: nat) {
    && g <= |tr.mask| && |output| == |tr.before| && Fits(tr, input)
    && if tr.put then
         forall x :: 0 <= x < |output| ==>
           output[x] == if x < g && tr.mask[x] && Rank(tr.mask, x) < |input| then input[Rank(tr.mask, x)]
           else tr.before[x]
       else
         && (forall x :: 0 <= x < g && tr.mask[x] ==>
               Rank(tr.mask, x) < |output| && output[Rank(tr.mask, x)] == input[x])
         && forall x :: Rank(tr.mask, g) <= x < |output| ==> output[x] == tr.before[x]
  }

  lemma NothingMoved(tr: Transfer, input: seq<Symbol>)
    requires Fits(tr, input)
    ensures Moved(tr, input, tr.before, 0) && Rank(tr.mask, 0) == 0
  {
  }

  ghost function InputAt(tr: Transfer, g: nat): nat
    requires g <= |tr.mask|
  {
    if tr.put then Rank(tr.mask, g) else g
  }

  ghost function OutputAt(tr: Transfer, g: nat): nat
    requires g <= |tr.mask|
  {
    if tr.put then g else Rank(tr.mask, g)
  }

  lemma MovedOne(tr: Transfer, input: seq<Symbol>, output: seq<Symbol>, g: nat)
    requires Moved(tr, input, output, g) && g < |tr.mask| && tr.mask[g]
    ensures Rank(tr.mask, g + 1) == Rank(tr.mask, g) + 1
    ensures InputAt(tr, g) < |input| && OutputAt(tr, g) < |output|
    ensures Moved(tr, input, output[OutputAt(tr, g) := input[InputAt(tr, g)]], g + 1)
  {
    hide Kept;
    KeptStep(tr.mask, g);
    KeptAt(tr.mask, g);
    if !tr.put {
      forall x | 0 <= x < g && tr.mask[x]
        ensures Rank(tr.mask, x) < Rank(tr.mask, g)
      {
        KeptBelow(tr.mask, x, g);
      }
    }
  }

  lemma MovedSkip(tr: Transfer, input: seq<Symbol>, output: seq<Symbol>, g: nat, n: nat)
    requires Moved(tr, input, output, g) && g + n <= |tr.mask| && forall x :: g <= x < g + n ==> !tr.mask[x]
    ensures Rank(tr.mask, g + n) == Rank(tr.mask, g) && Moved(tr, input, output, g + n)
  {
    hide Kept;
    NoneKept(tr.mask, g, g + n);
  }

  /** memcpy of n symbols, both pointers advancing. */
  method CopyRun(input: array<Symbol>, output: array<Symbol>, inPtr0: nat, outPtr0: nat, n: nat, ghost tr: Transfer,
                 ghost g: nat)
    returns (inPtr: nat, outPtr: nat)
    requires input != output && Moved(tr, input[..], output[..], g) && g + n <= |tr.mask|
    requires forall x :: g <= x < g + n ==> tr.mask[x]
    requires inPtr0 == InputAt(tr, g) && outPtr0 == OutputAt(tr, g)
    modifies output
    ensures Moved(tr, input[..], output[..], g + n) && inPtr == InputAt(tr, g + n) && outPtr == OutputAt(tr, g + n)
  {
    hide Moved, Rank;
    inPtr, outPtr := inPtr0, outPtr0;
    var i := 0;
    while i < n
      invariant i <= n && Moved(tr, input[..], output[..], g + i)
      invariant inPtr == InputAt(tr, g + i) && outPtr == OutputAt(tr, g + i)
    {
      MovedOne(tr, input[..], output[..], g + i);
      ghost var was := output[..];
      output[outPtr] := input[inPtr];
      assert output[..] == was[outPtr := input[inPtr]];
      inPtr, outPtr, i := inPtr + 1, outPtr + 1, i + 1;
    }
  }

  /** The grid position behind n intervals. */
  ghost function After(g: nat, n: nat, w: nat): (h: nat)
    ensures h == g + n * w
  {
    MulNonNegative(n, w);
    g + n * w
  }

  /** A stretch of the grid with a reference at every w-th position from the offset on. */
  ghost predicate Referenced(mask: seq<bool>, g: nat, n: nat, w: nat, offset: nat) {
    && w > 0 && g + n * w <= |mask|
    && forall x :: g <= x < g + n * w ==> mask[x] == ((x - g) % w != offset)
  }

  lemma ReferencedRuns(mask: seq<bool>, g: nat, n: nat, w: nat, offset: nat, i: nat)
    requires Referenced(mask, g, n, w, offset) && offset < w && i < n
    ensures forall x :: g <= x < g + offset ==> mask[x]
    ensures g + offset + i * w < |mask| && !mask[g + offset + i * w]
    ensures forall x :: g + offset + i * w < x < g + offset + i * w + w && x < g + n * w ==> mask[x]
  {
    MulOrder(w, i, n);
    MultipleDivides(w, i);
    forall x | g <= x < g + offset
      ensures mask[x]
    {
      ModUnique(x - g, w, 0, x - g);
    }
    ModUnique(offset + i * w, w, i, offset);
    forall x | g + offset + i * w < x < g + offset + i * w + w && x < g + n * w
      ensures mask[x]
    {
      if x - g < i * w + w {
        ModUnique(x - g, w, i, x - g - i * w);
      } else {
        assert w * (i + 1) == i * w + w;
        ModUnique(x - g, w, i + 1, x - g - i * w - w);
      }
    }
  }

  /** Copies the symbols between the references, stepping over each reference in the grid. */
  method PrbCpRef(input: array<Symbol>, output: array<Symbol>, inPtr0: nat, outPtr0: nat, offset: nat, nofRefs: nat,
                  nofIntervals: nat, advanceOutput: bool, ghost tr: Transfer, ghost g: nat, ghost w: nat)
    returns (inPtr: nat, outPtr: nat)
    requires input != output && Moved(tr, input[..], output[..], g) && advanceOutput == tr.put
    requires ((nofRefs == 2 && w == 6) || (nofRefs == 4 && w == 3)) && nofIntervals > 0 && offset < w
    requires Referenced(tr.mask, g, nofIntervals, w, offset)
    requires inPtr0 == InputAt(tr, g) && outPtr0 == OutputAt(tr, g)
    modifies output
    ensures var h := After(g, nofIntervals, w);
            && h <= |tr.mask| && Moved(tr, input[..], output[..], h)
            && (if tr.put then inPtr == InputAt(tr, h) else outPtr == OutputAt(tr, h))
  {
    hide Moved, Rank, Referenced, RefAt, After;
    var refInterval := NRE / nofRefs - 1;
    RefFacts(tr.mask, g, nofIntervals, w, offset, 0);
    inPtr, outPtr := CopyRun(input, output, inPtr0, outPtr0, offset, tr, g);
    var i := 0;
    while i < nofIntervals - 1
      invariant i <= nofIntervals - 1 && RefAt(g, offset, i, w) <= |tr.mask|
      invariant Moved(tr, input[..], output[..], RefAt(g, offset, i, w))
      invariant inPtr == InputAt(tr, RefAt(g, offset, i, w)) && outPtr == OutputAt(tr, RefAt(g, offset, i, w))
    {
      RefFacts(tr.mask, g, nofIntervals, w, offset, i);
      inPtr, outPtr := OverReference(input, output, inPtr, outPtr, refInterval, advanceOutput, tr,
                                     RefAt(g, offset, i, w));
      i := i + 1;
    }
    RefFacts(tr.mask, g, nofIntervals, w, offset, i);
    if refInterval - offset > 0 {
      inPtr, outPtr := OverReference(input, output, inPtr, outPtr, refInterval - offset, advanceOutput, tr,
                                     RefAt(g, offset, i, w));
    } else {
      MovedSkip(tr, input[..], output[..], RefAt(g, offset, i, w), 1);
    }
  }

  /** The position of the i-th reference of a stretch. */
  ghost function RefAt(g: nat, offset: nat, i: nat, w: nat): (p: nat)
  {
    MulNonNegative(i, w);
    g + offset + i * w
  }

  lemma RefFacts(mask: seq<bool>, g: nat, n: nat, w: nat, offset: nat, i: nat)
    requires Referenced(mask, g, n, w, offset) && offset < w && i < n
    ensures var p := RefAt(g, offset, i, w);
            && p < |mask| && !mask[p]
            && (i == 0 ==> p == g + offset && forall x :: g <= x < p ==> mask[x])
            && (i + 1 < n ==> p + w == RefAt(g, offset, i + 1, w) <= |mask| && forall x :: p < x < p + w ==> mask[x])
            && (i + 1 == n ==>
                  && p + (w - offset) == After(g, n, w) <= |mask|
                  && forall x :: p < x < p + (w - offset) ==> mask[x])
  {
    ReferencedRuns(mask, g, n, w, offset, i);
    assert i * w + w == (i + 1) * w;
    if i + 1 < n { MulOrder(w, i + 1, n); }
  }

  /** One reference is stepped over in the grid, then n symbols are copied. */
  method OverReference(input: array<Symbol>, output: array<Symbol>, inPtr0: nat, outPtr0: nat, n: nat,
                       advanceOutput: bool, ghost tr: Transfer, ghost g: nat) returns (inPtr: nat, outPtr: nat)
    requires input != output && Moved(tr, input[..], output[..], g) && advanceOutput == tr.put
    requires g + 1 + n <= |tr.mask| && !tr.mask[g] && forall x :: g < x < g + 1 + n ==> tr.mask[x]
    requires inPtr0 == InputAt(tr, g) && outPtr0 == OutputAt(tr, g)
    modifies output
    ensures Moved(tr, input[..], output[..], g + 1 + n)
    ensures inPtr == InputAt(tr, g + 1 + n) && outPtr == OutputAt(tr, g + 1 + n)
  {
    hide Moved, Rank;
    MovedSkip(tr, input[..], output[..], g, 1);
    inPtr, outPtr := inPtr0, outPtr0;
    if advanceOutput { outPtr := outPtr + 1; } else { inPtr := inPtr + 1; }
    inPtr, outPtr := CopyRun(input, output, inPtr, outPtr, n, tr, g + 1);
  }

  /** The whole block or half of it, around the references where the symbol has them. */
  method CopyStretch(job: Job, input: array<Symbol>, output: array<Symbol>, inPtr0: nat, outPtr0: nat, l: nat,
                     offset: nat, intervals: nat, put: bool, ghost tr: Transfer, ghost g: nat)
    returns (inPtr: nat, outPtr: nat)
    requires job.Valid() && input != output && Moved(tr, input[..], output[..], g) && put == tr.put
    requires tr.mask == job.Mask()
    requires intervals > 0 && offset < job.cell.Spacing() && job.Stretch(g, intervals, l, offset)
    requires inPtr0 == InputAt(tr, g) && outPtr0 == OutputAt(tr, g)
    modifies output
    ensures var h := After(g, intervals, job.cell.Spacing());
            && h <= |tr.mask| && Moved(tr, input[..], output[..], h)
            && (if put then inPtr == Rank(tr.mask, h) else outPtr == Rank(tr.mask, h))
  {
    hide Moved, Rank, Referenced;
    if job.cell.HasRef(l) {
      inPtr, outPtr := PrbCpRef(input, output, inPtr0, outPtr0, offset, job.cell.NofRefs(), intervals, put, tr, g,
                                job.cell.Spacing());
    } else {
      MulNonNegative(intervals, job.cell.Spacing());
      inPtr, outPtr := CopyRun(input, output, inPtr0, outPtr0, intervals * job.cell.Spacing(), tr, g);
    }
  }

  /** Block n of symbol l in slot s. */
  method CopyBlock(job: Job, input: array<Symbol>, output: array<Symbol>, s: nat, l: nat, n: nat, inPtr0: nat,
                   outPtr0: nat, offset0: nat, put: bool, ghost tr: Transfer, ghost b: nat)
    returns (inPtr: nat, outPtr: nat, offset: nat)
    requires job.Valid() && input != output && put == tr.put && tr.mask == job.Mask()
    requires b < job.Blocks() && s == job.SlotOf(b) && l == job.SymbolOf(b) && n == b % job.cell.nofPrb
    requires s < 2 && l < job.cell.Nsymb() && n < job.cell.nofPrb
    requires b == (s * job.cell.Nsymb() + l) * job.cell.nofPrb + n
    requires NRE * b <= |tr.mask| && Moved(tr, input[..], output[..], NRE * b)
    requires if put then inPtr0 == Rank(tr.mask, NRE * b) else outPtr0 == Rank(tr.mask, NRE * b)
    requires offset0 == job.ShiftBefore(b)
    modifies output
    ensures NRE * (b + 1) <= |tr.mask| && Moved(tr, input[..], output[..], NRE * (b + 1))
    ensures if put then inPtr == Rank(tr.mask, NRE * (b + 1)) else outPtr == Rank(tr.mask, NRE * (b + 1))
    ensures offset == job.ShiftBefore(b + 1)
  {
    hide Moved, Rank, Job.Mask, Referenced, Job.ShiftBefore;
    inPtr, outPtr, offset := inPtr0, outPtr0, offset0;
    var cell := job.cell;
    job.BlockParts(b, s, l, n);
    NextShift(job, b, s, l, n);
    if job.prb[s][n] {
      var lstart := if s == 0 then job.lstart else 0;
      var lend := cell.Nsymb();
      var isPbch, isSss := false, false;
      if s == 0 && (job.sf == 0 || job.sf == 5) {
        if cell.nofPrb / 2 - 3 <= n < cell.nofPrb / 2 + 3 + cell.nofPrb % 2 {
          lend := cell.Nsymb() - 2;
          isSss := true;
        }
      }
      if s == 1 && job.sf == 0 {
        if cell.nofPrb / 2 - 3 <= n < cell.nofPrb / 2 + 3 + cell.nofPrb % 2 {
          lstart := 4;
          isPbch := true;
        }
      }
      var lp := l + s * cell.Nsymb();
      assert (lp * cell.nofPrb + n) * NRE == NRE * b;
      if put { outPtr := (lp * cell.nofPrb + n) * NRE; } else { inPtr := (lp * cell.nofPrb + n) * NRE; }
      if lstart <= l < lend {
        assert job.Whole(s, l, n);
        if cell.HasRef(l) {
          offset := if cell.NofRefs() == 2 then if l == 0 then cell.id % 6 else (cell.id + 3) % 6 else cell.id % 3;
        }
        inPtr, outPtr := CopyStretch(job, input, output, inPtr, outPtr, l, offset, cell.NofRefs(), put, tr, NRE * b);
      } else {
        inPtr, outPtr := CopyEdge(job, input, output, s, l, n, inPtr, outPtr, offset, isPbch && l < lstart,
                                  isSss && l >= lend,
                                  put, tr, b);
      }
    } else {
      MovedSkip(tr, input[..], output[..], NRE * b, NRE);
    }
  }

  lemma NextShift(job: Job, b: nat, s: nat, l: nat, n: nat)
    requires job.Valid() && b < job.Blocks() && s == job.SlotOf(b) && l == job.SymbolOf(b) && n == b % job.cell.nofPrb
    requires s < 2 && l < job.cell.Nsymb() && n < job.cell.nofPrb
    ensures job.ShiftBefore(b + 1) == if job.Whole(s, l, n) && job.cell.HasRef(l) then job.cell.RefShift(l)
            else job.ShiftBefore(b)
  {
  }

  /** With an odd number of blocks half of each edge block lies outside the reserved subcarriers. */
  method CopyEdge(job: Job, input: array<Symbol>, output: array<Symbol>, s: nat, l: nat, n: nat, inPtr0: nat,
                  outPtr0: nat, offset: nat, inPbch: bool, inSync: bool, put: bool, ghost tr: Transfer, ghost b: nat)
    returns (inPtr: nat, outPtr: nat)
    requires job.Valid() && input != output && put == tr.put && tr.mask == job.Mask()
    requires b < job.Blocks() && s == job.SlotOf(b) && l == job.SymbolOf(b) && n == b % job.cell.nofPrb
    requires s < 2 && l < job.cell.Nsymb() && n < job.cell.nofPrb && job.prb[s][n] && !job.Whole(s, l, n)
    requires inPbch || inSync <==> job.Reserved(s, l) && job.cell.Middle(n)
    requires NRE * b <= |tr.mask| && Moved(tr, input[..], output[..], NRE * b)
    requires inPtr0 == InputAt(tr, NRE * b) && outPtr0 == OutputAt(tr, NRE * b) && offset == job.ShiftBefore(b)
    modifies output
    ensures NRE * (b + 1) <= |tr.mask| && Moved(tr, input[..], output[..], NRE * (b + 1))
    ensures if put then inPtr == Rank(tr.mask, NRE * (b + 1)) else outPtr == Rank(tr.mask, NRE * (b + 1))
  {
    hide Moved, Rank, Job.Mask, Job.Stretch, Job.ShiftBefore;
    inPtr, outPtr := inPtr0, outPtr0;
    var cell := job.cell;
    job.BlockParts(b, s, l, n);
    if cell.nofPrb % 2 == 1 && (inPbch || inSync) && n == cell.nofPrb / 2 - 3 {
      inPtr, outPtr := CopyStretch(job, input, output, inPtr, outPtr, l, offset, cell.NofRefs() / 2, put, tr, NRE * b);
      MovedSkip(tr, input[..], output[..], NRE * b + 6, 6);
    } else if cell.nofPrb % 2 == 1 && (inPbch || inSync) && n == cell.nofPrb / 2 + 3 {
      MovedSkip(tr, input[..], output[..], NRE * b, 6);
      if put { outPtr := outPtr + 6; } else { inPtr := inPtr + 6; }
      inPtr, outPtr := CopyStretch(job, input, output, inPtr, outPtr, l, offset, cell.NofRefs() / 2, put, tr,
                                    NRE * b + 6);
    } else {
      MovedSkip(tr, input[..], output[..], NRE * b, NRE);
    }
  }

  /** Copies between the symbol list and the subframe grid and returns the number of symbols moved. */
  method Cp(job: Job, input: array<Symbol>, output: array<Symbol>, put: bool) returns (r: nat)
    requires job.Valid() && input != output
    requires Fits(Transfer(put, job.Mask(), output[..]), input[..])
    modifies output
    ensures r == Total(job.Mask())
    ensures Moved(Transfer(put, job.Mask(), old(output[..])), input[..], output[..], NRE * job.Blocks())
  {
    hide Moved, Rank, Job.Mask, Job.ShiftBefore, Fits, At, FirstOf, Job.Blocks;
    ghost var tr := Transfer(put, job.Mask(), output[..]);
    var inPtr, outPtr, offset := 0, 0, 0;
    AtStart(job, input[..], output[..], tr);
    var s := 0;
    while s < 2
      invariant s <= 2 && FirstOf(job, s, 0) <= job.Blocks()
      invariant At(job, input[..], output[..], inPtr, outPtr, offset, tr, FirstOf(job, s, 0))
    {
      var l := 0;
      while l < job.cell.Nsymb()
        invariant l <= job.cell.Nsymb() && FirstOf(job, s, l) <= job.Blocks()
        invariant At(job, input[..], output[..], inPtr, outPtr, offset, tr, FirstOf(job, s, l))
      {
        NextSymbolOf(job, s, l);
        inPtr, outPtr, offset := CopySymbol(job, input, output, s, l, inPtr, outPtr, offset, put, tr,
                                            FirstOf(job, s, l));
        l := l + 1;
      }
      NextSlotOf(job, s);
      s := s + 1;
    }
    AtEnd(job, input[..], output[..], inPtr, outPtr, offset, tr);
    r := if put then inPtr else outPtr;
  }

  /** The first block of symbol l in slot s. */
  ghost function FirstOf(job: Job, s: nat, l: nat): (b: nat)
  {
    MulNonNegative(s * job.cell.Nsymb() + l, job.cell.nofPrb);
    (s * job.cell.Nsymb() + l) * job.cell.nofPrb
  }

  lemma NextSymbolOf(job: Job, s: nat, l: nat)
    requires s < 2 && l < job.cell.Nsymb()
    ensures FirstOf(job, s, l) + job.cell.nofPrb == FirstOf(job, s, l + 1) <= job.Blocks()
  {
    NextSymbol(job.cell.nofPrb, s * job.cell.Nsymb() + l, 2 * job.cell.Nsymb());
  }

  lemma NextSlotOf(job: Job, s: nat)
    requires s < 2
    ensures FirstOf(job, s, job.cell.Nsymb()) == FirstOf(job, s + 1, 0)
  {
  }

  lemma AtStart(job: Job, input: seq<Symbol>, output: seq<Symbol>, tr: Transfer)
    requires job.Valid() && tr.mask == job.Mask() && tr.before == output && Fits(tr, input)
    ensures FirstOf(job, 0, 0) == 0 && 0 <= job.Blocks() && At(job, input, output, 0, 0, 0, tr, 0)
  {
    NothingMoved(tr, input);
    FirstShift(job);
  }

  lemma AtEnd(job: Job, input: seq<Symbol>, output: seq<Symbol>, inPtr: nat, outPtr: nat, offset: nat, tr: Transfer)
    requires job.Valid() && tr.mask == job.Mask() && FirstOf(job, 2, 0) <= job.Blocks()
    requires At(job, input, output, inPtr, outPtr, offset, tr, FirstOf(job, 2, 0))
    ensures Moved(tr, input, output, NRE * job.Blocks())
    ensures (if tr.put then inPtr else outPtr) == Total(job.Mask())
  {
    hide Moved, Rank, Job.Mask;
    AllMoved(job);
  }

  ghost predicate At(job: Job, input: seq<Symbol>, output: seq<Symbol>, inPtr: nat, outPtr: nat, offset: nat,
                     tr: Transfer, b: nat)
    requires job.Valid() && b <= job.Blocks()
  {
    && NRE * b <= |tr.mask| && Moved(tr, input, output, NRE * b) && offset == job.ShiftBefore(b)
    && if tr.put then inPtr == Rank(tr.mask, NRE * b) else outPtr == Rank(tr.mask, NRE * b)
  }

  lemma FirstShift(job: Job)
    requires job.Valid()
    ensures job.ShiftBefore(0) == 0
  {
  }

  lemma NextSymbol(cols: nat, q: nat, rows: nat)
    requires q < rows
    ensures q * cols + cols == (q + 1) * cols <= rows * cols
  {
    if cols > 0 { MulOrder(cols, q, rows); }
  }

  lemma AllMoved(job: Job)
    requires job.Valid()
    ensures |job.Mask()| == NRE * job.Blocks() && Rank(job.Mask(), NRE * job.Blocks()) == Total(job.Mask())
  {
    hide Job.Used, Kept;
  }

  method CopySymbol(job: Job, input: array<Symbol>, output: array<Symbol>, s: nat, l: nat, inPtr0: nat, outPtr0: nat,
                    offset0: nat, put: bool, ghost tr: Transfer, ghost b0: nat)
    returns (inPtr: nat, outPtr: nat, offset: nat)
    requires job.Valid() && input != output && put == tr.put && tr.mask == job.Mask() && s < 2 && l < job.cell.Nsymb()
    requires b0 == FirstOf(job, s, l) && b0 + job.cell.nofPrb <= job.Blocks()
    requires At(job, input[..], output[..], inPtr0, outPtr0, offset0, tr, b0)
    modifies output
    ensures At(job, input[..], output[..], inPtr, outPtr, offset, tr, b0 + job.cell.nofPrb)
  {
    hide Moved, Rank, Job.Mask, Job.ShiftBefore;
    inPtr, outPtr, offset := inPtr0, outPtr0, offset0;
    var n := 0;
    while n < job.cell.nofPrb
      invariant n <= job.cell.nofPrb && At(job, input[..], output[..], inPtr, outPtr, offset, tr, b0 + n)
    {
      job.BlockAt(s, l, n);
      inPtr, outPtr, offset := CopyBlock(job, input, output, s, l, n, inPtr, outPtr, offset, put, tr, b0 + n);
      n := n + 1;
    }
  }

  /** Reading back what was written returns every symbol, in order. */
  lemma GetAfterPut(job: Job, x: seq<Symbol>, grid0: seq<Symbol>, grid: seq<Symbol>, y0: seq<Symbol>, y: seq<Symbol>)
    requires job.Valid()
    requires Moved(Transfer(true, job.Mask(), grid0), x, grid, NRE * job.Blocks())
    requires Moved(Transfer(false, job.Mask(), y0), grid, y, NRE * job.Blocks())
    ensures Total(job.Mask()) <= |x| && Total(job.Mask()) <= |y|
    ensures y[..Total(job.Mask())] == x[..Total(job.Mask())]
  {
    hide Kept, Job.Used;
    var mask := job.Mask();
    forall j | 0 <= j < Total(mask)
      ensures y[j] == x[j]
    {
      var g := Kept(mask, |mask|)[j];
      KeptRank(mask, j);
    }
  }

  lemma KeptRank(mask: seq<bool>, j: nat)
    requires j < Total(mask)
    ensures var g := Kept(mask, |mask|)[j]; g < |mask| && mask[g] && Rank(mask, g) == j
  {
    hide Kept;
    var g := Kept(mask, |mask|)[j];
    KeptAt(mask, g);
    if Rank(mask, g) < j { KeptIncreasing(mask, |mask|, Rank(mask, g), j); }
    if j < Rank(mask, g) { KeptIncreasing(mask, |mask|, j, Rank(mask, g)); }
  }

  // ---- counting ----

  lemma {:induction false} CountAll(mask: seq<bool>, g: nat, n: nat)
    requires g + n <= |mask| && forall x :: g <= x < g + n ==> mask[x]
    ensures Rank(mask, g + n) == Rank(mask, g) + n
  {
    hide Kept;
    if n > 0 {
      CountAll(mask, g, n - 1);
      KeptStep(mask, g + n - 1);
    }
  }

  lemma CountNone(mask: seq<bool>, g: nat, n: nat)
    requires g + n <= |mask| && forall x :: g <= x < g + n ==> !mask[x]
    ensures Rank(mask, g + n) == Rank(mask, g)
  {
    hide Kept;
    NoneKept(mask, g, g + n);
  }

  /** One position in w is a reference. */
  lemma {:induction false} CountReferenced(mask: seq<bool>, g: nat, n: nat, w: nat, v: nat)
    requires Referenced(mask, g, n, w, v) && v < w
    ensures g + n * w <= |mask| && Rank(mask, g + n * w) == Rank(mask, g) + n * (w - 1)
    decreases n
  {
    hide Kept, Rank;
    if n > 0 {
      ReferencedRuns(mask, g, n, w, v, n - 1);
      var h := g + (n - 1) * w;
      assert h + w == g + n * w by { assert (n - 1) * w + w == n * w; }
      assert Referenced(mask, g, n - 1, w, v);
      CountReferenced(mask, g, n - 1, w, v);
      LastWindow(mask, g, n, w, v);
      CountAll(mask, h, v);
      CountNone(mask, h + v, 1);
      CountAll(mask, h + v + 1, w - v - 1);
      assert n * (w - 1) == (n - 1) * (w - 1) + (w - 1);
    }
  }

  lemma LastWindow(mask: seq<bool>, g: nat, n: nat, w: nat, v: nat)
    requires Referenced(mask, g, n, w, v) && v < w && n > 0
    ensures var h := g + (n - 1) * w;
            && h + w == g + n * w <= |mask|
            && forall x :: h <= x < h + w ==> mask[x] == (x - h != v)
  {
    var h := g + (n - 1) * w;
    assert (n - 1) * w + w == n * w;
    MulNonNegative(n - 1, w);
    forall x | h <= x < h + w
      ensures mask[x] == (x - h != v)
    {
      ModUnique(x - g, w, n - 1, x - h);
    }
  }

  lemma CountStretch(job: Job, g: nat, n: nat, l: nat, v: nat)
    requires job.Valid() && job.Stretch(g, n, l, v) && v < job.cell.Spacing()
    ensures g + n * job.cell.Spacing() <= |job.Mask()|
    ensures Rank(job.Mask(), g + n * job.cell.Spacing()) ==
            Rank(job.Mask(), g) + n * job.cell.Spacing() - if job.cell.HasRef(l) then n else 0
  {
    hide Job.Mask, Rank;
    if job.cell.HasRef(l) {
      hide Referenced;
      CountReferenced(job.Mask(), g, n, job.cell.Spacing(), v);
      assert n * (job.cell.Spacing() - 1) == n * job.cell.Spacing() - n;
    } else {
      MulNonNegative(n, job.cell.Spacing());
      CountAll(job.Mask(), g, n * job.cell.Spacing());
    }
  }

  /** The mask holds in each block as many positions as the block's load. */
  lemma CountBlock(job: Job, b: nat, s: nat, l: nat, n: nat)
    requires job.Valid() && b < job.Blocks() && s == job.SlotOf(b) && l == job.SymbolOf(b) && n == b % job.cell.nofPrb
    requires s < 2 && l < job.cell.Nsymb() && n < job.cell.nofPrb
    ensures NRE * b + NRE <= |job.Mask()|
    ensures Rank(job.Mask(), NRE * b + NRE) == Rank(job.Mask(), NRE * b) + job.Load(s, l, n)
  {
    hide Job.Mask, Rank, Job.Stretch, Job.Reserved;
    job.BlockParts(b, s, l, n);
    var k := job.cell.NofRefs();
    if job.Whole(s, l, n) {
      CountStretch(job, NRE * b, k, l, job.cell.RefShift(l));
    } else if job.LowHalf(s, l, n) {
      CountStretch(job, NRE * b, k / 2, l, job.ShiftBefore(b));
      CountNone(job.Mask(), NRE * b + 6, 6);
    } else if job.HighHalf(s, l, n) {
      CountNone(job.Mask(), NRE * b, 6);
      CountStretch(job, NRE * b + 6, k / 2, l, job.ShiftBefore(b));
    } else {
      CountNone(job.Mask(), NRE * b, NRE);
    }
  }

  /** Symbols carried by the first n blocks of a symbol. */
  ghost function RowLoad(job: Job, s: nat, l: nat, n: nat): nat
    requires job.Valid() && s < 2 && n <= job.cell.nofPrb
  {
    if n == 0 then 0 else RowLoad(job, s, l, n - 1) + job.Load(s, l, n - 1)
  }

  /** Symbols carried by the first l symbols of a slot. */
  ghost function RowsLoad(job: Job, s: nat, l: nat): nat
    requires job.Valid() && s < 2
  {
    if l == 0 then 0 else RowsLoad(job, s, l - 1) + RowLoad(job, s, l - 1, job.cell.nofPrb)
  }

  /** Symbols carried by block n in the first l symbols of a slot. */
  ghost function ColumnLoad(job: Job, s: nat, l: nat, n: nat): nat
    requires job.Valid() && s < 2 && n < job.cell.nofPrb
  {
    if l == 0 then 0 else ColumnLoad(job, s, l - 1, n) + job.Load(s, l - 1, n)
  }

  ghost function ColumnsLoad(job: Job, s: nat, l: nat, n: nat): nat
    requires job.Valid() && s < 2 && n <= job.cell.nofPrb
  {
    if n == 0 then 0 else ColumnsLoad(job, s, l, n - 1) + ColumnLoad(job, s, l, n - 1)
  }

  lemma {:induction false} RowRank(job: Job, s: nat, l: nat, n: nat)
    requires job.Valid() && s < 2 && l < job.cell.Nsymb() && n <= job.cell.nofPrb
    ensures var b := (s * job.cell.Nsymb() + l) * job.cell.nofPrb;
            && 0 <= b <= b + n <= job.Blocks()
            && Rank(job.Mask(), NRE * (b + n)) == Rank(job.Mask(), NRE * b) + RowLoad(job, s, l, n)
    decreases n
  {
    hide Job.Mask, Rank, Job.Load;
    var b := (s * job.cell.Nsymb() + l) * job.cell.nofPrb;
    NextSymbol(job.cell.nofPrb, s * job.cell.Nsymb() + l, 2 * job.cell.Nsymb());
    MulNonNegative(s * job.cell.Nsymb() + l, job.cell.nofPrb);
    if n > 0 {
      RowRank(job, s, l, n - 1);
      job.BlockAt(s, l, n - 1);
      CountBlock(job, b + (n - 1), s, l, n - 1);
      assert NRE * (b + (n - 1)) + NRE == NRE * (b + n);
    }
  }

  lemma {:induction false} SlotRank(job: Job, s: nat, l: nat)
    requires job.Valid() && s < 2 && l <= job.cell.Nsymb()
    ensures var b0, b := s * job.cell.Nsymb() * job.cell.nofPrb, (s * job.cell.Nsymb() + l) * job.cell.nofPrb;
            && 0 <= b0 <= job.Blocks() && 0 <= b <= job.Blocks()
            && Rank(job.Mask(), NRE * b) == Rank(job.Mask(), NRE * b0) + RowsLoad(job, s, l)
    decreases l
  {
    hide Job.Mask, Rank, RowLoad;
    if l > 0 {
      SlotRank(job, s, l - 1);
      RowRank(job, s, l - 1, job.cell.nofPrb);
      NextSymbol(job.cell.nofPrb, s * job.cell.Nsymb() + l - 1, 2 * job.cell.Nsymb());
    } else {
      OfGrid(2 * job.cell.Nsymb(), job.cell.nofPrb, s * job.cell.Nsymb(), 0);
    }
  }

  /** Summing the blocks of a slot by symbols or by blocks is the same. */
  lemma {:induction false} RowsAreColumns(job: Job, s: nat, l: nat)
    requires job.Valid() && s < 2
    ensures RowsLoad(job, s, l) == ColumnsLoad(job, s, l, job.cell.nofPrb)
    decreases l
  {
    hide Job.Load;
    if l == 0 {
      EmptyColumns(job, s, job.cell.nofPrb);
    } else {
      RowsAreColumns(job, s, l - 1);
      LongerColumns(job, s, l - 1, job.cell.nofPrb);
    }
  }

  lemma {:induction false} EmptyColumns(job: Job, s: nat, n: nat)
    requires job.Valid() && s < 2 && n <= job.cell.nofPrb
    ensures ColumnsLoad(job, s, 0, n) == 0
  {
    if n > 0 { EmptyColumns(job, s, n - 1); }
  }

  lemma {:induction false} LongerColumns(job: Job, s: nat, l: nat, n: nat)
    requires job.Valid() && s < 2 && n <= job.cell.nofPrb
    ensures ColumnsLoad(job, s, l + 1, n) == ColumnsLoad(job, s, l, n) + RowLoad(job, s, l, n)
    decreases n
  {
    hide Job.Load;
    if n > 0 { LongerColumns(job, s, l, n - 1); }
  }

  /** The mask counted block by block. */
  lemma TotalLoad(job: Job)
    requires job.Valid()
    ensures var l, n := job.cell.Nsymb(), job.cell.nofPrb;
            Total(job.Mask()) == ColumnsLoad(job, 0, l, n) + ColumnsLoad(job, 1, l, n)
  {
    hide Job.Mask, Rank, RowsLoad, ColumnsLoad, Kept;
    var l := job.cell.Nsymb();
    AllMoved(job);
    SlotRank(job, 0, l);
    SlotRank(job, 1, l);
    RowsAreColumns(job, 0, l);
    RowsAreColumns(job, 1, l);
    StartRank(job.Mask());
  }

  lemma StartRank(mask: seq<bool>)
    ensures Rank(mask, 0) == 0
  {
  }

  /** Symbols a granted block carries in a whole slot. */
  function BlockLoad(job: Job, s: nat, n: nat): (c: nat)
    requires job.cell.Valid()
  {
    job.Capacity(s, 0, n) + job.Capacity(s, 1, n) + job.Capacity(s, 2, n) + job.Capacity(s, 3, n)
    + job.Capacity(s, 4, n)
    + job.Capacity(s, 5, n) + if job.cell.extended then 0 else job.Capacity(s, 6, n)
  }

  lemma ColumnIsBlock(job: Job, s: nat, n: nat)
    requires job.Valid() && s < 2 && n < job.cell.nofPrb
    ensures ColumnLoad(job, s, job.cell.Nsymb(), n) == if job.prb[s][n] then BlockLoad(job, s, n) else 0
  {
    hide Job.Capacity;
    ColumnFour(job, s, n);
    var c4 := ColumnLoad(job, s, 4, n);
    assert ColumnLoad(job, s, 5, n) == c4 + job.Load(s, 4, n);
    assert ColumnLoad(job, s, 6, n) == ColumnLoad(job, s, 5, n) + job.Load(s, 5, n);
    assert ColumnLoad(job, s, 7, n) == ColumnLoad(job, s, 6, n) + job.Load(s, 6, n);
  }

  lemma ColumnFour(job: Job, s: nat, n: nat)
    requires job.Valid() && s < 2 && n < job.cell.nofPrb
    ensures ColumnLoad(job, s, 4, n) == job.Load(s, 0, n) + job.Load(s, 1, n) + job.Load(s, 2, n) + job.Load(s, 3, n)
  {
    hide Job.Load;
    assert ColumnLoad(job, s, 0, n) == 0;
    assert ColumnLoad(job, s, 1, n) == job.Load(s, 0, n);
    assert ColumnLoad(job, s, 2, n) == ColumnLoad(job, s, 1, n) + job.Load(s, 1, n);
    assert ColumnLoad(job, s, 3, n) == ColumnLoad(job, s, 2, n) + job.Load(s, 2, n);
    assert ColumnLoad(job, s, 4, n) == ColumnLoad(job, s, 3, n) + job.Load(s, 3, n);
  }

  /** By how much the count of a block of the first slot exceeds what the block carries. */
  function Excess(cell: Cell, lstart: nat): int {
    if lstart == 0 then 2 * cell.nofPorts
    else if lstart <= cell.Nsymb() - 3 then 0
    else -(if cell.nofPorts == 1 then 2 else 4)
  }

  /** References of the first slot from symbol l on, per block. */
  function RefsFrom(cell: Cell, l: nat): nat {
    (if l == 0 then cell.NofRefs() else 0) + (if l <= 1 && cell.nofPorts == 4 then 4 else 0)
    + if l <= cell.Nsymb() - 3 then cell.NofRefs() else 0
  }

  lemma UnreservedLoad(job: Job, s: nat, n: nat)
    requires job.Valid() && s < 2
    requires !(job.cell.Middle(n) && ((s == 0 && (job.sf == 0 || job.sf == 5)) || (s == 1 && job.sf == 0)))
    ensures BlockLoad(job, s, n) ==
            if s == 0 then NRE * (job.cell.Nsymb() - job.lstart) - RefsFrom(job.cell, job.lstart)
            else NRE * job.cell.Nsymb() - RefsFrom(job.cell, 0)
  {
    hide Job.Open, Job.Edge;
    forall l: nat
      ensures job.Open(s, l, n) <==> (s == 0 ==> l >= job.lstart)
      ensures !job.Edge(s, l, n)
    {
      Unreserved(job, s, n, l);
    }
  }

  lemma Unreserved(job: Job, s: nat, n: nat, l: nat)
    requires job.Valid() && s < 2
    requires !(job.cell.Middle(n) && ((s == 0 && (job.sf == 0 || job.sf == 5)) || (s == 1 && job.sf == 0)))
    ensures job.Open(s, l, n) <==> (s == 0 ==> l >= job.lstart)
    ensures !job.Edge(s, l, n)
  {
  }

  lemma SyncLoad(job: Job, n: nat)
    requires job.Valid() && job.cell.Middle(n) && (job.sf == 0 || job.sf == 5)
    ensures BlockLoad(job, 0, n) ==
            NRE * (job.cell.Nsymb() - 2 - job.lstart) - RefsFrom(job.cell, job.lstart)
            + if job.cell.nofPrb % 2 == 1 && (n + 3 == job.cell.nofPrb / 2 || n == job.cell.nofPrb / 2 + 3) then NRE
            else 0
  {
  }

  lemma BroadcastLoad(job: Job, n: nat)
    requires job.Valid() && job.cell.Middle(n) && job.sf == 0
    ensures var edge := job.cell.nofPrb % 2 == 1 && (n + 3 == job.cell.nofPrb / 2 || n == job.cell.nofPrb / 2 + 3);
            BlockLoad(job, 1, n) ==
            NRE * (job.cell.Nsymb() - 4) - (if job.cell.extended then 0 else job.cell.NofRefs())
            + if edge then 2 * NRE - (RefsFrom(job.cell, 0) - if job.cell.extended then 0 else job.cell.NofRefs()) / 2
            else 0
  {
  }

  /** The number of resource elements of a block in a slot. */
  method ReXPrb(job: Job, slot: nat, prbIdx: nat) returns (re: int)
    requires job.Valid() && slot < 2 && prbIdx < job.cell.nofPrb
    ensures re == BlockLoad(job, slot, prbIdx) + if slot == 0 then Excess(job.cell, job.lstart) else 0
  {
    hide BlockLoad;
    var cell := job.cell;
    if cell.Middle(prbIdx) && slot == 0 && (job.sf == 0 || job.sf == 5) {
      SyncLoad(job, prbIdx);
    } else if cell.Middle(prbIdx) && slot == 1 && job.sf == 0 {
      BroadcastLoad(job, prbIdx);
    } else {
      UnreservedLoad(job, slot, prbIdx);
    }
    var skipRefs := false;
    re := if slot == 0 then (cell.Nsymb() - job.lstart) * NRE else cell.Nsymb() * NRE;
    if (job.sf == 0 || job.sf == 5) && cell.nofPrb / 2 - 3 <= prbIdx < cell.nofPrb / 2 + 3 + cell.nofPrb % 2 {
      if job.sf == 0 {
        if slot == 0 {
          re := (cell.Nsymb() - job.lstart - 2) * NRE;
        } else if cell.extended {
          re := (cell.Nsymb() - 4) * NRE;
          skipRefs := true;
        } else {
          re := (cell.Nsymb() - 4) * NRE + 2 * cell.nofPorts;
        }
      } else if slot == 0 {
        re := (cell.Nsymb() - job.lstart - 2) * NRE;
      }
      if cell.nofPrb % 2 == 1 && (prbIdx == cell.nofPrb / 2 - 3 || prbIdx == cell.nofPrb / 2 + 3) {
        if slot == 0 {
          re := re + 2 * NRE / 2;
        } else if job.sf == 0 {
          re := re + 4 * NRE / 2 - cell.nofPorts;
          if cell.extended { re := re - if cell.nofPorts > 2 then 2 else cell.nofPorts; }
        }
      }
    }
    if !skipRefs {
      if cell.nofPorts == 1 || cell.nofPorts == 2 {
        re := re - 2 * (slot + 1) * cell.nofPorts;
      } else if slot == 1 {
        re := re - 12;
      } else {
        re := re - 4;
        if job.lstart == 1 { re := re - 4; }
      }
    }
  }

  function Granted(prb: seq<bool>, n: nat): nat
    requires n <= |prb|
  {
    if n == 0 then 0 else Granted(prb, n - 1) + if prb[n - 1] then 1 else 0
  }

  /** The number of resource elements of a grant: exactly what the copy moves, but for the excess of each
      block of the first slot. */
  method GrantNofRe(job: Job) returns (nofRe: int)
    requires job.Valid()
    ensures nofRe == Total(job.Mask()) + Granted(job.prb[0], job.cell.nofPrb) * Excess(job.cell, job.lstart)
  {
    hide BlockLoad, Job.Mask, Job.Load, ColumnLoad, Excess;
    TotalLoad(job);
    nofRe := SlotRe(job, 0);
    var second := SlotRe(job, 1);
    nofRe := nofRe + second;
  }

  method SlotRe(job: Job, s: nat) returns (nofRe: int)
    requires job.Valid() && s < 2
    ensures nofRe == ColumnsLoad(job, s, job.cell.Nsymb(), job.cell.nofPrb) +
                     if s == 0 then Granted(job.prb[0], job.cell.nofPrb) * Excess(job.cell, job.lstart) else 0
  {
    hide BlockLoad, Job.Load, ColumnLoad, Excess;
    nofRe := 0;
    var x := Excess(job.cell, job.lstart);
    var j := 0;
    while j < job.cell.nofPrb
      invariant j <= job.cell.nofPrb
      invariant nofRe == ColumnsLoad(job, s, job.cell.Nsymb(), j) + if s == 0 then Granted(job.prb[0], j) * x else 0
    {
      ColumnIsBlock(job, s, j);
      if job.prb[s][j] {
        var re := ReXPrb(job, s, j);
        nofRe := nofRe + re;
        if s == 0 { assert (Granted(job.prb[0], j) + 1) * x == Granted(job.prb[0], j) * x + x; }
      }
      j := j + 1;
    }
  }

  /** The count agrees with the copy if and only if the control region leaves at least one and at most all
      but three symbols of the slot before the channel starts, or nothing is granted in the first slot. */
  lemma CountIsExact(job: Job, nofRe: int)
    requires job.Valid()
    requires nofRe == Total(job.Mask()) + Granted(job.prb[0], job.cell.nofPrb) * Excess(job.cell, job.lstart)
    ensures nofRe == Total(job.Mask()) <==>
            1 <= job.lstart <= job.cell.Nsymb() - 3 || (forall n :: 0 <= n < job.cell.nofPrb ==> !job.prb[0][n])
  {
    hide Job.Mask;
    var g, x := Granted(job.prb[0], job.cell.nofPrb), Excess(job.cell, job.lstart);
    GrantedNone(job.prb[0], job.cell.nofPrb);
    assert g * x == 0 <==> g == 0 || x == 0 by { if g > 0 { MulOrder(g, 0, x); MulOrder(g, x, 0); } }
  }

  /** Extended prefix, fewer than ten blocks and CFI 3: one block granted in each slot is counted short. */
  lemma CountFallsShort(nofRe: int)
    ensures var job := Job(Cell(0, 7, 1, true), [[true] + seq(6, _ => false), [true] + seq(6, _ => false)], 4, 1);
            && job.Valid()
            && (nofRe == Total(job.Mask()) + Granted(job.prb[0], job.cell.nofPrb) * Excess(job.cell, job.lstart) ==>
                  nofRe < Total(job.Mask()))
  {
    var job := Job(Cell(0, 7, 1, true), [[true] + seq(6, _ => false), [true] + seq(6, _ => false)], 4, 1);
    hide Job.Mask;
    GrantedNone(job.prb[0], job.cell.nofPrb);
    assert job.prb[0][0];
    assert Excess(job.cell, job.lstart) < 0;
    MulOrder(Granted(job.prb[0], job.cell.nofPrb), Excess(job.cell, job.lstart), 0);
  }

  lemma {:induction false} GrantedNone(prb: seq<bool>, n: nat)
    requires n <= |prb|
    ensures Granted(prb, n) == 0 <==> forall j :: 0 <= j < n ==> !prb[j]
  {
    if n > 0 { GrantedNone(prb, n - 1); }
  }
}

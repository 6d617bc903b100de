/** The table-driven CRC step (gen_crc_table, crctable and reversecrcbit in srslte/lib/fec/crc.c). */
module CrcTable {
  import opened Bytes
  import opened CrcRegister
  import opened Gf2Division

  /** x << (order - 8): a byte at the top of the register. */
  function Place(o: nat, x: word): word {
    if o == 8 then x else if o == 16 then x << 8 else x << 16
  }

  /** (w >> (order - 8)) & 0xff */
  function TopByte(o: nat, w: word): word {
    if o == 8 then w & 0xff else if o == 16 then (w >> 8) & 0xff else (w >> 16) & 0xff
  }

  /** The register without its top byte. */
  function Rest(o: nat, w: word): word {
    if o == 8 then 0 else if o == 16 then w & 0xff else w & 0xffff
  }

  function ShiftByte(w: word): word {
    w << 8
  }

  function MaskBy(w: word, m: word): word {
    w & m
  }

  function Masked(o: nat, w: word): word {
    MaskBy(w, CrcMask(o))
  }

  // ---- linearity --------------------------------------------------------------------------

  lemma PlusCancels(x: word, y: word, p: word)
    ensures Plus(Plus(x, p), Plus(y, p)) == Plus(x, y)
  {
    assert (x ^ p) ^ (y ^ p) == x ^ y;
  }

  lemma PlusAssociates(x: word, y: word, p: word)
    ensures Plus(x, Plus(y, p)) == Plus(Plus(x, y), p)
  {
    assert x ^ (y ^ p) == (x ^ y) ^ p;
  }

  lemma PlusCommutes(x: word, y: word)
    ensures Plus(x, y) == Plus(y, x)
  {
  }

  lemma PlusSwaps(x: word, y: word, p: word)
    ensures Plus(Plus(x, p), y) == Plus(Plus(x, y), p)
  {
    hide Plus;
    PlusAssociates(x, p, y);
    PlusCommutes(p, y);
    PlusAssociates(x, y, p);
  }

  lemma PlusZero(x: word)
    ensures Plus(x, 0) == x && Plus(x, x) == 0
  {
  }

  lemma DoubleLinear(a: word, b: word)
    ensures Double(Plus(a, b)) == Plus(Double(a), Double(b))
  {
  }

  lemma HighIsOneBit(o: nat)
    ensures OneBit(High(o))
  {
  }

  lemma StepLinear(o: nat, poly: word, a: word, b: word)
    ensures Step(o, poly, Plus(a, b)) == Plus(Step(o, poly, a), Step(o, poly, b))
  {
    hide Plus, Double, HasBit, High, OneBit;
    HighIsOneBit(o);
    XorBit(a, b, High(o));
    DoubleLinear(a, b);
    PlusCancels(Double(a), Double(b), poly);
    PlusSwaps(Double(a), Double(b), poly);
    PlusAssociates(Double(a), Double(b), poly);
  }

  lemma {:induction false} StepsLinear(o: nat, poly: word, a: word, b: word, n: nat)
    ensures Steps(o, poly, Plus(a, b), n) == Plus(Steps(o, poly, a, n), Steps(o, poly, b, n))
    decreases n
  {
    hide Plus, Step;
    if n > 0 {
      StepLinear(o, poly, a, b);
      StepsLinear(o, poly, Step(o, poly, a), Step(o, poly, b), n - 1);
    }
  }

  lemma {:induction false} StepsFit(o: nat, poly: word, w: word, n: nat)
    requires Order(o) && GoodPoly(o, poly) && Fits(o, w)
    ensures Fits(o, Steps(o, poly, w, n))
    decreases n
  {
    if n > 0 {
      StepFits(o, poly, w);
      hide Fits, GoodPoly, Step;
      StepsFit(o, poly, Step(o, poly, w), n - 1);
    }
  }

  // ---- eight clocks at once ---------------------------------------------------------------

  /** w has its top n bits clear. */
  predicate Quiet(o: nat, w: word, n: nat)
    decreases n
  {
    n == 0 || (!HasBit(w, High(o)) && Quiet(o, Double(w), n - 1))
  }

  function Doubled(w: word, n: nat): word
    decreases n
  {
    if n == 0 then w else Doubled(Double(w), n - 1)
  }

  lemma {:induction false} QuietSteps(o: nat, poly: word, w: word, n: nat)
    requires Quiet(o, w, n)
    ensures Steps(o, poly, w, n) == Doubled(w, n)
    decreases n
  {
    hide Double, HasBit, High, Plus;
    if n > 0 { QuietSteps(o, poly, Double(w), n - 1); }
  }

  predicate Below(w: word, u: word) {
    w < u
  }

  /** A word below 2^(o - n) has its top n bits clear. */
  lemma {:induction false} SmallIsQuiet(o: nat, w: word, n: nat)
    requires Order(o) && n <= 8 && Below(w, Unit(o - n))
    ensures Quiet(o, w, n)
    decreases n
  {
    hide Double, HasBit, High, Unit, Below;
    if n > 0 {
      BelowHigh(o, w, o - n);
      DoubleBelow(o, w, o - n);
      SmallIsQuiet(o, Double(w), n - 1);
    }
  }

  lemma BelowHigh(o: nat, w: word, j: nat)
    requires Order(o) && j < o && Below(w, Unit(j))
    ensures !HasBit(w, High(o))
  {
    UnitUpToHigh(o, j);
    hide Unit, High;
    RawBelow(w, High(o));
  }

  lemma UnitUpToHigh(o: nat, j: nat)
    requires Order(o) && j < o
    ensures Unit(j) <= High(o) && High(o) & (High(o) - 1) == 0
  {
  }

  lemma RawBelow(w: word, h: word)
    requires w < h && h & (h - 1) == 0
    ensures w & h == 0
  {
  }

  lemma DoubleBelow(o: nat, w: word, j: nat)
    requires j < 24 && Below(w, Unit(j))
    ensures Below(Double(w), Unit(j + 1))
  {
    UnitFacts(j);
    RawDoubleBelow(w, Unit(j));
  }

  lemma RawDoubleBelow(w: word, u: word)
    requires w < u <= 0x80_0000
    ensures w << 1 < u << 1
  {
  }

  lemma DoubledIsShift(w: word)
    ensures Doubled(w, 8) == ShiftByte(w)
  {
  }

  /** Eight clocks only shift what stands below the top byte. */
  lemma RestSteps(o: nat, poly: word, w: word)
    requires Order(o)
    ensures Steps(o, poly, Rest(o, w), 8) == Masked(o, ShiftByte(w))
  {
    RestSmall(o, w);
    SmallIsQuiet(o, Rest(o, w), 8);
    QuietSteps(o, poly, Rest(o, w), 8);
    DoubledIsShift(Rest(o, w));
    RestShifted(o, w);
  }

  lemma RestSmall(o: nat, w: word)
    requires Order(o)
    ensures Below(Rest(o, w), Unit(o - 8))
  {
  }

  lemma RestShifted(o: nat, w: word)
    requires Order(o)
    ensures ShiftByte(Rest(o, w)) == Masked(o, ShiftByte(w))
  {
    if o == 8 { RawMask8(w); } else if o == 16 { RawMask16(w); } else { RawMask24(w); }
  }

  lemma RawMask8(w: word)
    ensures (w << 8) & 0xff == 0 == (0 as word) << 8
  {
  }

  lemma RawMask16(w: word)
    ensures (w & 0xff) << 8 == (w << 8) & 0xffff
  {
  }

  lemma RawMask24(w: word)
    ensures (w & 0xffff) << 8 == (w << 8) & 0xff_ffff
  {
  }

  // ---- a byte fed through the table -------------------------------------------------------

  /** What gen_crc_table stores for byte x. */
  function Entry(o: nat, poly: word, x: word): word {
    Steps(o, poly, Place(o, x), 8)
  }

  function Index(o: nat, crc: word, x: word): word {
    Plus(TopByte(o, crc), x)
  }

  /** crctable: the register, which may carry stale bits above the order, after byte x. */
  function TableStep(o: nat, poly: word, crc: word, x: word): word {
    Plus(ShiftByte(crc), Entry(o, poly, Index(o, crc, x)))
  }

  /** A byte placed on top of the register splits into what selects the table entry and the rest. */
  lemma SplitTop(o: nat, crc: word, x: word)
    requires Order(o)
    ensures Plus(Masked(o, crc), Place(o, x)) == Plus(Place(o, Index(o, crc, x)), Rest(o, crc))
  {
    hide Plus, Masked, Place, Index, Rest;
    if o == 8 { Split8(crc, x); } else if o == 16 { Split16(crc, x); } else { Split24(crc, x); }
  }

  lemma Split8(crc: word, x: word)
    ensures Plus(Masked(8, crc), Place(8, x)) == Plus(Place(8, Index(8, crc, x)), Rest(8, crc))
  {
    hide Plus;
    Parts8(crc, Index(8, crc, x));
    Parts8(crc, x);
    RawSplit8(crc, x);
  }

  lemma Parts8(crc: word, y: word)
    ensures Masked(8, crc) == crc & 0xff && Rest(8, crc) == 0
    ensures TopByte(8, crc) == crc & 0xff && Place(8, y) == y
  {
  }

  lemma RawSplit8(crc: word, x: word)
    ensures Plus(crc & 0xff, x) == Plus(Plus(crc & 0xff, x), 0)
  {
  }

  lemma Split16(crc: word, x: word)
    ensures Plus(Masked(16, crc), Place(16, x)) == Plus(Place(16, Index(16, crc, x)), Rest(16, crc))
  {
    hide Plus;
    Parts16(crc, Index(16, crc, x));
    Parts16(crc, x);
    RawSplit16(crc, x);
  }

  lemma Parts16(crc: word, y: word)
    ensures Masked(16, crc) == crc & 0xffff && Rest(16, crc) == crc & 0xff
    ensures TopByte(16, crc) == (crc >> 8) & 0xff && Place(16, y) == y << 8
  {
  }

  lemma RawSplit16(crc: word, x: word)
    ensures Plus(crc & 0xffff, x << 8) == Plus(Plus((crc >> 8) & 0xff, x) << 8, crc & 0xff)
  {
  }

  lemma Split24(crc: word, x: word)
    ensures Plus(Masked(24, crc), Place(24, x)) == Plus(Place(24, Index(24, crc, x)), Rest(24, crc))
  {
    hide Plus;
    Parts24(crc, Index(24, crc, x));
    Parts24(crc, x);
    RawSplit24(crc, x);
  }

  lemma Parts24(crc: word, y: word)
    ensures Masked(24, crc) == crc & 0xff_ffff && Rest(24, crc) == crc & 0xffff
    ensures TopByte(24, crc) == (crc >> 16) & 0xff && Place(24, y) == y << 16
  {
  }

  lemma RawSplit24(crc: word, x: word)
    ensures Plus(crc & 0xff_ffff, x << 16) == Plus(Plus((crc >> 16) & 0xff, x) << 16, crc & 0xffff)
  {
  }

  lemma MaskedPlus(o: nat, a: word, b: word)
    requires Order(o) && Fits(o, b)
    ensures Masked(o, Plus(a, b)) == Plus(Masked(o, a), b)
  {
    hide Plus, MaskBy, Fits;
    if o == 8 { MaskDistributes8(a, b); } else if o == 16 { MaskDistributes16(a, b); } else { MaskDistributes24(a, b); }
    MaskInside(o, b);
  }

  lemma MaskDistributes8(a: word, b: word)
    ensures MaskBy(Plus(a, b), 0xff) == Plus(MaskBy(a, 0xff), MaskBy(b, 0xff))
  {
  }

  lemma MaskDistributes16(a: word, b: word)
    ensures MaskBy(Plus(a, b), 0xffff) == Plus(MaskBy(a, 0xffff), MaskBy(b, 0xffff))
  {
  }

  lemma MaskDistributes24(a: word, b: word)
    ensures MaskBy(Plus(a, b), 0xff_ffff) == Plus(MaskBy(a, 0xff_ffff), MaskBy(b, 0xff_ffff))
  {
  }

  lemma MaskInside(o: nat, b: word)
    requires Order(o) && Fits(o, b)
    ensures MaskBy(b, CrcMask(o)) == b
  {
  }

  lemma PlaceFits(o: nat, x: word)
    requires Order(o) && x <= 0xff
    ensures Fits(o, Place(o, x))
  {
  }

  lemma IndexIsByte(o: nat, crc: word, x: word)
    requires x <= 0xff
    ensures Index(o, crc, x) <= 0xff
  {
    RawIndex(crc, x);
    RawIndex(crc >> 8, x);
    RawIndex(crc >> 16, x);
  }

  lemma RawIndex(w: word, x: word)
    requires x <= 0xff
    ensures (w & 0xff) ^ x <= 0xff
  {
  }

  /** One table step is eight clocks of the masked register with the byte entered at the top. */
  lemma TableStepIsSteps(o: nat, poly: word, crc: word, x: word)
    requires Order(o) && GoodPoly(o, poly) && x <= 0xff
    ensures Masked(o, TableStep(o, poly, crc, x)) == Steps(o, poly, Plus(Masked(o, crc), Place(o, x)), 8)
  {
    hide Plus, Masked, Place, Rest, ShiftByte, Steps, Fits, GoodPoly, Index;
    var p := Place(o, Index(o, crc, x));
    SplitTop(o, crc, x);
    StepsLinear(o, poly, p, Rest(o, crc), 8);
    RestSteps(o, poly, crc);
    IndexIsByte(o, crc, x);
    PlaceFits(o, Index(o, crc, x));
    StepsFit(o, poly, p, 8);
    MaskedPlus(o, ShiftByte(crc), Entry(o, poly, Index(o, crc, x)));
    PlusCommutes(Entry(o, poly, Index(o, crc, x)), Masked(o, ShiftByte(crc)));
  }

  // ---- those eight clocks feed the byte bit by bit ----------------------------------------

  function TopBitOf(x: word): bool {
    x & 0x80 != 0
  }

  function NextBits(x: word): word {
    (x << 1) & 0xff
  }

  /** The first n bits of byte x, most significant first. */
  function Msbs(x: word, n: nat): (s: seq<bool>)
    ensures |s| == n
    decreases n
  {
    if n == 0 then [] else [TopBitOf(x)] + Msbs(NextBits(x), n - 1)
  }

  function Remaining(x: word, n: nat): word
    decreases n
  {
    if n == 0 then x else Remaining(NextBits(x), n - 1)
  }

  /** The top bit of a placed byte leaves as the high bit does; the others move up. */
  lemma StepPlaced(o: nat, poly: word, x: word)
    requires Order(o) && x <= 0xff
    ensures HasBit(Place(o, x), High(o)) == TopBitOf(x)
    ensures TopBitOf(x) ==> Double(Place(o, x)) == Plus(Double(High(o)), Place(o, NextBits(x)))
    ensures !TopBitOf(x) ==> Double(Place(o, x)) == Place(o, NextBits(x))
  {
    if o == 8 { RawPlaced8(x); } else if o == 16 { RawPlaced16(x); } else { RawPlaced24(x); }
  }

  lemma RawPlaced8(x: word)
    requires x <= 0xff
    ensures x & 0x80 != 0 ==> x << 1 == ((0x80 as word) << 1) ^ ((x << 1) & 0xff)
    ensures x & 0x80 == 0 ==> x << 1 == (x << 1) & 0xff
  {
  }

  lemma RawPlaced16(x: word)
    requires x <= 0xff
    ensures (x << 8) & 0x8000 != 0 <==> x & 0x80 != 0
    ensures x & 0x80 != 0 ==> (x << 8) << 1 == ((0x8000 as word) << 1) ^ (((x << 1) & 0xff) << 8)
    ensures x & 0x80 == 0 ==> (x << 8) << 1 == ((x << 1) & 0xff) << 8
  {
  }

  lemma RawPlaced24(x: word)
    requires x <= 0xff
    ensures (x << 16) & 0x80_0000 != 0 <==> x & 0x80 != 0
    ensures x & 0x80 != 0 ==> (x << 16) << 1 == ((0x80_0000 as word) << 1) ^ (((x << 1) & 0xff) << 16)
    ensures x & 0x80 == 0 ==> (x << 16) << 1 == ((x << 1) & 0xff) << 16
  {
  }

  /** One clock of the register with byte x on top: its first bit is fed, the rest stays on top. */
  lemma StepFeeds(o: nat, poly: word, w: word, x: word)
    requires Order(o) && x <= 0xff
    ensures Step(o, poly, Plus(w, Place(o, x))) == Plus(FeedBit(o, poly, w, TopBitOf(x)), Place(o, NextBits(x)))
  {
    hide Plus, Place, Double, HasBit, High, TopBitOf, NextBits;
    var h, y := High(o), Place(o, NextBits(x));
    StepLinear(o, poly, w, Place(o, x));
    StepPlaced(o, poly, x);
    if TopBitOf(x) {
      StepLinear(o, poly, w, h);
      HighHasItself(o);
      PlusSwaps(Double(h), poly, y);
      PlusSwaps(Double(h), y, poly);
      PlusAssociates(Step(o, poly, w), Plus(Double(h), poly), y);
    }
  }

  lemma HighHasItself(o: nat)
    ensures HasBit(High(o), High(o))
  {
  }

  lemma {:induction false} StepsFeed(o: nat, poly: word, w: word, x: word, n: nat)
    requires Order(o) && x <= 0xff
    ensures Steps(o, poly, Plus(w, Place(o, x)), n) ==
            Plus(FeedBits(o, poly, w, Msbs(x, n)), Place(o, Remaining(x, n)))
    decreases n
  {
    hide Plus, Place, FeedBit, Step, TopBitOf, NextBits;
    if n > 0 {
      StepFeeds(o, poly, w, x);
      NextBitsSmall(x);
      StepsFeed(o, poly, FeedBit(o, poly, w, TopBitOf(x)), NextBits(x), n - 1);
      assert Msbs(x, n)[1..] == Msbs(NextBits(x), n - 1);
    }
  }

  lemma NextBitsSmall(x: word)
    ensures NextBits(x) <= 0xff
  {
  }

  lemma NothingRemains(x: word)
    requires x <= 0xff
    ensures Remaining(x, 8) == 0
  {
    assert Remaining(x, 4) == (x << 4) & 0xff;
  }

  lemma MsbsAreBits(b: byte)
    ensures b as word <= 0xff && Msbs(b as word, 8) == UnpackByte(b)
  {
    var x := b as word;
    var s := Msbs(x, 8);
    hide TopBitOf, NextBits, BitOf;
    forall k | 0 <= k < 8
      ensures s[k] == BitOf(b, k)
    {
      MsbAt(x, 8, k);
      MsbIsBit(b, k);
    }
  }

  lemma {:induction false} MsbAt(x: word, n: nat, k: nat)
    requires k < n
    ensures Msbs(x, n)[k] == TopBitOf(Remaining(x, k))
    decreases n
  {
    hide TopBitOf, NextBits;
    if k > 0 { MsbAt(NextBits(x), n - 1, k - 1); }
  }

  lemma MsbIsBit(b: byte, k: nat)
    requires k < 8
    ensures b as word <= 0xff && TopBitOf(Remaining(b as word, k)) == BitOf(b, k)
  {
  }

  /** crctable feeds the eight bits of its byte, most significant first. */
  lemma TableStepFeeds(o: nat, poly: word, crc: word, b: byte)
    requires Order(o) && GoodPoly(o, poly)
    ensures Masked(o, TableStep(o, poly, crc, b as word)) == FeedBits(o, poly, Masked(o, crc), UnpackByte(b))
  {
    hide Masked, TableStep, Plus, GoodPoly, UnpackByte, Place;
    MsbsAreBits(b);
    TableStepIsSteps(o, poly, crc, b as word);
    StepsFeed(o, poly, Masked(o, crc), b as word, 8);
    NothingRemains(b as word);
    PlaceZero(o);
    PlusZero(FeedBits(o, poly, Masked(o, crc), UnpackByte(b)));
  }

  lemma PlaceZero(o: nat)
    ensures Place(o, 0) == 0
  {
  }

  // ---- running the register backwards -----------------------------------------------------

  function Halve(w: word): word {
    w >> 1
  }

  /** One round of reversecrcbit. */
  function StepBack(poly: word, w: word): word {
    if HasBit(w, 1) then Halve(Plus(w, poly)) else Halve(w)
  }

  lemma StepBackUndoes(o: nat, poly: word, w: word)
    requires Order(o) && GoodPoly(o, poly) && Fits(o, w)
    ensures StepBack(poly, Step(o, poly, w)) == w
  {
    hide Plus, Halve, Double, HasBit, High, GoodPoly, Fits;
    EvenDouble(w);
    OddPoly(o, poly, Double(w));
    HalveDouble(o, w);
    PlusAssociates(Double(w), poly, poly);
    PlusZero(poly);
    PlusZero(Double(w));
  }

  lemma EvenDouble(w: word)
    ensures !HasBit(Double(w), 1)
  {
  }

  lemma HalveDouble(o: nat, w: word)
    requires Fits(o, w)
    ensures Halve(Double(w)) == w
  {
    RawHalve(w);
  }

  lemma RawHalve(w: word)
    requires w & !0xff_ffff == 0
    ensures (w << 1) >> 1 == w
  {
  }

  lemma OddPoly(o: nat, poly: word, d: word)
    requires GoodPoly(o, poly) && !HasBit(d, 1)
    ensures HasBit(Plus(d, poly), 1)
  {
    RawOdd(d, poly);
  }

  lemma RawOdd(d: word, poly: word)
    requires poly & 1 == 1 && d & 1 == 0
    ensures (d ^ poly) & 1 != 0
  {
  }

  function StepsBack(poly: word, w: word, n: nat): word
    decreases n
  {
    if n == 0 then w else StepsBack(poly, StepBack(poly, w), n - 1)
  }

  /** Running backwards over n zeros undoes them. */
  lemma {:induction false} StepsBackUndo(o: nat, poly: word, w: word, n: nat)
    requires Order(o) && GoodPoly(o, poly) && Fits(o, w)
    ensures StepsBack(poly, FeedBits(o, poly, w, Zeros(n)), n) == w
    decreases n
  {
    hide Fits, GoodPoly, Step, StepBack, High, Plus;
    if n > 0 {
      var z := Zeros(n - 1);
      assert Zeros(n) == z + [false];
      FeedBitsAppend(o, poly, w, z, [false]);
      var v := FeedBits(o, poly, w, z);
      FeedBitsFit(o, poly, w, z);
      assert [false][1..] == [];
      assert FeedBits(o, poly, v, [false]) == Step(o, poly, v);
      StepBackUndoes(o, poly, v);
      StepsBackUndo(o, poly, w, n - 1);
    }
  }
}

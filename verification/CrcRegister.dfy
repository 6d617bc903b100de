/** The CRC register as a machine word, and the byte-at-a-time step through a table
    (srslte/lib/fec/crc.c). */
module CrcRegister {
  import opened Bytes
  import opened Gf2Division

  type word = bv64

  /** The orders used in LTE. */
  predicate Order(o: nat) {
    o == 8 || o == 16 || o == 24
  }

  /** The word with only bit j set. */
  function Unit(j: nat): word
  {
    match j
    case 0 => 0x1 case 1 => 0x2 case 2 => 0x4 case 3 => 0x8
    case 4 => 0x10 case 5 => 0x20 case 6 => 0x40 case 7 => 0x80
    case 8 => 0x100 case 9 => 0x200 case 10 => 0x400 case 11 => 0x800
    case 12 => 0x1000 case 13 => 0x2000 case 14 => 0x4000 case 15 => 0x8000
    case 16 => 0x1_0000 case 17 => 0x2_0000 case 18 => 0x4_0000 case 19 => 0x8_0000
    case 20 => 0x10_0000 case 21 => 0x20_0000 case 22 => 0x40_0000 case 23 => 0x80_0000
    case _ => 0x100_0000
  }

  predicate HasBit(w: word, unit: word) {
    w & unit != 0
  }

  predicate BitAt(w: word, j: nat)
  {
    HasBit(w, Unit(j))
  }

  /** crchighbit */
  function High(o: nat): word
  {
    if o == 8 then 0x80 else if o == 16 then 0x8000 else 0x80_0000
  }

  /** crcmask */
  function CrcMask(o: nat): word
  {
    if o == 8 then 0xff else if o == 16 then 0xffff else 0xff_ffff
  }

  /** The polynomial has degree o and a constant term. */
  predicate GoodPoly(o: nat, poly: word)
  {
    poly & !CrcMask(o) == CrcMask(o) + 1 && poly & 1 == 1
  }

  /** A word that fits the register. */
  predicate Fits(o: nat, w: word)
  {
    w & !CrcMask(o) == 0
  }

  function Plus(v: word, w: word): word {
    v ^ w
  }

  function Double(w: word): word {
    w << 1
  }

  /** One clock of the register without input. */
  function Step(o: nat, poly: word, w: word): word
  {
    if HasBit(w, High(o)) then Plus(Double(w), poly) else Double(w)
  }

  function Steps(o: nat, poly: word, w: word, n: nat): word
    decreases n
  {
    if n == 0 then w else Steps(o, poly, Step(o, poly, w), n - 1)
  }

  /** One clock with input b, which enters at the top. */
  function FeedBit(o: nat, poly: word, w: word, b: bool): word
  {
    Step(o, poly, if b then Plus(w, High(o)) else w)
  }

  function FeedBits(o: nat, poly: word, w: word, bs: seq<bool>): word
    decreases |bs|
  {
    if bs == [] then w else FeedBits(o, poly, FeedBit(o, poly, w, bs[0]), bs[1..])
  }

  lemma {:induction false} FeedBitsAppend(o: nat, poly: word, w: word, bs: seq<bool>, cs: seq<bool>)
    requires Order(o)
    ensures FeedBits(o, poly, w, bs + cs) == FeedBits(o, poly, FeedBits(o, poly, w, bs), cs)
    decreases |bs|
  {
    hide FeedBit;
    if bs == [] {
      assert bs + cs == cs;
    } else {
      assert (bs + cs)[1..] == bs[1..] + cs;
      FeedBitsAppend(o, poly, FeedBit(o, poly, w, bs[0]), bs[1..], cs);
    }
  }

  lemma StepFits(o: nat, poly: word, w: word)
    requires Order(o) && GoodPoly(o, poly) && Fits(o, w)
    ensures Fits(o, Step(o, poly, w))
  {
  }

  lemma {:induction false} FeedBitsFit(o: nat, poly: word, w: word, bs: seq<bool>)
    requires Order(o) && GoodPoly(o, poly) && Fits(o, w)
    ensures Fits(o, FeedBits(o, poly, w, bs))
    decreases |bs|
  {
    if bs != [] {
      HighFits(o, w);
      StepFits(o, poly, if bs[0] then Plus(w, High(o)) else w);
      hide Fits, GoodPoly, Step, High, Plus;
      FeedBitsFit(o, poly, FeedBit(o, poly, w, bs[0]), bs[1..]);
    }
  }

  lemma HighFits(o: nat, w: word)
    requires Order(o) && Fits(o, w)
    ensures Fits(o, Plus(w, High(o)))
  {
  }

  // ---- the word register is the division register ---------------------------------------

  /** The polynomial a register word stands for. */
  function Coefficients(o: nat, w: word): (r: seq<bool>)
    ensures |r| == o
  {
    seq(o, k requires 0 <= k < o => BitAt(w, o - 1 - k))
  }

  function Poly(o: nat, poly: word): (p: seq<bool>)
    ensures |p| == o + 1
  {
    seq(o + 1, k requires 0 <= k <= o => BitAt(poly, o - k))
  }

  lemma UnitFacts(j: nat)
    requires j <= 24
    ensures Unit(j) & (Unit(j) - 1) == 0 && Unit(j) != 0 && Unit(0) == 1
    ensures j < 24 ==> Unit(j + 1) == Unit(j) << 1
    ensures j < 8 ==> Unit(j) & !0xff == 0
    ensures j < 16 ==> Unit(j) & !0xffff == 0
    ensures j < 24 ==> Unit(j) & !0xff_ffff == 0
  {
  }

  /** A word with at most one bit. */
  predicate OneBit(u: word) {
    u & (u - 1) == 0
  }

  lemma XorBit(a: word, b: word, u: word)
    requires OneBit(u)
    ensures HasBit(Plus(a, b), u) == (HasBit(a, u) != HasBit(b, u))
  {
    RawXorBit(a, b, u);
  }

  lemma RawXorBit(a: word, b: word, u: word)
    requires u & (u - 1) == 0
    ensures ((a ^ b) & u != 0) == ((a & u != 0) != (b & u != 0))
  {
  }

  lemma DoubleBit(o: nat, a: word, u: word)
    requires Order(o) && Fits(o, a)
    ensures HasBit(Double(a), Double(u)) == HasBit(a, u)
    ensures !HasBit(Double(a), 1)
  {
  }

  lemma UnitIsSingle(j: nat)
    requires j <= 24
    ensures OneBit(Unit(j))
  {
    UnitFacts(j);
  }

  lemma UnitDoubles(j: nat)
    requires 0 < j <= 24
    ensures Unit(j) == Double(Unit(j - 1))
  {
    UnitFacts(j - 1);
  }

  lemma XorBits(v: word, w: word, j: nat)
    requires j <= 24
    ensures BitAt(Plus(v, w), j) == (BitAt(v, j) != BitAt(w, j))
  {
    hide HasBit, OneBit, Unit, Plus;
    UnitIsSingle(j);
    XorBit(v, w, Unit(j));
  }

  /** Bit j of the doubled word. */
  lemma DoubleBitAt(o: nat, w: word, j: nat)
    requires Order(o) && Fits(o, w) && j < o
    ensures BitAt(Double(w), j) == (j > 0 && BitAt(w, j - 1))
  {
    if j > 0 {
      hide Unit, Fits, HasBit, Double;
      UnitDoubles(j);
      DoubleBit(o, w, Unit(j - 1));
    } else {
      DoubleBit(o, w, 1);
    }
  }

  lemma HighIsUnit(o: nat)
    requires Order(o)
    ensures High(o) == Unit(o - 1)
  {
  }

  /** Bit j of the stepped register. */
  lemma StepBit(o: nat, poly: word, w: word, j: nat)
    requires Order(o) && Fits(o, w) && j < o
    ensures BitAt(Step(o, poly, w), j) == ((j > 0 && BitAt(w, j - 1)) != (BitAt(w, o - 1) && BitAt(poly, j)))
  {
    hide Step, BitAt, High, Fits, Double;
    TopBit(o, w);
    DoubleBitAt(o, w, j);
    StepBitCases(o, poly, w, j);
  }

  lemma TopBit(o: nat, w: word)
    requires Order(o)
    ensures BitAt(w, o - 1) == HasBit(w, High(o))
  {
    hide HasBit, Double;
    HighIsUnit(o);
  }

  lemma StepBitCases(o: nat, poly: word, w: word, j: nat)
    requires j <= 24
    ensures HasBit(w, High(o)) ==> BitAt(Step(o, poly, w), j) == (BitAt(Double(w), j) != BitAt(poly, j))
    ensures !HasBit(w, High(o)) ==> BitAt(Step(o, poly, w), j) == BitAt(Double(w), j)
  {
    hide HasBit, Double, BitAt, High, Plus;
    XorBits(Double(w), poly, j);
  }

  lemma HighBits(o: nat, w: word, j: nat)
    requires Order(o) && j < o
    ensures BitAt(Plus(w, High(o)), j) == (if j == o - 1 then !BitAt(w, j) else BitAt(w, j))
  {
    hide HasBit, Unit, High, Plus;
    XorBits(w, High(o), j);
    HighUnit(o, j);
  }

  lemma HighUnit(o: nat, j: nat)
    requires Order(o) && j < o
    ensures HasBit(High(o), Unit(j)) == (j == o - 1)
  {
  }

  /** Feeding a bit to the word register feeds it to the division register. */
  lemma FeedBitIsFeed(o: nat, poly: word, w: word, b: bool)
    requires Order(o) && Fits(o, w)
    ensures Coefficients(o, FeedBit(o, poly, w, b)) == Feed(Poly(o, poly), Coefficients(o, w), b)
  {
    hide BitAt, Step, Fits, High, Feed, Poly, FeedBit;
    forall k | 0 <= k < o
      ensures Coefficients(o, FeedBit(o, poly, w, b))[k] == Feed(Poly(o, poly), Coefficients(o, w), b)[k]
    {
      FeedBitAt(o, poly, w, b, o - 1 - k);
      FeedAt(Poly(o, poly), Coefficients(o, w), b, k);
      PolyAt(o, poly, k + 1);
    }
  }

  lemma FeedBitAt(o: nat, poly: word, w: word, b: bool, j: nat)
    requires Order(o) && Fits(o, w) && j < o
    ensures BitAt(FeedBit(o, poly, w, b), j) ==
            ((j > 0 && BitAt(w, j - 1)) != ((BitAt(w, o - 1) != b) && BitAt(poly, j)))
  {
    hide BitAt, Step, Fits, High, Plus;
    HighFits(o, w);
    HighBits(o, w, o - 1);
    if j > 0 { HighBits(o, w, j - 1); }
    if b { StepBit(o, poly, Plus(w, High(o)), j); } else { StepBit(o, poly, w, j); }
  }

  lemma PolyAt(o: nat, poly: word, k: nat)
    requires Order(o) && k <= o
    ensures Poly(o, poly)[k] == BitAt(poly, o - k)
  {
    hide BitAt;
  }

  lemma FeedAt(p: seq<bool>, r: seq<bool>, b: bool, k: nat)
    requires |p| == |r| + 1 && k < |r|
    ensures Feed(p, r, b)[k] == ((k + 1 < |r| && r[k + 1]) != ((r[0] != b) && p[k + 1]))
  {
  }

  lemma {:induction false} FeedBitsIsFeedAll(o: nat, poly: word, w: word, bs: seq<bool>)
    requires Order(o) && GoodPoly(o, poly) && Fits(o, w)
    ensures Coefficients(o, FeedBits(o, poly, w, bs)) == FeedAll(Poly(o, poly), Coefficients(o, w), bs)
    decreases |bs|
  {
    hide Coefficients, FeedBit, Poly, Feed, GoodPoly, Fits;
    if bs != [] {
      FeedBitIsFeed(o, poly, w, bs[0]);
      FeedBitsFit(o, poly, w, [bs[0]]);
      assert [bs[0]][1..] == [];
      assert FeedBits(o, poly, w, [bs[0]]) == FeedBit(o, poly, w, bs[0]);
      FeedBitsIsFeedAll(o, poly, FeedBit(o, poly, w, bs[0]), bs[1..]);
    }
  }

  lemma PolyIsGenerator(o: nat, poly: word)
    requires Order(o) && GoodPoly(o, poly)
    ensures Generator(Poly(o, poly), o)
  {
    hide BitAt;
    PolyAt(o, poly, 0);
    PolyAt(o, poly, o);
    EndBits(o, poly);
  }

  lemma EndBits(o: nat, poly: word)
    requires Order(o) && GoodPoly(o, poly)
    ensures BitAt(poly, o) && BitAt(poly, 0)
  {
    if o == 8 {
      assert Unit(8) == CrcMask(8) + 1;
    } else if o == 16 {
      assert Unit(16) == CrcMask(16) + 1;
    } else {
      assert Unit(24) == CrcMask(24) + 1;
    }
  }

  lemma ZeroCoefficients(o: nat)
    requires Order(o)
    ensures Coefficients(o, 0) == Gf2Division.Zeros(o) && Fits(o, 0)
  {
    hide BitAt;
    forall k | 0 <= k < o
      ensures !Coefficients(o, 0)[k]
    {
      ZeroBit(o - 1 - k);
    }
  }

  lemma ZeroBit(j: nat)
    requires j <= 24
    ensures !BitAt(0, j)
  {
    hide Unit;
  }

  /** Words that fit are determined by their coefficients. */
  lemma CoefficientsDetermine(o: nat, v: word, w: word)
    requires Order(o) && Fits(o, v) && Fits(o, w) && Coefficients(o, v) == Coefficients(o, w)
    ensures v == w
  {
    hide BitAt, Fits, Plus;
    var x := Coefficients(o, Plus(v, w));
    forall k | 0 <= k < o
      ensures !x[k]
    {
      assert Coefficients(o, v)[k] == Coefficients(o, w)[k];
      XorBits(v, w, o - 1 - k);
    }
    XorFits(o, v, w);
    NoBits(o, Plus(v, w));
    XorIsZero(v, w);
  }

  lemma XorFits(o: nat, v: word, w: word)
    requires Order(o) && Fits(o, v) && Fits(o, w)
    ensures Fits(o, Plus(v, w))
  {
  }

  lemma XorIsZero(v: word, w: word)
    requires Plus(v, w) == 0
    ensures v == w
  {
  }

  lemma NoBits(o: nat, x: word)
    requires Order(o) && Fits(o, x) && forall k :: 0 <= k < o ==> !Coefficients(o, x)[k]
    ensures x == 0
  {
    hide BitAt;
    EightBits(o, x, 0);
    if o >= 16 { EightBits(o, x, 8); }
    if o >= 24 { EightBits(o, x, 16); }
    ClearBytes(o, x);
  }

  /** Bits j .. j + 7 are clear. */
  predicate ClearByte(x: word, j: nat) {
    !BitAt(x, j) && !BitAt(x, j + 1) && !BitAt(x, j + 2) && !BitAt(x, j + 3) &&
    !BitAt(x, j + 4) && !BitAt(x, j + 5) && !BitAt(x, j + 6) && !BitAt(x, j + 7)
  }

  lemma EightBits(o: nat, x: word, j: nat)
    requires Order(o) && j + 8 <= o && forall k :: 0 <= k < o ==> !Coefficients(o, x)[k]
    ensures ClearByte(x, j)
  {
    hide BitAt;
    forall m | j <= m < j + 8
      ensures !BitAt(x, m)
    {
      assert !Coefficients(o, x)[o - 1 - m];
    }
  }

  lemma ClearBytes(o: nat, x: word)
    requires Order(o) && Fits(o, x) && ClearByte(x, 0)
    requires (o >= 16 ==> ClearByte(x, 8)) && (o >= 24 ==> ClearByte(x, 16))
    ensures x == 0
  {
    hide ClearByte;
    LowClear(x);
    if o >= 16 { MiddleClear(x); }
    if o >= 24 { TopClear(x); }
  }

  lemma LowClear(x: word)
    requires ClearByte(x, 0)
    ensures x & 0xff == 0
  {
  }

  lemma MiddleClear(x: word)
    requires ClearByte(x, 8)
    ensures x & 0xff00 == 0
  {
  }

  lemma TopClear(x: word)
    requires ClearByte(x, 16)
    ensures x & 0xff_0000 == 0
  {
  }
}

/** How a transport block is cut into code blocks and spread over the transmitted bits
    (srslte/lib/phch/sch.c, sections 5.1.2 and 5.1.5 of TS 36.212). */
module TransportBlock {
  import opened NumberTheory
  import opened CodeBlockSizes
  import opened CrcRegister
  import opened Crc
  import opened Segmentation

  const CRC24A: word := 0x1864CFB
  const CRC24B: word := 0x1800063

  /** The terms of the two polynomials of section 5.1.1 of TS 36.212. */
  lemma CrcPolynomials(k: nat)
    requires k <= 24
    ensures Poly(24, CRC24A)[24 - k] <==> k in {24, 23, 18, 17, 14, 11, 10, 7, 6, 5, 4, 3, 1, 0}
    ensures Poly(24, CRC24B)[24 - k] <==> k in {24, 23, 6, 5, 1, 0}
  {
    assert Poly(24, CRC24A)[24 - k] == BitAt(CRC24A, k);
    assert Poly(24, CRC24B)[24 - k] == BitAt(CRC24B, k);
  }

  /** A segmentation without fillers: c2 blocks of size number k2Idx, then c1 of size k1Idx. */
  datatype Plan = Plan(tbs: nat, c: nat, c1: nat, c2: nat, k1Idx: nat, k2Idx: nat) {

    function Overhead(): nat {
      if c > 1 then 24 else 0
    }

    ghost predicate Shaped() {
      && c >= 1 && c1 >= 1 && c1 + c2 == c && (c == 1 ==> c2 == 0) && (c > 1 ==> k1Idx > 0)
      && k1Idx < NOF_TC_CB_SIZES && k2Idx < NOF_TC_CB_SIZES
    }

    ghost predicate Valid() {
      Shaped() && Capacity(c1, k1Idx) + Capacity(c2, k2Idx) == tbs + 24 + Overhead() * c
    }

    function Idx(i: nat): nat {
      if i < c2 then k2Idx else k1Idx
    }

    ghost function Size(i: nat): (k: nat)
      requires Shaped()
      ensures 40 <= k <= MAX_LEN_CB && k % 8 == 0
    {
      BlockSize(Idx(i))
    }

    /** Bits of the transport block that block i carries. */
    ghost function Payload(i: nat): (r: nat)
      requires Shaped()
      ensures r + Overhead() == Size(i) && r % 8 == 0
      ensures i == c - 1 ==> r >= 24
    {
      SizeFacts(i);
      Size(i) - Overhead()
    }

    lemma SizeFacts(i: nat)
      requires Shaped()
      ensures (Size(i) - Overhead()) % 8 == 0 && Size(i) >= Overhead()
      ensures i == c - 1 ==> Size(i) >= 24 + Overhead()
    {
    }

    ghost function Offset(i: nat): (o: nat)
      requires Shaped()
      ensures o % 8 == 0
    {
      if i == 0 then 0 else AddEights(Offset(i - 1), Payload(i - 1)); Offset(i - 1) + Payload(i - 1)
    }

    lemma AddEights(a: nat, b: nat)
      requires a % 8 == 0 && b % 8 == 0
      ensures (a + b) % 8 == 0
    {
    }

    lemma {:induction false} OffsetInClosedForm(i: nat, p1: nat, p2: nat)
      requires Shaped() && i <= c && p1 == BlockSize(k1Idx) - Overhead() && p2 == BlockSize(k2Idx) - Overhead()
      ensures Offset(i) == if i <= c2 then i * p2 else c2 * p2 + (i - c2) * p1
    {
      hide BlockSize;
      if i > 0 {
        OffsetInClosedForm(i - 1, p1, p2);
        assert Payload(i - 1) == if i - 1 < c2 then p2 else p1;
        if i <= c2 { LastTerm(i, p2); } else { LastTerm(i - c2, p1); }
      }
    }

    lemma LastTerm(n: nat, p: nat)
      requires n > 0
      ensures (n - 1) * p + p == n * p
    {
    }

    /** The payloads add up to the transport block with its CRC. */
    lemma PayloadsTile()
      requires Valid()
      ensures Offset(c) == tbs + 24
    {
      SizeFacts(0);
      SizeFacts(c - 1);
      hide BlockSize, Offset;
      var k1, k2, h := BlockSize(k1Idx), BlockSize(k2Idx), Overhead();
      assert k1 >= h && k2 >= h;
      OffsetInClosedForm(c, k1 - h, k2 - h);
      Distribute(c1, c2, k1, k2, h);
    }

    lemma Distribute(a: nat, b: nat, x: nat, y: nat, h: nat)
      requires x >= h && y >= h
      ensures b * (y - h) + a * (x - h) == a * x + b * y - h * (a + b)
    {
    }

    lemma {:induction false} OffsetGrows(i: nat, j: nat)
      requires Shaped() && i <= j
      ensures Offset(i) <= Offset(j)
      decreases j
    {
      if i < j { OffsetGrows(i, j - 1); }
    }

    lemma BlockInside(i: nat)
      requires Valid() && i < c
      ensures Offset(i) + Payload(i) == Offset(i + 1) <= tbs + 24
      ensures i == c - 1 ==> Offset(i + 1) == tbs + 24 && Payload(i) >= 24
    {
      OffsetGrows(i + 1, c);
      PayloadsTile();
    }

    // ---- code blocks ----------------------------------------------------------------------

    ghost function Piece(tb: seq<bool>, i: nat): (s: seq<bool>)
      requires Valid() && |tb| == tbs + 24 && i < c
      ensures |s| == Payload(i)
    {
      BlockInside(i);
      tb[Offset(i)..Offset(i + 1)]
    }

    /** Code block i: its piece of the transport block, with a CRC of its own if there are several. */
    ghost function Block(tb: seq<bool>, i: nat): (s: seq<bool>)
      requires Valid() && |tb| == tbs + 24 && i < c
      ensures |s| == Size(i)
    {
      if c > 1 then Piece(tb, i) + CheckBits(24, CRC24B, Piece(tb, i)) else Piece(tb, i)
    }

    ghost function Joined(tb: seq<bool>, n: nat): (s: seq<bool>)
      requires Valid() && |tb| == tbs + 24 && n <= c
    {
      if n == 0 then [] else Joined(tb, n - 1) + Piece(tb, n - 1)
    }

    /** Cutting and joining again loses nothing. */
    lemma {:induction false} PiecesJoin(tb: seq<bool>, n: nat)
      requires Valid() && |tb| == tbs + 24 && n <= c
      ensures Offset(n) <= |tb| && Joined(tb, n) == tb[..Offset(n)]
      ensures n == c ==> Joined(tb, n) == tb
    {
      PayloadsTile();
      OffsetGrows(n, c);
      if n > 0 {
        PiecesJoin(tb, n - 1);
        assert tb[..Offset(n - 1)] + tb[Offset(n - 1)..Offset(n)] == tb[..Offset(n)];
      }
    }

    // ---- transmitted bits -----------------------------------------------------------------

    /** Bits sent for block i out of g, at qm bits per symbol. */
    function Sent(qm: nat, g: nat, i: nat): nat
      requires qm > 0 && c > 0
    {
      var gp := g / qm;
      if i <= c - gp % c - 1 then Times(qm, gp / c) else Times(qm, CeilDiv(gp, c))
    }

    function SentBefore(qm: nat, g: nat, i: nat): nat
      requires qm > 0 && c > 0
    {
      if i == 0 then 0 else SentBefore(qm, g, i - 1) + Sent(qm, g, i - 1)
    }

    /** The blocks after the first c - gp % c get one more symbol each. */
    lemma SentIs(qm: nat, g: nat, i: nat)
      requires qm > 0 && c > 0
      ensures var gp := g / qm;
              i < c ==> Sent(qm, g, i) == qm * (gp / c) + if i < c - gp % c then 0 else qm
    {
      var gp := g / qm;
      CeilOfRest(gp, c);
      hide CeilDiv;
      var q := gp / c;
      assert qm * (q + 1) == qm * q + qm;
    }

    lemma {:induction false} SentInClosedForm(qm: nat, g: nat, i: nat, q: nat, first: nat)
      requires qm > 0 && c > 0 && i <= c && q == g / qm / c && first == c - g / qm % c
      ensures SentBefore(qm, g, i) == i * (qm * q) + if i <= first then 0 else (i - first) * qm
    {
      hide Sent;
      if i > 0 {
        SentInClosedForm(qm, g, i - 1, q, first);
        SentIs(qm, g, i - 1);
        LastTerm(i, qm * q);
        if i > first { LastTerm(i - first, qm); }
      }
    }

    /** Together the blocks use every whole symbol: E adds up to qm * floor(g / qm). */
    lemma SentAddsUp(qm: nat, g: nat)
      requires qm > 0 && c > 0
      ensures SentBefore(qm, g, c) == Times(qm, g / qm) <= g
    {
      hide SentBefore;
      WholeSymbols(g, qm);
      DivisionParts(g / qm, c);
      SentSum(qm, g, g / qm, g / qm / c, g / qm % c);
    }

    lemma SentSum(qm: nat, g: nat, gp: nat, q: nat, r: nat)
      requires qm > 0 && c > 0 && gp == g / qm && q == gp / c && r == gp % c && gp == c * q + r
      ensures SentBefore(qm, g, c) == Times(qm, gp)
    {
      SentInClosedForm(qm, g, c, q, c - r);
      hide SentBefore;
      Spread(qm, c, q, r);
    }

    lemma WholeSymbols(g: nat, qm: nat)
      requires qm > 0
      ensures Times(qm, g / qm) <= g
    {
      assert g == qm * (g / qm) + g % qm;
    }

    lemma DivisionParts(a: nat, b: nat)
      requires b > 0
      ensures a == b * (a / b) + a % b
    {
    }

    lemma Spread(qm: nat, n: nat, q: nat, r: nat)
      ensures n * (qm * q) + r * qm == qm * (n * q + r)
    {
      assert n * (qm * q) == qm * (n * q);
    }

    lemma {:induction false} SentGrows(qm: nat, g: nat, i: nat, j: nat)
      requires qm > 0 && c > 0 && i <= j
      ensures SentBefore(qm, g, i) <= SentBefore(qm, g, j)
      decreases j
    {
      if i < j { SentGrows(qm, g, i, j - 1); }
    }
  }

  function Times(a: nat, b: nat): nat {
    a * b
  }

  /** Bits that n blocks of size number idx hold. */
  ghost function Capacity(n: nat, idx: nat): nat
    requires idx < NOF_TC_CB_SIZES
  {
    n * BlockSize(idx)
  }

  lemma CeilOfRest(a: nat, b: nat)
    requires b > 0
    ensures CeilDiv(a, b) == a / b + if a % b == 0 then 0 else 1
  {
    var q, r := a / b, a % b;
    if r == 0 {
      ModUnique(a + b - 1, b, q, b - 1);
    } else {
      assert a + b - 1 == b * (q + 1) + (r - 1);
      ModUnique(a + b - 1, b, q + 1, r - 1);
    }
  }

  /** The plan a segmentation amounts to. */
  function PlanOf(seg: CbSegm): Plan
    reads seg
  {
    Plan(seg.tbs, seg.C, seg.C1, seg.C2, seg.K1Idx, seg.K2Idx)
  }

  /** Segmentation without fillers always gives a valid plan, one that tiles the block. */
  lemma SegmentationPlans(seg: CbSegm)
    requires seg.Tiles() && seg.F == 0
    ensures PlanOf(seg).Valid()
  {
    hide BlockSize, CeilDiv;
    assert seg.C2 * BlockSize(seg.K2Idx) == seg.C2 * seg.K2;
  }
}

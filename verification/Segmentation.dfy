/** Code block segmentation (srslte_cbsegm in srslte/lib/fec/cbsegm.c, section 5.1.2 of TS 36.212). */
module Segmentation {
  import opened NumberTheory
  import opened CodeBlockSizes

  const CRC_LEN := 24
  const MAX_PAYLOAD := MAX_LEN_CB - CRC_LEN

  /** Number of code blocks for a transport block of tbs bits and its CRC. */
  function Blocks(tbs: nat): (c: nat)
    ensures c >= 1 && (c == 1 <==> tbs + CRC_LEN <= MAX_LEN_CB)
  {
    if tbs + CRC_LEN <= MAX_LEN_CB then 1 else CeilDiv(tbs + CRC_LEN, MAX_PAYLOAD)
  }

  /** A block that does not fit is cut into as few as suffice, each with 6144 - 24 bits of it. */
  lemma BlocksAreFewest(tbs: nat, c: nat)
    requires tbs + 24 > 6144
    ensures tbs + 24 <= c * 6120 <==> c >= Blocks(tbs)
    ensures (Blocks(tbs) - 1) * 6120 < tbs + 24 <= Blocks(tbs) * 6120
  {
  }

  /** Bits to be coded, with a CRC for every block when there are several. */
  function Expanded(tbs: nat): nat {
    tbs + CRC_LEN + if Blocks(tbs) > 1 then CRC_LEN * Blocks(tbs) else 0
  }

  /** No block needs to be longer than the longest, and with several none is short. */
  lemma BlockFits(tbs: nat)
    requires tbs > 0
    ensures (Expanded(tbs) - 1) / Blocks(tbs) + 1 == CeilDiv(Expanded(tbs), Blocks(tbs)) <= MAX_LEN_CB
    ensures Blocks(tbs) > 1 ==> CeilDiv(Expanded(tbs), Blocks(tbs)) > 40
  {
    var c, b := Blocks(tbs), Expanded(tbs);
    var q, r := (b - 1) / c, (b - 1) % c;
    assert b + c - 1 == c * (q + 1) + r;
    ModUnique(b + c - 1, c, q + 1, r);
    hide CeilDiv;
    if c > 1 {
      assert c * MAX_PAYLOAD >= tbs + CRC_LEN;
      assert c * (MAX_PAYLOAD + CRC_LEN) == c * MAX_PAYLOAD + c * CRC_LEN;
      assert b <= c * MAX_LEN_CB;
      if q + 1 > MAX_LEN_CB { MulOrder(c, MAX_LEN_CB, q); }
      assert MAX_PAYLOAD * (c - 1) < tbs + CRC_LEN;
      assert b > 40 * c;
      if q + 1 <= 40 { MulOrder(c, q + 1, 40); }
    }
  }

  /** Shrinking as many blocks as possible to the next smaller size leaves one of the larger, and
      less padding than the sizes differ by. */
  lemma SplitSizes(c: nat, k1: nat, k2: nat, b: nat)
    requires c > 1 && k2 < k1 && c * k2 < b <= c * k1
    ensures var c2 := (c * k1 - b) / (k1 - k2);
            && c2 < c && 0 <= (c - c2) * k1 + c2 * k2 - b < k1 - k2
  {
    var d, x := k1 - k2, c * k1 - b;
    var c2 := x / d;
    assert x == d * c2 + x % d;
    assert c * k1 == c * k2 + c * d;
    assert x < d * c;
    if c2 >= c { MulOrder(d, c, c2); }
    assert (c - c2) * k1 + c2 * k2 == c * k1 - c2 * d;
  }

  /** srslte_cbsegm_t */
  class CbSegm {
    var tbs: nat
    var C: nat
    var C1: nat
    var C2: nat
    var K1: nat
    var K2: nat
    var K1Idx: nat
    var K2Idx: nat
    var F: nat

    /** What a segmentation promises: C is the least number of blocks that suffices, C1 blocks of size
        K1 and C2 of the next smaller size K2 hold exactly the expanded block and F fillers, K1 is the
        smallest size that suffices, and as many blocks as possible are of the smaller one. */
    ghost predicate Tiles()
      reads this
    {
      && tbs > 0 && C == Blocks(tbs) && C1 >= 1 && C1 + C2 == C
      && K1Idx < NOF_TC_CB_SIZES && K1 == BlockSize(K1Idx)
      && C1 * K1 + C2 * K2 == Expanded(tbs) + F
      && (K1Idx > 0 ==> C * BlockSize(K1Idx - 1) < Expanded(tbs) <= C * K1)
      && (C == 1 <==> tbs + 24 <= 6144) && (C > 1 ==> (C - 1) * 6120 < tbs + 24 <= C * 6120)
      && (C == 1 ==> C2 == 0 && K2 == 0 && K2Idx == 0)
      && (C > 1 ==> K1Idx > 0 && K2Idx == K1Idx - 1 && K2 == BlockSize(K2Idx) && F < K1 - K2)
    }

    ghost predicate Empty()
      reads this
    {
      tbs == C == C1 == C2 == K1 == K2 == K1Idx == K2Idx == F == 0
    }

    /** srslte_cbsegm. It never fails. */
    method Segment(tbs: nat) returns (ret: int)
      modifies this
      ensures ret == 0
      ensures tbs == 0 ==> Empty()
      ensures tbs > 0 ==> Tiles() && this.tbs == tbs
    {
      hide CeilDiv, BlockSize;
      if tbs == 0 {
        this.tbs, C, C1, C2, K1, K2, K1Idx, K2Idx, F := 0, 0, 0, 0, 0, 0, 0, 0, 0;
        return 0;
      }
      var B, Bp := tbs + CRC_LEN, tbs + CRC_LEN;
      this.tbs, C := tbs, 1;
      if B > MAX_LEN_CB {
        C := CeilDiv(B, MAX_PAYLOAD);
        Bp := B + 24 * C;
      }
      BlockFits(tbs);
      if B > MAX_LEN_CB { BlocksAreFewest(tbs, 1); }
      ret := CbIndex((Bp - 1) / C + 1);
      SizeFound(C, Bp, CeilDiv(Bp, C));
      hide Blocks, Expanded;
      ChooseSizes(ret, Bp);
      ret := 0;
    }

    /** The two sizes, how many blocks have each, and the fillers, from the table index found. */
    method ChooseSizes(idx1: nat, Bp: nat)
      requires C >= 1 && idx1 < NOF_TC_CB_SIZES && Bp <= C * BlockSize(idx1)
      requires idx1 > 0 ==> C * BlockSize(idx1 - 1) < Bp && BlockSize(idx1 - 1) < BlockSize(idx1)
      requires C > 1 ==> idx1 > 0
      modifies this`K1, this`K1Idx, this`K2, this`K2Idx, this`C1, this`C2, this`F
      ensures C1 >= 1 && C1 + C2 == C && K1Idx == idx1 && K1 == BlockSize(idx1)
      ensures C1 * K1 + C2 * K2 == Bp + F
      ensures C == 1 ==> C2 == 0 && K2 == 0 && K2Idx == 0
      ensures C > 1 ==> K2Idx == K1Idx - 1 && K2 == BlockSize(K2Idx) && F < K1 - K2
    {
      hide BlockSize;
      K1 := CbSize(idx1);
      K1Idx := idx1;
      if C == 1 {
        K2, K2Idx, C2, C1 := 0, 0, 0, 1;
        F := C1 * K1 + C2 * K2 - Bp;
      } else {
        K2 := CbSize(idx1 - 1);
        K2Idx := idx1 - 1;
        C1, C2, F := Split(C, K1, K2, Bp);
      }
    }
  }

  method Split(c: nat, k1: nat, k2: nat, b: nat) returns (c1: nat, c2: nat, f: nat)
    requires c > 1 && k2 < k1 && c * k2 < b <= c * k1
    ensures c1 >= 1 && c1 + c2 == c && c1 * k1 + c2 * k2 == b + f && f < k1 - k2
  {
    SplitSizes(c, k1, k2, b);
    c2 := (c * k1 - b) / (k1 - k2);
    c1 := c - c2;
    f := c1 * k1 + c2 * k2 - b;
  }

  /** The size found for blocks of at least q bits, and the size before it. */
  lemma SizeFound(c: nat, b: nat, q: nat)
    requires c >= 1 && 0 < q <= MAX_LEN_CB && c * (q - 1) < b <= c * q
    ensures var i := IndexFor(q);
            && 0 <= i < NOF_TC_CB_SIZES && b <= c * BlockSize(i)
            && (i > 0 ==> c * BlockSize(i - 1) < b && BlockSize(i - 1) < BlockSize(i))
            && (q > 40 ==> i > 0)
  {
    var i := IndexFor(q);
    assert BlockSize(0) == 40;
    if i > 0 {
      BlockSizeIncreasing(i - 1, i);
      assert BlockSize(i - 1) < q;
      var s := BlockSize(i - 1);
      hide BlockSize;
      MulOrder(c, s, q - 1);
    }
    MulOrder(c, q, BlockSize(i));
  }
}

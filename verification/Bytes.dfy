/** Bytes as vectors of eight bits, most significant first (srslte/lib/utils/bit.c). */
module Bytes {

  type byte = bv8

  function Mask(k: nat): byte
    requires k < 8
  {
    match k
    case 0 => 0x80 case 1 => 0x40 case 2 => 0x20 case 3 => 0x10
    case 4 => 0x08 case 5 => 0x04 case 6 => 0x02 case _ => 0x01
  }

  predicate Has(b: byte, mask: byte) {
    b & mask != 0
  }

  predicate BitOf(b: byte, k: nat)
    requires k < 8
  {
    Has(b, Mask(k))
  }

  function Single(b: bool, mask: byte): (m: byte)
    ensures m & mask == m && (mask != 0 ==> (m != 0 <==> b))
  {
    if b then mask else 0
  }

  /** The byte whose bits are s, as eight masked values OR-ed together. */
  function PackByte(s: seq<bool>): (b: byte)
    requires |s| == 8
  {
    Single(s[0], 0x80) | Single(s[1], 0x40) | Single(s[2], 0x20) | Single(s[3], 0x10) |
    Single(s[4], 0x08) | Single(s[5], 0x04) | Single(s[6], 0x02) | Single(s[7], 0x01)
  }

  function UnpackByte(b: byte): (s: seq<bool>)
    ensures |s| == 8
  {
    [BitOf(b, 0), BitOf(b, 1), BitOf(b, 2), BitOf(b, 3), BitOf(b, 4), BitOf(b, 5), BitOf(b, 6), BitOf(b, 7)]
  }

  /** OR-ing eight values with one bit each keeps them apart. */
  lemma OrOfSingleBits(m0: byte, m1: byte, m2: byte, m3: byte, m4: byte, m5: byte, m6: byte, m7: byte)
    requires m0 & 0x80 == m0 && m1 & 0x40 == m1 && m2 & 0x20 == m2 && m3 & 0x10 == m3
    requires m4 & 0x08 == m4 && m5 & 0x04 == m5 && m6 & 0x02 == m6 && m7 & 0x01 == m7
    ensures var b := m0 | m1 | m2 | m3 | m4 | m5 | m6 | m7;
            && b & 0x80 == m0 && b & 0x40 == m1 && b & 0x20 == m2 && b & 0x10 == m3
            && b & 0x08 == m4 && b & 0x04 == m5 && b & 0x02 == m6 && b & 0x01 == m7
  {
  }

  lemma PackedMasks(s: seq<bool>)
    requires |s| == 8
    ensures var b := PackByte(s);
            && b & 0x80 == Single(s[0], 0x80) && b & 0x40 == Single(s[1], 0x40)
            && b & 0x20 == Single(s[2], 0x20) && b & 0x10 == Single(s[3], 0x10)
            && b & 0x08 == Single(s[4], 0x08) && b & 0x04 == Single(s[5], 0x04)
            && b & 0x02 == Single(s[6], 0x02) && b & 0x01 == Single(s[7], 0x01)
  {
    hide Single;
    OrOfSingleBits(Single(s[0], 0x80), Single(s[1], 0x40), Single(s[2], 0x20), Single(s[3], 0x10),
                   Single(s[4], 0x08), Single(s[5], 0x04), Single(s[6], 0x02), Single(s[7], 0x01));
  }

  lemma UnpackOfPack(s: seq<bool>)
    requires |s| == 8
    ensures UnpackByte(PackByte(s)) == s
  {
    hide PackByte, Single;
    PackedMasks(s);
  }

  lemma PackOfUnpack(b: byte)
    ensures PackByte(UnpackByte(b)) == b
  {
  }

  lemma UnpackAt(b: byte, k: nat)
    requires k < 8
    ensures UnpackByte(b)[k] == BitOf(b, k)
  {
  }

  /** All bits of a byte string. */
  function Bits(a: seq<byte>): (s: seq<bool>)
    ensures |s| == 8 * |a|
  {
    seq(8 * |a|, p requires 0 <= p < 8 * |a| => BitOf(a[p / 8], p % 8))
  }

  lemma BitsAt(a: seq<byte>, p: nat)
    requires p < 8 * |a|
    ensures Bits(a)[p] == BitOf(a[p / 8], p % 8)
  {
    hide BitOf;
  }

  lemma BitsAppend(a: seq<byte>, b: byte)
    ensures Bits(a + [b]) == Bits(a) + UnpackByte(b)
  {
    hide BitOf;
    forall p | 0 <= p < 8 * |a| + 8
      ensures Bits(a + [b])[p] == (Bits(a) + UnpackByte(b))[p]
    {
      if p >= 8 * |a| { UnpackAt(b, p - 8 * |a|); }
    }
  }

  lemma BitsConcat(a: seq<byte>, b: seq<byte>)
    ensures Bits(a + b) == Bits(a) + Bits(b)
  {
    hide BitOf;
    forall p | 0 <= p < 8 * |a + b|
      ensures Bits(a + b)[p] == (Bits(a) + Bits(b))[p]
    {
      if p >= 8 * |a| { assert (p - 8 * |a|) / 8 == p / 8 - |a| && (p - 8 * |a|) % 8 == p % 8; }
    }
  }

  /** Different byte strings have different bits. */
  lemma BitsDetermine(a: seq<byte>, b: seq<byte>)
    requires |a| == |b| && Bits(a) == Bits(b)
    ensures a == b
  {
    hide BitOf, PackByte;
    forall i | 0 <= i < |a|
      ensures a[i] == b[i]
    {
      forall k | 0 <= k < 8
        ensures UnpackByte(a[i])[k] == UnpackByte(b[i])[k]
      {
        assert (8 * i + k) / 8 == i && (8 * i + k) % 8 == k;
        assert Bits(a)[8 * i + k] == Bits(b)[8 * i + k];
        UnpackAt(a[i], k);
        UnpackAt(b[i], k);
      }
      assert UnpackByte(a[i]) == UnpackByte(b[i]);
      PackOfUnpack(a[i]);
      PackOfUnpack(b[i]);
    }
  }

  lemma EightBits(s: seq<bool>, h: seq<bool>, n: nat)
    requires |s| == 8 && n + 8 <= |h|
    requires s[0] == h[n] && s[1] == h[n + 1] && s[2] == h[n + 2] && s[3] == h[n + 3]
    requires s[4] == h[n + 4] && s[5] == h[n + 5] && s[6] == h[n + 6] && s[7] == h[n + 7]
    ensures s == h[n..n + 8]
  {
    assert h[n..n + 8] == [h[n], h[n + 1], h[n + 2], h[n + 3], h[n + 4], h[n + 5], h[n + 6], h[n + 7]];
  }

  function SetMask(b: byte, mask: byte, v: bool): byte {
    if v then b | mask else b & !mask
  }

  /** b with bit k set to v. */
  function SetBit(b: byte, k: nat, v: bool): byte
    requires k < 8
  {
    SetMask(b, Mask(k), v)
  }

  lemma SetBitSpec(b: byte, k: nat, v: bool, j: nat)
    requires k < 8 && j < 8
    ensures BitOf(SetBit(b, k, v), j) == if j == k then v else BitOf(b, j)
  {
    hide Mask, Has, SetMask, Apart;
    MasksApart(k, j);
    SetMaskSpec(b, Mask(k), Mask(j), v);
  }

  predicate Apart(m: byte, n: byte) {
    m & n == 0
  }

  lemma MasksApart(k: nat, j: nat)
    requires k < 8 && j < 8
    ensures Has(Mask(k), Mask(k)) && (j != k ==> Apart(Mask(k), Mask(j)))
  {
  }

  lemma SetMaskSpec(b: byte, m: byte, n: byte, v: bool)
    requires Has(m, m)
    ensures Has(SetMask(b, m, v), m) == v
    ensures Apart(m, n) ==> Has(SetMask(b, m, v), n) == Has(b, n)
  {
  }

  /** Set bit p of a byte string. */
  method PutBit(a: array<byte>, p: nat, v: bool)
    requires p < 8 * a.Length
    modifies a
    ensures Bits(a[..]) == old(Bits(a[..]))[p := v]
  {
    ghost var before := a[..];
    a[p / 8] := SetBit(a[p / 8], p % 8, v);
    forall q | 0 <= q < 8 * a.Length
      ensures Bits(a[..])[q] == Bits(before)[p := v][q]
    {
      if q / 8 == p / 8 { SetBitSpec(before[p / 8], p % 8, v, q % 8); }
    }
  }
}

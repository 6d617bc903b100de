/** Moving bits within byte arrays (srslte_bit_interleave and srslte_bit_copy in
    srslte/lib/utils/bit.c), bit by bit. */
module PackedBits {
  import opened Bytes

  /** srslte_bit_interleave_w_offset: bit b of the result is bit interleaver[b] of the input; the
      result starts at bit outBit of output. */
  method BitInterleave(input: array<byte>, output: array<byte>, outBit: nat, interleaver: seq<nat>, nofBits: nat)
    requires input != output && nofBits <= |interleaver| && outBit + nofBits <= 8 * output.Length
    requires forall b :: 0 <= b < nofBits ==> interleaver[b] < 8 * input.Length
    modifies output
    ensures forall b :: 0 <= b < nofBits ==> Bits(output[..])[outBit + b] == Bits(input[..])[interleaver[b]]
    ensures forall q :: 0 <= q < 8 * output.Length && !(outBit <= q < outBit + nofBits) ==>
              Bits(output[..])[q] == old(Bits(output[..]))[q]
  {
    hide Bits, BitOf;
    ghost var src, dst := Bits(input[..]), Bits(output[..]);
    for b := 0 to nofBits
      invariant forall q :: outBit <= q < outBit + b ==> Bits(output[..])[q] == src[interleaver[q - outBit]]
      invariant forall q :: 0 <= q < 8 * output.Length && !(outBit <= q < outBit + b) ==> Bits(output[..])[q] == dst[q]
    {
      var p := interleaver[b];
      var v := BitOf(input[p / 8], p % 8);
      BitsAt(input[..], p);
      PutBit(output, outBit + b, v);
    }
  }

  /** srslte_bit_copy */
  method BitCopy(dst: array<byte>, dstOffset: nat, src: array<byte>, srcOffset: nat, nofBits: nat)
    requires dst != src && dstOffset + nofBits <= 8 * dst.Length && srcOffset + nofBits <= 8 * src.Length
    modifies dst
    ensures forall q :: dstOffset <= q < dstOffset + nofBits ==>
              Bits(dst[..])[q] == Bits(src[..])[q - dstOffset + srcOffset]
    ensures forall q :: 0 <= q < 8 * dst.Length && !(dstOffset <= q < dstOffset + nofBits) ==>
              Bits(dst[..])[q] == old(Bits(dst[..]))[q]
  {
    hide Bits, BitOf;
    ghost var from, before := Bits(src[..]), Bits(dst[..]);
    for b := 0 to nofBits
      invariant forall q :: dstOffset <= q < dstOffset + b ==> Bits(dst[..])[q] == from[q - dstOffset + srcOffset]
      invariant forall q :: 0 <= q < 8 * dst.Length && !(dstOffset <= q < dstOffset + b) ==>
                  Bits(dst[..])[q] == before[q]
    {
      var p := srcOffset + b;
      var v := BitOf(src[p / 8], p % 8);
      BitsAt(src[..], p);
      PutBit(dst, dstOffset + b, v);
    }
  }
}

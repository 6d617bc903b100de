/** Encoding a transport block (encode_tb_off in srslte/lib/phch/sch.c, section 5.3.2 of
    TS 36.212). */
module SharedChannelEncoder {
  import opened Bytes
  import opened CodeBlockSizes
  import opened CircularBuffer
  import opened TurboEncoder
  import opened TurboEncoderLut
  import opened RateMatchTurboLut
  import opened TransportBlock
  import opened Segmentation
  import Crc
  import CrcRegister
  import CrcTable
  import NumberTheory
  import TurboCircularBuffer
  import RateMatchTurboTables

  /** The coded block for block i of transport block tb. */
  ghost function CodedBlockOf(p: Plan, tb: seq<bool>, i: nat): (c: seq<bool>)
    requires p.Valid() && |tb| == p.tbs + 24 && i < p.c
    ensures |c| == 3 * StreamLength(p.Idx(i))
  {
    Encoded(p.Block(tb, i), p.Idx(i))
  }

  /** Soft-buffer bits w hold what is needed to send any redundancy version of block i. */
  ghost predicate Stored(p: Plan, tb: seq<bool>, i: nat, w: seq<bool>)
    requires p.Valid() && |tb| == p.tbs + 24 && i < p.c
  {
    Squeezed(w, CodedBlockOf(p, tb, i), StreamLength(p.Idx(i)))
  }

  /** The bits from position start on are what redundancy version rv sends of block i. */
  ghost predicate SentAt(p: Plan, tb: seq<bool>, i: nat, rv: nat, e: seq<bool>, start: nat, len: nat)
    requires p.Valid() && |tb| == p.tbs + 24 && i < p.c
  {
    start + len <= |e| &&
    forall k {:trigger TurboCircularBuffer.Sent(StreamLength(p.Idx(i)), rv, k)} :: 0 <= k < len ==>
      e[start + k] == CodedBlockOf(p, tb, i)[TurboCircularBuffer.Sent(StreamLength(p.Idx(i)), rv, k)]
  }

  /** Coded block and stored streams are the same thing. */
  lemma CarriesIsCodedBlock(sys: seq<bool>, par: seq<bool>, c: seq<bool>, n: nat)
    requires Carries(sys, par, c, n)
    ensures CodedBlock(sys, par, n) == c
  {
    forall q | 0 <= q < 3 * n
      ensures CodedBlock(sys, par, n)[q] == c[q]
    {
      assert StreamsAt(sys, par, c, n, q / 3);
      Merge3At(sys[..n], par[..n], par[n..2 * n], q / 3);
    }
  }

  /** What the table rate matcher copies out of a stored block is what has to be sent. */
  lemma StoredIsSent(p: Plan, tb: seq<bool>, i: nat, rv: nat, w: seq<bool>, e: seq<bool>, start: nat, len: nat)
    requires p.Valid() && |tb| == p.tbs + 24 && i < p.c && rv < 4 && start + len <= |e| && Stored(p, tb, i, w)
    requires var n := StreamLength(p.Idx(i));
             forall k :: 0 <= k < len ==> e[start + k] == w[Round(RateMatchTurboTables.CompactStart(n, rv), k, 3 * n)]
    ensures SentAt(p, tb, i, rv, e, start, len)
  {
    var n, c := StreamLength(p.Idx(i)), CodedBlockOf(p, tb, i);
    hide CodedBlockOf, Squeezed, Round, RateMatchTurboTables.CompactStart;
    forall k | 0 <= k < len
      ensures e[start + k] == c[TurboCircularBuffer.Sent(n, rv, k)]
    {
      LutRefinesDirect(w, c, n, rv, k);
    }
  }

  lemma BitsSlice(a: seq<byte>, lo: nat, hi: nat)
    requires lo <= hi <= |a|
    ensures Bits(a[lo..hi]) == Bits(a)[8 * lo..8 * hi]
  {
    hide BitOf;
    forall q | 0 <= q < 8 * (hi - lo)
      ensures Bits(a[lo..hi])[q] == Bits(a)[8 * lo..8 * hi][q]
    {
      assert (8 * lo + q) / 8 == lo + q / 8 && (8 * lo + q) % 8 == q % 8;
    }
  }

  /** memcpy */
  method CopyBytes(dst: array<byte>, dstAt: nat, src: array<byte>, srcAt: nat, n: nat)
    requires dst != src && dstAt + n <= dst.Length && srcAt + n <= src.Length
    modifies dst
    ensures dst[dstAt..dstAt + n] == src[srcAt..srcAt + n]
    ensures dst[..dstAt] == old(dst[..dstAt]) && dst[dstAt + n..] == old(dst[dstAt + n..])
  {
    for k := 0 to n
      invariant forall q :: dstAt <= q < dstAt + k ==> dst[q] == src[q - dstAt + srcAt]
      invariant forall q :: 0 <= q < dstAt || dstAt + k <= q < dst.Length ==> dst[q] == old(dst[q])
    {
      dst[dstAt + k] := src[srcAt + k];
    }
  }

  /** srslte_crc_init for a polynomial of order 24. */
  method NewCrc24(poly: CrcRegister.word) returns (h: Crc.CrcHandle)
    requires poly == CRC24A || poly == CRC24B
    ensures h.Valid() && h.order == 24 && h.polynom == poly && fresh(h) && fresh(h.table)
  {
    Crc.LtePolynomials();
    h := new Crc.CrcHandle();
    var ret := h.Init(poly, 24);
  }

  /** Read length and number of bits to send for block i. */
  method Lengths(p: Plan, qm: nat, nofEBits: nat, i: nat) returns (rlen: nat, nE: nat)
    requires p.Valid() && i < p.c && qm > 0
    ensures rlen == p.Payload(i) && nE == p.Sent(qm, nofEBits, i)
  {
    hide BlockSize, Capacity, NumberTheory.CeilDiv;
    var cbLen := CbSize(if i < p.c2 then p.k2Idx else p.k1Idx);
    p.SizeFacts(i);
    rlen := if p.c > 1 then cbLen - 24 else cbLen;
    nE := p.Sent(qm, nofEBits, i);
  }

  /** A transport block with its parity: data bits, then CRC 24A. */
  ghost function WithParity(data: seq<byte>): (tb: seq<bool>)
    ensures |tb| == 8 * |data| + 24
  {
    Bits(data) + Crc.CheckBits(24, CRC24A, Bits(data))
  }

  /** If there are data, tb is what they and the parity bytes spell. */
  ghost predicate Source(data: array?<byte>, tbs: nat, parity: seq<byte>, tb: seq<bool>)
    reads data
  {
    data != null ==> |parity| == 3 && tbs % 8 == 0 && tbs / 8 <= data.Length && tb == Bits(data[..tbs / 8] + parity)
  }

  /** Sending side buffers: one per block, large enough and all different. */
  ghost predicate Buffers(buffers: seq<array<byte>>, others: set<object>) {
    && (forall i :: 0 <= i < |buffers| ==>
          8 * buffers[i].Length >= 3 * (MAX_LEN_CB + 4) && buffers[i] as object !in others)
    && forall i, j :: 0 <= i < j < |buffers| ==> buffers[i] != buffers[j]
  }

  /** The first n bits have not changed. */
  ghost predicate SameHead(e0: seq<bool>, e: seq<bool>, n: nat) {
    |e| == |e0| && n <= |e| && forall q :: 0 <= q < n ==> e[q] == e0[q]
  }

  lemma SameAtFirst(e: seq<bool>, n: nat)
    requires n <= |e|
    ensures SameHead(e, e, n)
  {
  }

  lemma SameStill(e0: seq<bool>, e: seq<bool>, e': seq<bool>, n: nat, m: nat)
    requires SameHead(e0, e, n) && SameHead(e, e', n + m)
    ensures SameHead(e0, e', n)
  {
  }

  /** Block i is stored, and stands sent in its place. */
  ghost predicate Done(p: Plan, tb: seq<bool>, i: nat, qm: nat, g: nat, rv: nat, w: seq<bool>, e: seq<bool>,
                       wOffset: nat)
    requires p.Valid() && |tb| == p.tbs + 24 && i < p.c && qm > 0
  {
    Stored(p, tb, i, w) && SentAt(p, tb, i, rv, e, wOffset + p.SentBefore(qm, g, i), p.Sent(qm, g, i))
  }

  /** The sending half of srslte_sch_t. */
  class SchEncoder {
    const crcTb: Crc.CrcHandle
    const crcCb: Crc.CrcHandle
    const encoder: LutCoder
    const tables: RmTurboTables
    const cbIn: array<byte>
    const parityBits: array<byte>

    ghost predicate Valid()
      reads this, crcTb, crcTb.table, crcCb, crcCb.table, tables
    {
      && crcTb != crcCb && crcTb.table != crcCb.table
      && crcTb.Valid() && crcTb.order == 24 && crcTb.polynom == CRC24A
      && crcCb.Valid() && crcCb.order == 24 && crcCb.polynom == CRC24B
      && encoder.Valid() && encoder.maxLongCb == MAX_LEN_CB
      && tables.Valid()
      && cbIn.Length == (MAX_LEN_CB + 8) / 8 && parityBits.Length == (3 * MAX_LEN_CB + 16) / 8
      && cbIn != parityBits && cbIn != encoder.temp && parityBits != encoder.temp
      && {cbIn as object, parityBits, encoder.temp} !! {crcTb.table as object, crcCb.table}
    }

    /** The encoder part of srslte_sch_init. */
    constructor ()
      ensures Valid()
    {
      var tb := NewCrc24(CRC24A);
      var cb := NewCrc24(CRC24B);
      crcTb, crcCb := tb, cb;
      encoder := new LutCoder(MAX_LEN_CB);
      tables := new RmTurboTables();
      cbIn := new byte[(MAX_LEN_CB + 8) / 8](_ => 0);
      parityBits := new byte[(3 * MAX_LEN_CB + 16) / 8](_ => 0);
    }

    /** Put the payload of block i into cbIn: data bytes, with the transport block parity at the
        very end. */
    method LoadPayload(p: Plan, data: array<byte>, parity: seq<byte>, i: nat, rp: nat, rlen: nat)
      requires p.Valid() && i < p.c && rp == p.Offset(i) && rlen == p.Payload(i)
      requires p.tbs % 8 == 0 && p.tbs / 8 <= data.Length && |parity| == 3 && cbIn != data
      requires cbIn.Length == (MAX_LEN_CB + 8) / 8
      modifies cbIn
      ensures Bits(cbIn[..rlen / 8]) == p.Piece(Bits(data[..p.tbs / 8] + parity), i)
    {
      hide Bits, BlockSize, Plan.Offset, Plan.Payload, Plan.Size, Plan.Valid, Plan.Shaped, Plan.Piece;
      p.BlockInside(i);
      var at, n := rp / 8, rlen / 8;
      PieceBytes(p, data[..p.tbs / 8] + parity, i, at, n);
      if i < p.c - 1 {
        NotLast(p, i);
        CopyBytes(cbIn, 0, data, at, n);
        MiddleBytes(data[..], parity, p.tbs / 8, at, n);
        assert cbIn[..n] == cbIn[0..0 + n];
        assert data[at..at + n] == data[..][at..at + n];
      } else {
        LoadLast(data, parity, at, n - 3);
        LastBytes(data[..], parity, p.tbs / 8, at);
      }
      assert data[..p.tbs / 8] == data[..][..p.tbs / 8];
    }

    /** Load block i and attach its CRC if there are several blocks. */
    method LoadBlock(p: Plan, data: array<byte>, parity: seq<byte>, i: nat, rp: nat, rlen: nat)
      requires Valid() && p.Valid() && i < p.c && rp == p.Offset(i) && rlen == p.Payload(i)
      requires p.tbs % 8 == 0 && p.tbs / 8 <= data.Length && |parity| == 3
      requires data != cbIn && data as object != crcCb.table
      modifies cbIn, crcCb`crcinit
      ensures Valid() && Bits(cbIn[..])[..p.Size(i)] == p.Block(Bits(data[..p.tbs / 8] + parity), i)
    {
      hide Bits, BlockSize, Plan.Offset, Plan.Payload, Plan.Size, Plan.Valid, Plan.Shaped, Plan.Piece;
      hide CrcRegister.GoodPoly, RmTurboTables.Valid, LutCoder.Valid, Crc.CheckBits, CrcRegister.Coefficients;
      hide CrcTable.Entry;
      ghost var piece := p.Piece(Bits(data[..p.tbs / 8] + parity), i);
      LoadPayload(p, data, parity, i, rp, rlen);
      if p.c > 1 {
        var sum := crcCb.AttachByte(cbIn, rlen);
        assert cbIn[..rlen / 8 + 3] == cbIn[..rlen / 8] + cbIn[rlen / 8..rlen / 8 + 3];
        BitsConcat(cbIn[..rlen / 8], cbIn[rlen / 8..rlen / 8 + 3]);
        BitsHead(cbIn[..], rlen / 8 + 3);
        assert cbIn[..][..rlen / 8 + 3] == cbIn[..rlen / 8 + 3];
      } else {
        BitsHead(cbIn[..], rlen / 8);
        assert cbIn[..][..rlen / 8] == cbIn[..rlen / 8];
      }
    }

    /** Load block i and turbo-encode it: cbIn and parityBits hold its three streams. */
    method EncodeBlock(p: Plan, data: array<byte>, parity: seq<byte>, i: nat, rp: nat, rlen: nat, ghost tb: seq<bool>)
      requires Valid() && p.Valid() && i < p.c && rp == p.Offset(i) && rlen == p.Payload(i)
      requires p.tbs % 8 == 0 && p.tbs / 8 <= data.Length && |parity| == 3
      requires tb == Bits(data[..p.tbs / 8] + parity)
      requires data !in {cbIn, parityBits, encoder.temp} && data as object != crcCb.table
      modifies cbIn, parityBits, encoder.temp, crcCb`crcinit
      ensures Valid()
      ensures Carries(Bits(cbIn[..]), Bits(parityBits[..]), CodedBlockOf(p, tb, i), StreamLength(p.Idx(i)))
    {
      hide Bits, Plan.Offset, Plan.Payload, Plan.Piece, Carries, Encoded, Plan.Block;
      hide CrcRegister.GoodPoly, RmTurboTables.Valid, LutCoder.Valid, CrcTable.Entry;
      LoadBlock(p, data, parity, i, rp, rlen);
      ghost var was := Bits(cbIn[..]);
      var ret := encoder.Encode(cbIn, parityBits, p.Idx(i));
      assert was[..BlockSize(p.Idx(i))] == p.Block(tb, i);
    }

    /** The transport block parity as bytes. */
    method TbParity(data: array<byte>, tbs: nat) returns (parity: seq<byte>)
      requires Valid() && tbs % 8 == 0 && tbs / 8 <= data.Length
      modifies crcTb`crcinit
      ensures Valid() && |parity| == 3 && Bits(data[..tbs / 8] + parity) == WithParity(data[..tbs / 8])
    {
      hide Bits, CrcRegister.GoodPoly, RmTurboTables.Valid, LutCoder.Valid, Crc.CheckBits, CrcRegister.Coefficients;
      hide CrcTable.Entry, Crc.ByteAt, CrcRegister.Fits, CrcRegister.FeedBits;
      var par := crcTb.ChecksumByte(data, tbs);
      parity := [Crc.ByteAt(par, 2), Crc.ByteAt(par, 1), Crc.ByteAt(par, 0)];
      Crc.ChecksumBytes(24, par, parity);
      BitsConcat(data[..tbs / 8], parity);
    }

    /** Rate matching of block i. */
    method SendBlock(p: Plan, buffer: array<byte>, eBits: array<byte>, i: nat, qm: nat, g: nat, rv: nat, wp: nat,
                     nE: nat, wOffset: nat, ghost tb: seq<bool>) returns (ret: int)
      requires Valid() && p.Valid() && i < p.c && |tb| == p.tbs + 24 && qm > 0 && rv < 4
      requires wp == p.SentBefore(qm, g, i) && nE == p.Sent(qm, g, i) && wOffset + wp + nE <= 8 * eBits.Length
      requires 8 * buffer.Length >= 3 * (MAX_LEN_CB + 4)
      requires buffer !in {cbIn, parityBits, encoder.temp, eBits} && eBits !in {cbIn, parityBits, encoder.temp}
      requires {buffer as object, eBits} !! {crcTb.table as object, crcCb.table}
      modifies buffer, eBits
      ensures Valid() && ret == 0
      ensures rv != 0 ==> buffer[..] == old(buffer[..])
      ensures var n := StreamLength(p.Idx(i));
              (if rv == 0 then Carries(Bits(cbIn[..]), Bits(parityBits[..]), CodedBlockOf(p, tb, i), n)
               else Stored(p, tb, i, old(Bits(buffer[..])))) ==>
                Done(p, tb, i, qm, g, rv, Bits(buffer[..]), Bits(eBits[..]), wOffset)
      ensures forall q :: 0 <= q < wOffset + wp ==> Bits(eBits[..])[q] == old(Bits(eBits[..]))[q]
    {
      hide Bits, CrcRegister.GoodPoly, RmTurboTables.ValidAt, LutCoder.Valid, CrcTable.Entry, CodedBlock, Squeezed;
      hide Carries, CodedBlockOf, BlockSize, Plan.SentBefore, Plan.Sent, SentAt, Round;
      hide RateMatchTurboTables.CompactStart;
      ghost var n, sys, par := StreamLength(p.Idx(i)), Bits(cbIn[..]), Bits(parityBits[..]);
      ret := RmTurboTxLut(buffer, cbIn, parityBits, eBits, p.Idx(i), nE, wOffset + wp, rv, tables);
      if rv == 0 && Carries(sys, par, CodedBlockOf(p, tb, i), n) {
        CarriesIsCodedBlock(sys, par, CodedBlockOf(p, tb, i), n);
      }
      if Stored(p, tb, i, Bits(buffer[..])) {
        StoredIsSent(p, tb, i, rv, Bits(buffer[..]), Bits(eBits[..]), wOffset + wp, nE);
      }
    }

    ghost function Scratch(): set<object> {
      {cbIn as object, parityBits, encoder.temp, crcTb.table, crcCb.table}
    }

    /** The arrays of one call do not overlap: data may be absent. */
    ghost predicate Apart(buffer: array<byte>, data: array?<byte>, eBits: array<byte>) {
      && buffer as object !in Scratch() && eBits as object !in Scratch() && buffer != eBits
      && (data != null ==> data as object !in Scratch() && data != buffer && data != eBits)
    }

    /** Encode and send block i. */
    method OneBlock(buffer: array<byte>, p: Plan, qm: nat, rv: nat, nofEBits: nat, data: array?<byte>,
                    eBits: array<byte>, wOffset: nat, parity: seq<byte>, i: nat, rp: nat, wp: nat, ghost tb: seq<bool>)
      returns (rlen: nat, nE: nat)
      requires Valid() && qm > 0 && wOffset + nofEBits <= 8 * eBits.Length && rv < 4
      requires p.Valid() && i < p.c && |tb| == p.tbs + 24
      requires 8 * buffer.Length >= 3 * (MAX_LEN_CB + 4) && Apart(buffer, data, eBits)
      requires Source(data, p.tbs, parity, tb)
      requires rp == p.Offset(i) && wp == p.SentBefore(qm, nofEBits, i) <= nofEBits
      modifies cbIn, parityBits, encoder.temp, crcCb`crcinit, eBits, buffer
      ensures Valid() && rlen == p.Payload(i) && nE == p.Sent(qm, nofEBits, i)
      ensures (if rv == 0 then data != null else Stored(p, tb, i, old(Bits(buffer[..])))) ==>
                Done(p, tb, i, qm, nofEBits, rv, Bits(buffer[..]), Bits(eBits[..]), wOffset)
      ensures SameHead(old(Bits(eBits[..])), Bits(eBits[..]), wOffset + wp)
    {
      hide Bits, CrcRegister.GoodPoly, RmTurboTables.Valid, LutCoder.Valid, CrcTable.Entry, Carries, CodedBlockOf;
      hide Capacity, Plan.SentBefore, Plan.Offset, Done, Stored, StreamLength, Plan.Payload, Plan.Sent;
      rlen, nE := Lengths(p, qm, nofEBits, i);
      SentInside(p, qm, nofEBits, i);
      ghost var w := Bits(buffer[..]);
      if data != null {
        EncodeBlock(p, data, parity, i, rp, rlen, tb);
      }
      var ret := SendBlock(p, buffer, eBits, i, qm, nofEBits, rv, wp, nE, wOffset, tb);
    }

    /** Encoding with the i-th buffer leaves the other buffers and the data alone. */
    method OneBlockAt(buffers: seq<array<byte>>, p: Plan, qm: nat, rv: nat, nofEBits: nat, data: array?<byte>,
                      eBits: array<byte>, wOffset: nat, parity: seq<byte>, i: nat, rp: nat, wp: nat,
                      ghost tb: seq<bool>)
      returns (rlen: nat, nE: nat)
      requires Valid() && qm > 0 && wOffset + nofEBits <= 8 * eBits.Length && rv < 4
      requires p.Valid() && i < p.c <= |buffers| && |tb| == p.tbs + 24
      requires Buffers(buffers, Scratch() + {eBits}) && eBits as object !in Scratch()
      requires data != null ==> data as object !in Scratch() + {eBits} && data !in buffers
      requires Source(data, p.tbs, parity, tb)
      requires rp == p.Offset(i) && wp == p.SentBefore(qm, nofEBits, i) <= nofEBits
      modifies cbIn, parityBits, encoder.temp, crcCb`crcinit, eBits, buffers
      ensures Valid() && rlen == p.Payload(i) && nE == p.Sent(qm, nofEBits, i) && Source(data, p.tbs, parity, tb)
      ensures (if rv == 0 then data != null else Stored(p, tb, i, old(Bits(buffers[i][..])))) ==>
                Done(p, tb, i, qm, nofEBits, rv, Bits(buffers[i][..]), Bits(eBits[..]), wOffset)
      ensures SameHead(old(Bits(eBits[..])), Bits(eBits[..]), wOffset + wp)
      ensures forall j :: 0 <= j < |buffers| && j != i ==> buffers[j][..] == old(buffers[j][..])
    {
      hide Bits, SchEncoder.Valid, Capacity, Plan.SentBefore, Plan.Sent, Plan.Offset, Plan.Payload, Done, Stored;
      hide SameHead;
      ghost var d := if data != null then data[..p.tbs / 8] else [];
      rlen, nE := OneBlock(buffers[i], p, qm, rv, nofEBits, data, eBits, wOffset, parity, i, rp, wp, tb);
      assert data != null ==> data[..p.tbs / 8] == d;
    }

    /** The loop over the blocks. */
    method AllBlocks(buffers: seq<array<byte>>, p: Plan, qm: nat, rv: nat, nofEBits: nat, data: array?<byte>,
                     eBits: array<byte>, wOffset: nat, parity: seq<byte>, ghost tb: seq<bool>)
      requires Valid() && qm > 0 && wOffset + nofEBits <= 8 * eBits.Length && rv < 4
      requires p.Valid() && p.c <= |buffers| && |tb| == p.tbs + 24
      requires Buffers(buffers, Scratch() + {eBits}) && eBits as object !in Scratch()
      requires data != null ==> data as object !in Scratch() + {eBits} && data !in buffers
      requires Source(data, p.tbs, parity, tb)
      modifies cbIn, parityBits, encoder.temp, crcCb`crcinit, eBits, buffers
      ensures Valid()
      ensures forall i | 0 <= i < p.c &&
                        (if rv == 0 then data != null else Stored(p, tb, i, old(Bits(buffers[i][..])))) ::
                Done(p, tb, i, qm, nofEBits, rv, Bits(buffers[i][..]), Bits(eBits[..]), wOffset)
      ensures SameHead(old(Bits(eBits[..])), Bits(eBits[..]), wOffset)
    {
      hide Bits, SchEncoder.Valid, Source, Capacity, Plan.SentBefore, Plan.Sent, Plan.Offset, Plan.Payload, Done;
      hide Stored, SameHead;
      var wp, rp := 0, 0;
      StartOfPlan(p, qm, nofEBits);
      SameAtFirst(Bits(eBits[..]), wOffset);
      for i := 0 to p.c
        invariant Valid() && rp == p.Offset(i) && wp == p.SentBefore(qm, nofEBits, i) && Source(data, p.tbs, parity, tb)
        invariant SameHead(old(Bits(eBits[..])), Bits(eBits[..]), wOffset)
        invariant forall j :: i <= j < |buffers| ==> buffers[j][..] == old(buffers[j][..])
        invariant forall j | 0 <= j < i &&
                            (if rv == 0 then data != null else Stored(p, tb, j, old(Bits(buffers[j][..])))) ::
                    Done(p, tb, j, qm, nofEBits, rv, Bits(buffers[j][..]), Bits(eBits[..]), wOffset)
      {
        ghost var e := Bits(eBits[..]);
        SentInside(p, qm, nofEBits, i);
        var rlen, nE := OneBlockAt(buffers, p, qm, rv, nofEBits, data, eBits, wOffset, parity, i, rp, wp, tb);
        forall j | 0 <= j < i && Done(p, tb, j, qm, nofEBits, rv, Bits(buffers[j][..]), e, wOffset)
          ensures Done(p, tb, j, qm, nofEBits, rv, Bits(buffers[j][..]), Bits(eBits[..]), wOffset)
        {
          DoneKept(p, tb, j, qm, nofEBits, rv, Bits(buffers[j][..]), e, Bits(eBits[..]), wOffset, i);
        }
        SameStill(old(Bits(eBits[..])), e, Bits(eBits[..]), wOffset, wp);
        NextBlock(p, qm, nofEBits, i);
        rp := rp + rlen;
        wp := wp + nE;
      }
    }

    /** encode_tb_off. A first transmission (version 0) fills the soft buffers from the data; every
        transmission, first or repeated, sends for each block exactly what its version asks for. */
    method EncodeTb(buffers: seq<array<byte>>, p: Plan, fillers: nat, qm: nat, rv: nat, nofEBits: nat,
                    data: array?<byte>, eBits: array<byte>, wOffset: nat, ghost tb: seq<bool>) returns (ret: int)
      requires Valid() && qm > 0 && wOffset + nofEBits <= 8 * eBits.Length
      requires fillers == 0 ==> p.Valid() || p.c == p.tbs == 0
      requires Buffers(buffers, Scratch() + {eBits}) && eBits as object !in Scratch()
      requires data != null ==>
                 data as object !in Scratch() + {eBits} && data !in buffers && p.tbs / 8 <= data.Length
      requires |tb| == p.tbs + 24 && (data != null && p.tbs % 8 == 0 ==> tb == WithParity(data[..p.tbs / 8]))
      modifies cbIn, parityBits, encoder.temp, crcTb`crcinit, crcCb`crcinit, eBits, buffers
      ensures Valid()
      ensures ret == if fillers > 0 || p.c > |buffers| || (p.c > 0 && rv >= 4) then -1 else 0
      ensures ret == 0 ==>
                forall i | 0 <= i < p.c &&
                          (if rv == 0 then data != null else Stored(p, tb, i, old(Bits(buffers[i][..])))) ::
                  Done(p, tb, i, qm, nofEBits, rv, Bits(buffers[i][..]), Bits(eBits[..]), wOffset)
      ensures SameHead(old(Bits(eBits[..])), Bits(eBits[..]), wOffset)
      ensures ret != 0 ==> eBits[..] == old(eBits[..])
    {
      hide Bits, CrcRegister.GoodPoly, RmTurboTables.Valid, LutCoder.Valid, CrcTable.Entry, WithParity;
      hide Done, Stored;
      if fillers > 0 { return -1; }
      if p.c > |buffers| { return -1; }
      if p.c > 0 { WholeBytes(p); }
      var parity := [];
      if data != null {
        parity := TbParity(data, p.tbs);
      }
      if p.c == 0 { return 0; }
      if rv >= 4 { return -1; }
      AllBlocks(buffers, p, qm, rv, nofEBits, data, eBits, wOffset, parity, tb);
      return 0;
    }

    /** The rest of the data and the three parity bytes. */
    method LoadLast(data: array<byte>, parity: seq<byte>, srcAt: nat, n: nat)
      requires |parity| == 3 && cbIn != data && srcAt + n <= data.Length && n + 3 <= cbIn.Length
      modifies cbIn
      ensures cbIn[..n + 3] == data[..][srcAt..srcAt + n] + parity
    {
      CopyBytes(cbIn, 0, data, srcAt, n);
      ghost var head := cbIn[..n];
      cbIn[n], cbIn[n + 1], cbIn[n + 2] := parity[0], parity[1], parity[2];
      assert cbIn[..n] == head;
      assert cbIn[..n + 3] == cbIn[..n] + parity;
    }
  }

  lemma MiddleBytes(d: seq<byte>, parity: seq<byte>, t: nat, at: nat, n: nat)
    requires at + n <= t <= |d|
    ensures (d[..t] + parity)[at..at + n] == d[at..at + n]
  {
  }

  lemma LastBytes(d: seq<byte>, parity: seq<byte>, t: nat, at: nat)
    requires at <= t <= |d| && |parity| == 3
    ensures (d[..t] + parity)[at..t + 3] == d[at..t] + parity
  {
  }

  /** The bytes of a piece of the transport block. */
  lemma PieceBytes(p: Plan, all: seq<byte>, i: nat, at: nat, n: nat)
    requires p.Valid() && i < p.c && 8 * |all| == p.tbs + 24
    requires p.Offset(i) == 8 * at && p.Payload(i) == 8 * n
    ensures at + n <= |all| && Bits(all[at..at + n]) == p.Piece(Bits(all), i)
  {
    hide Bits, BlockSize, Plan.Offset, Plan.Payload, Plan.Size, Plan.Valid, Plan.Shaped;
    p.BlockInside(i);
    BitsSlice(all, at, at + n);
  }

  /** All blocks but the last carry data only. */
  lemma NotLast(p: Plan, i: nat)
    requires p.Valid() && i < p.c - 1
    ensures p.Offset(i + 1) <= p.tbs
  {
    p.OffsetGrows(i + 1, p.c - 1);
    p.BlockInside(p.c - 1);
  }

  lemma WholeBytes(p: Plan)
    requires p.Valid()
    ensures p.tbs % 8 == 0
  {
    hide Plan.Offset, BlockSize, Capacity;
    p.PayloadsTile();
  }

  lemma StartOfPlan(p: Plan, qm: nat, g: nat)
    requires p.Valid() && qm > 0
    ensures p.Offset(0) == 0 && p.SentBefore(qm, g, 0) == 0
  {
  }

  lemma NextBlock(p: Plan, qm: nat, g: nat, i: nat)
    requires p.Valid() && qm > 0
    ensures p.Offset(i + 1) == p.Offset(i) + p.Payload(i)
    ensures p.SentBefore(qm, g, i + 1) == p.SentBefore(qm, g, i) + p.Sent(qm, g, i)
  {
    hide Plan.Sent, Plan.Payload;
  }

  lemma SentInside(p: Plan, qm: nat, g: nat, i: nat)
    requires p.Valid() && qm > 0 && i < p.c
    ensures p.SentBefore(qm, g, i) + p.Sent(qm, g, i) <= g
  {
    hide Plan.Sent;
    p.SentGrows(qm, g, i + 1, p.c);
    p.SentAddsUp(qm, g);
  }

  /** Sending later blocks does not disturb earlier ones. */
  lemma DoneKept(p: Plan, tb: seq<bool>, j: nat, qm: nat, g: nat, rv: nat, w: seq<bool>, e: seq<bool>, e': seq<bool>,
                 wOffset: nat, i: nat)
    requires p.Valid() && |tb| == p.tbs + 24 && j < i <= p.c && qm > 0 && |e| == |e'|
    requires Done(p, tb, j, qm, g, rv, w, e, wOffset)
    requires SameHead(e, e', wOffset + p.SentBefore(qm, g, i))
    ensures Done(p, tb, j, qm, g, rv, w, e', wOffset)
  {
    hide Stored, CodedBlockOf, Capacity, Plan.Idx, Plan.SentBefore, Plan.Sent, SentAt;
    p.SentGrows(qm, g, j + 1, i);
    NextBlock(p, qm, g, j);
    SentKept(p, tb, j, rv, e, e', wOffset + p.SentBefore(qm, g, j), p.Sent(qm, g, j));
  }

  lemma SentKept(p: Plan, tb: seq<bool>, i: nat, rv: nat, e: seq<bool>, e': seq<bool>, start: nat, len: nat)
    requires p.Valid() && |tb| == p.tbs + 24 && i < p.c && |e| == |e'| && SentAt(p, tb, i, rv, e, start, len)
    requires forall q :: 0 <= q < start + len && q < |e| ==> e'[q] == e[q]
    ensures SentAt(p, tb, i, rv, e', start, len)
  {
    hide CodedBlockOf, Capacity, Plan.Idx, TurboCircularBuffer.Sent;
  }
}

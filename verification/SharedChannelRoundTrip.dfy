/** From one end of the shared channel to the other: encode_tb_off, a channel without errors, and
    decode_tb (srslte/lib/phch/sch.c). */
module SharedChannelRoundTrip {
  import opened Bytes
  import opened CodeBlockSizes
  import opened RateMatchTurboLut
  import opened RateMatchTurboHarq
  import opened TransportBlock
  import opened SharedChannelEncoder
  import opened SharedChannelDecoder
  import Crc
  import CrcRegister
  import CrcTable
  import TurboCircularBuffer

  /** What lies between the two: scrambling, modulation, the air and soft demodulation as one
      function of the bit's position and value. Without errors every bit, wherever it stands,
      comes out as a nonzero soft value of its own sign. */
  ghost predicate ErrorFree(channel: (nat, bool) -> int) {
    forall q: nat, b: bool :: channel(q, b) != 0 && Favours(channel(q, b), b)
  }

  /** The soft values of g bits from position wOffset on. */
  function Received(channel: (nat, bool) -> int, e: seq<bool>, wOffset: nat, g: nat): (soft: seq<int>)
    requires wOffset + g <= |e|
    ensures |soft| == g
  {
    seq(g, q requires 0 <= q < g => channel(q, e[wOffset + q]))
  }

  /** Every code block is sent at least once round. */
  ghost predicate WholeRounds(p: Plan, qm: nat, g: nat)
    requires p.Valid() && qm > 0
  {
    forall i {:trigger p.Idx(i)} :: 0 <= i < p.c ==> p.Sent(qm, g, i) >= 3 * StreamLength(p.Idx(i))
  }

  ghost predicate Empty(w: seq<seq<int>>) {
    forall i, m :: 0 <= i < |w| && 0 <= m < |w[i]| ==> w[i][m] == 0
  }

  /** Cutting the bits before wOffset off. */
  lemma SentShifted(p: Plan, tb: seq<bool>, i: nat, rv: nat, e: seq<bool>, wOffset: nat, g: nat, start: nat, len: nat)
    requires p.Valid() && |tb| == p.tbs + 24 && i < p.c && wOffset + g <= |e| && start + len <= g
    requires SentAt(p, tb, i, rv, e, wOffset + start, len)
    ensures SentAt(p, tb, i, rv, e[wOffset..wOffset + g], start, len)
  {
    hide CodedBlockOf, StreamLength, TurboCircularBuffer.Sent, Plan.Valid, Plan.Idx;
  }

  /** What encode_tb_off leaves behind, sent over an error-free channel into empty soft buffers,
      is received clean. */
  lemma EncodedIsClean(p: Plan, tb: seq<bool>, qm: nat, g: nat, tx: seq<seq<bool>>, e: seq<bool>, wOffset: nat,
                       channel: (nat, bool) -> int, w: seq<seq<int>>)
    requires p.Valid() && |tb| == p.tbs + 24 && qm > 0 && wOffset + g <= |e| && p.c <= |tx| && p.c <= |w|
    requires forall i :: 0 <= i < p.c ==> Done(p, tb, i, qm, g, 0, tx[i], e, wOffset)
    requires ErrorFree(channel) && WholeRounds(p, qm, g)
    requires Empty(w) && forall i :: 0 <= i < |w| ==> |w[i]| >= 3 * (MAX_LEN_CB + 4)
    ensures AllClean(p, tb, qm, g, 0, w, Received(channel, e, wOffset, g))
  {
    hide SentAt, Stored, StreamLength, SystematicSent, AllClean, Capacity, Plan.Sent, Plan.SentBefore, Plan.Idx;
    hide Favours;
    var bits := e[wOffset..wOffset + g];
    forall i | 0 <= i < p.c
      ensures SentAt(p, tb, i, 0, bits, p.SentBefore(qm, g, i), p.Sent(qm, g, i))
      ensures SystematicSent(p, i, 0, p.Sent(qm, g, i))
      ensures p.Idx(i) < NOF_TC_CB_SIZES && 3 * StreamLength(p.Idx(i)) <= |w[i]|
    {
      SentInside(p, qm, g, i);
      assert Done(p, tb, i, qm, g, 0, tx[i], e, wOffset);
      SentShifted(p, tb, i, 0, e, wOffset, g, p.SentBefore(qm, g, i), p.Sent(qm, g, i));
      SizeIsStream(p, i);
      RoundSendsSystematic(p, i, 0, p.Sent(qm, g, i));
    }
    forall q | 0 <= q < g
      ensures var v := Received(channel, e, wOffset, g)[q]; v != 0 && Favours(v, bits[q])
    {
      assert bits[q] == e[wOffset + q];
    }
    FirstTransmissionClean(p, tb, qm, g, 0, bits, Received(channel, e, wOffset, g), w);
  }

  /** A transport block is its data and a parity with which it checks. */
  lemma WithParityChecks(data: seq<byte>)
    ensures WithParity(data)[..8 * |data|] == Bits(data) && Checks(CRC24A, WithParity(data))
  {
    hide Checks, Crc.CheckBits;
    ParityDecides(Bits(data), Crc.CheckBits(24, CRC24A, Bits(data)));
  }

  ghost function TxBits(buffers: seq<array<byte>>): (w: seq<seq<bool>>)
    reads buffers
    ensures |w| == |buffers| && forall i :: 0 <= i < |w| ==> w[i] == Bits(buffers[i][..])
  {
    seq(|buffers|, i requires 0 <= i < |buffers| reads buffers => Bits(buffers[i][..]))
  }

  lemma SameContents(buffers: seq<array<int>>, w: seq<seq<int>>)
    requires |w| == |buffers| && forall i :: 0 <= i < |w| ==> w[i] == buffers[i][..]
    ensures Contents(buffers) == w
  {
  }

  /** Objects the sender changes, next to its soft buffers. */
  ghost function Written(enc: SchEncoder, eBits: array<byte>): set<object> {
    enc.Scratch() + {enc.crcTb, enc.crcCb, eBits}
  }

  /** Where the receiver's own state lives. */
  ghost function Kept(dec: SchDecoder): set<object> {
    {dec, dec.crcTb, dec.crcTb.table, dec.crcCb, dec.crcCb.table, dec.tables, dec.decoder}
  }

  /** The sender's part; the receiver is not touched. */
  method Send(enc: SchEncoder, txBuffers: seq<array<byte>>, p: Plan, qm: nat, g: nat, data: array<byte>,
              eBits: array<byte>, wOffset: nat, ghost rxBuffers: seq<array<int>>) returns (sent: int)
    requires enc.Valid() && p.Valid() && qm > 0 && wOffset + g <= 8 * eBits.Length
    requires p.c <= |txBuffers| && p.tbs / 8 <= data.Length
    requires Buffers(txBuffers, enc.Scratch() + {eBits}) && eBits as object !in enc.Scratch()
    requires data as object !in enc.Scratch() + {eBits} && data !in txBuffers
    requires forall b :: b in rxBuffers ==> b as object !in Written(enc, eBits) && b as object !in txBuffers
    modifies Written(enc, eBits), txBuffers
    ensures sent == 0 && p.tbs % 8 == 0 && Contents(rxBuffers) == old(Contents(rxBuffers))
    ensures var tb := WithParity(old(data[..p.tbs / 8]));
            forall i :: 0 <= i < p.c ==>
              Done(p, tb, i, qm, g, 0, Bits(txBuffers[i][..]), Bits(eBits[..]), wOffset)
  {
    hide Bits, WithParity, SchEncoder.Valid, Done, Contents, Capacity, BlockSize, Buffers;
    ghost var tb := WithParity(data[..p.tbs / 8]);
    WholeBytes(p);
    sent := enc.EncodeTb(txBuffers, p, 0, qm, 0, g, data, eBits, wOffset, tb);
    forall i | 0 <= i < |rxBuffers|
      ensures old(Contents(rxBuffers))[i] == rxBuffers[i][..]
    {
      assert rxBuffers[i] in rxBuffers;
    }
    SameContents(rxBuffers, old(Contents(rxBuffers)));
  }

  /** Data encoded, sent once over an error-free channel and decoded are the data again; the
      decoder says so unless the data alone, without their parity, check to zero. */
  method Transfer(enc: SchEncoder, dec: SchDecoder, txBuffers: seq<array<byte>>, rxBuffers: seq<array<int>>, p: Plan,
                  qm: nat, g: nat, data: array<byte>, eBits: array<byte>, wOffset: nat, channel: (nat, bool) -> int,
                  received: array<byte>) returns (sent: int, ret: int)
    requires enc.Valid() && dec.Valid() && p.Valid() && p.tbs > 0 && qm > 0 && wOffset + g <= 8 * eBits.Length
    requires p.c <= |txBuffers| && p.c <= |rxBuffers| && p.tbs / 8 <= data.Length && p.tbs / 8 <= received.Length
    requires Buffers(txBuffers, enc.Scratch() + {eBits}) && SoftBuffers(rxBuffers, dec.Scratch() + {received})
    requires data as object !in enc.Scratch() + {eBits} && data !in txBuffers && received as object !in dec.Scratch()
    requires eBits as object !in enc.Scratch() && Written(enc, eBits) !! Kept(dec)
    requires forall b :: b in rxBuffers ==> b as object !in Written(enc, eBits) && b as object !in txBuffers
    requires Empty(Contents(rxBuffers)) && ErrorFree(channel) && WholeRounds(p, qm, g)
    modifies Written(enc, eBits), txBuffers, dec.Scratch(), rxBuffers, received
    ensures sent == 0 && received[..p.tbs / 8] == old(data[..p.tbs / 8])
    ensures ret == 0 <==> !Checks(CRC24A, old(Bits(data[..p.tbs / 8])))
  {
    hide Bits, WithParity, Checks, SchEncoder.Valid, SchDecoder.Valid, AllClean, Done, Contents, WholeRounds;
    hide ErrorFree, Received;
    hide Capacity, Empty, Buffers, Written;
    ghost var sentData := data[..p.tbs / 8];
    ghost var tb := WithParity(sentData);
    ghost var w := Contents(rxBuffers);
    sent := Send(enc, txBuffers, p, qm, g, data, eBits, wOffset, rxBuffers);
    var soft := Received(channel, Bits(eBits[..]), wOffset, g);
    EncodedIsClean(p, tb, qm, g, TxBits(txBuffers), Bits(eBits[..]), wOffset, channel, w);
    WithParityChecks(sentData);
    ghost var spelled, blocks;
    ret, spelled, blocks := dec.DecodeTb(rxBuffers, p, 0, qm, 0, g, soft, received, tb);
    BitsDetermine(received[..p.tbs / 8], sentData);
  }
}

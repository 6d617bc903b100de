/** Decoding a transport block (decode_tb in srslte/lib/phch/sch.c). */
module SharedChannelDecoder {
  import opened Bytes
  import opened CodeBlockSizes
  import opened TurboEncoder
  import opened TurboDecoder
  import opened MapDecoder
  import opened RateMatchTurboLut
  import opened RateMatchTurboRx
  import opened RateMatchTurboHarq
  import opened TransportBlock
  import opened SharedChannelEncoder
  import Gf2Division
  import Crc
  import CrcRegister
  import CrcTable
  import Permutations
  import TurboCircularBuffer
  import TurboInterleaver
  import TurboEncoderLut

  /** Coded bit m is a systematic one, with block size k. */
  predicate IsSystematic(m: nat, k: nat) {
    m % 3 == 0 && m < 3 * k
  }

  /** Soft values as the turbo decoder takes them: none opposes its coded bit and every
      systematic one is there. */
  ghost predicate CleanSoft(w: seq<int>, c: seq<bool>, k: nat) {
    && |c| == 3 * k + 12 <= |w|
    && forall m :: 0 <= m < |c| ==> Favours(w[m], c[m]) && (IsSystematic(m, k) ==> w[m] != 0)
  }

  /** srslte_vec_convert_if with scale 0.01 */
  function Converted(w: seq<int>): (r: seq<real>)
    ensures |r| == |w|
  {
    seq(|w|, i requires 0 <= i < |w| => w[i] as real / 0.01)
  }

  lemma ConvertedIsClean(w: seq<int>, msg: seq<bool>, idx: nat, rv: seq<nat>)
    requires idx < NOF_TC_CB_SIZES && |msg| == BlockSize(idx) && CleanSoft(w, Encoded(msg, idx), |msg|)
    requires Permutations.MutuallyInverse(TurboInterleaver.QppTable(idx), rv)
    ensures Clean(Converted(w[..3 * |msg| + 12]), TurboInterleaver.QppTable(idx), rv, msg)
  {
    hide TurboInterleaver.QppTable, Codeword, Permutations.MutuallyInverse;
    TurboInterleaver.QppTableIsPermutation(idx);
    var r, c := Converted(w[..3 * |msg| + 12]), Encoded(msg, idx);
    forall m | 0 <= m < |r|
      ensures Agrees(r[m], c[m]) && (w[m] != 0 ==> r[m] != 0.0)
    {
      assert Favours(w[m], c[m]);
    }
  }

  /** A checksum word is zero exactly when the check bits are. */
  lemma ZeroChecks(crc: CrcRegister.word)
    requires CrcRegister.Fits(24, crc)
    ensures crc == 0 <==> Gf2Division.IsZero(CrcRegister.Coefficients(24, crc))
  {
    hide CrcRegister.BitAt, CrcRegister.Fits;
    CrcRegister.ZeroCoefficients(24);
    if Gf2Division.IsZero(CrcRegister.Coefficients(24, crc)) {
      assert CrcRegister.Coefficients(24, crc) == Gf2Division.Zeros(24);
      CrcRegister.CoefficientsDetermine(24, crc, 0);
    }
  }

  ghost predicate Checks(poly: CrcRegister.word, bits: seq<bool>) {
    Gf2Division.IsZero(Crc.CheckBits(24, poly, bits))
  }

  // ---- decoding with early stopping -------------------------------------------------------

  /** Interleaver tables of size number idx. */
  ghost predicate Tables(decoder: Decoder, idx: nat, n: nat) {
    idx < |decoder.forward| && idx < |decoder.reverse| && Inverses(decoder.forward[idx], decoder.reverse[idx], n)
  }

  ghost predicate Inverses(fw: seq<nat>, rv: seq<nat>, n: nat) {
    |fw| == n && Permutations.MutuallyInverse(fw, rv)
  }

  /** The a-priori values of the decoder after k iterations on soft values w. */
  ghost function Started(w: seq<int>, n: nat, decoder: Decoder, k: nat): seq<real>
    requires decoder.Ready(n) && 3 * n + 12 <= |w|
    reads decoder
  {
    var idx := decoder.currentCbidx;
    Apriori(Converted(w[..3 * n + 12]), n, decoder.forward[idx], decoder.reverse[idx], k)
  }

  ghost function Decided(w: seq<int>, n: nat, decoder: Decoder, k: nat): seq<bool>
    requires decoder.Ready(n) && 3 * n + 12 <= |w| && k >= 1
    reads decoder
  {
    Decisions(Converted(w[..3 * n + 12]), Started(w, n, decoder, k - 1), decoder.forward[decoder.currentCbidx],
              decoder.reverse[decoder.currentCbidx])
  }

  /** The bits decided after k iterations on soft values w. */
  ghost function After(w: seq<int>, n: nat, fw: seq<nat>, rv: seq<nat>, k: nat): (bits: seq<bool>)
    requires Inverses(fw, rv, n) && 3 * n + 12 <= |w| && k >= 1
    ensures |bits| == n
  {
    var r := Converted(w[..3 * n + 12]);
    Decisions(r, Apriori(r, n, fw, rv, k - 1), fw, rv)
  }

  /** Decoding stops after k iterations: the first one that checks, or the last one allowed. One is
      always made. */
  ghost predicate Stops(w: seq<int>, n: nat, fw: seq<nat>, rv: seq<nat>, poly: CrcRegister.word, max: nat, k: nat)
    requires Inverses(fw, rv, n) && 3 * n + 12 <= |w| && k >= 1
  {
    && (k == 1 || k <= max)
    && (forall j {:trigger After(w, n, fw, rv, j)} :: 1 <= j < k ==> !Checks(poly, After(w, n, fw, rv, j)))
    && (k < max ==> Checks(poly, After(w, n, fw, rv, k)))
  }

  /** The receiving half of srslte_sch_t. */
  class SchDecoder {
    const crcTb: Crc.CrcHandle
    const crcCb: Crc.CrcHandle
    const decoder: Decoder
    const tables: RmTurboTables
    const cbIn: array<byte>
    const lanes: Lanes
    var maxIterations: nat
    var nofIterations: nat

    ghost predicate Valid()
      reads crcTb, crcTb.table, crcCb, crcCb.table, tables, decoder
    {
      && crcTb != crcCb && crcTb.table != crcCb.table
      && crcTb.Valid() && crcTb.order == 24 && crcTb.polynom == CRC24A
      && crcCb.Valid() && crcCb.order == 24 && crcCb.polynom == CRC24B
      && decoder.Valid() && decoder.maxLongCb == MAX_LEN_CB
      && tables.Valid()
      && cbIn.Length == (MAX_LEN_CB + 8) / 8
      && cbIn as object !in {decoder.llr1, decoder.llr2, decoder.w, decoder.syst, decoder.parity, decoder.dec.beta}
      && cbIn as object !in {crcTb.table, crcCb.table}
    }

    constructor (maxIterations: nat, lanes: Lanes)
      ensures Valid() && this.maxIterations == maxIterations && this.lanes == lanes
    {
      var tb := NewCrc24(CRC24A);
      var cb := NewCrc24(CRC24B);
      crcTb, crcCb := tb, cb;
      decoder := new Decoder(MAX_LEN_CB);
      tables := new RmTurboTables();
      cbIn := new byte[(MAX_LEN_CB + 8) / 8](_ => 0);
      this.maxIterations, nofIterations, this.lanes := maxIterations, 0, lanes;
    }

    /** One round of the decoding loop: a decoder iteration, byte decisions, and the CRC. n iterations
        have been made before. */
    method Round(buffer: seq<int>, cbLen: nat, crc: Crc.CrcHandle, ghost n: nat) returns (good: bool)
      requires Valid() && decoder.Ready(cbLen) && 3 * cbLen + 12 <= |buffer|
      requires crc == crcTb || crc == crcCb
      requires decoder.w[..cbLen] == Started(buffer, cbLen, decoder, n)
      modifies decoder.dec.beta, decoder.llr1, decoder.llr2, decoder.w, decoder.syst, decoder.parity, cbIn, crc`crcinit
      ensures Valid() && decoder.Ready(cbLen) && cbLen / 8 <= cbIn.Length
      ensures decoder.w[..cbLen] == Started(buffer, cbLen, decoder, n + 1)
      ensures Bits(cbIn[..cbLen / 8]) == Decided(buffer, cbLen, decoder, n + 1)
      ensures good <==> Checks(crc.polynom, Bits(cbIn[..cbLen / 8]))
    {
      hide Bits, CrcRegister.GoodPoly, RmTurboTables.Valid, CrcTable.Entry, Checks, Started, Decided, BlockSize;
      hide TurboInterleaver.QppTable, Permutations.MutuallyInverse;
      Decide(buffer, cbLen, n);
      good := Check(crc, cbLen);
    }

    method Decide(buffer: seq<int>, cbLen: nat, ghost n: nat)
      requires decoder.Ready(cbLen) && 3 * cbLen + 12 <= |buffer| && cbLen / 8 <= cbIn.Length
      requires cbIn as object !in {decoder.llr1, decoder.llr2, decoder.w, decoder.syst, decoder.parity,
                                   decoder.dec.beta}
      requires decoder.w[..cbLen] == Started(buffer, cbLen, decoder, n)
      modifies decoder.dec.beta, decoder.llr1, decoder.llr2, decoder.w, decoder.syst, decoder.parity, cbIn
      ensures decoder.Ready(cbLen)
      ensures decoder.w[..cbLen] == Started(buffer, cbLen, decoder, n + 1)
      ensures Bits(cbIn[..cbLen / 8]) == Decided(buffer, cbLen, decoder, n + 1)
    {
      hide Bits, TurboInterleaver.QppTable, Permutations.MutuallyInverse, Llr2, NextApriori, Decisions, BlockSize;
      hide SecondExtrinsic;
      var input := new real[3 * cbLen + 12](i requires 0 <= i < 3 * cbLen + 12 => buffer[i] as real / 0.01);
      ghost var r := Converted(buffer[..3 * cbLen + 12]);
      assert input[..] == r;
      decoder.Iteration(input, cbLen);
      decoder.DecisionByte(cbIn, cbLen);
      decoder.DecisionsAreHardBits(r, cbLen, n);
    }

    method Check(crc: Crc.CrcHandle, cbLen: nat) returns (good: bool)
      requires crc.Valid() && crc.order == 24 && cbLen / 8 <= cbIn.Length
      modifies crc`crcinit
      ensures crc.Valid() && (good <==> Checks(crc.polynom, Bits(cbIn[..cbLen / 8])))
    {
      hide Bits, CrcRegister.GoodPoly, CrcTable.Entry, Crc.CheckBits, CrcRegister.Coefficients, CrcRegister.Fits;
      hide CrcRegister.FeedBits;
      var sum := crc.ChecksumByte(cbIn, cbLen);
      ZeroChecks(sum);
      good := sum == 0;
    }

    /** Turbo decoding of one block with CRC-based early stopping: after the first iteration whose
        decisions check, or after the last one allowed. */
    method DecodeBlock(buffer: seq<int>, idx: nat, cbLen: nat, crc: Crc.CrcHandle) returns (good: bool)
      requires Valid() && idx < NOF_TC_CB_SIZES && cbLen == BlockSize(idx) && 3 * cbLen + 12 <= |buffer|
      requires crc == crcTb || crc == crcCb
      modifies decoder`currentCbidx, decoder.dec.beta, decoder.llr1, decoder.llr2, decoder.w
      modifies decoder.syst, decoder.parity
      modifies cbIn, crc`crcinit, this`nofIterations
      ensures Valid() && Tables(decoder, idx, cbLen)
      ensures nofIterations >= 1
      ensures Stops(buffer, cbLen, decoder.forward[idx], decoder.reverse[idx], crc.polynom, maxIterations,
                    nofIterations)
      ensures Bits(cbIn[..cbLen / 8]) ==
              After(buffer, cbLen, decoder.forward[idx], decoder.reverse[idx], nofIterations)
      ensures good <==> Checks(crc.polynom, Bits(cbIn[..cbLen / 8]))
    {
      hide Bits, CrcRegister.GoodPoly, RmTurboTables.Valid, CrcTable.Entry, Checks, Started, Decided, After;
      hide TurboInterleaver.QppTable, Permutations.MutuallyInverse, BlockSize, SchDecoder.Valid;
      Begin(buffer, idx, cbLen);
      good := Round(buffer, cbLen, crc, 0);
      nofIterations := 1;
      DecidedIsAfter(buffer, idx, cbLen, 1);
      while nofIterations < maxIterations && !good
        invariant Valid() && decoder.Ready(cbLen) && decoder.currentCbidx == idx && nofIterations >= 1
        invariant cbLen / 8 <= cbIn.Length
        invariant decoder.w[..cbLen] == Started(buffer, cbLen, decoder, nofIterations)
        invariant nofIterations == 1 || nofIterations <= maxIterations
        invariant Bits(cbIn[..cbLen / 8]) ==
                  After(buffer, cbLen, decoder.forward[idx], decoder.reverse[idx], nofIterations)
        invariant good <==> Checks(crc.polynom, Bits(cbIn[..cbLen / 8]))
        invariant forall j {:trigger After(buffer, cbLen, decoder.forward[idx], decoder.reverse[idx], j)} ::
                    1 <= j < nofIterations ==>
                      !Checks(crc.polynom, After(buffer, cbLen, decoder.forward[idx], decoder.reverse[idx], j))
        decreases maxIterations - nofIterations
      {
        good := Round(buffer, cbLen, crc, nofIterations);
        nofIterations := nofIterations + 1;
        DecidedIsAfter(buffer, idx, cbLen, nofIterations);
      }
    }

    /** Reset of the decoder. */
    method Begin(buffer: seq<int>, idx: nat, cbLen: nat)
      requires Valid() && idx < NOF_TC_CB_SIZES && cbLen == BlockSize(idx) && 3 * cbLen + 12 <= |buffer|
      modifies decoder`currentCbidx, decoder.w
      ensures Valid() && decoder.Ready(cbLen) && decoder.currentCbidx == idx
      ensures decoder.w[..cbLen] == Started(buffer, cbLen, decoder, 0)
    {
      hide CrcRegister.GoodPoly, RmTurboTables.Valid, CrcTable.Entry, TurboInterleaver.QppTable;
      hide Permutations.MutuallyInverse, BlockSize;
      var ret := decoder.Reset(cbLen);
      IndexForSize(idx);
    }

    lemma DecidedIsAfter(buffer: seq<int>, idx: nat, cbLen: nat, k: nat)
      requires decoder.Ready(cbLen) && decoder.currentCbidx == idx && 3 * cbLen + 12 <= |buffer| && k >= 1
      ensures Tables(decoder, idx, cbLen)
      ensures Decided(buffer, cbLen, decoder, k) ==
              After(buffer, cbLen, decoder.forward[idx], decoder.reverse[idx], k)
    {
      hide TurboInterleaver.QppTable, Permutations.MutuallyInverse, Decisions, Apriori;
    }

    /** srslte_rm_turbo_rx_lut on the values of one block. */
    method Combine(buffer: array<int>, values: seq<int>, idx: nat, rv: nat)
      requires tables.Valid() && idx < NOF_TC_CB_SIZES && rv < 4 && 3 * StreamLength(idx) <= buffer.Length
      modifies buffer
      ensures Accumulated(StreamLength(idx), rv, old(buffer[..]), buffer[..], values)
    {
      hide RmTurboTables.Valid, Received, Arrived, IsReceiveTable;
      assert tables.ValidAt(idx) by { TablesAt(tables, idx); }
      ghost var n, w0 := StreamLength(idx), buffer[..];
      var table := tables.deinterleaver[idx][rv];
      ReceiveTableBounds(table, n, rv);
      var ret := RmTurboRxLut(values, buffer, |values|, idx, rv, lanes, tables);
      forall m | 0 <= m < buffer.Length
        ensures buffer[m] == w0[m] + Arrived(n, rv, values, m, |values|)
      {
        ReceivedIsArrived(n, rv, table, values, m, |values|);
        assert buffer[..][m] == w0[m] + Received(table, values, m, |values|);
      }
    }

    ghost function Scratch(): set<object> {
      {this, decoder, crcTb, crcCb, cbIn as object, crcTb.table, crcCb.table, decoder.llr1, decoder.llr2, decoder.w,
       decoder.syst, decoder.parity, decoder.dec.beta}
    }

    /** Combine, then decode, block i. */
    method OneBlock(buffer: array<int>, values: seq<int>, p: Plan, i: nat, rv: nat) returns (good: bool)
      requires Valid() && p.Valid() && i < p.c && rv < 4
      requires buffer.Length >= 3 * (MAX_LEN_CB + 4) && buffer as object !in Scratch()
      modifies decoder`currentCbidx, decoder.dec.beta, decoder.llr1, decoder.llr2, decoder.w
      modifies decoder.syst, decoder.parity
      modifies cbIn, crcTb`crcinit, crcCb`crcinit, this`nofIterations, buffer
      ensures Valid() && p.Size(i) / 8 <= cbIn.Length
      ensures Accumulated(p.Size(i) + 4, rv, old(buffer[..]), buffer[..], values)
      ensures DecodedTo(buffer[..], p, i, decoder.forward, decoder.reverse, maxIterations, Bits(cbIn[..p.Size(i) / 8]))
      ensures good <==> Checks(BlockPoly(p), Bits(cbIn[..p.Size(i) / 8]))
    {
      hide Bits, CrcRegister.GoodPoly, RmTurboTables.Valid, CrcTable.Entry, Checks, Arrived, Stops, After;
      hide TurboInterleaver.QppTable, Permutations.MutuallyInverse, Decoder.Valid, Capacity, BlockSize, Accumulated;
      SizeIsStream(p, i);
      Combine(buffer, values, p.Idx(i), rv);
      var cbLen := CbSize(p.Idx(i));
      good := DecodeBlock(buffer[..], p.Idx(i), cbLen, if p.c > 1 then crcCb else crcTb);
      AfterDecodes(buffer[..], p, i, decoder, maxIterations, nofIterations, Bits(cbIn[..p.Size(i) / 8]));
    }

    /** Append the n payload bytes of a block to the data; the last block ends with the parity. */
    method Unload(data: array<byte>, last: bool, at: nat, n: nat) returns (parity: seq<byte>)
      requires n <= cbIn.Length && (last ==> n >= 3) && at + (if last then n - 3 else n) <= data.Length && cbIn != data
      modifies data
      ensures |parity| == 3
      ensures !last ==> data[..at + n] == old(data[..at]) + cbIn[..n]
      ensures last ==> data[..at + (n - 3)] + parity == old(data[..at]) + cbIn[..n]
      ensures forall k :: at + (if last then n - 3 else n) <= k < data.Length ==> data[k] == old(data[k])
    {
      parity := [0, 0, 0];
      var m := if last then n - 3 else n;
      CopyBytes(data, at, cbIn, 0, m);
      assert data[..at + m] == data[..at] + data[at..at + m];
      assert cbIn[0..0 + m] == cbIn[..m];
      if last {
        parity := [cbIn[n - 3], cbIn[n - 2], cbIn[n - 1]];
        assert cbIn[..n] == cbIn[..m] + parity;
      }
    }

    /** One turn of the block loop: what was decoded is appended to the data. */
    method Turn(buffer: array<int>, p: Plan, qm: nat, rv: nat, nofEBits: nat, eBits: seq<int>, data: array<byte>,
                i: nat, rp: nat, wp: nat, ghost heads: seq<bool>)
      returns (good: bool, parity: seq<byte>, rlen: nat, nE: nat, ghost block: seq<bool>)
      requires Valid() && p.Valid() && qm > 0 && rv < 4 && i < p.c
      requires buffer.Length >= 3 * (MAX_LEN_CB + 4) && buffer as object !in Scratch()
      requires data as object !in Scratch() && data as object != buffer && p.tbs / 8 <= data.Length
      requires wp == p.Offset(i) && rp == p.SentBefore(qm, nofEBits, i) && rp + p.Sent(qm, nofEBits, i) <= |eBits|
      requires wp / 8 <= data.Length && Bits(data[..wp / 8]) == heads
      modifies decoder`currentCbidx, decoder.dec.beta, decoder.llr1, decoder.llr2, decoder.w
      modifies decoder.syst, decoder.parity
      modifies cbIn, crcTb`crcinit, crcCb`crcinit, this`nofIterations, buffer, data
      ensures Valid() && |parity| == 3 && rlen == p.Payload(i) && nE == p.Sent(qm, nofEBits, i)
      ensures Accumulated(p.Size(i) + 4, rv, old(buffer[..]), buffer[..], eBits[rp..rp + nE])
      ensures DecodedTo(buffer[..], p, i, decoder.forward, decoder.reverse, maxIterations, block)
      ensures |block| == p.Size(i) && (good <==> Checks(BlockPoly(p), block))
      ensures i < p.c - 1 ==> (wp + rlen) / 8 <= data.Length
      ensures i < p.c - 1 ==> Bits(data[..(wp + rlen) / 8]) == heads + block[..p.Payload(i)]
      ensures i == p.c - 1 ==> Bits(data[..p.tbs / 8] + parity) == heads + block[..p.Payload(i)]
      ensures forall k :: p.tbs / 8 <= k < data.Length ==> data[k] == old(data[k])
    {
      hide Bits, CrcRegister.GoodPoly, RmTurboTables.Valid, CrcTable.Entry, Checks, Decoder.Valid, DecodedTo;
      hide BlockSize, Capacity, Plan.Offset, Plan.Payload, Plan.Sent, Plan.SentBefore, Plan.Size, Accumulated;
      rlen, nE := Lengths(p, qm, nofEBits, i);
      good := OneBlock(buffer, eBits[rp..rp + nE], p, i, rv);
      UnloadFits(p, i);
      ghost var cb := cbIn[..];
      assert cbIn[..p.Size(i) / 8] == cb[..p.Size(i) / 8];
      block := Bits(cb[..p.Size(i) / 8]);
      var at, n := wp / 8, rlen / 8;
      BlockStarts(p, i, cb, n);
      ghost var d0 := data[..at];
      parity := Unload(data, i == p.c - 1, at, n);
      BitsConcat(d0, cb[..n]);
    }

    /** A turn with the i-th buffer leaves the other buffers alone. */
    method TurnAt(buffers: seq<array<int>>, p: Plan, qm: nat, rv: nat, nofEBits: nat, eBits: seq<int>,
                  data: array<byte>, i: nat, rp: nat, wp: nat, ghost heads: seq<bool>)
      returns (good: bool, parity: seq<byte>, rlen: nat, nE: nat, ghost block: seq<bool>)
      requires Valid() && p.Valid() && qm > 0 && rv < 4 && i < p.c <= |buffers|
      requires SoftBuffers(buffers, Scratch() + {data}) && data as object !in Scratch() && p.tbs / 8 <= data.Length
      requires wp == p.Offset(i) && rp == p.SentBefore(qm, nofEBits, i) && rp + p.Sent(qm, nofEBits, i) <= |eBits|
      requires wp / 8 <= data.Length && Bits(data[..wp / 8]) == heads
      modifies decoder`currentCbidx, decoder.dec.beta, decoder.llr1, decoder.llr2, decoder.w
      modifies decoder.syst, decoder.parity
      modifies cbIn, crcTb`crcinit, crcCb`crcinit, this`nofIterations, buffers, data
      ensures Valid() && |parity| == 3 && rlen == p.Payload(i) && nE == p.Sent(qm, nofEBits, i)
      ensures Accumulated(p.Size(i) + 4, rv, old(buffers[i][..]), buffers[i][..], eBits[rp..rp + nE])
      ensures DecodedTo(buffers[i][..], p, i, decoder.forward, decoder.reverse, maxIterations, block)
      ensures |block| == p.Size(i) && (good <==> Checks(BlockPoly(p), block))
      ensures i < p.c - 1 ==> (wp + rlen) / 8 <= data.Length
      ensures i < p.c - 1 ==> Bits(data[..(wp + rlen) / 8]) == heads + block[..p.Payload(i)]
      ensures i == p.c - 1 ==> Bits(data[..p.tbs / 8] + parity) == heads + block[..p.Payload(i)]
      ensures forall k :: p.tbs / 8 <= k < data.Length ==> data[k] == old(data[k])
      ensures forall j :: 0 <= j < |buffers| && j != i ==> buffers[j][..] == old(buffers[j][..])
    {
      hide Bits, Checks, DecodedTo, Capacity, Plan.Offset, Plan.Payload, Plan.Sent, Plan.SentBefore, Plan.Size;
      hide SchDecoder.Valid, BlockPoly, BlockSize, Accumulated;
      good, parity, rlen, nE, block := Turn(buffers[i], p, qm, rv, nofEBits, eBits, data, i, rp, wp, heads);
    }

    /** All blocks in turn, stopping at the first that fails. good tells whether none did; parity
        is what stood behind the data in the last block; blocks are those that were decoded. */
    method AllBlocks(buffers: seq<array<int>>, p: Plan, qm: nat, rv: nat, nofEBits: nat, eBits: seq<int>,
                     data: array<byte>) returns (good: bool, parity: seq<byte>, ghost blocks: seq<seq<bool>>)
      requires Valid() && p.Valid() && qm > 0 && rv < 4 && nofEBits <= |eBits|
      requires 1 <= p.c <= |buffers| && SoftBuffers(buffers, Scratch() + {data})
      requires data as object !in Scratch() && p.tbs / 8 <= data.Length
      modifies decoder`currentCbidx, decoder.dec.beta, decoder.llr1, decoder.llr2, decoder.w
      modifies decoder.syst, decoder.parity
      modifies cbIn, crcTb`crcinit, crcCb`crcinit, this`nofIterations, buffers, data
      ensures Valid() && |parity| == 3
      ensures RunIs(p, qm, nofEBits, rv, old(Contents(buffers)), Contents(buffers), eBits, decoder.forward,
                    decoder.reverse, maxIterations, blocks, good)
      ensures good ==> Bits(data[..p.tbs / 8] + parity) == Heads(p, blocks, p.c)
      ensures forall k :: p.tbs / 8 <= k < data.Length ==> data[k] == old(data[k])
    {
      hide Bits, CrcRegister.GoodPoly, RmTurboTables.Valid, CrcTable.Entry, Checks, Decoder.Valid, Accumulated;
      hide BlockSize, Capacity, Plan.Offset, Plan.Payload, Plan.Sent, Plan.SentBefore, Plan.Size, DecodedTo;
      hide BlockPoly, SchDecoder.Valid, Contents, Heads, BlockRun, RunIs, SoftBuffers, Scratch;
      ghost var w0 := Contents(buffers);
      var rp, wp := 0, 0;
      good, parity, blocks := true, [0, 0, 0], [];
      StartOfPlan(p, qm, nofEBits);
      NoHeads(p, data[..0]);
      var i := 0;
      while i < p.c && good
        invariant 0 <= i <= p.c && Valid() && |parity| == 3 && i == |blocks|
        invariant wp == p.Offset(i) && rp == p.SentBefore(qm, nofEBits, i)
        invariant forall j :: i <= j < |buffers| ==> buffers[j][..] == w0[j]
        invariant forall j :: 0 <= j < i ==>
                    BlockRun(p, qm, nofEBits, rv, w0, buffers[j][..], eBits, decoder.forward, decoder.reverse,
                             maxIterations, j, blocks[j])
        invariant forall j :: 0 <= j < i ==> (j + 1 < i || good ==> Checks(BlockPoly(p), blocks[j]))
        invariant !good ==> i > 0 && !Checks(BlockPoly(p), blocks[i - 1])
        invariant i < p.c ==> wp / 8 <= data.Length && Bits(data[..wp / 8]) == Heads(p, blocks, i)
        invariant i == p.c ==> Bits(data[..p.tbs / 8] + parity) == Heads(p, blocks, i)
        invariant forall k :: p.tbs / 8 <= k < data.Length ==> data[k] == old(data[k])
        decreases p.c - i
      {
        SentInside(p, qm, nofEBits, i);
        assert buffers[i][..] == w0[i];
        var rlen, nE;
        ghost var block;
        good, parity, rlen, nE, block :=
          TurnAt(buffers, p, qm, rv, nofEBits, eBits, data, i, rp, wp, Heads(p, blocks, i));
        BlockRunIs(p, qm, nofEBits, rv, w0, buffers[i][..], eBits, decoder.forward, decoder.reverse, maxIterations, i,
                   block);
        MoreHeads(p, blocks, block, i);
        blocks := blocks + [block];
        NextBlock(p, qm, nofEBits, i);
        wp, rp, i := wp + rlen, rp + nE, i + 1;
      }
      RunEnds(p, qm, nofEBits, rv, w0, Contents(buffers), eBits, decoder.forward, decoder.reverse, maxIterations,
              blocks, good);
    }

    /** decode_tb. Whatever is received, the soft buffers of the blocks decoded have taken it in and the
        blocks are what turbo decoding with early stopping makes of them; the blocks after one that
        fails are left alone. If none fails, received is what they spell, data and parity, and it is
        accepted exactly when the parity is that of the data and is not zero. */
    method DecodeTb(buffers: seq<array<int>>, p: Plan, fillers: nat, qm: nat, rv: nat, nofEBits: nat, eBits: seq<int>,
                    data: array<byte>, ghost tb: seq<bool>)
      returns (ret: int, ghost received: seq<bool>, ghost blocks: seq<seq<bool>>)
      requires Valid() && qm > 0 && nofEBits <= |eBits| && |tb| == p.tbs + 24
      requires p.tbs > 0 && fillers == 0 && p.c > 0 ==> p.Valid()
      requires SoftBuffers(buffers, Scratch() + {data}) && p.tbs / 8 <= data.Length
      requires data as object !in Scratch()
      modifies decoder`currentCbidx, decoder.dec.beta, decoder.llr1, decoder.llr2, decoder.w
      modifies decoder.syst, decoder.parity
      modifies cbIn, crcTb`crcinit, crcCb`crcinit, this`nofIterations, buffers, data
      ensures Valid()
      ensures p.tbs == 0 || p.c == 0 ==> ret == 0
      ensures p.tbs > 0 && p.c > 0 && (fillers > 0 || p.c > |buffers| || rv >= 4) ==> ret == -1
      ensures p.tbs == 0 || p.c == 0 || fillers > 0 || p.c > |buffers| || rv >= 4 ==>
                data[..] == old(data[..]) && Contents(buffers) == old(Contents(buffers))
      ensures p.tbs > 0 && p.c > 0 && fillers == 0 && p.c <= |buffers| && rv < 4 ==>
                var good := |blocks| == p.c && forall i :: 0 <= i < |blocks| ==> Checks(BlockPoly(p), blocks[i]);
                && RunIs(p, qm, nofEBits, rv, old(Contents(buffers)), Contents(buffers), eBits, decoder.forward,
                         decoder.reverse, maxIterations, blocks, good)
                && p.tbs % 8 == 0
                && (good ==> received == Heads(p, blocks, p.c) && |received| == p.tbs + 24)
                && (good ==> received[..p.tbs] == Bits(data[..p.tbs / 8]))
                && (ret == 0 <==> good && Checks(CRC24A, received) && !Checks(CRC24A, received[..p.tbs]))
                && (ret == 0 || ret == -1)
      ensures p.tbs > 0 && p.c > 0 && fillers == 0 && p.c <= |buffers| && rv < 4 ==>
                AllClean(p, tb, qm, nofEBits, rv, old(Contents(buffers)), eBits) && Checks(CRC24A, tb) ==>
                  && p.tbs % 8 == 0 && Bits(data[..p.tbs / 8]) == tb[..p.tbs]
                  && (ret == 0 <==> !Checks(CRC24A, tb[..p.tbs]))
      ensures forall k :: p.tbs / 8 <= k < data.Length ==> data[k] == old(data[k])
    {
      hide Bits, CrcRegister.GoodPoly, RmTurboTables.Valid, CrcTable.Entry, Checks, Decoder.Valid, BlockSize, Capacity;
      hide AllClean, Contents, SchDecoder.Valid, RunIs, Heads, BlockPoly;
      received, blocks := [], [];
      if p.tbs == 0 || p.c == 0 { ret := 0; return; }
      if fillers > 0 { ret := -1; return; }
      if p.c > |buffers| { ret := -1; return; }
      if rv >= 4 { ret := -1; return; }
      WholeBytes(p);
      ghost var w0 := Contents(buffers);
      var good, parity;
      good, parity, blocks := AllBlocks(buffers, p, qm, rv, nofEBits, eBits, data);
      received := Bits(data[..p.tbs / 8] + parity);
      BitsConcat(data[..p.tbs / 8], parity);
      RunGood(p, qm, nofEBits, rv, w0, Contents(buffers), eBits, decoder.forward, decoder.reverse, maxIterations,
              blocks, good);
      if AllClean(p, tb, qm, nofEBits, rv, w0, eBits) && Checks(CRC24A, tb) {
        DecoderValid();
        CleanRun(p, tb, qm, nofEBits, rv, w0, Contents(buffers), eBits, decoder, maxIterations, blocks, good);
      }
      ret := -1;
      if good {
        ret := Verdict(data, p.tbs, parity);
      }
    }

    lemma DecoderValid()
      requires Valid()
      ensures decoder.Valid()
    {
    }

    /** The closing test on the transport block parity. */
    method Verdict(data: array<byte>, tbs: nat, parity: seq<byte>) returns (ret: int)
      requires Valid() && |parity| == 3 && tbs % 8 == 0 && tbs / 8 <= data.Length
      modifies crcTb`crcinit
      ensures Valid()
      ensures var d := Bits(data[..tbs / 8]);
              ret == if Checks(CRC24A, d + Bits(parity)) && !Checks(CRC24A, d) then 0 else -1
    {
      hide Bits, CrcRegister.GoodPoly, RmTurboTables.Valid, CrcTable.Entry, Decoder.Valid, Crc.CheckBits;
      hide CrcRegister.Coefficients;
      hide CrcRegister.FeedBits, CrcRegister.Fits, JoinBytes;
      ghost var d := Bits(data[..tbs / 8]);
      var parRx := crcTb.ChecksumByte(data, tbs);
      var parTx := JoinBytes(parity[0], parity[1], parity[2]);
      ZeroChecks(parRx);
      JoinedBits(parity);
      ParityDecides(d, Bits(parity));
      if CrcRegister.Coefficients(24, parRx) == CrcRegister.Coefficients(24, parTx) {
        CrcRegister.CoefficientsDetermine(24, parRx, parTx);
      }
      ret := if parRx == parTx && parRx != 0 then 0 else -1;
    }
  }

  /** parity[0] << 16 | parity[1] << 8 | parity[2] */
  function JoinBytes(a: byte, b: byte, c: byte): CrcRegister.word {
    ((a as CrcRegister.word) << 16) | ((b as CrcRegister.word) << 8) | (c as CrcRegister.word)
  }

  lemma JoinedBits(parity: seq<byte>)
    requires |parity| == 3
    ensures var w := JoinBytes(parity[0], parity[1], parity[2]);
            CrcRegister.Fits(24, w) && CrcRegister.Coefficients(24, w) == Bits(parity)
  {
    JoinedBytes(parity[0], parity[1], parity[2]);
    hide JoinBytes, Crc.ByteAt, CrcRegister.Fits, CrcRegister.Coefficients, Bits;
    Crc.ChecksumBytes(24, JoinBytes(parity[0], parity[1], parity[2]), parity);
  }

  lemma JoinedBytes(a: byte, b: byte, c: byte)
    ensures var w := JoinBytes(a, b, c);
            CrcRegister.Fits(24, w) && Crc.ByteAt(w, 0) == c && Crc.ByteAt(w, 1) == b && Crc.ByteAt(w, 2) == a
  {
  }

  /** The parity is that of the data exactly when data and parity together check to zero. */
  lemma ParityDecides(d: seq<bool>, parity: seq<bool>)
    requires |parity| == 24
    ensures Checks(CRC24A, d + parity) <==> parity == Crc.CheckBits(24, CRC24A, d)
  {
    hide CrcRegister.GoodPoly, CrcRegister.Poly, Gf2Division.Remainder, Gf2Division.Generator;
    Crc.LtePolynomials();
    CrcRegister.PolyIsGenerator(24, CRC24A);
    Gf2Division.ChecksExactly(CrcRegister.Poly(24, CRC24A), 24, d, parity);
  }

  /** Zeros, however many, check to zero. */
  lemma ZerosCheck(n: nat)
    ensures Checks(CRC24A, Gf2Division.Zeros(n))
  {
    hide CrcRegister.GoodPoly, CrcRegister.Poly, Gf2Division.Generator, Gf2Division.FeedAll;
    Crc.LtePolynomials();
    CrcRegister.PolyIsGenerator(24, CRC24A);
    Gf2Division.ZerosKeep(CrcRegister.Poly(24, CRC24A), 24, Gf2Division.Zeros(24), n);
  }

  /** The data that DecodeTb refuses although it recovers them: bytes of zeros carry a parity of
      zeros, and check to zero with it and without it. */
  lemma ZeroDataRefused(n: nat)
    ensures var data := seq(n, _ => 0); var tb := WithParity(data);
            && tb == Gf2Division.Zeros(8 * n + 24) && Bits(data) == tb[..8 * n]
            && Checks(CRC24A, tb) && Checks(CRC24A, tb[..8 * n])
  {
    hide Checks, BitOf, Gf2Division.IsZero;
    var data: seq<byte> := seq(n, _ => 0);
    ZeroBits(data);
    ZerosCheck(8 * n);
    ZerosCheck(8 * n + 24);
    ZeroParity(8 * n);
    assert Gf2Division.Zeros(8 * n) + Gf2Division.Zeros(24) == Gf2Division.Zeros(8 * n + 24);
    assert Gf2Division.Zeros(8 * n + 24)[..8 * n] == Gf2Division.Zeros(8 * n);
  }

  lemma ZeroParity(n: nat)
    ensures Crc.CheckBits(24, CRC24A, Gf2Division.Zeros(n)) == Gf2Division.Zeros(24)
  {
    hide Crc.CheckBits;
    ZerosCheck(n);
    var c := Crc.CheckBits(24, CRC24A, Gf2Division.Zeros(n));
    forall k | 0 <= k < 24
      ensures c[k] == Gf2Division.Zeros(24)[k]
    {
      assert !c[k];
    }
  }

  lemma ZeroBits(data: seq<byte>)
    requires forall k :: 0 <= k < |data| ==> data[k] == 0
    ensures Bits(data) == Gf2Division.Zeros(8 * |data|)
  {
    hide BitOf;
    forall q | 0 <= q < 8 * |data|
      ensures Bits(data)[q] == Gf2Division.Zeros(8 * |data|)[q]
    {
      Crc.ZeroByte(q % 8);
    }
  }

  /** Such a block has a plan: two bytes in the smallest code block. */
  lemma ZeroBlockExists()
    ensures var p, tb := Plan(16, 1, 1, 0, 0, 0), Gf2Division.Zeros(40);
            && p.Valid() && |tb| == p.tbs + 24 && tb == WithParity([0, 0])
            && Checks(CRC24A, tb) && Checks(CRC24A, tb[..p.tbs])
  {
    hide Checks, WithParity, BitOf;
    ZeroDataRefused(2);
    assert seq(2, _ => 0 as byte) == [0, 0];
  }

  /** The values received for block i leave the soft buffer, w0 before, in support of its coded
      block, with every systematic bit covered. */
  ghost predicate ReceptionClean(p: Plan, tb: seq<bool>, i: nat, rv: nat, w0: seq<int>, values: seq<int>)
    requires p.Valid() && |tb| == p.tbs + 24 && i < p.c
  {
    ValuesClean(StreamLength(p.Idx(i)), p.Size(i), CodedBlockOf(p, tb, i), rv, w0, values)
  }

  /** The same for any coded block c of three streams of n symbols, k of them data. */
  ghost predicate ValuesClean(n: nat, k: nat, c: seq<bool>, rv: nat, w0: seq<int>, values: seq<int>)
    requires n > 0 && |c| == 3 * n
  {
    && 3 * n <= |w0|
    && forall m :: 0 <= m < 3 * n ==>
         var v := w0[m] + Arrived(n, rv, values, m, |values|);
         Favours(v, c[m]) && (IsSystematic(m, k) ==> v != 0)
  }

  lemma SizeIsStream(p: Plan, i: nat)
    requires p.Valid() && i < p.c
    ensures p.Idx(i) < NOF_TC_CB_SIZES && StreamLength(p.Idx(i)) == p.Size(i) + 4 && p.Size(i) == BlockSize(p.Idx(i))
  {
    hide BlockSize, Capacity;
  }

  /** The soft buffer w0 has taken in the values of one transmission. */
  ghost predicate Accumulated(n: nat, rv: nat, w0: seq<int>, w: seq<int>, values: seq<int>)
    requires n > 0
  {
    |w| == |w0| && forall m :: 0 <= m < |w| ==> w[m] == w0[m] + Arrived(n, rv, values, m, |values|)
  }

  /** bits is what block i is decoded to, from soft values w. */
  ghost predicate DecodedTo(w: seq<int>, p: Plan, i: nat, fs: seq<seq<nat>>, rs: seq<seq<nat>>, max: nat,
                            bits: seq<bool>)
    requires p.Valid() && i < p.c
  {
    && p.Idx(i) < |fs| && p.Idx(i) < |rs| && Inverses(fs[p.Idx(i)], rs[p.Idx(i)], p.Size(i))
    && 3 * p.Size(i) + 12 <= |w|
    && exists k: nat :: k >= 1 && Stops(w, p.Size(i), fs[p.Idx(i)], rs[p.Idx(i)], BlockPoly(p), max, k)
                        && bits == After(w, p.Size(i), fs[p.Idx(i)], rs[p.Idx(i)], k)
  }

  /** There is exactly one number of iterations after which decoding stops. */
  lemma StopsOnce(w: seq<int>, n: nat, fw: seq<nat>, rv: seq<nat>, poly: CrcRegister.word, max: nat, k: nat, k': nat)
    requires Inverses(fw, rv, n) && 3 * n + 12 <= |w| && k >= 1 && k' >= 1 && Stops(w, n, fw, rv, poly, max, k)
    ensures Stops(w, n, fw, rv, poly, max, k') <==> k' == k
  {
    hide After, Checks, Permutations.MutuallyInverse;
    assert k' < k ==> !Checks(poly, After(w, n, fw, rv, k'));
  }

  lemma DecodedOnce(w: seq<int>, p: Plan, i: nat, fs: seq<seq<nat>>, rs: seq<seq<nat>>, max: nat, bits: seq<bool>,
                    bits': seq<bool>)
    requires p.Valid() && i < p.c
    requires DecodedTo(w, p, i, fs, rs, max, bits) && DecodedTo(w, p, i, fs, rs, max, bits')
    ensures bits == bits'
  {
    hide Stops, After, Inverses, BlockSize, Capacity, Plan.Size, BlockPoly;
    var n, fw, rv, poly := p.Size(i), fs[p.Idx(i)], rs[p.Idx(i)], BlockPoly(p);
    var k: nat :| k >= 1 && Stops(w, n, fw, rv, poly, max, k) && bits == After(w, n, fw, rv, k);
    var k': nat :| k' >= 1 && Stops(w, n, fw, rv, poly, max, k') && bits' == After(w, n, fw, rv, k');
    StopsOnce(w, n, fw, rv, poly, max, k, k');
  }

  lemma AfterDecodes(w: seq<int>, p: Plan, i: nat, decoder: Decoder, max: nat, k: nat, bits: seq<bool>)
    requires p.Valid() && i < p.c && 3 * p.Size(i) + 12 <= |w| && k >= 1
    requires Tables(decoder, p.Idx(i), p.Size(i))
    requires var fw, rv := decoder.forward[p.Idx(i)], decoder.reverse[p.Idx(i)];
             Stops(w, p.Size(i), fw, rv, BlockPoly(p), max, k) && bits == After(w, p.Size(i), fw, rv, k)
    ensures DecodedTo(w, p, i, decoder.forward, decoder.reverse, max, bits)
  {
    hide Stops, After, BlockSize, Capacity, Plan.Size, BlockPoly;
  }

  /** Soft values in support of a block that checks are decoded to it, in the first iteration. */
  lemma CleanBlock(w: seq<int>, p: Plan, i: nat, decoder: Decoder, max: nat, bits: seq<bool>, msg: seq<bool>)
    requires p.Valid() && i < p.c && |msg| == p.Size(i) == BlockSize(p.Idx(i)) && decoder.Valid()
    requires DecodedTo(w, p, i, decoder.forward, decoder.reverse, max, bits)
    requires CleanSoft(w, Encoded(msg, p.Idx(i)), p.Size(i)) && Checks(BlockPoly(p), msg)
    ensures bits == msg
  {
    hide CleanSoft, Encoded, Checks, TurboInterleaver.QppTable, Permutations.MutuallyInverse, BlockPoly, Decisions;
    hide Apriori, Clean, Capacity, BlockSize, Converted, Plan.Size;
    var idx, n := p.Idx(i), p.Size(i);
    var fw, rv := decoder.forward[idx], decoder.reverse[idx];
    var k: nat :| k >= 1 && Stops(w, n, fw, rv, BlockPoly(p), max, k) && bits == After(w, n, fw, rv, k);
    DecoderTables(decoder, idx);
    ConvertedIsClean(w, msg, idx, rv);
    TurboRoundTrip(Converted(w[..3 * n + 12]), fw, rv, msg, 0);
    assert After(w, n, fw, rv, 1) == msg;
  }

  lemma DecoderTables(decoder: Decoder, idx: nat)
    requires decoder.Valid() && idx < NOF_TC_CB_SIZES
    ensures |decoder.forward| == |decoder.reverse| == NOF_TC_CB_SIZES
    ensures decoder.forward[idx] == TurboInterleaver.QppTable(idx)
    ensures Permutations.MutuallyInverse(TurboInterleaver.QppTable(idx), decoder.reverse[idx])
  {
    hide TurboInterleaver.QppTable, Permutations.MutuallyInverse;
  }

  lemma CombinedIsClean(p: Plan, tb: seq<bool>, i: nat, rv: nat, w0: seq<int>, values: seq<int>, w: seq<int>)
    requires p.Valid() && |tb| == p.tbs + 24 && i < p.c && 3 * StreamLength(p.Idx(i)) <= |w|
    requires ReceptionClean(p, tb, i, rv, w0, values) && Accumulated(StreamLength(p.Idx(i)), rv, w0, w, values)
    ensures CleanSoft(w, Encoded(p.Block(tb, i), p.Idx(i)), p.Size(i))
  {
    SizeIsStream(p, i);
    hide BlockSize, Capacity, Arrived, Encoded, Plan.Block, StreamLength, Plan.Size, Favours, IsSystematic;
  }

  /** The polynomial the blocks are checked with. */
  ghost function BlockPoly(p: Plan): CrcRegister.word {
    if p.c > 1 then CRC24B else CRC24A
  }

  /** Blocks cut from a transport block with a correct parity carry correct checksums. */
  lemma BlocksCheck(p: Plan, tb: seq<bool>, i: nat)
    requires p.Valid() && |tb| == p.tbs + 24 && i < p.c && Checks(CRC24A, tb)
    ensures Checks(BlockPoly(p), p.Block(tb, i))
  {
    hide BlockSize, Capacity, Crc.CheckBits;
    if p.c > 1 {
      Crc.LtePolynomials();
      Crc.AttachedChecks(24, CRC24B, p.Piece(tb, i));
    } else {
      p.PayloadsTile();
      assert p.Piece(tb, 0) == tb;
    }
  }

  lemma TablesAt(t: RmTurboTables, idx: nat)
    requires t.Valid() && idx < NOF_TC_CB_SIZES
    ensures t.ValidAt(idx)
  {
  }

  ghost predicate SoftBuffers(buffers: seq<array<int>>, others: set<object>) {
    && (forall i :: 0 <= i < |buffers| ==> buffers[i].Length >= 3 * (MAX_LEN_CB + 4) && buffers[i] as object !in others)
    && forall i, j :: 0 <= i < j < |buffers| ==> buffers[i] != buffers[j]
  }

  ghost function Contents(buffers: seq<array<int>>): (w: seq<seq<int>>)
    reads buffers
    ensures |w| == |buffers| && forall i :: 0 <= i < |w| ==> w[i] == buffers[i][..]
  {
    seq(|buffers|, i requires 0 <= i < |buffers| reads buffers => buffers[i][..])
  }

  /** Every block of the transport block is received in support of its coded block. */
  ghost predicate AllClean(p: Plan, tb: seq<bool>, qm: nat, g: nat, rv: nat, w: seq<seq<int>>, e: seq<int>)
    requires p.Valid() && |tb| == p.tbs + 24 && p.c <= |w| && qm > 0 && g <= |e|
  {
    forall i :: 0 <= i < p.c ==> BlockClean(p, tb, qm, g, rv, w, e, i)
  }

  ghost predicate BlockClean(p: Plan, tb: seq<bool>, qm: nat, g: nat, rv: nat, w: seq<seq<int>>, e: seq<int>, i: nat)
    requires p.Valid() && |tb| == p.tbs + 24 && i < p.c <= |w| && qm > 0 && g <= |e|
  {
    SentInside(p, qm, g, i);
    var start := p.SentBefore(qm, g, i);
    ReceptionClean(p, tb, i, rv, w[i], e[start..start + p.Sent(qm, g, i)])
  }

  lemma CleanAt(p: Plan, tb: seq<bool>, qm: nat, g: nat, rv: nat, w: seq<seq<int>>, e: seq<int>, i: nat)
    requires p.Valid() && |tb| == p.tbs + 24 && i < p.c <= |w| && qm > 0 && g <= |e|
    requires AllClean(p, tb, qm, g, rv, w, e)
    ensures p.SentBefore(qm, g, i) + p.Sent(qm, g, i) <= |e|
    ensures ReceptionClean(p, tb, i, rv, w[i], e[p.SentBefore(qm, g, i)..p.SentBefore(qm, g, i) + p.Sent(qm, g, i)])
  {
    hide ReceptionClean, Capacity, Plan.Sent, Plan.SentBefore;
    SentInside(p, qm, g, i);
    assert BlockClean(p, tb, qm, g, rv, w, e, i);
  }

  /** What happened to block i: its soft buffer, w0[i] before and w now, has taken in what was sent for
      it and was decoded to bits. */
  ghost predicate BlockRun(p: Plan, qm: nat, g: nat, rv: nat, w0: seq<seq<int>>, w: seq<int>, e: seq<int>,
                           fs: seq<seq<nat>>, rs: seq<seq<nat>>, max: nat, i: nat, bits: seq<bool>)
    requires p.Valid() && i < p.c <= |w0| && qm > 0 && g <= |e|
  {
    SentInside(p, qm, g, i);
    var start := p.SentBefore(qm, g, i);
    && |bits| == p.Size(i)
    && Accumulated(p.Size(i) + 4, rv, w0[i], w, e[start..start + p.Sent(qm, g, i)])
    && DecodedTo(w, p, i, fs, rs, max, bits)
  }

  lemma BlockRunIs(p: Plan, qm: nat, g: nat, rv: nat, w0: seq<seq<int>>, w: seq<int>, e: seq<int>,
                   fs: seq<seq<nat>>, rs: seq<seq<nat>>, max: nat, i: nat, bits: seq<bool>)
    requires p.Valid() && i < p.c <= |w0| && qm > 0 && g <= |e| && |bits| == p.Size(i)
    requires p.SentBefore(qm, g, i) + p.Sent(qm, g, i) <= |e| && DecodedTo(w, p, i, fs, rs, max, bits)
    requires var start := p.SentBefore(qm, g, i);
             Accumulated(p.Size(i) + 4, rv, w0[i], w, e[start..start + p.Sent(qm, g, i)])
    ensures BlockRun(p, qm, g, rv, w0, w, e, fs, rs, max, i, bits)
  {
    hide Accumulated, DecodedTo, Capacity, BlockSize, Plan.Sent, Plan.SentBefore, Plan.Size;
  }

  /** A run over the blocks: those up to the first that fails have been received and decoded, the
      buffers of the others are as before. */
  ghost predicate RunIs(p: Plan, qm: nat, g: nat, rv: nat, w0: seq<seq<int>>, w: seq<seq<int>>, e: seq<int>,
                        fs: seq<seq<nat>>, rs: seq<seq<nat>>, max: nat, blocks: seq<seq<bool>>, good: bool)
    requires p.Valid() && p.c <= |w0| && qm > 0 && g <= |e|
  {
    && |blocks| <= p.c && |w| == |w0|
    && (forall i :: 0 <= i < |blocks| ==> BlockRun(p, qm, g, rv, w0, w[i], e, fs, rs, max, i, blocks[i]))
    && (forall i :: |blocks| <= i < |w| ==> w[i] == w0[i])
    && (forall i :: 0 <= i < |blocks| - 1 ==> Checks(BlockPoly(p), blocks[i]))
    && (if good then |blocks| == p.c && forall i :: 0 <= i < |blocks| ==> Checks(BlockPoly(p), blocks[i])
        else |blocks| > 0 && !Checks(BlockPoly(p), blocks[|blocks| - 1]))
  }

  /** A run is determined by what is received: soft buffers, blocks and outcome. */
  lemma RunOnce(p: Plan, qm: nat, g: nat, rv: nat, w0: seq<seq<int>>, w: seq<seq<int>>, w': seq<seq<int>>, e: seq<int>,
                fs: seq<seq<nat>>, rs: seq<seq<nat>>, max: nat, blocks: seq<seq<bool>>, blocks': seq<seq<bool>>,
                good: bool, good': bool)
    requires p.Valid() && p.c <= |w0| && qm > 0 && g <= |e|
    requires RunIs(p, qm, g, rv, w0, w, e, fs, rs, max, blocks, good)
    requires RunIs(p, qm, g, rv, w0, w', e, fs, rs, max, blocks', good')
    ensures w == w' && blocks == blocks' && good == good'
  {
    hide BlockRun, Capacity, Checks, BlockPoly;
    forall i | 0 <= i < |blocks| && i < |blocks'|
      ensures w[i] == w'[i] && blocks[i] == blocks'[i]
    {
      BlockRunOnce(p, qm, g, rv, w0, w[i], w'[i], e, fs, rs, max, i, blocks[i], blocks'[i]);
    }
    assert |blocks| == |blocks'|;
  }

  lemma BlockRunOnce(p: Plan, qm: nat, g: nat, rv: nat, w0: seq<seq<int>>, w: seq<int>, w': seq<int>, e: seq<int>,
                     fs: seq<seq<nat>>, rs: seq<seq<nat>>, max: nat, i: nat, bits: seq<bool>, bits': seq<bool>)
    requires p.Valid() && i < p.c <= |w0| && qm > 0 && g <= |e|
    requires BlockRun(p, qm, g, rv, w0, w, e, fs, rs, max, i, bits)
    requires BlockRun(p, qm, g, rv, w0, w', e, fs, rs, max, i, bits')
    ensures w == w' && bits == bits'
  {
    hide DecodedTo, Arrived, Capacity, BlockSize, Plan.Sent, Plan.SentBefore, Plan.Size;
    assert w == w';
    DecodedOnce(w, p, i, fs, rs, max, bits, bits');
  }

  lemma RunEnds(p: Plan, qm: nat, g: nat, rv: nat, w0: seq<seq<int>>, w: seq<seq<int>>, e: seq<int>,
                fs: seq<seq<nat>>, rs: seq<seq<nat>>, max: nat, blocks: seq<seq<bool>>, good: bool)
    requires p.Valid() && 1 <= p.c <= |w0| && qm > 0 && g <= |e| && |blocks| <= p.c && |w| == |w0|
    requires forall i :: 0 <= i < |blocks| ==> BlockRun(p, qm, g, rv, w0, w[i], e, fs, rs, max, i, blocks[i])
    requires forall i :: |blocks| <= i < |w| ==> w[i] == w0[i]
    requires forall i :: 0 <= i < |blocks| ==> (i + 1 < |blocks| || good ==> Checks(BlockPoly(p), blocks[i]))
    requires !good ==> |blocks| > 0 && !Checks(BlockPoly(p), blocks[|blocks| - 1])
    requires good ==> |blocks| == p.c
    ensures RunIs(p, qm, g, rv, w0, w, e, fs, rs, max, blocks, good)
  {
    hide BlockRun, Capacity, Checks, BlockPoly;
  }

  lemma RunGood(p: Plan, qm: nat, g: nat, rv: nat, w0: seq<seq<int>>, w: seq<seq<int>>, e: seq<int>,
                fs: seq<seq<nat>>, rs: seq<seq<nat>>, max: nat, blocks: seq<seq<bool>>, good: bool)
    requires p.Valid() && p.c <= |w0| && qm > 0 && g <= |e| && RunIs(p, qm, g, rv, w0, w, e, fs, rs, max, blocks, good)
    ensures good <==> |blocks| == p.c && forall i :: 0 <= i < |blocks| ==> Checks(BlockPoly(p), blocks[i])
  {
    hide BlockRun, Capacity, Checks, BlockPoly;
  }

  /** The heads of the first n blocks, each without its own checksum, joined. */
  ghost function Heads(p: Plan, blocks: seq<seq<bool>>, n: nat): (h: seq<bool>)
    requires p.Valid() && n <= |blocks| && n <= p.c
  {
    if n == 0 then []
    else Heads(p, blocks, n - 1) + Head(blocks[n - 1], p.Payload(n - 1))
  }

  function Head(block: seq<bool>, n: nat): seq<bool> {
    if n <= |block| then block[..n] else block
  }

  lemma NoHeads(p: Plan, data: seq<byte>)
    requires p.Valid() && data == []
    ensures Bits(data) == Heads(p, [], 0)
  {
  }

  lemma {:induction false} SameHeads(p: Plan, blocks: seq<seq<bool>>, block: seq<bool>, n: nat)
    requires p.Valid() && n <= |blocks| && n <= p.c
    ensures Heads(p, blocks + [block], n) == Heads(p, blocks, n)
  {
    hide Capacity, Plan.Payload, Head;
    if n > 0 { SameHeads(p, blocks, block, n - 1); }
  }

  lemma MoreHeads(p: Plan, blocks: seq<seq<bool>>, block: seq<bool>, n: nat)
    requires p.Valid() && n == |blocks| < p.c && p.Payload(n) <= |block|
    ensures Heads(p, blocks + [block], n + 1) == Heads(p, blocks, n) + block[..p.Payload(n)]
  {
    hide Capacity, Plan.Payload;
    SameHeads(p, blocks, block, n);
  }

  /** The heads of the blocks of a transport block join to it. */
  lemma {:induction false} HeadsJoin(p: Plan, tb: seq<bool>, blocks: seq<seq<bool>>, n: nat)
    requires p.Valid() && |tb| == p.tbs + 24 && n <= |blocks| && n <= p.c
    requires forall i :: 0 <= i < n ==> blocks[i] == p.Block(tb, i)
    ensures Heads(p, blocks, n) == p.Joined(tb, n)
  {
    hide Capacity, Crc.CheckBits, Plan.Piece, Plan.Offset, Plan.Payload, Plan.Size;
    if n > 0 {
      HeadsJoin(p, tb, blocks, n - 1);
      HeadOfBlock(p, tb, n - 1);
    }
  }

  lemma HeadOfBlock(p: Plan, tb: seq<bool>, i: nat)
    requires p.Valid() && |tb| == p.tbs + 24 && i < p.c
    ensures Head(p.Block(tb, i), p.Payload(i)) == p.Piece(tb, i)
  {
    hide Capacity, Crc.CheckBits, Plan.Piece, Plan.Offset, Plan.Payload, Plan.Size;
  }

  /** A clean reception of every block of a transport block with a correct parity is a good run, and
      spells the transport block. */
  lemma CleanRun(p: Plan, tb: seq<bool>, qm: nat, g: nat, rv: nat, w0: seq<seq<int>>, w: seq<seq<int>>, e: seq<int>,
                 decoder: Decoder, max: nat, blocks: seq<seq<bool>>, good: bool)
    requires p.Valid() && |tb| == p.tbs + 24 && p.c <= |w0| && qm > 0 && g <= |e| && decoder.Valid()
    requires AllClean(p, tb, qm, g, rv, w0, e) && Checks(CRC24A, tb)
    requires RunIs(p, qm, g, rv, w0, w, e, decoder.forward, decoder.reverse, max, blocks, good)
    ensures good && Heads(p, blocks, p.c) == tb
  {
    hide AllClean, Checks, BlockRun, Capacity, BlockPoly, Plan.Block, Heads, Decoder.Valid;
    forall i | 0 <= i < |blocks|
      ensures blocks[i] == p.Block(tb, i) && Checks(BlockPoly(p), blocks[i])
    {
      CleanBlockRun(p, tb, qm, g, rv, w0, w[i], e, decoder, max, i, blocks[i]);
      BlocksCheck(p, tb, i);
    }
    HeadsJoin(p, tb, blocks, p.c);
    p.PiecesJoin(tb, p.c);
  }

  lemma CleanBlockRun(p: Plan, tb: seq<bool>, qm: nat, g: nat, rv: nat, w0: seq<seq<int>>, w: seq<int>, e: seq<int>,
                      decoder: Decoder, max: nat, i: nat, bits: seq<bool>)
    requires p.Valid() && |tb| == p.tbs + 24 && i < p.c <= |w0| && qm > 0 && g <= |e| && decoder.Valid()
    requires AllClean(p, tb, qm, g, rv, w0, e) && Checks(CRC24A, tb)
    requires BlockRun(p, qm, g, rv, w0, w, e, decoder.forward, decoder.reverse, max, i, bits)
    ensures bits == p.Block(tb, i)
  {
    hide AllClean, Checks, Capacity, BlockPoly, Plan.Block, Decoder.Valid, Accumulated, DecodedTo, CleanSoft, Encoded;
    hide ReceptionClean, Plan.Sent, Plan.SentBefore, BlockSize, StreamLength, Plan.Size;
    SizeIsStream(p, i);
    CleanAt(p, tb, qm, g, rv, w0, e, i);
    SoftLength(p, i, w, decoder, max, bits);
    var start := p.SentBefore(qm, g, i);
    CombinedIsClean(p, tb, i, rv, w0[i], e[start..start + p.Sent(qm, g, i)], w);
    BlocksCheck(p, tb, i);
    CleanBlock(w, p, i, decoder, max, bits, p.Block(tb, i));
  }

  lemma SoftLength(p: Plan, i: nat, w: seq<int>, decoder: Decoder, max: nat, bits: seq<bool>)
    requires p.Valid() && i < p.c && DecodedTo(w, p, i, decoder.forward, decoder.reverse, max, bits)
    ensures 3 * p.Size(i) + 12 <= |w|
  {
    hide Capacity, BlockSize;
  }

  lemma UnloadFits(p: Plan, i: nat)
    requires p.Valid() && i < p.c
    ensures var at, n := p.Offset(i) / 8, p.Payload(i) / 8;
            && p.Offset(i) == 8 * at && p.Payload(i) == 8 * n && n <= MAX_LEN_CB / 8
            && (i == p.c - 1 ==> n >= 3 && at + n == p.tbs / 8 + 3)
            && (i < p.c - 1 ==> at + n <= p.tbs / 8 && p.Offset(i + 1) == 8 * (at + n))
  {
    hide BlockSize, Capacity, Plan.Offset, Plan.Payload, Plan.Size;
    WholeBytes(p);
    p.BlockInside(i);
    if i < p.c - 1 { NotLast(p, i); }
  }

  /** The first n bytes of a decoded block hold its payload. */
  lemma BlockStarts(p: Plan, i: nat, cb: seq<byte>, n: nat)
    requires p.Valid() && i < p.c && p.Payload(i) == 8 * n && p.Size(i) / 8 <= |cb|
    ensures n <= p.Size(i) / 8 && |Bits(cb[..p.Size(i) / 8])| == p.Size(i)
    ensures Bits(cb[..n]) == Bits(cb[..p.Size(i) / 8])[..p.Payload(i)]
  {
    hide Bits, BlockSize, Capacity, Plan.Offset;
    var all := cb[..p.Size(i) / 8];
    hide Plan.Payload, Plan.Size;
    TurboEncoderLut.BitsHead(all, n);
    assert all[..n] == cb[..n];
  }

  // ---- from the sender to the receiver ----------------------------------------------------

  /** Soft values of the right sign for the bits sent for block i are a noise-free reception. */
  lemma SentIsClean(p: Plan, tb: seq<bool>, i: nat, rv: nat, bits: seq<bool>, start: nat, values: seq<int>)
    requires p.Valid() && |tb| == p.tbs + 24 && i < p.c && SentAt(p, tb, i, rv, bits, start, |values|)
    requires forall k :: 0 <= k < |values| ==> values[k] != 0 && Favours(values[k], bits[start + k])
    ensures CleanReception(StreamLength(p.Idx(i)), CodedBlockOf(p, tb, i), Reception(rv, values))
  {
    hide CodedBlockOf, StreamLength, TurboCircularBuffer.Sent, Favours;
    var n, c := StreamLength(p.Idx(i)), CodedBlockOf(p, tb, i);
    forall k | 0 <= k < |values|
      ensures values[k] != 0 && Favours(values[k], c[TurboCircularBuffer.Sent(n, rv, k)])
    {
      assert bits[start + k] == c[TurboCircularBuffer.Sent(n, rv, k)];
    }
  }

  /** Hybrid ARQ: when the soft buffer holds what arrived in noise-free receptions rs, whatever
      their versions and lengths, and with the present one every systematic bit has been sent at
      least once, the block is received clean. */
  lemma HarqClean(p: Plan, tb: seq<bool>, i: nat, rs: seq<Reception>, r: Reception, w0: seq<int>)
    requires p.Valid() && |tb| == p.tbs + 24 && i < p.c && 3 * StreamLength(p.Idx(i)) <= |w0|
    requires forall m :: 0 <= m < 3 * StreamLength(p.Idx(i)) ==> w0[m] == TotalArrived(StreamLength(p.Idx(i)), rs, m)
    requires forall k :: 0 <= k <= |rs| ==>
               CleanReception(StreamLength(p.Idx(i)), CodedBlockOf(p, tb, i), (rs + [r])[k])
    requires forall m :: 0 <= m < 3 * StreamLength(p.Idx(i)) && IsSystematic(m, p.Size(i)) ==>
               Covered(StreamLength(p.Idx(i)), rs + [r], m)
    ensures ReceptionClean(p, tb, i, r.rv, w0, r.values)
  {
    hide CodedBlockOf, StreamLength, Capacity, BlockSize, CleanReception, Covered, Plan.Size, ValuesClean, TotalArrived;
    SizeIsStream(p, i);
    HistoryClean(StreamLength(p.Idx(i)), p.Size(i), CodedBlockOf(p, tb, i), rs, r, w0);
  }

  lemma HistoryClean(n: nat, k: nat, c: seq<bool>, rs: seq<Reception>, r: Reception, w0: seq<int>)
    requires n > 0 && |c| == 3 * n <= |w0| && forall m :: 0 <= m < 3 * n ==> w0[m] == TotalArrived(n, rs, m)
    requires forall q :: 0 <= q <= |rs| ==> CleanReception(n, c, (rs + [r])[q])
    requires forall m :: 0 <= m < 3 * n && IsSystematic(m, k) ==> Covered(n, rs + [r], m)
    ensures ValuesClean(n, k, c, r.rv, w0, r.values)
  {
    hide Favours, CleanReception, Covered, Arrived, TotalArrived, IsSystematic;
    forall m | 0 <= m < 3 * n
      ensures var v := w0[m] + Arrived(n, r.rv, r.values, m, |r.values|);
              Favours(v, c[m]) && (IsSystematic(m, k) ==> v != 0)
    {
      OneMore(n, c, rs, r, m);
    }
  }

  lemma OneMore(n: nat, c: seq<bool>, rs: seq<Reception>, r: Reception, m: nat)
    requires n > 0 && |c| == 3 * n && m < 3 * n
    requires forall k :: 0 <= k < |rs + [r]| ==> CleanReception(n, c, (rs + [r])[k])
    ensures var v := TotalArrived(n, rs, m) + Arrived(n, r.rv, r.values, m, |r.values|);
            Favours(v, c[m]) && (Covered(n, rs + [r], m) ==> v != 0)
  {
    hide Favours, CleanReception, Covered, Arrived;
    var all := rs + [r];
    assert all[..|all| - 1] == rs && all[|all| - 1] == r;
    CleanTotals(n, c, all, m);
  }

  /** One noise-free transmission into empty soft buffers that sends every systematic bit. */
  lemma FirstTransmissionClean(p: Plan, tb: seq<bool>, qm: nat, g: nat, rv: nat, bits: seq<bool>, soft: seq<int>,
                               w: seq<seq<int>>)
    requires p.Valid() && |tb| == p.tbs + 24 && p.c <= |w| && qm > 0 && g <= |soft| == |bits|
    requires forall i :: 0 <= i < p.c ==> SentAt(p, tb, i, rv, bits, p.SentBefore(qm, g, i), p.Sent(qm, g, i))
    requires forall q :: 0 <= q < g ==> soft[q] != 0 && Favours(soft[q], bits[q])
    requires forall i :: 0 <= i < p.c ==>
               3 * StreamLength(p.Idx(i)) <= |w[i]| && forall m :: 0 <= m < |w[i]| ==> w[i][m] == 0
    requires forall i :: 0 <= i < p.c ==> SystematicSent(p, i, rv, p.Sent(qm, g, i))
    ensures AllClean(p, tb, qm, g, rv, w, soft)
  {
    hide SentAt, StreamLength, BlockClean, SystematicSent, Capacity, Plan.Sent, Plan.SentBefore, Favours, Plan.Idx;
    forall i | 0 <= i < p.c
      ensures BlockClean(p, tb, qm, g, rv, w, soft, i)
    {
      OneBlockClean(p, tb, qm, g, rv, bits, soft, w, i);
    }
  }

  lemma OneBlockClean(p: Plan, tb: seq<bool>, qm: nat, g: nat, rv: nat, bits: seq<bool>, soft: seq<int>,
                      w: seq<seq<int>>, i: nat)
    requires p.Valid() && |tb| == p.tbs + 24 && i < p.c <= |w| && qm > 0 && g <= |soft| == |bits|
    requires SentAt(p, tb, i, rv, bits, p.SentBefore(qm, g, i), p.Sent(qm, g, i))
    requires forall q :: 0 <= q < g ==> soft[q] != 0 && Favours(soft[q], bits[q])
    requires 3 * StreamLength(p.Idx(i)) <= |w[i]| && forall m :: 0 <= m < |w[i]| ==> w[i][m] == 0
    requires SystematicSent(p, i, rv, p.Sent(qm, g, i))
    ensures BlockClean(p, tb, qm, g, rv, w, soft, i)
  {
    hide SentAt, StreamLength, ReceptionClean, SystematicSent, CleanReception, Capacity, Plan.Sent, Plan.SentBefore;
    hide Favours, Plan.Idx;
    SentInside(p, qm, g, i);
    var start := p.SentBefore(qm, g, i);
    var values := soft[start..start + p.Sent(qm, g, i)];
    SentIsClean(p, tb, i, rv, bits, start, values);
    var r := Reception(rv, values);
    assert ([] + [r])[0] == r;
    SystematicCovered(p, i, r);
    HarqClean(p, tb, i, [], r, w[i]);
  }

  /** The first len bits of redundancy version rv include every systematic bit of block i. */
  ghost predicate SystematicSent(p: Plan, i: nat, rv: nat, len: nat)
    requires p.Valid() && i < p.c
  {
    SizeIsStream(p, i);
    forall m: nat :: m < 3 * StreamLength(p.Idx(i)) && IsSystematic(m, p.Size(i)) ==>
      exists k :: 0 <= k < len && TurboCircularBuffer.Sent(StreamLength(p.Idx(i)), rv, k) == m
  }

  lemma SystematicCovered(p: Plan, i: nat, r: Reception)
    requires p.Valid() && i < p.c && SystematicSent(p, i, r.rv, |r.values|)
    ensures forall m: nat :: m < 3 * StreamLength(p.Idx(i)) && IsSystematic(m, p.Size(i)) ==>
              Covered(StreamLength(p.Idx(i)), [] + [r], m)
  {
    hide StreamLength, TurboCircularBuffer.Sent, Plan.Idx, Capacity, IsSystematic, Covered;
    SizeIsStream(p, i);
    var n := StreamLength(p.Idx(i));
    forall m: nat | m < 3 * n && IsSystematic(m, p.Size(i))
      ensures Covered(n, [] + [r], m)
    {
      CoveredMeans(n, [] + [r], m);
      assert ([] + [r])[0] == r && Covers(n, r, m);
    }
  }

  /** A whole round of 3 n bits sends every coded bit, the systematic ones among them. */
  lemma RoundSendsSystematic(p: Plan, i: nat, rv: nat, len: nat)
    requires p.Valid() && i < p.c && len >= 3 * StreamLength(p.Idx(i))
    ensures SystematicSent(p, i, rv, len)
  {
    hide StreamLength, TurboCircularBuffer.Sent, Plan.Idx, Capacity, IsSystematic;
    SizeIsStream(p, i);
    var n := StreamLength(p.Idx(i));
    var order: seq<nat> := seq(3 * n, k requires 0 <= k < 3 * n => TurboCircularBuffer.Sent(n, rv, k));
    SentIsPermutation(n, rv);
    forall m: nat | m < 3 * n && IsSystematic(m, p.Size(i))
      ensures exists k :: 0 <= k < len && TurboCircularBuffer.Sent(n, rv, k) == m
    {
      Permutations.PermutationHits(order, m);
      var k :| 0 <= k < |order| && order[k] == m;
      assert TurboCircularBuffer.Sent(n, rv, k) == m;
    }
  }
}

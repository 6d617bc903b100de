/** The table-driven turbo rate matcher (srslte_rm_turbo_gentables and srslte_rm_turbo_tx_lut in
    srslte/lib/fec/rm_turbo.c), working on packed bits. */
module RateMatchTurboLut {
  import opened NumberTheory
  import opened CodeBlockSizes
  import opened CircularBuffer
  import opened SubBlock
  import opened TurboEncoder
  import opened TurboCircularBuffer
  import opened RateMatchTurboTx
  import opened RateMatchTurboTables
  import opened RateMatchTurboRx
  import opened Bytes
  import opened PackedBits

  const ERROR_INVALID_INPUTS := -2

  /** Symbols per stream of the coded block of size number idx. */
  function StreamLength(idx: nat): (n: nat)
    requires idx < NOF_TC_CB_SIZES
    ensures n > 0 && n % 8 == 4
  {
    BlockSize(idx) + 4
  }

  /** The static tables of all block sizes. */
  class RmTurboTables {
    var systematic: seq<seq<nat>>
    var parity: seq<seq<nat>>
    var k0: seq<seq<int>>
    var deinterleaver: seq<seq<seq<nat>>>

    ghost predicate ValidAt(idx: nat)
      requires idx < NOF_TC_CB_SIZES
      reads this
    {
      var n := StreamLength(idx);
      && idx < |systematic| && idx < |parity| && idx < |k0| && idx < |deinterleaver|
      && |systematic[idx]| == n && |parity[idx]| == 2 * n && |k0[idx]| == |deinterleaver[idx]| == 4
      && (forall m :: 0 <= m < n ==> systematic[idx][m] == TableEntry(n, m))
      && (forall m :: 0 <= m < 2 * n ==> parity[idx][m] == TableEntry(n, n + m))
      && (forall rv :: 0 <= rv < 4 ==> k0[idx][rv] == CompactStart(n, rv))
      && (forall rv :: 0 <= rv < 4 ==> IsReceiveTable(deinterleaver[idx][rv], n, rv))
    }

    ghost predicate Valid()
      reads this
    {
      forall idx :: 0 <= idx < NOF_TC_CB_SIZES ==> ValidAt(idx)
    }

    /** The transmit tables of one size. */
    static method TransmitTables(n: nat) returns (sys: seq<nat>, par: seq<nat>, k0v: seq<int>)
      requires n > 0
      ensures |sys| == n && |par| == 2 * n && |k0v| == 4
      ensures forall m :: 0 <= m < n ==> sys[m] == TableEntry(n, m)
      ensures forall m :: 0 <= m < 2 * n ==> par[m] == TableEntry(n, n + m)
      ensures forall rv :: 0 <= rv < 4 ==> k0v[rv] == CompactStart(n, rv)
    {
      var s, p, k := new nat[n](_ => 0), new nat[2 * n](_ => 0), new int[4](_ => -1);
      GenTableSystematic(s, k, n);
      sys := s[..];
      SystematicGenerated(n, sys, k[..]);
      GenTableParity(p, k, n);
      par, k0v := p[..], k[..];
      ParityGenerated(n, par, k0v);
    }

    /** The four receive tables of one size. */
    static method ReceiveTables(n: nat) returns (tables: seq<seq<nat>>)
      requires n > 0
      ensures |tables| == 4
      ensures forall rv :: 0 <= rv < 4 ==> IsReceiveTable(tables[rv], n, rv)
    {
      tables := [];
      var temp1, temp2 := new nat[3 * n], new nat[3 * Padded(n)];
      for rv := 0 to 4
        invariant |tables| == rv
        invariant forall r :: 0 <= r < rv ==> IsReceiveTable(tables[r], n, r)
      {
        hide Sent;
        var table := new nat[3 * n];
        GenTableReceive(table, temp1, temp2, n, rv);
        tables := tables + [table[..]];
      }
    }

    /** srslte_rm_turbo_gentables */
    constructor ()
      ensures Valid()
    {
      systematic, parity, k0, deinterleaver := [], [], [], [];
      new;
      hide StreamLength, TableEntry, CompactStart, IsReceiveTable;
      for idx := 0 to NOF_TC_CB_SIZES
        invariant |systematic| == |parity| == |k0| == |deinterleaver| == idx
        invariant forall i :: 0 <= i < idx ==> ValidAt(i)
      {
        var cbLen := CbSize(idx);
        var n := (3 * cbLen + 12) / 3;
        assert n == StreamLength(idx) by { SameLength(idx); }
        var s, p, k := TransmitTables(n);
        var d := ReceiveTables(n);
        label Before:
        systematic, parity, k0, deinterleaver := systematic + [s], parity + [p], k0 + [k], deinterleaver + [d];
        forall i | 0 <= i < idx
          ensures ValidAt(i)
        {
          assert old@Before(ValidAt(i));
        }
      }
    }

    static lemma SameLength(idx: nat)
      requires idx < NOF_TC_CB_SIZES
      ensures (3 * BlockSize(idx) + 12) / 3 == StreamLength(idx)
    {
    }
  }

  /** The table of redundancy version rv lists the coded symbols in the order they are sent. */
  ghost predicate IsReceiveTable(t: seq<nat>, n: nat, rv: nat)
    requires n > 0
  {
    |t| == 3 * n && forall k :: 0 <= k < 3 * n ==> t[k] == Sent(n, rv, k)
  }

  lemma SystematicGenerated(n: nat, sys: seq<nat>, k0v: seq<int>)
    requires n > 0 && Generated(n, sys, 0, k0v, Padded(n)) && |Kept(Occupied(n), Padded(n))| == n
    ensures Generated(n, [], n, k0v, Padded(n))
    ensures |sys| >= n && forall m :: 0 <= m < n ==> sys[m] == TableEntry(n, m)
  {
    hide TableEntry, Kept, Occupied;
    forall m | 0 <= m < n
      ensures m < |sys| && sys[m] == TableEntry(n, m)
    {
      assert EntryReady(n, sys, 0, m);
    }
    assert EntryReady(n, sys, 0, n - 1);
  }

  lemma ParityGenerated(n: nat, par: seq<nat>, k0v: seq<int>)
    requires n > 0 && |par| == 2 * n && Generated(n, par, n, k0v, 3 * Padded(n))
    ensures forall m :: 0 <= m < 2 * n ==> par[m] == TableEntry(n, n + m)
    ensures |k0v| == 4 && forall rv :: 0 <= rv < 4 ==> k0v[rv] == CompactStart(n, rv)
  {
    TotalIsLength(n);
    forall rv | 0 <= rv < 4
      ensures k0v[rv] == CompactStart(n, rv)
    {
      K0Complete(n, rv);
    }
    hide TableEntry, Kept, Occupied;
    forall m | 0 <= m < 2 * n
      ensures par[m] == TableEntry(n, n + m)
    {
      assert EntryReady(n, par, n, n + m);
    }
  }

  // ---- transmission -----------------------------------------------------------------------

  /** The coded block whose three streams are the packed systematic and parity bits. */
  function CodedBlock(sys: seq<bool>, par: seq<bool>, n: nat): (x: seq<bool>)
    requires n <= |sys| && 2 * n <= |par|
    ensures |x| == 3 * n
  {
    Merge3(sys[..n], par[..n], par[n..2 * n])
  }

  /** Packed buffer w holds coded block x without its dummies. */
  ghost predicate Squeezed(w: seq<bool>, x: seq<bool>, n: nat)
    requires n > 0 && |x| == 3 * n
  {
    3 * n <= |w| && forall m :: 0 <= m < 3 * n ==> w[m] == x[Compact(n, m)]
  }

  /** A symbol's place in the coded block, from its table entry. */
  lemma EntryIsSymbol(sys: seq<bool>, par: seq<bool>, n: nat, m: nat)
    requires n > 0 && n <= |sys| && 2 * n <= |par| && m < 3 * n
    ensures m < n ==> TableEntry(n, m) < n && sys[TableEntry(n, m)] == CodedBlock(sys, par, n)[Compact(n, m)]
    ensures m >= n ==> TableEntry(n, m) < 2 * n && par[TableEntry(n, m)] == CodedBlock(sys, par, n)[Compact(n, m)]
  {
    CompactStream(n, m);
    hide Compact;
    var c, t := Compact(n, m), Compact(n, m) / 3;
    assert c == 3 * t + c % 3;
    Merge3At(sys[..n], par[..n], par[n..2 * n], t);
  }

  /** Sub-block interleaving and bit collection of the table version. */
  method FillSqueezed(wBuff: array<byte>, systematic: array<byte>, parity: array<byte>, tables: RmTurboTables,
                      cbIdx: nat)
    requires cbIdx < NOF_TC_CB_SIZES && tables.ValidAt(cbIdx)
    requires wBuff != systematic && wBuff != parity
    requires var n := StreamLength(cbIdx);
             3 * n <= 8 * wBuff.Length && n <= 8 * systematic.Length && 2 * n <= 8 * parity.Length
    modifies wBuff
    ensures var n := StreamLength(cbIdx);
            Squeezed(Bits(wBuff[..]), CodedBlock(Bits(systematic[..]), Bits(parity[..]), n), n)
  {
    hide Bits, TableEntry, CodedBlock, Compact, Squeezed, BlockSize;
    var inLen := 3 * StreamLength(cbIdx);
    ParityStart(cbIdx);
    ghost var n, s, p := StreamLength(cbIdx), Bits(systematic[..]), Bits(parity[..]);
    EntriesBelow(n);
    BitInterleave(systematic, wBuff, 0, tables.systematic[cbIdx], inLen / 3);
    ghost var w1 := Bits(wBuff[..]);
    BitInterleave(parity, wBuff, 8 * (inLen / 24) + 4, tables.parity[cbIdx], 2 * inLen / 3);
    SqueezedFromParts(w1, Bits(wBuff[..]), s, p, n, tables.systematic[cbIdx], tables.parity[cbIdx]);
  }

  /** The parity bits start in the middle of a byte. */
  lemma ParityStart(idx: nat)
    requires idx < NOF_TC_CB_SIZES
    ensures 8 * (3 * StreamLength(idx) / 24) + 4 == StreamLength(idx) > 0
  {
  }

  lemma EntriesBelow(n: nat)
    requires n > 0
    ensures forall m :: 0 <= m < n ==> TableEntry(n, m) < n
    ensures forall m :: n <= m < 3 * n ==> TableEntry(n, m) < 2 * n
  {
    hide Compact;
    forall m | 0 <= m < 3 * n
      ensures TableEntry(n, m) < if m < n then n else 2 * n
    {
      CompactStream(n, m);
    }
  }

  /** Gathering the two packed streams through the tables gives the squeezed buffer. */
  lemma SqueezedFromParts(w1: seq<bool>, w2: seq<bool>, s: seq<bool>, p: seq<bool>, n: nat, sys: seq<nat>,
                          par: seq<nat>)
    requires 0 < n <= |s| && 2 * n <= |p| && 3 * n <= |w1| == |w2| && |sys| == n && |par| == 2 * n
    requires forall m :: 0 <= m < n ==> sys[m] == TableEntry(n, m) < |s|
    requires forall m :: 0 <= m < 2 * n ==> par[m] == TableEntry(n, n + m) < |p|
    requires forall b :: 0 <= b < n ==> w1[0 + b] == s[sys[b]]
    requires forall b :: 0 <= b < 2 * n ==> w2[n + b] == p[par[b]]
    requires forall q :: 0 <= q < n ==> w2[q] == w1[q]
    ensures Squeezed(w2, CodedBlock(s, p, n), n)
  {
    hide TableEntry, CodedBlock, Compact;
    forall m | 0 <= m < 3 * n
      ensures w2[m] == CodedBlock(s, p, n)[Compact(n, m)]
    {
      EntryIsSymbol(s, p, n, m);
      if m < n {
        assert w2[m] == w1[0 + m] == s[sys[m]];
      } else {
        assert w2[n + (m - n)] == p[par[m - n]];
      }
    }
  }

  /** The copy loop of srslte_rm_turbo_tx_lut: outLen bits of wBuff from start on, going round. */
  method CopyRound(wBuff: array<byte>, output: array<byte>, outLen: nat, wOffset: nat, start: nat, inLen: nat)
    requires start < inLen <= 8 * wBuff.Length && wOffset + outLen <= 8 * output.Length && wBuff != output
    modifies output
    ensures forall k :: 0 <= k < outLen ==>
              Bits(output[..])[wOffset + k] == Bits(wBuff[..])[Round(start, k, inLen)]
    ensures forall q :: 0 <= q < wOffset ==> Bits(output[..])[q] == old(Bits(output[..]))[q]
  {
    hide Bits, Round;
    ghost var wb, w := wBuff[..], Bits(wBuff[..]);
    var wLen, rPtr := 0, start;
    assert Round(start, 0, inLen) == start by { SmallRound(start, inLen); }
    while wLen < outLen
      invariant 0 <= wLen <= outLen && wBuff[..] == wb
      invariant 0 <= rPtr < inLen && rPtr == Round(start, wLen, inLen)
      invariant forall q :: wOffset <= q < wOffset + wLen ==> Bits(output[..])[q] == w[Round(start, q - wOffset, inLen)]
      invariant forall q :: 0 <= q < wOffset ==> Bits(output[..])[q] == old(Bits(output[..]))[q]
    {
      var cpLen := outLen - wLen;
      if cpLen + rPtr >= inLen {
        cpLen := inLen - rPtr;
      }
      BitCopy(output, wLen + wOffset, wBuff, rPtr, cpLen);
      AdvanceRead(start, wLen, rPtr, cpLen, inLen);
      rPtr := rPtr + cpLen;
      if rPtr >= inLen {
        rPtr := rPtr - inLen;
      }
      wLen := wLen + cpLen;
    }
    forall k | 0 <= k < outLen
      ensures Bits(output[..])[wOffset + k] == w[Round(start, k, inLen)]
    {
      assert wOffset + k - wOffset == k;
    }
  }

  lemma SmallRound(start: nat, t: nat)
    requires start < t
    ensures Round(start, 0, t) == start
  {
    SmallMod(start, t);
  }

  /** srslte_rm_turbo_tx_lut: bit k of the output is the symbol that stands k places after the
      start of the redundancy version in the squeezed buffer, going round. */
  method RmTurboTxLut(wBuff: array<byte>, systematic: array<byte>, parity: array<byte>, output: array<byte>,
                      cbIdx: nat, outLen: nat, wOffset: nat, rvIdx: nat, tables: RmTurboTables) returns (ret: int)
    requires cbIdx < NOF_TC_CB_SIZES && rvIdx < 4 ==>
               && tables.ValidAt(cbIdx)
               && var n := StreamLength(cbIdx);
                  3 * n <= 8 * wBuff.Length && n <= 8 * systematic.Length && 2 * n <= 8 * parity.Length
    requires wBuff != systematic && wBuff != parity && wBuff != output && output != systematic && output != parity
    requires wOffset + outLen <= 8 * output.Length
    modifies wBuff, output
    ensures ret == if rvIdx < 4 && cbIdx < NOF_TC_CB_SIZES then 0 else ERROR_INVALID_INPUTS
    ensures ret == 0 && rvIdx == 0 ==>
              var n := StreamLength(cbIdx);
              Squeezed(Bits(wBuff[..]), CodedBlock(Bits(systematic[..]), Bits(parity[..]), n), n)
    ensures ret != 0 || rvIdx != 0 ==> wBuff[..] == old(wBuff[..])
    ensures ret != 0 ==> output[..] == old(output[..])
    ensures ret == 0 ==>
              var n := StreamLength(cbIdx);
              forall k :: 0 <= k < outLen ==>
                Bits(output[..])[wOffset + k] == Bits(wBuff[..])[Round(CompactStart(n, rvIdx), k, 3 * n)]
    ensures forall q :: 0 <= q < wOffset ==> Bits(output[..])[q] == old(Bits(output[..]))[q]
  {
    hide Bits, TableEntry, CodedBlock, CompactStart, Squeezed;
    if rvIdx < 4 && cbIdx < NOF_TC_CB_SIZES {
      if rvIdx == 0 {
        FillSqueezed(wBuff, systematic, parity, tables, cbIdx);
      }
      K0Complete(StreamLength(cbIdx), rvIdx);
      CopyRound(wBuff, output, outLen, wOffset, tables.k0[cbIdx][rvIdx], 3 * StreamLength(cbIdx));
      return 0;
    } else {
      return ERROR_INVALID_INPUTS;
    }
  }

  /** A run of cpLen bits from rPtr on, not past the end, is what the next cpLen places hold. */
  lemma AdvanceRead(start: nat, done: nat, rPtr: nat, cpLen: nat, inLen: nat)
    requires inLen > 0 && rPtr == Round(start, done, inLen) && rPtr + cpLen <= inLen
    ensures forall k :: done <= k < done + cpLen ==> Round(start, k, inLen) == rPtr + (k - done)
    ensures Round(start, done + cpLen, inLen) == if rPtr + cpLen >= inLen then rPtr + cpLen - inLen else rPtr + cpLen
  {
    var q := (start + done) / inLen;
    assert start + done == inLen * q + rPtr;
    forall k | done <= k < done + cpLen
      ensures Round(start, k, inLen) == rPtr + (k - done)
    {
      ModUnique(start + k, inLen, q, rPtr + (k - done));
    }
    if rPtr + cpLen == inLen {
      assert start + done + cpLen == inLen * (q + 1);
      ModUnique(start + done + cpLen, inLen, q + 1, 0);
    } else {
      ModUnique(start + done + cpLen, inLen, q, rPtr + cpLen);
    }
  }

  /** The table version refines the direct one: once w was filled from coded block x, the bit it
      puts in place k is the symbol the direct matcher transmits k-th, for every redundancy
      version and length. */
  lemma LutRefinesDirect(w: seq<bool>, x: seq<bool>, n: nat, rv: nat, k: nat)
    requires n > 0 && rv < 4 && |x| == 3 * n && Squeezed(w, x, n)
    ensures w[Round(CompactStart(n, rv), k, 3 * n)] == x[Sent(n, rv, k)]
    ensures Total(NonNull(Collected(TxBits(x), n))) == 3 * n
    ensures Transmitted(Collected(TxBits(x), n), n, rv, k) == Bit(w[Round(CompactStart(n, rv), k, 3 * n)])
  {
    CompactSends(n, rv, k);
    TransmittedIsSent(TxBits(x), n, rv, k);
  }

  /** The three builds of the receive loop: one value at a time, or in vectors of 8 or 16. */
  datatype Lanes = Scalar | Sse | Avx

  /** srslte_rm_turbo_rx_lut: checks version and size number, then adds every received value to the entry the
      receive table names for it. */
  method RmTurboRxLut(input: seq<int>, output: array<int>, inLen: nat, cbIdx: nat, rvIdx: nat, lanes: Lanes,
                      tables: RmTurboTables) returns (ret: int)
    requires inLen <= |input|
    requires cbIdx < NOF_TC_CB_SIZES && rvIdx < 4 ==> tables.ValidAt(cbIdx) && 3 * StreamLength(cbIdx) <= output.Length
    modifies output
    ensures ret == if rvIdx < 4 && cbIdx < NOF_TC_CB_SIZES then 0 else ERROR_INVALID_INPUTS
    ensures ret != 0 ==> output[..] == old(output[..])
    ensures ret == 0 ==>
              && IsReceiveTable(tables.deinterleaver[cbIdx][rvIdx], StreamLength(cbIdx), rvIdx)
              && Combined(old(output[..]), output[..], tables.deinterleaver[cbIdx][rvIdx], input, inLen)
  {
    hide Combined, IsReceiveTable, BlockSize;
    if rvIdx < 4 && cbIdx < NOF_TC_CB_SIZES {
      var deinter := tables.deinterleaver[cbIdx][rvIdx];
      ReceiveTableBounds(deinter, StreamLength(cbIdx), rvIdx);
      match lanes {
        case Scalar => RxLutScalar(input, output, inLen, deinter);
        case Sse => RxLutSimd(input, output, inLen, deinter, 8);
        case Avx => RxLutSimd(input, output, inLen, deinter, 16);
      }
      return 0;
    } else {
      return ERROR_INVALID_INPUTS;
    }
  }

  lemma ReceiveTableBounds(t: seq<nat>, n: nat, rv: nat)
    requires n > 0 && IsReceiveTable(t, n, rv)
    ensures |t| == 3 * n && forall k :: 0 <= k < 3 * n ==> t[k] == Sent(n, rv, k) < 3 * n
  {
    hide Sent;
  }
}

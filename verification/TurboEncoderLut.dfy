/** The byte-table turbo encoder (srslte_tcod_gentable and srslte_tcod_encode_lut in
    srslte/lib/fec/turbocoder.c). */
module TurboEncoderLut {
  import opened Bytes
  import opened PackedBits
  import opened Trellis
  import opened Permutations
  import opened CodeBlockSizes
  import opened TurboInterleaver
  import opened TurboEncoder

  // ---- the tables -------------------------------------------------------------------------

  /** Row of the output table: for every input byte, the parity byte from state s. */
  ghost predicate IsOutputRow(row: seq<byte>, s: State) {
    |row| == 256 && forall d: nat :: d < 256 ==> UnpackByte(row[d]) == Parities(s, UnpackByte(ByteOf(d)))
  }

  /** Row of the next-state table: the number of the state eight clocks later. */
  ghost predicate IsNextRow(row: seq<nat>, s: State) {
    |row| == 256 && forall d: nat :: d < 256 ==> row[d] == Index(Run(s, UnpackByte(ByteOf(d))))
  }

  ghost predicate AreTables(outputs: seq<seq<byte>>, nexts: seq<seq<nat>>) {
    && |outputs| == |nexts| == 8
    && forall s: nat {:trigger outputs[s]} {:trigger nexts[s]} :: s < 8 ==>
         IsOutputRow(outputs[s], StateAt(s)) && IsNextRow(nexts[s], StateAt(s))
  }

  function ByteOf(d: nat): byte {
    if d < 256 then d as byte else 0
  }

  lemma ByteOfNat(b: byte)
    ensures (b as nat) < 256 && ByteOf(b as nat) == b
  {
  }

  /** The eight clocks of one table entry. */
  method Eight(state: nat, data: byte) returns (output: byte, next: nat)
    requires state < 8
    ensures UnpackByte(output) == Parities(StateAt(state), UnpackByte(data))
    ensures next == Index(Run(StateAt(state), UnpackByte(data)))
  {
    hide UnpackByte, BitOf, Bytes.Mask, SetMask, Next, Parity;
    var reg := StateAt(state);
    ghost var s, bits, p := StateAt(state), UnpackByte(data), Parities(StateAt(state), UnpackByte(data));
    output := 0;
    forall j | 0 <= j < 8 ensures !BitOf(0, j) { ZeroBits(j); }
    for i := 0 to 8
      invariant reg == Run(s, bits[..i])
      invariant forall j :: 0 <= j < 8 ==> BitOf(output, j) == (j < i && p[j])
    {
      RunStep(s, bits, i);
      UnpackAt(data, i);
      var bit := BitOf(data, i);
      var out;
      out, reg := Clock(reg, bit);
      if out {
        forall j | 0 <= j < 8
          ensures BitOf(SetBit(output, i, true), j) == (j < i + 1 && p[j])
        {
          SetBitSpec(output, i, true, j);
        }
        OrIsSet(output, i);
        output := output | Bytes.Mask(i);
      }
    }
    assert bits[..8] == bits;
    next := (if reg.r0 then 4 else 0) + (if reg.r1 then 2 else 0) + (if reg.r2 then 1 else 0);
    forall j | 0 <= j < 8
      ensures UnpackByte(output)[j] == p[j]
    {
      UnpackAt(output, j);
    }
  }

  lemma ZeroBits(j: nat)
    requires j < 8
    ensures !BitOf(0, j)
  {
  }

  lemma OrIsSet(b: byte, k: nat)
    requires k < 8
    ensures SetBit(b, k, true) == b | Bytes.Mask(k)
  {
    hide Bytes.Mask;
  }

  /** One row of both state tables. */
  method Rows(state: nat) returns (outputs: seq<byte>, nexts: seq<nat>)
    requires state < 8
    ensures IsOutputRow(outputs, StateAt(state)) && IsNextRow(nexts, StateAt(state))
  {
    hide UnpackByte, Parities, Run, ByteOf, Index, StateAt;
    outputs, nexts := [], [];
    for data := 0 to 256
      invariant |outputs| == |nexts| == data
      invariant forall d: nat :: d < data ==> UnpackByte(outputs[d]) == Parities(StateAt(state), UnpackByte(ByteOf(d)))
      invariant forall d: nat :: d < data ==> nexts[d] == Index(Run(StateAt(state), UnpackByte(ByteOf(d))))
    {
      var output, next := Eight(state, ByteOf(data));
      outputs, nexts := outputs + [output], nexts + [next];
    }
  }

  /** The state transition part of srslte_tcod_gentable, the same for every block size. */
  method StateTables() returns (outputs: seq<seq<byte>>, nexts: seq<seq<nat>>)
    ensures AreTables(outputs, nexts)
  {
    hide IsOutputRow, IsNextRow, StateAt;
    outputs, nexts := [], [];
    for state := 0 to 8
      invariant |outputs| == |nexts| == state
      invariant forall s: nat {:trigger outputs[s]} {:trigger nexts[s]} :: s < state ==>
                  IsOutputRow(outputs[s], StateAt(s)) && IsNextRow(nexts[s], StateAt(s))
    {
      var o, n := Rows(state);
      outputs, nexts := outputs + [o], nexts + [n];
    }
  }

  // ---- nibbles ----------------------------------------------------------------------------

  predicate LowClear(b: byte) {
    b & 0x0f == 0
  }

  /** b | ((out & 0xf0) >> 4) */
  function OrHigh(b: byte, out: byte): byte {
    b | ((out & 0xf0) >> 4)
  }

  /** (out & 0xf) << 4 */
  function LowUp(out: byte): byte {
    (out & 0xf) << 4
  }

  lemma OrHighBits(b: byte, out: byte, j: nat)
    requires LowClear(b) && j < 8
    ensures BitOf(OrHigh(b, out), j) == if j < 4 then BitOf(b, j) else BitOf(out, j - 4)
  {
  }

  lemma LowUpBits(out: byte, j: nat)
    requires j < 8
    ensures BitOf(LowUp(out), j) == (j < 4 && BitOf(out, j + 4))
    ensures LowClear(LowUp(out))
  {
  }

  function Up(v: byte): byte {
    v << 4
  }

  function Low(v: byte): byte {
    v & 0xf
  }

  /** srslte_bit_pack of four bits */
  function PackNibble(a: bool, b: bool, c: bool, d: bool): byte {
    (if a then 8 else 0) | (if b then 4 else 0) | (if c then 2 else 0) | (if d then 1 else 0)
  }

  /** The four bits stand in the upper nibble, the lower one is clear. */
  predicate Upper(v: byte, a: bool, b: bool, c: bool, d: bool) {
    && BitOf(v, 0) == a && BitOf(v, 1) == b && BitOf(v, 2) == c && BitOf(v, 3) == d
    && !BitOf(v, 4) && !BitOf(v, 5) && !BitOf(v, 6) && !BitOf(v, 7)
  }

  predicate Lower(v: byte, a: bool, b: bool, c: bool, d: bool) {
    && !BitOf(v, 0) && !BitOf(v, 1) && !BitOf(v, 2) && !BitOf(v, 3)
    && BitOf(v, 4) == a && BitOf(v, 5) == b && BitOf(v, 6) == c && BitOf(v, 7) == d
  }

  lemma NibbleBits(a: bool, b: bool, c: bool, d: bool)
    ensures Upper(Up(PackNibble(a, b, c, d)), a, b, c, d)
    ensures Lower(Low(PackNibble(a, b, c, d)), a, b, c, d)
  {
  }

  function Or(x: byte, y: byte): byte {
    x | y
  }

  lemma OrBits(x: byte, y: byte, j: nat)
    requires j < 8
    ensures BitOf(Or(x, y), j) == (BitOf(x, j) || BitOf(y, j))
  {
  }

  // ---- the encoder ------------------------------------------------------------------------

  lemma BitsOfHead(a: seq<byte>, n: nat, q: nat)
    requires n <= |a| && q < 8 * n
    ensures Bits(a[..n])[q] == Bits(a)[q]
  {
    hide BitOf;
  }

  /** Feeding one more byte to a constituent encoder. */
  lemma FeedByte(a: seq<byte>, b: byte)
    ensures Run(ZERO, Bits(a + [b])) == Run(Run(ZERO, Bits(a)), UnpackByte(b))
    ensures Parities(ZERO, Bits(a + [b])) == Parities(ZERO, Bits(a)) + Parities(Run(ZERO, Bits(a)), UnpackByte(b))
  {
    hide Bits, UnpackByte;
    BitsAppend(a, b);
    RunAppend(ZERO, Bits(a), UnpackByte(b));
  }

  /** The first 8 i bits of the second parity stream p2 stand four bits behind byte b of par; the
      four bits before them and the rest of the current byte are clear. */
  ghost predicate Shifted(par: seq<byte>, b: nat, i: nat, p2: seq<bool>) {
    && b + i < |par| && 8 * i <= |p2|
    && (forall q :: 8 * b <= q < 8 * b + 4 ==> !Bits(par)[q])
    && (forall q :: 8 * b + 4 <= q < 8 * b + 4 + 8 * i ==> Bits(par)[q] == p2[q - (8 * b + 4)])
    && LowClear(par[b + i])
  }

  lemma ShiftedStart(par: seq<byte>, b: nat)
    requires b < |par| && par[b] == 0
    ensures Shifted(par, b, 0, [])
  {
    forall q | 8 * b <= q < 8 * b + 4
      ensures !Bits(par)[q]
    {
      BitsAt(par, q);
      ZeroBits(q % 8);
    }
  }

  lemma ShiftedStep(par: seq<byte>, b: nat, i: nat, p2: seq<bool>, out: byte)
    requires Shifted(par, b, i, p2) && |p2| == 8 * i && b + i + 1 < |par|
    ensures Shifted(par[b + i := OrHigh(par[b + i], out)][b + i + 1 := LowUp(out)], b, i + 1, p2 + UnpackByte(out))
  {
    var par' := par[b + i := OrHigh(par[b + i], out)][b + i + 1 := LowUp(out)];
    hide BitOf, OrHigh, LowUp, LowClear, Bits;
    LowUpBits(out, 0);
    var c := p2 + UnpackByte(out);
    forall q | 8 * b <= q < 8 * b + 4 + 8 * (i + 1)
      ensures Bits(par')[q] == (q >= 8 * b + 4 && c[q - (8 * b + 4)])
    {
      hide UnpackByte;
      InByte(q, b + i);
      InByte(q, b + i + 1);
      BitsAt(par', q);
      if q < 8 * (b + i) + 4 {
        BitsAt(par, q);
        if q / 8 == b + i { OrHighBits(par[b + i], out, q % 8); }
      } else if q < 8 * (b + i) + 8 {
        OrHighBits(par[b + i], out, q % 8);
        UnpackAt(out, q % 8 - 4);
      } else {
        LowUpBits(out, q % 8);
        UnpackAt(out, q % 8 + 4);
      }
    }
  }

  /** Where the three streams of coded block c stand after the byte encoder: the systematic one in
      input, both parity streams one after the other in parity. */
  ghost predicate Carries(input: seq<bool>, parity: seq<bool>, c: seq<bool>, n: nat) {
    && |c| == 3 * n && n <= |input| && 2 * n <= |parity|
    && forall m :: 0 <= m < n ==> StreamsAt(input, parity, c, n, m)
  }

  ghost predicate StreamsAt(input: seq<bool>, parity: seq<bool>, c: seq<bool>, n: nat, m: nat)
    requires m < n <= |input| && 2 * n <= |parity| && |c| == 3 * n
  {
    input[m] == c[3 * m] && parity[m] == c[3 * m + 1] && parity[n + m] == c[3 * m + 2]
  }

  /** Tail bit i of stream r. */
  function Dealt(tail: seq<bool>, r: nat, i: nat): bool
    requires |tail| == 12 && r < 3 && i < 4
  {
    tail[3 * i + r]
  }

  /** Coded symbols of step m: in the block from the streams, in the tail three at a time. */
  lemma CodewordAt(a: seq<bool>, b: seq<bool>, m: nat)
    requires |a| == |b| && m < |a| + 4
    ensures var c, k, t := Codeword(a, b), |a|, Tails(a, b);
            if m < k then
              c[3 * m] == a[m] && c[3 * m + 1] == Parities(ZERO, a)[m] && c[3 * m + 2] == Parities(ZERO, b)[m]
            else
              c[3 * m] == Dealt(t, 0, m - k) && c[3 * m + 1] == Dealt(t, 1, m - k) && c[3 * m + 2] == Dealt(t, 2, m - k)
  {
    hide Tails, Parities, Merge3, Dealt;
    var k := |a|;
    if m < k {
      Merge3At(a, Parities(ZERO, a), Parities(ZERO, b), m);
    } else {
      TailAt(Merge3(a, Parities(ZERO, a), Parities(ZERO, b)), Tails(a, b), k, m);
    }
  }

  lemma TailAt(head: seq<bool>, t: seq<bool>, k: nat, m: nat)
    requires |head| == 3 * k && |t| == 12 && k <= m < k + 4
    ensures var c := head + t;
            c[3 * m] == Dealt(t, 0, m - k) && c[3 * m + 1] == Dealt(t, 1, m - k) && c[3 * m + 2] == Dealt(t, 2, m - k)
  {
  }

  /** The data part, both parity streams and the twelve dealt-out tail bits make up the codeword. */
  lemma CarriesCodeword(input: seq<bool>, parity: seq<bool>, a: seq<bool>, b: seq<bool>, n: nat)
    requires |a| == |b| == 8 * n && 8 * n + 4 <= |input| && 16 * n + 8 <= |parity|
    requires forall m :: 0 <= m < 8 * n ==> input[m] == a[m]
    requires forall m :: 0 <= m < 8 * n ==> parity[m] == Parities(ZERO, a)[m]
    requires forall q :: 8 * n + 4 <= q < 8 * n + 4 + 8 * n ==> parity[q] == Parities(ZERO, b)[q - (8 * n + 4)]
    requires forall i {:trigger Dealt(Tails(a, b), 0, i)} :: 0 <= i < 4 ==> input[8 * n + i] == Dealt(Tails(a, b), 0, i)
    requires forall i {:trigger Dealt(Tails(a, b), 1, i)} :: 0 <= i < 4 ==>
               parity[8 * n + i] == Dealt(Tails(a, b), 1, i)
    requires forall i {:trigger Dealt(Tails(a, b), 2, i)} :: 0 <= i < 4 ==>
               parity[16 * n + 4 + i] == Dealt(Tails(a, b), 2, i)
    ensures Carries(input, parity, Codeword(a, b), 8 * n + 4)
  {
    hide Tails, Parities, Codeword, Dealt;
    var k := 8 * n + 4;
    forall m | 0 <= m < k
      ensures StreamsAt(input, parity, Codeword(a, b), k, m)
    {
      CodewordAt(a, b, m);
      if m >= 8 * n {
        var i := m - 8 * n;
        assert input[8 * n + i] == Dealt(Tails(a, b), 0, i);
        assert parity[8 * n + i] == Dealt(Tails(a, b), 1, i);
        assert parity[16 * n + 4 + i] == Dealt(Tails(a, b), 2, i);
      } else {
        assert parity[8 * n + 4 + m] == Parities(ZERO, b)[8 * n + 4 + m - (8 * n + 4)];
      }
    }
  }

  /** Global tables and encoder handle of the byte version. */
  class LutCoder {
    const maxLongCb: nat
    const temp: array<byte>
    const perFw: seq<seq<nat>>
    const lutOutput: seq<seq<seq<byte>>>
    const lutNextState: seq<seq<seq<nat>>>

    ghost predicate Valid() {
      && temp.Length == maxLongCb / 8
      && |perFw| == |lutOutput| == |lutNextState| == NOF_TC_CB_SIZES
      && forall i :: 0 <= i < NOF_TC_CB_SIZES ==> perFw[i] == QppTable(i) && AreTables(lutOutput[i], lutNextState[i])
    }

    /** srslte_tcod_init and srslte_tcod_gentable */
    constructor (maxLongCb: nat)
      ensures Valid() && this.maxLongCb == maxLongCb && fresh(temp)
    {
      this.maxLongCb := maxLongCb;
      temp := new byte[maxLongCb / 8](_ => 0);
      var tables := TurboCoder.BuildTables();
      perFw := tables;
      var outputs, nexts := LutCoder.BuildStateTables();
      lutOutput, lutNextState := outputs, nexts;
    }

    static method BuildStateTables() returns (outputs: seq<seq<seq<byte>>>, nexts: seq<seq<seq<nat>>>)
      ensures |outputs| == |nexts| == NOF_TC_CB_SIZES
      ensures forall i :: 0 <= i < NOF_TC_CB_SIZES ==> AreTables(outputs[i], nexts[i])
    {
      hide AreTables;
      outputs, nexts := [], [];
      for len := 0 to NOF_TC_CB_SIZES
        invariant |outputs| == |nexts| == len
        invariant forall i :: 0 <= i < len ==> AreTables(outputs[i], nexts[i])
      {
        var o, n := StateTables();
        outputs, nexts := outputs + [o], nexts + [n];
      }
    }

    /** One table lookup: parity byte and next state of a constituent encoder. */
    method Lookup(idx: nat, state: nat, data: byte) returns (out: byte, next: nat)
      requires Valid() && idx < NOF_TC_CB_SIZES && state < 8
      ensures UnpackByte(out) == Parities(StateAt(state), UnpackByte(data))
      ensures next == Index(Run(StateAt(state), UnpackByte(data)))
    {
      hide UnpackByte, Parities, Run, StateAt, Index, ByteOf, QppTable;
      var o, n := lutOutput[idx], lutNextState[idx];
      assert AreTables(o, n);
      assert IsOutputRow(o[state], StateAt(state)) && IsNextRow(n[state], StateAt(state));
      ByteOfNat(data);
      out := o[state][data as nat];
      next := n[state][data as nat] % 8;
      IndexSmall(Run(StateAt(state), UnpackByte(data)));
    }

    static lemma IndexSmall(s: State)
      ensures Index(s) % 8 == Index(s)
    {
    }

    /** The first loop: parity bytes of the first constituent encoder. */
    method FirstParity(input: array<byte>, parity: array<byte>, idx: nat, n: nat) returns (state0: nat)
      requires Valid() && idx < NOF_TC_CB_SIZES && n <= input.Length && n <= parity.Length && input != parity
      modifies parity
      ensures Bits(parity[..n]) == Parities(ZERO, Bits(input[..n]))
      ensures state0 == Index(Run(ZERO, Bits(input[..n])))
    {
      hide Bits, UnpackByte, Parities, Run, StateAt, Index, AreTables, QppTable;
      state0 := 0;
      EmptyStreams();
      assert input[..0] == [] && parity[..0] == [];
      for i := 0 to n
        invariant Bits(parity[..i]) == Parities(ZERO, Bits(input[..i]))
        invariant state0 == Index(Run(ZERO, Bits(input[..i])))
      {
        IndexInverse(Run(ZERO, Bits(input[..i])));
        var out, next := Lookup(idx, state0, input[i]);
        FeedByte(input[..i], input[i]);
        BitsAppend(parity[..i], out);
        assert input[..i + 1] == input[..i] + [input[i]];
        parity[i] := out;
        assert parity[..i + 1] == parity[..i] + [out];
        state0 := next;
      }
    }

    static lemma IndexInverse(s: State)
      ensures Index(s) < 8 && StateAt(Index(s)) == s
    {
    }

    static lemma EmptyStreams()
      ensures Bits([]) == [] && Parities(ZERO, []) == [] && Run(ZERO, []) == ZERO && Index(ZERO) == 0
    {
    }

    /** The second loop: parity bytes of the second constituent encoder, shifted by a nibble. */
    method SecondParity(parity: array<byte>, idx: nat, n: nat) returns (state1: nat)
      requires Valid() && idx < NOF_TC_CB_SIZES && n <= temp.Length && 2 * n < parity.Length
      requires parity != temp && parity[n] == 0
      modifies parity
      ensures parity[..n] == old(parity[..n])
      ensures Shifted(parity[..], n, n, Parities(ZERO, Bits(temp[..n])))
      ensures state1 == Index(Run(ZERO, Bits(temp[..n])))
    {
      hide Bits, UnpackByte, Parities, Run, StateAt, Index, AreTables, QppTable, Shifted;
      state1 := 0;
      EmptyStreams();
      ShiftedStart(parity[..], n);
      assert temp[..0] == [];
      for i := 0 to n
        invariant forall k :: 0 <= k < n ==> parity[k] == old(parity[k])
        invariant Shifted(parity[..], n, i, Parities(ZERO, Bits(temp[..i])))
        invariant state1 == Index(Run(ZERO, Bits(temp[..i])))
      {
        IndexInverse(Run(ZERO, Bits(temp[..i])));
        var out, next := Lookup(idx, state1, temp[i]);
        FeedByte(temp[..i], temp[i]);
        assert temp[..i + 1] == temp[..i] + [temp[i]];
        ghost var par := parity[..];
        ShiftedStep(par, n, i, Parities(ZERO, Bits(temp[..i])), out);
        parity[n + i] := OrHigh(parity[n + i], out);
        parity[n + i + 1] := LowUp(out);
        assert parity[..] == par[n + i := OrHigh(par[n + i], out)][n + i + 1 := LowUp(out)];
        state1 := next;
      }
    }

    /** One of the two tailing loops. */
    static method Tail6(state: nat) returns (tail: seq<bool>)
      requires state < 8
      ensures tail == TailBits(StateAt(state))
    {
      var reg := StateAt(state);
      tail := [];
      ghost var s := reg;
      ghost var s1 := Next(s, Feedback(s));
      for j := 0 to 3
        invariant |tail| == 2 * j && tail == TailBits(s)[..2 * j]
        invariant reg == if j == 0 then s else if j == 1 then s1 else if j == 2 then Next(s1, Feedback(s1)) else ZERO
      {
        var bit := reg.r2 != reg.r1;
        tail := tail + [bit];
        var out;
        out, reg := Clock(reg, bit);
        tail := tail + [out];
      }
    }

    /** Deal the twelve tail bits out to the ends of the three streams. */
    method PlaceTail(input: array<byte>, parity: array<byte>, n: nat, tail: seq<bool>)
      requires |tail| == 12 && 0 < n < input.Length && 2 * n < parity.Length && input != parity
      requires forall q :: 8 * n <= q < 8 * n + 4 ==> !Bits(parity[..])[q]
      requires LowClear(parity[2 * n])
      modifies input, parity
      ensures TailPlaced(old(input[..]), old(parity[..]), input[..], parity[..], n, tail)
    {
      hide PackNibble, Upper, Lower, TailPlaced, LowClear, Bits, Or, Up, Low, DealtUpper, DealtLower;
      var x := Up(PackNibble(tail[0], tail[3], tail[6], tail[9]));
      var y := Up(PackNibble(tail[1], tail[4], tail[7], tail[10]));
      var z := Low(PackNibble(tail[2], tail[5], tail[8], tail[11]));
      NibbleBits(tail[0], tail[3], tail[6], tail[9]);
      NibbleBits(tail[1], tail[4], tail[7], tail[10]);
      NibbleBits(tail[2], tail[5], tail[8], tail[11]);
      UpperIsDealt(x, tail, 0);
      UpperIsDealt(y, tail, 1);
      LowerIsDealt(z, tail, 2);
      ghost var in0, par0 := input[..], parity[..];
      LowClearMeans(par0, 2 * n);
      input[n] := x;
      parity[n] := Or(parity[n], y);
      parity[2 * n] := Or(parity[2 * n], z);
      ghost var par1 := par0[n := Or(par0[n], y)];
      assert input[..] == in0[n := x];
      assert parity[..] == par1[2 * n := Or(par1[2 * n], z)];
      TailIsPlaced(in0, par0, n, tail, x, y, z);
    }

    /** srslte_tcod_encode_lut: the three streams it leaves behind are those of the bit encoder. */
    method Encode(input: array<byte>, parity: array<byte>, cblenIdx: nat) returns (ret: int)
      requires Valid() && input != parity && input != temp && parity != temp
      requires cblenIdx < NOF_TC_CB_SIZES ==>
                 var k := BlockSize(cblenIdx); k <= maxLongCb && k / 8 < input.Length && 2 * (k / 8) < parity.Length
      modifies input, parity, temp
      ensures ret == if cblenIdx < NOF_TC_CB_SIZES then 3 * BlockSize(cblenIdx) + 12 else -1
      ensures ret == -1 ==> input[..] == old(input[..]) && parity[..] == old(parity[..])
      ensures ret != -1 ==>
                var k := BlockSize(cblenIdx);
                Carries(Bits(input[..]), Bits(parity[..]), Encoded(old(Bits(input[..]))[..k], cblenIdx), k + 4)
    {
      hide Bits, Carries, Encoded, AreTables, QppTable;
      if cblenIdx >= NOF_TC_CB_SIZES { return -1; }
      var longCb := CbSize(cblenIdx);
      BitsHead(input[..], longCb / 8);
      EncodeBytes(input, parity, cblenIdx, longCb / 8);
      return 3 * longCb + 12;
    }

    /** The encoding proper, for a block of n bytes. */
    method EncodeBytes(input: array<byte>, parity: array<byte>, cblenIdx: nat, n: nat)
      requires Valid() && input != parity && input != temp && parity != temp
      requires cblenIdx < NOF_TC_CB_SIZES && 8 * n == BlockSize(cblenIdx) <= maxLongCb
      requires n < input.Length && 2 * n < parity.Length
      modifies input, parity, temp
      ensures Carries(Bits(input[..]), Bits(parity[..]), Encoded(Bits(old(input[..])[..n]), cblenIdx), 8 * n + 4)
    {
      hide Bits, Parities, Run, Index, Shifted, Carries, Encoded, Codeword, Interleaved, AreTables, QppTable;
      ghost var in0 := input[..];
      ghost var a := Bits(in0[..n]);
      assert in0[..n] == input[..n];
      var state0, state1, b := Streams(input, parity, cblenIdx, n);
      assert in0[..n] == input[..n];
      Finish(input, parity, n, state0, state1, a, b);
      EncodedIs(a, b, cblenIdx);
    }

    /** Both parity loops, with the interleaving between them. */
    method Streams(input: array<byte>, parity: array<byte>, cblenIdx: nat, n: nat)
      returns (state0: nat, state1: nat, ghost b: seq<bool>)
      requires Valid() && input != parity && input != temp && parity != temp
      requires cblenIdx < NOF_TC_CB_SIZES && 8 * n == BlockSize(cblenIdx) <= maxLongCb
      requires n < input.Length && 2 * n < parity.Length
      modifies parity, temp
      ensures b == Interleaved(Bits(input[..n]), cblenIdx)
      ensures state0 == Index(Run(ZERO, Bits(input[..n]))) && state1 == Index(Run(ZERO, b))
      ensures Bits(parity[..n]) == Parities(ZERO, Bits(input[..n])) && Shifted(parity[..], n, n, Parities(ZERO, b))
    {
      hide Bits, AreTables, QppTable, Parities, Run, Index, StateAt, Shifted, Interleaved;
      state0 := FirstParity(input, parity, cblenIdx, n);
      ghost var head := parity[..n];
      parity[n] := 0;
      assert parity[..n] == head;
      InterleaveInput(input, cblenIdx, 8 * n);
      b := Bits(temp[..n]);
      state1 := SecondParity(parity, cblenIdx, n);
    }

    /** The tail part of srslte_tcod_encode_lut. */
    method Finish(input: array<byte>, parity: array<byte>, n: nat, state0: nat, state1: nat,
                  ghost a: seq<bool>, ghost b: seq<bool>)
      requires 0 < n < input.Length && 2 * n < parity.Length && input != parity
      requires a == Bits(input[..n]) && |b| == 8 * n
      requires state0 == Index(Run(ZERO, a)) && state1 == Index(Run(ZERO, b))
      requires Bits(parity[..n]) == Parities(ZERO, a) && Shifted(parity[..], n, n, Parities(ZERO, b))
      modifies input, parity
      ensures Carries(Bits(input[..]), Bits(parity[..]), Codeword(a, b), 8 * n + 4)
    {
      hide Bits, Parities, Run, Index, StateAt, Shifted, TailPlaced, TailBits, Carries, Codeword, LowClear;
      ghost var in0, par0 := input[..], parity[..];
      assert in0[..n] == input[..n] && par0[..n] == parity[..n];
      ShiftedMeans(par0, n, Parities(ZERO, b));
      IndexInverse(Run(ZERO, a));
      IndexInverse(Run(ZERO, b));
      var tail0 := Tail6(state0);
      var tail1 := Tail6(state1);
      PlaceTail(input, parity, n, tail0 + tail1);
      Assemble(in0, par0, input[..], parity[..], n, a, b);
    }

    /** srslte_bit_interleave of the input into temp. */
    method InterleaveInput(input: array<byte>, idx: nat, longCb: nat)
      requires Valid() && idx < NOF_TC_CB_SIZES && longCb == BlockSize(idx) <= maxLongCb && longCb / 8 <= input.Length
      requires input != temp
      modifies temp
      ensures Bits(temp[..longCb / 8]) == Interleaved(Bits(input[..longCb / 8]), idx)
    {
      hide Bits, AreTables, QppTable;
      QppTableIsPermutation(idx);
      BitInterleave(input, temp, 0, perFw[idx], longCb);
      ghost var n, per := longCb / 8, perFw[idx];
      BitsHead(input[..], n);
      BitsHead(temp[..], n);
      ghost var a, t := Bits(input[..n]), Bits(temp[..n]);
      forall q | 0 <= q < longCb
        ensures t[q] == Permuted(a, per)[q]
      {
        assert Bits(temp[..])[0 + q] == Bits(input[..])[per[q]];
      }
    }
  }

  lemma BitsHead(a: seq<byte>, n: nat)
    requires n <= |a|
    ensures Bits(a[..n]) == Bits(a)[..8 * n]
  {
    hide BitOf;
  }

  lemma ShiftedMeans(par: seq<byte>, n: nat, p2: seq<bool>)
    requires Shifted(par, n, n, p2)
    ensures 2 * n < |par| && LowClear(par[2 * n])
    ensures forall q :: 8 * n <= q < 8 * n + 4 ==> !Bits(par)[q]
  {
  }

  lemma EncodedIs(a: seq<bool>, b: seq<bool>, idx: nat)
    requires idx < NOF_TC_CB_SIZES && |a| == BlockSize(idx) && b == Interleaved(a, idx)
    ensures Encoded(a, idx) == Codeword(a, b)
  {
    hide Codeword, Interleaved;
  }

  lemma Assemble(in0: seq<byte>, par0: seq<byte>, in1: seq<byte>, par1: seq<byte>, n: nat, a: seq<bool>, b: seq<bool>)
    requires n < |in0| == |in1| && 2 * n < |par0| == |par1| && a == Bits(in0[..n]) && |b| == 8 * n
    requires Bits(par0[..n]) == Parities(ZERO, a) && Shifted(par0, n, n, Parities(ZERO, b))
    requires TailPlaced(in0, par0, in1, par1, n, Tails(a, b))
    ensures Carries(Bits(in1), Bits(par1), Codeword(a, b), 8 * n + 4)
  {
    hide Bits, Parities, Tails, Codeword, Carries, LowClear, Dealt;
    DataKept(in0, par0, in1, par1, n, a, Tails(a, b));
    SecondKept(par0, par1, in0, in1, n, Parities(ZERO, b), Tails(a, b));
    CarriesCodeword(Bits(in1), Bits(par1), a, b, n);
  }

  lemma DataKept(in0: seq<byte>, par0: seq<byte>, in1: seq<byte>, par1: seq<byte>, n: nat, a: seq<bool>,
                 tail: seq<bool>)
    requires n < |in0| == |in1| && 2 * n < |par0| == |par1| && a == Bits(in0[..n]) && |tail| == 12
    requires Bits(par0[..n]) == Parities(ZERO, a) && TailPlaced(in0, par0, in1, par1, n, tail)
    ensures forall m :: 0 <= m < 8 * n ==> Bits(in1)[m] == a[m]
    ensures forall m :: 0 <= m < 8 * n ==> Bits(par1)[m] == Parities(ZERO, a)[m]
  {
    hide Bits, Parities, Dealt;
    forall m | 0 <= m < 8 * n
      ensures Bits(in1)[m] == a[m] && Bits(par1)[m] == Parities(ZERO, a)[m]
    {
      BitsOfHead(in0, n, m);
      BitsOfHead(par0, n, m);
    }
  }

  lemma SecondKept(par0: seq<byte>, par1: seq<byte>, in0: seq<byte>, in1: seq<byte>, n: nat, p2: seq<bool>,
                   tail: seq<bool>)
    requires n < |in0| == |in1| && 2 * n < |par0| == |par1| && |tail| == 12 && |p2| == 8 * n
    requires Shifted(par0, n, n, p2) && TailPlaced(in0, par0, in1, par1, n, tail)
    ensures forall q :: 8 * n + 4 <= q < 8 * n + 4 + 8 * n ==> Bits(par1)[q] == p2[q - (8 * n + 4)]
  {
    hide Bits, Dealt, LowClear;
  }

  /** Input and parity bits after the tail went in: data bits as before, the tail bits dealt. */
  ghost predicate TailPlaced(in0: seq<byte>, par0: seq<byte>, in1: seq<byte>, par1: seq<byte>, n: nat, tail: seq<bool>)
    requires |tail| == 12 && n < |in0| == |in1| && 2 * n < |par0| == |par1|
  {
    && (forall q :: 0 <= q < 8 * n ==> Bits(in1)[q] == Bits(in0)[q])
    && (forall i {:trigger Dealt(tail, 0, i)} :: 0 <= i < 4 ==> Bits(in1)[8 * n + i] == Dealt(tail, 0, i))
    && (forall i {:trigger Dealt(tail, 1, i)} :: 0 <= i < 4 ==> Bits(par1)[8 * n + i] == Dealt(tail, 1, i))
    && (forall i {:trigger Dealt(tail, 2, i)} :: 0 <= i < 4 ==> Bits(par1)[16 * n + 4 + i] == Dealt(tail, 2, i))
    && (forall q :: 0 <= q < 8 * n ==> Bits(par1)[q] == Bits(par0)[q])
    && forall q :: 8 * n + 4 <= q < 16 * n + 4 ==> Bits(par1)[q] == Bits(par0)[q]
  }

  lemma ByteBits(a: seq<byte>, k: nat, j: nat)
    requires k < |a| && j < 8
    ensures Bits(a)[8 * k + j] == BitOf(a[k], j)
  {
    hide BitOf;
    BitsAt(a, 8 * k + j);
  }

  /** OR-ing v into byte k. */
  lemma OrByte(a: seq<byte>, k: nat, v: byte, q: nat)
    requires k < |a| && q < 8 * |a|
    ensures Bits(a[k := Or(a[k], v)])[q] == (Bits(a)[q] || (q / 8 == k && BitOf(v, q % 8)))
  {
    hide BitOf, Bits, Or;
    BitsAt(a, q);
    BitsAt(a[k := Or(a[k], v)], q);
    OrBits(a[k], v, q % 8);
  }

  lemma InByte(q: nat, k: nat)
    ensures 8 * k <= q < 8 * k + 8 ==> q / 8 == k && q % 8 == q - 8 * k
    ensures !(8 * k <= q < 8 * k + 8) ==> q / 8 != k
  {
  }

  lemma UpperBit(v: byte, tail: seq<bool>, r: nat, i: nat)
    requires |tail| == 12 && r < 3 && i < 8 && Upper(v, tail[r], tail[r + 3], tail[r + 6], tail[r + 9])
    ensures BitOf(v, i) == (i < 4 && Dealt(tail, r, i))
  {
    hide BitOf;
    if i == 0 { } else if i == 1 { } else if i == 2 { } else if i == 3 { } else if i == 4 { } else if i == 5 { }
    else if i == 6 { }
  }

  lemma LowerBit(v: byte, tail: seq<bool>, r: nat, i: nat)
    requires |tail| == 12 && r < 3 && i < 8 && Lower(v, tail[r], tail[r + 3], tail[r + 6], tail[r + 9])
    ensures BitOf(v, i) == (i >= 4 && Dealt(tail, r, i - 4))
  {
    hide BitOf;
    if i == 0 { } else if i == 1 { } else if i == 2 { } else if i == 3 { } else if i == 4 { } else if i == 5 { }
    else if i == 6 { }
  }

  lemma LowClearBits(b: byte, j: nat)
    requires LowClear(b) && 4 <= j < 8
    ensures !BitOf(b, j)
  {
  }

  ghost predicate DealtUpper(v: byte, tail: seq<bool>, r: nat)
    requires |tail| == 12 && r < 3
  {
    forall i :: 0 <= i < 8 ==> BitOf(v, i) == (i < 4 && Dealt(tail, r, i))
  }

  ghost predicate DealtLower(v: byte, tail: seq<bool>, r: nat)
    requires |tail| == 12 && r < 3
  {
    forall i :: 0 <= i < 8 ==> BitOf(v, i) == (i >= 4 && Dealt(tail, r, i - 4))
  }

  lemma UpperIsDealt(v: byte, tail: seq<bool>, r: nat)
    requires |tail| == 12 && r < 3 && Upper(v, tail[r], tail[r + 3], tail[r + 6], tail[r + 9])
    ensures DealtUpper(v, tail, r)
  {
    hide BitOf, Upper, Dealt;
    forall i | 0 <= i < 8
      ensures BitOf(v, i) == (i < 4 && Dealt(tail, r, i))
    {
      UpperBit(v, tail, r, i);
    }
  }

  lemma LowerIsDealt(v: byte, tail: seq<bool>, r: nat)
    requires |tail| == 12 && r < 3 && Lower(v, tail[r], tail[r + 3], tail[r + 6], tail[r + 9])
    ensures DealtLower(v, tail, r)
  {
    hide BitOf, Lower, Dealt;
    forall i | 0 <= i < 8
      ensures BitOf(v, i) == (i >= 4 && Dealt(tail, r, i - 4))
    {
      LowerBit(v, tail, r, i);
    }
  }

  lemma LowClearMeans(a: seq<byte>, k: nat)
    requires k < |a| && LowClear(a[k])
    ensures forall q :: 8 * k + 4 <= q < 8 * k + 8 ==> !Bits(a)[q]
  {
    hide BitOf, Bits, LowClear;
    forall q | 8 * k + 4 <= q < 8 * k + 8
      ensures !Bits(a)[q]
    {
      ByteBits(a, k, q - 8 * k);
      LowClearBits(a[k], q - 8 * k);
    }
  }

  lemma TailInInput(in0: seq<byte>, n: nat, tail: seq<bool>, x: byte)
    requires n < |in0| && |tail| == 12 && DealtUpper(x, tail, 0)
    ensures forall q :: 0 <= q < 8 * n ==> Bits(in0[n := x])[q] == Bits(in0)[q]
    ensures forall i {:trigger Dealt(tail, 0, i)} :: 0 <= i < 4 ==> Bits(in0[n := x])[8 * n + i] == Dealt(tail, 0, i)
  {
    hide BitOf, Bits, Dealt;
    var in1 := in0[n := x];
    forall i | 0 <= i < 4
      ensures Bits(in1)[8 * n + i] == Dealt(tail, 0, i)
    {
      ByteBits(in1, n, i);
    }
    forall q | 0 <= q < 8 * n
      ensures Bits(in1)[q] == Bits(in0)[q]
    {
      BitsAt(in0, q);
      BitsAt(in1, q);
    }
  }

  lemma TailIsPlaced(in0: seq<byte>, par0: seq<byte>, n: nat, tail: seq<bool>, x: byte, y: byte, z: byte)
    requires 0 < n < |in0| && 2 * n < |par0| && |tail| == 12
    requires DealtUpper(x, tail, 0) && DealtUpper(y, tail, 1) && DealtLower(z, tail, 2)
    requires forall q :: 8 * n <= q < 8 * n + 4 ==> !Bits(par0)[q]
    requires forall q :: 16 * n + 4 <= q < 16 * n + 8 ==> !Bits(par0)[q]
    ensures var par1 := par0[n := Or(par0[n], y)];
            TailPlaced(in0, par0, in0[n := x], par1[2 * n := Or(par1[2 * n], z)], n, tail)
  {
    hide BitOf, Bits, Dealt, Or;
    TailInInput(in0, n, tail, x);
    var par1 := par0[n := Or(par0[n], y)];
    var par2 := par1[2 * n := Or(par1[2 * n], z)];
    forall i | 0 <= i < 4
      ensures Bits(par2)[8 * n + i] == Dealt(tail, 1, i)
      ensures Bits(par2)[16 * n + 4 + i] == Dealt(tail, 2, i)
    {
      TailParity(par0, n, y, z, 8 * n + i);
      TailParity(par0, n, y, z, 16 * n + 4 + i);
      assert 16 * n + 4 + i - 16 * n == i + 4;
    }
    forall q | 0 <= q < 16 * n + 4 && !(8 * n <= q < 8 * n + 4)
      ensures Bits(par2)[q] == Bits(par0)[q]
    {
      TailParity(par0, n, y, z, q);
    }
  }

  /** Bit q of the parity bytes after both nibbles went in. */
  lemma TailParity(par0: seq<byte>, n: nat, y: byte, z: byte, q: nat)
    requires 0 < n && 2 * n < |par0| && q < 16 * n + 8
    ensures var par1 := par0[n := Or(par0[n], y)];
            Bits(par1[2 * n := Or(par1[2 * n], z)])[q] ==
            (Bits(par0)[q] || (8 * n <= q < 8 * n + 8 && BitOf(y, q - 8 * n)) || (16 * n <= q && BitOf(z, q - 16 * n)))
  {
    hide BitOf, Bits, Or;
    var par1 := par0[n := Or(par0[n], y)];
    OrByte(par0, n, y, q);
    OrByte(par1, 2 * n, z, q);
    InByte(q, n);
    InByte(q, 2 * n);
  }
}

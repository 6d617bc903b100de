/** The bit-serial turbo encoder (srslte_tcod_encode in srslte/lib/fec/turbocoder.c). */
module TurboEncoder {
  import opened Trellis
  import opened Permutations
  import opened CodeBlockSizes
  import opened TurboInterleaver

  /** A transmitted symbol: a bit, or the SRSLTE_TX_NULL filler marker. */
  datatype TxBit = Null | Bit(b: bool)

  /** Fillers are encoded as zero. */
  function Value(t: TxBit): bool {
    t.Bit? && t.b
  }

  function Values(ts: seq<TxBit>): (bs: seq<bool>)
    ensures |bs| == |ts|
  {
    seq(|ts|, i requires 0 <= i < |ts| => Value(ts[i]))
  }

  function Permuted<T>(a: seq<T>, per: seq<nat>): (r: seq<T>)
    requires forall i :: 0 <= i < |per| ==> per[i] < |a|
    ensures |r| == |per|
  {
    seq(|per|, i requires 0 <= i < |per| => a[per[i]])
  }

  /** Three streams merged symbol by symbol. */
  function Merge3<T>(x: seq<T>, y: seq<T>, z: seq<T>): (r: seq<T>)
    requires |x| == |y| == |z|
    ensures |r| == 3 * |x|
  {
    seq(3 * |x|, k requires 0 <= k < 3 * |x| =>
      if k % 3 == 0 then x[k / 3] else if k % 3 == 1 then y[k / 3] else z[k / 3])
  }

  lemma Merge3At<T>(x: seq<T>, y: seq<T>, z: seq<T>, i: nat)
    requires |x| == |y| == |z| && i < |x|
    ensures var r := Merge3(x, y, z); r[3 * i] == x[i] && r[3 * i + 1] == y[i] && r[3 * i + 2] == z[i]
  {
  }

  /** The six tail bits of one constituent encoder left in state s: inputs and parities in turn. */
  function TailBits(s: State): (t: seq<bool>)
    ensures |t| == 6
  {
    var s1 := Next(s, Feedback(s));
    var s2 := Next(s1, Feedback(s1));
    [Feedback(s), Parity(s, Feedback(s)), Feedback(s1), Parity(s1, Feedback(s1)),
     Feedback(s2), Parity(s2, Feedback(s2))]
  }

  function Tails(a: seq<bool>, b: seq<bool>): (t: seq<bool>)
    ensures |t| == 12
  {
    TailBits(Run(ZERO, a)) + TailBits(Run(ZERO, b))
  }

  /** The coded block for first-encoder input a and second-encoder input b. */
  function Codeword(a: seq<bool>, b: seq<bool>): (c: seq<bool>)
    requires |a| == |b|
    ensures |c| == 3 * |a| + 12
  {
    Merge3(a, Parities(ZERO, a), Parities(ZERO, b)) + Tails(a, b)
  }

  /** The coded block, symbol by symbol: the input and both parities, then the last three inputs and
      parities of the first encoder, then those of the second. */
  lemma CodewordIs(a: seq<bool>, b: seq<bool>)
    requires |a| == |b|
    ensures var n, c, za, zb := |a|, Codeword(a, b), Parities(ZERO, Terminated(a)), Parities(ZERO, Terminated(b));
            && (forall i {:trigger za[i]} :: 0 <= i < n ==>
                  c[3 * i] == a[i] && c[3 * i + 1] == za[i] && c[3 * i + 2] == zb[i])
            && c[3 * n..] == [Terminated(a)[n], za[n], Terminated(a)[n + 1], za[n + 1], Terminated(a)[n + 2], za[n + 2],
                              Terminated(b)[n], zb[n], Terminated(b)[n + 1], zb[n + 1], Terminated(b)[n + 2], zb[n + 2]]
  {
    hide Parities, Terminated, TailBits, Run;
    var za, zb := Parities(ZERO, Terminated(a)), Parities(ZERO, Terminated(b));
    TerminatedParities(a);
    TerminatedParities(b);
    assert Codeword(a, b)[3 * |a|..] == Tails(a, b);
    forall i {:trigger za[i]} | 0 <= i < |a|
      ensures var c := Codeword(a, b); c[3 * i] == a[i] && c[3 * i + 1] == za[i] && c[3 * i + 2] == zb[i]
    {
      Merge3At(a, Parities(ZERO, a), Parities(ZERO, b), i);
    }
  }

  lemma TerminatedParities(a: seq<bool>)
    ensures var n, t, z := |a|, Terminated(a), Parities(ZERO, Terminated(a));
            && z[..n] == Parities(ZERO, a)
            && TailBits(Run(ZERO, a)) == [t[n], z[n], t[n + 1], z[n + 1], t[n + 2], z[n + 2]]
  {
    var s := Run(ZERO, a);
    RunAppend(ZERO, a, Tail(s));
    TailParities(s);
  }

  lemma TailParities(s: State)
    ensures var t, z := Tail(s), Parities(s, Tail(s)); TailBits(s) == [t[0], z[0], t[1], z[1], t[2], z[2]]
  {
    var t, s1 := Tail(s), Next(s, Tail(s)[0]);
    var s2 := Next(s1, t[1]);
    assert Parities(s, t)[1..] == Parities(s1, t[1..]);
    assert Parities(s1, t[1..])[1..] == Parities(s2, t[1..][1..]);
  }

  function TxBits(a: seq<bool>): (r: seq<TxBit>)
    ensures |r| == |a|
  {
    seq(|a|, i requires 0 <= i < |a| => Bit(a[i]))
  }

  /** The first parity stream: a filler hides the parity bit sent beside it. */
  function MaskedParity(x: seq<TxBit>): (r: seq<TxBit>)
    ensures |r| == |x|
  {
    var p := Parities(ZERO, Values(x));
    seq(|x|, i requires 0 <= i < |x| => if x[i] == Null then Null else Bit(p[i]))
  }

  /** The coded block with fillers passed through on the first two streams. */
  function TxStream(x: seq<TxBit>, b: seq<bool>): (c: seq<TxBit>)
    requires |x| == |b|
    ensures |c| == 3 * |b| + 12
  {
    Merge3(x, MaskedParity(x), TxBits(Parities(ZERO, b))) + TxBits(Tails(Values(x), b))
  }

  /** Without fillers the stream is the coded block. */
  lemma StreamWithoutFillers(a: seq<bool>, b: seq<bool>)
    requires |a| == |b|
    ensures TxStream(TxBits(a), b) == TxBits(Codeword(a, b))
  {
    assert Values(TxBits(a)) == a;
  }

  /** The coded block of message msg of table size number idx. */
  ghost function Encoded(msg: seq<bool>, idx: nat): (c: seq<bool>)
    requires idx < NOF_TC_CB_SIZES && |msg| == BlockSize(idx)
    ensures |c| == 3 * |msg| + 12
  {
    Codeword(msg, Interleaved(msg, idx))
  }

  ghost function Interleaved(msg: seq<bool>, idx: nat): (r: seq<bool>)
    requires idx < NOF_TC_CB_SIZES && |msg| == BlockSize(idx)
    ensures |r| == |msg|
  {
    QppTableIsPermutation(idx);
    Permuted(msg, QppTable(idx))
  }

  /** The registers of a constituent encoder before each bit of a, and after the last. */
  ghost function Trajectory(a: seq<bool>): (t: seq<State>)
    ensures |t| == |a| + 1
  {
    seq(|a| + 1, i requires 0 <= i <= |a| => Run(ZERO, a[..i]))
  }

  /** Step i of both encoders: registers s1 and s2 move on, and stream c holds its three symbols. */
  ghost predicate MainStep(c: seq<TxBit>, x: seq<TxBit>, b: seq<bool>, s1: seq<State>, s2: seq<State>, i: nat)
    requires i < |b| == |x| && 3 * |b| <= |c| && |s1| == |s2| == |b| + 1
  {
    && c[3 * i] == x[i]
    && c[3 * i + 1] == (if x[i] == Null then Null else Bit(Parity(s1[i], Value(x[i]))))
    && c[3 * i + 2] == Bit(Parity(s2[i], b[i]))
    && Next(s1[i], Value(x[i])) == s1[i + 1]
    && Next(s2[i], b[i]) == s2[i + 1]
  }

  lemma MainStepMeans(c: seq<TxBit>, x: seq<TxBit>, b: seq<bool>, s1: seq<State>, s2: seq<State>, i: nat)
    requires i < |b| == |x| && 3 * |b| <= |c| && |s1| == |s2| == |b| + 1 && MainStep(c, x, b, s1, s2, i)
    ensures c[3 * i] == x[i] && c[3 * i + 2] == Bit(Parity(s2[i], b[i]))
    ensures c[3 * i + 1] == if x[i] == Null then Null else Bit(Parity(s1[i], Value(x[i])))
    ensures Next(s1[i], Value(x[i])) == s1[i + 1] && Next(s2[i], b[i]) == s2[i + 1]
  {
  }

  lemma StreamMainStep(x: seq<TxBit>, b: seq<bool>, i: nat)
    requires i < |b| == |x|
    ensures MainStep(TxStream(x, b), x, b, Trajectory(Values(x)), Trajectory(b), i)
  {
    RunStep(ZERO, Values(x), i);
    RunStep(ZERO, b, i);
    Merge3At(x, MaskedParity(x), TxBits(Parities(ZERO, b)), i);
  }

  lemma TrajectoryStart(a: seq<bool>)
    ensures Trajectory(a)[0] == ZERO
  {
  }

  /** The stream ends with the tails of the registers the block leaves behind. */
  lemma StreamEnds(x: seq<TxBit>, b: seq<bool>)
    requires |x| == |b|
    ensures var n, c := |b|, TxStream(x, b);
            c == c[..3 * n] + (TxBits(TailBits(Trajectory(Values(x))[n])) + TxBits(TailBits(Trajectory(b)[n])))
  {
    hide MaskedParity, TailBits;
    assert Values(x)[..|b|] == Values(x) && b[..|b|] == b;
  }

  /** One clock of a constituent encoder, as the code computes it. */
  method Clock(reg: State, bit: bool) returns (out: bool, next: State)
    ensures out == Parity(reg, bit) && next == Next(reg, bit)
  {
    var inBit := bit != (reg.r2 != reg.r1);
    out := reg.r2 != (reg.r0 != inBit);
    next := State(inBit, reg.r0, reg.r1);
  }

  /** Global tables and encoder handle (tcod_per_fw, srslte_tcod_t). */
  class TurboCoder {
    const maxLongCb: nat
    const perFw: seq<seq<nat>>

    ghost predicate Valid() {
      && |perFw| == NOF_TC_CB_SIZES
      && forall i :: 0 <= i < NOF_TC_CB_SIZES ==> perFw[i] == QppTable(i)
    }

    /** srslte_tcod_init with the permutation part of srslte_tcod_gentable. */
    constructor (maxLongCb: nat)
      ensures Valid() && this.maxLongCb == maxLongCb
    {
      this.maxLongCb := maxLongCb;
      var tables := TurboCoder.BuildTables();
      perFw := tables;
    }

    /** The permutation tables of srslte_tcod_gentable. */
    static method BuildTables() returns (tables: seq<seq<nat>>)
      ensures |tables| == NOF_TC_CB_SIZES && forall i :: 0 <= i < NOF_TC_CB_SIZES ==> tables[i] == QppTable(i)
    {
      hide QppTable, MutuallyInverse, BlockSize;
      var interl := new Interleaver(MAX_LEN_CB);
      tables := [];
      for len := 0 to NOF_TC_CB_SIZES
        invariant interl.Valid() && interl.maxLongCb == MAX_LEN_CB
        invariant fresh(interl.forward) && fresh(interl.reverse)
        invariant |tables| == len
        invariant forall i :: 0 <= i < len ==> tables[i] == QppTable(i)
      {
        var longCb := CbSize(len);
        IndexForSize(len);
        var ret := interl.LteGen(longCb);
        tables := tables + [interl.forward[..longCb]];
      }
    }

    /** srslte_tcod_encode. The interleaver of the next larger table size is used when longCb is
        not itself a block size, so the input must be as long as that interleaver reads. */
    method Encode(input: array<TxBit>, output: array<TxBit>, longCb: nat) returns (ret: int)
      requires Valid() && input != output
      requires longCb <= MAX_LEN_CB ==> BlockSize(IndexFor(longCb)) <= input.Length
      requires 3 * longCb + 12 <= output.Length
      modifies output
      ensures ret == if longCb <= maxLongCb && longCb <= MAX_LEN_CB then 0 else ERROR
      ensures ret != 0 ==> output[..] == old(output[..])
      ensures ret == 0 ==>
                output[..3 * longCb + 12] == TxStream(input[..longCb], SecondInput(input[..], longCb))
      ensures forall m :: 3 * longCb + 12 <= m < output.Length ==> output[m] == old(output[m])
    {
      if longCb > maxLongCb { return ERROR; }
      var longcbIdx := CbIndex(longCb);
      if longcbIdx < 0 { return ERROR; }
      var per := perFw[longcbIdx];
      ghost var x, b := input[..longCb], SecondInput(input[..], longCb);
      QppTableIsPermutation(longcbIdx);

      EncodeBlock(input, output, per, longCb, x, b);
      return 0;
    }

    /** The three loops of srslte_tcod_encode: the block, then the tail of each register. */
    method EncodeBlock(input: array<TxBit>, output: array<TxBit>, per: seq<nat>, longCb: nat,
                       ghost x: seq<TxBit>, ghost b: seq<bool>)
      requires input != output && longCb <= input.Length && longCb <= |per| && 3 * longCb + 12 <= output.Length
      requires x == input[..longCb] && |b| == longCb
      requires forall i :: 0 <= i < longCb ==> per[i] < input.Length && b[i] == Value(input[per[i]])
      modifies output
      ensures output[..3 * longCb + 12] == TxStream(x, b)
      ensures forall m :: 3 * longCb + 12 <= m < output.Length ==> output[m] == old(output[m])
    {
      hide MaskedParity, TxStream, Trajectory, TailBits, Values, TxBits, MainStep;
      ghost var s1, s2, c := Trajectory(Values(x)), Trajectory(b), TxStream(x, b);
      forall i | 0 <= i < longCb
        ensures MainStep(c, x, b, s1, s2, i)
      {
        StreamMainStep(x, b, i);
      }
      TrajectoryStart(Values(x));
      TrajectoryStart(b);
      var reg1, reg2 := EncodeBits(input, output, per, longCb, x, b, c, s1, s2);
      StreamEnds(x, b);
      ghost var t1, t2 := TxBits(TailBits(reg1)), TxBits(TailBits(reg2));
      reg1 := EncodeTail(output, 3 * longCb, reg1);
      assert output[..3 * longCb + 6] == c[..3 * longCb] + t1;
      reg2 := EncodeTail(output, 3 * longCb + 6, reg2);
      assert output[..3 * longCb + 12] == (c[..3 * longCb] + t1) + t2;
    }

    /** The main loop of srslte_tcod_encode. */
    method EncodeBits(input: array<TxBit>, output: array<TxBit>, per: seq<nat>, longCb: nat,
                      ghost x: seq<TxBit>, ghost b: seq<bool>, ghost c: seq<TxBit>,
                      ghost s1: seq<State>, ghost s2: seq<State>)
      returns (reg1: State, reg2: State)
      requires input != output && longCb <= input.Length && longCb <= |per| && 3 * longCb <= output.Length
      requires x == input[..longCb] && |b| == longCb
      requires forall i :: 0 <= i < longCb ==> per[i] < input.Length && b[i] == Value(input[per[i]])
      requires 3 * longCb <= |c| && |s1| == |s2| == longCb + 1 && s1[0] == s2[0] == ZERO
      requires forall i :: 0 <= i < longCb ==> MainStep(c, x, b, s1, s2, i)
      modifies output
      ensures reg1 == s1[longCb] && reg2 == s2[longCb]
      ensures output[..3 * longCb] == c[..3 * longCb]
      ensures forall m :: 3 * longCb <= m < output.Length ==> output[m] == old(output[m])
    {
      hide Parity, Next, MainStep;
      reg1, reg2 := ZERO, ZERO;
      var k := 0;
      for i := 0 to longCb
        invariant k == 3 * i
        invariant reg1 == s1[i] && reg2 == s2[i]
        invariant forall m :: 0 <= m < k ==> output[m] == c[m]
        invariant forall m :: 3 * longCb <= m < output.Length ==> output[m] == old(output[m])
      {
        MainStepMeans(c, x, b, s1, s2, i);
        var bit := if input[i] == Null then false else input[i].b;
        output[k] := input[i];
        k := k + 1;

        var out;
        out, reg1 := Clock(reg1, bit);
        output[k] := if input[i] == Null then Null else Bit(out);
        k := k + 1;

        bit := if input[per[i]] == Null then false else input[per[i]].b;
        out, reg2 := Clock(reg2, bit);
        output[k] := Bit(out);
        k := k + 1;
      }
    }

    /** One of the two tailing loops of srslte_tcod_encode: six symbols from position start on. */
    method EncodeTail(output: array<TxBit>, start: nat, reg: State) returns (r: State)
      requires start + 6 <= output.Length
      modifies output
      ensures r == ZERO
      ensures output[..start] == old(output[..start])
      ensures output[start..start + 6] == TxBits(TailBits(reg))
      ensures forall m :: start + 6 <= m < output.Length ==> output[m] == old(output[m])
    {
      r := reg;
      var k := start;
      ghost var t, reg1 := TxBits(TailBits(reg)), Next(reg, Feedback(reg));
      for j := 0 to 3
        invariant k == start + 2 * j
        invariant r == if j == 0 then reg else if j == 1 then reg1
                       else if j == 2 then Next(reg1, Feedback(reg1)) else ZERO
        invariant forall m :: start <= m < k ==> output[m] == t[m - start]
        invariant forall m :: 0 <= m < start || start + 6 <= m < output.Length ==> output[m] == old(output[m])
      {
        var bit := r.r2 != r.r1;
        output[k] := Bit(bit);
        k := k + 1;
        var inBit := bit != (r.r2 != r.r1);
        var out := r.r2 != (r.r0 != inBit);
        r := State(inBit, r.r0, r.r1);
        output[k] := Bit(out);
        k := k + 1;
      }
    }

    ghost function SecondInput(input: seq<TxBit>, longCb: nat): (b: seq<bool>)
      requires Valid() && longCb <= MAX_LEN_CB && BlockSize(IndexFor(longCb)) <= |input|
      ensures |b| == longCb
    {
      QppTableIsPermutation(IndexFor(longCb));
      Permuted(Values(input), QppTable(IndexFor(longCb))[..longCb])
    }
  }
}

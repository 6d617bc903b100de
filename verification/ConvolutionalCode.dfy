/** The rate 1/3, constraint length 7 convolutional code and its encoder
    (srslte/lib/fec/convcoder.c, section 5.1.3.1 of TS 36.212). */
module ConvolutionalCode {
  import NumberTheory

  const STATES := 64
  const K := 7
  const R := 3
  const ERROR_INVALID_INPUTS := -2

  /** A state is the last six inputs as a number, the newest in the least significant bit. */
  type State = s: nat | s < 64

  /** parity(r & p): whether an odd number of the bits of r that p selects are set. */
  function Par(r: nat, p: nat): bool
    decreases p
  {
    if p == 0 then false else (r % 2 == 1 && p % 2 == 1) != Par(r / 2, p / 2)
  }

  /** The three generator polynomials. */
  datatype Code = Code(p0: nat, p1: nat, p2: nat) {
    function Poly(j: nat): nat {
      if j == 0 then p0 else if j == 1 then p1 else p2
    }

    /** Generators of full length: both the newest and the oldest input take part. */
    predicate Valid() {
      FullLength(p0) && FullLength(p1) && FullLength(p2)
    }
  }

  predicate FullLength(p: nat) {
    64 <= p < 128 && p % 2 == 1
  }

  /** The generators of the LTE control channels. */
  const LTE := Code(0x6D, 0x4F, 0x57)

  function Pow2(k: nat): (m: nat)
    ensures m > 0
  {
    if k == 0 then 1 else 2 * Pow2(k - 1)
  }

  function Num(u: bool): nat {
    if u then 1 else 0
  }

  /** The seven inputs an output depends on. */
  function Register(s: State, u: bool): (r: nat)
    ensures r < 128
  {
    2 * s + Num(u)
  }

  function Next(s: State, u: bool): State {
    Register(s, u) % STATES
  }

  /** Flipping the newest input flips every output. */
  lemma ParOfOdd(i: nat, p: nat)
    requires p % 2 == 1
    ensures Par(2 * i + 1, p) == !Par(2 * i, p)
  {
    assert (2 * i + 1) / 2 == i && (2 * i) / 2 == i;
  }

  /** Flipping the oldest input flips every output. */
  lemma {:induction false} ParOfTop(r: nat, p: nat, k: nat)
    requires r < Pow2(k) <= p < 2 * Pow2(k)
    ensures Par(r + Pow2(k), p) == !Par(r, p)
    decreases k
  {
    if k == 0 {
      assert p == 1 && r == 0 && Par(0, 0) == false;
    } else {
      var m := Pow2(k - 1);
      assert (r + 2 * m) / 2 == r / 2 + m && (r + 2 * m) % 2 == r % 2;
      ParOfTop(r / 2, p / 2, k - 1);
    }
  }

  /** A generator below 2^k does not see bit k of its argument or anything above. */
  lemma {:induction false} ParOfLow(r: nat, p: nat, k: nat)
    requires p < Pow2(k)
    ensures Par(r % Pow2(k), p) == Par(r, p)
    decreases k
  {
    if p > 0 {
      var m := Pow2(k - 1);
      HalfOfMod(r, m);
      ParOfLow(r / 2, p / 2, k - 1);
    }
  }

  lemma HalfOfMod(r: nat, m: nat)
    requires m > 0
    ensures (r % (2 * m)) / 2 == (r / 2) % m && (r % (2 * m)) % 2 == r % 2
  {
    var q, t := r / (2 * m), r % (2 * m);
    assert r == m * q * 2 + t;
    assert r / 2 == m * q + t / 2;
    NumberTheory.ModUnique(r / 2, m, q, t / 2);
  }

  // ---- paths ------------------------------------------------------------------------------

  /** The state after the first t inputs. */
  function At(s0: State, us: seq<bool>, t: nat): State
    requires t <= |us|
  {
    if t == 0 then s0 else Next(At(s0, us, t - 1), us[t - 1])
  }

  function RegisterAt(s0: State, us: seq<bool>, t: nat): (r: nat)
    requires t < |us|
    ensures r < 128
  {
    Register(At(s0, us, t), us[t])
  }

  /** A bit string as a number, first bit most significant. */
  function Value(v: seq<bool>): (s: nat)
    ensures s < Pow2(|v|)
  {
    if v == [] then 0 else 2 * Value(v[..|v| - 1]) + Num(v[|v| - 1])
  }

  function BitsOf(s: nat, n: nat): (v: seq<bool>)
    requires s < Pow2(n)
    ensures |v| == n && Value(v) == s
  {
    if n == 0 then [] else BitsOf(s / 2, n - 1) + [s % 2 == 1]
  }

  lemma {:induction false} ValueHead(v: seq<bool>)
    requires v != []
    ensures Value(v) == (if v[0] then Pow2(|v| - 1) else 0) + Value(v[1..])
  {
    if |v| > 1 {
      ValueHead(v[..|v| - 1]);
      assert v[..|v| - 1][1..] == v[1..][..|v| - 2];
    }
  }

  /** Seven inputs as register contents: the first leaves with the next clock. */
  lemma NextOfValue(v: seq<bool>, u: bool)
    requires |v| == 6
    ensures Pow2(6) == 64 && Register(Value(v), u) == Value(v + [u]) && Next(Value(v), u) == Value(v[1..] + [u])
    ensures Value(v) >= 32 <==> v[0]
  {
    hide Pow2, Value, Next;
    SmallPowers();
    ValueAppend(v, u);
    ValueSlides(v, u);
    ValueHead(v);
    NextWithoutTop(Value(v), u, v[0], Value(v[1..] + [u]));
  }

  lemma ValueSlides(v: seq<bool>, u: bool)
    requires v != []
    ensures Value(v + [u]) == (if v[0] then Pow2(|v|) else 0) + Value(v[1..] + [u])
  {
    hide Pow2, Value;
    ValueHead(v + [u]);
    assert (v + [u])[1..] == v[1..] + [u];
  }

  lemma NextWithoutTop(s: State, u: bool, top: bool, w: State)
    requires Register(s, u) == (if top then 64 else 0) + w
    ensures Next(s, u) == w
  {
  }

  lemma SmallPowers()
    ensures Pow2(5) == 32 && Pow2(6) == 64 && Pow2(7) == 128
  {
    assert Pow2(3) == 8;
  }

  lemma ValueAppend(v: seq<bool>, u: bool)
    ensures Value(v + [u]) == 2 * Value(v) + Num(u)
  {
    hide Pow2;
    assert (v + [u])[..|v|] == v;
  }

  /** Everything the register of a path has held: the bits of the start state, then the inputs. */
  function History(s0: State, us: seq<bool>): (h: seq<bool>)
    ensures |h| == |us| + 6
  {
    SmallPowers();
    BitsOf(s0, 6) + us
  }

  lemma HistoryAt(s0: State, us: seq<bool>)
    ensures Value(History(s0, us)[..6]) == s0
    ensures forall k :: 0 <= k < |us| ==> History(s0, us)[k + 6] == us[k]
  {
    hide Value, BitsOf;
    SmallPowers();
    assert History(s0, us)[..6] == BitsOf(s0, 6);
  }

  lemma WindowSlides(h: seq<bool>, a: nat)
    requires a + 7 <= |h|
    ensures h[a..a + 6] + [h[a + 6]] == h[a..a + 7]
    ensures h[a..a + 6][1..] + [h[a + 6]] == h[a + 1..a + 7]
  {
  }

  /** The state at time t is a window of the history. */
  lemma {:induction false} AtIsWindow(s0: State, us: seq<bool>, t: nat)
    requires t <= |us|
    ensures At(s0, us, t) == Value(History(s0, us)[t..t + 6])
    ensures t < |us| ==> RegisterAt(s0, us, t) == Value(History(s0, us)[t..t + 7])
    ensures At(s0, us, t) >= 32 <==> History(s0, us)[t]
  {
    hide Value, Next, History;
    var h := History(s0, us);
    HistoryAt(s0, us);
    if t > 0 {
      AtIsWindow(s0, us, t - 1);
      NextOfValue(h[t - 1..t + 5], us[t - 1]);
      WindowSlides(h, t - 1);
      assert h[t - 1 + 6] == us[t - 1];
    }
    NextOfValue(h[t..t + 6], t < |us| && us[t]);
    if t < |us| {
      WindowSlides(h, t);
      assert h[t + 6] == us[t];
    }
  }

  /** Coded bit k of the path with start s0 and inputs us. */
  function Coded(c: Code, s0: State, us: seq<bool>, k: nat): bool
    requires k < 3 * |us|
  {
    Par(RegisterAt(s0, us, k / 3), c.Poly(k % 3))
  }

  function Codeword(c: Code, s0: State, us: seq<bool>): (x: seq<bool>)
    ensures |x| == 3 * |us|
  {
    seq(3 * |us|, k requires 0 <= k < 3 * |us| => Coded(c, s0, us, k))
  }

  function Zeros(n: nat): (z: seq<bool>)
    ensures |z| == n
  {
    seq(n, _ => false)
  }

  /** What is encoded: the frame and, unless it is tail-biting, six zeros. */
  function Inputs(x: seq<bool>, tailBiting: bool): seq<bool> {
    if tailBiting then x else x + Zeros(K - 1)
  }

  /** The encoder's start: zero, or the state the tail-biting frame ends in. */
  function Start(x: seq<bool>, tailBiting: bool): State
    requires |x| >= K - 1
  {
    if tailBiting then At(0, x[|x| - (K - 1)..], K - 1) else 0
  }

  const WRAP := 0x1_0000_0000

  /** srslte_convcoder_encode */
  method Encode(input: array<bool>, output: array<bool>, frameLength: nat, c: Code, tailBiting: bool) returns (ret: int)
    requires c.p0 < 128 && c.p1 < 128 && c.p2 < 128
    requires frameLength <= input.Length && input != output
    requires 3 * (if tailBiting then frameLength else frameLength + K - 1) <= output.Length
    modifies output
    ensures ret == if frameLength > K + 1 then 3 * |Inputs(input[..frameLength], tailBiting)| else ERROR_INVALID_INPUTS
    ensures ret < 0 ==> output[..] == old(output[..])
    ensures ret >= 0 ==>
              var x := input[..frameLength];
              output[..ret] == Codeword(c, Start(x, tailBiting), Inputs(x, tailBiting))
    ensures forall k :: 3 * |Inputs(input[..frameLength], tailBiting)| <= k < output.Length ==>
              output[k] == old(output[k])
  {
    hide Par, Next, Coded;
    if frameLength <= K + 1 { return ERROR_INVALID_INPUTS; }
    ghost var x := input[..frameLength];
    ghost var us, s0 := Inputs(x, tailBiting), Start(x, tailBiting);
    var len := if tailBiting then frameLength else frameLength + K - 1;
    var sr := 0;
    if tailBiting {
      sr := TailState(input, frameLength);
    }
    EncodeBits(input, output, frameLength, c, sr, len, s0, us);
    return R * len;
  }

  /** The initial register of a tail-biting frame: its last six bits. */
  method TailState(input: array<bool>, frameLength: nat) returns (sr: nat)
    requires K < frameLength <= input.Length
    ensures sr < WRAP && sr % 64 == Start(input[..frameLength], true)
  {
    hide Next;
    ghost var x := input[..frameLength];
    ghost var tail := x[|x| - (K - 1)..];
    sr := 0;
    var i := frameLength - K + 1;
    while i < frameLength
      invariant frameLength - K + 1 <= i <= frameLength
      invariant 0 <= sr < WRAP && sr % 64 == At(0, tail, i - (frameLength - K + 1))
    {
      ShiftKeepsState(sr, input[i]);
      sr := (2 * sr) % WRAP + Num(input[i]);
      i := i + 1;
    }
  }

  /** The main loop of srslte_convcoder_encode. */
  method EncodeBits(input: array<bool>, output: array<bool>, frameLength: nat, c: Code, sr0: nat, len: nat,
                    ghost s0: State, ghost us: seq<bool>)
    requires c.p0 < 128 && c.p1 < 128 && c.p2 < 128 && input != output
    requires frameLength <= input.Length && frameLength <= |us| && 3 * |us| <= output.Length
    requires len == |us| && us == input[..frameLength] + Zeros(|us| - frameLength)
    requires sr0 < WRAP && sr0 % 64 == s0
    modifies output
    ensures output[..3 * |us|] == Codeword(c, s0, us)
    ensures forall k :: 3 * |us| <= k < output.Length ==> output[k] == old(output[k])
  {
    hide Par, Next, Coded;
    var sr := sr0;
    for i := 0 to len
      invariant 0 <= sr < WRAP && sr % 64 == At(s0, us, i)
      invariant forall k :: 0 <= k < 3 * i ==> output[k] == Coded(c, s0, us, k)
      invariant forall k :: 3 * len <= k < output.Length ==> output[k] == old(output[k])
    {
      var bit := if i < frameLength then input[i] else false;
      assert bit == us[i];
      ShiftKeepsState(sr, bit);
      sr := (2 * sr) % WRAP + Num(bit);
      EncodeOutputs(output, c, sr, i, s0, us);
    }
  }

  /** The outputs for the contents of the shift register after input i. */
  method EncodeOutputs(output: array<bool>, c: Code, sr: nat, i: nat, ghost s0: State, ghost us: seq<bool>)
    requires c.p0 < 128 && c.p1 < 128 && c.p2 < 128
    requires i < |us| && 3 * i + 3 <= output.Length && sr % 128 == RegisterAt(s0, us, i)
    modifies output
    ensures forall k :: 3 * i <= k < 3 * i + 3 ==> output[k] == Coded(c, s0, us, k)
    ensures forall k :: 0 <= k < 3 * i || 3 * i + 3 <= k < output.Length ==> output[k] == old(output[k])
  {
    for j := 0 to R
      invariant forall k :: 3 * i <= k < 3 * i + j ==> output[k] == Coded(c, s0, us, k)
      invariant forall k :: 0 <= k < 3 * i || 3 * i + 3 <= k < output.Length ==> output[k] == old(output[k])
    {
      OutputIs(c, sr, j, s0, us, i);
      output[R * i + j] := Par(sr, c.Poly(j));
    }
  }

  lemma OutputIs(c: Code, sr: nat, j: nat, s0: State, us: seq<bool>, i: nat)
    requires c.p0 < 128 && c.p1 < 128 && c.p2 < 128
    requires j < 3 && i < |us| && sr % 128 == RegisterAt(s0, us, i)
    ensures Par(sr, c.Poly(j)) == Coded(c, s0, us, 3 * i + j)
  {
    hide Par;
    ParOfLow(sr, c.Poly(j), 7);
    assert Pow2(7) == 128;
    assert (3 * i + j) / 3 == i && (3 * i + j) % 3 == j;
  }

  /** Shifting the 32-bit register keeps its low bits the state of the code. */
  lemma ShiftKeepsState(sr: nat, u: bool)
    requires sr < WRAP
    ensures var r := (2 * sr) % WRAP + Num(u);
            r < WRAP && r % 128 == Register(sr % 64, u) && r % 64 == Next(sr % 64, u)
  {
    var q, w := sr / 64, (2 * sr) % WRAP;
    var h := (2 * sr) / WRAP;
    assert sr == 64 * q + sr % 64;
    assert WRAP == 128 * 0x200_0000;
    assert w == 128 * (q - 0x200_0000 * h) + 2 * (sr % 64);
    assert w % 2 == 0;
    var r := w + Num(u);
    NumberTheory.ModUnique(r, 128, q - 0x200_0000 * h, 2 * (sr % 64) + Num(u));
    var g := 2 * (sr % 64) + Num(u);
    var e := g / 64;
    NumberTheory.ModUnique(r, 64, 2 * (q - 0x200_0000 * h) + e, g % 64);
  }
}

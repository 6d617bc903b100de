/** The 8-state recursive systematic convolutional code used by both constituent encoders of the
    turbo coder (srslte/lib/fec/turbocoder.c, section 5.1.3.2.1 of TS 36.212). */
module Trellis {

  /** The three shift-register cells; r0 is the newest. */
  datatype State = State(r0: bool, r1: bool, r2: bool)

  const ZERO := State(false, false, false)

  function Feedback(s: State): bool {
    s.r2 != s.r1
  }

  /** One clock of the register for input bit u. */
  function Next(s: State, u: bool): State {
    State(u != Feedback(s), s.r0, s.r1)
  }

  function Parity(s: State, u: bool): bool {
    s.r2 != (s.r0 != (u != Feedback(s)))
  }

  /** State number as the decoder and the byte tables count it: r0 is the most significant bit. */
  function Index(s: State): (i: nat)
    ensures i < 8
    ensures StateAt(i) == s
  {
    (if s.r0 then 4 else 0) + (if s.r1 then 2 else 0) + (if s.r2 then 1 else 0)
  }

  function StateAt(i: nat): State
    requires i < 8
  {
    State(i >= 4, i % 4 >= 2, i % 2 == 1)
  }

  /** The only state from which input u leads to s. */
  function Prev(s: State, u: bool): (p: State)
    ensures Next(p, u) == s
  {
    State(s.r1, s.r2, s.r2 != (u != s.r0))
  }

  lemma PrevOfNext(s: State, u: bool)
    ensures Prev(Next(s, u), u) == s
  {
  }

  function Run(s: State, us: seq<bool>): State
    decreases |us|
  {
    if us == [] then s else Run(Next(s, us[0]), us[1..])
  }

  function Parities(s: State, us: seq<bool>): (ps: seq<bool>)
    ensures |ps| == |us|
    decreases |us|
  {
    if us == [] then [] else [Parity(s, us[0])] + Parities(Next(s, us[0]), us[1..])
  }

  lemma {:induction false} RunAppend(s: State, us: seq<bool>, vs: seq<bool>)
    ensures Run(s, us + vs) == Run(Run(s, us), vs)
    ensures Parities(s, us + vs) == Parities(s, us) + Parities(Run(s, us), vs)
    decreases |us|
  {
    if us == [] {
      assert us + vs == vs;
    } else {
      assert (us + vs)[1..] == us[1..] + vs;
      RunAppend(Next(s, us[0]), us[1..], vs);
    }
  }

  lemma RunStep(s: State, us: seq<bool>, k: nat)
    requires k < |us|
    ensures Run(s, us[..k + 1]) == Next(Run(s, us[..k]), us[k])
    ensures Parities(s, us)[k] == Parity(Run(s, us[..k]), us[k])
  {
    assert us[..k + 1] == us[..k] + [us[k]];
    RunAppend(s, us[..k], [us[k]]);
    assert us == us[..k] + us[k..];
    RunAppend(s, us[..k], us[k..]);
  }

  /** The three inputs that cancel the feedback and so clear the register. */
  function Tail(s: State): (t: seq<bool>)
    ensures |t| == 3
  {
    var s1 := Next(s, Feedback(s));
    var s2 := Next(s1, Feedback(s1));
    [Feedback(s), Feedback(s1), Feedback(s2)]
  }

  lemma TailClears(s: State)
    ensures Run(s, Tail(s)) == ZERO
  {
    var t := Tail(s);
    var s1 := Next(s, t[0]);
    var s2 := Next(s1, t[1]);
    var s3 := Next(s2, t[2]);
    assert Run(s, t) == Run(s1, t[1..]) == Run(s2, t[1..][1..]) == Run(s3, t[1..][1..][1..]);
  }

  /** Bit t of a sequence that nothing but zeros precedes. */
  function At(us: seq<bool>, t: int): bool
    requires t < |us|
  {
    t >= 0 && us[t]
  }

  /** The transfer function: the parity polynomial times 1 + D^2 + D^3 is the input polynomial times
      1 + D + D^3. */
  lemma ParityRecurrence(us: seq<bool>, t: nat)
    requires t < |us|
    ensures var z := Parities(ZERO, us);
            (At(z, t) != (At(z, t - 2) != At(z, t - 3))) == (At(us, t) != (At(us, t - 1) != At(us, t - 3)))
  {
    hide Run, Parities;
    assert RunOf(us, 0) == ZERO by { EmptyRun(us); }
    RunOfStep(us, t);
    if t >= 1 { RunOfStep(us, t - 1); }
    if t >= 2 { RunOfStep(us, t - 2); }
    if t >= 3 { RunOfStep(us, t - 3); }
  }

  function RunOf(us: seq<bool>, t: nat): State
    requires t <= |us|
  {
    Run(ZERO, us[..t])
  }

  lemma EmptyRun(us: seq<bool>)
    ensures RunOf(us, 0) == ZERO
  {
  }

  lemma RunOfStep(us: seq<bool>, t: nat)
    requires t < |us|
    ensures RunOf(us, t + 1) == Next(RunOf(us, t), us[t]) && Parities(ZERO, us)[t] == Parity(RunOf(us, t), us[t])
  {
    RunStep(ZERO, us, t);
  }

  /** The input of a constituent encoder: the block followed by its own tail bits. */
  function Terminated(us: seq<bool>): (r: seq<bool>)
    ensures |r| == |us| + 3
  {
    us + Tail(Run(ZERO, us))
  }

  /** Both constituent encoders start and end in the all-zero state. */
  lemma TerminatedEndsAtZero(us: seq<bool>)
    ensures Run(ZERO, Terminated(us)) == ZERO
  {
    RunAppend(ZERO, us, Tail(Run(ZERO, us)));
    TailClears(Run(ZERO, us));
  }
}

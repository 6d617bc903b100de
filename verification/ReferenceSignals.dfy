/** Where the cell-specific reference signals are (srslte/lib/ch_estimation/refsignal_dl.c, section
    6.10.1.2 of TS 36.211). The control region and the shared channel keep off them, each with its own
    arithmetic. */
module ReferenceSignals {
  import opened NumberTheory

  /** srslte_refsignal_cs_v: the shift of the i-th symbol of the subframe that has references of the
      port. */
  function Shift(port: nat, i: nat): nat {
    match port
    case 0 => if i % 2 == 0 then 0 else 3
    case 1 => if i % 2 == 0 then 3 else 0
    case 2 => if i < 2 then 0 else 3
    case 3 => if i < 2 then 3 else 6
    case _ => 0
  }

  /** srslte_refsignal_cs_nof_symbols */
  function NofSymbols(port: nat): nat {
    if port < 2 then 4 else 2
  }

  /** srslte_refsignal_cs_nsymbol: that symbol, counted in the subframe. */
  function SymbolOf(nsymb: nat, port: nat, i: nat): int {
    if port < 2 then
      if i % 2 == 1 then (i / 2 + 1) * nsymb - 3 else i / 2 * nsymb
    else
      1 + i * nsymb
  }

  /** srslte_refsignal_cs_fidx: the subcarrier of its m-th reference. */
  function Subcarrier(id: nat, port: nat, i: nat, m: nat): nat {
    6 * m + (Shift(port, i) + id % 6) % 6
  }

  /** Subcarrier k of symbol l in slot s holds a reference of the port. */
  ghost predicate OnPort(id: nat, nsymb: nat, port: nat, s: nat, l: nat, k: nat) {
    exists i: nat, m: nat {:trigger Subcarrier(id, port, i, m)} ::
      i < NofSymbols(port) && SymbolOf(nsymb, port, i) == s * nsymb + l && Subcarrier(id, port, i, m) == k
  }

  /** Some port below the given number has a reference there. */
  ghost predicate IsPilot(id: nat, nsymb: nat, ports: nat, s: nat, l: nat, k: nat) {
    exists port: nat {:trigger OnPort(id, nsymb, port, s, l, k)} :: port < ports && OnPort(id, nsymb, port, s, l, k)
  }

  /** The shift of a port in symbol l, if it has references there. */
  function ShiftIn(nsymb: nat, port: nat, l: nat): (v: int)
    ensures -1 <= v <= 3
  {
    if port < 2 then
      if l == 0 then 3 * port else if l == nsymb - 3 then 3 - 3 * port else -1
    else if port < 4 && l == 1 then 3 * (port - 2)
    else -1
  }

  lemma SubcarrierResidue(id: nat, port: nat, i: nat, k: nat, m: nat)
    ensures Subcarrier(id, port, i, m) == k ==> k % 6 == (Shift(port, i) + id % 6) % 6
    ensures k % 6 == (Shift(port, i) + id % 6) % 6 ==> Subcarrier(id, port, i, k / 6) == k
  {
    hide Shift;
    var v := (Shift(port, i) + id % 6) % 6;
    ModUnique(6 * m + v, 6, m, v);
  }

  /** The symbols of a port, one by one. */
  lemma SymbolsOfPort(nsymb: nat, port: nat, i: nat, s: nat, l: nat)
    requires 6 <= nsymb <= 7 && port < 4 && i < NofSymbols(port) && s < 2 && l < nsymb
    ensures SymbolOf(nsymb, port, i) == s * nsymb + l ==>
              ShiftIn(nsymb, port, l) == Shift(port, i)
  {
  }

  lemma SymbolWithShift(nsymb: nat, port: nat, s: nat, l: nat) returns (i: nat)
    requires 6 <= nsymb <= 7 && port < 4 && s < 2 && l < nsymb && ShiftIn(nsymb, port, l) >= 0
    ensures i < NofSymbols(port) && SymbolOf(nsymb, port, i) == s * nsymb + l
    ensures Shift(port, i) == ShiftIn(nsymb, port, l)
  {
    i := if port < 2 then (if l == 0 then 2 * s else 2 * s + 1) else s;
  }

  /** The references of a port in a symbol, in closed form. */
  lemma OnPortIs(id: nat, nsymb: nat, port: nat, s: nat, l: nat, k: nat)
    requires 6 <= nsymb <= 7 && port < 4 && s < 2 && l < nsymb
    ensures OnPort(id, nsymb, port, s, l, k) <==>
              ShiftIn(nsymb, port, l) >= 0 && k % 6 == (ShiftIn(nsymb, port, l) + id % 6) % 6
  {
    hide Shift, ShiftIn, SymbolOf, Subcarrier;
    if OnPort(id, nsymb, port, s, l, k) {
      var i: nat, m: nat :| i < NofSymbols(port) && SymbolOf(nsymb, port, i) == s * nsymb + l
                            && Subcarrier(id, port, i, m) == k;
      SymbolsOfPort(nsymb, port, i, s, l);
      SubcarrierResidue(id, port, i, k, m);
    }
    if ShiftIn(nsymb, port, l) >= 0 && k % 6 == (ShiftIn(nsymb, port, l) + id % 6) % 6 {
      var i := SymbolWithShift(nsymb, port, s, l);
      SubcarrierResidue(id, port, i, k, 0);
    }
  }

  /** The references of a cell, in closed form: of one port every sixth subcarrier, of several every
      third, in the first and the third last symbol of a slot; the second symbol is for ports 2 and 3. */
  lemma PilotIs(id: nat, nsymb: nat, ports: nat, s: nat, l: nat, k: nat)
    requires 6 <= nsymb <= 7 && (ports == 1 || ports == 2 || ports == 4) && s < 2 && l < nsymb
    ensures IsPilot(id, nsymb, ports, s, l, k) <==>
              if ports == 1 then (l == 0 && k % 6 == id % 6) || (l == nsymb - 3 && k % 6 == (id + 3) % 6)
              else (l == 0 || l == nsymb - 3 || (l == 1 && ports == 4)) && k % 3 == id % 3
  {
    hide OnPort;
    OnPortIs(id, nsymb, 0, s, l, k);
    OnPortIs(id, nsymb, 1, s, l, k);
    OnPortIs(id, nsymb, 2, s, l, k);
    OnPortIs(id, nsymb, 3, s, l, k);
    SixThree(id, k);
    if ports > 0 { assert IsPilot(id, nsymb, ports, s, l, k) <== OnPort(id, nsymb, 0, s, l, k); }
  }

  lemma SixThree(id: nat, k: nat)
    ensures (3 + id % 6) % 6 == (id + 3) % 6 && (0 + id % 6) % 6 == id % 6
    ensures k % 3 == id % 3 <==> k % 6 == id % 6 || k % 6 == (id + 3) % 6
  {
    Residues(id);
    Residues(k);
  }

  lemma Residues(a: nat)
    ensures a % 3 == a % 6 % 3 && (a + 3) % 6 == (a % 6 + 3) % 6
  {
    var q, r := a / 6, a % 6;
    assert a == 6 * q + r;
    ModUnique(a, 3, 2 * q + r / 3, r % 3);
    ModUnique(a + 3, 6, q + (r + 3) / 6, (r + 3) % 6);
  }

  /** Of ports 2 and 3 section 6.10.1.2 of TS 36.211 exchanges the shifts in the second slot of a
      subframe. The two symbols that the code counts for these ports never reach that case. */
  lemma PortTwoStays(id: nat, nsymb: nat, k: nat)
    requires 6 <= nsymb <= 7
    ensures OnPort(id, nsymb, 2, 1, 1, k) <==> OnPort(id, nsymb, 2, 0, 1, k)
    ensures OnPort(id, nsymb, 2, 1, 1, k) <==> k % 6 == id % 6
  {
    hide OnPort;
    OnPortIs(id, nsymb, 2, 0, 1, k);
    OnPortIs(id, nsymb, 2, 1, 1, k);
  }
}

/** Reading a circular buffer while skipping some of its positions: the "bit selection" loops of
    the rate matchers, where dummy positions are passed over. */
module CircularBuffer {
  import opened NumberTheory

  /** The kept positions below p, in order. */
  function Kept(keep: seq<bool>, p: nat): (s: seq<nat>)
    requires p <= |keep|
    ensures |s| <= p
    ensures forall i :: 0 <= i < |s| ==> s[i] < p && keep[s[i]]
  {
    if p == 0 then [] else Kept(keep, p - 1) + (if keep[p - 1] then [p - 1] else [])
  }

  function Total(keep: seq<bool>): nat {
    |Kept(keep, |keep|)|
  }

  /** The n-th kept position when reading round the buffer from position start. */
  function Select(keep: seq<bool>, start: nat, n: nat): (p: nat)
    requires start <= |keep| && Total(keep) > 0
    ensures p < |keep| && keep[p]
  {
    Kept(keep, |keep|)[(|Kept(keep, start)| + n) % Total(keep)]
  }

  lemma {:induction false} KeptPrefix(keep: seq<bool>, p: nat, q: nat)
    requires p <= q <= |keep|
    ensures |Kept(keep, p)| <= |Kept(keep, q)| && Kept(keep, q)[..|Kept(keep, p)|] == Kept(keep, p)
    decreases q
  {
    if p < q { KeptPrefix(keep, p, q - 1); }
  }

  /** A kept position r below p has the index that the count of kept positions before it says. */
  lemma KeptBelow(keep: seq<bool>, r: nat, p: nat)
    requires r < p <= |keep| && keep[r]
    ensures |Kept(keep, r)| < |Kept(keep, p)| && Kept(keep, p)[|Kept(keep, r)|] == r
  {
    KeptPrefix(keep, r + 1, p);
    var all, head := Kept(keep, p), Kept(keep, r + 1);
    assert head == Kept(keep, r) + [r];
    assert all[..|head|] == head;
    assert all[|Kept(keep, r)|] == all[..|head|][|Kept(keep, r)|];
  }

  lemma KeptAt(keep: seq<bool>, p: nat)
    requires p < |keep| && keep[p]
    ensures |Kept(keep, p)| < Total(keep) && Kept(keep, |keep|)[|Kept(keep, p)|] == p
  {
    KeptBelow(keep, p, |keep|);
  }

  /** A position numbered at least |Kept(p)| lies at or beyond p. */
  lemma {:induction false} KeptBeyond(keep: seq<bool>, p: nat, q: nat, m: nat)
    requires p <= q <= |keep| && |Kept(keep, p)| <= m < |Kept(keep, q)|
    ensures Kept(keep, q)[m] >= p
    decreases q
  {
    if m < |Kept(keep, q - 1)| { KeptBeyond(keep, p, q - 1, m); }
  }

  lemma {:induction false} KeptIncreasing(keep: seq<bool>, p: nat, i: nat, j: nat)
    requires p <= |keep| && i < j < |Kept(keep, p)|
    ensures Kept(keep, p)[i] < Kept(keep, p)[j]
    decreases p
  {
    if j < |Kept(keep, p - 1)| { KeptIncreasing(keep, p - 1, i, j); }
  }

  lemma {:induction false} NoneKept(keep: seq<bool>, p: nat, q: nat)
    requires p <= q <= |keep| && forall i :: p <= i < q ==> !keep[i]
    ensures Kept(keep, p) == Kept(keep, q)
    decreases q
  {
    if p < q { NoneKept(keep, p, q - 1); }
  }

  lemma KeptStep(keep: seq<bool>, p: nat)
    requires p < |keep|
    ensures |Kept(keep, p + 1)| == |Kept(keep, p)| + if keep[p] then 1 else 0
  {
  }

  // ---- the reading loop -------------------------------------------------------------------

  /** After n kept positions, read from start, the reader stands at position p. */
  ghost predicate Reading(keep: seq<bool>, start: nat, n: nat, p: nat)
    requires start <= |keep| && Total(keep) > 0
  {
    p < |keep| && |Kept(keep, p)| % Total(keep) == (|Kept(keep, start)| + n) % Total(keep)
  }

  lemma ReadStart(keep: seq<bool>, start: nat)
    requires start < |keep| && Total(keep) > 0
    ensures Reading(keep, start, 0, start)
  {
  }

  /** How far the reader is from a wrap; beyond the last kept position a whole lap counts on top. */
  ghost function Ahead(keep: seq<bool>, p: nat): (d: nat)
    requires p < |keep|
    ensures d > 0
  {
    if |Kept(keep, p)| < Total(keep) then |keep| - p else 2 * |keep| - p
  }

  function Advance(keep: seq<bool>, p: nat): (q: nat)
    requires p < |keep|
    ensures q < |keep|
  {
    if p + 1 == |keep| then 0 else p + 1
  }

  lemma ReadKept(keep: seq<bool>, start: nat, n: nat, p: nat)
    requires start <= |keep| && Total(keep) > 0 && Reading(keep, start, n, p) && keep[p]
    ensures Select(keep, start, n) == p && Reading(keep, start, n + 1, Advance(keep, p))
  {
    var t, c, q := Total(keep), |Kept(keep, p)|, Advance(keep, p);
    KeptAt(keep, p);
    SmallMod(c, t);
    assert |Kept(keep, p + 1)| == c + 1;
    var c' := |Kept(keep, q)|;
    assert c' == if p + 1 == |keep| then 0 else c + 1;
    hide Kept;
    SuccMod(|Kept(keep, start)| + n, t);
    SuccMod(c, t);
    SmallMod(0, t);
    assert |Kept(keep, start)| + (n + 1) == |Kept(keep, start)| + n + 1;
  }

  lemma ReadSkipped(keep: seq<bool>, start: nat, n: nat, p: nat)
    requires start <= |keep| && Total(keep) > 0 && Reading(keep, start, n, p) && !keep[p]
    ensures Reading(keep, start, n, Advance(keep, p)) && Ahead(keep, Advance(keep, p)) < Ahead(keep, p)
  {
    var t, c, q := Total(keep), |Kept(keep, p)|, Advance(keep, p);
    assert |Kept(keep, p + 1)| == c;
    var c' := |Kept(keep, q)|;
    assert c' == if p + 1 == |keep| then 0 else c;
    hide Kept;
    SmallMod(0, t);
  }

  /** One step of the reader: it is at the next selected position exactly when that is kept, and
      it gets there in finitely many steps. */
  lemma ReadStep(keep: seq<bool>, start: nat, n: nat, p: nat)
    requires start <= |keep| && Total(keep) > 0 && Reading(keep, start, n, p)
    ensures keep[p] ==> Select(keep, start, n) == p && Reading(keep, start, n + 1, Advance(keep, p))
    ensures !keep[p] ==> Reading(keep, start, n, Advance(keep, p)) && Ahead(keep, Advance(keep, p)) < Ahead(keep, p)
  {
    if keep[p] { ReadKept(keep, start, n, p); } else { ReadSkipped(keep, start, n, p); }
  }

  /** The place k steps after start when going round a buffer of t places. */
  function Round(start: nat, k: nat, t: nat): (p: nat)
    requires t > 0
    ensures p < t
  {
    (start + k) % t
  }

  /** One step further round is the reader's advance. */
  lemma RoundStep(keep: seq<bool>, start: nat, k: nat)
    requires |keep| > 0
    ensures Round(start, k + 1, |keep|) == Advance(keep, Round(start, k, |keep|))
  {
    SuccMod(start + k, |keep|);
  }

  lemma RoundStart(start: nat, t: nat)
    requires t > 0
    ensures Round(start, 0, t) == start % t
  {
  }

  /** Going round from position p, the first kept one is met after d steps. */
  ghost predicate FirstKept(keep: seq<bool>, p: nat, d: nat) {
    && |keep| > 0 && keep[Round(p, d, |keep|)]
    && forall e :: 0 <= e < d ==> !keep[Round(p, e, |keep|)]
  }

  lemma {:induction false} SkipsTo(keep: seq<bool>, start: nat, n: nat, p: nat, d: nat)
    requires start <= |keep| && Total(keep) > 0 && Reading(keep, start, n, p)
    requires forall e :: 0 <= e < d ==> !keep[Round(p, e, |keep|)]
    ensures Reading(keep, start, n, Round(p, d, |keep|))
  {
    hide Kept, Round, Total;
    RoundStart(p, |keep|);
    if d == 0 {
      SmallMod(p, |keep|);
    } else {
      SkipsTo(keep, start, n, p, d - 1);
      ReadSkipped(keep, start, n, Round(p, d - 1, |keep|));
      RoundStep(keep, p, d - 1);
    }
  }

  /** What reading round the buffer means: the first position selected is the first kept one from the
      start on, and the next one is the first kept one behind the position selected before. */
  lemma SelectsNext(keep: seq<bool>, start: nat, n: nat, d: nat)
    requires start < |keep| && Total(keep) > 0
    ensures FirstKept(keep, start, d) ==> Select(keep, start, 0) == Round(start, d, |keep|)
    ensures var p := Select(keep, start, n) + 1;
            FirstKept(keep, p, d) ==> Select(keep, start, n + 1) == Round(p, d, |keep|)
  {
    hide Kept, Round, Total, Select;
    if FirstKept(keep, start, d) {
      ReadStart(keep, start);
      SkipsTo(keep, start, 0, start, d);
      ReadKept(keep, start, 0, Round(start, d, |keep|));
    }
    var p := Select(keep, start, n);
    if FirstKept(keep, p + 1, d) {
      SelectReads(keep, start, n);
      ReadKept(keep, start, n, p);
      forall e: nat | e <= d
        ensures Round(Advance(keep, p), e, |keep|) == Round(p + 1, e, |keep|)
      {
        RoundWraps(p + 1, e, |keep|);
      }
      SkipsTo(keep, start, n + 1, Advance(keep, p), d);
      ReadKept(keep, start, n + 1, Round(p + 1, d, |keep|));
    }
  }

  lemma SelectReads(keep: seq<bool>, start: nat, n: nat)
    requires start <= |keep| && Total(keep) > 0
    ensures Reading(keep, start, n, Select(keep, start, n))
  {
    var t := Total(keep);
    var m := (|Kept(keep, start)| + n) % t;
    KeptAt(keep, Select(keep, start, n));
    var p := Select(keep, start, n);
    if |Kept(keep, p)| < m { KeptIncreasing(keep, |keep|, |Kept(keep, p)|, m); }
    if |Kept(keep, p)| > m { KeptIncreasing(keep, |keep|, m, |Kept(keep, p)|); }
    SmallMod(m, t);
  }

  lemma RoundWraps(p: nat, e: nat, t: nat)
    requires p <= t && t > 0
    ensures Round(if p == t then 0 else p, e, t) == Round(p, e, t)
  {
    if p == t {
      var q, r := e / t, e % t;
      ModUnique(t + e, t, q + 1, r);
    }
  }

  lemma SmallMod(c: nat, t: nat)
    requires c < t
    ensures c % t == c && t % t == 0
  {
    ModUnique(c, t, 0, c);
    ModUnique(t, t, 1, 0);
  }

  lemma SuccMod(a: nat, t: nat)
    requires t > 0
    ensures (a + 1) % t == if a % t + 1 == t then 0 else a % t + 1
  {
    var q, c := a / t, a % t;
    if c + 1 == t {
      assert a + 1 == t * q + t == t * (q + 1);
      ModUnique(a + 1, t, q + 1, 0);
    } else {
      ModUnique(a + 1, t, q, c + 1);
    }
  }
}

/** Permutations of an initial segment of the naturals, given as sequences. */
module Permutations {

  ghost predicate IsPermutation(f: seq<nat>) {
    && (forall i :: 0 <= i < |f| ==> f[i] < |f|)
    && (forall i, j :: 0 <= i < j < |f| ==> f[i] != f[j])
  }

  ghost predicate Distinct(f: seq<nat>) {
    forall i, j :: 0 <= i < j < |f| ==> f[i] != f[j]
  }

  ghost predicate MutuallyInverse(f: seq<nat>, g: seq<nat>) {
    && |f| == |g|
    && (forall i :: 0 <= i < |f| ==> f[i] < |f| && g[f[i]] == i)
    && (forall i :: 0 <= i < |g| ==> g[i] < |g| && f[g[i]] == i)
  }

  lemma InverseBounds(f: seq<nat>, g: seq<nat>)
    requires MutuallyInverse(f, g)
    ensures |f| == |g|
    ensures forall i :: 0 <= i < |f| ==> f[i] < |f|
    ensures forall i :: 0 <= i < |g| ==> g[i] < |g|
  {
  }

  ghost function Elements(f: seq<nat>): set<nat> {
    set x | x in f
  }

  ghost function Below(n: nat): (s: set<nat>)
    ensures |s| == n
    ensures forall x :: x in s <==> 0 <= x < n
  {
    if n == 0 then {} else Below(n - 1) + {n - 1}
  }

  lemma {:induction false} DistinctCardinality(f: seq<nat>)
    requires forall i, j :: 0 <= i < j < |f| ==> f[i] != f[j]
    ensures |Elements(f)| == |f|
  {
    if f != [] {
      var init, last := f[..|f| - 1], f[|f| - 1];
      DistinctCardinality(init);
      assert Elements(f) == Elements(init) + {last};
      assert last !in Elements(init);
    }
  }

  lemma SubsetOfSameSize<T>(a: set<T>, b: set<T>)
    requires a <= b && |a| == |b|
    ensures a == b
  {
    assert b == a + (b - a);
    assert |b - a| == 0;
  }

  /** Pigeonhole: distinct values below n, n of them, hit every value below n. */
  lemma PermutationHits(f: seq<nat>, y: nat)
    requires IsPermutation(f) && y < |f|
    ensures y in f
  {
    DistinctCardinality(f);
    SubsetOfSameSize(Elements(f), Below(|f|));
    assert y in Elements(f);
  }

  /** A table of back references written while scanning a permutation inverts it. */
  lemma ScanInverts(f: seq<nat>, g: seq<nat>)
    requires IsPermutation(f) && |g| == |f|
    requires forall i :: 0 <= i < |f| ==> g[f[i]] == i
    ensures MutuallyInverse(f, g)
  {
    forall y | 0 <= y < |g|
      ensures g[y] < |g| && f[g[y]] == y
    {
      PermutationHits(f, y);
    }
  }
}

/**
 * Sums and shares over tables of counts: the arithmetic behind the
 * quality distribution and the rent-by-income distribution.
 */
module Tally {

  /** A set other than the empty set has an element. */
  lemma NonEmptyHasElement(s: set<int>)
    requires s != {}
    ensures exists x :: x in s
  {
    if forall y :: y !in s {
      assert false;
    }
  }

  /** Some element of a non-empty set. */
  ghost function Pick(s: set<int>): (x: int)
    requires s != {}
    ensures x in s
  {
    NonEmptyHasElement(s);
    var x :| x in s; x
  }

  /**
   * The elements of a set listed once each, in the order a traversal of the
   * set meets them (the source's `toArray` of a hash set).
   */
  method ListOf(s: set<int>) returns (xs: seq<int>)
    ensures |xs| == |s|
    ensures forall i :: 0 <= i < |xs| ==> xs[i] in s
    ensures forall x :: x in s ==> x in xs
    ensures forall i, j :: 0 <= i < j < |xs| ==> xs[i] != xs[j]
  {
    xs := [];
    var rest := s;
    while rest != {}
      invariant rest <= s
      invariant |xs| + |rest| == |s|
      invariant forall i :: 0 <= i < |xs| ==> xs[i] in s && xs[i] !in rest
      invariant forall x :: x in s ==> x in xs || x in rest
      invariant forall i, j :: 0 <= i < j < |xs| ==> xs[i] != xs[j]
      decreases |rest|
    {
      NonEmptyHasElement(rest);
      var x :| x in rest;
      xs := xs + [x];
      rest := rest - {x};
    }
  }

  /** A sequence with `d` added to entry `i`. */
  function AddAt(s: seq<int>, i: nat, d: int): (r: seq<int>)
    requires i < |s|
    ensures |r| == |s|
    ensures forall k :: 0 <= k < |r| ==> r[k] == s[k] + (if k == i then d else 0)
  {
    s[i := s[i] + d]
  }

  /** A table with one cell incremented. */
  function Increment(table: seq<seq<int>>, i: nat, j: nat): (r: seq<seq<int>>)
    requires i < |table| && j < |table[i]|
    ensures |r| == |table|
    ensures forall k :: 0 <= k < |r| ==> |r[k]| == |table[k]|
    ensures forall k, l :: 0 <= k < |r| && 0 <= l < |r[k]| ==> r[k][l] == table[k][l] + (if k == i && l == j then 1 else 0)
  {
    table[i := table[i][j := table[i][j] + 1]]
  }

  /** Sum of a sequence of integers, taken from the last element. */
  function Sum(s: seq<int>): int
  {
    if s == [] then 0 else Sum(s[..|s| - 1]) + s[|s| - 1]
  }

  /** Sum of a sequence of reals, taken from the last element. */
  function RealSum(s: seq<real>): real
  {
    if s == [] then 0.0 else RealSum(s[..|s| - 1]) + s[|s| - 1]
  }

  /** Adding `d` to one cell adds `d` to the sum. */
  lemma {:induction false} SumUpdate(s: seq<int>, k: nat, d: int)
    requires k < |s|
    ensures Sum(s[k := s[k] + d]) == Sum(s) + d
  {
    var n := |s|;
    var t := s[k := s[k] + d];
    if k == n - 1 {
      assert t[..n - 1] == s[..n - 1];
    } else {
      assert t[..n - 1] == s[..n - 1][k := s[k] + d];
      SumUpdate(s[..n - 1], k, d);
    }
  }

  /** A table of zeros sums to zero. */
  lemma {:induction false} SumZeros(s: seq<int>)
    requires forall i :: 0 <= i < |s| ==> s[i] == 0
    ensures Sum(s) == 0
  {
    if s != [] {
      SumZeros(s[..|s| - 1]);
    }
  }

  /** Every count divided by `total`, the shares of a table of counts. */
  function Fractions(counts: seq<int>, total: nat): (r: seq<real>)
    requires total > 0
    ensures |r| == |counts|
    ensures forall i :: 0 <= i < |r| ==> r[i] * (total as real) == counts[i] as real
  {
    seq(|counts|, i requires 0 <= i < |counts| => counts[i] as real / total as real)
  }

  /** The shares of a table of counts add up to the table's sum over `total`. */
  lemma {:induction false} FractionsSum(counts: seq<int>, total: nat)
    requires total > 0
    ensures RealSum(Fractions(counts, total)) * (total as real) == Sum(counts) as real
  {
    var f := Fractions(counts, total);
    if counts != [] {
      var n := |counts|;
      assert Fractions(counts[..n - 1], total) == f[..n - 1];
      FractionsSum(counts[..n - 1], total);
      assert RealSum(f) * (total as real) == RealSum(f[..n - 1]) * (total as real) + f[n - 1] * (total as real);
    }
  }

  /** Shares of a table whose sum is its total add up to one. */
  lemma SharesSumToOne(counts: seq<int>, total: nat)
    requires total > 0 && Sum(counts) == total
    ensures RealSum(Fractions(counts, total)) == 1.0
  {
    FractionsSum(counts, total);
  }

  /** The multiplicities of 0..k in a multiset, as a table (the source's `Multiset.count`). */
  function CountsOf(m: multiset<int>, k: nat): (r: seq<nat>)
    ensures |r| == k + 1
    ensures forall v :: 0 <= v <= k ==> r[v] == m[v]
  {
    seq(k + 1, v requires 0 <= v <= k => m[v])
  }

  /** Adding one occurrence of `v` in 0..k increments the table's entry for `v`. */
  lemma CountsOfAdd(rest: multiset<int>, v: nat, k: nat)
    requires v <= k
    ensures CountsOf(rest + multiset{v}, k) == CountsOf(rest, k)[v := rest[v] + 1]
  {
  }

  /** When every element of `m` lies in 0..k, the multiplicities of 0..k add up to the multiset's size. */
  lemma {:induction false} CountsCoverMultiset(m: multiset<int>, k: nat)
    requires forall v :: v in m ==> 0 <= v <= k
    ensures Sum(CountsOf(m, k)) == |m|
    decreases |m|
  {
    if m == multiset{} {
      SumZeros(CountsOf(m, k));
    } else {
      if forall x :: m[x] == 0 {
        assert false;
      }
      var v :| v in m;
      var rest := m - multiset{v};
      assert m == rest + multiset{v};
      CountsCoverMultiset(rest, k);
      CountsOfAdd(rest, v, k);
      SumUpdate(CountsOf(rest, k), v, 1);
    }
  }
}

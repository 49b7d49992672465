// Scattering a list by a random permutation.

module Shuffle {
  import opened Basics

  // What rand.Perm(n) returns.
  ghost predicate IsPermutation(perm: seq<nat>, n: nat) {
    |perm| == n && Distinct(perm) && forall i :: 0 <= i < n ==> 0 <= perm[i] < n
  }

  function Range(n: nat): (r: set<nat>)
    ensures |r| == n && forall i: nat :: i in r <==> i < n
  {
    if n == 0 then {} else Range(n - 1) + {n - 1}
  }

  // A permutation hits every slot.
  lemma {:induction false} PermutationOnto(perm: seq<nat>, n: nat, v: nat)
    requires IsPermutation(perm, n) && v < n
    ensures exists i :: 0 <= i < n && perm[i] == v
  {
    DistinctCardinality(perm);
    SubsetCardinality(Elements(perm), Range(n));
    assert v in Elements(perm);
  }

  // Slot perm[i] of `d` holds item i of `s`.
  ghost predicate Scattered<T>(d: seq<T>, s: seq<T>, perm: seq<nat>) {
    && |d| == |s|
    && IsPermutation(perm, |s|)
    && forall i :: 0 <= i < |s| ==> d[perm[i]] == s[i]
  }

  function Drop<T>(s: seq<T>, j: nat): seq<T>
    requires j < |s|
  {
    s[..j] + s[j + 1..]
  }

  lemma {:induction false} DropScattered<T>(d: seq<T>, s: seq<T>, perm: seq<nat>, j: nat)
    requires Scattered(d, s, perm) && j < |s| && perm[j] == |s| - 1
    ensures Scattered(d[..|s| - 1], Drop(s, j), Drop(perm, j))
  {
    var n, s', p' := |s| - 1, Drop(s, j), Drop(perm, j);
    forall i | 0 <= i < n ensures p'[i] < n && d[..n][p'[i]] == s'[i] {
      var k := if i < j then i else i + 1;
      assert p'[i] == perm[k] && perm[k] != perm[j];
    }
    forall i, k | 0 <= i < k < n ensures p'[i] != p'[k] {
      assert p'[i] == perm[if i < j then i else i + 1] && p'[k] == perm[if k < j then k else k + 1];
    }
  }

  lemma {:induction false} DropMultiset<T>(s: seq<T>, j: nat)
    requires j < |s|
    ensures multiset(s) == multiset(Drop(s, j)) + multiset{s[j]}
  {
    assert s == s[..j] + [s[j]] + s[j + 1..];
  }

  // The scatter is a permutation of the items.
  lemma {:induction false} ScatteredSame<T>(d: seq<T>, s: seq<T>, perm: seq<nat>)
    requires Scattered(d, s, perm)
    ensures multiset(d) == multiset(s)
    decreases |s|
  {
    var n := |s|;
    if n == 0 {
      assert d == s;
    } else {
      PermutationOnto(perm, n, n - 1);
      var j :| 0 <= j < n && perm[j] == n - 1;
      DropScattered(d, s, perm, j);
      ScatteredSame(d[..n - 1], Drop(s, j), Drop(perm, j));
      DropMultiset(s, j);
      DropMultiset(d, n - 1);
      assert Drop(d, n - 1) == d[..n - 1];
    }
  }

  method Scatter<T(0)>(items: seq<T>, perm: seq<nat>) returns (shuffled: array<T>)
    requires IsPermutation(perm, |items|)
    ensures fresh(shuffled) && Scattered(shuffled[..], items, perm)
    ensures multiset(shuffled[..]) == multiset(items)
  {
    shuffled := new T[|items|];
    for i := 0 to |perm|
      invariant forall k :: 0 <= k < i ==> shuffled[perm[k]] == items[k]
    {
      shuffled[perm[i]] := items[i];
    }
    ScatteredSame(shuffled[..], items, perm);
  }

  // Items that differ pairwise still do after the scatter.
  lemma {:induction false} ScatteredDistinct<T>(d: seq<T>, s: seq<T>, perm: seq<nat>)
    requires Scattered(d, s, perm)
    ensures Distinct(d) <==> Distinct(s)
  {
    forall i, j | 0 <= i < j < |s| ensures perm[i] != perm[j] && d[perm[i]] == s[i] && d[perm[j]] == s[j] {
    }
    if Distinct(s) {
      forall v, w | 0 <= v < w < |d| ensures d[v] != d[w] {
        PermutationOnto(perm, |s|, v);
        PermutationOnto(perm, |s|, w);
        var i :| 0 <= i < |s| && perm[i] == v;
        var j :| 0 <= j < |s| && perm[j] == w;
        assert s[i] != s[j];
      }
    }
    if Distinct(d) {
      forall i, j | 0 <= i < j < |s| ensures s[i] != s[j] {
        assert d[perm[i]] != d[perm[j]];
      }
    }
  }
}

/**
 The parent relation between threads, as a map from a thread to its parent. Every
 traversal of the thread forest (the descendants listing, the subtree fixpoint and
 the upward walks) is related to the same notion of ancestor. Nothing here assumes
 that the relation is acyclic.
 */
module Ancestry {
  import opened Common

  type Parents = map<string, string>

  /** The ancestor `n` steps above `x`, if the chain is that long. */
  function Up(parents: Parents, x: string, n: nat): Option<string>
    decreases n
  {
    if n == 0 then Some(x)
    else if x in parents then Up(parents, parents[x], n - 1)
    else None
  }

  /** `x` is reached from `r` by one or more parent-to-child edges. */
  ghost predicate Descends(parents: Parents, x: string, r: string) {
    exists n: nat :: n >= 1 && Up(parents, x, n) == Some(r)
  }

  /** No thread is its own ancestor. */
  ghost predicate Acyclic(parents: Parents) {
    forall x :: !Descends(parents, x, x)
  }

  lemma {:induction false} UpAdd(parents: Parents, x: string, m: nat, n: nat)
    requires Up(parents, x, m).Some?
    ensures Up(parents, x, m + n) == Up(parents, Up(parents, x, m).value, n)
    decreases m
  {
    if m > 0 {
      UpAdd(parents, parents[x], m - 1, n);
    }
  }

  lemma {:induction false} UpShorter(parents: Parents, x: string, m: nat, n: nat)
    requires m <= n && Up(parents, x, n).Some?
    ensures Up(parents, x, m).Some?
    decreases m
  {
    if m > 0 {
      UpShorter(parents, parents[x], m - 1, n - 1);
    }
  }

  lemma DescendsStep(parents: Parents, x: string, r: string)
    ensures Descends(parents, x, r) <==> x in parents && (parents[x] == r || Descends(parents, parents[x], r))
  {
    if Descends(parents, x, r) {
      var n: nat :| n >= 1 && Up(parents, x, n) == Some(r);
      assert x in parents && Up(parents, parents[x], n - 1) == Some(r);
    }
    if x in parents && parents[x] == r {
      assert Up(parents, x, 1) == Up(parents, parents[x], 0) == Some(r);
    }
    if x in parents && Descends(parents, parents[x], r) {
      var n: nat :| n >= 1 && Up(parents, parents[x], n) == Some(r);
      assert Up(parents, x, n + 1) == Some(r);
    }
  }

  /** A chain of threads from `x` up to `r`, each one's parent the next. */
  ghost predicate IsChain(parents: Parents, chain: seq<string>, x: string, r: string) {
    && |chain| >= 2 && chain[0] == x && chain[|chain| - 1] == r
    && forall i :: 0 <= i < |chain| - 1 ==> chain[i] in parents && parents[chain[i]] == chain[i + 1]
  }

  /** A thread descends from another iff a chain leads up to it. */
  lemma DescendsByChain(parents: Parents, x: string, r: string)
    ensures Descends(parents, x, r) <==> exists chain :: IsChain(parents, chain, x, r)
  {
    if Descends(parents, x, r) {
      var n: nat :| n >= 1 && Up(parents, x, n) == Some(r);
      var chain := ChainOf(parents, x, r, n);
    }
    if chain :| IsChain(parents, chain, x, r) {
      ChainClimbs(parents, chain, x, r);
    }
  }

  lemma {:induction false} ChainOf(parents: Parents, x: string, r: string, n: nat) returns (chain: seq<string>)
    requires n >= 1 && Up(parents, x, n) == Some(r)
    ensures IsChain(parents, chain, x, r)
    decreases n
  {
    if n == 1 {
      assert Up(parents, x, 1) == Up(parents, parents[x], 0);
      chain := [x, r];
    } else {
      var above := ChainOf(parents, parents[x], r, n - 1);
      chain := [x] + above;
    }
  }

  lemma {:induction false} ChainClimbs(parents: Parents, chain: seq<string>, x: string, r: string)
    requires IsChain(parents, chain, x, r)
    ensures Descends(parents, x, r)
    decreases |chain|
  {
    if |chain| > 2 { ChainClimbs(parents, chain[1..], chain[1], r); }
    DescendsStep(parents, x, r);
  }

  /** Once an upward chain repeats, everything above it has already been visited. */
  lemma {:induction false} RepeatedChain(parents: Parents, x: string, j: nat, k: nat, n: nat)
    requires j < k && Up(parents, x, j).Some? && Up(parents, x, j) == Up(parents, x, k)
    requires Up(parents, x, n).Some?
    ensures exists i: nat :: i < k && Up(parents, x, i) == Up(parents, x, n)
    decreases n
  {
    if n >= k {
      var d := n - k;
      UpAdd(parents, x, k, d);
      UpAdd(parents, x, j, d);
      RepeatedChain(parents, x, j, k, j + d);
    }
  }

  // Distance: the least number of edges from r down to x.

  ghost predicate IsDistance(parents: Parents, x: string, r: string, d: nat) {
    && d >= 1 && Up(parents, x, d) == Some(r)
    && forall n: nat | 1 <= n < d :: Up(parents, x, n) != Some(r)
  }

  lemma {:induction false} LeastDistance(parents: Parents, x: string, r: string, n: nat) returns (d: nat)
    requires n >= 1 && Up(parents, x, n) == Some(r)
    ensures IsDistance(parents, x, r, d)
  {
    if m: nat :| 1 <= m < n && Up(parents, x, m) == Some(r) {
      d := LeastDistance(parents, x, r, m);
    } else {
      d := n;
    }
  }

  ghost function Distance(parents: Parents, x: string, r: string): (d: nat)
    requires Descends(parents, x, r)
    ensures IsDistance(parents, x, r, d)
  {
    assert exists d: nat :: IsDistance(parents, x, r, d) by {
      var n: nat :| n >= 1 && Up(parents, x, n) == Some(r);
      var d := LeastDistance(parents, x, r, n);
    }
    var d: nat :| IsDistance(parents, x, r, d);
    d
  }

  /** A child of the root is at distance one; any other child is one below its parent. */
  lemma ChildDistance(parents: Parents, x: string, r: string)
    requires Descends(parents, x, r)
    ensures x in parents
    ensures parents[x] == r ==> Distance(parents, x, r) == 1
    ensures parents[x] != r ==> Descends(parents, parents[x], r)
    ensures parents[x] != r ==> Distance(parents, x, r) == Distance(parents, parents[x], r) + 1
  {
    DescendsStep(parents, x, r);
    var d := Distance(parents, x, r);
    var p := parents[x];
    assert Up(parents, x, 1) == Up(parents, p, 0) == Some(p);
    if p != r {
      var e := Distance(parents, p, r);
      assert Up(parents, x, e + 1) == Up(parents, p, e);
      assert Up(parents, x, d) == Up(parents, p, d - 1);
    }
  }
}

/** Control-flow graphs as Alive2's analyses see them.

    Blocks are named by their position in the function's block order; block 0 is
    the entry and position `|g|` is the sink, which has no successors.  `g[b]`
    lists the jump targets of block `b`, in order and with repetitions. */
module Cfg {

  type Graph = seq<seq<nat>>

  ghost predicate WellFormed(g: Graph) {
    |g| > 0 && forall b, k :: 0 <= b < |g| && 0 <= k < |g[b]| ==> g[b][k] <= |g|
  }

  ghost predicate Edge(g: Graph, a: nat, b: nat) {
    a < |g| && b in g[a]
  }

  ghost predicate IsPath(g: Graph, p: seq<nat>) {
    |p| > 0 && forall i :: 0 <= i < |p| - 1 ==> Edge(g, p[i], p[i + 1])
  }

  ghost predicate PathTo(g: Graph, p: seq<nat>, b: nat) {
    IsPath(g, p) && p[0] == 0 && p[|p| - 1] == b
  }

  /** `a` lies on every path from the entry to `b`. */
  ghost predicate Dominates(g: Graph, a: nat, b: nat) {
    forall p :: PathTo(g, p, b) ==> a in p
  }

  /** The entry has no predecessors, and every other block has one that comes
      before it.  A reverse postorder of a fully reachable graph is such an order. */
  ghost predicate ForwardReachable(g: Graph) {
    && (forall a :: !Edge(g, a, 0))
    && (forall b :: 0 < b < |g| ==> HasEarlierPredecessor(g, b))
  }

  ghost predicate HasEarlierPredecessor(g: Graph, b: nat) {
    exists a: nat :: a < b && Edge(g, a, b)
  }

  /** The order is topological: every jump goes forward. */
  ghost predicate Forward(g: Graph) {
    forall a, b :: Edge(g, a, b) ==> a < b
  }

  /** Jumps of a path that do not go forward in the block order. */
  ghost function Retreats(p: seq<nat>): nat {
    if |p| <= 1 then 0
    else Retreats(p[..|p| - 1]) + if p[|p| - 1] <= p[|p| - 2] then 1 else 0
  }

  lemma {:induction false} RetreatsPrefix(p: seq<nat>, i: nat)
    requires i < |p|
    ensures Retreats(p[..i + 1]) <= Retreats(p)
    decreases |p|
  {
    if i + 1 == |p| {
      assert p[..i + 1] == p;
    } else {
      RetreatsPrefix(p[..|p| - 1], i);
      assert p[..|p| - 1][..i + 1] == p[..i + 1];
    }
  }

  lemma {:induction false} RetreatsBound(p: seq<nat>)
    requires |p| > 0
    ensures Retreats(p) <= |p| - 1
  {
    if |p| > 1 {
      RetreatsBound(p[..|p| - 1]);
    }
  }

  lemma PathPrefix(g: Graph, p: seq<nat>, i: nat)
    requires IsPath(g, p) && i < |p|
    ensures IsPath(g, p[..i + 1])
  {
    var q := p[..i + 1];
    forall j | 0 <= j < |q| - 1
      ensures Edge(g, q[j], q[j + 1])
    {
      assert Edge(g, p[j], p[j + 1]);
    }
  }

  lemma PathAppend(g: Graph, p: seq<nat>, q: seq<nat>)
    requires IsPath(g, p) && IsPath(g, q) && p[|p| - 1] == q[0]
    ensures IsPath(g, p + q[1..])
    ensures (p + q[1..])[|p + q[1..]| - 1] == q[|q| - 1]
  {
    var r := p + q[1..];
    forall i | 0 <= i < |r| - 1
      ensures Edge(g, r[i], r[i + 1])
    {
      if i < |p| - 1 {
        assert Edge(g, p[i], p[i + 1]);
      } else {
        var j := i - (|p| - 1);
        assert r[i] == q[j] && r[i + 1] == q[j + 1];
      }
    }
  }

  lemma {:induction false} Pigeonhole(p: seq<nat>, n: nat) returns (i: nat, j: nat)
    requires |p| > n && forall k :: 0 <= k < |p| ==> p[k] < n
    ensures i < j < |p| && p[i] == p[j]
    decreases n
  {
    if i0 :| 0 <= i0 < |p| && p[i0] == n - 1 {
      if j0 :| i0 < j0 < |p| && p[j0] == n - 1 {
        return i0, j0;
      }
      if j0 :| 0 <= j0 < i0 && p[j0] == n - 1 {
        return j0, i0;
      }
      var q := p[..i0] + p[i0 + 1..];
      var a, b := Pigeonhole(q, n - 1);
      return if a < i0 then a else a + 1, if b < i0 then b else b + 1;
    } else {
      assert p[0] < n;
      i, j := Pigeonhole(p, n - 1);
    }
  }

  /** Cutting cycles out of a path leaves a path over some of the same blocks
      with at most `|g|` blocks. */
  lemma {:induction false} ShortPath(g: Graph, p: seq<nat>, b: nat) returns (q: seq<nat>)
    requires PathTo(g, p, b) && b < |g|
    ensures PathTo(g, q, b) && |q| <= |g| && forall x :: x in q ==> x in p
    decreases |p|
  {
    if |p| <= |g| {
      return p;
    }
    forall k | 0 <= k < |p|
      ensures p[k] < |g|
    {
      assert k < |p| - 1 ==> Edge(g, p[k], p[k + 1]);
    }
    var i, j := Pigeonhole(p, |g|);
    var r := p[..i + 1] + p[j + 1..];
    forall k | 0 <= k < |r| - 1
      ensures Edge(g, r[k], r[k + 1])
    {
      if k < i {
        assert r[k] == p[k] && r[k + 1] == p[k + 1];
      } else {
        var l := k - i + j;
        assert r[k] == p[l] && r[k + 1] == p[l + 1];
      }
    }
    q := ShortPath(g, r, b);
  }
}

/** The dominator tree: the iterative algorithm of Cooper, Harvey and Kennedy.

    The tree is stored as one dominator link per block, so changing a block's link
    silently changes the dominators of every block below it.  The proof therefore
    does not argue that the links move monotonically (they do not).  It squeezes the
    ancestors of every block between two sets that are fixed by the graph alone:
    its dominators from below and, after k passes, the blocks that no path with
    fewer than k retreating jumps can avoid from above. */
module Dominators {
  import opened Cfg
  import opened LinkTree

  // ---- Relinking ----

  /** How relinking `b` changes the ancestors of another block `x`. */
  lemma {:induction false} Relink(doms: seq<Link>, b: nat, d: nat, a: nat, x: nat)
    requires Tree(doms) && 0 < b < |doms| && d < b && doms[d].To?
    requires x < |doms| && doms[x].To?
    ensures Tree(doms[b := To(d)])
    ensures x != b && Above(doms[b := To(d)], a, x) ==>
      Above(doms, a, x) || (doms[b].To? && Above(doms, b, x) && Above(doms, a, d))
    ensures Above(doms, a, x) && !(doms[b].To? && Above(doms, b, x)) ==> Above(doms[b := To(d)], a, x)
    ensures doms[b].To? && Above(doms, a, x) && Above(doms, b, x) && b <= a ==> Above(doms[b := To(d)], a, x)
    ensures doms[b].To? && Above(doms, b, x) && Above(doms, a, d) ==> Above(doms[b := To(d)], a, x)
    decreases x
  {
    var doms' := doms[b := To(d)];
    forall c | 0 < c < |doms'| && doms'[c].To?
      ensures Parent(doms', c)
    {
      assert c != b ==> Parent(doms, c);
    }
    if x == b {
      RelinkEarlier(doms, b, d, a, d);
      if Above(doms, a, x) && b <= a {
        AboveOrder(doms, a, x);
      }
    } else if x > 0 {
      assert Parent(doms, x) && Parent(doms', x);
      var p := doms[x].block;
      Relink(doms, b, d, a, p);
      assert Above(doms', a, x) == (a == x || Above(doms', a, p));
      assert Above(doms, a, x) == (a == x || Above(doms, a, p));
      assert doms[b].To? ==> Above(doms, b, x) == Above(doms, b, p);
      if p == b {
        RelinkEarlier(doms, b, d, a, d);
        assert Above(doms', a, b) == (a == b || Above(doms', a, d));
      }
      if doms[b].To? && Above(doms, b, x) {
        AboveOrder(doms, b, x);
        assert Above(doms, b, doms[x].block);
      }
    }
  }

  lemma {:induction false} RelinkEarlier(doms: seq<Link>, b: nat, d: nat, a: nat, x: nat)
    requires Tree(doms) && 0 < b < |doms| && d < b && doms[d].To?
    requires Tree(doms[b := To(d)])
    requires x < b && doms[x].To?
    ensures Above(doms[b := To(d)], a, x) == Above(doms, a, x)
    decreases x
  {
    if x > 0 {
      assert Parent(doms, x) && Parent(doms[b := To(d)], x);
      RelinkEarlier(doms, b, d, a, doms[x].block);
    }
  }

  // ---- What the graph alone says ----

  /** `a` lies on every path from the entry to `b` with at most `k` retreating jumps. */
  ghost predicate DominatesUpTo(g: Graph, k: int, a: nat, b: nat) {
    forall p :: PathTo(g, p, b) && Retreats(p) <= k ==> a in p
  }

  /** Some path from `d` to `b` stays after `d` in the block order. */
  ghost predicate Below(g: Graph, d: nat, b: nat) {
    exists q :: IsPathBelow(g, q, d, b)
  }

  ghost predicate IsPathBelow(g: Graph, q: seq<nat>, d: nat, b: nat) {
    IsPath(g, q) && q[0] == d && q[|q| - 1] == b && forall i :: 0 < i < |q| ==> d < q[i]
  }

  lemma BelowTransitive(g: Graph, a: nat, b: nat, c: nat)
    requires Below(g, a, b) && Below(g, b, c) && a <= b
    ensures Below(g, a, c)
  {
    var p :| IsPathBelow(g, p, a, b);
    var q :| IsPathBelow(g, q, b, c);
    PathAppend(g, p, q);
    var r := p + q[1..];
    forall i | 0 < i < |r|
      ensures a < r[i]
    {
      if i >= |p| {
        assert r[i] == q[i - |p| + 1];
      }
    }
    assert IsPathBelow(g, r, a, c);
  }

  lemma BelowEdge(g: Graph, a: nat, b: nat)
    requires Edge(g, a, b) && a < b
    ensures Below(g, a, b)
  {
    assert IsPathBelow(g, [a, b], a, b);
  }

  /** An earlier block that dominates `x` already dominates any block from which `x`
      can be reached going through later blocks only. */
  lemma DominatesAcross(g: Graph, m: nat, b: nat, x: nat)
    requires Dominates(g, m, x) && Below(g, b, x) && m < b
    ensures Dominates(g, m, b)
  {
    var q :| IsPathBelow(g, q, b, x);
    forall p | PathTo(g, p, b)
      ensures m in p
    {
      PathAppend(g, p, q);
      assert PathTo(g, p + q[1..], x);
      assert m in p + q[1..];
      assert m !in q[1..] by {
        forall i | 0 <= i < |q[1..]|
          ensures q[1..][i] != m
        {
          assert q[1..][i] == q[i + 1];
        }
      }
    }
  }

  /** Dominators of a block, other than itself, dominate each predecessor. */
  lemma DominatesPredecessor(g: Graph, a: nat, p: nat, b: nat)
    requires Dominates(g, a, b) && a != b && Edge(g, p, b)
    ensures Dominates(g, a, p)
  {
    forall q | PathTo(g, q, p)
      ensures a in q
    {
      assert IsPath(g, [p, b]);
      PathAppend(g, q, [p, b]);
      assert PathTo(g, q + [p, b][1..], b);
    }
  }

  /** What all predecessors are dominated by dominates the block, with one more
      retreating jump allowed for the predecessors that come later. */
  lemma DominatesFromPredecessors(g: Graph, k: int, a: nat, b: nat)
    requires b != 0
    requires forall p: nat :: Edge(g, p, b) && p < b ==> DominatesUpTo(g, k, a, p)
    requires forall p: nat :: Edge(g, p, b) && b <= p ==> DominatesUpTo(g, k - 1, a, p)
    ensures DominatesUpTo(g, k, a, b)
  {
    forall p | PathTo(g, p, b) && Retreats(p) <= k
      ensures a in p
    {
      var q := p[..|p| - 1];
      assert Edge(g, p[|p| - 2], p[|p| - 1]);
      PathPrefix(g, p, |p| - 2);
      assert PathTo(g, q, p[|p| - 2]);
      assert a in q;
    }
  }

  lemma UpToThrough(g: Graph, k: int, l: int, a: nat, b: nat, x: nat)
    requires DominatesUpTo(g, k, a, b) && DominatesUpTo(g, l, b, x) && l <= k
    ensures DominatesUpTo(g, l, a, x)
  {
    forall p | PathTo(g, p, x) && Retreats(p) <= l
      ensures a in p
    {
      var i :| 0 <= i < |p| && p[i] == b;
      RetreatsPrefix(p, i);
      PathPrefix(g, p, i);
      assert PathTo(g, p[..i + 1], b);
    }
  }

  /** No more than `|g| - 1` retreating jumps are ever needed to avoid a block. */
  lemma UpToAll(g: Graph, k: int, a: nat, b: nat)
    requires DominatesUpTo(g, k, a, b) && b < |g| && k >= |g| - 1
    ensures Dominates(g, a, b)
  {
    forall p | PathTo(g, p, b)
      ensures a in p
    {
      var q := ShortPath(g, p, b);
      RetreatsBound(q);
    }
  }

  /** Retreating jumps beyond `r` make no difference to dominance. */
  ghost predicate Settles(g: Graph, r: int) {
    forall a, b :: 0 <= b < |g| && DominatesUpTo(g, r, a, b) ==> Dominates(g, a, b)
  }

  lemma SettlesEventually(g: Graph)
    requires WellFormed(g)
    ensures Settles(g, |g| - 1)
    ensures Forward(g) ==> Settles(g, 0)
  {
    forall a, b | 0 <= b < |g| && DominatesUpTo(g, |g| - 1, a, b)
      ensures Dominates(g, a, b)
    {
      UpToAll(g, |g| - 1, a, b);
    }
    if Forward(g) {
      forall a, b | 0 <= b < |g| && DominatesUpTo(g, 0, a, b)
        ensures Dominates(g, a, b)
      {
        forall p | PathTo(g, p, b)
          ensures a in p
        {
          ForwardNoRetreats(g, p);
        }
      }
    }
  }

  lemma {:induction false} ForwardNoRetreats(g: Graph, p: seq<nat>)
    requires Forward(g) && IsPath(g, p)
    ensures Retreats(p) == 0
    decreases |p|
  {
    if |p| > 1 {
      PathPrefix(g, p, |p| - 2);
      ForwardNoRetreats(g, p[..|p| - 1]);
      assert Edge(g, p[|p| - 2], p[|p| - 1]);
    }
  }

  // ---- The invariant of the passes ----

  /** During pass `k`, with the blocks before `i` already visited in this pass. */
  ghost function Budget(k: int, i: nat, b: nat): int {
    if b < i then k - 1 else k - 2
  }

  ghost predicate Squeezed(g: Graph, doms: seq<Link>, k: int, i: nat) {
    && Tree(doms) && |doms| == |g|
    && (forall b :: 0 < b < |g| && doms[b].To? ==> Below(g, doms[b].block, b))
    && (forall a, b :: 0 <= b < |g| && doms[b].To? && Dominates(g, a, b) ==> Above(doms, a, b))
    && (forall a, b :: 0 <= b < |g| && doms[b].To? && Above(doms, a, b) ==> DominatesUpTo(g, Budget(k, i, b), a, b))
  }

  /** Links are set for the blocks already visited. */
  ghost predicate Visited(doms: seq<Link>, k: int, i: nat) {
    forall b :: 0 <= b < |doms| ==> (doms[b].To? <==> b == 0 || k > 1 || b < i)
  }

  /** `d` has exactly the common ancestors of the linked predecessors of `b`. */
  ghost predicate Meet(g: Graph, doms: seq<Link>, b: nat, d: nat)
    requires Tree(doms) && |doms| == |g|
  {
    && d < |g| && doms[d].To?
    && forall a :: Above(doms, a, d) <==> (forall p: nat :: Edge(g, p, b) && doms[p].To? ==> Above(doms, a, p))
  }

  lemma {:induction false} AboveBelow(g: Graph, doms: seq<Link>, k: int, i: nat, a: nat, b: nat)
    requires Squeezed(g, doms, k, i) && b < |g| && doms[b].To? && Above(doms, a, b) && a != b
    ensures Below(g, a, b)
    decreases b
  {
    assert Parent(doms, b);
    var d := doms[b].block;
    if a != d {
      AboveBelow(g, doms, k, i, a, d);
      AboveOrder(doms, a, d);
      BelowTransitive(g, a, d, b);
    }
  }

  /** The meet comes before `b`, and `b` is reachable from it through later blocks. */
  lemma MeetBelow(g: Graph, doms: seq<Link>, k: int, b: nat, d: nat)
    requires ForwardReachable(g) && Squeezed(g, doms, k, b) && Visited(doms, k, b)
    requires 0 < b < |g| && Meet(g, doms, b, d)
    ensures d < b && Below(g, d, b)
  {
    assert HasEarlierPredecessor(g, b);
    var p: nat :| p < b && Edge(g, p, b);
    assert Above(doms, d, d);
    assert Above(doms, d, p);
    AboveOrder(doms, d, p);
    BelowEdge(g, p, b);
    if d != p {
      AboveBelow(g, doms, k, b, d, p);
      BelowTransitive(g, d, p, b);
    }
  }

  lemma MeetLower(g: Graph, doms: seq<Link>, k: int, b: nat, d: nat, a: nat)
    requires Squeezed(g, doms, k, b) && 0 < b < |g| && Meet(g, doms, b, d)
    requires Dominates(g, a, b) && a != b
    ensures Above(doms, a, d)
  {
    forall p: nat | Edge(g, p, b) && doms[p].To?
      ensures Above(doms, a, p)
    {
      DominatesPredecessor(g, a, p, b);
    }
  }

  lemma MeetUpper(g: Graph, doms: seq<Link>, k: int, b: nat, d: nat, a: nat)
    requires Squeezed(g, doms, k, b) && Visited(doms, k, b) && 0 < b < |g| && Meet(g, doms, b, d)
    requires k >= 1 && Above(doms, a, d)
    ensures DominatesUpTo(g, k - 1, a, b)
  {
    forall p: nat | Edge(g, p, b) && p < b
      ensures DominatesUpTo(g, k - 1, a, p)
    {
      assert Above(doms, a, p);
      assert DominatesUpTo(g, Budget(k, b, p), a, p);
    }
    forall p: nat | Edge(g, p, b) && b <= p
      ensures DominatesUpTo(g, k - 2, a, p)
    {
      if k > 1 {
        assert Above(doms, a, p);
        assert DominatesUpTo(g, Budget(k, b, p), a, p);
      }
    }
    DominatesFromPredecessors(g, k - 1, a, b);
  }

  /** Visiting `b` keeps the squeeze and moves `b` to the budget of this pass. */
  lemma VisitKeeps(g: Graph, doms: seq<Link>, k: int, b: nat, d: nat)
    requires ForwardReachable(g) && Squeezed(g, doms, k, b) && Visited(doms, k, b)
    requires k >= 1 && 0 < b < |g| && Meet(g, doms, b, d)
    ensures d < b
    ensures Squeezed(g, doms[b := To(d)], k, b + 1) && Visited(doms[b := To(d)], k, b + 1)
  {
    MeetBelow(g, doms, k, b, d);
    var doms' := doms[b := To(d)];
    Relink(doms, b, d, 0, 0);
    forall c | 0 < c < |g| && doms'[c].To?
      ensures Below(g, doms'[c].block, c)
    {
      assert c != b ==> Below(g, doms[c].block, c);
    }
    forall a, x | 0 <= x < |g| && doms'[x].To? && Dominates(g, a, x)
      ensures Above(doms', a, x)
    {
      VisitLower(g, doms, k, b, d, a, x);
    }
    forall a, x | 0 <= x < |g| && doms'[x].To? && Above(doms', a, x)
      ensures DominatesUpTo(g, Budget(k, b + 1, x), a, x)
    {
      VisitUpper(g, doms, k, b, d, a, x);
    }
  }

  lemma VisitLower(g: Graph, doms: seq<Link>, k: int, b: nat, d: nat, a: nat, x: nat)
    requires Squeezed(g, doms, k, b) && Visited(doms, k, b) && 0 < b < |g| && Meet(g, doms, b, d) && d < b
    requires x < |g| && (x == b || doms[x].To?) && Dominates(g, a, x)
    requires Tree(doms[b := To(d)])
    ensures Above(doms[b := To(d)], a, x)
  {
    var doms' := doms[b := To(d)];
    if x == b {
      if a != b {
        MeetLower(g, doms, k, b, d, a);
        RelinkEarlier(doms, b, d, a, d);
        assert Parent(doms', b);
      }
    } else {
      Relink(doms, b, d, a, x);
      assert Above(doms, a, x);
      if doms[b].To? && Above(doms, b, x) && a < b {
        AboveBelow(g, doms, k, b, b, x);
        DominatesAcross(g, a, b, x);
        MeetLower(g, doms, k, b, d, a);
      }
    }
  }

  lemma VisitUpper(g: Graph, doms: seq<Link>, k: int, b: nat, d: nat, a: nat, x: nat)
    requires Squeezed(g, doms, k, b) && Visited(doms, k, b) && 0 < b < |g| && Meet(g, doms, b, d) && d < b && k >= 1
    requires x < |g| && (x == b || doms[x].To?)
    requires Tree(doms[b := To(d)]) && Above(doms[b := To(d)], a, x)
    ensures DominatesUpTo(g, Budget(k, b + 1, x), a, x)
  {
    var doms' := doms[b := To(d)];
    if x == b {
      if a == b {
        assert forall p :: PathTo(g, p, b) ==> p[|p| - 1] == b && b in p;
      } else {
        assert Parent(doms', b);
        RelinkEarlier(doms, b, d, a, d);
        MeetUpper(g, doms, k, b, d, a);
      }
    } else {
      Relink(doms, b, d, a, x);
      if Above(doms, a, x) {
        assert DominatesUpTo(g, Budget(k, b, x), a, x);
      } else {
        MeetUpper(g, doms, k, b, d, a);
        AboveOrder(doms, b, x);
        assert DominatesUpTo(g, Budget(k, b, x), b, x);
        UpToThrough(g, k - 1, k - 2, a, b, x);
      }
    }
  }

  /** The ancestors of every block are exactly its dominators. */
  ghost predicate Exact(g: Graph, doms: seq<Link>) {
    && Tree(doms) && |doms| == |g|
    && (forall b :: 0 <= b < |g| ==> doms[b].To?)
    && forall a, b :: 0 <= b < |g| ==> (Above(doms, a, b) <==> Dominates(g, a, b))
  }

  /** Once the graph needs no more retreating jumps, the links are exact ... */
  lemma SettledIsExact(g: Graph, doms: seq<Link>, k: int, r: int)
    requires Squeezed(g, doms, k, 0) && Visited(doms, k, 0) && k > 1
    requires Settles(g, r) && r <= k - 2
    ensures Exact(g, doms)
  {
    forall a, b | 0 <= b < |g| && Above(doms, a, b)
      ensures Dominates(g, a, b)
    {
      assert DominatesUpTo(g, Budget(k, 0, b), a, b);
      assert DominatesUpTo(g, r, a, b);
    }
  }

  /** ... and a visit to an exact tree changes nothing. */
  lemma ExactIsStable(g: Graph, doms: seq<Link>, b: nat, d: nat)
    requires ForwardReachable(g) && Exact(g, doms) && 0 < b < |g| && Meet(g, doms, b, d)
    ensures doms[b] == To(d)
  {
    var e := doms[b].block;
    assert Parent(doms, b);
    assert Above(doms, d, d) && Above(doms, e, e);
    assert Above(doms, e, b);
    forall p: nat | Edge(g, p, b) && doms[p].To?
      ensures Above(doms, e, p)
    {
      DominatesPredecessor(g, e, p, b);
    }
    assert Above(doms, e, d);
    AboveOrder(doms, e, d);
    assert d < b by {
      assert HasEarlierPredecessor(g, b);
      var p: nat :| p < b && Edge(g, p, b);
      assert Above(doms, d, p);
      AboveOrder(doms, d, p);
    }
    forall p | PathTo(g, p, b)
      ensures d in p
    {
      var q := p[..|p| - 1];
      assert Edge(g, p[|p| - 2], p[|p| - 1]);
      assert Above(doms, d, p[|p| - 2]);
      PathPrefix(g, p, |p| - 2);
      assert PathTo(g, q, p[|p| - 2]);
      assert d in q;
    }
    assert Above(doms, d, b);
    AboveOrder(doms, d, e);
  }

  /** Conversely, a pass that changes nothing has reached an exact tree. */
  lemma StableIsExact(g: Graph, doms: seq<Link>, k: int, i: nat)
    requires ForwardReachable(g) && Squeezed(g, doms, k, i)
    requires forall b :: 0 <= b < |g| ==> doms[b].To?
    requires forall b :: 0 < b < |g| ==> Meet(g, doms, b, doms[b].block)
    ensures Exact(g, doms)
  {
    forall a, b | 0 <= b < |g| && Above(doms, a, b)
      ensures Dominates(g, a, b)
    {
      forall p | PathTo(g, p, b)
        ensures a in p
      {
        StableOnPath(g, doms, a, b, p);
      }
    }
  }

  lemma {:induction false} StableOnPath(g: Graph, doms: seq<Link>, a: nat, b: nat, p: seq<nat>)
    requires ForwardReachable(g) && Tree(doms) && |doms| == |g|
    requires forall b :: 0 <= b < |g| ==> doms[b].To?
    requires forall b :: 0 < b < |g| ==> Meet(g, doms, b, doms[b].block)
    requires b < |g| && Above(doms, a, b) && PathTo(g, p, b)
    ensures a in p
    decreases |p|
  {
    if a != b {
      var q := p[..|p| - 1];
      assert Edge(g, p[|p| - 2], p[|p| - 1]);
      PathPrefix(g, p, |p| - 2);
      assert PathTo(g, q, p[|p| - 2]);
      assert Meet(g, doms, b, doms[b].block);
      assert Above(doms, a, doms[b].block);
      StableOnPath(g, doms, a, p[|p| - 2], q);
    } else {
      assert p[|p| - 1] == a;
    }
  }

  // ---- The algorithm ----

  class DomTree {
    const g: Graph
    var preds: seq<seq<nat>>
    var dominator: seq<Link>

    /** Earlier blocks have a higher order; the sink would have order 0. */
    function Order(b: nat): (o: int) {
      |g| - b
    }

    ghost predicate PredsDone()
      reads this`preds
    {
      && |preds| == |g| + 1
      && (forall a: nat, b: nat :: b < |preds| ==> (a in preds[b] <==> Edge(g, a, b)))
      && (forall b :: 0 <= b < |preds| ==> Ascending(preds[b]))
    }

    /** The finished tree. */
    ghost predicate Valid()
      reads this
    {
      WellFormed(g) && ForwardReachable(g) && Exact(g, dominator)
    }

    /** Builds the tree.  It is exact whatever cycles the graph has.  If retreating
        jumps beyond `r` never matter, `r + 2` passes are enough. */
    constructor (g: Graph)
      requires WellFormed(g) && ForwardReachable(g)
      ensures this.g == g && Valid()
    {
      this.g := g;
      this.preds := [];
      this.dominator := [];
      new;
      BuildPredecessors();
      var _ := BuildDominators();
    }

    method BuildPredecessors()
      requires WellFormed(g)
      modifies this`preds
      ensures PredsDone()
    {
      preds := seq(|g| + 1, _ => []);
      var src := 0;
      while src < |g|
        invariant 0 <= src <= |g| && |preds| == |g| + 1
        invariant forall a: nat, b: nat :: b < |preds| ==> (a in preds[b] <==> a < src && Edge(g, a, b))
        invariant forall b :: 0 <= b < |preds| ==> Ascending(preds[b])
      {
        var k := 0;
        while k < |g[src]|
          invariant 0 <= k <= |g[src]| && |preds| == |g| + 1
          invariant forall a: nat, b: nat :: b < |preds| ==>
            (a in preds[b] <==> (a < src && Edge(g, a, b)) || (a == src && b in g[src][..k]))
          invariant forall b :: 0 <= b < |preds| ==> Ascending(preds[b])
        {
          var tgt := g[src][k];
          assert forall a :: a in preds[tgt] ==> a <= src;
          AscendingSnoc(preds[tgt], src);
          preds := preds[tgt := preds[tgt] + [src]];
          k := k + 1;
        }
        src := src + 1;
      }
    }

    method Intersect(b1: nat, b2: nat) returns (r: nat)
      requires Tree(dominator) && |dominator| == |g|
      requires b1 < |g| && b2 < |g| && dominator[b1].To? && dominator[b2].To?
      ensures r < |g| && dominator[r].To?
      ensures forall a :: Above(dominator, a, r) <==> Above(dominator, a, b1) && Above(dominator, a, b2)
    {
      var f1: nat, f2: nat := b1, b2;
      while Order(f1) != Order(f2)
        invariant f1 < |g| && f2 < |g| && dominator[f1].To? && dominator[f2].To?
        invariant forall a :: Above(dominator, a, f1) && Above(dominator, a, f2) <==>
                              Above(dominator, a, b1) && Above(dominator, a, b2)
        decreases f1 + f2
      {
        ghost var start := f1 + f2;
        while Order(f1) < Order(f2)
          invariant f1 < |g| && dominator[f1].To? && f1 + f2 <= start
          invariant f1 + f2 < start || f2 < f1 || f1 < f2
          invariant f1 + f2 == start ==> f1 != f2
          invariant forall a :: Above(dominator, a, f1) && Above(dominator, a, f2) <==>
                                Above(dominator, a, b1) && Above(dominator, a, b2)
        {
          StepUp(dominator, f1, f2);
          f1 := dominator[f1].block;
        }
        while Order(f2) < Order(f1)
          invariant f2 < |g| && dominator[f2].To? && f1 + f2 <= start
          invariant f1 + f2 == start ==> f1 < f2
          invariant forall a :: Above(dominator, a, f1) && Above(dominator, a, f2) <==>
                                Above(dominator, a, b1) && Above(dominator, a, b2)
        {
          StepUp(dominator, f2, f1);
          f2 := dominator[f2].block;
        }
      }
      r := f1;
    }

    /** Visits `b`: the meet of the predecessors linked so far. */
    method NewDominator(b: nat, ghost k: int) returns (d: nat)
      requires WellFormed(g) && ForwardReachable(g) && PredsDone()
      requires Tree(dominator) && |dominator| == |g| && Visited(dominator, k, b) && 0 < b < |g|
      ensures preds[b] != []
      ensures Meet(g, dominator, b, d)
    {
      assert HasEarlierPredecessor(g, b);
      ghost var early: nat :| early < b && Edge(g, early, b);
      assert early in preds[b];
      d := preds[b][0];
      var j := 0;
      while j < |preds[b]|
        invariant 0 <= j <= |preds[b]|
        invariant d < |g| && dominator[d].To?
        invariant forall a :: Above(dominator, a, d) <==>
          Above(dominator, a, preds[b][0]) &&
          (forall i :: 0 <= i < j ==> AboveIfLinked(a, preds[b][i]))
      {
        var p := preds[b][j];
        assert Edge(g, p, b);
        if dominator[p].To? {
          d := Intersect(p, d);
        }
        j := j + 1;
      }
      assert dominator[preds[b][0]].To?;
    }

    ghost predicate AboveIfLinked(a: nat, p: nat)
      requires Tree(dominator)
      reads this`dominator
    {
      p < |dominator| && dominator[p].To? ==> Above(dominator, a, p)
    }

    method BuildDominators() returns (passes: nat)
      requires WellFormed(g) && ForwardReachable(g) && PredsDone()
      modifies this`dominator
      ensures Exact(g, dominator)
      ensures forall r: nat :: Settles(g, r) ==> passes <= r + 2
      ensures passes <= |g| + 1
      ensures Forward(g) ==> passes <= 2
    {
      dominator := seq(|g|, i => if i == 0 then To(0) else NoLink);
      InitiallySqueezed(g, dominator);
      SettlesEventually(g);
      passes := 0;
      var changed := true;
      while changed
        invariant Squeezed(g, dominator, passes + 1, 0) && Visited(dominator, passes + 1, 0)
        invariant forall r: nat :: Settles(g, r) ==> passes <= r + 2 && (changed ==> passes <= r + 1)
        invariant !changed ==> Exact(g, dominator)
        decreases |g| + 1 - passes
      {
        forall r: nat | Settles(g, r) && passes > r
          ensures Exact(g, dominator)
        {
          SettledIsExact(g, dominator, passes + 1, r);
        }
        changed := Pass(passes + 1);
        passes := passes + 1;
      }
    }

    method Pass(ghost k: int) returns (changed: bool)
      requires WellFormed(g) && ForwardReachable(g) && PredsDone()
      requires k >= 1 && Squeezed(g, dominator, k, 0) && Visited(dominator, k, 0)
      modifies this`dominator
      ensures Squeezed(g, dominator, k + 1, 0) && Visited(dominator, k + 1, 0)
      ensures old(Exact(g, dominator)) ==> !changed
      ensures !changed ==> Exact(g, dominator)
    {
      changed := false;
      var b := 0;
      while b < |g|
        invariant 0 <= b <= |g|
        invariant Squeezed(g, dominator, k, b) && Visited(dominator, k, b)
        invariant old(Exact(g, dominator)) ==> !changed
        invariant !changed ==> dominator == old(dominator)
        invariant !changed ==> forall c :: 0 < c < b ==> dominator[c].To? && Meet(g, dominator, c, dominator[c].block)
      {
        assert b > 0 ==> HasEarlierPredecessor(g, b);
        if preds[b] != [] {
          assert Edge(g, preds[b][0], b);
          var d := NewDominator(b, k);
          VisitKeeps(g, dominator, k, b, d);
          if dominator[b] != To(d) {
            if !changed && old(Exact(g, dominator)) {
              ExactIsStable(g, dominator, b, d);
            }
            dominator := dominator[b := To(d)];
            changed := true;
          } else {
            assert dominator[b := To(d)] == dominator;
          }
        } else {
          EntryVisited(g, dominator, k);
        }
        b := b + 1;
      }
      if !changed {
        StableIsExact(g, dominator, k, b);
      }
    }

    /** Walks up from `b`.  The sink dominates nothing; it may not be asked about. */
    method DominatesBlock(a: nat, b: nat) returns (r: bool)
      requires Valid() && b < |g|
      ensures r <==> Dominates(g, a, b)
    {
      var x: nat := b;
      while true
        invariant x < |g|
        invariant Above(dominator, a, x) <==> Above(dominator, a, b)
        decreases x
      {
        if x == a {
          return true;
        }
        if To(x) == dominator[x] {
          break;
        }
        assert x > 0 && Parent(dominator, x);
        x := dominator[x].block;
      }
      assert x == 0;
      r := false;
    }

    /** The immediate dominator: the strict dominator that all others dominate. */
    method GetIDominator(b: nat) returns (d: nat)
      requires Valid() && 0 < b < |g|
      ensures d < b && Dominates(g, d, b)
      ensures forall a :: a != b && Dominates(g, a, b) ==> Dominates(g, a, d)
    {
      assert Parent(dominator, b);
      d := dominator[b].block;
      assert Above(dominator, d, d);
      assert Above(dominator, d, b);
      forall a | a != b && Dominates(g, a, b)
        ensures Dominates(g, a, d)
      {
        assert Above(dominator, a, b);
      }
    }
  }

  ghost predicate Ascending(s: seq<nat>) {
    forall i, j :: 0 <= i < j < |s| ==> s[i] <= s[j]
  }

  lemma AscendingSnoc(s: seq<nat>, x: nat)
    requires Ascending(s) && forall y :: y in s ==> y <= x
    ensures Ascending(s + [x])
  {
    var t := s + [x];
    forall i, j | 0 <= i < j < |t|
      ensures t[i] <= t[j]
    {
      assert t[i] == s[i] && s[i] in s;
    }
  }

  lemma StepUp(doms: seq<Link>, f1: nat, f2: nat)
    requires Tree(doms) && f1 < |doms| && doms[f1].To? && f2 < f1 && doms[f2].To?
    ensures Parent(doms, f1)
    ensures forall a :: Above(doms, a, f1) && Above(doms, a, f2) <==>
      Above(doms, a, doms[f1].block) && Above(doms, a, f2)
  {
    forall a: nat | Above(doms, a, f2)
      ensures a <= f2
    {
      AboveOrder(doms, a, f2);
    }
  }

  lemma InitiallySqueezed(g: Graph, doms: seq<Link>)
    requires WellFormed(g) && ForwardReachable(g) && |doms| == |g|
    requires forall i :: 0 <= i < |g| ==> doms[i] == if i == 0 then To(0) else NoLink
    ensures Squeezed(g, doms, 1, 0) && Visited(doms, 1, 0)
  {
    forall a | Dominates(g, a, 0)
      ensures Above(doms, a, 0)
    {
      assert PathTo(g, [0], 0);
      assert a in [0];
    }
    forall a | Above(doms, a, 0)
      ensures DominatesUpTo(g, -1, a, 0)
    {
      assert forall p :: PathTo(g, p, 0) ==> p[0] == 0 && 0 in p;
    }
  }

  lemma EntryVisited(g: Graph, doms: seq<Link>, k: int)
    requires ForwardReachable(g) && Squeezed(g, doms, k, 0) && Visited(doms, k, 0)
    ensures Squeezed(g, doms, k, 1) && Visited(doms, k, 1)
  {
    forall a, b | 0 <= b < |g| && doms[b].To? && Above(doms, a, b)
      ensures DominatesUpTo(g, Budget(k, 1, b), a, b)
    {
      assert DominatesUpTo(g, Budget(k, 0, b), a, b);
      if b == 0 {
        assert forall p :: PathTo(g, p, 0) ==> p[0] == 0 && 0 in p;
      }
    }
  }
}

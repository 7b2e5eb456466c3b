/** The order of the blocks: a depth-first search that ignores loops, started at the second block
    and only at the end at the entry. */
module TopSort {
  import opened Cfg

  // ---- Reachability ----

  ghost predicate Reach(g: Graph, a: nat, b: nat) {
    exists p :: Connects(g, p, a, b)
  }

  ghost predicate Connects(g: Graph, p: seq<nat>, a: nat, b: nat) {
    IsPath(g, p) && p[0] == a && p[|p| - 1] == b
  }

  lemma ReachSelf(g: Graph, a: nat)
    ensures Reach(g, a, a)
  {
    assert Connects(g, [a], a, a);
  }

  lemma ReachAlong(g: Graph, a: nat, b: nat, c: nat)
    requires Reach(g, a, b) && Reach(g, b, c)
    ensures Reach(g, a, c)
  {
    var p :| Connects(g, p, a, b);
    var q :| Connects(g, q, b, c);
    PathAppend(g, p, q);
    assert Connects(g, p + q[1..], a, c);
  }

  lemma ReachEdge(g: Graph, a: nat, b: nat)
    requires Edge(g, a, b)
    ensures Reach(g, a, b)
  {
    assert Connects(g, [a, b], a, b);
  }

  /** A path that ends elsewhere ends with a jump. */
  lemma LastJump(g: Graph, a: nat, b: nat) returns (u: nat)
    requires Reach(g, a, b) && a != b
    ensures Reach(g, a, u) && Edge(g, u, b)
  {
    var p :| Connects(g, p, a, b);
    u := p[|p| - 2];
    PathPrefix(g, p, |p| - 2);
    assert Connects(g, p[..|p| - 1], a, u);
  }

  /** Reachable from one of the blocks 1 to `i`. */
  ghost predicate FromFirst(g: Graph, i: nat, b: nat) {
    exists r: nat :: 1 <= r <= i && Reach(g, r, b)
  }

  // ---- The search ----

  /** Everything sorted is marked, and once. A jump from a sorted block goes to one sorted before,
      unless it closes a cycle. */
  ghost predicate Searched(g: Graph, marked: set<nat>, sorted: seq<nat>) {
    && (forall x :: x in marked ==> x < |g|)
    && (forall i :: 0 <= i < |sorted| ==> sorted[i] in marked)
    && (forall i, j :: 0 <= i < j < |sorted| ==> sorted[i] != sorted[j])
    && (forall i :: 0 <= i < |sorted| ==> JumpsDone(g, marked, sorted, i))
  }

  ghost predicate JumpsDone(g: Graph, marked: set<nat>, sorted: seq<nat>, i: nat)
    requires i < |sorted|
  {
    forall w: nat :: Edge(g, sorted[i], w) && w < |g| ==> w in marked && (w in sorted[..i] || Reach(g, w, sorted[i]))
  }

  /** Some block sorted later jumps to this one. */
  ghost predicate LaterPred(g: Graph, sorted: seq<nat>, i: nat)
    requires i < |sorted|
  {
    exists j :: i < j < |sorted| && Edge(g, sorted[j], sorted[i])
  }

  lemma LaterKept(g: Graph, sorted: seq<nat>, more: seq<nat>, i: nat)
    requires i < |sorted| && sorted <= more && LaterPred(g, sorted, i)
    ensures LaterPred(g, more, i)
  {
    var j :| i < j < |sorted| && Edge(g, sorted[j], sorted[i]);
    assert more[j] == sorted[j] && more[i] == sorted[i];
  }

  function Blocks(n: nat): (r: set<nat>)
    ensures forall x: nat :: x in r <==> x < n
  {
    if n == 0 then {} else Blocks(n - 1) + {n - 1}
  }

  function Targets(g: Graph, v: nat): (r: set<nat>)
    requires v < |g|
    ensures forall w: nat :: w in r <==> Edge(g, v, w) && w < |g|
  {
    set w | w in g[v] && w < |g|
  }

  /** What visiting `v` adds. */
  ghost predicate Visited(g: Graph, v: nat, marked: set<nat>, sorted: seq<nat>, marked': set<nat>, sorted': seq<nat>) {
    && Searched(g, marked', sorted') && sorted <= sorted' && marked' == marked + Added(sorted, sorted')
    && (v in marked ==> sorted' == sorted)
    && (v !in marked ==> |sorted'| > |sorted| && sorted'[|sorted'| - 1] == v)
    && (forall x :: x in Added(sorted, sorted') ==> x !in marked && Reach(g, v, x))
    && (forall i :: |sorted| <= i < |sorted'| && sorted'[i] != v ==> LaterPred(g, sorted', i))
  }

  ghost function Added(sorted: seq<nat>, sorted': seq<nat>): (r: set<nat>) {
    if sorted <= sorted' then set x | x in sorted'[|sorted|..] else {}
  }

  /** The marked blocks that are not sorted yet lead to `v`. */
  ghost predicate OpenLead(g: Graph, marked: set<nat>, sorted: seq<nat>, v: nat) {
    forall u :: u in marked && u !in sorted ==> Reach(g, u, v)
  }

  /** In the middle of visiting `v`, whose targets up to `todo` have been visited. */
  ghost predicate Visiting(g: Graph, v: nat, marked0: set<nat>, sorted0: seq<nat>, marked: set<nat>, sorted: seq<nat>,
                           todo: set<nat>) {
    && v < |g| && v !in marked0 && Searched(g, marked, sorted) && sorted0 <= sorted
    && marked == marked0 + {v} + Added(sorted0, sorted) && v !in Added(sorted0, sorted) && v !in sorted
    && (forall x :: x in Added(sorted0, sorted) ==> x !in marked0 && Reach(g, v, x))
    && (forall i :: |sorted0| <= i < |sorted| ==> LaterPred(g, sorted, i) || Edge(g, v, sorted[i]))
    && (forall w :: w in Targets(g, v) && w !in todo ==> w in marked)
    && todo <= Targets(g, v)
  }

  lemma OpenInside(g: Graph, v: nat, marked0: set<nat>, sorted0: seq<nat>, marked: set<nat>, sorted: seq<nat>,
                   todo: set<nat>, w: nat)
    requires Visiting(g, v, marked0, sorted0, marked, sorted, todo) && OpenLead(g, marked0, sorted0, v) && Edge(g, v, w)
    ensures OpenLead(g, marked, sorted, w)
  {
    hide Searched, LaterPred;
    ReachEdge(g, v, w);
    forall u | u in marked && u !in sorted
      ensures Reach(g, u, w)
    {
      if u != v {
        assert u in marked0 && u !in sorted0;
        ReachAlong(g, u, v, w);
      }
    }
  }

  lemma VisitingMore(g: Graph, v: nat, marked0: set<nat>, sorted0: seq<nat>, marked: set<nat>, sorted: seq<nat>,
                     todo: set<nat>,
                     w: nat, marked': set<nat>, sorted': seq<nat>)
    requires Visiting(g, v, marked0, sorted0, marked, sorted, todo) && w in todo &&
      Visited(g, w, marked, sorted, marked', sorted')
    ensures Visiting(g, v, marked0, sorted0, marked', sorted', todo - {w})
  {
    hide Searched, LaterPred;
    AddedTwice(sorted0, sorted, sorted');
    ReachEdge(g, v, w);
    forall x | x in Added(sorted0, sorted')
      ensures x !in marked0 && Reach(g, v, x) && x != v
    {
      if x in Added(sorted, sorted') {
        ReachAlong(g, v, w, x);
      }
    }
    forall i | |sorted0| <= i < |sorted'|
      ensures LaterPred(g, sorted', i) || Edge(g, v, sorted'[i])
    {
      if i < |sorted| && LaterPred(g, sorted, i) {
        LaterKept(g, sorted, sorted', i);
      }
    }
    assert w in marked' by { VisitedMarks(g, w, marked, sorted, marked', sorted'); }
    assert v !in sorted' by {
      assert forall x :: x in sorted' ==> x in sorted || x in Added(sorted, sorted');
    }
  }

  lemma VisitedMarks(g: Graph, w: nat, marked: set<nat>, sorted: seq<nat>, marked': set<nat>, sorted': seq<nat>)
    requires Visited(g, w, marked, sorted, marked', sorted')
    ensures w in marked'
  {
    hide Searched, LaterPred;
    if w !in marked {
      assert sorted'[|sorted|..][|sorted'| - 1 - |sorted|] == w;
    }
  }

  lemma AddedTwice(a: seq<nat>, b: seq<nat>, c: seq<nat>)
    requires a <= b <= c
    ensures Added(a, c) == Added(a, b) + Added(b, c)
  {
    assert c[|a|..] == b[|a|..] + c[|b|..];
  }

  lemma VisitEnds(g: Graph, v: nat, marked0: set<nat>, sorted0: seq<nat>, marked: set<nat>, sorted: seq<nat>)
    requires Visiting(g, v, marked0, sorted0, marked, sorted, {}) && OpenLead(g, marked0, sorted0, v)
    ensures Visited(g, v, marked0, sorted0, marked, sorted + [v])
  {
    var sorted' := sorted + [v];
    AppendSearched(g, v, marked0, sorted0, marked, sorted);
    assert sorted'[|sorted0|..] == sorted[|sorted0|..] + [v];
    ReachSelf(g, v);
    hide Searched;
    forall i | |sorted0| <= i < |sorted'| && sorted'[i] != v
      ensures LaterPred(g, sorted', i)
    {
      if LaterPred(g, sorted, i) {
        LaterKept(g, sorted, sorted', i);
      } else {
        assert Edge(g, sorted'[|sorted|], sorted'[i]);
      }
    }
  }

  lemma AppendSearched(g: Graph, v: nat, marked0: set<nat>, sorted0: seq<nat>, marked: set<nat>, sorted: seq<nat>)
    requires Visiting(g, v, marked0, sorted0, marked, sorted, {}) && OpenLead(g, marked0, sorted0, v)
    ensures Searched(g, marked, sorted + [v])
  {
    var sorted' := sorted + [v];
    hide LaterPred, Edge;
    forall i | 0 <= i < |sorted'|
      ensures JumpsDone(g, marked, sorted', i)
    {
      if i < |sorted| {
        assert JumpsDone(g, marked, sorted, i) && sorted'[..i] == sorted[..i];
      } else {
        assert sorted'[..i] == sorted;
        forall w: nat | Edge(g, v, w) && w < |g|
          ensures w in marked && (w in sorted || Reach(g, w, v))
        {
          assert w in Targets(g, v);
          ReachSelf(g, v);
          if w !in sorted && w != v {
            assert w in marked0 && w !in sorted0;
          }
        }
      }
    }
  }

  class Sorter {
    const g: Graph
    var marked: set<nat>
    var sorted: seq<nat>

    constructor (g: Graph)
      ensures this.g == g && marked == {} && sorted == []
    {
      this.g := g;
      marked, sorted := {}, [];
    }

    method Visit(v: nat)
      requires v < |g| && Searched(g, marked, sorted) && OpenLead(g, marked, sorted, v)
      modifies this
      ensures Visited(g, v, old(marked), old(sorted), marked, sorted)
      decreases Blocks(|g|) - marked
    {
      ghost var marked0, sorted0 := marked, sorted;
      assert sorted[|sorted|..] == [];
      if v in marked {
        return;
      }
      marked := marked + {v};
      var todo := Targets(g, v);
      MarkSearched(g, marked0, sorted, v);
      hide Searched, Visited, Visiting, OpenLead, Targets;
      while todo != {}
        invariant Visiting(g, v, marked0, sorted0, marked, sorted, todo)
        invariant marked0 + {v} <= marked
        decreases |todo|
      {
        var w :| w in todo;
        VisitingFacts(g, v, marked0, sorted0, marked, sorted, todo, w);
        OpenInside(g, v, marked0, sorted0, marked, sorted, todo, w);
        ghost var m, s := marked, sorted;
        assert Blocks(|g|) - marked < Blocks(|g|) - marked0 by { assert v in Blocks(|g|); }
        Visit(w);
        VisitingMore(g, v, marked0, sorted0, m, s, todo, w, marked, sorted);
        VisitedGrows(g, w, m, s, marked, sorted);
        todo := todo - {w};
      }
      VisitEnds(g, v, marked0, sorted0, marked, sorted);
      sorted := sorted + [v];
    }
  }

  lemma MarkSearched(g: Graph, marked: set<nat>, sorted: seq<nat>, v: nat)
    requires Searched(g, marked, sorted) && v < |g| && v !in marked
    ensures Visiting(g, v, marked, sorted, marked + {v}, sorted, Targets(g, v))
  {
    assert sorted[|sorted|..] == [];
    hide Edge, Reach;
    forall i | 0 <= i < |sorted|
      ensures JumpsDone(g, marked + {v}, sorted, i)
    {
      assert JumpsDone(g, marked, sorted, i);
    }
  }

  lemma VisitingFacts(g: Graph, v: nat, marked0: set<nat>, sorted0: seq<nat>, marked: set<nat>, sorted: seq<nat>,
                      todo: set<nat>, w: nat)
    requires Visiting(g, v, marked0, sorted0, marked, sorted, todo) && w in todo
    ensures Searched(g, marked, sorted) && w < |g| && Edge(g, v, w)
  {
  }

  lemma VisitedGrows(g: Graph, v: nat, marked: set<nat>, sorted: seq<nat>, marked': set<nat>, sorted': seq<nat>)
    requires Visited(g, v, marked, sorted, marked', sorted')
    ensures marked <= marked'
  {
  }

  // ---- All blocks ----

  /** Block `b` starts a search of its own: no block from 1 up to it leads to it. What is sorted
      up to it is what the blocks from 1 to `b` lead to. */
  ghost predicate RootAt(g: Graph, sorted: seq<nat>, i: nat)
    requires i < |sorted|
  {
    var b := sorted[i];
    b > 0 && !FromFirst(g, b - 1, b) && forall x: nat :: x in sorted[..i + 1] <==> x < |g| && FromFirst(g, b, x)
  }

  /** Every sorted block starts a search or has a block sorted later that jumps to it. */
  ghost predicate Explained(g: Graph, sorted: seq<nat>, i: nat)
    requires i < |sorted|
  {
    RootAt(g, sorted, i) || (sorted[i] > 0 && FromFirst(g, sorted[i] - 1, sorted[i]) && LaterPred(g, sorted, i))
  }

  /** After searching from the blocks 1 to `k`. */
  ghost predicate SearchedTo(g: Graph, k: nat, marked: set<nat>, sorted: seq<nat>) {
    && Searched(g, marked, sorted) && (forall x :: x in marked ==> x in sorted)
    && (forall x: nat :: x in marked <==> x < |g| && FromFirst(g, k, x))
    && (EntryFirst(g) ==> forall i :: 0 <= i < |sorted| ==> Explained(g, sorted, i))
  }

  lemma ExplainedKept(g: Graph, sorted: seq<nat>, more: seq<nat>, i: nat)
    requires i < |sorted| && sorted <= more && Explained(g, sorted, i)
    ensures Explained(g, more, i)
  {
    if RootAt(g, sorted, i) {
      assert more[..i + 1] == sorted[..i + 1];
    } else {
      LaterKept(g, sorted, more, i);
    }
  }

  /** What is marked is closed under jumps. */
  lemma {:induction false} ClosedUnderPaths(g: Graph, marked: set<nat>, sorted: seq<nat>, p: seq<nat>, a: nat, b: nat)
    requires Searched(g, marked, sorted) && (forall x :: x in marked ==> x in sorted)
    requires a in marked && Connects(g, p, a, b) && b < |g|
    ensures b in marked
    decreases |p|
  {
    if |p| > 1 {
      var u := p[|p| - 2];
      assert Edge(g, u, b) && u < |g|;
      PathPrefix(g, p, |p| - 2);
      ClosedUnderPaths(g, marked, sorted, p[..|p| - 1], a, u);
      var i :| 0 <= i < |sorted| && sorted[i] == u;
      assert JumpsDone(g, marked, sorted, i);
    }
  }

  lemma NoOpen(g: Graph, marked: set<nat>, sorted: seq<nat>, v: nat)
    requires forall x :: x in marked ==> x in sorted
    ensures OpenLead(g, marked, sorted, v)
  {
  }

  ghost predicate EntryFirst(g: Graph) {
    forall a: nat :: !Edge(g, a, 0)
  }

  lemma EntryUnreached(g: Graph, a: nat)
    requires EntryFirst(g) && Reach(g, a, 0)
    ensures a == 0
  {
    if a != 0 {
      var u := LastJump(g, a, 0);
    }
  }

  lemma {:induction false} SearchedMore(g: Graph, k: nat, marked: set<nat>, sorted: seq<nat>, marked': set<nat>,
                                        sorted': seq<nat>)
    requires k + 1 < |g| && SearchedTo(g, k, marked, sorted)
    requires Visited(g, k + 1, marked, sorted, marked', sorted')
    ensures SearchedTo(g, k + 1, marked', sorted')
  {
    assert (forall x :: x in marked' ==> x in sorted') && forall x ::
      x in sorted' ==> x in marked' by { AllSorted(g, k + 1, marked, sorted, marked', sorted'); }
    MarkedIsReached(g, k, marked, sorted, marked', sorted');
    forall i | EntryFirst(g) && 0 <= i < |sorted'|
      ensures Explained(g, sorted', i)
    {
      if i < |sorted| {
        ExplainedKept(g, sorted, sorted', i);
      } else if sorted'[i] != k + 1 {
        NewExplained(g, k, marked, sorted, marked', sorted', i);
      } else {
        RootExplained(g, k, marked, sorted, marked', sorted', i);
      }
    }
  }

  lemma AllSorted(g: Graph, v: nat, marked: set<nat>, sorted: seq<nat>, marked': set<nat>, sorted': seq<nat>)
    requires Visited(g, v, marked, sorted, marked', sorted') && forall x :: x in marked ==> x in sorted
    ensures (forall x :: x in marked' ==> x in sorted') && forall x :: x in sorted' ==> x in marked'
  {
    assert sorted' == sorted + sorted'[|sorted|..];
    hide JumpsDone, LaterPred, Reach;
  }

  lemma {:induction false} MarkedIsReached(g: Graph, k: nat, marked: set<nat>, sorted: seq<nat>, marked': set<nat>,
                                           sorted': seq<nat>)
    requires k + 1 < |g| && SearchedTo(g, k, marked, sorted)
    requires Visited(g, k + 1, marked, sorted, marked', sorted') && forall x :: x in marked' ==> x in sorted'
    ensures forall x: nat :: x in marked' <==> x < |g| && FromFirst(g, k + 1, x)
  {
    hide JumpsDone, LaterPred, Explained;
    VisitedMarks(g, k + 1, marked, sorted, marked', sorted');
    forall x: nat
      ensures x in marked' <==> x < |g| && FromFirst(g, k + 1, x)
    {
      if x in marked {
        assert FromFirst(g, k, x);
      }
      if x < |g| && FromFirst(g, k + 1, x) {
        var r: nat :| 1 <= r <= k + 1 && Reach(g, r, x);
        assert r in marked' by {
          if r <= k {
            ReachSelf(g, r);
            assert FromFirst(g, k, r);
          }
        }
        var p :| Connects(g, p, r, x);
        ClosedUnderPaths(g, marked', sorted', p, r, x);
      }
    }
  }

  lemma NewExplained(g: Graph, k: nat, marked: set<nat>, sorted: seq<nat>, marked': set<nat>, sorted': seq<nat>, i: nat)
    requires EntryFirst(g) && k + 1 < |g| && SearchedTo(g, k, marked, sorted)
    requires Visited(g, k + 1, marked, sorted, marked', sorted') && |sorted| <= i < |sorted'| && sorted'[i] != k + 1
    ensures Explained(g, sorted', i)
  {
    var x := sorted'[i];
    assert x in sorted'[|sorted|..];
    hide JumpsDone, LaterPred, Searched;
    assert Reach(g, k + 1, x) && x !in marked;
    NewIsLater(g, k, marked, x);
  }

  lemma NewIsLater(g: Graph, k: nat, marked: set<nat>, x: nat)
    requires EntryFirst(g) && Reach(g, k + 1, x) && x < |g| && x !in marked && x != k + 1
    requires forall y: nat :: y in marked <==> y < |g| && FromFirst(g, k, y)
    ensures x > 0 && FromFirst(g, x - 1, x)
  {
    ReachSelf(g, x);
    assert x == 0 || x > k by {
      assert 1 <= x <= k ==> FromFirst(g, k, x);
    }
    if x == 0 {
      EntryUnreached(g, k + 1);
    }
  }

  lemma RootExplained(g: Graph, k: nat, marked: set<nat>, sorted: seq<nat>, marked': set<nat>, sorted': seq<nat>,
                      i: nat)
    requires k + 1 < |g| && SearchedTo(g, k, marked, sorted) && Visited(g, k + 1, marked, sorted, marked', sorted')
    requires |sorted| <= i < |sorted'| && sorted'[i] == k + 1
    requires (forall x: nat :: x in marked' <==> x < |g| && FromFirst(g, k + 1, x)) &&
      (forall x :: x in marked' ==> x in sorted')
    ensures Explained(g, sorted', i)
  {
    hide JumpsDone, LaterPred, FromFirst, Reach;
    assert k + 1 in sorted'[|sorted|..];
    assert k + 1 !in marked;
    assert i == |sorted'| - 1;
    assert sorted'[..i + 1] == sorted';
    assert RootAt(g, sorted', i);
  }

  /** The reverse of what was sorted. */
  function Reverse(s: seq<nat>): (r: seq<nat>)
    ensures |r| == |s| && forall i :: 0 <= i < |s| ==> r[i] == s[|s| - 1 - i]
  {
    seq(|s|, i requires 0 <= i < |s| => s[|s| - 1 - i])
  }

  /** All blocks, each once. */
  ghost predicate IsOrder(g: Graph, order: seq<nat>) {
    && |order| == |g| && (forall x: nat :: x < |g| <==> x in order)
    && forall i, j :: 0 <= i < j < |order| ==> order[i] != order[j]
  }

  /** Jumps go backwards only where they close a cycle. */
  ghost predicate ForwardUnlessCyclic(g: Graph, order: seq<nat>) {
    forall i, j :: 0 <= i < j < |order| && Edge(g, order[j], order[i]) ==> Reach(g, order[i], order[j])
  }

  /** Every block after the first has one before it that jumps to it. */
  ghost predicate PredecessorsFirst(g: Graph, order: seq<nat>) {
    forall i :: 0 < i < |order| ==> EarlierPred(g, order, i)
  }

  ghost predicate EarlierPred(g: Graph, order: seq<nat>, i: nat)
    requires i < |order|
  {
    exists j :: 0 <= j < i && Edge(g, order[j], order[i])
  }

  /** A block to which no block from 1 up to it leads has a predecessor to which none of these and
      not the block itself leads. */
  ghost predicate Orderable(g: Graph) {
    forall b: nat :: 0 < b < |g| && !FromFirst(g, b - 1, b) ==> EnteredElsewhere(g, b)
  }

  ghost predicate EnteredElsewhere(g: Graph, b: nat) {
    exists u: nat :: u < |g| && Edge(g, u, b) && !FromFirst(g, b, u)
  }

  /** The order of the blocks. Jumps go backwards only within cycles. If nothing jumps to the entry
      it comes first, and every other block has a predecessor before it iff the condition above
      holds. */
  method Sort(g: Graph) returns (order: seq<nat>)
    ensures IsOrder(g, order) && ForwardUnlessCyclic(g, order)
    ensures |g| > 0 && EntryFirst(g) ==> order[0] == 0 && (PredecessorsFirst(g, order) <==> Orderable(g))
  {
    hide Searched, SearchedTo, Visited, OpenLead, IsOrder, ForwardUnlessCyclic, PredecessorsFirst, Orderable,
         AllButEntry, EntryFirst;
    if |g| == 0 {
      NoBlocks(g);
      return [];
    }
    var s := new Sorter(g);
    SearchStarts(g);
    var i := 1;
    while i < |g|
      invariant 1 <= i <= |g| && s.g == g && SearchedTo(g, i - 1, s.marked, s.sorted)
    {
      SearchedFacts(g, i - 1, s.marked, s.sorted);
      NoOpen(g, s.marked, s.sorted, i);
      ghost var m, t := s.marked, s.sorted;
      s.Visit(i);
      SearchedMore(g, i - 1, m, t, s.marked, s.sorted);
      i := i + 1;
    }
    SearchedFacts(g, |g| - 1, s.marked, s.sorted);
    NoOpen(g, s.marked, s.sorted, 0);
    ghost var m, t := s.marked, s.sorted;
    s.Visit(0);
    AllInOrder(g, m, t, s.marked, s.sorted);
    order := Reverse(s.sorted);
    ReverseForward(g, s.marked, s.sorted);
    if EntryFirst(g) {
      EntryLast(g, m, t, s.marked, s.sorted);
      ReverseFirst(g, t, s.sorted);
    }
  }

  lemma NoBlocks(g: Graph)
    requires |g| == 0
    ensures IsOrder(g, []) && ForwardUnlessCyclic(g, [])
  {
  }

  lemma SearchStarts(g: Graph)
    ensures SearchedTo(g, 0, {}, [])
  {
  }

  lemma SearchedFacts(g: Graph, k: nat, marked: set<nat>, sorted: seq<nat>)
    requires SearchedTo(g, k, marked, sorted)
    ensures Searched(g, marked, sorted) && forall x :: x in marked ==> x in sorted
  {
  }

  /** At the end all blocks but the entry are sorted, and the entry is last. */
  ghost predicate AllButEntry(g: Graph, sorted: seq<nat>, sorted': seq<nat>) {
    && |g| > 0 && sorted' == sorted + [0] && IsOrder(g, sorted')
    && (forall i :: 0 <= i < |sorted| ==> Explained(g, sorted, i))
  }

  lemma AllMarked(g: Graph, marked: set<nat>, sorted: seq<nat>)
    requires |g| > 0 && SearchedTo(g, |g| - 1, marked, sorted)
    ensures forall x: nat :: 0 < x < |g| ==> x in marked
  {
    forall x: nat | 0 < x < |g|
      ensures x in marked
    {
      ReachSelf(g, x);
      assert FromFirst(g, |g| - 1, x);
    }
  }

  lemma {:induction false} AllInOrder(g: Graph, marked: set<nat>, sorted: seq<nat>, marked': set<nat>,
                                      sorted': seq<nat>)
    requires |g| > 0 && SearchedTo(g, |g| - 1, marked, sorted) && Visited(g, 0, marked, sorted, marked', sorted')
    ensures Searched(g, marked', sorted') && IsOrder(g, sorted')
  {
    AllMarked(g, marked, sorted);
    VisitedMarks(g, 0, marked, sorted, marked', sorted');
    AllSorted(g, 0, marked, sorted, marked', sorted');
    hide JumpsDone, LaterPred, Reach, FromFirst, Explained;
    CountOrder(g, sorted');
  }

  lemma {:induction false} EntryLast(g: Graph, marked: set<nat>, sorted: seq<nat>, marked': set<nat>, sorted': seq<nat>)
    requires |g| > 0 && EntryFirst(g) && SearchedTo(g, |g| - 1, marked, sorted) &&
      Visited(g, 0, marked, sorted, marked', sorted')
    requires IsOrder(g, sorted')
    ensures AllButEntry(g, sorted, sorted')
  {
    assert 0 !in marked by {
      if FromFirst(g, |g| - 1, 0) {
        var r: nat :| 1 <= r <= |g| - 1 && Reach(g, r, 0);
        EntryUnreached(g, r);
      }
    }
    AllMarked(g, marked, sorted);
    hide JumpsDone, LaterPred, Reach, FromFirst, Explained;
    OnlyEntryAdded(g, marked, sorted, marked', sorted');
  }

  lemma OnlyEntryAdded(g: Graph, marked: set<nat>, sorted: seq<nat>, marked': set<nat>, sorted': seq<nat>)
    requires Visited(g, 0, marked, sorted, marked', sorted') && 0 !in marked && forall x: nat ::
      0 < x < |g| ==> x in marked
    ensures sorted' == sorted + [0]
  {
    hide JumpsDone, LaterPred, Reach;
    var k, n := |sorted|, |sorted'| - 1;
    var x := sorted'[k];
    assert sorted'[k..][0] == x;
    assert x in Added(sorted, sorted') && x in marked' && x < |g| && x == 0;
    assert k == n;
    assert sorted' == sorted'[..k] + [x];
  }

  /** In a sequence without repetition nothing from `k` on occurs before. */
  lemma NotInPrefix(s: seq<nat>, k: nat, j: nat)
    requires k <= j < |s| && forall i, l :: 0 <= i < l < |s| ==> s[i] != s[l]
    ensures s[j] !in s[..k]
  {
  }

  lemma {:induction false} CountOrder(g: Graph, s: seq<nat>)
    requires (forall x: nat :: x < |g| <==> x in s) && forall i, j :: 0 <= i < j < |s| ==> s[i] != s[j]
    ensures |s| == |g|
  {
    BlocksSize(|g|);
    assert Elements(s) == Blocks(|g|);
    DistinctSize(s);
  }

  lemma {:induction false} BlocksSize(n: nat)
    ensures |Blocks(n)| == n
  {
    if n > 0 {
      BlocksSize(n - 1);
    }
  }

  ghost function Elements(s: seq<nat>): (r: set<nat>)
    ensures forall x :: x in r <==> x in s
  {
    set x | x in s
  }

  lemma {:induction false} DistinctSize(s: seq<nat>)
    requires forall i, j :: 0 <= i < j < |s| ==> s[i] != s[j]
    ensures |Elements(s)| == |s|
  {
    if s == [] {
      assert Elements(s) == {};
    } else {
      var n := |s| - 1;
      DistinctSize(s[..n]);
      NotInPrefix(s, n, n);
      assert s == s[..n] + [s[n]];
      assert Elements(s) == Elements(s[..n]) + {s[n]};
    }
  }

  lemma ReverseForward(g: Graph, marked: set<nat>, sorted: seq<nat>)
    requires Searched(g, marked, sorted) && IsOrder(g, sorted)
    ensures IsOrder(g, Reverse(sorted)) && ForwardUnlessCyclic(g, Reverse(sorted))
  {
    hide Reach, Edge;
    var r, n := Reverse(sorted), |sorted|;
    forall x: nat
      ensures x in r <==> x in sorted
    {
      if x in sorted {
        var i :| 0 <= i < n && sorted[i] == x;
        assert r[n - 1 - i] == x;
      }
    }
    forall i, j | 0 <= i < j < n && Edge(g, r[j], r[i])
      ensures Reach(g, r[i], r[j])
    {
      var k := n - 1 - j;
      assert JumpsDone(g, marked, sorted, k) && sorted[k] == r[j] && r[i] == sorted[n - 1 - i];
      NotInPrefix(sorted, k, n - 1 - i);
    }
  }

  /** Before reversing: a block has a later predecessor iff it does not start a search or is
      entered from elsewhere. */
  lemma LaterIff(g: Graph, sorted: seq<nat>, sorted': seq<nat>, i: nat)
    requires AllButEntry(g, sorted, sorted') && i < |sorted|
    ensures sorted'[i] > 0
    ensures var b := sorted'[i]; LaterPred(g, sorted', i) <==> FromFirst(g, b - 1, b) || EnteredElsewhere(g, b)
  {
    var b := sorted'[i];
    assert Explained(g, sorted, i);
    ExplainedKept(g, sorted, sorted', i);
    if RootAt(g, sorted', i) {
      if LaterPred(g, sorted', i) {
        var j :| i < j < |sorted'| && Edge(g, sorted'[j], sorted'[i]);
        NotBefore(g, sorted', i, j);
      }
      if EnteredElsewhere(g, b) {
        var u: nat :| u < |g| && Edge(g, u, b) && !FromFirst(g, b, u);
        assert u in sorted';
        var j :| 0 <= j < |sorted'| && sorted'[j] == u;
        AfterPrefix(sorted', i + 1, j);
      }
    }
  }

  lemma AfterPrefix(s: seq<nat>, k: nat, j: nat)
    requires k <= |s| && j < |s| && s[j] !in s[..k]
    ensures j >= k
  {
  }

  lemma NotBefore(g: Graph, sorted: seq<nat>, i: nat, j: nat)
    requires i < j < |sorted| && IsOrder(g, sorted) && RootAt(g, sorted, i)
    ensures sorted[j] < |g| && !FromFirst(g, sorted[i], sorted[j])
  {
    hide FromFirst;
    assert sorted[j] in sorted;
    NotInPrefix(sorted, i + 1, j);
  }

  lemma ReverseFirst(g: Graph, sorted: seq<nat>, sorted': seq<nat>)
    requires AllButEntry(g, sorted, sorted')
    ensures Reverse(sorted')[0] == 0 && (PredecessorsFirst(g, Reverse(sorted')) <==> Orderable(g))
  {
    var r, n := Reverse(sorted'), |sorted'|;
    hide FromFirst, EnteredElsewhere, RootAt, Explained;
    forall i | 0 < i < n
      ensures EarlierPred(g, r, i) <==> LaterPred(g, sorted', n - 1 - i)
    {
      EarlierIsLater(g, sorted', i);
    }
    forall i | 0 < i < n
      ensures var b := r[i]; b > 0 && (EarlierPred(g, r, i) <==> FromFirst(g, b - 1, b) || EnteredElsewhere(g, b))
    {
      LaterIff(g, sorted, sorted', n - 1 - i);
    }
    if PredecessorsFirst(g, r) {
      forall b: nat | 0 < b < |g| && !FromFirst(g, b - 1, b)
        ensures EnteredElsewhere(g, b)
      {
        assert b in sorted';
        var i :| 0 <= i < n && sorted'[i] == b;
        assert r[n - 1 - i] == b && EarlierPred(g, r, n - 1 - i);
      }
    } else {
      var i :| 0 < i < n && !EarlierPred(g, r, i);
      assert r[i] in sorted';
    }
  }

  lemma EarlierIsLater(g: Graph, sorted: seq<nat>, i: nat)
    requires 0 < i < |sorted|
    ensures EarlierPred(g, Reverse(sorted), i) <==> LaterPred(g, sorted, |sorted| - 1 - i)
  {
    var r, n := Reverse(sorted), |sorted|;
    if EarlierPred(g, r, i) {
      var j :| 0 <= j < i && Edge(g, r[j], r[i]);
      assert Edge(g, sorted[n - 1 - j], sorted[n - 1 - i]);
    }
    if LaterPred(g, sorted, n - 1 - i) {
      var j :| n - 1 - i < j < n && Edge(g, sorted[j], sorted[n - 1 - i]);
      assert Edge(g, r[n - 1 - j], r[i]);
    }
  }

  // ---- When the order is as the analyses need it ----

  ghost predicate Acyclic(g: Graph) {
    forall a: nat, b: nat :: Edge(g, a, b) ==> !Reach(g, b, a)
  }

  ghost predicate AllReached(g: Graph) {
    forall b: nat :: b < |g| ==> Reach(g, 0, b)
  }

  /** A graph without cycles whose blocks are all reachable always gets such an order. */
  lemma AcyclicOrderable(g: Graph)
    requires Acyclic(g) && AllReached(g)
    ensures Orderable(g)
  {
    forall b: nat | 0 < b < |g| && !FromFirst(g, b - 1, b)
      ensures EnteredElsewhere(g, b)
    {
      assert Reach(g, 0, b);
      var u := LastJump(g, 0, b);
      assert !FromFirst(g, b, u) by {
        if FromFirst(g, b, u) {
          var r: nat :| 1 <= r <= b && Reach(g, r, u);
          ReachEdge(g, u, b);
          ReachAlong(g, r, u, b);
        }
      }
    }
  }

  /** An order in which every block has a predecessor before it is kept good. */
  lemma GoodStaysGood(g: Graph)
    requires ForwardReachable(g)
    ensures EntryFirst(g) && Orderable(g)
  {
    forall b: nat | 0 < b < |g| && !FromFirst(g, b - 1, b)
      ensures EnteredElsewhere(g, b)
    {
      assert HasEarlierPredecessor(g, b);
      var a: nat :| a < b && Edge(g, a, b);
      ReachEdge(g, a, b);
      assert a == 0;
      assert !FromFirst(g, b, 0) by {
        if FromFirst(g, b, 0) {
          var r: nat :| 1 <= r <= b && Reach(g, r, 0);
          EntryUnreached(g, r);
        }
      }
    }
  }

  /** A loop whose header comes after a block of its body: the body is sorted before the header,
      although only the header jumps to it. */
  lemma LateHeader()
    ensures var g := [[2], [2], [1]]; EntryFirst(g) && AllReached(g) && !Orderable(g)
  {
    var g := [[2], [2], [1]];
    assert Edge(g, 0, 2) && Edge(g, 2, 1) && Edge(g, 1, 2);
    ReachSelf(g, 0);
    ReachEdge(g, 0, 2);
    ReachEdge(g, 2, 1);
    ReachEdge(g, 1, 2);
    ReachAlong(g, 0, 2, 1);
    assert FromFirst(g, 1, 2);
    forall u: nat | u < |g| && Edge(g, u, 1)
      ensures FromFirst(g, 1, u)
    {
      assert u == 2;
    }
    assert !FromFirst(g, 1 - 1, 1) && !EnteredElsewhere(g, 1);
  }

  // ---- The graph in its new order ----

  function Position(order: seq<nat>, b: nat): (i: nat)
    ensures i <= |order| && (i < |order| ==> order[i] == b) && (b in order ==> i < |order|)
  {
    if order == [] || order[0] == b then 0 else Position(order[1..], b) + 1
  }

  /** The blocks renamed by their positions; the sink stays the sink. */
  function Renamed(g: Graph, order: seq<nat>): (h: Graph)
    requires |order| == |g| && forall i :: 0 <= i < |order| ==> order[i] < |g|
    ensures |h| == |g|
  {
    seq(|g|, i requires 0 <= i < |g| => RenamedJumps(g[order[i]], order))
  }

  function RenamedJumps(jumps: seq<nat>, order: seq<nat>): (r: seq<nat>)
    ensures |r| == |jumps| && forall k :: 0 <= k < |r| ==> r[k] == Position(order, jumps[k])
  {
    seq(|jumps|, k requires 0 <= k < |jumps| => Position(order, jumps[k]))
  }

  lemma RenamedEdge(g: Graph, order: seq<nat>, i: nat, j: nat)
    requires IsOrder(g, order) && i < |g| && j < |g| && forall i :: 0 <= i < |order| ==> order[i] < |g|
    ensures Edge(Renamed(g, order), i, j) <==> Edge(g, order[i], order[j])
  {
    var h, b := Renamed(g, order), order[i];
    assert order[j] in order;
    PositionOf(g, order, j);
    if Edge(g, b, order[j]) {
      var k :| 0 <= k < |g[b]| && g[b][k] == order[j];
      assert h[i][k] == j;
    }
    if Edge(h, i, j) {
      var k :| 0 <= k < |h[i]| && h[i][k] == j;
      assert j == Position(order, g[b][k]);
    }
  }

  lemma PositionOf(g: Graph, order: seq<nat>, j: nat)
    requires IsOrder(g, order) && j < |order|
    ensures Position(order, order[j]) == j
  {
    assert order[j] in order;
  }

  /** In its new order the graph is as the dominator analysis needs it, and if it has no cycles
      every jump goes forward. */
  lemma {:induction false} SortedGraph(g: Graph, order: seq<nat>)
    requires |g| > 0 && EntryFirst(g) && IsOrder(g, order) && order[0] == 0 && ForwardUnlessCyclic(g, order)
    requires forall i :: 0 <= i < |order| ==> order[i] < |g|
    ensures PredecessorsFirst(g, order) <==> ForwardReachable(Renamed(g, order))
    ensures Acyclic(g) ==> forall a: nat, b: nat :: a < |g| && b < |g| && Edge(Renamed(g, order), a, b) ==> a < b
  {
    hide Renamed, Edge, Reach;
    var h := Renamed(g, order);
    forall a: nat
      ensures !Edge(h, a, 0)
    {
      if a < |g| {
        RenamedEdge(g, order, a, 0);
      } else {
        EdgeInside(h, a, 0);
      }
    }
    forall i: nat | 0 < i < |g|
      ensures EarlierPred(g, order, i) <==> HasEarlierPredecessor(h, i)
    {
      RenamedEarlier(g, order, i);
    }
    forall a: nat, b: nat | Acyclic(g) && a < |g| && b < |g| && Edge(h, a, b)
      ensures a < b
    {
      RenamedEdge(g, order, a, b);
      ReachSelf(g, order[a]);
    }
  }

  lemma EdgeInside(g: Graph, a: nat, b: nat)
    requires a >= |g|
    ensures !Edge(g, a, b)
  {
  }

  lemma RenamedEarlier(g: Graph, order: seq<nat>, i: nat)
    requires IsOrder(g, order) && 0 < i < |g| && forall i :: 0 <= i < |order| ==> order[i] < |g|
    ensures EarlierPred(g, order, i) <==> HasEarlierPredecessor(Renamed(g, order), i)
  {
    hide Renamed, Edge;
    var h := Renamed(g, order);
    if EarlierPred(g, order, i) {
      var j: nat :| j < i && Edge(g, order[j], order[i]);
      RenamedEdge(g, order, j, i);
    }
    if HasEarlierPredecessor(h, i) {
      var j: nat :| j < i && Edge(h, j, i);
      RenamedEdge(g, order, j, i);
    }
  }
}

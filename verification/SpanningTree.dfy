/** The spanning tree that loop analysis numbers, and its classification of jumps.

    The worklist marks a block when it is pushed, not when it is numbered, so the
    tree is not in general a depth-first tree of the graph; the numbering is still a
    preorder of the tree it does build. */
module SpanningTree {
  import opened Cfg
  import opened LinkTree

  /** Every block is reachable, and no jump goes to the entry or to the sink. */
  ghost predicate Analysable(g: Graph) {
    && |g| > 0
    && (forall a: nat, b: nat :: Edge(g, a, b) ==> 0 < b < |g|)
    && (forall b: nat :: b < |g| ==> Reached(g, b))
  }

  ghost predicate Reached(g: Graph, b: nat) {
    exists p :: PathTo(g, p, b)
  }

  // ---- The finished numbering ----

  /** `parent` is a spanning tree over numbers whose links are jumps of the graph. */
  ghost predicate IsTree(g: Graph, node: seq<nat>, parent: seq<Link>) {
    && |node| == |parent| && |node| > 0 && node[0] == 0
    && Tree(parent)
    && (forall v :: 0 <= v < |parent| ==> parent[v].To?)
    && (forall v :: 0 < v < |parent| ==> TreeJump(g, node, parent, v))
  }

  ghost predicate TreeJump(g: Graph, node: seq<nat>, parent: seq<Link>, v: nat)
    requires |node| == |parent| && 0 < v < |parent| && parent[v].To?
  {
    parent[v].block < v && Edge(g, node[parent[v].block], node[v])
  }

  /** The parent of a number is its smallest predecessor. */
  ghost predicate FirstPredecessors(g: Graph, node: seq<nat>, parent: seq<Link>)
    requires IsTree(g, node, parent)
  {
    forall u, v :: 0 <= u < |node| && 0 < v < |node| && Edge(g, node[u], node[v]) ==> parent[v].block <= u
  }

  /** Where a target first occurs among the jumps of a block. */
  function FirstAt(targets: seq<nat>, b: nat): (r: nat)
    ensures r <= |targets| && (r < |targets| ==> targets[r] == b)
    ensures forall i :: 0 <= i < r ==> targets[i] != b
  {
    if targets == [] || targets[0] == b then 0 else FirstAt(targets[1..], b) + 1
  }

  ghost predicate Before(g: Graph, x: nat, a: nat, b: nat) {
    x < |g| && FirstAt(g[x], a) < FirstAt(g[x], b)
  }

  /** The children of a number are numbered in the reverse order of its jumps. */
  ghost predicate Reversed(g: Graph, node: seq<nat>, parent: seq<Link>)
    requires IsTree(g, node, parent)
  {
    forall u, v :: 0 < u < v < |node| && parent[u] == parent[v] ==> Before(g, node[parent[u].block], node[v], node[u])
  }

  ghost predicate Inverse(number: map<nat, nat>, node: seq<nat>) {
    && (forall b :: b in number ==> number[b] < |node| && node[number[b]] == b)
    && (forall v :: 0 <= v < |node| ==> node[v] in number && number[node[v]] == v)
  }

  /** Descendants of `w` are exactly the numbers from `w` to `hi`. */
  ghost predicate Spans(parent: seq<Link>, w: nat, hi: int)
    requires Tree(parent) && forall v :: 0 <= v < |parent| ==> parent[v].To?
  {
    forall v :: 0 <= v < |parent| ==> (Above(parent, w, v) <==> w <= v <= hi)
  }

  // ---- The search in progress ----

  datatype Item = Item(bb: nat, flag: bool)

  /** `up[i]` is the position of the worklist item whose block pushed item `i`. */
  datatype Search = Search(work: seq<Item>, up: seq<nat>, visited: set<nat>,
                           number: map<nat, nat>, node: seq<nat>, last: seq<int>, parent: seq<Link>)

  /** Items above position `i`'s pusher, up to `i`, are its unprocessed siblings. */
  ghost predicate Stacked(g: Graph, s: Search) {
    && |s.work| == |s.up|
    && (s.work != [] ==> s.work[0].bb == 0)
    && (forall i, j :: 0 <= i < j < |s.work| ==> s.work[i].bb != s.work[j].bb)
    && (forall i :: 0 <= i < |s.work| ==> s.work[i].bb < |g|)
    && (forall i :: 0 <= i < |s.work| ==> (s.work[i].flag <==> s.work[i].bb in s.number))
    && (forall i :: 0 < i < |s.work| ==>
      s.up[i] < i && s.work[s.up[i]].flag && Edge(g, s.work[s.up[i]].bb, s.work[i].bb))
    && (forall i, j :: 0 <= i < |s.work| && s.up[i] < j < i ==> !s.work[j].flag)
    && (forall i, j :: 0 <= i < j < |s.work| && s.work[i].flag && s.work[j].flag ==>
      s.number[s.work[i].bb] < s.number[s.work[j].bb])
  }

  ghost predicate Marked(g: Graph, s: Search) {
    && (forall b :: (b in s.visited || b == 0) <==> (b in s.number || Item(b, false) in s.work))
    && (forall b, c :: b in s.number && Edge(g, b, c) ==> c in s.visited)
  }

  ghost predicate Open(s: Search, v: nat)
    requires v < |s.node|
  {
    Item(s.node[v], true) in s.work
  }

  ghost predicate Spanned(g: Graph, s: Search) {
    && IsTree(g, s.node, s.parent) && Inverse(s.number, s.node) && |s.last| == |g|
    && |s.node| <= |g|
    && (forall v :: 0 <= v < |s.node| ==> s.node[v] < |g|)
    && (forall w :: 0 <= w < |s.node| ==> SpannedAt(g, s, w))
  }

  /** An open number has every later number below it; a closed one has exactly the
      numbers up to its `last`, and no open number among them. */
  ghost predicate SpannedAt(g: Graph, s: Search, w: nat)
    requires IsTree(g, s.node, s.parent) && |s.last| == |g| && |s.node| <= |g| && w < |s.node|
  {
    if Open(s, w) then
      Spans(s.parent, w, |s.node| - 1)
    else
      && w <= s.last[w] < |s.node|
      && Spans(s.parent, w, s.last[w])
      && forall f :: 0 <= f < |s.node| && Open(s, f) ==> !(w <= f <= s.last[w])
  }

  /** Blocks are pushed by the first numbered block that jumps to them. */
  ghost predicate FirstPushed(g: Graph, s: Search)
    requires Stacked(g, s) && Spanned(g, s)
  {
    && FirstPredecessors(g, s.node, s.parent)
    && forall i, u :: 0 < i < |s.work| && !s.work[i].flag && 0 <= u < |s.node| && Edge(g, s.node[u], s.work[i].bb) ==>
         s.number[s.work[s.up[i]].bb] <= u
  }

  ghost predicate Searching(g: Graph, s: Search) {
    Stacked(g, s) && Marked(g, s) && Spanned(g, s) && FirstPushed(g, s)
  }

  // ---- Extending the tree by one number ----

  lemma {:induction false} AboveExtend(parent: seq<Link>, p: nat, w: nat, v: nat)
    requires Tree(parent) && p < |parent| && parent[p].To? && v < |parent| && parent[v].To?
    ensures Tree(parent + [To(p)])
    ensures Above(parent + [To(p)], w, v) == Above(parent, w, v)
    decreases v
  {
    var parent' := parent + [To(p)];
    forall c | 0 < c < |parent'| && parent'[c].To?
      ensures Parent(parent', c)
    {
      assert c < |parent| ==> Parent(parent, c);
    }
    if v > 0 {
      assert Parent(parent, v);
      AboveExtend(parent, p, w, parent[v].block);
    }
  }

  function Pop(s: Search): Search
    requires s.work != [] && |s.up| == |s.work|
    requires s.work[|s.work| - 1].bb in s.number && s.number[s.work[|s.work| - 1].bb] < |s.last|
  {
    var top := s.work[|s.work| - 1].bb;
    s.(last := s.last[s.number[top] := |s.node| - 1],
       work := s.work[..|s.work| - 1], up := s.up[..|s.work| - 1])
  }

  lemma PopOpen(g: Graph, s: Search, v: nat)
    requires Searching(g, s) && s.work != [] && s.work[|s.work| - 1].flag && v < |s.node|
    ensures Open(Pop(s), v) <==> Open(s, v) && s.node[v] != s.work[|s.work| - 1].bb
  {
    var n := |s.work| - 1;
    if Open(s, v) && s.node[v] != s.work[n].bb {
      var i :| 0 <= i < |s.work| && s.work[i] == Item(s.node[v], true);
      assert Pop(s).work[i] == s.work[i];
    }
  }

  lemma PopMarked(g: Graph, s: Search)
    requires Searching(g, s) && s.work != [] && s.work[|s.work| - 1].flag
    ensures Marked(g, Pop(s))
  {
    hide SpannedAt, FirstPushed, IsTree;
    var t := Pop(s);
    var n := |s.work| - 1;
    forall b
      ensures (b in t.visited || b == 0) <==> (b in t.number || Item(b, false) in t.work)
    {
      if Item(b, false) in s.work {
        var i :| 0 <= i < |s.work| && s.work[i] == Item(b, false);
        assert i < n && t.work[i] == s.work[i];
      }
    }
  }

  lemma PopSpannedAt(g: Graph, s: Search, w: nat)
    requires Searching(g, s) && s.work != [] && s.work[|s.work| - 1].flag && w < |s.node|
    ensures SpannedAt(g, Pop(s), w)
  {
    var t := Pop(s);
    var n := |s.work| - 1;
    var u := s.number[s.work[n].bb];
    PopOpen(g, s, w);
    assert SpannedAt(g, s, w);
    if w == u {
      assert Open(s, u) by { assert s.work[n] == Item(s.node[u], true); }
      forall f | 0 <= f < |s.node| && Open(t, f)
        ensures f < u
      {
        var i :| 0 <= i < n && t.work[i] == Item(s.node[f], true);
        assert s.work[i] == t.work[i] && s.number[s.work[i].bb] < s.number[s.work[n].bb];
      }
    } else if !Open(s, w) {
      forall f | 0 <= f < |s.node| && Open(t, f)
        ensures Open(s, f)
      {
        PopOpen(g, s, f);
      }
    }
  }

  lemma PopKeeps(g: Graph, s: Search)
    requires Searching(g, s) && s.work != [] && s.work[|s.work| - 1].flag
    ensures Searching(g, Pop(s))
  {
    PopMarked(g, s);
    forall w | 0 <= w < |s.node|
      ensures SpannedAt(g, Pop(s), w)
    {
      PopSpannedAt(g, s, w);
    }
  }

  /** The block on top gets the next number; its parent is the item that pushed it. */
  function Number(s: Search): Search
    requires s.work != [] && |s.up| == |s.work| && s.up[|s.work| - 1] < |s.work|
    requires s.work[s.up[|s.work| - 1]].bb in s.number
  {
    var n := |s.work| - 1;
    var top := s.work[n].bb;
    s.(number := s.number[top := |s.node|], node := s.node + [top],
       parent := s.parent + [To(s.number[s.work[s.up[n]].bb])],
       work := s.work[n := Item(top, true)])
  }

  lemma NumberStacked(g: Graph, s: Search)
    requires Searching(g, s) && |s.work| > 1 && !s.work[|s.work| - 1].flag
    ensures Stacked(g, Number(s))
  {
  }

  lemma NumberTree(g: Graph, s: Search)
    requires Searching(g, s) && |s.work| > 1 && !s.work[|s.work| - 1].flag
    ensures IsTree(g, Number(s).node, Number(s).parent)
  {
    var t := Number(s);
    var p := s.number[s.work[s.up[|s.work| - 1]].bb];
    AboveExtend(s.parent, p, 0, 0);
    forall v | 0 < v < |t.parent|
      ensures TreeJump(g, t.node, t.parent, v)
    {
      assert v < |s.node| ==> TreeJump(g, s.node, s.parent, v);
    }
  }

  lemma NumberAbove(g: Graph, s: Search, w: nat, v: nat)
    requires Searching(g, s) && |s.work| > 1 && !s.work[|s.work| - 1].flag && v <= |s.node|
    requires IsTree(g, Number(s).node, Number(s).parent)
    ensures Above(Number(s).parent, w, v) <==>
      if v < |s.node| then Above(s.parent, w, v)
      else w == v || Above(s.parent, w, s.number[s.work[s.up[|s.work| - 1]].bb])
  {
    var p := s.number[s.work[s.up[|s.work| - 1]].bb];
    AboveExtend(s.parent, p, w, if v < |s.node| then v else p);
  }

  lemma NumberOpen(g: Graph, s: Search, w: nat)
    requires Searching(g, s) && |s.work| > 1 && !s.work[|s.work| - 1].flag && w <= |s.node|
    ensures Open(Number(s), w) <==> w == |s.node| || Open(s, w)
  {
    var t := Number(s);
    if w == |s.node| {
      assert t.work[|s.work| - 1] == Item(t.node[w], true);
    } else if Open(s, w) {
      var i :| 0 <= i < |s.work| && s.work[i] == Item(s.node[w], true);
      assert t.work[i] == s.work[i];
    }
  }

  lemma NumberSpannedAt(g: Graph, s: Search, w: nat)
    requires Searching(g, s) && |s.work| > 1 && !s.work[|s.work| - 1].flag && |s.node| < |g|
    requires IsTree(g, Number(s).node, Number(s).parent) && w <= |s.node|
    ensures SpannedAt(g, Number(s), w)
  {
    var t := Number(s);
    var u := |s.node|;
    var at := s.up[|s.work| - 1];
    var p := s.number[s.work[at].bb];
    assert Open(s, p) by { assert s.work[at] == Item(s.node[p], true); }
    NumberOpen(g, s, w);
    forall v | 0 <= v <= u
      ensures Above(t.parent, w, v) <==>
        if v < u then Above(s.parent, w, v) else w == v || Above(s.parent, w, p)
    {
      NumberAbove(g, s, w, v);
    }
    if w == u {
      forall v | 0 <= v < u
        ensures !Above(s.parent, w, v)
      {
        if Above(s.parent, w, v) {
          AboveOrder(s.parent, w, v);
        }
      }
    } else {
      assert SpannedAt(g, s, w);
      if Open(s, w) {
        var i :| 0 <= i < |s.work| && s.work[i] == Item(s.node[w], true);
        assert w <= p;
      } else {
        forall f | 0 <= f <= u && Open(t, f)
          ensures !(w <= f <= t.last[w])
        {
          NumberOpen(g, s, f);
        }
      }
    }
  }

  lemma NumberSpanned(g: Graph, s: Search)
    requires Searching(g, s) && |s.work| > 1 && !s.work[|s.work| - 1].flag && |s.node| < |g|
    ensures Spanned(g, Number(s))
  {
    NumberTree(g, s);
    forall w | 0 <= w <= |s.node|
      ensures SpannedAt(g, Number(s), w)
    {
      NumberSpannedAt(g, s, w);
    }
  }

  /** A target not seen before is pushed on top of the block being expanded. */
  function Push(s: Search, at: nat, tgt: nat): Search {
    s.(visited := s.visited + {tgt}, work := s.work + [Item(tgt, false)], up := s.up + [at])
  }

  /** While the block at position `at` is expanded, only the first `k` of its targets are marked. */
  ghost predicate Expanding(g: Graph, s: Search, at: nat, k: nat) {
    && Stacked(g, s) && Spanned(g, s) && FirstPushed(g, s)
    && at < |s.work| && s.work[at].flag
    && (forall j :: at < j < |s.work| ==> !s.work[j].flag)
    && (forall b :: (b in s.visited || b == 0) <==> (b in s.number || Item(b, false) in s.work))
    && k <= |g[s.work[at].bb]|
    && (forall b, c :: b in s.number && b != s.work[at].bb && Edge(g, b, c) ==> c in s.visited)
    && (forall c :: c in g[s.work[at].bb][..k] ==> c in s.visited)
  }

  lemma PushFresh(g: Graph, s: Search, at: nat, k: nat)
    requires Expanding(g, s, at, k) && k < |g[s.work[at].bb]| && g[s.work[at].bb][k] !in s.visited
    requires Analysable(g)
    ensures g[s.work[at].bb][k] !in s.number
    ensures forall i :: 0 <= i < |s.work| ==> s.work[i].bb != g[s.work[at].bb][k]
  {
    var tgt := g[s.work[at].bb][k];
    assert Edge(g, s.work[at].bb, tgt);
    assert tgt !in s.number && Item(tgt, false) !in s.work;
    forall i | 0 <= i < |s.work|
      ensures s.work[i].bb != tgt
    {
      assert s.work[i] == Item(s.work[i].bb, s.work[i].flag);
    }
  }

  lemma PushSpanned(g: Graph, s: Search, at: nat, tgt: nat)
    requires Spanned(g, s)
    ensures Spanned(g, Push(s, at, tgt))
  {
    var t := Push(s, at, tgt);
    assert forall f :: 0 <= f < |s.node| ==> (Open(t, f) <==> Open(s, f));
    forall w | 0 <= w < |s.node|
      ensures SpannedAt(g, t, w)
    {
      assert SpannedAt(g, s, w);
    }
  }

  lemma PushStacked(g: Graph, s: Search, at: nat, k: nat)
    requires Analysable(g) && Expanding(g, s, at, k) && k < |g[s.work[at].bb]|
    requires g[s.work[at].bb][k] !in s.visited
    ensures Stacked(g, Push(s, at, g[s.work[at].bb][k]))
  {
    PushFresh(g, s, at, k);
    assert Edge(g, s.work[at].bb, g[s.work[at].bb][k]);
  }

  lemma PushFirst(g: Graph, s: Search, at: nat, k: nat)
    requires Analysable(g) && Expanding(g, s, at, k) && k < |g[s.work[at].bb]|
    requires g[s.work[at].bb][k] !in s.visited
    requires var t := Push(s, at, g[s.work[at].bb][k]); Stacked(g, t) && Spanned(g, t)
    ensures FirstPushed(g, Push(s, at, g[s.work[at].bb][k]))
  {
    var t := Push(s, at, g[s.work[at].bb][k]);
    forall i, u | 0 < i < |t.work| && !t.work[i].flag && 0 <= u < |t.node| && Edge(g, t.node[u], t.work[i].bb)
      ensures t.number[t.work[t.up[i]].bb] <= u
    {
      if i < |s.work| {
        assert Edge(g, s.node[u], s.work[i].bb);
        assert t.up[i] == s.up[i] < i;
      } else {
        assert s.node[u] in s.number;
        assert s.node[u] == s.work[at].bb;
      }
    }
  }

  lemma PushKeeps(g: Graph, s: Search, at: nat, k: nat)
    requires Analysable(g) && Expanding(g, s, at, k) && k < |g[s.work[at].bb]|
    requires g[s.work[at].bb][k] !in s.visited
    ensures Expanding(g, Push(s, at, g[s.work[at].bb][k]), at, k + 1)
  {
    var tgt := g[s.work[at].bb][k];
    var t := Push(s, at, tgt);
    PushStacked(g, s, at, k);
    PushSpanned(g, s, at, tgt);
    PushFirst(g, s, at, k);
    assert forall b :: Item(b, false) in t.work <==> Item(b, false) in s.work || b == tgt;
    assert g[s.work[at].bb][..k + 1] == g[s.work[at].bb][..k] + [tgt];
  }

  lemma SkipKeeps(g: Graph, s: Search, at: nat, k: nat)
    requires Expanding(g, s, at, k) && k < |g[s.work[at].bb]| && g[s.work[at].bb][k] in s.visited
    ensures Expanding(g, s, at, k + 1)
  {
    assert g[s.work[at].bb][..k + 1] == g[s.work[at].bb][..k] + [g[s.work[at].bb][k]];
  }

  /** Numbering the entry starts the tree. */
  lemma StartSpanned(g: Graph, last: seq<int>)
    requires Analysable(g) && |last| == |g|
    ensures Expanding(g, Search([Item(0, true)], [0], {}, map[0 := 0], [0], last, [To(0)]), 0, 0)
  {
    var s := Search([Item(0, true)], [0], {}, map[0 := 0], [0], last, [To(0)]);
    assert Open(s, 0) by { assert s.work[0] == Item(s.node[0], true); }
    assert SpannedAt(g, s, 0);
  }

  lemma NumberFirst(g: Graph, s: Search)
    requires Searching(g, s) && |s.work| > 1 && !s.work[|s.work| - 1].flag
    requires Stacked(g, Number(s)) && Spanned(g, Number(s))
    ensures FirstPushed(g, Number(s))
  {
    var t := Number(s);
    var n := |s.work| - 1;
    forall u, v | 0 <= u < |t.node| && 0 < v < |t.node| && Edge(g, t.node[u], t.node[v])
      ensures t.parent[v].block <= u
    {
      if u < |s.node| && v < |s.node| {
        assert Edge(g, s.node[u], s.node[v]);
      } else if u < |s.node| {
        assert Edge(g, s.node[u], s.work[n].bb);
      } else if v < |s.node| {
        assert TreeJump(g, s.node, s.parent, v);
      }
    }
    forall i, u | 0 < i < |t.work| && !t.work[i].flag && 0 <= u < |t.node| && Edge(g, t.node[u], t.work[i].bb)
      ensures t.number[t.work[t.up[i]].bb] <= u
    {
      assert i < n && t.up[i] < i && s.work[s.up[i]].flag && t.work[t.up[i]] == s.work[s.up[i]];
      if u < |s.node| {
        assert Edge(g, s.node[u], s.work[i].bb);
      }
    }
  }

  lemma ExpandStarts(g: Graph, s: Search)
    requires Searching(g, s) && |s.work| > 1 && !s.work[|s.work| - 1].flag && |s.node| < |g|
    ensures Expanding(g, Number(s), |s.work| - 1, 0)
  {
    NumberStacked(g, s);
    NumberSpanned(g, s);
    NumberFirst(g, s);
    var t := Number(s);
    var n := |s.work| - 1;
    forall b
      ensures (b in t.visited || b == 0) <==> (b in t.number || Item(b, false) in t.work)
    {
      if Item(b, false) in s.work {
        var i :| 0 <= i < |s.work| && s.work[i] == Item(b, false);
        assert i < n ==> t.work[i] == s.work[i];
      } else {
        assert s.work[n] == Item(s.work[n].bb, false);
      }
    }
  }

  lemma ExpandEnds(g: Graph, s: Search, at: nat)
    requires at < |s.work| && s.work[at].bb < |g| && Expanding(g, s, at, |g[s.work[at].bb]|)
    ensures InProgress(g, s)
  {
    var x := s.work[at].bb;
    assert g[x][..|g[x]|] == g[x];
  }

  lemma {:induction false} CountBelow(keys: set<nat>, n: nat)
    requires forall b :: b in keys ==> b < n
    ensures |keys| <= n
    ensures |keys| == n <==> forall b: nat :: b < n ==> b in keys
  {
    if n == 0 {
      assert keys == {};
    } else {
      var rest := keys - {n - 1};
      assert n - 1 in keys ==> keys == rest + {n - 1};
      assert n - 1 !in keys ==> keys == rest;
      CountBelow(rest, n - 1);
    }
  }

  lemma {:induction false} InverseSize(number: map<nat, nat>, node: seq<nat>)
    requires Inverse(number, node)
    ensures |number.Keys| == |node|
    decreases |node|
  {
    if node == [] {
      assert number.Keys == {};
    } else {
      var k := |node| - 1;
      var rest := number - {node[k]};
      assert number.Keys == rest.Keys + {node[k]};
      InverseSize(rest, node[..k]);
    }
  }

  /** Some block is still waiting, so not all numbers are used up. */
  lemma RoomLeft(g: Graph, s: Search)
    requires Searching(g, s) && s.work != [] && !s.work[|s.work| - 1].flag
    ensures |s.node| < |g|
  {
    InverseSize(s.number, s.node);
    CountBelow(s.number.Keys, |g|);
  }

  /** With an empty worklist every reachable block is numbered. */
  lemma {:induction false} AllNumbered(g: Graph, s: Search, p: seq<nat>, b: nat)
    requires Searching(g, s) && s.work == [] && PathTo(g, p, b)
    ensures b in s.number
    decreases |p|
  {
    if |p| > 1 {
      var a := p[|p| - 2];
      assert Edge(g, p[|p| - 2], p[|p| - 1]);
      PathPrefix(g, p, |p| - 2);
      AllNumbered(g, s, p[..|p| - 1], a);
    }
  }

  ghost predicate InProgress(g: Graph, s: Search) {
    && |s.last| == |g| && |s.node| <= |g|
    && if s.node == [] then
         s.work == [Item(0, false)] && s.up == [0] && s.visited == {} && s.number == map[] && s.parent == []
       else Searching(g, s)
  }

  /** The entry is numbered as its own parent. */
  function NumberAny(s: Search): Search
    requires s.work != [] && |s.up| == |s.work| && s.up[|s.work| - 1] < |s.work|
    requires s.node == [] || s.work[s.up[|s.work| - 1]].bb in s.number
  {
    if s.node == [] then
      var n := |s.work| - 1;
      s.(number := s.number[s.work[n].bb := 0], node := [s.work[n].bb], parent := [To(0)],
         work := s.work[n := Item(s.work[n].bb, true)])
    else
      Number(s)
  }

  lemma NumberStep(g: Graph, s: Search)
    requires Analysable(g) && InProgress(g, s) && s.work != [] && !s.work[|s.work| - 1].flag
    ensures |s.up| == |s.work| && s.up[|s.work| - 1] < |s.work|
    ensures s.node == [] || s.work[s.up[|s.work| - 1]].bb in s.number
    ensures Expanding(g, NumberAny(s), |s.work| - 1, 0) && |s.node| < |g|
  {
    if s.node == [] {
      StartSpanned(g, s.last);
      assert NumberAny(s) == Search([Item(0, true)], [0], {}, map[0 := 0], [0], s.last, [To(0)]);
    } else {
      assert 0 in s.number by { assert s.node[0] in s.number; }
      RoomLeft(g, s);
      ExpandStarts(g, s);
    }
  }

  // ---- The order of the jumps ----

  /** Unprocessed siblings lie on the worklist in the order of the jumps, and siblings already
      numbered come later in it. */
  ghost predicate InOrder(g: Graph, s: Search)
    requires Stacked(g, s) && Spanned(g, s)
  {
    Reversed(g, s.node, s.parent) && StackOrder(g, s.work, s.up) && NumberedLater(g, s)
  }

  ghost predicate StackOrder(g: Graph, work: seq<Item>, up: seq<nat>) {
    |work| == |up| && forall i, j :: 0 < i < j < |work| && up[i] == up[j] < i ==>
      Before(g, work[up[i]].bb, work[i].bb, work[j].bb)
  }

  ghost predicate NumberedLater(g: Graph, s: Search)
    requires Stacked(g, s) && Spanned(g, s)
  {
    forall i, v :: 0 < i < |s.work| && !s.work[i].flag && 0 < v < |s.node| && Sibling(g, s, i, v) ==>
      Before(g, s.node[s.parent[v].block], s.work[i].bb, s.node[v])
  }

  ghost predicate Sibling(g: Graph, s: Search, i: nat, v: nat)
    requires Stacked(g, s) && Spanned(g, s) && 0 < i < |s.work| && 0 < v < |s.node|
  {
    s.parent[v].block == s.number[s.work[s.up[i]].bb]
  }

  /** The block being expanded has the largest number, and what it pushed is among its first
      `k` targets. */
  ghost predicate ExpandingInOrder(g: Graph, s: Search, at: nat, k: nat)
    requires Expanding(g, s, at, k)
  {
    InOrder(g, s) && s.number[s.work[at].bb] == |s.node| - 1 && PushedAmong(s.work, s.up, at, g[s.work[at].bb][..k])
  }

  ghost predicate PushedAmong(work: seq<Item>, up: seq<nat>, at: nat, targets: seq<nat>) {
    |work| == |up| && forall j :: at < j < |work| && up[j] == at ==> work[j].bb in targets
  }

  lemma PushedMore(work: seq<Item>, up: seq<nat>, at: nat, targets: seq<nat>, k: nat)
    requires k < |targets| && PushedAmong(work, up, at, targets[..k])
    ensures PushedAmong(work + [Item(targets[k], false)], up + [at], at, targets[..k + 1])
    ensures PushedAmong(work, up, at, targets[..k + 1])
  {
    assert targets[..k + 1] == targets[..k] + [targets[k]];
  }

  ghost predicate Progress(g: Graph, s: Search) {
    InProgress(g, s) && (s.node == [] || InOrder(g, s))
  }

  ghost predicate Expands(g: Graph, s: Search, at: nat, k: nat) {
    Expanding(g, s, at, k) && ExpandingInOrder(g, s, at, k)
  }

  lemma PopProgress(g: Graph, s: Search)
    requires Progress(g, s) && s.work != [] && s.work[|s.work| - 1].flag
    ensures |s.up| == |s.work| && |s.node| > 0
    ensures s.work[|s.work| - 1].bb in s.number && s.number[s.work[|s.work| - 1].bb] < |s.last|
    ensures Progress(g, Pop(s))
  {
    PopStep(g, s);
    PopInOrder(g, s);
  }

  lemma StackOrderPrefix(g: Graph, work: seq<Item>, up: seq<nat>, n: nat)
    requires StackOrder(g, work, up) && n <= |work|
    ensures StackOrder(g, work[..n], up[..n])
  {
    hide Before;
  }

  lemma PopInOrder(g: Graph, s: Search)
    requires Searching(g, s) && InOrder(g, s) && s.work != [] && s.work[|s.work| - 1].flag
    requires Stacked(g, Pop(s)) && Spanned(g, Pop(s))
    ensures InOrder(g, Pop(s))
  {
    var t := Pop(s);
    StackOrderPrefix(g, s.work, s.up, |s.work| - 1);
    forall i, v | 0 < i < |t.work| && !t.work[i].flag && 0 < v < |t.node| && Sibling(g, t, i, v)
      ensures Before(g, t.node[t.parent[v].block], t.work[i].bb, t.node[v])
    {
      PopSibling(g, s, i, v);
    }
    hide Stacked, Spanned, Marked, FirstPushed, Reversed, StackOrder, Before, Sibling;
  }

  lemma PopSibling(g: Graph, s: Search, i: nat, v: nat)
    requires Searching(g, s) && NumberedLater(g, s) && s.work != [] && s.work[|s.work| - 1].flag
    requires Stacked(g, Pop(s)) && Spanned(g, Pop(s))
    requires 0 < i < |s.work| - 1 && !s.work[i].flag && 0 < v < |s.node| && Sibling(g, Pop(s), i, v)
    ensures Before(g, s.node[s.parent[v].block], s.work[i].bb, s.node[v])
  {
    hide Marked, FirstPushed, SpannedAt, Before, TreeJump;
    assert Sibling(g, s, i, v);
  }

  lemma NumberBefore(g: Graph, s: Search, u: nat)
    requires Searching(g, s) && InOrder(g, s) && |s.work| > 1 && !s.work[|s.work| - 1].flag && 0 < u < |s.node|
    requires var x := s.work[s.up[|s.work| - 1]].bb; s.parent[u] == To(s.number[x])
    ensures Before(g, s.node[s.parent[u].block], s.work[|s.work| - 1].bb, s.node[u])
  {
    assert Sibling(g, s, |s.work| - 1, u);
  }

  lemma NumberReversed(g: Graph, s: Search)
    requires Searching(g, s) && InOrder(g, s) && |s.work| > 1 && !s.work[|s.work| - 1].flag
    requires IsTree(g, Number(s).node, Number(s).parent)
    ensures Reversed(g, Number(s).node, Number(s).parent)
  {
    var top, p := s.work[|s.work| - 1].bb, s.number[s.work[s.up[|s.work| - 1]].bb];
    forall u | 0 < u < |s.node| && s.parent[u] == To(p)
      ensures Before(g, s.node[p], top, s.node[u])
    {
      NumberBefore(g, s, u);
    }
    assert p < |s.node|;
    ReversedMore(g, s.node, s.parent, top, p);
  }

  lemma ReversedMore(g: Graph, node: seq<nat>, parent: seq<Link>, top: nat, p: nat)
    requires IsTree(g, node, parent) && IsTree(g, node + [top], parent + [To(p)]) && Reversed(g, node, parent) &&
      p < |node|
    requires forall u :: 0 < u < |node| && parent[u] == To(p) ==> Before(g, node[p], top, node[u])
    ensures Reversed(g, node + [top], parent + [To(p)])
  {
    hide Before, TreeJump;
    var node', parent' := node + [top], parent + [To(p)];
    forall u, v | 0 < u < v < |node'| && parent'[u] == parent'[v]
      ensures Before(g, node'[parent'[u].block], node'[v], node'[u])
    {
      assert u < |node| && node'[u] == node[u] && parent'[u] == parent[u];
      if v < |node| {
        assert TreeJump(g, node, parent, u) && node'[v] == node[v];
        assert Before(g, node[parent[u].block], node[v], node[u]);
      }
    }
  }

  lemma NumberStackOrder(g: Graph, work: seq<Item>, up: seq<nat>, n: nat)
    requires StackOrder(g, work, up) && n < |work|
    ensures StackOrder(g, work[n := Item(work[n].bb, true)], up)
  {
    hide Before;
    var work' := work[n := Item(work[n].bb, true)];
    assert forall i :: 0 <= i < |work| ==> work'[i].bb == work[i].bb;
  }

  lemma NumberInOrder(g: Graph, s: Search)
    requires Searching(g, s) && InOrder(g, s) && |s.work| > 1 && !s.work[|s.work| - 1].flag && |s.node| < |g|
    requires Stacked(g, Number(s)) && Spanned(g, Number(s))
    ensures InOrder(g, Number(s))
  {
    var t, n := Number(s), |s.work| - 1;
    NumberReversed(g, s);
    NumberStackOrder(g, s.work, s.up, n);
    forall i, v | 0 < i < |t.work| && !t.work[i].flag && 0 < v < |t.node| && Sibling(g, t, i, v)
      ensures Before(g, t.node[t.parent[v].block], t.work[i].bb, t.node[v])
    {
      NumberSibling(g, s, i, v);
    }
    hide Stacked, Spanned, Reversed, StackOrder;
  }

  /** Items whose pushers have the same number were pushed by the same item. */
  lemma SamePusher(g: Graph, s: Search, i: nat, j: nat)
    requires Stacked(g, s) && Inverse(s.number, s.node) && 0 < i < j < |s.work| && s.work[s.up[i]].bb in s.number
    requires s.work[s.up[j]].bb in s.number && s.number[s.work[s.up[i]].bb] == s.number[s.work[s.up[j]].bb]
    ensures s.up[i] == s.up[j]
  {
    var x, y := s.work[s.up[i]].bb, s.work[s.up[j]].bb;
    assert s.node[s.number[x]] == x && s.node[s.number[y]] == y;
  }

  lemma NumberSibling(g: Graph, s: Search, i: nat, v: nat)
    requires Searching(g, s) && InOrder(g, s) && |s.work| > 1 && !s.work[|s.work| - 1].flag && |s.node| < |g|
    requires Stacked(g, Number(s)) && Spanned(g, Number(s))
    requires var t := Number(s); 0 < i < |t.work| && !t.work[i].flag && 0 < v < |t.node| && Sibling(g, t, i, v)
    ensures var t := Number(s); Before(g, t.node[t.parent[v].block], t.work[i].bb, t.node[v])
  {
    hide Before, Reversed, SpannedAt, FirstPushed, Marked;
    var t, n := Number(s), |s.work| - 1;
    assert i < n && s.work[i] == t.work[i] && s.work[s.up[i]].flag && s.up[i] < i && s.work[s.up[n]].flag;
    if v < |s.node| {
      assert Sibling(g, s, i, v);
    } else {
      SamePusher(g, s, i, n);
      var x := s.work[s.up[n]].bb;
      assert s.node[s.number[x]] == x && Before(g, x, s.work[i].bb, s.work[n].bb);
    }
  }

  lemma NumberExpands(g: Graph, s: Search)
    requires Analysable(g) && Progress(g, s) && s.work != [] && !s.work[|s.work| - 1].flag
    ensures |s.up| == |s.work| && s.up[|s.work| - 1] < |s.work|
    ensures s.node == [] || s.work[s.up[|s.work| - 1]].bb in s.number
    ensures Expands(g, NumberAny(s), |s.work| - 1, 0) && |s.node| < |g| && s.work[|s.work| - 1].bb < |g|
  {
    NumberStep(g, s);
    if s.node != [] {
      assert 0 in s.number by { assert s.node[0] in s.number; }
      NumberInOrder(g, s);
    }
  }

  lemma NumberedTop(s: Search, t: Search)
    requires s.work != [] && |s.up| == |s.work| && s.up[|s.work| - 1] < |s.work|
    requires s.node == [] || s.work[s.up[|s.work| - 1]].bb in s.number
    requires t == NumberAny(s)
    ensures var bb := s.work[|s.work| - 1].bb;
      t == s.(number := s.number[bb := |s.node|], node := s.node + [bb], parent := t.parent,
              work := s.work[|s.work| - 1 := Item(bb, true)])
  {
  }

  lemma PushStackOrder(g: Graph, work: seq<Item>, up: seq<nat>, at: nat, k: nat)
    requires StackOrder(g, work, up) && at < |work| && work[at].bb < |g| && k < |g[work[at].bb]|
    requires var x := work[at].bb; g[x][k] !in g[x][..k] && PushedAmong(work, up, at, g[x][..k])
    ensures StackOrder(g, work + [Item(g[work[at].bb][k], false)], up + [at])
  {
    var x := work[at].bb;
    var work', up' := work + [Item(g[x][k], false)], up + [at];
    FreshFirst(g[x], k);
    hide FirstAt;
    forall i, j | 0 < i < j < |work'| && up'[i] == up'[j] < i
      ensures Before(g, work'[up'[i]].bb, work'[i].bb, work'[j].bb)
    {
      if j < |work| {
        assert Before(g, work[up[i]].bb, work[i].bb, work[j].bb);
      } else {
        EarlyFirst(g[x], k, work[i].bb);
      }
    }
  }

  lemma PushInOrder(g: Graph, s: Search, at: nat, k: nat)
    requires Expands(g, s, at, k) && k < |g[s.work[at].bb]|
    requires var tgt := g[s.work[at].bb][k];
      tgt !in s.visited && Stacked(g, Push(s, at, tgt)) && Spanned(g, Push(s, at, tgt))
    ensures InOrder(g, Push(s, at, g[s.work[at].bb][k]))
  {
    var tgt := g[s.work[at].bb][k];
    var t := Push(s, at, tgt);
    PushStackOrder(g, s.work, s.up, at, k);
    hide StackOrder, PushedAmong, SpannedAt, FirstPushed, Before, Reversed;
    forall i, v | 0 < i < |t.work| && !t.work[i].flag && 0 < v < |t.node| && Sibling(g, t, i, v)
      ensures Before(g, t.node[t.parent[v].block], t.work[i].bb, t.node[v])
    {
      assert TreeJump(g, s.node, s.parent, v);
      assert i < |s.work| && Sibling(g, s, i, v);
    }
  }

  lemma PushExpands(g: Graph, s: Search, at: nat, k: nat)
    requires Analysable(g) && Expands(g, s, at, k) && k < |g[s.work[at].bb]|
    requires g[s.work[at].bb][k] !in s.visited
    ensures Expands(g, Push(s, at, g[s.work[at].bb][k]), at, k + 1)
  {
    PushKeeps(g, s, at, k);
    PushInOrder(g, s, at, k);
    PushedMore(s.work, s.up, at, g[s.work[at].bb], k);
    hide Spanned, FirstPushed, InOrder, Stacked, PushedAmong;
  }

  lemma EarlyFirst(targets: seq<nat>, k: nat, b: nat)
    requires k <= |targets| && b in targets[..k]
    ensures FirstAt(targets, b) < k
  {
    var i :| 0 <= i < k && targets[..k][i] == b;
  }

  lemma FreshFirst(targets: seq<nat>, k: nat)
    requires k < |targets|
    ensures targets[k] !in targets[..k] ==> FirstAt(targets, targets[k]) == k
  {
    var r := FirstAt(targets, targets[k]);
    assert r < k ==> targets[r] in targets[..k];
  }

  lemma SkipExpands(g: Graph, s: Search, at: nat, k: nat)
    requires Expands(g, s, at, k) && k < |g[s.work[at].bb]| && g[s.work[at].bb][k] in s.visited
    ensures Expands(g, s, at, k + 1)
  {
    SkipKeeps(g, s, at, k);
    PushedMore(s.work, s.up, at, g[s.work[at].bb], k);
    hide Spanned, FirstPushed, InOrder, Stacked, PushedAmong;
  }

  lemma ExpandsEnds(g: Graph, s: Search, at: nat)
    requires at < |s.work| && s.work[at].bb < |g| && Expands(g, s, at, |g[s.work[at].bb]|)
    ensures Progress(g, s)
  {
    ExpandEnds(g, s, at);
  }

  // ---- Loop analysis ----

  /** The numbers are a bijection with the blocks, and each one's descendants in the
      spanning tree are the numbers up to its `last`. */
  ghost predicate IsNumbering(g: Graph, number: map<nat, nat>, node: seq<nat>, last: seq<int>, parent: seq<Link>) {
    && Analysable(g) && |node| == |last| == |g|
    && (forall b: nat :: b in number <==> b < |g|)
    && Inverse(number, node)
    && IsTree(g, node, parent) && FirstPredecessors(g, node, parent) && Reversed(g, node, parent)
    && (forall w :: 0 <= w < |g| ==> w <= last[w] < |g| && Spans(parent, w, last[w]))
  }

  lemma PopStep(g: Graph, s: Search)
    requires InProgress(g, s) && s.work != [] && s.work[|s.work| - 1].flag
    ensures |s.up| == |s.work| && |s.node| > 0
    ensures s.work[|s.work| - 1].bb in s.number && s.number[s.work[|s.work| - 1].bb] < |s.last|
    ensures InProgress(g, Pop(s))
  {
    PopKeeps(g, s);
  }

  lemma Finished(g: Graph, s: Search)
    requires Analysable(g) && Progress(g, s) && s.work == []
    ensures IsNumbering(g, s.number, s.node, s.last, s.parent)
  {
    forall b: nat | b < |g|
      ensures b in s.number
    {
      assert Reached(g, b);
      var p :| PathTo(g, p, b);
      AllNumbered(g, s, p, b);
    }
    InverseSize(s.number, s.node);
    CountBelow(s.number.Keys, |g|);
    forall w | 0 <= w < |s.node|
      ensures w <= s.last[w] < |g| && Spans(s.parent, w, s.last[w])
    {
      assert SpannedAt(g, s, w);
    }
  }

  /** The jump from `v` to `w` is among those of the blocks before `src` or among the
      first `k` of `src`. */
  ghost predicate Scanned(g: Graph, node: seq<nat>, src: nat, k: nat, v: nat, w: nat)
    requires v < |node| && w < |node| && (src < |g| ==> k <= |g[src]|)
  {
    if node[v] < src then Edge(g, node[v], node[w])
    else node[v] == src && src < |g| && node[w] in g[src][..k]
  }

  /** The scanned jumps are split by whether they go to an ancestor. */
  ghost predicate Classified(g: Graph, node: seq<nat>, parent: seq<Link>,
                             back: seq<set<nat>>, nonBack: seq<set<nat>>, src: nat, k: nat) {
    && |node| == |g| == |back| == |nonBack| && IsTree(g, node, parent) && (src < |g| ==> k <= |g[src]|)
    && (forall w: nat, v: nat :: w < |g| ==>
      (v in back[w] <==> v < |g| && Above(parent, w, v) && Scanned(g, node, src, k, v, w)))
    && (forall w: nat, v: nat :: w < |g| ==>
      (v in nonBack[w] <==> v < |g| && !Above(parent, w, v) && Scanned(g, node, src, k, v, w)))
  }

  /** A list of blocks extended by one. */
  lemma ScanOne(g: Graph, node: seq<nat>, src: nat, k: nat, v: nat, w: nat)
    requires src < |g| && k < |g[src]| && v < |node| && w < |node|
    ensures Scanned(g, node, src, k + 1, v, w) <==>
      Scanned(g, node, src, k, v, w) || (node[v] == src && node[w] == g[src][k])
  {
    assert g[src][..k + 1] == g[src][..k] + [g[src][k]];
  }

  lemma ScanNext(g: Graph, node: seq<nat>, src: nat, v: nat, w: nat)
    requires src < |g| && v < |node| && w < |node|
    ensures Scanned(g, node, src + 1, 0, v, w) <==> Scanned(g, node, src, |g[src]|, v, w)
  {
    assert g[src][..|g[src]|] == g[src];
  }

  lemma NextSource(g: Graph, node: seq<nat>, parent: seq<Link>, back: seq<set<nat>>, nonBack: seq<set<nat>>, src: nat)
    requires src < |g| && Classified(g, node, parent, back, nonBack, src, |g[src]|)
    ensures Classified(g, node, parent, back, nonBack, src + 1, 0)
  {
    hide Scanned, Above;
    forall w: nat, v: nat | w < |g| && v < |g|
      ensures Scanned(g, node, src + 1, 0, v, w) <==> Scanned(g, node, src, |g[src]|, v, w)
    {
      ScanNext(g, node, src, v, w);
    }
  }

  /** One more jump, from number `v0` to number `w0`, put where it belongs. */
  lemma ClassifyOne(g: Graph, node: seq<nat>, parent: seq<Link>, back: seq<set<nat>>, nonBack: seq<set<nat>>,
                    src: nat, k: nat, v0: nat, w0: nat)
    requires src < |g| && k < |g[src]| && Classified(g, node, parent, back, nonBack, src, k)
    requires v0 < |g| && w0 < |g| && node[v0] == src && node[w0] == g[src][k]
    requires forall i, j :: 0 <= i < j < |node| ==> node[i] != node[j]
    ensures Above(parent, w0, v0) ==> Classified(g, node, parent, back[w0 := back[w0] + {v0}], nonBack, src, k + 1)
    ensures !Above(parent, w0, v0) ==> Classified(g, node, parent, back, nonBack[w0 := nonBack[w0] + {v0}], src, k + 1)
  {
    hide Scanned, Above;
    forall w: nat, v: nat | w < |g| && v < |g|
      ensures Scanned(g, node, src, k + 1, v, w) <==> Scanned(g, node, src, k, v, w) || (v == v0 && w == w0)
    {
      ScanOne(g, node, src, k, v, w);
    }
  }

  lemma NumberingFacts(g: Graph, number: map<nat, nat>, node: seq<nat>, last: seq<int>, parent: seq<Link>)
    requires IsNumbering(g, number, node, last, parent)
    ensures |node| == |g| == |last| && IsTree(g, node, parent)
    ensures forall b: nat :: b < |g| ==> b in number && number[b] < |g| && node[number[b]] == b
    ensures forall v :: 0 <= v < |node| ==> node[v] < |g|
    ensures forall i, j :: 0 <= i < j < |node| ==> node[i] != node[j]
    ensures forall b: nat, c :: b < |g| && c in g[b] ==> c < |g|
    ensures forall w: nat, v: nat :: w < |g| && v < |g| ==> (Above(parent, w, v) <==> w <= v <= last[w])
  {
    forall b: nat, c | b < |g| && c in g[b]
      ensures c < |g|
    {
      assert Edge(g, b, c);
    }
    forall w: nat, v: nat | w < |g| && v < |g|
      ensures Above(parent, w, v) <==> w <= v <= last[w]
    {
      assert Spans(parent, w, last[w]);
    }
  }

  /** All jumps, split by whether they go to an ancestor in the spanning tree. */
  ghost predicate SplitByAncestor(g: Graph, node: seq<nat>, parent: seq<Link>, back: seq<set<nat>>,
                                  nonBack: seq<set<nat>>) {
    && |node| == |g| == |back| == |nonBack| && IsTree(g, node, parent)
    && (forall w: nat, v: nat :: w < |g| ==>
      (v in back[w] <==> v < |g| && Edge(g, node[v], node[w]) && Above(parent, w, v)))
    && (forall w: nat, v: nat :: w < |g| ==>
      (v in nonBack[w] <==> v < |g| && Edge(g, node[v], node[w]) && !Above(parent, w, v)))
  }

  lemma ClassifiedAll(g: Graph, node: seq<nat>, parent: seq<Link>, back: seq<set<nat>>, nonBack: seq<set<nat>>)
    requires Classified(g, node, parent, back, nonBack, |g|, 0) && forall v :: 0 <= v < |node| ==> node[v] < |g|
    ensures SplitByAncestor(g, node, parent, back, nonBack)
  {
    hide Above, Edge;
  }

  lemma NoneClassified(g: Graph, node: seq<nat>, parent: seq<Link>, none: seq<set<nat>>)
    requires |node| == |g| == |none| && IsTree(g, node, parent) && forall w :: 0 <= w < |none| ==> none[w] == {}
    ensures Classified(g, node, parent, none, none, 0, 0)
  {
    hide Above;
  }

  lemma SearchStarts(g: Graph, last: seq<int>)
    requires Analysable(g) && |last| == |g|
    ensures Progress(g, Search([Item(0, false)], [0], {}, map[], [], last, []))
  {
  }

  class LoopAnalysis {
    const g: Graph
    var number: map<nat, nat>
    var node: seq<nat>
    var last: seq<int>
    ghost var parent: seq<Link>

    ghost predicate Numbered()
      reads this
    {
      IsNumbering(g, number, node, last, parent)
    }

    constructor (g: Graph)
      requires Analysable(g)
      ensures this.g == g && Numbered()
    {
      this.g := g;
      number, node, last, parent := map[], [], [], [];
      new;
      GetDepthFirstSpanningTree();
    }

    method GetDepthFirstSpanningTree()
      requires Analysable(g) && number == map[] && node == []
      modifies this
      ensures Numbered()
    {
      hide Progress, Expands, IsNumbering, Analysable;
      last := seq(|g|, _ => -1);
      parent := [];
      SearchStarts(g, last);
      var work := [Item(0, false)];
      var visited: set<nat> := {};
      ghost var up: seq<nat> := [0];
      while work != []
        invariant Progress(g, Search(work, up, visited, number, node, last, parent)) && |node| <= |g|
        decreases |g| - |node|, |work|
      {
        var n := |work| - 1;
        if work[n].flag {
          ghost var s := Search(work, up, visited, number, node, last, parent);
          PopProgress(g, s);
          last := last[number[work[n].bb] := |node| - 1];
          work := work[..n];
          up := up[..n];
          assert Search(work, up, visited, number, node, last, parent) == Pop(s);
        } else {
          var bb := work[n].bb;
          work := NumberTop(work, visited, up);
          work, visited, up := PushTargets(bb, work, visited, up);
          ExpandsEnds(g, Search(work, up, visited, number, node, last, parent), n);
        }
      }
      Finished(g, Search(work, up, visited, number, node, last, parent));
    }

    method NumberTop(work0: seq<Item>, ghost visited: set<nat>, ghost up: seq<nat>) returns (work: seq<Item>)
      requires Analysable(g) && work0 != [] && !work0[|work0| - 1].flag
      requires Progress(g, Search(work0, up, visited, number, node, last, parent))
      modifies this`number, this`node, this`parent
      ensures |work| == |work0| && work[|work| - 1].bb == work0[|work0| - 1].bb < |g|
      ensures Expands(g, Search(work, up, visited, number, node, last, parent), |work| - 1, 0)
      ensures |node| == old(|node|) + 1 <= |g|
    {
      hide Progress, Expands, Analysable;
      ghost var s := Search(work0, up, visited, number, node, last, parent);
      var n := |work0| - 1;
      var bb := work0[n].bb;
      NumberExpands(g, s);
      ghost var t := NumberAny(s);
      NumberedTop(s, t);
      hide NumberAny;
      number := number[bb := |node|];
      node := node + [bb];
      parent := t.parent;
      work := work0[n := Item(bb, true)];
      assert Search(work, up, visited, number, node, last, parent) == t;
    }

    method PushTargets(bb: nat, work0: seq<Item>, visited0: set<nat>, ghost up0: seq<nat>)
      returns (work: seq<Item>, visited: set<nat>, ghost up: seq<nat>)
      requires Analysable(g) && work0 != [] && work0[|work0| - 1].bb == bb && bb < |g|
      requires Expands(g, Search(work0, up0, visited0, number, node, last, parent), |work0| - 1, 0)
      ensures |work| >= |work0| && work[|work0| - 1].bb == bb
      ensures Expands(g, Search(work, up, visited, number, node, last, parent), |work0| - 1, |g[bb]|)
    {
      work, visited, up := work0, visited0, up0;
      var n := |work0| - 1;
      var k := 0;
      while k < |g[bb]|
        invariant 0 <= k <= |g[bb]| && n < |work| && work[n].bb == bb
        invariant Expands(g, Search(work, up, visited, number, node, last, parent), n, k)
      {
        var tgt := g[bb][k];
        if tgt !in visited {
          PushExpands(g, Search(work, up, visited, number, node, last, parent), n, k);
          visited := visited + {tgt};
          work := work + [Item(tgt, false)];
          up := up + [n];
        } else {
          SkipExpands(g, Search(work, up, visited, number, node, last, parent), n, k);
        }
        k := k + 1;
      }
    }

    predicate IsAncestor(w: nat, v: nat)
      reads this
      requires w < |last|
    {
      w <= v <= last[w]
    }

    /** Splits the jumps by whether they go to an ancestor in the spanning tree. */
    method ClassifyJumps() returns (backPreds: seq<set<nat>>, nonBackPreds: seq<set<nat>>)
      requires Numbered()
      ensures SplitByAncestor(g, node, parent, backPreds, nonBackPreds)
    {
      hide Classified, IsNumbering, SplitByAncestor, IsTree, Tree, Above, Edge;
      NumberingFacts(g, number, node, last, parent);
      backPreds := seq(|g|, _ => {});
      nonBackPreds := seq(|g|, _ => {});
      NoneClassified(g, node, parent, backPreds);
      var src := 0;
      while src < |g|
        invariant 0 <= src <= |g| == |backPreds| == |nonBackPreds|
        invariant Classified(g, node, parent, backPreds, nonBackPreds, src, 0)
      {
        var v0 := number[src];
        var k := 0;
        while k < |g[src]|
          invariant 0 <= k <= |g[src]| && |g| == |backPreds| == |nonBackPreds|
          invariant Classified(g, node, parent, backPreds, nonBackPreds, src, k)
        {
          var dst := g[src][k];
          assert dst in g[src];
          var w0 := number[dst];
          ClassifyOne(g, node, parent, backPreds, nonBackPreds, src, k, v0, w0);
          if IsAncestor(w0, v0) {
            backPreds := backPreds[w0 := backPreds[w0] + {v0}];
          } else {
            nonBackPreds := nonBackPreds[w0 := nonBackPreds[w0] + {v0}];
          }
          k := k + 1;
        }
        NextSource(g, node, parent, backPreds, nonBackPreds, src);
        src := src + 1;
      }
      ClassifiedAll(g, node, parent, backPreds, nonBackPreds);
    }
  }

  // ---- What loop detection relies on ----

  /** The tree path to a number is a path of the graph over its ancestors' blocks. */
  lemma {:induction false} TreePath(g: Graph, node: seq<nat>, parent: seq<Link>, v: nat) returns (p: seq<nat>)
    requires IsTree(g, node, parent) && v < |node|
    ensures PathTo(g, p, node[v])
    ensures forall x :: x in p ==> exists w :: 0 <= w < |node| && node[w] == x && Above(parent, w, v)
    decreases v
  {
    if v == 0 {
      p := [0];
      assert Above(parent, 0, 0);
    } else {
      assert TreeJump(g, node, parent, v);
      var u := parent[v].block;
      var q := TreePath(g, node, parent, u);
      assert IsPath(g, [node[u], node[v]]);
      PathAppend(g, q, [node[u], node[v]]);
      p := q + [node[u], node[v]][1..];
      forall x | x in p
        ensures exists w :: 0 <= w < |node| && node[w] == x && Above(parent, w, v)
      {
        if x in q {
          var w :| 0 <= w < |node| && node[w] == x && Above(parent, w, u);
          assert Above(parent, w, v);
        } else {
          assert x == node[v] && Above(parent, v, v);
        }
      }
    }
  }

  /** A jump whose target dominates its source goes to a tree ancestor, so it is
      always found as a back edge. */
  lemma DominatingTargetIsAncestor(g: Graph, node: seq<nat>, parent: seq<Link>, w: nat, v: nat)
    requires IsTree(g, node, parent) && w < |node| && v < |node|
    requires forall i, j :: 0 <= i < j < |node| ==> node[i] != node[j]
    requires Dominates(g, node[w], node[v])
    ensures Above(parent, w, v)
  {
    var p := TreePath(g, node, parent, v);
    assert node[w] in p;
  }

  /** The same jumps in another order. */
  ghost predicate Reordered(g: Graph, h: Graph) {
    |g| == |h| && forall b :: 0 <= b < |g| ==> multiset(g[b]) == multiset(h[b])
  }

  lemma SameEdges(g: Graph, h: Graph, a: nat, b: nat)
    requires Reordered(g, h)
    ensures Edge(g, a, b) == Edge(h, a, b)
  {
    if a < |g| {
      assert b in multiset(g[a]) <==> b in multiset(h[a]);
    }
  }

  lemma SamePaths(g: Graph, h: Graph, p: seq<nat>, b: nat)
    requires Reordered(g, h)
    ensures PathTo(g, p, b) == PathTo(h, p, b)
  {
    hide Edge;
    forall i | 0 <= i < |p| - 1
      ensures Edge(g, p[i], p[i + 1]) == Edge(h, p[i], p[i + 1])
    {
      SameEdges(g, h, p[i], p[i + 1]);
    }
  }

  lemma ReorderedAnalysable(g: Graph, h: Graph)
    requires Reordered(g, h) && Analysable(g)
    ensures Analysable(h)
  {
    hide Edge, PathTo;
    forall a: nat, b: nat | Edge(h, a, b)
      ensures 0 < b < |h|
    {
      SameEdges(g, h, a, b);
    }
    forall b: nat | b < |h|
      ensures Reached(h, b)
    {
      assert Reached(g, b);
      var p :| PathTo(g, p, b);
      SamePaths(g, h, p, b);
    }
  }

  /** Every graph that can be analysed has a numbering: the search always ends. */
  lemma {:induction false} SearchOn(g: Graph, s: Search) returns (t: Search)
    requires Analysable(g) && Progress(g, s) && |s.node| <= |g|
    ensures Progress(g, t) && t.work == []
    decreases |g| - |s.node|, |s.work|
  {
    hide Progress, Expands, Analysable;
    if s.work == [] {
      t := s;
    } else if s.work[|s.work| - 1].flag {
      PopProgress(g, s);
      t := SearchOn(g, Pop(s));
    } else {
      NumberExpands(g, s);
      var n := |s.work| - 1;
      NumberedTop(s, NumberAny(s));
      var r := PushAll(g, NumberAny(s), n, 0);
      ExpandsEnds(g, r, n);
      t := SearchOn(g, r);
    }
  }

  lemma {:induction false} PushAll(g: Graph, s: Search, at: nat, k: nat) returns (t: Search)
    requires Analysable(g) && at < |s.work| && s.work[at].bb < |g| && k <= |g[s.work[at].bb]| && Expands(g, s, at, k)
    ensures at < |t.work| && t.work[at] == s.work[at] && t.node == s.node
    ensures Expands(g, t, at, |g[s.work[at].bb]|)
    decreases |g[s.work[at].bb]| - k
  {
    hide Expands, Analysable;
    if k == |g[s.work[at].bb]| {
      t := s;
    } else if g[s.work[at].bb][k] in s.visited {
      SkipExpands(g, s, at, k);
      t := PushAll(g, s, at, k + 1);
    } else {
      PushExpands(g, s, at, k);
      t := PushAll(g, Push(s, at, g[s.work[at].bb][k]), at, k + 1);
    }
  }

  lemma HasNumbering(g: Graph) returns (number: map<nat, nat>, node: seq<nat>, last: seq<int>, parent: seq<Link>)
    requires Analysable(g)
    ensures IsNumbering(g, number, node, last, parent)
  {
    hide Progress, IsNumbering;
    var last0: seq<int> := seq(|g|, _ => -1);
    SearchStarts(g, last0);
    var t := SearchOn(g, Search([Item(0, false)], [0], {}, map[], [], last0, []));
    Finished(g, t);
    number, node, last, parent := t.number, t.node, t.last, t.parent;
  }

  // ---- An order of the jumps that misses a back edge ----

  /** A path to `b` around `w` that no jump of its blocks cuts short. */
  ghost predicate Straight(g: Graph, p: seq<nat>, w: nat) {
    && IsPath(g, p) && p[0] == 0 && w !in p
    && forall i, j :: 0 <= i && i + 1 < j < |p| ==> !Edge(g, p[i], p[j])
  }

  /** Cutting a path short as long as possible. */
  lemma {:induction false} Straighten(g: Graph, p: seq<nat>, b: nat, w: nat) returns (q: seq<nat>)
    requires PathTo(g, p, b) && w !in p
    ensures PathTo(g, q, b) && Straight(g, q, w)
    decreases |p|
  {
    if i, j :| 0 <= i && i + 1 < j < |p| && Edge(g, p[i], p[j]) {
      var r := p[..i + 1] + p[j..];
      forall k | 0 <= k < |r| - 1
        ensures Edge(g, r[k], r[k + 1])
      {
        var l := if k <= i then k else k - i - 1 + j;
        assert r[k] == p[l] && (k != i ==> r[k + 1] == p[l + 1]);
      }
      q := Straighten(g, r, b, w);
    } else {
      q := p;
    }
  }

  function Without(s: seq<nat>, x: nat): (r: seq<nat>)
    ensures multiset(r) == multiset(s)[x := 0]
  {
    if s == [] then []
    else
      assert s == [s[0]] + s[1..];
      if s[0] == x then Without(s[1..], x) else [s[0]] + Without(s[1..], x)
  }

  /** The same targets with all jumps to `x` last. */
  function MovedLast(s: seq<nat>, x: nat): (r: seq<nat>)
    ensures multiset(r) == multiset(s)
  {
    var n := multiset(s)[x];
    Copies(x, n);
    Without(s, x) + seq(n, _ => x)
  }

  lemma {:induction false} Copies(x: nat, n: nat)
    ensures multiset(seq(n, _ => x)) == multiset{}[x := n]
  {
    if n > 0 {
      Copies(x, n - 1);
      var a, b := seq(n, _ => x), seq(n - 1, _ => x);
      assert a == b + [x];
    }
  }

  lemma LastIsLater(s: seq<nat>, x: nat, y: nat)
    requires x in s && y in s && x != y
    ensures FirstAt(MovedLast(s, x), y) < FirstAt(MovedLast(s, x), x)
  {
    var front, r := Without(s, x), MovedLast(s, x);
    assert y in multiset(s) && y in multiset(front) && x !in multiset(front);
    var k :| 0 <= k < |front| && front[k] == y;
    assert r[k] == y;
    assert forall i :: 0 <= i < |front| ==> r[i] == front[i] && front[i] in multiset(front);
  }

  /** The jumps along a path are last. */
  ghost function PathLast(g: Graph, p: seq<nat>): (h: Graph)
    ensures Reordered(g, h)
  {
    seq(|g|, b requires 0 <= b < |g| => if NextOn(p, b) >= 0 then MovedLast(g[b], NextOn(p, b)) else g[b])
  }

  /** The block after `b` on a path, or -1. */
  function NextOn(p: seq<nat>, b: nat): (r: int)
    ensures r >= 0 ==> exists i :: 0 <= i < |p| - 1 && p[i] == b && p[i + 1] == r
    ensures r < 0 ==> forall i :: 0 <= i < |p| - 1 ==> p[i] != b
  {
    if |p| < 2 then -1
    else if p[0] == b then p[1]
    else
      var r := NextOn(p[1..], b);
      assert r >= 0 ==> exists i :: 0 <= i < |p| - 1 && p[i] == b && p[i + 1] == r by {
        if r >= 0 {
          var i :| 0 <= i < |p[1..]| - 1 && p[1..][i] == b && p[1..][i + 1] == r;
          assert p[i + 1] == b && p[i + 2] == r;
        }
      }
      r
  }

  /** No block occurs twice on a straight path. */
  lemma StraightOnce(g: Graph, p: seq<nat>, w: nat, i: nat, j: nat)
    requires Straight(g, p, w) && i < j < |p| && !exists a: nat :: Edge(g, a, 0)
    ensures p[i] != p[j]
  {
    if i == 0 {
      assert Edge(g, p[j - 1], p[j]);
    } else {
      assert Edge(g, p[i - 1], p[i]) && !Edge(g, p[i - 1], p[j]);
    }
  }

  /** On the way along a straight path, the next block was pushed by the last one and by no
      block before. */
  lemma NextParent(g: Graph, h: Graph, number: map<nat, nat>, node: seq<nat>, last: seq<int>, parent: seq<Link>,
                   p: seq<nat>, w: nat, k: nat)
    requires Reordered(g, h) && IsNumbering(h, number, node, last, parent) && Straight(g, p, w) && k + 1 < |p|
    requires k < |node| && forall i :: 0 <= i <= k ==> node[i] == p[i]
    ensures p[k + 1] in number && k < number[p[k + 1]] < |node| && parent[number[p[k + 1]]] == To(k)
  {
    hide Edge, Above, Reversed, Spans;
    var b := p[k + 1];
    assert Edge(g, p[k], b);
    SameEdges(g, h, p[k], b);
    assert 0 < b < |h|;
    var n := number[b];
    assert node[n] == b && n != 0;
    assert parent[n].block <= k;
    assert TreeJump(h, node, parent, n);
    var j := parent[n].block;
    SameEdges(g, h, p[j], b);
    NotEarlier(g, p, w, j, k);
  }

  lemma NotEarlier(g: Graph, p: seq<nat>, w: nat, j: nat, k: nat)
    requires Straight(g, p, w) && j <= k && k + 1 < |p| && Edge(g, p[j], p[k + 1])
    ensures j == k
  {
  }

  /** The number after `k` is a child of `k` if `k` has any. */
  lemma NextIsChild(g: Graph, number: map<nat, nat>, node: seq<nat>, last: seq<int>, parent: seq<Link>, k: nat, n: nat)
    requires IsNumbering(g, number, node, last, parent) && k < n < |node| && parent[n] == To(k)
    ensures parent[k + 1] == To(k)
  {
    hide Reversed, FirstPredecessors, Inverse, Analysable, Edge;
    assert Above(parent, k, k) && Above(parent, k, n);
    assert Spans(parent, k, last[k]);
    assert Above(parent, k, k + 1);
    assert TreeJump(g, node, parent, k + 1);
    AboveOrder(parent, k, parent[k + 1].block);
  }

  lemma {:induction false} NumberedAlong(g: Graph, h: Graph, number: map<nat, nat>, node: seq<nat>, last: seq<int>,
                                         parent: seq<Link>, p: seq<nat>, w: nat, k: nat)
    requires Analysable(g) && Straight(g, p, w) && k < |p| && h == PathLast(g, p)
    requires IsNumbering(h, number, node, last, parent)
    ensures k < |node| && forall i :: 0 <= i <= k ==> node[i] == p[i]
    decreases k
  {
    hide Reversed, Analysable, Straight, PathLast;
    if k == 0 {
      assert p[0] == 0 by { StartsAtEntry(g, p, w); }
    } else {
      NumberedAlong(g, h, number, node, last, parent, p, w, k - 1);
      NextParent(g, h, number, node, last, parent, p, w, k - 1);
      var n := number[p[k]];
      NextIsChild(h, number, node, last, parent, k - 1, n);
      NextIsLast(g, h, number, node, last, parent, p, w, k - 1, n);
    }
  }

  lemma StartsAtEntry(g: Graph, p: seq<nat>, w: nat)
    requires Straight(g, p, w)
    ensures p[0] == 0
  {
  }

  /** The first child of a block on the path is the next block of the path. */
  lemma NextIsLast(g: Graph, h: Graph, number: map<nat, nat>, node: seq<nat>, last: seq<int>, parent: seq<Link>,
                   p: seq<nat>, w: nat, k: nat, n: nat)
    requires Analysable(g) && Straight(g, p, w) && k + 1 < |p| && h == PathLast(g, p)
    requires IsNumbering(h, number, node, last, parent) && k < n < |node| && node[k] == p[k] && node[n] == p[k + 1]
    requires parent[n] == To(k) && parent[k + 1] == To(k)
    ensures n == k + 1
  {
    hide Above, Spans, FirstPredecessors;
    if n > k + 1 {
      var b, x, y := p[k], p[k + 1], node[k + 1];
      assert Before(h, b, x, y);
      LastOnPath(g, p, w, k);
      assert TreeJump(h, node, parent, k + 1) && TreeJump(h, node, parent, n);
      SameEdges(g, h, b, x);
      SameEdges(g, h, b, y);
      assert x != y by { assert number[x] == n && number[y] == k + 1; }
      hide MovedLast;
      LastIsLater(g[b], x, y);
    }
  }

  lemma LastOnPath(g: Graph, p: seq<nat>, w: nat, k: nat)
    requires Analysable(g) && Straight(g, p, w) && k + 1 < |p|
    ensures p[k] < |g| && PathLast(g, p)[p[k]] == MovedLast(g[p[k]], p[k + 1])
  {
    assert Edge(g, p[k], p[k + 1]);
    var r := NextOn(p, p[k]);
    var i: nat :| i < |p| - 1 && p[i] == p[k] && p[i + 1] == r;
    SamePosition(g, p, w, i, k);
  }

  lemma SamePosition(g: Graph, p: seq<nat>, w: nat, i: nat, k: nat)
    requires Straight(g, p, w) && i < |p| && k < |p| && p[i] == p[k] && !exists a: nat :: Edge(g, a, 0)
    ensures i == k
  {
    if i < k {
      StraightOnce(g, p, w, i, k);
    } else if k < i {
      StraightOnce(g, p, w, k, i);
    }
  }

  /** Around a block that does not dominate `v` some order of the jumps numbers `v` first, so
      that the block is no ancestor of `v`. */
  lemma MissedUnderSomeOrder(g: Graph, v: nat, w: nat)
    returns (h: Graph, number: map<nat, nat>, node: seq<nat>, last: seq<int>, parent: seq<Link>)
    requires Analysable(g) && v < |g| && w < |g| && !Dominates(g, w, v)
    ensures Reordered(g, h) && IsNumbering(h, number, node, last, parent)
    ensures !Above(parent, number[w], number[v])
  {
    hide Above, Analysable, Straight, FirstPredecessors, Reversed;
    var p :| PathTo(g, p, v) && w !in p;
    var q := Straighten(g, p, v, w);
    assert w !in q by { AvoidsBlock(g, q, w); }
    h := PathLast(g, q);
    ReorderedAnalysable(g, h);
    number, node, last, parent := HasNumbering(h);
    var k := |q| - 1;
    NumberedAlong(g, h, number, node, last, parent, q, w, k);
    assert number[v] == k;
    assert node[number[w]] == w;
    NotAmong(q, w, node, number[w]);
    NumberingFacts(h, number, node, last, parent);
  }

  lemma NotAmong(p: seq<nat>, w: nat, node: seq<nat>, n: nat)
    requires w !in p && n < |node| && node[n] == w && |p| <= |node| && forall i :: 0 <= i < |p| ==> node[i] == p[i]
    ensures n >= |p|
  {
  }

  lemma AvoidsBlock(g: Graph, p: seq<nat>, w: nat)
    requires Straight(g, p, w)
    ensures w !in p
  {
  }

  /** A jump from `v` to `w` is found as a back edge under every order of the jumps. */
  ghost predicate AlwaysBack(g: Graph, v: nat, w: nat) {
    forall h, number, node, last, parent :: Reordered(g, h) && IsNumbering(h, number, node, last, parent) ==>
      IsBack(number, parent, v, w)
  }

  ghost predicate IsBack(number: map<nat, nat>, parent: seq<Link>, v: nat, w: nat) {
    v in number && w in number && Tree(parent) && number[v] < |parent| && parent[number[v]].To? &&
    Above(parent, number[w], number[v])
  }

  /** A jump is found as a back edge under every order of the jumps iff its target dominates
      its source. */
  lemma AlwaysBackIffDominates(g: Graph, v: nat, w: nat)
    requires Analysable(g) && Edge(g, v, w)
    ensures AlwaysBack(g, v, w) <==> Dominates(g, w, v)
  {
    hide Analysable, Above, FirstPredecessors, Reversed, PathTo;
    assert v < |g| && w < |g| by { JumpInside(g, v, w); }
    if Dominates(g, w, v) {
      forall h, number, node, last, parent | Reordered(g, h) && IsNumbering(h, number, node, last, parent)
        ensures IsBack(number, parent, v, w)
      {
        forall p | PathTo(h, p, v)
          ensures w in p
        {
          SamePaths(g, h, p, v);
        }
        NumberingFacts(h, number, node, last, parent);
        DominatingTargetIsAncestor(h, node, parent, number[w], number[v]);
      }
    } else {
      var h, number, node, last, parent := MissedUnderSomeOrder(g, v, w);
    }
  }

  lemma JumpInside(g: Graph, v: nat, w: nat)
    requires Analysable(g) && Edge(g, v, w)
    ensures v < |g| && w < |g|
  {
  }

  /** A cycle with a block that dominates the others always has a back edge. */
  lemma DominatedCycleFound(g: Graph, c: seq<nat>, k: nat) returns (i: nat)
    requires Analysable(g) && IsPath(g, c) && |c| > 1 && c[0] == c[|c| - 1] && k < |c|
    requires forall b :: b in c ==> Dominates(g, c[k], b)
    ensures i + 1 < |c| && Edge(g, c[i], c[i + 1]) && AlwaysBack(g, c[i], c[i + 1])
  {
    hide Analysable, AlwaysBack, Dominates;
    i := if k == 0 then |c| - 2 else k - 1;
    assert Edge(g, c[i], c[i + 1]) && c[i + 1] == c[k] && c[i] in c;
    AlwaysBackIffDominates(g, c[i], c[i + 1]);
  }

  /** Cycles entered at two places can be missed altogether: below, blocks 1 and 2 jump
      to each other and both hang from the entry, so neither jump goes to an ancestor. */
  lemma MissedCycle(node: seq<nat>, parent: seq<Link>, w: nat, v: nat)
    requires var g := [[1, 2], [2], [1]]; IsTree(g, node, parent) && FirstPredecessors(g, node, parent)
    requires |node| == 3 && w < 3 && v < 3 && {node[w], node[v]} == {1, 2}
    ensures !Above(parent, w, v)
  {
    var g := [[1, 2], [2], [1]];
    assert w != 0 && v != 0 && w != v;
    assert Edge(g, node[0], node[v]);
    assert parent[v] == To(0);
  }

  /** Two tree intervals are nested or disjoint. */
  lemma Laminar(parent: seq<Link>, last: seq<int>, u: nat, w: nat)
    requires Tree(parent) && |last| == |parent| && u < |last| && w < |last|
    requires forall v :: 0 <= v < |parent| ==> parent[v].To?
    requires forall v :: 0 <= v < |last| ==> v <= last[v] < |last| && Spans(parent, v, last[v])
    requires u <= w
    ensures last[u] < w || last[w] <= last[u]
  {
    if w <= last[u] {
      assert Above(parent, u, w);
      assert Above(parent, w, last[w]);
      AboveTransitive(parent, u, w, last[w]);
    }
  }
}

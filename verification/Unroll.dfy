/** Unrolling one loop: cloning its blocks and patching the jump targets. */
module Unroll {

  /** A clone is named after the block it copies. */
  datatype Block = Sink | Named(name: string) | Clone(of: Block, copy: nat)

  type Targets = map<Block, seq<Block>>

  /** What the unroller is asked to do; `k` is the unroll count. */
  datatype Loop = Loop(header: Block, bbs: seq<Block>, k: nat) {
    ghost predicate Valid(g: Targets) {
      && k >= 1 && header in bbs
      && (forall i, j :: 0 <= i < j < |bbs| ==> bbs[i] != bbs[j])
      && Sink !in bbs
      && (forall b :: b in bbs ==> b in g)
      && (forall b :: b in g ==> !IsClone(b) && ClonesAreNew(g[b]))
    }

    predicate IsClone(b: Block) {
      b.Clone? && b.of in bbs
    }

    ghost predicate ClonesAreNew(ts: seq<Block>) {
      forall i :: 0 <= i < |ts| ==> !IsClone(ts[i])
    }

    /** How many versions of a block there are, counting the original.  The header gets
        one more, so that the last iteration can leave through it. */
    function Copies(b: Block): nat {
      if b == header && |bbs| > 1 then k + 1 else k
    }

    /** Version `u` of a block of the loop; version 0 is the block itself. */
    function Version(b: Block, u: nat): Block {
      if u == 0 then b else Clone(b, u)
    }

    /** Where version `u` of a loop block jumps instead of to `t`. */
    function Patch(t: Block, u: nat): Block {
      if t !in bbs then t
      else if t == header then if u + 1 < Copies(t) then Version(t, u + 1) else Sink
      else if u < Copies(t) then Version(t, u) else Sink
    }

    function PatchAll(ts: seq<Block>, u: nat): (r: seq<Block>)
      ensures |r| == |ts| && forall i :: 0 <= i < |ts| ==> r[i] == Patch(ts[i], u)
    {
      seq(|ts|, i requires 0 <= i < |ts| => Patch(ts[i], u))
    }
  }

  /** The graph after unrolling. */
  ghost predicate Unrolled(l: Loop, g: Targets, g': Targets) {
    && (forall b :: b in g && b !in l.bbs ==> b in g' && g'[b] == g[b])
    && (forall b, u :: b in l.bbs && 0 <= u < l.Copies(b) ==>
         b in g && l.Version(b, u) in g' && g'[l.Version(b, u)] == l.PatchAll(g[b], u))
    && (forall x :: x in g' ==> x in g || (l.IsClone(x) && 0 < x.copy < l.Copies(x.of)))
  }

  // ---- The transformation ----

  lemma DistinctBlocks(l: Loop, g: Targets)
    requires l.Valid(g)
    ensures forall i, j :: 0 <= i < j < |l.bbs| ==> l.bbs[i] != l.bbs[j]
  {
  }

  class Function {
    var targets: Targets

    constructor (g: Targets)
      ensures targets == g
    {
      targets := g;
    }

    /** Replaces every jump of `b` to `from`. */
    method ReplaceTargetWith(b: Block, from: Block, to: Block)
      requires b in targets
      modifies this
      ensures b in targets && targets == old(targets)[b := targets[b]]
      ensures |targets[b]| == old(|targets[b]|)
      ensures forall i :: 0 <= i < |targets[b]| ==>
        targets[b][i] == if old(targets[b][i]) == from then to else old(targets[b][i])
    {
      var ts := targets[b];
      var i := 0;
      while i < |ts|
        invariant 0 <= i <= |ts| == |targets[b]| && targets == old(targets)
        invariant forall j :: 0 <= j < i ==> ts[j] == if targets[b][j] == from then to else targets[b][j]
        invariant forall j :: i <= j < |ts| ==> ts[j] == targets[b][j]
      {
        if ts[i] == from {
          ts := ts[i := to];
        }
        i := i + 1;
      }
      targets := targets[b := ts];
    }

    /** Patches the jumps of one version while walking over them. */
    method PatchBlock(l: Loop, bbmap: map<Block, seq<Block>>, cloned: Block, u: nat)
      requires cloned in targets && IsVersionMap(l, bbmap) && l.ClonesAreNew(targets[cloned])
      requires Sink !in l.bbs && forall b :: b in l.bbs ==> !l.IsClone(b)
      modifies this
      ensures targets == old(targets)[cloned := l.PatchAll(old(targets[cloned]), u)]
    {
      ghost var ts := targets[cloned];
      var i := 0;
      while i < |targets[cloned]|
        invariant cloned in targets && 0 <= i <= |targets[cloned]| == |ts|
        invariant targets == old(targets)[cloned := targets[cloned]]
        invariant forall j :: 0 <= j < i ==> targets[cloned][j] == l.Patch(ts[j], u)
        invariant forall j :: i <= j < |ts| ==> targets[cloned][j] == ts[j] || targets[cloned][j] == l.Patch(ts[j], u)
        decreases |ts| - i
      {
        var tgt := targets[cloned][i];
        if tgt in bbmap {
          var dst := bbmap[tgt];
          var to;
          if tgt == l.header {
            to := if u + 1 < |dst| then dst[u + 1] else Sink;
          } else {
            to := if u < |dst| then dst[u] else Sink;
          }
          assert to == l.Patch(tgt, u);
          assert ts[i] == tgt;
          ReplaceTargetWith(cloned, tgt, to);
        } else {
          assert targets[cloned][i] == l.Patch(ts[i], u);
        }
        i := i + 1;
      }
      assert targets[cloned] == l.PatchAll(ts, u);
    }

    /** Adds the next version of `b`, with the jumps `b` has now. */
    method CloneBlock(l: Loop, ghost g: Targets, bbmap: map<Block, seq<Block>>, b: Block)
      returns (bbmap': map<Block, seq<Block>>)
      requires l.Valid(g) && Cloned(l, g, targets, bbmap) && b in l.bbs
      modifies this
      ensures Cloned(l, g, targets, bbmap')
      ensures b in bbmap && b in bbmap' && bbmap' == bbmap[b := bbmap'[b]] && |bbmap'[b]| == |bbmap[b]| + 1
    {
      var copy := Clone(b, |bbmap[b]|);
      CloneKeeps(l, g, targets, bbmap, b);
      targets := targets[copy := targets[b]];
      bbmap' := bbmap[b := bbmap[b] + [copy]];
    }

    method CloneAll(l: Loop, ghost g: Targets, bbmap0: map<Block, seq<Block>>, ghost u: nat)
      returns (bbmap: map<Block, seq<Block>>)
      requires l.Valid(g) && Cloned(l, g, targets, bbmap0)
      requires forall b :: b in l.bbs ==> b in bbmap0 && |bbmap0[b]| == u
      modifies this
      ensures Cloned(l, g, targets, bbmap)
      ensures forall b :: b in l.bbs ==> b in bbmap && |bbmap[b]| == u + 1
    {
      hide Cloned, Loop.Valid;
      DistinctBlocks(l, g);
      bbmap := bbmap0;
      var i := 0;
      while i < |l.bbs|
        invariant 0 <= i <= |l.bbs|
        invariant Cloned(l, g, targets, bbmap)
        invariant forall j :: 0 <= j < |l.bbs| ==> l.bbs[j] in bbmap && |bbmap[l.bbs[j]]| == if j < i then u + 1 else u
      {
        bbmap := CloneBlock(l, g, bbmap, l.bbs[i]);
        i := i + 1;
      }
    }

    /** Clones the loop `k - 1` times, clones the header once more if the loop has other
        blocks, and patches every jump between loop blocks. */
    method UnrollLoop(l: Loop)
      requires l.Valid(targets)
      modifies this
      ensures Unrolled(l, old(targets), targets) && KeepsPaths(l, old(targets), targets)
    {
      hide KeepsPaths, Unrolled, Cloned, Loop.Valid;
      ghost var g := targets;
      var bbmap: map<Block, seq<Block>> := map b | b in l.bbs :: [b];
      FirstCloned(l, g, bbmap);
      var u := 1;
      while u < l.k
        invariant 1 <= u <= l.k
        invariant Cloned(l, g, targets, bbmap)
        invariant forall b :: b in l.bbs ==> b in bbmap && |bbmap[b]| == u
      {
        bbmap := CloneAll(l, g, bbmap, u);
        u := u + 1;
      }
      ClonedSize(l, g, targets, bbmap);
      if |bbmap| > 1 {
        bbmap := CloneBlock(l, g, bbmap, l.header);
      }
      ClonedVersions(l, g, targets, bbmap);
      PatchTargets(l, g, bbmap);
      AllPathsExact(l, g, targets);
    }

    method PatchVersions(l: Loop, ghost g: Targets, bbmap: map<Block, seq<Block>>, ghost keys: set<Block>,
                         ghost todo: set<Block>, b: Block)
      requires l.Valid(g) && IsVersionMap(l, bbmap) && b in l.bbs && b in todo
      requires Patched(l, g, targets, keys, todo, Sink, 0)
      modifies this
      ensures Patched(l, g, targets, keys, todo - {b}, Sink, 0)
    {
      PatchNext(l, g, targets, keys, todo, b);
      var u := 0;
      while u < |bbmap[b]|
        invariant 0 <= u <= |bbmap[b]|
        invariant Patched(l, g, targets, keys, todo, b, u)
      {
        PatchKeeps(l, g, targets, keys, todo, b, u);
        PatchBlock(l, bbmap, bbmap[b][u], u);
        u := u + 1;
      }
      PatchedBlock(l, g, targets, keys, todo, b);
    }

    method PatchTargets(l: Loop, ghost g: Targets, bbmap: map<Block, seq<Block>>)
      requires l.Valid(g) && Cloned(l, g, targets, bbmap) && IsVersionMap(l, bbmap)
      modifies this
      ensures Unrolled(l, g, targets)
    {
      ghost var keys := targets.Keys;
      PatchFirst(l, g, targets, bbmap);
      var todo := bbmap.Keys;
      while todo != {}
        invariant todo <= bbmap.Keys
        invariant Patched(l, g, targets, keys, todo, Sink, 0)
        decreases todo
      {
        var b :| b in todo;
        PatchVersions(l, g, bbmap, keys, todo, b);
        todo := todo - {b};
      }
      AllPatched(l, g, targets, keys);
    }
  }

  lemma FirstCloned(l: Loop, g: Targets, bbmap: map<Block, seq<Block>>)
    requires l.Valid(g) && bbmap == map b | b in l.bbs :: [b]
    ensures Cloned(l, g, g, bbmap) && l.k >= 1 && forall b :: b in l.bbs ==> b in bbmap && |bbmap[b]| == 1
  {
  }

  lemma ClonedSize(l: Loop, g: Targets, g': Targets, bbmap: map<Block, seq<Block>>)
    requires l.Valid(g) && Cloned(l, g, g', bbmap)
    ensures |bbmap| == |l.bbs| && l.header in l.bbs
  {
    DistinctSize(l.bbs);
    assert |bbmap| == |bbmap.Keys|;
  }

  lemma ClonedVersions(l: Loop, g: Targets, g': Targets, bbmap: map<Block, seq<Block>>)
    requires Cloned(l, g, g', bbmap) && forall b :: b in l.bbs ==> b in bbmap && |bbmap[b]| == l.Copies(b)
    ensures IsVersionMap(l, bbmap)
  {
  }

  lemma PatchFirst(l: Loop, g: Targets, g': Targets, bbmap: map<Block, seq<Block>>)
    requires l.Valid(g) && Cloned(l, g, g', bbmap) && IsVersionMap(l, bbmap)
    ensures Patched(l, g, g', g'.Keys, bbmap.Keys, Sink, 0)
    ensures forall x :: x in g' ==> x in g || (l.IsClone(x) && 0 < x.copy < l.Copies(x.of))
  {
    var todo := bbmap.Keys;
    forall c, v | c in l.bbs && 0 <= v < l.Copies(c)
      ensures PatchedVersion(l, g, g', todo, Sink, 0, c, v)
    {
      assert |bbmap[c]| == l.Copies(c);
    }
    forall x | x in g' && x !in g
      ensures l.IsClone(x) && 0 < x.copy < l.Copies(x.of)
    {
      assert Made(l, bbmap, x);
    }
  }

  lemma {:induction false} DistinctSize(s: seq<Block>)
    requires forall i, j :: 0 <= i < j < |s| ==> s[i] != s[j]
    ensures |set b | b in s| == |s|
  {
    if s == [] {
      assert (set b | b in s) == {};
    } else {
      var t := s[..|s| - 1];
      DistinctSize(t);
      assert (set b | b in s) == (set b | b in t) + {s[|s| - 1]};
    }
  }

  /** After cloning, versions jump where their originals do. */
  ghost predicate Cloned(l: Loop, g: Targets, g': Targets, bbmap: map<Block, seq<Block>>) {
    && bbmap.Keys == (set b | b in l.bbs)
    && (forall b :: b in l.bbs ==> |bbmap[b]| >= 1 && forall u ::
      0 <= u < |bbmap[b]| ==> bbmap[b][u] == l.Version(b, u))
    && (forall b :: b in g ==> b in g' && g'[b] == g[b])
    && (forall b, u :: b in l.bbs && 0 <= u < |bbmap[b]| ==>
      l.Version(b, u) in g' && b in g && g'[l.Version(b, u)] == g[b])
    && (forall x :: x in g' ==> x in g || Made(l, bbmap, x))
  }

  ghost predicate Made(l: Loop, bbmap: map<Block, seq<Block>>, x: Block) {
    l.IsClone(x) && x.of in bbmap && 0 < x.copy < |bbmap[x.of]|
  }

  lemma CloneKeeps(l: Loop, g: Targets, g': Targets, bbmap: map<Block, seq<Block>>, b: Block)
    requires l.Valid(g) && Cloned(l, g, g', bbmap) && b in l.bbs
    ensures var copy := Clone(b, |bbmap[b]|);
            Cloned(l, g, g'[copy := g'[b]], bbmap[b := bbmap[b] + [copy]])
  {
    var copy := Clone(b, |bbmap[b]|);
    assert l.IsClone(copy);
    var m := bbmap[b := bbmap[b] + [copy]];
    assert m.Keys == bbmap.Keys;
    assert forall x :: Made(l, bbmap, x) ==> Made(l, m, x);
    assert Made(l, m, copy);
  }

  /** The versions of blocks outside `todo`, and the first `upto` of `cur`, are patched;
      everything else is as cloned. */
  ghost predicate Patched(l: Loop, g: Targets, g': Targets, keys: set<Block>, todo: set<Block>, cur: Block, upto: nat) {
    && g'.Keys == keys
    && (forall b :: b in g && b !in l.bbs ==> b in g' && g'[b] == g[b])
    && (forall b, u :: b in l.bbs && 0 <= u < l.Copies(b) ==> PatchedVersion(l, g, g', todo, cur, upto, b, u))
  }

  ghost predicate PatchedVersion(l: Loop, g: Targets, g': Targets, todo: set<Block>, cur: Block, upto: nat, b: Block,
                                 u: nat) {
    && b in g && l.Version(b, u) in g'
    && g'[l.Version(b, u)] == if b !in todo || (b == cur && u < upto) then l.PatchAll(g[b], u) else g[b]
  }

  lemma PatchKeeps(l: Loop, g: Targets, g': Targets, keys: set<Block>, todo: set<Block>, b: Block, u: nat)
    requires l.Valid(g) && Patched(l, g, g', keys, todo, b, u) && b in l.bbs && b in todo && u < l.Copies(b)
    ensures b in g && l.Version(b, u) in g' && g'[l.Version(b, u)] == g[b]
    ensures Patched(l, g, g'[l.Version(b, u) := l.PatchAll(g[b], u)], keys, todo, b, u + 1)
  {
    assert PatchedVersion(l, g, g', todo, b, u, b, u);
    var g2 := g'[l.Version(b, u) := l.PatchAll(g[b], u)];
    var upto := u + 1;
    forall c, v | c in l.bbs && 0 <= v < l.Copies(c)
      ensures PatchedVersion(l, g, g2, todo, b, upto, c, v)
    {
      assert PatchedVersion(l, g, g', todo, b, u, c, v);
      assert !l.IsClone(b) && !l.IsClone(c);
      assert l.Version(c, v) == l.Version(b, u) ==> c == b && v == u;
    }
  }

  lemma PatchNext(l: Loop, g: Targets, g': Targets, keys: set<Block>, todo: set<Block>, b: Block)
    requires Patched(l, g, g', keys, todo, Sink, 0)
    ensures Patched(l, g, g', keys, todo, b, 0)
  {
    forall c, v | c in l.bbs && 0 <= v < l.Copies(c)
      ensures PatchedVersion(l, g, g', todo, b, 0, c, v)
    {
      assert PatchedVersion(l, g, g', todo, Sink, 0, c, v);
    }
  }

  lemma AllPatched(l: Loop, g: Targets, g': Targets, keys: set<Block>)
    requires Patched(l, g, g', keys, {}, Sink, 0)
    requires forall x :: x in keys ==> x in g || (l.IsClone(x) && 0 < x.copy < l.Copies(x.of))
    ensures Unrolled(l, g, g')
  {
    forall b, u | b in l.bbs && 0 <= u < l.Copies(b)
      ensures b in g && l.Version(b, u) in g' && g'[l.Version(b, u)] == l.PatchAll(g[b], u)
    {
      assert PatchedVersion(l, g, g', {}, Sink, 0, b, u);
    }
  }

  lemma PatchedBlock(l: Loop, g: Targets, g': Targets, keys: set<Block>, todo: set<Block>, b: Block)
    requires Patched(l, g, g', keys, todo, b, l.Copies(b))
    ensures Patched(l, g, g', keys, todo - {b}, Sink, 0)
  {
    var rest := todo - {b};
    forall c, v | c in l.bbs && 0 <= v < l.Copies(c)
      ensures PatchedVersion(l, g, g', rest, Sink, 0, c, v)
    {
      assert PatchedVersion(l, g, g', todo, b, l.Copies(b), c, v);
    }
  }

  ghost predicate IsVersionMap(l: Loop, bbmap: map<Block, seq<Block>>) {
    && bbmap.Keys == (set b | b in l.bbs)
    && forall b :: b in l.bbs ==> |bbmap[b]| == l.Copies(b) && forall u ::
      0 <= u < |bbmap[b]| ==> bbmap[b][u] == l.Version(b, u)
  }

  // ---- Unrolling as a bounded simulation ----

  ghost predicate Jump(g: Targets, a: Block, b: Block) {
    a in g && b in g[a]
  }

  ghost predicate StepAt(g: Targets, p: seq<Block>, i: nat)
    requires i + 1 < |p|
  {
    Jump(g, p[i], p[i + 1])
  }

  ghost predicate IsPath(g: Targets, p: seq<Block>) {
    |p| > 0 && forall i :: 0 <= i < |p| - 1 ==> StepAt(g, p, i)
  }

  /** The original of a version. */
  function Erase(l: Loop, x: Block): Block {
    if l.IsClone(x) then x.of else x
  }

  function CopyOf(l: Loop, x: Block): nat {
    if l.IsClone(x) then x.copy else 0
  }

  function EraseAll(l: Loop, p: seq<Block>): (r: seq<Block>)
    ensures |r| == |p| && forall i :: 0 <= i < |p| ==> r[i] == Erase(l, p[i])
  {
    seq(|p|, i requires 0 <= i < |p| => Erase(l, p[i]))
  }

  /** The versions the loop has. */
  ghost predicate Exists(l: Loop, g: Targets, x: Block) {
    if Erase(l, x) in l.bbs then x == l.Version(Erase(l, x), CopyOf(l, x)) && CopyOf(l, x) < l.Copies(Erase(l, x))
    else !l.IsClone(x)
  }

  /** The version a jump to `b` from version `u` of `a` arrives at. */
  function NextCopy(l: Loop, a: Block, u: nat, b: Block): nat {
    if b !in l.bbs || a !in l.bbs then 0
    else if b == l.header then u + 1
    else u
  }

  /** The jumps of the unrolled graph out of an existing version are exactly the jumps of
      its original, to the next version if there is one and to the sink otherwise. */
  lemma JumpExact(l: Loop, g: Targets, g': Targets, x: Block, y: Block)
    requires l.Valid(g) && Unrolled(l, g, g') && Exists(l, g, x) && Erase(l, x) in g
    ensures Jump(g', x, y) <==>
      exists b :: Jump(g, Erase(l, x), b) && y == Land(l, Erase(l, x), CopyOf(l, x), b)
  {
    var a, u := Erase(l, x), CopyOf(l, x);
    if a in l.bbs {
      assert x == l.Version(a, u) && g'[x] == l.PatchAll(g[a], u);
      if Jump(g', x, y) {
        var i :| 0 <= i < |g'[x]| && g'[x][i] == y;
        assert Jump(g, a, g[a][i]) && y == l.Patch(g[a][i], u);
      }
      if b :| Jump(g, a, b) && y == Land(l, a, u, b) {
        var i :| 0 <= i < |g[a]| && g[a][i] == b;
        assert g'[x][i] == y;
      }
    } else {
      assert x == a && g'[x] == g[a];
      if Jump(g', x, y) {
        assert Jump(g, a, y) && y == Land(l, a, u, y);
      }
    }
  }

  function Land(l: Loop, a: Block, u: nat, b: Block): Block {
    if b !in l.bbs || a !in l.bbs then b
    else if NextCopy(l, a, u, b) < l.Copies(b) then l.Version(b, NextCopy(l, a, u, b))
    else Sink
  }

  /** The version reached at position `i` of an original path: how often the loop has gone
      back to its header since it was last entered. */
  function CopyAt(l: Loop, p: seq<Block>, i: nat): nat
    requires i < |p|
  {
    if i == 0 then 0 else NextCopy(l, p[i - 1], CopyAt(l, p, i - 1), p[i])
  }

  /** The unroll count covers the path: below `k` everywhere in the loop, and `k` at
      most at the header of a loop with other blocks. */
  ghost predicate Covered(l: Loop, p: seq<Block>) {
    forall i :: 0 <= i < |p| ==> CoveredAt(l, p, i)
  }

  ghost predicate CoveredAt(l: Loop, p: seq<Block>, i: nat)
    requires i < |p|
  {
    p[i] in l.bbs ==> CopyAt(l, p, i) < l.Copies(p[i])
  }

  function Lift(l: Loop, p: seq<Block>): (r: seq<Block>)
    ensures |r| == |p| && forall i :: 0 <= i < |p| ==> r[i] == l.Version(p[i], CopyAt(l, p, i))
  {
    seq(|p|, i requires 0 <= i < |p| => l.Version(p[i], CopyAt(l, p, i)))
  }

  /** Original paths within the unroll count have a counterpart in the unrolled graph ... */
  lemma LiftIsPath(l: Loop, g: Targets, g': Targets, p: seq<Block>)
    requires l.Valid(g) && Unrolled(l, g, g') && IsPath(g, p) && !l.IsClone(p[0]) && Covered(l, p)
    ensures IsPath(g', Lift(l, p)) && EraseAll(l, Lift(l, p)) == p
  {
    var q := Lift(l, p);
    forall i | 0 <= i < |p|
      ensures Exists(l, g, q[i]) && Erase(l, q[i]) == p[i] && CopyOf(l, q[i]) == CopyAt(l, p, i)
    {
      LiftErases(l, g, p, i);
    }
    forall i | 0 <= i < |q| - 1
      ensures StepAt(g', q, i)
    {
      assert StepAt(g, p, i);
      JumpExact(l, g, g', q[i], q[i + 1]);
      assert CopyAt(l, p, i + 1) == NextCopy(l, p[i], CopyAt(l, p, i), p[i + 1]);
      assert q[i + 1] == Land(l, p[i], CopyAt(l, p, i), p[i + 1]);
    }
  }

  lemma LiftErases(l: Loop, g: Targets, p: seq<Block>, i: nat)
    requires l.Valid(g) && IsPath(g, p) && !l.IsClone(p[0]) && Covered(l, p) && i < |p|
    ensures var x := Lift(l, p)[i]; Exists(l, g, x) && Erase(l, x) == p[i] && CopyOf(l, x) == CopyAt(l, p, i)
  {
    assert CoveredAt(l, p, i);
    if i > 0 {
      assert StepAt(g, p, i - 1);
    }
    if p[i] !in l.bbs {
      assert CopyAt(l, p, i) == 0;
    }
  }

  lemma {:induction false} CopyAtPrefix(l: Loop, p: seq<Block>, n: nat, i: nat)
    requires i < n <= |p|
    ensures CopyAt(l, p[..n], i) == CopyAt(l, p, i)
  {
    if i > 0 {
      CopyAtPrefix(l, p, n, i - 1);
    }
  }

  lemma LandErases(l: Loop, g: Targets, a: Block, u: nat, b: Block)
    requires l.Valid(g) && Jump(g, a, b) && Land(l, a, u, b) != Sink
    ensures var y := Land(l, a, u, b);
      Erase(l, y) == b && CopyOf(l, y) == NextCopy(l, a, u, b) && y == l.Version(b, NextCopy(l, a, u, b)) &&
      (b in l.bbs ==> NextCopy(l, a, u, b) < l.Copies(b))
  {
    assert !l.IsClone(b);
    if b in l.bbs {
      assert !l.IsClone(b);
      assert l.k >= 1;
    }
  }

  /** A jump of the unrolled graph that continues the counterpart of `p`. */
  lemma LiftStep(l: Loop, g: Targets, g': Targets, p: seq<Block>, y: Block)
    requires l.Valid(g) && Unrolled(l, g, g') && IsPath(g, p) && !l.IsClone(p[0]) && Covered(l, p)
    requires Jump(g', Lift(l, p)[|p| - 1], y) && y != Sink
    ensures var a, b := p[|p| - 1], Erase(l, y); var u := NextCopy(l, a, CopyAt(l, p, |p| - 1), b);
      Jump(g, a, b) && y == l.Version(b, u) && (b in l.bbs ==> u < l.Copies(b))
  {
    hide Unrolled, Land, NextCopy, Covered, CopyAt, Exists, StepAt, Loop.Valid;
    var n := |p| - 1;
    var x := Lift(l, p)[n];
    LiftErases(l, g, p, n);
    OriginalSource(l, g, g', x);
    JumpExact(l, g, g', x, y);
    var b :| Jump(g, p[n], b) && y == Land(l, p[n], CopyOf(l, x), b);
    LandErases(l, g, p[n], CopyOf(l, x), b);
  }

  lemma OriginalSource(l: Loop, g: Targets, g': Targets, x: Block)
    requires l.Valid(g) && Unrolled(l, g, g') && Exists(l, g, x) && x in g'
    ensures Erase(l, x) in g
  {
  }

  /** ... and conversely every path of the unrolled graph that starts at an original
      block and stays out of the sink is the counterpart of a covered original path. */
  lemma {:induction false} PathIsLift(l: Loop, g: Targets, g': Targets, q: seq<Block>)
    requires l.Valid(g) && Unrolled(l, g, g') && IsPath(g', q) && !l.IsClone(q[0])
    requires forall i :: 0 <= i < |q| ==> q[i] != Sink
    ensures var p := EraseAll(l, q); IsPath(g, p) && Covered(l, p) && q == Lift(l, p)
    decreases |q|
  {
    hide Loop.Valid, Unrolled, Covered, CopyAt, NextCopy, Erase, Loop.IsClone, Loop.Version, Loop.Copies;
    var n := |q| - 1;
    if n > 0 {
      var q0 := q[..n];
      assert IsPath(g', q0) by {
        forall i | 0 <= i < |q0| - 1
          ensures StepAt(g', q0, i)
        {
          assert StepAt(g', q, i);
        }
      }
      PathIsLift(l, g, g', q0);
      assert StepAt(g', q, n - 1);
      FirstErased(l, q[0]);
      LiftStep(l, g, g', EraseAll(l, q0), q[n]);
      assert EraseAll(l, q) == EraseAll(l, q0) + [Erase(l, q[n])];
      ExtendLift(l, g, EraseAll(l, q0), q[n]);
      assert q == q0 + [q[n]];
    } else {
      assert q == [q[0]];
      SingleLift(l, g, q[0]);
    }
  }

  lemma FirstErased(l: Loop, b: Block)
    requires !l.IsClone(b)
    ensures Erase(l, b) == b
  {
  }

  lemma SingleLift(l: Loop, g: Targets, b: Block)
    requires l.Valid(g) && !l.IsClone(b)
    ensures var p := EraseAll(l, [b]); IsPath(g, p) && Covered(l, p) && [b] == Lift(l, p)
  {
    var p := EraseAll(l, [b]);
    assert p == [b] && CopyAt(l, p, 0) == 0;
  }

  /** What one more block adds to a path. */
  lemma CopyAtEnd(l: Loop, p: seq<Block>, b: Block)
    requires p != []
    ensures CopyAt(l, p + [b], |p|) == NextCopy(l, p[|p| - 1], CopyAt(l, p, |p| - 1), b)
    ensures forall i :: 0 <= i < |p| ==> Lift(l, p + [b])[i] == Lift(l, p)[i]
    ensures forall i :: 0 <= i < |p| ==> CoveredAt(l, p + [b], i) == CoveredAt(l, p, i)
  {
    var p' := p + [b];
    assert p'[..|p|] == p;
    CopyAtPrefix(l, p', |p|, |p| - 1);
    hide CopyAt;
    forall i | 0 <= i < |p|
      ensures Lift(l, p')[i] == Lift(l, p)[i] && CoveredAt(l, p', i) == CoveredAt(l, p, i)
    {
      CopyAtPrefix(l, p', |p|, i);
    }
  }

  lemma ExtendLift(l: Loop, g: Targets, p: seq<Block>, y: Block)
    requires IsPath(g, p) && Covered(l, p)
    requires var a, b := p[|p| - 1], Erase(l, y); var u := NextCopy(l, a, CopyAt(l, p, |p| - 1), b);
      Jump(g, a, b) && y == l.Version(b, u) && (b in l.bbs ==> u < l.Copies(b))
    ensures var p' := p + [Erase(l, y)]; IsPath(g, p') && Covered(l, p') && Lift(l, p') == Lift(l, p) + [y]
  {
    hide NextCopy, Erase, CopyAt, Loop.Version, Loop.Copies, Jump;
    var p' := p + [Erase(l, y)];
    var n := |p|;
    CopyAtEnd(l, p, Erase(l, y));
    assert CoveredAt(l, p', n);
    forall i | 0 <= i < n
      ensures StepAt(g, p', i)
    {
      assert i < n - 1 ==> StepAt(g, p, i);
    }
  }

  /** An original path is cut off at the sink exactly where the unroll count runs out. */
  lemma UncoveredReachesSink(l: Loop, g: Targets, g': Targets, p: seq<Block>)
    requires l.Valid(g) && Unrolled(l, g, g') && IsPath(g, p) && !l.IsClone(p[0]) && |p| > 1
    requires Covered(l, p[..|p| - 1]) && !Covered(l, p)
    ensures IsPath(g', Lift(l, p[..|p| - 1]) + [Sink])
  {
    hide Unrolled, Loop.Valid, Jump, NextCopy, CopyAt;
    var n := |p| - 1;
    var p0 := p[..n];
    forall i | 0 <= i < n - 1
      ensures StepAt(g, p0, i)
    {
      assert StepAt(g, p, i);
    }
    LiftIsPath(l, g, g', p0);
    assert p == p0 + [p[n]];
    CopyAtEnd(l, p0, p[n]);
    assert !CoveredAt(l, p, n);
    assert StepAt(g, p, n - 1);
    CutOff(l, g, g', p0, p[n]);
    var q := Lift(l, p0);
    var r := q + [Sink];
    forall i | 0 <= i < |r| - 1
      ensures StepAt(g', r, i)
    {
      assert i < n - 1 ==> StepAt(g', q, i);
    }
  }

  lemma CutOff(l: Loop, g: Targets, g': Targets, p: seq<Block>, b: Block)
    requires l.Valid(g) && Unrolled(l, g, g') && IsPath(g, p) && !l.IsClone(p[0]) && Covered(l, p)
    requires Jump(g, p[|p| - 1], b) && b in l.bbs
    requires NextCopy(l, p[|p| - 1], CopyAt(l, p, |p| - 1), b) >= l.Copies(b)
    ensures Jump(g', Lift(l, p)[|p| - 1], Sink)
  {
    hide Unrolled, Covered, CopyAt, Exists, StepAt;
    var n := |p| - 1;
    var x := Lift(l, p)[n];
    LiftErases(l, g, p, n);
    JumpExact(l, g, g', x, Sink);
    assert p[n] in l.bbs;
    assert Sink == Land(l, p[n], CopyOf(l, x), b);
  }

  /** Jumps of a path back to the header from inside the loop. */
  ghost function Crossings(l: Loop, p: seq<Block>): nat {
    if |p| <= 1 then 0
    else Crossings(l, p[..|p| - 1]) + if p[|p| - 2] in l.bbs && p[|p| - 1] == l.header then 1 else 0
  }

  /** Fewer than `k` returns to the header are always covered. */
  lemma {:induction false} FewCrossingsCovered(l: Loop, g: Targets, p: seq<Block>)
    requires l.Valid(g) && Crossings(l, p) < l.k
    ensures Covered(l, p) && (p != [] ==> CopyAt(l, p, |p| - 1) <= Crossings(l, p))
    decreases |p|
  {
    hide Loop.Valid;
    if |p| > 1 {
      var n := |p| - 1;
      FewCrossingsCovered(l, g, p[..n]);
      forall i | 0 <= i < n
        ensures CopyAt(l, p, i) == CopyAt(l, p[..n], i) && CoveredAt(l, p, i)
      {
        CopyAtPrefix(l, p, n, i);
        assert CoveredAt(l, p[..n], i);
      }
      assert CoveredAt(l, p, n);
    }
  }

  // ---- Which paths are left, counted on the original graph ----

  ghost predicate InLoop(l: Loop, s: seq<Block>) {
    forall i :: 0 <= i < |s| ==> s[i] in l.bbs
  }

  /** A stretch inside the loop with fewer than `k` returns to the header, or one that ends with
      the `k`-th return and could leave the loop there because the header is not all of it. */
  ghost predicate Kept(l: Loop, s: seq<Block>)
    requires s != []
  {
    Crossings(l, s) < l.k || (|l.bbs| > 1 && Crossings(l, s) == l.k && s[|s| - 1] == l.header)
  }

  ghost predicate AllKept(l: Loop, p: seq<Block>) {
    forall i, j :: 0 <= i < j <= |p| && InLoop(l, p[i..j]) ==> Kept(l, p[i..j])
  }

  /** A path of the unrolled graph that does what `p` does. */
  ghost predicate Counterpart(l: Loop, g': Targets, p: seq<Block>, q: seq<Block>) {
    IsPath(g', q) && p != [] && q[0] == p[0] && EraseAll(l, q) == p && forall i :: 0 <= i < |q| ==> q[i] != Sink
  }

  ghost predicate HasCounterpart(l: Loop, g': Targets, p: seq<Block>) {
    exists q :: Counterpart(l, g', p, q)
  }

  /** The version at a position is the number of returns since the loop was last entered. */
  lemma {:induction false} Stretch(l: Loop, p: seq<Block>, n: nat) returns (i: nat)
    requires n < |p| && p[n] in l.bbs
    ensures i <= n && InLoop(l, p[i..n + 1]) && Crossings(l, p[i..n + 1]) == CopyAt(l, p, n)
  {
    if n > 0 && p[n - 1] in l.bbs {
      i := Stretch(l, p, n - 1);
      assert p[i..n + 1][..n - i] == p[i..n];
    } else {
      i := n;
    }
  }

  lemma {:induction false} StretchBound(l: Loop, p: seq<Block>, i: nat, n: nat)
    requires i <= n < |p| && InLoop(l, p[i..n + 1])
    ensures Crossings(l, p[i..n + 1]) <= CopyAt(l, p, n)
    decreases n
  {
    var s := p[i..n + 1];
    if i < n {
      assert s[..n - i] == p[i..n];
      assert InLoop(l, p[i..n]) by {
        assert forall j :: 0 <= j < n - i ==> p[i..n][j] == s[j];
      }
      assert s[n - i] == p[n] && s[n - i - 1] == p[n - 1];
      StretchBound(l, p, i, n - 1);
    }
  }

  lemma {:induction false} CoveredIffKept(l: Loop, p: seq<Block>)
    ensures Covered(l, p) <==> AllKept(l, p)
  {
    hide Crossings, CopyAt, InLoop;
    if Covered(l, p) {
      forall i, j | 0 <= i < j <= |p| && InLoop(l, p[i..j])
        ensures Kept(l, p[i..j])
      {
        assert CoveredAt(l, p, j - 1);
        StretchInside(l, p, i, j);
        StretchBound(l, p, i, j - 1);
      }
    }
    if AllKept(l, p) {
      forall n | 0 <= n < |p| && p[n] in l.bbs
        ensures CopyAt(l, p, n) < l.Copies(p[n])
      {
        var i := Stretch(l, p, n);
        assert Kept(l, p[i..n + 1]);
      }
    }
  }

  lemma StretchInside(l: Loop, p: seq<Block>, i: nat, j: nat)
    requires i < j <= |p| && InLoop(l, p[i..j])
    ensures p[j - 1] in l.bbs && p[i..j][j - i - 1] == p[j - 1]
  {
    assert p[i..j][j - i - 1] == p[j - 1];
  }

  /** The paths of the unrolled graph that stay out of the sink are those of the original graph
      without a stretch that is not kept, and each has only one counterpart. */
  lemma {:induction false} PathsExact(l: Loop, g: Targets, g': Targets, p: seq<Block>)
    requires l.Valid(g) && Unrolled(l, g, g') && IsPath(g, p) && !l.IsClone(p[0])
    requires forall i :: 0 <= i < |p| ==> p[i] != Sink
    ensures AllKept(l, p) <==> HasCounterpart(l, g', p)
    ensures forall q :: Counterpart(l, g', p, q) ==> q == Lift(l, p)
  {
    hide Loop.Valid, Unrolled, Covered, AllKept, CopyAt, Loop.Copies;
    CoveredIffKept(l, p);
    forall q | Counterpart(l, g', p, q)
      ensures q == Lift(l, p) && Covered(l, p)
    {
      PathIsLift(l, g, g', q);
    }
    if Covered(l, p) {
      LiftIsPath(l, g, g', p);
      var q := Lift(l, p);
      LiftStarts(l, p);
      assert Counterpart(l, g', p, q);
    }
  }

  /** The graph has just the paths that it should. */
  ghost predicate KeepsPaths(l: Loop, g: Targets, g': Targets) {
    forall p :: IsPath(g, p) && !l.IsClone(p[0]) && (forall i :: 0 <= i < |p| ==> p[i] != Sink) ==>
      (AllKept(l, p) <==> HasCounterpart(l, g', p))
  }

  lemma {:induction false} AllPathsExact(l: Loop, g: Targets, g': Targets)
    requires l.Valid(g) && Unrolled(l, g, g')
    ensures KeepsPaths(l, g, g')
  {
    hide Loop.Valid, Unrolled, AllKept, HasCounterpart, Loop.IsClone;
    forall p | IsPath(g, p) && !l.IsClone(p[0]) && (forall i :: 0 <= i < |p| ==> p[i] != Sink)
      ensures AllKept(l, p) <==> HasCounterpart(l, g', p)
    {
      PathsExact(l, g, g', p);
    }
  }

  lemma LiftStarts(l: Loop, p: seq<Block>)
    requires p != [] && forall i :: 0 <= i < |p| ==> p[i] != Sink
    ensures Lift(l, p)[0] == p[0] && forall i :: 0 <= i < |p| ==> Lift(l, p)[i] != Sink
  {
  }

  /** The path can go on to `b`, and that is the sink or not kept. */
  ghost predicate CutAt(l: Loop, g: Targets, p: seq<Block>, b: Block)
    requires p != []
  {
    Jump(g, p[|p| - 1], b) && (b == Sink || !AllKept(l, p + [b]))
  }

  /** Such a path can go on to the sink just where the original can go on to what is not kept, or
      to the sink itself. */
  lemma {:induction false} SinkExact(l: Loop, g: Targets, g': Targets, p: seq<Block>, q: seq<Block>)
    requires l.Valid(g) && Unrolled(l, g, g') && IsPath(g, p) && !l.IsClone(p[0])
    requires (forall i :: 0 <= i < |p| ==> p[i] != Sink) && Counterpart(l, g', p, q)
    ensures Jump(g', q[|q| - 1], Sink) <==> exists b :: CutAt(l, g, p, b)
  {
    hide Loop.Valid, Unrolled, Covered, AllKept, CopyAt, Loop.Copies, Exists, Land;
    PathsExact(l, g, g', p);
    CoveredIffKept(l, p);
    var n := |p| - 1;
    assert q == Lift(l, p) && |q| == |p|;
    var x := q[n];
    LiftErases(l, g, p, n);
    LastJump(l, g, g', p, x);
  }

  lemma {:induction false} LastJump(l: Loop, g: Targets, g': Targets, p: seq<Block>, x: Block)
    requires l.Valid(g) && Unrolled(l, g, g') && p != [] && Covered(l, p)
    requires Exists(l, g, x) && Erase(l, x) == p[|p| - 1] && CopyOf(l, x) == CopyAt(l, p, |p| - 1)
    ensures Jump(g', x, Sink) <==> exists b :: CutAt(l, g, p, b)
  {
    hide Loop.Valid, Unrolled, Covered, AllKept, CopyAt, Loop.Copies, Exists, Land, Erase, CopyOf;
    var a := p[|p| - 1];
    if Jump(g', x, Sink) {
      OriginalSource(l, g, g', x);
      JumpExact(l, g, g', x, Sink);
      var b :| Jump(g, a, b) && Sink == Land(l, a, CopyOf(l, x), b);
      LandsInSink(l, g, p, b);
      assert CutAt(l, g, p, b);
    }
    if b :| CutAt(l, g, p, b) {
      LandsInSink(l, g, p, b);
      JumpExact(l, g, g', x, Sink);
    }
  }

  lemma {:induction false} LandsInSink(l: Loop, g: Targets, p: seq<Block>, b: Block)
    requires l.Valid(g) && p != [] && Covered(l, p) && Jump(g, p[|p| - 1], b)
    ensures Sink == Land(l, p[|p| - 1], CopyAt(l, p, |p| - 1), b) <==> b == Sink || !AllKept(l, p + [b])
  {
    hide CopyAt, AllKept;
    var p' := p + [b];
    CoveredIffKept(l, p');
    CopyAtEnd(l, p, b);
    assert Covered(l, p') <==> CoveredAt(l, p', |p|) by {
      assert forall i :: 0 <= i < |p| ==> CoveredAt(l, p, i);
    }
  }

  /** The `k`-th return to the header: in a loop with other blocks it is kept, and so is leaving
      the loop from there, but nothing else that stays in it; in a loop of one block it is not. */
  lemma {:induction false} LastReturn(l: Loop, g: Targets, s: seq<Block>, b: Block)
    requires l.Valid(g) && s != [] && InLoop(l, s) && s[|s| - 1] == l.header && Crossings(l, s) == l.k
    ensures |s| > 1 && AllKept(l, s[..|s| - 1]) && (AllKept(l, s) <==> |l.bbs| > 1)
    ensures b !in l.bbs ==> (AllKept(l, s + [b]) <==> |l.bbs| > 1)
    ensures b in l.bbs ==> !AllKept(l, s + [b])
  {
    hide Loop.Valid, AllKept, CopyAt;
    KPositive(l, g);
    var n := |s| - 1;
    var s0 := s[..n];
    assert s == s0 + [s[n]];
    FewCrossingsCovered(l, g, s0);
    CopyAtEnd(l, s0, s[n]);
    CopyAtEnd(l, s, b);
    InLoopCopies(l, s);
    CoveredIffKept(l, s0);
    CoveredIffKept(l, s);
    CoveredIffKept(l, s + [b]);
    CoveredEnd(l, s0, s[n]);
    CoveredEnd(l, s, b);
  }

  lemma KPositive(l: Loop, g: Targets)
    requires l.Valid(g)
    ensures l.k >= 1
  {
  }

  lemma CoveredEnd(l: Loop, p: seq<Block>, b: Block)
    requires p != []
    ensures Covered(l, p + [b]) <==> Covered(l, p) && CoveredAt(l, p + [b], |p|)
  {
    hide CopyAt;
    CopyAtEnd(l, p, b);
    var p' := p + [b];
    assert Covered(l, p') ==> forall i :: 0 <= i < |p| ==> CoveredAt(l, p', i);
  }

  lemma {:induction false} InLoopCopies(l: Loop, s: seq<Block>)
    requires s != [] && InLoop(l, s)
    ensures CopyAt(l, s, |s| - 1) == Crossings(l, s)
  {
    var n := |s| - 1;
    if n > 0 {
      InLoopCopies(l, s[..n]);
      CopyAtPrefix(l, s, n, n - 1);
    }
  }

  lemma {:induction false} LoopBlocks(l: Loop, g: Targets, s: seq<Block>, b: Block)
    requires l.Valid(g) && InLoop(l, s) && b != Sink
    ensures forall i :: 0 <= i < |s| ==> s[i] != Sink && !l.IsClone(s[i])
    ensures forall i :: 0 <= i < |s| + 1 ==> (s + [b])[i] != Sink
  {
  }

  lemma {:induction false} PathEnds(g: Targets, s: seq<Block>, b: Block)
    requires IsPath(g, s) && Jump(g, s[|s| - 1], b)
    ensures IsPath(g, s + [b]) && (|s| > 1 ==> IsPath(g, s[..|s| - 1]) && Jump(g, s[|s| - 2], s[|s| - 1]))
  {
    hide Jump;
    var n, s' := |s| - 1, s + [b];
    forall i | 0 <= i < n + 1
      ensures StepAt(g, s', i)
    {
      assert i < n ==> StepAt(g, s, i);
    }
    if n > 0 {
      assert StepAt(g, s, n - 1);
      forall i | 0 <= i < n - 1
        ensures StepAt(g, s[..n], i)
      {
        assert StepAt(g, s, i);
      }
    }
  }

  /** What becomes of the last iteration in the unrolled graph: in a loop with other blocks it
      gets back to the header and can leave from there, and can do nothing else. */
  lemma {:induction false} LastIteration(l: Loop, g: Targets, g': Targets, s: seq<Block>, b: Block)
    requires l.Valid(g) && Unrolled(l, g, g') && IsPath(g, s) && InLoop(l, s) && Jump(g, s[|s| - 1], b) && b != Sink
    requires s[|s| - 1] == l.header && Crossings(l, s) == l.k
    ensures HasCounterpart(l, g', s) <==> |l.bbs| > 1
    ensures b !in l.bbs ==> (HasCounterpart(l, g', s + [b]) <==> |l.bbs| > 1)
    ensures b in l.bbs ==> !HasCounterpart(l, g', s + [b])
    ensures forall q :: b in l.bbs && Counterpart(l, g', s, q) ==> Jump(g', q[|q| - 1], Sink)
  {
    hide Unrolled, AllKept, Crossings, HasCounterpart, Jump, Loop.Valid, Loop.IsClone, InLoop, Counterpart;
    LastReturn(l, g, s, b);
    hide IsPath;
    LoopBlocks(l, g, s, b);
    PathEnds(g, s, b);
    PathsExact(l, g, g', s);
    PathsExact(l, g, g', s + [b]);
    forall q | b in l.bbs && Counterpart(l, g', s, q)
      ensures q != [] && Jump(g', q[|q| - 1], Sink)
    {
      NotEmpty(l, g', s, q);
      SinkExact(l, g, g', s, q);
      assert CutAt(l, g, s, b);
    }
  }

  lemma NotEmpty(l: Loop, g': Targets, p: seq<Block>, q: seq<Block>)
    requires Counterpart(l, g', p, q)
    ensures q != []
  {
  }

  /** In a loop of one block already the `k`-th return goes to the sink. */
  lemma {:induction false} LastOfOneBlock(l: Loop, g: Targets, g': Targets, s: seq<Block>)
    requires l.Valid(g) && Unrolled(l, g, g') && |l.bbs| == 1
    requires IsPath(g, s) && InLoop(l, s) && s[|s| - 1] == l.header && Crossings(l, s) == l.k
    ensures |s| > 1 && HasCounterpart(l, g', s[..|s| - 1])
    ensures forall q :: Counterpart(l, g', s[..|s| - 1], q) ==> Jump(g', q[|q| - 1], Sink)
  {
    hide Unrolled, AllKept, Crossings, HasCounterpart, Jump, Loop.IsClone, Counterpart;
    var b := l.header;
    LastReturn(l, g, s, b);
    LoopBlocks(l, g, s, b);
    assert StepAt(g, s, |s| - 2) && s[|s| - 2] == b;
    hide Loop.Valid, IsPath;
    PathEnds(g, s, b);
    var n := |s| - 1;
    var s0 := s[..n];
    assert s0 + [s[n]] == s;
    PathsExact(l, g, g', s0);
    forall q | Counterpart(l, g', s0, q)
      ensures q != [] && Jump(g', q[|q| - 1], Sink)
    {
      NotEmpty(l, g', s0, q);
      SinkExact(l, g, g', s0, q);
      assert CutAt(l, g, s0, s[n]);
    }
  }

  /** A topological order of the loop without the jumps to its header. */
  ghost predicate Topological(l: Loop, g: Targets, rank: Block -> nat) {
    forall a, b :: a in l.bbs && b in l.bbs && b != l.header && Jump(g, a, b) ==> rank(a) < rank(b)
  }

  ghost predicate Before(l: Loop, rank: Block -> nat, x: Block, y: Block) {
    || CopyOf(l, x) < CopyOf(l, y)
    || (CopyOf(l, x) == CopyOf(l, y) && rank(Erase(l, x)) < rank(Erase(l, y)))
  }

  lemma StepBefore(l: Loop, g: Targets, g': Targets, rank: Block -> nat, x: Block, y: Block)
    requires l.Valid(g) && Unrolled(l, g, g') && Topological(l, g, rank) && Jump(g', x, y)
    requires Exists(l, g, x) && Erase(l, x) in l.bbs && Exists(l, g, y) && Erase(l, y) in l.bbs
    ensures Before(l, rank, x, y)
  {
    JumpExact(l, g, g', x, y);
    var a, u := Erase(l, x), CopyOf(l, x);
    var b :| Jump(g, a, b) && y == Land(l, a, u, b);
    LandErases(l, g, a, u, b);
  }

  /** Without its header jumps acyclic, the loop is acyclic once unrolled: a path that
      stays among its versions never comes back to where it was. */
  lemma {:induction false} VersionsAcyclic(l: Loop, g: Targets, g': Targets, rank: Block -> nat, q: seq<Block>)
    requires l.Valid(g) && Unrolled(l, g, g') && Topological(l, g, rank)
    requires IsPath(g', q) && |q| > 1
    requires forall i :: 0 <= i < |q| ==> Exists(l, g, q[i]) && Erase(l, q[i]) in l.bbs
    ensures Before(l, rank, q[0], q[|q| - 1]) && q[0] != q[|q| - 1]
    decreases |q|
  {
    hide Unrolled, Loop.Valid, Topological, Exists, Jump, Erase, CopyOf;
    var n := |q| - 1;
    assert StepAt(g', q, n - 1);
    StepBefore(l, g, g', rank, q[n - 1], q[n]);
    if n > 1 {
      forall i | 0 <= i < n - 1
        ensures StepAt(g', q[..n], i)
      {
        assert StepAt(g', q, i);
      }
      VersionsAcyclic(l, g, g', rank, q[..n]);
    }
  }
}

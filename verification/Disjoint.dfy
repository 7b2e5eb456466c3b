/** Values guarded by mutually exclusive conditions: the map that joins what holds on
    different paths, and the constructor that takes a term apart into such a map. */
module Disjoint {
  import opened Terms
  import opened SmartExpr
  import opened SmartMeaning
  import opened SmartArith
  import opened ArithMeaning

  /** Each value with its domain, the condition under which it is the one meant. */
  type Vals = map<Expr, Expr>

  ghost predicate Piece(x: Expr, d: Expr, s: Sort) {
    WF(x) && SortOf(x) == s && WF(d) && SortOf(d) == SBool
  }

  ghost predicate WellSorted(vals: Vals, s: Sort) {
    forall x :: x in vals ==> Piece(x, vals[x], s)
  }

  ghost predicate On(d: Expr, m: Model) {
    Eval(d, m) == B(true)
  }

  ghost predicate Active(vals: Vals, x: Expr, m: Model) {
    x in vals && On(vals[x], m)
  }

  /** The domain does not depend on an undefined division, and neither does the value where it
      is the one meant. */
  ghost predicate Decided(x: Expr, d: Expr, m: Model) {
    Eval(d, m).B? && (On(d, m) ==> !Eval(x, m).Undef?)
  }

  ghost predicate Valued(vals: Vals, m: Model) {
    forall x :: x in vals ==> !Eval(x, m).Undef?
  }

  ghost predicate AllDecided(vals: Vals, m: Model) {
    forall x :: x in vals ==> Decided(x, vals[x], m)
  }

  ghost predicate NoneActive(vals: Vals, m: Model) {
    forall x :: !Active(vals, x, m)
  }

  ghost predicate SameActive(vals: Vals, vals': Vals, m: Model) {
    forall x :: Active(vals, x, m) <==> Active(vals', x, m)
  }

  /** Exactly one domain holds, the one of `x`. */
  ghost predicate Only(vals: Vals, x: Expr, m: Model) {
    Active(vals, x, m) && forall y :: Active(vals, y, m) ==> y == x
  }

  /** Exactly one domain holds, and its value is `t`. */
  ghost predicate Picks(vals: Vals, t: Value, m: Model) {
    exists x :: Only(vals, x, m) && Eval(x, m) == t
  }

  /** Under every valuation that gives `e` a value, exactly one domain holds and the
      value it guards is the value of `e`. */
  ghost predicate IsPartition(vals: Vals, e: Expr) {
    forall m :: !Eval(e, m).Undef? ==> AllDecided(vals, m) && Picks(vals, Eval(e, m), m)
  }

  // ---- Adding one value ----

  function AddTo(vals: Vals, val: Expr, dom: Expr, ghost s: Sort): (r: Vals)
    requires WellSorted(vals, s) && Piece(val, dom, s)
    ensures WellSorted(r, s)
  {
    if IsFalse(dom) then vals
    else
      var base := if IsTrue(dom) then map[] else vals;
      base[val := if val in base then MkOr(base[val], dom) else dom]
  }

  /** Adding a value under a condition that excludes the others makes it active when the
      condition holds, and changes nothing else. */
  lemma {:induction false} AddActive(vals: Vals, val: Expr, dom: Expr, s: Sort, m: Model)
    requires WellSorted(vals, s) && Piece(val, dom, s) && AllDecided(vals, m) && Decided(val, dom, m)
    requires On(dom, m) ==> forall x :: Active(vals, x, m) ==> x == val
    ensures AllDecided(AddTo(vals, val, dom, s), m)
    ensures forall x :: Active(AddTo(vals, val, dom, s), x, m) <==> Active(vals, x, m) || (x == val && On(dom, m))
  {
    hide Eval, WF, SortOf, MkOr;
    OpenBool(Bool(true), m);
    OpenBool(Bool(false), m);
    if val in vals {
      assert Piece(val, vals[val], s) && Decided(val, vals[val], m);
      MkOrMeans(vals[val], dom, m);
    }
  }

  // ---- The worklist ----

  datatype Pending = Pending(val: Expr, cond: Expr)

  ghost predicate WorkSorted(work: seq<Pending>, s: Sort) {
    forall i :: 0 <= i < |work| ==> Piece(work[i].val, work[i].cond, s)
  }

  ghost predicate WorkDecided(work: seq<Pending>, m: Model) {
    forall i :: 0 <= i < |work| ==> Decided(work[i].val, work[i].cond, m)
  }

  ghost predicate NoWork(work: seq<Pending>, m: Model) {
    forall i :: 0 <= i < |work| ==> !On(work[i].cond, m)
  }

  ghost predicate OnlyWork(work: seq<Pending>, i: nat, m: Model)
    requires i < |work|
  {
    On(work[i].cond, m) && forall j :: 0 <= j < |work| && j != i ==> !On(work[j].cond, m)
  }

  ghost predicate WorkPicks(work: seq<Pending>, t: Value, m: Model) {
    exists i :: 0 <= i < |work| && OnlyWork(work, i, m) && Eval(work[i].val, m) == t
  }

  /** The values found and those still to be taken apart together have exactly one
      condition that holds, and its value is `t`. */
  ghost predicate Splits(vals: Vals, work: seq<Pending>, t: Value, m: Model) {
    && AllDecided(vals, m) && WorkDecided(work, m)
    && ((Picks(vals, t, m) && NoWork(work, m)) || (NoneActive(vals, m) && WorkPicks(work, t, m)))
  }

  ghost predicate SplitsAll(vals: Vals, work: seq<Pending>, e: Expr) {
    forall m :: !Eval(e, m).Undef? ==> Splits(vals, work, Eval(e, m), m)
  }

  /** `(v, c)` can be added to `vals`. */
  ghost predicate Ready(vals: Vals, v: Expr, c: Expr, m: Model) {
    AllDecided(vals, m) && Decided(v, c, m) && (On(c, m) ==> NoneActive(vals, m))
  }

  /** `vals'` adds to `vals` pieces of a value `t` whose condition is `c`. */
  ghost predicate Spread(vals: Vals, vals': Vals, t: Value, c: Expr, m: Model) {
    && AllDecided(vals', m)
    && (if On(c, m) then Picks(vals', t, m) else SameActive(vals, vals', m))
  }

  ghost predicate SpreadAll(vals: Vals, vals': Vals, v: Expr, c: Expr) {
    forall m :: Ready(vals, v, c, m) ==> Spread(vals, vals', Eval(v, m), c, m)
  }

  lemma {:induction false} ReadyAt(vals: Vals, work: seq<Pending>, i: nat, t: Value, m: Model)
    requires i < |work| && Splits(vals, work, t, m)
    ensures Ready(vals, work[i].val, work[i].cond, m)
    ensures On(work[i].cond, m) ==> OnlyWork(work, i, m) && Eval(work[i].val, m) == t
  {
    hide Eval;
  }

  /** Replacing one pending value by its pieces. */
  lemma {:induction false} SpreadKeeps(vals: Vals, work: seq<Pending>, i: nat, vals': Vals, t: Value, m: Model)
    requires i < |work| && Splits(vals, work, t, m)
    requires Spread(vals, vals', Eval(work[i].val, m), work[i].cond, m)
    ensures Splits(vals', work[..i] + work[i + 1..], t, m)
  {
    hide Eval;
    ReadyAt(vals, work, i, t, m);
    var rest := work[..i] + work[i + 1..];
    assert forall j :: 0 <= j < |rest| ==> rest[j] == work[if j < i then j else j + 1];
    if On(work[i].cond, m) {
      assert NoWork(rest, m);
    } else if WorkPicks(work, t, m) {
      var k :| 0 <= k < |work| && OnlyWork(work, k, m) && Eval(work[k].val, m) == t;
      var k' := if k < i then k else k - 1;
      assert rest[k'] == work[k] && OnlyWork(rest, k', m);
      assert NoneActive(vals', m);
    } else {
      var x :| Only(vals, x, m) && Eval(x, m) == t;
      assert Only(vals', x, m);
    }
  }

  lemma {:induction false} SpreadKeepsAll(vals: Vals, work: seq<Pending>, i: nat, vals': Vals, e: Expr)
    requires i < |work| && SplitsAll(vals, work, e) && SpreadAll(vals, vals', work[i].val, work[i].cond)
    ensures SplitsAll(vals', work[..i] + work[i + 1..], e)
  {
    hide Eval, Splits, Spread, Ready;
    forall m | !Eval(e, m).Undef?
      ensures Splits(vals', work[..i] + work[i + 1..], Eval(e, m), m)
    {
      ReadyAt(vals, work, i, Eval(e, m), m);
      SpreadKeeps(vals, work, i, vals', Eval(e, m), m);
    }
  }

  /** Adding the whole value is one way to add it. */
  lemma {:induction false} AddSpreads(vals: Vals, v: Expr, c: Expr, s: Sort)
    requires WellSorted(vals, s) && Piece(v, c, s)
    ensures SpreadAll(vals, AddTo(vals, v, c, s), v, c)
  {
    hide Eval, WF, SortOf, AddTo, Ready, Spread, Piece, WellSorted;
    forall m | Ready(vals, v, c, m)
      ensures Spread(vals, AddTo(vals, v, c, s), Eval(v, m), c, m)
    {
      AddSpreadsAt(vals, v, c, s, m);
    }
  }

  lemma {:induction false} AddSpreadsAt(vals: Vals, v: Expr, c: Expr, s: Sort, m: Model)
    requires WellSorted(vals, s) && Piece(v, c, s) && Ready(vals, v, c, m)
    ensures Spread(vals, AddTo(vals, v, c, s), Eval(v, m), c, m)
  {
    hide Eval, WF, SortOf, AddTo, Piece, WellSorted;
    AddActive(vals, v, c, s, m);
    if On(c, m) {
      assert Only(AddTo(vals, v, c, s), v, m);
    }
  }

  function Branches(p: Pending, ghost s: Sort): (r: seq<Pending>)
    requires Piece(p.val, p.cond, s) && p.val.Ite?
    ensures WorkSorted(r, s) && |r| == 2
  {
    [Pending(p.val.t, MkAnd(p.cond, p.val.c)), Pending(p.val.e, MkAnd(p.cond, MkNot(p.val.c)))]
  }

  /** Exactly one branch of a pending if-then-else takes over. */
  lemma {:induction false} BranchConditions(p: Pending, s: Sort, m: Model)
    requires Piece(p.val, p.cond, s) && p.val.Ite? && Decided(p.val, p.cond, m)
    ensures WorkDecided(Branches(p, s), m)
    ensures !On(p.cond, m) ==> NoWork(Branches(p, s), m)
    ensures On(p.cond, m) ==> WorkPicks(Branches(p, s), Eval(p.val, m), m)
  {
    hide Eval, WF, SortOf, MkAnd, MkNot;
    var v, c := p.val, p.cond;
    OpenIte(v, m);
    MkNotMeans(v.c, m);
    MkAndMeans(c, v.c, m);
    MkAndMeans(c, MkNot(v.c), m);
    if On(c, m) {
      assert OnlyWork(Branches(p, s), if On(v.c, m) then 0 else 1, m);
    }
  }

  lemma {:induction false} BranchKeeps(vals: Vals, work: seq<Pending>, s: Sort, t: Value, m: Model)
    requires work != [] && WorkSorted(work, s) && Splits(vals, work, t, m) && work[|work| - 1].val.Ite?
    ensures Splits(vals, work[..|work| - 1] + Branches(work[|work| - 1], s), t, m)
  {
    hide Eval, Branches;
    var n := |work| - 1;
    var two := Branches(work[n], s);
    var work' := work[..n] + two;
    BranchConditions(work[n], s, m);
    ReadyAt(vals, work, n, t, m);
    if On(work[n].cond, m) {
      var i :| 0 <= i < 2 && OnlyWork(two, i, m) && Eval(two[i].val, m) == t;
      assert work'[n + i] == two[i];
      assert OnlyWork(work', n + i, m);
    } else if WorkPicks(work, t, m) {
      var k :| 0 <= k < |work| && OnlyWork(work, k, m) && Eval(work[k].val, m) == t;
      assert work'[k] == work[k] && OnlyWork(work', k, m);
    } else {
      assert NoWork(work', m);
    }
  }

  function TotalSize(work: seq<Pending>): nat {
    if work == [] then 0 else TotalSize(work[..|work| - 1]) + Size(work[|work| - 1].val)
  }

  lemma {:induction false} BranchesSmaller(work: seq<Pending>, s: Sort)
    requires work != [] && WorkSorted(work, s) && work[|work| - 1].val.Ite?
    ensures TotalSize(work[..|work| - 1] + Branches(work[|work| - 1], s)) < TotalSize(work)
  {
    hide Eval, WF, SortOf, Size, MkAnd, MkNot;
    var n := |work| - 1;
    var rest, two := work[..n], Branches(work[n], s);
    OpenIte(work[n].val, Model(map[], map[], map[]));
    assert (rest + two)[..n + 1] == rest + [two[0]];
    assert (rest + [two[0]])[..n] == rest;
  }

  lemma {:induction false} PopSmaller(work: seq<Pending>)
    requires work != []
    ensures TotalSize(work[..|work| - 1]) < TotalSize(work)
  {
  }

  // ---- The branches of an if-then-else ----

  ghost function IteLeaves(e: Expr): set<Expr> {
    if e.Ite? then IteLeaves(e.t) + IteLeaves(e.e) else {e}
  }

  ghost function LeafCount(e: Expr): (n: nat)
    ensures n > 0
  {
    if e.Ite? then LeafCount(e.t) + LeafCount(e.e) else 1
  }

  ghost predicate PlainLeaves(e: Expr) {
    forall x :: x in IteLeaves(e) ==> !x.Concat? && !x.Extract?
  }

  ghost function PendingLeaves(work: seq<Pending>): (n: nat)
    ensures n >= |work|
  {
    if work == [] then 0 else PendingLeaves(work[..|work| - 1]) + LeafCount(work[|work| - 1].val)
  }

  /** What one step does with an if-then-else or a value that is not taken apart. */
  ghost predicate Taken(vals: Vals, work: seq<Pending>, vals': Vals, work': seq<Pending>, s: Sort) {
    work != [] ==>
      var n := |work| - 1;
      var p := work[n];
      && Piece(p.val, p.cond, s) && WellSorted(vals, s)
      && (p.val.Ite? ==> vals' == vals && work' == work[..n] + Branches(p, s))
      && (!p.val.Ite? && !p.val.Concat? && !p.val.Extract? ==>
           vals' == AddTo(vals, p.val, p.cond, s) && work' == work[..n])
  }

  /** The values found and pending are branches of `e`, and no more than it has. */
  ghost predicate Unfinished(vals: Vals, work: seq<Pending>, e: Expr) {
    && vals.Keys <= IteLeaves(e) && |vals| + PendingLeaves(work) <= LeafCount(e)
    && forall i :: 0 <= i < |work| ==> IteLeaves(work[i].val) <= IteLeaves(e)
  }

  lemma {:induction false} LeavesStart(e: Expr)
    ensures Unfinished(map[], [Pending(e, Bool(true))], e)
  {
    var work := [Pending(e, Bool(true))];
    assert PendingLeaves(work[..0]) == 0;
  }

  lemma FewUnfinished(vals: Vals, work: seq<Pending>, e: Expr)
    requires Unfinished(vals, work, e)
    ensures |work| + |vals| <= LeafCount(e)
  {
  }

  lemma {:induction false} AddCounts(vals: Vals, val: Expr, dom: Expr, s: Sort)
    requires WellSorted(vals, s) && Piece(val, dom, s)
    ensures AddTo(vals, val, dom, s).Keys <= vals.Keys + {val} && |AddTo(vals, val, dom, s)| <= |vals| + 1
  {
    hide WF, SortOf, MkOr;
    var r := AddTo(vals, val, dom, s);
    KeysBound(r.Keys, vals.Keys, val);
    assert |r| == |r.Keys| && |vals| == |vals.Keys|;
  }

  lemma {:induction false} KeysBound(a: set<Expr>, b: set<Expr>, x: Expr)
    requires a <= b + {x}
    ensures |a| <= |b| + 1
  {
    SmallerSet(a, b + {x});
  }

  lemma {:induction false} SmallerSet(a: set<Expr>, b: set<Expr>)
    requires a <= b
    ensures |a| <= |b|
  {
    if a != {} {
      var x :| x in a;
      SmallerSet(a - {x}, b - {x});
    }
  }

  lemma {:induction false} StillUnfinished(vals: Vals, work: seq<Pending>, vals': Vals, work': seq<Pending>, e: Expr,
                                           s: Sort)
    requires work != [] && Unfinished(vals, work, e) && PlainLeaves(e) && Taken(vals, work, vals', work', s)
    ensures Unfinished(vals', work', e)
  {
    hide WF, SortOf, AddTo, MkAnd, MkNot, Unfinished, IteLeaves, LeafCount;
    var n := |work| - 1;
    var p := work[n];
    if p.val.Ite? {
      BranchUnfinished(vals, work, Branches(p, s), e);
    } else {
      LastIsPlain(vals, work, e);
      AddCounts(vals, p.val, p.cond, s);
      PopUnfinished(vals, work, vals', e);
    }
  }

  lemma {:induction false} BranchUnfinished(vals: Vals, work: seq<Pending>, two: seq<Pending>, e: Expr)
    requires work != [] && Unfinished(vals, work, e) && |two| == 2
    requires var v := work[|work| - 1].val; v.Ite? && two[0].val == v.t && two[1].val == v.e
    ensures Unfinished(vals, work[..|work| - 1] + two, e)
  {
    var n := |work| - 1;
    var work' := work[..n] + two;
    assert work'[..n + 1] == work[..n] + [two[0]] && work'[..n + 1][..n] == work[..n];
    assert PendingLeaves(work'[..n + 1]) == PendingLeaves(work[..n]) + LeafCount(two[0].val);
  }

  lemma LastIsPlain(vals: Vals, work: seq<Pending>, e: Expr)
    requires work != [] && Unfinished(vals, work, e) && PlainLeaves(e) && !work[|work| - 1].val.Ite?
    ensures !work[|work| - 1].val.Concat? && !work[|work| - 1].val.Extract?
  {
    var v := work[|work| - 1].val;
    assert v in IteLeaves(v);
  }

  lemma {:induction false} PopUnfinished(vals: Vals, work: seq<Pending>, vals': Vals, e: Expr)
    requires work != [] && Unfinished(vals, work, e)
    requires var v := work[|work| - 1].val; !v.Ite? && vals'.Keys <= vals.Keys + {v} && |vals'| <= |vals| + 1
    ensures Unfinished(vals', work[..|work| - 1], e)
  {
    var v := work[|work| - 1].val;
    assert v in IteLeaves(v);
  }

  lemma {:induction false} LeafIsNoIte(e: Expr, x: Expr)
    requires x in IteLeaves(e)
    ensures !x.Ite?
  {
    if e.Ite? {
      if x in IteLeaves(e.t) {
        LeafIsNoIte(e.t, x);
      } else {
        LeafIsNoIte(e.e, x);
      }
    }
  }

  lemma {:induction false} LeavesDone(vals: Vals, e: Expr)
    requires Unfinished(vals, [], e)
    ensures vals.Keys <= IteLeaves(e) && forall x :: x in vals ==> !x.Ite?
  {
    forall x | x in vals
      ensures !x.Ite?
    {
      assert x in vals.Keys;
      LeafIsNoIte(e, x);
    }
  }

  // ---- Taking a concatenation or an extraction apart ----

  /** One of the values in `todo` is active. */
  ghost predicate Waiting(vals: Vals, todo: set<Expr>, m: Model) {
    exists x :: x in todo && Active(vals, x, m)
  }

  /** The pieces of a value `t` added so far: the active one is among them unless it is
      still awaited. */
  ghost predicate Filling(vals0: Vals, vals: Vals, t: Value, c: Expr, waiting: bool, m: Model) {
    && AllDecided(vals, m)
    && (if !On(c, m) then SameActive(vals0, vals, m) else if waiting then NoneActive(vals, m) else Picks(vals, t, m))
  }

  lemma {:induction false} FillStep(vals0: Vals, vals: Vals, t: Value, c: Expr, waiting: bool, x: Expr, d: Expr,
                                    waiting': bool, s: Sort, m: Model)
    requires WellSorted(vals, s) && Piece(x, d, s)
    requires Filling(vals0, vals, t, c, waiting, m) && Decided(x, d, m)
    requires On(d, m) ==> On(c, m) && waiting && !waiting' && Eval(x, m) == t
    requires !On(d, m) && On(c, m) ==> waiting' == waiting
    ensures Filling(vals0, AddTo(vals, x, d, s), t, c, waiting', m)
  {
    hide Eval, WF, SortOf, AddTo;
    AddActive(vals, x, d, s, m);
    var vals' := AddTo(vals, x, d, s);
    if On(d, m) {
      assert Only(vals', x, m);
    } else if On(c, m) && !waiting {
      var y :| Only(vals, y, m) && Eval(y, m) == t;
      assert Only(vals', y, m);
    }
  }

  lemma {:induction false} WaitStep(vals: Vals, todo: set<Expr>, x: Expr, m: Model)
    requires x in todo && (exists y :: Only(vals, y, m))
    ensures Active(vals, x, m) ==> Waiting(vals, todo, m) && !Waiting(vals, todo - {x}, m)
    ensures !Active(vals, x, m) ==> Waiting(vals, todo - {x}, m) == Waiting(vals, todo, m)
  {
    hide Eval, On;
    if y :| y in todo && Active(vals, y, m) && y != x {
      assert y in todo - {x};
    }
  }

  /** Uses that the condition `cond` is known to be true, or false if `negate`. */
  function Simplify(e: Expr, cond: Expr, negate: bool): (r: Expr)
    requires WF(e)
    ensures WF(r) && SortOf(r) == SortOf(e)
  {
    if e.Bin? && e.op == OAdd && IsGuarded(e.b, cond) then MkAdd(e.a, Guarded(e.b, negate))
    else if e.Bin? && e.op == OAdd && IsGuarded(e.a, cond) then MkAdd(e.b, Guarded(e.a, negate))
    else e
  }

  predicate IsGuarded(e: Expr, cond: Expr) {
    e.Extract? && e.a.Ite? && e.a.c == cond
  }

  function Guarded(e: Expr, negate: bool): (r: Expr)
    requires WF(e) && e.Extract? && e.a.Ite?
    ensures WF(r) && SortOf(r) == SortOf(e)
  {
    assert WF(e.a) && IsBv(e.a) && e.low <= e.high < Width(e.a);
    assert WF(e.a.t) && WF(e.a.e) && SortOf(e.a.t) == SortOf(e.a.e) == SortOf(e.a);
    MkExtract(if negate then e.a.e else e.a.t, e.high, e.low, 3)
  }

  lemma {:induction false} GuardedMeans(e: Expr, cond: Expr, negate: bool, m: Model)
    requires WF(e) && IsGuarded(e, cond) && !Eval(e, m).Undef? && Eval(cond, m) == B(!negate)
    ensures Eval(Guarded(e, negate), m) == Eval(e, m)
  {
    hide Eval, WF, SortOf, Size, MkExtract;
    OpenExtract(e, m);
    OpenIte(e.a, m);
    MkExtractMeans(e.a.t, e.high, e.low, 3, m);
    MkExtractMeans(e.a.e, e.high, e.low, 3, m);
  }

  lemma {:induction false} SimplifyMeans(e: Expr, cond: Expr, negate: bool, m: Model)
    requires WF(e) && !Eval(e, m).Undef? && Eval(cond, m) == B(!negate)
    ensures Eval(Simplify(e, cond, negate), m) == Eval(e, m)
  {
    hide Eval, WF, SortOf, Size, MkAdd, Guarded;
    if e.Bin? && e.op == OAdd && IsGuarded(e.b, cond) {
      OpenBin(e, m);
      GuardedMeans(e.b, cond, negate, m);
      AddStays(e.a, e.b, Guarded(e.b, negate), m);
    } else if e.Bin? && e.op == OAdd && IsGuarded(e.a, cond) {
      OpenBin(e, m);
      OpCommutes(OAdd, Eval(e.a, m), Eval(e.b, m));
      GuardedMeans(e.a, cond, negate, m);
      AddStays(e.b, e.a, Guarded(e.a, negate), m);
    }
  }

  lemma {:induction false} AddStays(a: Expr, b: Expr, b': Expr, m: Model)
    requires SameBv(a, b) && SameBv(a, b') && Eval(b', m) == Eval(b, m) && !BinV(OAdd, Eval(a, m), Eval(b, m)).Undef?
    ensures Eval(MkAdd(a, b'), m) == BinV(OAdd, Eval(a, m), Eval(b, m))
  {
    hide Eval, WF, SortOf, Size, MkAdd;
    MkAddMeans(a, b', m);
  }

  // ---- The pieces of a concatenation ----

  /** What taking the two halves of `v` apart has given. */
  ghost predicate Halves(v: Expr, lhs: Vals, rhs: Vals) {
    && v.Concat? && WF(v)
    && WellSorted(lhs, SortOf(v.a)) && WellSorted(rhs, SortOf(v.b))
    && IsPartition(lhs, v.a) && IsPartition(rhs, v.b)
  }

  lemma {:induction false} HalvesPick(v: Expr, lhs: Vals, rhs: Vals, m: Model)
    requires Halves(v, lhs, rhs) && !Eval(v, m).Undef?
    ensures v.Concat? && AllDecided(lhs, m) && AllDecided(rhs, m)
    ensures Picks(lhs, Eval(v.a, m), m) && Picks(rhs, Eval(v.b, m), m)
    ensures Eval(v, m) == ConcatV(Eval(v.a, m), Eval(v.b, m))
  {
    hide Eval, WF, SortOf, WellSorted, Picks, AllDecided;
    OpenConcat(v, m);
  }

  ghost predicate IsBvPiece(x: Expr, d: Expr) {
    WF(x) && IsBv(x) && WF(d) && SortOf(d) == SBool
  }

  lemma {:induction false} HalvesSorted(v: Expr, lhs: Vals, rhs: Vals, l: Expr, r: Expr)
    requires Halves(v, lhs, rhs) && l in lhs && r in rhs
    ensures IsBvPiece(l, lhs[l]) && IsBvPiece(r, rhs[r]) && SortOf(v) == SBv(Width(l) + Width(r))
  {
    hide Eval, WF, SortOf, IsPartition;
    OpenConcat(v, Model(map[], map[], map[]));
    assert Piece(l, lhs[l], SortOf(v.a)) && Piece(r, rhs[r], SortOf(v.b));
  }

  /** The value for one pair of pieces. */
  lemma {:induction false} PairValue(v: Expr, lhs: Vals, rhs: Vals, l: Expr, r: Expr, r': Expr, m: Model)
    requires Halves(v, lhs, rhs) && !Eval(v, m).Undef? && Active(lhs, l, m) && Active(rhs, r, m)
    requires WF(r') && SortOf(r') == SortOf(r) && Eval(r', m) == Eval(r, m)
    ensures WF(l) && WF(r) && IsBv(l) && IsBv(r') && Eval(MkConcat(l, r'), m) == Eval(v, m)
  {
    hide Eval, WF, SortOf, MkConcat, Halves, On;
    HalvesPick(v, lhs, rhs, m);
    HalvesSorted(v, lhs, rhs, l, r);
    MkConcatMeans(l, r', m);
  }

  /** A piece whose domain is the same term on both sides. */
  lemma {:induction false} PairSame(vals0: Vals, vals: Vals, v: Expr, c: Expr, lhs: Vals, rhs: Vals,
                                    todo: set<Expr>, l: Expr, r: Expr, s: Sort, m: Model)
    requires Halves(v, lhs, rhs) && Piece(v, c, s) && WellSorted(vals, s) && Ready(vals0, v, c, m)
    requires l in todo && l in lhs && r in rhs && rhs[r] == lhs[l]
    requires Filling(vals0, vals, Eval(v, m), c, Waiting(lhs, todo, m), m)
    ensures IsBvPiece(l, lhs[l]) && IsBvPiece(r, rhs[r]) && Piece(MkConcat(l, r), MkAnd(c, lhs[l]), s)
    ensures Filling(vals0, AddTo(vals, MkConcat(l, r), MkAnd(c, lhs[l]), s), Eval(v, m), c,
                    Waiting(lhs, todo - {l}, m), m)
  {
    hide Eval, WF, SortOf, MkConcat, MkAnd, Halves, Filling, Waiting, AddTo;
    HalvesSorted(v, lhs, rhs, l, r);
    MkAndMeans(c, lhs[l], m);
    if On(c, m) {
      HalvesPick(v, lhs, rhs, m);
      assert Decided(l, lhs[l], m) && Decided(r, rhs[r], m);
      if Active(lhs, l, m) {
        PairValue(v, lhs, rhs, l, r, r, m);
      }
      WaitStep(lhs, todo, l, m);
    }
    FillStep(vals0, vals, Eval(v, m), c, Waiting(lhs, todo, m), MkConcat(l, r), MkAnd(c, lhs[l]),
             Waiting(lhs, todo - {l}, m), s, m);
  }

  /** The condition behind a negation, and whether there was one. */
  function Positive(d: Expr): (Expr, bool) {
    if d.Not? then (d.a, true) else (d, false)
  }

  function PairTerm(l: Expr, d: Expr, r: Expr): (x: Expr)
    requires IsBvPiece(l, d) && WF(r) && IsBv(r)
    ensures WF(x) && SortOf(x) == SBv(Width(l) + Width(r))
  {
    MkConcat(l, Simplify(r, Positive(d).0, Positive(d).1))
  }

  lemma {:induction false} PositiveMeans(d: Expr, m: Model)
    ensures On(d, m) ==> Eval(Positive(d).0, m) == B(!Positive(d).1)
  {
    hide Eval, WF, SortOf;
    if d.Not? { OpenNot(d, m); }
  }

  /** Whether the active piece is still to come, when `l` is being paired with `todoR`. */
  ghost predicate RowWaiting(lhs: Vals, rhs: Vals, rest: set<Expr>, l: Expr, todoR: set<Expr>, m: Model) {
    Waiting(lhs, rest, m) || (Active(lhs, l, m) && Waiting(rhs, todoR, m))
  }

  lemma {:induction false} PairTermValue(v: Expr, lhs: Vals, rhs: Vals, l: Expr, r: Expr, m: Model)
    requires Halves(v, lhs, rhs) && !Eval(v, m).Undef? && Active(lhs, l, m) && Active(rhs, r, m)
    ensures IsBvPiece(l, lhs[l]) && IsBvPiece(r, rhs[r]) && Eval(PairTerm(l, lhs[l], r), m) == Eval(v, m)
  {
    hide Eval, WF, SortOf, MkConcat, Halves, Simplify, Positive, On;
    HalvesSorted(v, lhs, rhs, l, r);
    HalvesPick(v, lhs, rhs, m);
    assert Decided(l, lhs[l], m) && Decided(r, rhs[r], m);
    PositiveMeans(lhs[l], m);
    SimplifyMeans(r, Positive(lhs[l]).0, Positive(lhs[l]).1, m);
    PairValue(v, lhs, rhs, l, r, Simplify(r, Positive(lhs[l]).0, Positive(lhs[l]).1), m);
  }

  lemma {:induction false} PairStep(vals0: Vals, vals: Vals, v: Expr, c: Expr, lhs: Vals, rhs: Vals,
                                    rest: set<Expr>, l: Expr, todoR: set<Expr>, r: Expr, s: Sort, m: Model)
    requires Halves(v, lhs, rhs) && Piece(v, c, s) && WellSorted(vals, s) && Ready(vals0, v, c, m)
    requires l in lhs && l !in rest && r in rhs && r in todoR
    requires Filling(vals0, vals, Eval(v, m), c, RowWaiting(lhs, rhs, rest, l, todoR, m), m)
    requires IsBvPiece(l, lhs[l]) && IsBvPiece(r, rhs[r])
    requires Piece(PairTerm(l, lhs[l], r), MkAnd(MkAnd(c, lhs[l]), rhs[r]), s)
    ensures Filling(vals0, AddTo(vals, PairTerm(l, lhs[l], r), MkAnd(MkAnd(c, lhs[l]), rhs[r]), s), Eval(v, m), c,
                    RowWaiting(lhs, rhs, rest, l, todoR - {r}, m), m)
  {
    hide Eval, WF, SortOf, PairTerm, MkAnd, Halves, Filling, Waiting, AddTo;
    MkAndMeans(c, lhs[l], m);
    MkAndMeans(MkAnd(c, lhs[l]), rhs[r], m);
    if On(c, m) {
      HalvesPick(v, lhs, rhs, m);
      assert Decided(l, lhs[l], m) && Decided(r, rhs[r], m);
      if Active(lhs, l, m) && Active(rhs, r, m) {
        PairTermValue(v, lhs, rhs, l, r, m);
      }
      WaitStep(rhs, todoR, r, m);
      WaitStep(lhs, rest + {l}, l, m);
      assert rest + {l} - {l} == rest;
    }
    FillStep(vals0, vals, Eval(v, m), c, RowWaiting(lhs, rhs, rest, l, todoR, m),
             PairTerm(l, lhs[l], r), MkAnd(MkAnd(c, lhs[l]), rhs[r]),
             RowWaiting(lhs, rhs, rest, l, todoR - {r}, m), s, m);
  }

  // ---- The pieces of an extraction ----

  lemma {:induction false} ExtractStep(vals0: Vals, vals: Vals, v: Expr, c: Expr, inner: Vals, todo: set<Expr>,
                                       x: Expr, s: Sort, m: Model)
    requires v.Extract? && Piece(v, c, s) && WellSorted(vals, s) && Ready(vals0, v, c, m)
    requires WellSorted(inner, SortOf(v.a)) && IsPartition(inner, v.a) && x in inner && x in todo
    requires Filling(vals0, vals, Eval(v, m), c, Waiting(inner, todo, m), m)
    ensures IsBvPiece(x, inner[x]) && v.low <= v.high < Width(x) &&
      Piece(MkExtract(x, v.high, v.low, 3), MkAnd(c, inner[x]), s)
    ensures Filling(vals0, AddTo(vals, MkExtract(x, v.high, v.low, 3), MkAnd(c, inner[x]), s), Eval(v, m), c,
                    Waiting(inner, todo - {x}, m), m)
  {
    hide Eval, WF, SortOf, MkExtract, MkAnd, Filling, Waiting, AddTo;
    OpenExtract(v, m);
    assert Piece(x, inner[x], SortOf(v.a));
    MkAndMeans(c, inner[x], m);
    if On(c, m) {
      assert Decided(x, inner[x], m);
      MkExtractMeans(x, v.high, v.low, 3, m);
      WaitStep(inner, todo, x, m);
    }
    FillStep(vals0, vals, Eval(v, m), c, Waiting(inner, todo, m), MkExtract(x, v.high, v.low, 3), MkAnd(c, inner[x]),
             Waiting(inner, todo - {x}, m), s, m);
  }

  // ---- The map ----

  /** The value of the one domain that holds. */
  ghost predicate Selects(vals: Vals, r: Expr) {
    forall m :: AllDecided(vals, m) ==> forall x :: Only(vals, x, m) ==> Eval(r, m) == Eval(x, m)
  }

  /** Whichever domains hold, the term has the value of some entry if all have one. */
  ghost predicate AmongValues(vals: Vals, r: Expr) {
    forall m :: AllDecided(vals, m) && Valued(vals, m) ==> HasSomeValue(vals, r, m)
  }

  ghost predicate HasSomeValue(vals: Vals, r: Expr, m: Model) {
    exists x :: x in vals && Eval(r, m) == Eval(x, m)
  }

  class DisjointExpr {
    var vals: Vals
    var default: Option<Expr>

    constructor (default: Option<Expr>)
      ensures vals == map[] && this.default == default
    {
      vals, this.default := map[], default;
    }

    method Add(val: Expr, domain: Expr, ghost s: Sort)
      requires WellSorted(vals, s) && Piece(val, domain, s)
      modifies this`vals
      ensures vals == AddTo(old(vals), val, domain, s)
    {
      hide Eval, WF, SortOf, MkOr;
      if IsFalse(domain) {
        return;
      }
      if IsTrue(domain) {
        vals := map[];
      }
      if val in vals {
        vals := vals[val := MkOr(vals[val], domain)];
      } else {
        vals := vals[val := domain];
      }
    }

    /** Takes `e` apart, down to `depth` nested concatenations and extractions. `memory` says that
        memory never runs short. If-then-elses of moderate size are taken apart to the end. */
    constructor Split(e: Expr, depth: nat, memory: bool)
      requires WF(e)
      ensures WellSorted(vals, SortOf(e)) && IsPartition(vals, e) && default == None
      ensures memory && depth > 0 && LeafCount(e) < 32 && PlainLeaves(e) ==>
        vals.Keys <= IteLeaves(e) && forall x :: x in vals ==> !x.Ite?
      decreases depth, 0
    {
      hide Eval, WF, SortOf, Size, SplitsAll, IsPartition, TotalSize, WellSorted, WorkSorted, Unfinished, PlainLeaves,
           LeafCount;
      vals, default := map[], None;
      new;
      ghost var s := SortOf(e);
      StartSplits(e);
      if depth == 0 {
        Add(e, Bool(true), s);
        AddLast(map[], vals, [Pending(e, Bool(true))], e, s);
        return;
      }
      var work := [Pending(e, Bool(true))];
      LeavesStart(e);
      while work != []
        invariant WellSorted(vals, s) && WorkSorted(work, s) && SplitsAll(vals, work, e) && default == None
        invariant memory && LeafCount(e) < 32 && PlainLeaves(e) ==> Unfinished(vals, work, e)
        decreases TotalSize(work)
      {
        var halfMemory: bool := *;
        if memory {
          halfMemory := false;
        }
        ghost var was := vals;
        if memory && LeafCount(e) < 32 && PlainLeaves(e) {
          FewUnfinished(vals, work, e);
        }
        if |work| + |vals| >= 32 || halfMemory {
          AddAll(work, e, s);
          work := [];
          break;
        }
        ghost var pending := work;
        work := Step(work, depth - 1, memory, e, s);
        if memory && LeafCount(e) < 32 && PlainLeaves(e) {
          StillUnfinished(was, pending, vals, work, e, s);
        }
      }
      SplitsDone(vals, e);
      if memory && LeafCount(e) < 32 && PlainLeaves(e) {
        LeavesDone(vals, e);
      }
    }

    /** Stops taking apart: what is pending is added as it is. */
    method AddAll(work: seq<Pending>, ghost e: Expr, ghost s: Sort)
      requires WellSorted(vals, s) && WorkSorted(work, s) && SplitsAll(vals, work, e)
      modifies this`vals
      ensures WellSorted(vals, s) && SplitsAll(vals, [], e)
    {
      hide Eval, WF, SortOf, Size, SplitsAll, WellSorted, AddTo;
      var i := 0;
      assert work[0..] == work;
      while i < |work|
        invariant 0 <= i <= |work| && WellSorted(vals, s) && SplitsAll(vals, work[i..], e)
      {
        AddSpreads(vals, work[i].val, work[i].cond, s);
        SpreadKeepsAll(vals, work[i..], 0, AddTo(vals, work[i].val, work[i].cond, s), e);
        assert work[i..][..0] + work[i..][1..] == work[i + 1..];
        Add(work[i].val, work[i].cond, s);
        i := i + 1;
      }
      assert work[i..] == [];
    }

    /** Takes the last pending value apart by one level. */
    method Step(work0: seq<Pending>, depth: nat, memory: bool, ghost e: Expr, ghost s: Sort)
      returns (work: seq<Pending>)
      requires work0 != [] && WellSorted(vals, s) && WorkSorted(work0, s) && SplitsAll(vals, work0, e)
      modifies this`vals
      ensures WellSorted(vals, s) && WorkSorted(work, s) && SplitsAll(vals, work, e)
      ensures TotalSize(work) < TotalSize(work0)
      ensures Taken(old(vals), work0, vals, work, s)
      decreases depth, 2
    {
      hide Eval, WF, SortOf, Size, SplitsAll, SpreadAll, TotalSize, WellSorted, Branches, AddTo;
      var n := |work0| - 1;
      var v, c := work0[n].val, work0[n].cond;
      work := work0[..n];
      PopSmaller(work0);
      if v.Ite? {
        BranchesSmaller(work0, s);
        BranchKeepsAll(vals, work0, s, e);
        work := work + Branches(work0[n], s);
      } else {
        ghost var vals0 := vals;
        if v.Concat? {
          SplitConcat(v, c, depth, memory, s);
        } else if v.Extract? {
          SplitExtract(v, c, depth, memory, s);
        } else {
          AddSpreads(vals, v, c, s);
          Add(v, c, s);
        }
        SpreadKeepsAll(vals0, work0, n, vals, e);
        assert work0[..n] + work0[n + 1..] == work;
      }
    }

    method SplitConcat(v: Expr, c: Expr, depth: nat, memory: bool, ghost s: Sort)
      requires v.Concat? && WellSorted(vals, s) && Piece(v, c, s)
      modifies this`vals
      ensures WellSorted(vals, s) && SpreadAll(old(vals), vals, v, c)
      decreases depth, 1
    {
      hide Eval, WF, SortOf, Size, SpreadAll, WellSorted, IsPartition, AddTo;
      OpenConcat(v, Model(map[], map[], map[]));
      var lhs := new DisjointExpr.Split(v.a, depth, memory);
      var rhs := new DisjointExpr.Split(v.b, depth, memory);
      if |lhs.vals| == 1 && |rhs.vals| == 1 {
        AddSpreads(vals, v, c, s);
        Add(v, c, s);
      } else {
        PairAll(v, c, lhs.vals, rhs.vals, s);
      }
    }

    /** Adds every pair of pieces of the two halves. */
    method PairAll(v: Expr, c: Expr, lhs: Vals, rhs: Vals, ghost s: Sort)
      requires Halves(v, lhs, rhs) && WellSorted(vals, s) && Piece(v, c, s)
      modifies this`vals
      ensures WellSorted(vals, s) && SpreadAll(old(vals), vals, v, c)
    {
      hide Eval, WF, SortOf, Size, SpreadAll, WellSorted, Halves, FillingAll, MkConcat, MkAnd, AddTo;
      ghost var vals0 := vals;
      var todo := lhs.Keys;
      FillStarts(vals, v, c, lhs, rhs);
      while todo != {}
        invariant todo <= lhs.Keys && WellSorted(vals, s) && FillingAll(vals0, vals, v, c, lhs, todo)
        decreases |todo|
      {
        var l :| l in todo;
        var same := LookupIn(rhs, lhs[l]);
        if same.Some? {
          PairSameAll(vals0, vals, v, c, lhs, rhs, todo, l, same.value, s);
          Add(MkConcat(l, same.value), MkAnd(c, lhs[l]), s);
        } else {
          assert todo - {l} + {l} == todo;
          PairRow(v, c, lhs, rhs, todo - {l}, l, vals0, s);
        }
        todo := todo - {l};
      }
      FillEnds(vals0, vals, v, c, lhs);
    }

    /** Adds the pairs of one piece of the left half. */
    method PairRow(v: Expr, c: Expr, lhs: Vals, rhs: Vals, ghost rest: set<Expr>, l: Expr, ghost vals0: Vals,
                   ghost s: Sort)
      requires Halves(v, lhs, rhs) && WellSorted(vals, s) && Piece(v, c, s) && l in lhs && l !in rest
      requires FillingAll(vals0, vals, v, c, lhs, rest + {l})
      modifies this`vals
      ensures WellSorted(vals, s) && FillingAll(vals0, vals, v, c, lhs, rest)
    {
      hide Eval, WF, SortOf, Size, SpreadAll, WellSorted, Halves, FillingAll, FillingRow, PairTerm, MkAnd, AddTo;
      var todoR := rhs.Keys;
      RowStarts(vals0, vals, v, c, lhs, rhs, rest, l);
      while todoR != {}
        invariant todoR <= rhs.Keys && WellSorted(vals, s) && FillingRow(vals0, vals, v, c, lhs, rhs, rest, l, todoR)
        decreases |todoR|
      {
        var r :| r in todoR;
        PairStepAll(vals0, vals, v, c, lhs, rhs, rest, l, todoR, r, s);
        Add(PairTerm(l, lhs[l], r), MkAnd(MkAnd(c, lhs[l]), rhs[r]), s);
        todoR := todoR - {r};
      }
      RowEnds(vals0, vals, v, c, lhs, rhs, rest, l);
    }

    method SplitExtract(v: Expr, c: Expr, depth: nat, memory: bool, ghost s: Sort)
      requires v.Extract? && WellSorted(vals, s) && Piece(v, c, s)
      modifies this`vals
      ensures WellSorted(vals, s) && SpreadAll(old(vals), vals, v, c)
      decreases depth, 1
    {
      hide Eval, WF, SortOf, Size, SpreadAll, WellSorted, IsPartition, FillingAll, MkExtract, MkAnd, AddTo;
      OpenExtract(v, Model(map[], map[], map[]));
      var inner := new DisjointExpr.Split(v.a, depth, memory);
      if |inner.vals| == 1 {
        AddSpreads(vals, v, c, s);
        Add(v, c, s);
        return;
      }
      ghost var vals0 := vals;
      var parts := inner.vals;
      var todo := parts.Keys;
      ExtractStarts(vals, v, c, parts);
      while todo != {}
        invariant todo <= parts.Keys && WellSorted(vals, s) && FillingAll(vals0, vals, v, c, parts, todo)
        decreases |todo|
      {
        var x :| x in todo;
        ExtractStepAll(vals0, vals, v, c, parts, todo, x, s);
        Add(MkExtract(x, v.high, v.low, 3), MkAnd(c, parts[x]), s);
        todo := todo - {x};
      }
      FillEnds(vals0, vals, v, c, parts);
    }

    /** A value whose domain is the term `domain`. */
    static method LookupIn(vals: Vals, domain: Expr) returns (r: Option<Expr>)
      ensures r.Some? ==> r.value in vals && vals[r.value] == domain
      ensures r.None? ==> forall x :: x in vals ==> vals[x] != domain
    {
      var todo := vals.Keys;
      while todo != {}
        invariant todo <= vals.Keys && forall x :: x in vals && x !in todo ==> vals[x] != domain
        decreases |todo|
      {
        var x :| x in todo;
        if vals[x] == domain {
          return Some(x);
        }
        todo := todo - {x};
      }
      return None;
    }

    /** One term for all the values. */
    method Value(ghost s: Sort) returns (r: Option<Expr>)
      requires WellSorted(vals, s)
      ensures vals == map[] ==> r == default
      ensures vals != map[] ==>
        r.Some? && WF(r.value) && SortOf(r.value) == s && Selects(vals, r.value) && AmongValues(vals, r.value)
      ensures |vals| == 1 ==> r.Some? && r.value in vals
    {
      hide Eval, WF, SortOf, Size, Selects, SelectsFrom, MkIf, AmongValues;
      r := None;
      var todo := vals.Keys;
      while todo != {}
        invariant todo <= vals.Keys && (r.None? ==> todo == vals.Keys) && (r.Some? ==> vals != map[])
        invariant r.Some? ==>
          WF(r.value) && SortOf(r.value) == s && SelectsFrom(vals, todo, r.value) && AmongValues(vals, r.value)
        invariant |vals| == 1 && r.Some? ==> r.value in vals && |todo| == 0
        decreases |todo|
      {
        var x :| x in todo;
        assert Piece(x, vals[x], s);
        if IsTrue(vals[x]) {
          SelectsTrue(vals, x);
          EntryAmong(vals, x);
          return Some(x);
        }
        if r.Some? {
          SelectStep(vals, todo, x, r.value, s);
          StepAmong(vals, x, r.value, s);
          r := Some(MkIf(vals[x], x, r.value));
        } else {
          SelectFirst(vals, x);
          EntryAmong(vals, x);
          r := Some(x);
        }
        todo := todo - {x};
      }
      if r.None? {
        assert vals == map[];
        r := default;
      } else {
        SelectsAll(vals, r.value);
      }
    }
  }

  // ---- Steps for every valuation at once ----

  lemma {:induction false} StartSplits(e: Expr)
    requires WF(e)
    ensures Piece(e, Bool(true), SortOf(e)) && WellSorted(map[], SortOf(e)) &&
      WorkSorted([Pending(e, Bool(true))], SortOf(e))
    ensures SplitsAll(map[], [Pending(e, Bool(true))], e)
  {
    hide Eval, WF, SortOf;
    var work := [Pending(e, Bool(true))];
    OpenBool(Bool(true), Model(map[], map[], map[]));
    forall m | !Eval(e, m).Undef?
      ensures Splits(map[], work, Eval(e, m), m)
    {
      OpenBool(Bool(true), m);
      assert OnlyWork(work, 0, m);
    }
  }

  lemma {:induction false} SplitsDone(vals: Vals, e: Expr)
    requires SplitsAll(vals, [], e)
    ensures IsPartition(vals, e)
  {
    hide Eval, Picks, AllDecided;
  }

  lemma {:induction false} AddLast(vals: Vals, vals': Vals, work: seq<Pending>, e: Expr, s: Sort)
    requires |work| == 1 && WellSorted(vals, s) && WorkSorted(work, s) && SplitsAll(vals, work, e)
    requires vals' == AddTo(vals, work[0].val, work[0].cond, s)
    ensures IsPartition(vals', e)
  {
    hide Eval, WF, SortOf, SplitsAll, SpreadAll, AddTo, IsPartition;
    AddSpreads(vals, work[0].val, work[0].cond, s);
    SpreadKeepsAll(vals, work, 0, vals', e);
    assert work[..0] + work[1..] == [];
    SplitsDone(vals', e);
  }

  lemma {:induction false} BranchKeepsAll(vals: Vals, work: seq<Pending>, s: Sort, e: Expr)
    requires work != [] && WorkSorted(work, s) && SplitsAll(vals, work, e) && work[|work| - 1].val.Ite?
    ensures SplitsAll(vals, work[..|work| - 1] + Branches(work[|work| - 1], s), e)
  {
    hide Eval, WF, SortOf, Splits, Branches;
    forall m | !Eval(e, m).Undef?
      ensures Splits(vals, work[..|work| - 1] + Branches(work[|work| - 1], s), Eval(e, m), m)
    {
      BranchKeeps(vals, work, s, Eval(e, m), m);
    }
  }

  ghost predicate FillingAll(vals0: Vals, vals: Vals, v: Expr, c: Expr, inner: Vals, todo: set<Expr>) {
    forall m :: Ready(vals0, v, c, m) ==> Filling(vals0, vals, Eval(v, m), c, Waiting(inner, todo, m), m)
  }

  ghost predicate FillingRow(vals0: Vals, vals: Vals, v: Expr, c: Expr, lhs: Vals, rhs: Vals, rest: set<Expr>, l: Expr,
                             todoR: set<Expr>) {
    forall m :: Ready(vals0, v, c, m) ==>
      Filling(vals0, vals, Eval(v, m), c, RowWaiting(lhs, rhs, rest, l, todoR, m), m)
  }

  lemma {:induction false} PicksWaiting(vals: Vals, t: Value, m: Model)
    requires Picks(vals, t, m)
    ensures Waiting(vals, vals.Keys, m)
  {
    hide Eval;
  }

  lemma {:induction false} FillStarts(vals: Vals, v: Expr, c: Expr, lhs: Vals, rhs: Vals)
    requires Halves(v, lhs, rhs)
    ensures FillingAll(vals, vals, v, c, lhs, lhs.Keys)
  {
    hide Eval, WF, SortOf, Halves, Waiting;
    forall m | Ready(vals, v, c, m)
      ensures Filling(vals, vals, Eval(v, m), c, Waiting(lhs, lhs.Keys, m), m)
    {
      if On(c, m) {
        HalvesPick(v, lhs, rhs, m);
        PicksWaiting(lhs, Eval(v.a, m), m);
      }
    }
  }

  lemma {:induction false} ExtractStarts(vals: Vals, v: Expr, c: Expr, inner: Vals)
    requires v.Extract? && IsPartition(inner, v.a)
    ensures FillingAll(vals, vals, v, c, inner, inner.Keys)
  {
    hide Eval, WF, SortOf, Waiting;
    forall m | Ready(vals, v, c, m)
      ensures Filling(vals, vals, Eval(v, m), c, Waiting(inner, inner.Keys, m), m)
    {
      if On(c, m) {
        OpenExtract(v, m);
        PicksWaiting(inner, Eval(v.a, m), m);
      }
    }
  }

  lemma {:induction false} FillEnds(vals0: Vals, vals: Vals, v: Expr, c: Expr, inner: Vals)
    requires FillingAll(vals0, vals, v, c, inner, {})
    ensures SpreadAll(vals0, vals, v, c)
  {
    hide Eval, Ready, Picks, AllDecided, SameActive;
    forall m | Ready(vals0, v, c, m)
      ensures Spread(vals0, vals, Eval(v, m), c, m)
    {
      assert !Waiting(inner, {}, m);
    }
  }

  lemma {:induction false} PairSameAll(vals0: Vals, vals: Vals, v: Expr, c: Expr, lhs: Vals, rhs: Vals,
                                       todo: set<Expr>, l: Expr, r: Expr, s: Sort)
    requires Halves(v, lhs, rhs) && Piece(v, c, s) && WellSorted(vals, s) && FillingAll(vals0, vals, v, c, lhs, todo)
    requires l in todo && l in lhs && r in rhs && rhs[r] == lhs[l]
    ensures IsBvPiece(l, lhs[l]) && IsBvPiece(r, rhs[r]) && Piece(MkConcat(l, r), MkAnd(c, lhs[l]), s)
    ensures FillingAll(vals0, AddTo(vals, MkConcat(l, r), MkAnd(c, lhs[l]), s), v, c, lhs, todo - {l})
  {
    hide Eval, WF, SortOf, MkConcat, MkAnd, Halves, Filling, Waiting, AddTo, Ready, WellSorted;
    HalvesSorted(v, lhs, rhs, l, r);
    forall m | Ready(vals0, v, c, m)
      ensures Filling(vals0, AddTo(vals, MkConcat(l, r), MkAnd(c, lhs[l]), s), Eval(v, m), c,
                      Waiting(lhs, todo - {l}, m), m)
    {
      PairSame(vals0, vals, v, c, lhs, rhs, todo, l, r, s, m);
    }
  }

  lemma {:induction false} RowIsWaiting(lhs: Vals, rhs: Vals, rest: set<Expr>, l: Expr, m: Model)
    requires Waiting(rhs, rhs.Keys, m)
    ensures Waiting(lhs, rest + {l}, m) == RowWaiting(lhs, rhs, rest, l, rhs.Keys, m)
  {
    hide Eval, On;
    if x :| x in rest && Active(lhs, x, m) {
      assert x in rest + {l};
    }
    assert l in rest + {l};
  }

  lemma {:induction false} RowStarts(vals0: Vals, vals: Vals, v: Expr, c: Expr, lhs: Vals, rhs: Vals, rest: set<Expr>,
                                     l: Expr)
    requires Halves(v, lhs, rhs) && FillingAll(vals0, vals, v, c, lhs, rest + {l})
    ensures FillingRow(vals0, vals, v, c, lhs, rhs, rest, l, rhs.Keys)
  {
    hide Eval, WF, SortOf, Halves, On, AllDecided, SameActive, NoneActive, Picks;
    forall m | Ready(vals0, v, c, m)
      ensures Filling(vals0, vals, Eval(v, m), c, RowWaiting(lhs, rhs, rest, l, rhs.Keys, m), m)
    {
      assert Filling(vals0, vals, Eval(v, m), c, Waiting(lhs, rest + {l}, m), m);
      if On(c, m) {
        HalvesPick(v, lhs, rhs, m);
        PicksWaiting(rhs, Eval(v.b, m), m);
        RowIsWaiting(lhs, rhs, rest, l, m);
      }
    }
  }

  lemma {:induction false} RowEnds(vals0: Vals, vals: Vals, v: Expr, c: Expr, lhs: Vals, rhs: Vals, rest: set<Expr>,
                                   l: Expr)
    requires FillingRow(vals0, vals, v, c, lhs, rhs, rest, l, {})
    ensures FillingAll(vals0, vals, v, c, lhs, rest)
  {
    hide Eval, Filling, Ready, On;
    forall m | Ready(vals0, v, c, m)
      ensures Filling(vals0, vals, Eval(v, m), c, Waiting(lhs, rest, m), m)
    {
      assert RowWaiting(lhs, rhs, rest, l, {}, m) == Waiting(lhs, rest, m);
    }
  }

  lemma {:induction false} PairStepAll(vals0: Vals, vals: Vals, v: Expr, c: Expr, lhs: Vals, rhs: Vals,
                                       rest: set<Expr>, l: Expr, todoR: set<Expr>, r: Expr, s: Sort)
    requires Halves(v, lhs, rhs) && Piece(v, c, s) && WellSorted(vals, s)
    requires l in lhs && l !in rest && r in rhs && r in todoR
    requires FillingRow(vals0, vals, v, c, lhs, rhs, rest, l, todoR)
    ensures IsBvPiece(l, lhs[l]) && IsBvPiece(r, rhs[r])
    ensures Piece(PairTerm(l, lhs[l], r), MkAnd(MkAnd(c, lhs[l]), rhs[r]), s)
    ensures FillingRow(vals0, AddTo(vals, PairTerm(l, lhs[l], r), MkAnd(MkAnd(c, lhs[l]), rhs[r]), s), v, c, lhs, rhs,
                       rest, l, todoR - {r})
  {
    hide Eval, WF, SortOf, PairTerm, MkAnd, Halves, Filling, RowWaiting, AddTo, Ready, WellSorted;
    HalvesSorted(v, lhs, rhs, l, r);
    forall m | Ready(vals0, v, c, m)
      ensures Filling(vals0, AddTo(vals, PairTerm(l, lhs[l], r), MkAnd(MkAnd(c, lhs[l]), rhs[r]), s), Eval(v, m), c,
                      RowWaiting(lhs, rhs, rest, l, todoR - {r}, m), m)
    {
      PairStep(vals0, vals, v, c, lhs, rhs, rest, l, todoR, r, s, m);
    }
  }

  lemma {:induction false} ExtractStepAll(vals0: Vals, vals: Vals, v: Expr, c: Expr, inner: Vals, todo: set<Expr>,
                                          x: Expr, s: Sort)
    requires v.Extract? && Piece(v, c, s) && WellSorted(vals, s)
    requires WellSorted(inner, SortOf(v.a)) && IsPartition(inner, v.a) && x in inner && x in todo
    requires FillingAll(vals0, vals, v, c, inner, todo)
    ensures IsBvPiece(x, inner[x]) && v.low <= v.high < Width(x) &&
      Piece(MkExtract(x, v.high, v.low, 3), MkAnd(c, inner[x]), s)
    ensures FillingAll(vals0, AddTo(vals, MkExtract(x, v.high, v.low, 3), MkAnd(c, inner[x]), s), v, c, inner,
                       todo - {x})
  {
    hide Eval, WF, SortOf, MkExtract, MkAnd, Filling, Waiting, AddTo, Ready, IsPartition;
    OpenExtract(v, Model(map[], map[], map[]));
    assert Piece(x, inner[x], SortOf(v.a));
    forall m | Ready(vals0, v, c, m)
      ensures Filling(vals0, AddTo(vals, MkExtract(x, v.high, v.low, 3), MkAnd(c, inner[x]), s), Eval(v, m), c,
                      Waiting(inner, todo - {x}, m), m)
    {
      ExtractStep(vals0, vals, v, c, inner, todo, x, s, m);
    }
  }

  // ---- Joining the values into one term ----

  ghost predicate SelectsFrom(vals: Vals, todo: set<Expr>, r: Expr) {
    forall m :: AllDecided(vals, m) ==> forall x :: Only(vals, x, m) && x !in todo ==> Eval(r, m) == Eval(x, m)
  }

  lemma {:induction false} SelectsTrue(vals: Vals, x: Expr)
    requires x in vals && IsTrue(vals[x])
    ensures Selects(vals, x)
  {
    hide Eval;
    forall m | AllDecided(vals, m)
      ensures forall y :: Only(vals, y, m) ==> Eval(x, m) == Eval(y, m)
    {
      OpenBool(Bool(true), m);
      assert Active(vals, x, m) && Decided(x, vals[x], m);
    }
  }

  lemma {:induction false} SelectFirst(vals: Vals, x: Expr)
    requires x in vals
    ensures SelectsFrom(vals, vals.Keys - {x}, x)
  {
    hide Eval, On;
    forall m | AllDecided(vals, m)
      ensures forall y :: Only(vals, y, m) && y !in vals.Keys - {x} ==> Eval(x, m) == Eval(y, m)
    {
      assert Decided(x, vals[x], m);
    }
  }

  lemma {:induction false} SelectStep(vals: Vals, todo: set<Expr>, x: Expr, r: Expr, s: Sort)
    requires WellSorted(vals, s) && x in vals && x in todo && WF(r) && SortOf(r) == s && SelectsFrom(vals, todo, r)
    ensures Piece(x, vals[x], s) && SelectsFrom(vals, todo - {x}, MkIf(vals[x], x, r))
  {
    hide Eval, WF, SortOf, MkIf;
    assert Piece(x, vals[x], s);
    var r' := MkIf(vals[x], x, r);
    forall m | AllDecided(vals, m)
      ensures forall y :: Only(vals, y, m) && y !in todo - {x} ==> Eval(r', m) == Eval(y, m)
    {
      assert Decided(x, vals[x], m);
      assert On(vals[x], m) ==> Active(vals, x, m);
      MkIfMeans(vals[x], x, r, m);
      forall y | Only(vals, y, m) && y !in todo - {x}
        ensures Eval(r', m) == Eval(y, m)
      {
        assert Decided(y, vals[y], m);
      }
    }
  }

  lemma {:induction false} EntryAmong(vals: Vals, x: Expr)
    requires x in vals
    ensures AmongValues(vals, x)
  {
    hide Eval, AllDecided;
    forall m | AllDecided(vals, m) && Valued(vals, m)
      ensures HasSomeValue(vals, x, m)
    {
      assert Eval(x, m) == Eval(x, m);
    }
  }

  lemma {:induction false} StepAmong(vals: Vals, x: Expr, r: Expr, s: Sort)
    requires WellSorted(vals, s) && x in vals && WF(r) && SortOf(r) == s && AmongValues(vals, r)
    ensures Piece(x, vals[x], s) && AmongValues(vals, MkIf(vals[x], x, r))
  {
    hide Eval, WF, SortOf, MkIf, HasSomeValue;
    assert Piece(x, vals[x], s);
    forall m | AllDecided(vals, m) && Valued(vals, m)
      ensures HasSomeValue(vals, MkIf(vals[x], x, r), m)
    {
      assert HasSomeValue(vals, r, m);
      ChosenAmong(vals, x, r, s, m);
    }
  }

  lemma {:induction false} ChosenAmong(vals: Vals, x: Expr, r: Expr, s: Sort, m: Model)
    requires WellSorted(vals, s) && x in vals && WF(r) && SortOf(r) == s && HasSomeValue(vals, r, m) &&
      AllDecided(vals, m) && Valued(vals, m)
    requires Piece(x, vals[x], s)
    ensures HasSomeValue(vals, MkIf(vals[x], x, r), m)
  {
    hide Eval, WF, SortOf, MkIf;
    var y :| y in vals && Eval(r, m) == Eval(y, m);
    assert Decided(x, vals[x], m);
    MkIfMeans(vals[x], x, r, m);
  }

  lemma {:induction false} SelectsAll(vals: Vals, r: Expr)
    requires SelectsFrom(vals, {}, r)
    ensures Selects(vals, r)
  {
    hide Eval, Only, AllDecided;
  }

  /** Taking a term apart and joining the pieces again gives a term with the same value. */
  lemma {:induction false} RebuildIsSame(vals: Vals, e: Expr, r: Expr, m: Model)
    requires IsPartition(vals, e) && Selects(vals, r) && !Eval(e, m).Undef?
    ensures Eval(r, m) == Eval(e, m)
  {
    hide Eval, Only, AllDecided;
  }
}

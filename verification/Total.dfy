/** Terms that have a value under every valuation, and joining them. */
module Total {
  import opened Terms
  import opened SmartExpr
  import opened SmartMeaning
  import opened Disjoint

  ghost predicate IsTotal(e: Expr, s: Sort) {
    WF(e) && SortOf(e) == s && forall m :: !Eval(e, m).Undef?
  }

  lemma {:induction false} TotalBool(e: Expr, m: Model)
    requires IsTotal(e, SBool)
    ensures Eval(e, m) == B(On(e, m))
  {
    hide Eval, WF, SortOf;
    EvalSort(e, m);
  }

  lemma {:induction false} ConstTotal(b: bool)
    ensures IsTotal(Bool(b), SBool)
    ensures forall m :: On(Bool(b), m) <==> b
  {
  }

  lemma {:induction false} NotTotal(a: Expr)
    requires IsTotal(a, SBool)
    ensures IsTotal(MkNot(a), SBool)
    ensures forall m :: On(MkNot(a), m) <==> !On(a, m)
  {
    hide Eval, WF, SortOf, MkNot;
    forall m
      ensures !Eval(MkNot(a), m).Undef? && (On(MkNot(a), m) <==> !On(a, m))
    {
      EvalSort(a, m);
      MkNotMeans(a, m);
    }
  }

  lemma {:induction false} AndTotal(a: Expr, b: Expr)
    requires IsTotal(a, SBool) && IsTotal(b, SBool)
    ensures IsTotal(MkAnd(a, b), SBool)
    ensures forall m :: On(MkAnd(a, b), m) <==> On(a, m) && On(b, m)
    ensures IsFalse(MkAnd(a, b)) ==> IsFalse(a) || IsFalse(b)
  {
    hide Eval, WF, SortOf, MkAnd;
    AndFalse(a, b);
    forall m
      ensures !Eval(MkAnd(a, b), m).Undef? && (On(MkAnd(a, b), m) <==> On(a, m) && On(b, m))
    {
      EvalSort(a, m);
      EvalSort(b, m);
      MkAndMeans(a, b, m);
    }
  }

  lemma {:induction false} AndFalse(a: Expr, b: Expr)
    requires WF(a) && WF(b) && SortOf(a) == SortOf(b) == SBool
    ensures IsFalse(MkAnd(a, b)) ==> IsFalse(a) || IsFalse(b)
  {
    hide Eval, WF, SortOf;
  }

  lemma {:induction false} OrTotal(a: Expr, b: Expr)
    requires IsTotal(a, SBool) && IsTotal(b, SBool)
    ensures IsTotal(MkOr(a, b), SBool)
    ensures forall m :: On(MkOr(a, b), m) <==> On(a, m) || On(b, m)
    ensures IsFalse(MkOr(a, b)) ==> IsFalse(a) && IsFalse(b)
  {
    hide Eval, WF, SortOf, MkOr;
    OrFalse(a, b);
    forall m
      ensures !Eval(MkOr(a, b), m).Undef? && (On(MkOr(a, b), m) <==> On(a, m) || On(b, m))
    {
      EvalSort(a, m);
      EvalSort(b, m);
      MkOrMeans(a, b, m);
    }
  }

  lemma {:induction false} OrFalse(a: Expr, b: Expr)
    requires WF(a) && WF(b) && SortOf(a) == SortOf(b) == SBool
    ensures IsFalse(MkOr(a, b)) ==> IsFalse(a) && IsFalse(b)
  {
    hide Eval, WF, SortOf;
  }

  lemma {:induction false} EqTotal(a: Expr, b: Expr, s: Sort)
    requires IsTotal(a, s) && IsTotal(b, s)
    ensures IsTotal(MkEq(a, b), SBool)
    ensures forall m :: On(MkEq(a, b), m) <==> Eval(a, m) == Eval(b, m)
  {
    hide Eval, WF, SortOf, MkEq;
    forall m
      ensures !Eval(MkEq(a, b), m).Undef? && (On(MkEq(a, b), m) <==> Eval(a, m) == Eval(b, m))
    {
      EvalSort(a, m);
      EvalSort(b, m);
      MkEqMeans(a, b, m);
    }
  }

  // ---- Guarded values ----

  ghost predicate TotalVals(vals: Vals, s: Sort) {
    forall x :: x in vals ==> IsTotal(x, s) && IsTotal(vals[x], SBool)
  }

  lemma {:induction false} TotalValsFacts(vals: Vals, s: Sort)
    requires TotalVals(vals, s)
    ensures WellSorted(vals, s)
    ensures forall m :: AllDecided(vals, m) && Valued(vals, m)
  {
    hide Eval, WF, SortOf;
    forall m, x | x in vals
      ensures Decided(x, vals[x], m)
    {
      TotalBool(vals[x], m);
    }
  }

  lemma {:induction false} SelectedTotal(vals: Vals, r: Expr, s: Sort)
    requires TotalVals(vals, s) && WF(r) && SortOf(r) == s && AmongValues(vals, r)
    ensures IsTotal(r, s)
  {
    hide Eval, WF, SortOf, AllDecided;
    TotalValsFacts(vals, s);
    forall m
      ensures !Eval(r, m).Undef?
    {
      assert HasSomeValue(vals, r, m);
    }
  }

  lemma {:induction false} AddTotal(vals: Vals, val: Expr, dom: Expr, s: Sort)
    requires TotalVals(vals, s) && IsTotal(val, s) && IsTotal(dom, SBool)
    ensures WellSorted(vals, s) && Piece(val, dom, s) && TotalVals(AddTo(vals, val, dom, s), s)
    ensures AddTo(vals, val, dom, s) == map[] ==> vals == map[] && IsFalse(dom)
  {
    hide Eval, WF, SortOf, MkOr;
    TotalValsFacts(vals, s);
    if val in vals {
      OrTotal(vals[val], dom);
    }
    if !IsFalse(dom) {
      assert val in AddTo(vals, val, dom, s);
    }
  }

  /** AddActive for total terms. */
  lemma {:induction false} AddTotalActive(vals: Vals, val: Expr, dom: Expr, s: Sort, m: Model)
    requires TotalVals(vals, s) && IsTotal(val, s) && IsTotal(dom, SBool)
    requires On(dom, m) ==> forall x :: Active(vals, x, m) ==> x == val
    ensures WellSorted(vals, s) && Piece(val, dom, s)
    ensures forall x :: Active(AddTo(vals, val, dom, s), x, m) <==> Active(vals, x, m) || (x == val && On(dom, m))
  {
    hide Eval, WF, SortOf, AddTo;
    TotalValsFacts(vals, s);
    TotalBool(dom, m);
    AddActive(vals, val, dom, s, m);
  }

  /** At most one domain holds. */
  ghost predicate AtMostOne(vals: Vals, m: Model) {
    forall x, y :: Active(vals, x, m) && Active(vals, y, m) ==> x == y
  }

  /** What joining `other` under `dom` does to the active values. */
  ghost predicate Joined(vals: Vals, vals': Vals, other: Vals, dom: Expr, m: Model) {
    AtMostOne(other, m) && (On(dom, m) ==> NoneActive(vals, m)) ==>
      if On(dom, m) then SameActive(other, vals', m) else SameActive(vals, vals', m)
  }

  ghost predicate Joining(vals: Vals, vals': Vals, other: Vals, todo: set<Expr>, dom: Expr, m: Model) {
    AtMostOne(other, m) && (On(dom, m) ==> NoneActive(vals, m)) ==>
      if On(dom, m) then forall x :: Active(vals', x, m) <==> x !in todo && Active(other, x, m)
      else SameActive(vals, vals', m)
  }

  lemma {:induction false} JoinStep(vals: Vals, vals': Vals, other: Vals, todo: set<Expr>, x: Expr, dom: Expr, s: Sort,
                                    m: Model)
    requires TotalVals(vals', s) && TotalVals(other, s) && IsTotal(dom, SBool) && x in other && x in todo
    requires Joining(vals, vals', other, todo, dom, m)
    ensures WellSorted(vals', s) && WF(other[x]) && SortOf(other[x]) == SBool && Piece(x, MkAnd(other[x], dom), s)
    ensures Joining(vals, AddTo(vals', x, MkAnd(other[x], dom), s), other, todo - {x}, dom, m)
  {
    hide Eval, WF, SortOf, MkAnd, AddTo, On;
    var d := MkAnd(other[x], dom);
    AndTotal(other[x], dom);
    if AtMostOne(other, m) && (On(dom, m) ==> NoneActive(vals, m)) {
      assert On(d, m) ==> Active(other, x, m);
      AddTotalActive(vals', x, d, s, m);
    } else {
      AddTotal(vals', x, d, s);
    }
  }

  method AddDisj(d: DisjointExpr, other: Vals, domain: Expr, ghost s: Sort)
    requires TotalVals(d.vals, s) && TotalVals(other, s) && IsTotal(domain, SBool)
    modifies d`vals
    ensures TotalVals(d.vals, s)
    ensures forall m :: Joined(old(d.vals), d.vals, other, domain, m)
    ensures d.vals == map[] ==>
      old(d.vals) == map[] && (IsFalse(domain) || forall x :: x in other ==> IsFalse(other[x]))
  {
    hide Eval, WF, SortOf, MkAnd, TotalVals, Joining, AddTo;
    ghost var vals0 := d.vals;
    var todo := other.Keys;
    JoinStarts(vals0, other, domain);
    while todo != {}
      invariant todo <= other.Keys && TotalVals(d.vals, s)
      invariant forall m :: Joining(vals0, d.vals, other, todo, domain, m)
      invariant d.vals == map[] ==>
        vals0 == map[] && (IsFalse(domain) || forall x :: x in other && x !in todo ==> IsFalse(other[x]))
      decreases |todo|
    {
      var x :| x in todo;
      ElementTotal(other, x, s);
      AndTotal(other[x], domain);
      AddTotal(d.vals, x, MkAnd(other[x], domain), s);
      forall m
        ensures Joining(vals0, AddTo(d.vals, x, MkAnd(other[x], domain), s), other, todo - {x}, domain, m)
      {
        JoinStep(vals0, d.vals, other, todo, x, domain, s, m);
      }
      d.Add(x, MkAnd(other[x], domain), s);
      todo := todo - {x};
    }
    JoinEnds(vals0, d.vals, other, domain);
  }

  lemma {:induction false} ElementTotal(vals: Vals, x: Expr, s: Sort)
    requires TotalVals(vals, s) && x in vals
    ensures IsTotal(x, s) && IsTotal(vals[x], SBool)
  {
  }

  lemma {:induction false} JoinStarts(vals: Vals, other: Vals, dom: Expr)
    ensures forall m :: Joining(vals, vals, other, other.Keys, dom, m)
  {
    hide Eval, On;
  }

  lemma {:induction false} JoinEnds(vals: Vals, vals': Vals, other: Vals, dom: Expr)
    requires forall m :: Joining(vals, vals', other, {}, dom, m)
    ensures forall m :: Joined(vals, vals', other, dom, m)
  {
    hide Eval, On;
    forall m
      ensures Joined(vals, vals', other, dom, m)
    {
      assert Joining(vals, vals', other, {}, dom, m);
    }
  }
}

/** Values chosen by a free variable, and functions given by a table of terms. */
module Choices {
  import opened Bits
  import opened Terms
  import opened SmartExpr
  import opened SmartMeaning
  import opened SmartArith
  import opened ArithMeaning
  import opened Disjoint
  import opened Total
  import opened UndefStrip

  // ---- Widths ----

  /** The position of the highest set bit; 0 for 0. */
  function Ilog2(n: nat): (r: nat)
    ensures n > 0 ==> Pow2(r) <= n < Pow2(r + 1)
  {
    if n <= 1 then 0 else
      assert n < 2 * (n / 2 + 1);
      1 + Ilog2(n / 2)
  }

  function Ilog2Ceil(n: nat, upPower2: bool): (r: nat) {
    if !upPower2 && n > 0 && Pow2(Ilog2(n)) == n then Ilog2(n) else Ilog2(n) + 1
  }

  /** Without rounding powers of two up, the least exponent that reaches `n`. */
  lemma {:induction false} Ilog2CeilLeast(n: nat, k: nat)
    requires n > 0
    ensures n <= Pow2(k) <==> Ilog2Ceil(n, false) <= k
  {
    hide Pow2, Ilog2;
    var l := Ilog2(n);
    if l + 1 <= k {
      Pow2Monotone(l + 1, k);
    } else if k <= l {
      Pow2Monotone(k, l);
    }
    Pow2Strict(k, l);
  }

  lemma {:induction false} Pow2Strict(k: nat, l: nat)
    ensures k < l ==> Pow2(k) < Pow2(l)
  {
    if k < l {
      Pow2Monotone(k + 1, l);
      assert Pow2(k + 1) == 2 * Pow2(k);
    }
  }

  // ---- Nondeterministic choice ----

  /** The selector variable is not in the values or their domains. */
  ghost predicate Fresh(vals: Vals, q: string) {
    forall x :: x in vals ==> !HasUndef(x, {q}) && !HasUndef(vals[x], {q})
  }

  ghost predicate IsOrder(order: seq<Expr>, vals: Vals) {
    && |order| == |vals|
    && (forall i :: 0 <= i < |order| ==> order[i] in vals)
    && (forall i, j :: 0 <= i < j < |order| ==> order[i] != order[j])
    && (forall x :: x in vals ==> x in order)
  }

  function Selected(m: Model, q: string, bits: nat): nat {
    ToNat(FromNat(Number(m.nums, q), bits))
  }

  /** The selector picks by position; a selector past the end is allowed only where no
      option is. */
  ghost predicate Picked(vals: Vals, order: seq<Expr>, from: nat, dom: Expr, q: string, bits: nat, ret: Expr,
                         pre: Expr, m: Model)
    requires IsOrder(order, vals) && from <= |order|
  {
    var i := Selected(m, q, bits);
    && Eval(pre, m).B?
    && (if from <= i < |order| then On(pre, m) <==> Active(vals, order[i], m) else On(pre, m) <==> !On(dom, m))
    && (from <= i < |order| ==> Eval(ret, m) == Eval(order[i], m))
  }

  /** Some domain holds. */
  ghost predicate AnyActive(vals: Vals, m: Model) {
    exists x :: Active(vals, x, m)
  }

  lemma {:induction false} SelectorEq(q: string, bits: nat, i: nat, m: Model)
    requires bits > 0 && i < Pow2(bits)
    ensures var v := Var(q, SBv(bits)); IsTotal(v, SBv(bits)) && IsTotal(UInt(i, bits), SBv(bits))
    ensures Eval(Var(q, SBv(bits)), m) == Eval(UInt(i, bits), m) <==> Selected(m, q, bits) == i
  {
    var bs := FromNat(Number(m.nums, q), bits);
    assert Eval(Var(q, SBv(bits)), m) == V(bs);
    NumeralMeans(i, bits, m);
    assert Eval(UInt(i, bits), m) == V(Truncate(i, bits));
    if ToNat(bs) == i {
      ToNatInjective(bs, Truncate(i, bits));
    }
  }

  lemma {:induction false} PickStep(vals: Vals, order: seq<Expr>, from: nat, dom: Expr, q: string, bits: nat, s: Sort,
                                    ret: Expr, pre: Expr, ret': Expr, pre': Expr, cmp: Expr, m: Model)
    requires IsOrder(order, vals) && 0 < from <= |order| && TotalVals(vals, s)
    requires IsTotal(cmp, SBool) && (On(cmp, m) <==> Selected(m, q, bits) == from - 1)
    requires IsTotal(pre, SBool) && IsTotal(ret, s) && Picked(vals, order, from, dom, q, bits, ret, pre, m)
    requires IsTotal(pre', SBool) &&
      Eval(pre', m) == (if On(cmp, m) then Eval(vals[order[from - 1]], m) else Eval(pre, m))
    requires (from == |order| && ret' == order[from - 1]) ||
      Eval(ret', m) == if On(cmp, m) then Eval(order[from - 1], m) else Eval(ret, m)
    ensures Picked(vals, order, from - 1, dom, q, bits, ret', pre', m)
  {
    hide Eval, IsTotal, TotalVals, Selected;
    assert IsTotal(vals[order[from - 1]], SBool) by { ElementTotal(vals, order[from - 1], s); }
    TotalBool(vals[order[from - 1]], m);
    TotalBool(pre, m);
  }

  class ChoiceExpr {
    var vals: Vals

    constructor ()
      ensures vals == map[]
    {
      vals := map[];
    }

    method Add(val: Expr, domain: Expr, ghost s: Sort)
      requires TotalVals(vals, s) && IsTotal(val, s) && IsTotal(domain, SBool)
      modifies this
      ensures TotalVals(vals, s)
      ensures forall x, m :: Active(vals, x, m) <==> Active(old(vals), x, m) || (x == val && On(domain, m))
    {
      hide Eval, WF, SortOf, MkOr, On;
      if IsFalse(domain) {
        forall m ensures !On(domain, m) { NeverHolds(domain, m); }
        return;
      }
      if val in vals {
        OrTotal(vals[val], domain);
        vals := vals[val := MkOr(vals[val], domain)];
      } else {
        vals := vals[val := domain];
      }
    }

    /** When some option is enabled. */
    method Domain(ghost s: Sort) returns (d: Expr)
      requires TotalVals(vals, s)
      ensures IsTotal(d, SBool) && forall m :: On(d, m) <==> AnyActive(vals, m)
    {
      hide Eval, WF, SortOf, MkOr, On;
      d := Bool(false);
      ConstTotal(false);
      var todo := vals.Keys;
      while todo != {}
        invariant todo <= vals.Keys && IsTotal(d, SBool)
        invariant forall m :: On(d, m) <==> exists x :: x in vals && x !in todo && Active(vals, x, m)
        decreases |todo|
      {
        var x :| x in todo;
        OrTotal(d, vals[x]);
        var d' := MkOr(d, vals[x]);
        forall m
          ensures On(d', m) <==> exists y :: y in vals && y !in todo - {x} && Active(vals, y, m)
        {
          DomainStep(vals, todo, x, d, m);
        }
        d, todo := d', todo - {x};
      }
      assert forall m :: On(d, m) <==> AnyActive(vals, m);
    }

    /** The options in the order the map is read, whatever that is. */
    method Enumerate() returns (order: seq<Expr>)
      ensures IsOrder(order, vals)
    {
      order := [];
      var todo := vals.Keys;
      while todo != {}
        invariant todo <= vals.Keys && |order| + |todo| == |vals|
        invariant forall i :: 0 <= i < |order| ==> order[i] in vals && order[i] !in todo
        invariant forall i, j :: 0 <= i < j < |order| ==> order[i] != order[j]
        invariant forall x :: x in vals && x !in todo ==> x in order
        decreases |todo|
      {
        var x :| x in todo;
        order := [x] + order;
        todo := todo - {x};
      }
    }

    /** One term and one domain for all the options, and what the selector must satisfy.
        A single option needs no selector. */
    method Choose(q: string, ghost s: Sort) returns (ret: Expr, dom: Expr, bits: nat, pre: Expr, ghost order: seq<Expr>)
      requires TotalVals(vals, s) && vals != map[]
      ensures IsOrder(order, vals) && IsTotal(ret, s) && IsTotal(dom, SBool) && IsTotal(pre, SBool)
      ensures forall m :: On(dom, m) <==> AnyActive(vals, m)
      ensures |vals| == 1 ==> bits == 0 && pre == Bool(true) && ret == order[0]
      ensures |vals| > 1 ==> |vals| < Pow2(bits) && forall m :: Picked(vals, order, 0, dom, q, bits, ret, pre, m)
    {
      hide Eval, WF, SortOf, MkIf, MkEq, MkNot, On, TotalVals, Picked, IsOrder, Selected, AnyActive;
      var seqOrder := Enumerate();
      order := seqOrder;
      dom := Domain(s);
      OrderFacts(order, vals);
      if |vals| == 1 {
        ConstTotal(true);
        ElementTotal(vals, order[0], s);
        ret, bits, pre := seqOrder[0], 0, Bool(true);
        return;
      }
      bits := Ilog2Ceil(|vals| + 1, false);
      WidthSuffices(|vals|);
      TotalSorts(dom);
      NotTotal(dom);
      pre := MkNot(dom);
      ret := seqOrder[|vals| - 1];
      ElementTotal(vals, ret, s);
      PickStarts(vals, order, dom, q, bits, ret, pre);
      var i := |vals|;
      while i > 0
        invariant 0 <= i <= |vals| && IsTotal(pre, SBool) && IsTotal(ret, s)
        invariant forall m :: Picked(vals, order, i, dom, q, bits, ret, pre, m)
      {
        var x := seqOrder[i - 1];
        ElementTotal(vals, x, s);
        SelectorTotal(q, bits, i - 1);
        var cmp := MkEq(Var(q, SBv(bits)), UInt(i - 1, bits));
        IfTotal(cmp, vals[x], pre, SBool);
        var pre' := MkIf(cmp, vals[x], pre);
        var ret' := x;
        if i < |vals| {
          IfTotal(cmp, x, ret, s);
          ret' := MkIf(cmp, x, ret);
        }
        PickStepAll(vals, order, i, i - 1, dom, q, bits, s, ret, pre, ret', pre', cmp);
        pre, ret, i := pre', ret', i - 1;
      }
    }
  }

  lemma {:induction false} OrderFacts(order: seq<Expr>, vals: Vals)
    requires IsOrder(order, vals)
    ensures |order| == |vals| && forall i :: 0 <= i < |order| ==> order[i] in vals
  {
  }

  /** The selector can name every option and one number more. */
  lemma {:induction false} WidthSuffices(n: nat)
    requires n > 0
    ensures var bits := Ilog2Ceil(n + 1, false); bits > 0 && n < Pow2(bits)
  {
    hide Pow2, Ilog2;
    Ilog2CeilLeast(n + 1, Ilog2Ceil(n + 1, false));
    Ilog2CeilLeast(n + 1, 0);
    PowZero();
  }

  lemma {:induction false} PowZero()
    ensures Pow2(0) == 1
  {
  }

  lemma {:induction false} TotalSorts(e: Expr)
    requires IsTotal(e, SBool)
    ensures WF(e) && SortOf(e) == SBool
  {
  }

  lemma {:induction false} SelectorTotal(q: string, bits: nat, i: nat)
    requires bits > 0 && i < Pow2(bits)
    ensures WF(Var(q, SBv(bits))) && WF(UInt(i, bits)) &&
      SortOf(Var(q, SBv(bits))) == SortOf(UInt(i, bits)) == SBv(bits)
    ensures var cmp := MkEq(Var(q, SBv(bits)), UInt(i, bits));
      IsTotal(cmp, SBool) && forall m :: On(cmp, m) <==> Selected(m, q, bits) == i
  {
    hide Eval, MkEq, Selected, On;
    SelectorEq(q, bits, i, Model(map[], map[], map[]));
    var v, n := Var(q, SBv(bits)), UInt(i, bits);
    hide WF, SortOf;
    EqTotal(v, n, SBv(bits));
    forall m
      ensures On(MkEq(v, n), m) <==> Selected(m, q, bits) == i
    {
      SelectorEq(q, bits, i, m);
    }
  }

  lemma {:induction false} IfTotal(c: Expr, t: Expr, e: Expr, s: Sort)
    requires IsTotal(c, SBool) && IsTotal(t, s) && IsTotal(e, s)
    ensures WF(c) && WF(t) && WF(e) && SortOf(c) == SBool && SortOf(t) == SortOf(e)
    ensures IsTotal(MkIf(c, t, e), s)
    ensures forall m :: Eval(MkIf(c, t, e), m) == if On(c, m) then Eval(t, m) else Eval(e, m)
  {
    hide Eval, WF, SortOf, MkIf;
    forall m
      ensures Eval(MkIf(c, t, e), m) == if On(c, m) then Eval(t, m) else Eval(e, m)
    {
      MkIfMeans(c, t, e, m);
      EvalSort(c, m);
      EvalSort(t, m);
      EvalSort(e, m);
      SortPositive(t);
    }
  }

  lemma {:induction false} SortPositive(t: Expr)
    requires WF(t)
    ensures SortOf(t).SBv? ==> SortOf(t).width > 0
  {
  }

  lemma {:induction false} PickStarts(vals: Vals, order: seq<Expr>, dom: Expr, q: string, bits: nat, ret: Expr,
                                      pre: Expr)
    requires IsOrder(order, vals) && IsTotal(pre, SBool) && forall m :: On(pre, m) <==> !On(dom, m)
    ensures forall m :: Picked(vals, order, |vals|, dom, q, bits, ret, pre, m)
  {
    hide Eval, IsTotal, Selected, On;
    forall m
      ensures Picked(vals, order, |vals|, dom, q, bits, ret, pre, m)
    {
      TotalBool(pre, m);
    }
  }

  lemma {:induction false} PickStepAll(vals: Vals, order: seq<Expr>, from: nat, k: nat, dom: Expr, q: string,
                                       bits: nat, s: Sort, ret: Expr, pre: Expr, ret': Expr, pre': Expr, cmp: Expr)
    requires IsOrder(order, vals) && from == k + 1 <= |order| && TotalVals(vals, s)
    requires IsTotal(cmp, SBool) && forall m :: On(cmp, m) <==> Selected(m, q, bits) == k
    requires IsTotal(pre, SBool) && IsTotal(ret, s) && forall m :: Picked(vals, order, from, dom, q, bits, ret, pre, m)
    requires IsTotal(pre', SBool) && forall m ::
      Eval(pre', m) == (if On(cmp, m) then Eval(vals[order[k]], m) else Eval(pre, m))
    requires (from == |order| && ret' == order[k]) || forall m ::
      Eval(ret', m) == if On(cmp, m) then Eval(order[k], m) else Eval(ret, m)
    ensures forall m :: Picked(vals, order, k, dom, q, bits, ret', pre', m)
  {
    hide Eval, IsTotal, TotalVals, Selected, Picked, On, IsOrder;
    OrderFacts(order, vals);
    forall m
      ensures Picked(vals, order, k, dom, q, bits, ret', pre', m)
    {
      assert Picked(vals, order, from, dom, q, bits, ret, pre, m);
      PickStep(vals, order, from, dom, q, bits, s, ret, pre, ret', pre', cmp, m);
    }
  }

  // ---- What a choice can be ----

  /** Giving the selector a value changes nothing else. */
  lemma {:induction false} SelectorSet(vals: Vals, q: string, bits: nat, i: nat, m: Model)
    requires Fresh(vals, q) && i < Pow2(bits)
    ensures var m' := SetNumber(m, q, FromNat(i, bits)); Selected(m', q, bits) == i && SameActive(vals, vals, m')
    ensures var m' := SetNumber(m, q, FromNat(i, bits));
      forall x :: x in vals ==> Eval(x, m') == Eval(x, m) && (Active(vals, x, m') <==> Active(vals, x, m))
  {
    hide Eval, HasUndef, SetNumber;
    var m' := SetNumber(m, q, FromNat(i, bits));
    SelectorReads(q, bits, i, m);
    SetIsChoice(m, q, FromNat(i, bits), {q});
    forall x | x in vals
      ensures Eval(x, m') == Eval(x, m) && (Active(vals, x, m') <==> Active(vals, x, m))
    {
      NoUndefFixed(x, {q}, m, m');
      NoUndefFixed(vals[x], {q}, m, m');
    }
  }

  lemma {:induction false} SelectorReads(q: string, bits: nat, i: nat, m: Model)
    requires i < Pow2(bits)
    ensures Selected(SetNumber(m, q, FromNat(i, bits)), q, bits) == i
  {
    ToFromNat(i, bits);
  }

  /** The selector value `i` satisfies the precondition and picks the value `v`. */
  ghost predicate PicksWith(q: string, bits: nat, ret: Expr, pre: Expr, i: nat, v: Value, m: Model) {
    var m' := SetNumber(m, q, FromNat(i, bits));
    i < Pow2(bits) && On(pre, m') && Eval(ret, m') == v
  }

  /** Every enabled option can be picked. */
  lemma {:induction false} EnabledPickable(vals: Vals, order: seq<Expr>, dom: Expr, q: string, bits: nat, ret: Expr,
                                           pre: Expr, x: Expr, m: Model)
    requires IsOrder(order, vals) && |order| < Pow2(bits) && Fresh(vals, q) && Active(vals, x, m)
    requires forall m' :: Picked(vals, order, 0, dom, q, bits, ret, pre, m')
    ensures exists i: nat :: PicksWith(q, bits, ret, pre, i, Eval(x, m), m)
  {
    hide Eval, On, SetNumber, Fresh, Selected;
    var i :| 0 <= i < |order| && order[i] == x;
    SelectorSet(vals, q, bits, i, m);
    assert Picked(vals, order, 0, dom, q, bits, ret, pre, SetNumber(m, q, FromNat(i, bits)));
    assert PicksWith(q, bits, ret, pre, i, Eval(x, m), m);
  }

  /** Whatever the valuation, some selector satisfies the precondition. */
  lemma {:induction false} SelectorExists(vals: Vals, order: seq<Expr>, dom: Expr, q: string, bits: nat, ret: Expr,
                                          pre: Expr, m: Model)
    requires IsOrder(order, vals) && |order| < Pow2(bits) && Fresh(vals, q)
    requires forall m' :: Picked(vals, order, 0, dom, q, bits, ret, pre, m')
    requires forall m' :: On(dom, m') <==> AnyActive(vals, m')
    ensures exists i: nat, v :: PicksWith(q, bits, ret, pre, i, v, m)
  {
    hide Eval, On, SetNumber, Fresh, Selected;
    if AnyActive(vals, m) {
      var x :| Active(vals, x, m);
      EnabledPickable(vals, order, dom, q, bits, ret, pre, x, m);
    } else {
      var n := |order|;
      SelectorSet(vals, q, bits, n, m);
      var m' := SetNumber(m, q, FromNat(n, bits));
      assert Picked(vals, order, 0, dom, q, bits, ret, pre, m');
      assert !AnyActive(vals, m') by {
        forall x
          ensures !Active(vals, x, m')
        {
          assert Active(vals, x, m') ==> Active(vals, x, m);
        }
      }
      assert PicksWith(q, bits, ret, pre, n, Eval(ret, m'), m);
    }
  }

  /** Where some option is enabled, a selector that satisfies the precondition picks an
      enabled one. */
  lemma {:induction false} PickedEnabled(vals: Vals, order: seq<Expr>, dom: Expr, q: string, bits: nat, ret: Expr,
                                         pre: Expr, m: Model)
    requires IsOrder(order, vals) && Picked(vals, order, 0, dom, q, bits, ret, pre, m) && On(dom, m) && On(pre, m)
    ensures exists x :: Active(vals, x, m) && Eval(ret, m) == Eval(x, m)
  {
    hide Eval, On, Selected;
  }

  // ---- Functions given by a table ----

  ghost predicate TableTotal(fn: map<Expr, Expr>, ks: Sort, s: Sort) {
    forall k :: k in fn ==> IsTotal(k, ks) && IsTotal(fn[k], s)
  }

  /** The keys are known to differ from the terms alone. */
  ghost predicate SurelyApart(k: Expr, key: Expr) {
    WF(k) && WF(key) && SortOf(k) == SortOf(key) && IsFalse(MkEq(k, key))
  }

  ghost predicate Matches(k: Expr, key: Expr, m: Model) {
    Eval(k, m) == Eval(key, m)
  }

  ghost predicate Distinct(fn: map<Expr, Expr>, m: Model) {
    forall k, k' :: k in fn && k' in fn && k != k' ==> Eval(k, m) != Eval(k', m)
  }

  ghost predicate TableFilled(fn: map<Expr, Expr>, todo: set<Expr>, key: Expr, vals: Vals, m: Model) {
    Distinct(fn, m) ==> forall x ::
      Active(vals, x, m) <==> exists k :: k in fn && k !in todo && fn[k] == x && Matches(k, key, m)
  }

  /** Where the keys differ from each other, the term has the value of the entry that matches. */
  ghost predicate Tabulated(fn: map<Expr, Expr>, key: Expr, r: Expr) {
    forall k, m :: k in fn && Distinct(fn, m) && Matches(k, key, m) ==> Eval(r, m) == Eval(fn[k], m)
  }

  lemma {:induction false} TableStarts(fn: map<Expr, Expr>, key: Expr)
    ensures forall m :: TableFilled(fn, fn.Keys, key, map[], m)
  {
    hide Eval, Distinct, Matches;
  }

  lemma {:induction false} KeyEq(fn: map<Expr, Expr>, k: Expr, key: Expr, ks: Sort, s: Sort)
    requires k in fn && TableTotal(fn, ks, s) && IsTotal(key, ks)
    ensures IsTotal(fn[k], s) && WF(k) && WF(key) && SortOf(k) == SortOf(key)
    ensures IsTotal(MkEq(k, key), SBool) && forall m :: On(MkEq(k, key), m) <==> Matches(k, key, m)
    ensures IsFalse(MkEq(k, key)) <==> SurelyApart(k, key)
  {
    hide Eval, WF, SortOf, MkEq, On;
    EqTotal(k, key, ks);
  }

  lemma {:induction false} TableStep(fn: map<Expr, Expr>, todo: set<Expr>, k: Expr, key: Expr, cmp: Expr, vals: Vals,
                                     s: Sort, m: Model)
    requires k in fn && k in todo && TotalVals(vals, s) && IsTotal(fn[k], s) && IsTotal(cmp, SBool)
    requires (On(cmp, m) <==> Matches(k, key, m)) && TableFilled(fn, todo, key, vals, m)
    ensures WellSorted(vals, s) && Piece(fn[k], cmp, s) &&
      TableFilled(fn, todo - {k}, key, AddTo(vals, fn[k], cmp, s), m)
  {
    hide Eval, AddTo, On, IsTotal, TotalVals;
    if Distinct(fn, m) {
      if On(cmp, m) {
        forall k' | k' in fn && k' !in todo
          ensures !Matches(k', key, m)
        {
          assert k' != k;
        }
      }
      AddTotalActive(vals, fn[k], cmp, s, m);
      var vals' := AddTo(vals, fn[k], cmp, s);
      forall x
        ensures Active(vals', x, m) <==> exists j :: j in fn && j !in todo - {k} && fn[j] == x && Matches(j, key, m)
      {
        if x == fn[k] && On(cmp, m) {
          assert k !in todo - {k};
        }
        if j :| j in fn && j !in todo && fn[j] == x && Matches(j, key, m) {
          assert j !in todo - {k};
        }
      }
    } else {
      AddTotal(vals, fn[k], cmp, s);
    }
  }

  lemma {:induction false} TableStepAll(fn: map<Expr, Expr>, todo: set<Expr>, k: Expr, key: Expr, cmp: Expr,
                                        vals: Vals, s: Sort)
    requires k in fn && k in todo && TotalVals(vals, s) && IsTotal(fn[k], s) && IsTotal(cmp, SBool)
    requires forall m :: On(cmp, m) <==> Matches(k, key, m)
    requires forall m :: TableFilled(fn, todo, key, vals, m)
    ensures WellSorted(vals, s) && Piece(fn[k], cmp, s)
    ensures forall m :: TableFilled(fn, todo - {k}, key, AddTo(vals, fn[k], cmp, s), m)
  {
    hide Eval, AddTo, On, IsTotal, TotalVals, TableFilled;
    AddTotal(vals, fn[k], cmp, s);
    var rest, vals' := todo - {k}, AddTo(vals, fn[k], cmp, s);
    forall m
      ensures TableFilled(fn, rest, key, vals', m)
    {
      TableStep(fn, todo, k, key, cmp, vals, s, m);
    }
  }

  lemma {:induction false} TableSelects(fn: map<Expr, Expr>, key: Expr, vals: Vals, r: Expr, s: Sort)
    requires TotalVals(vals, s) && Selects(vals, r) && forall m :: TableFilled(fn, {}, key, vals, m)
    ensures Tabulated(fn, key, r)
  {
    hide Eval, On, IsTotal, TableFilled, Distinct, Matches, TotalVals, Selects;
    forall k, m | k in fn && Distinct(fn, m) && Matches(k, key, m)
      ensures Eval(r, m) == Eval(fn[k], m)
    {
      assert TableFilled(fn, {}, key, vals, m);
      EntrySelected(fn, key, vals, k, r, s, m);
    }
  }

  lemma {:induction false} EntrySelected(fn: map<Expr, Expr>, key: Expr, vals: Vals, k: Expr, r: Expr, s: Sort,
                                         m: Model)
    requires TotalVals(vals, s) && Selects(vals, r) && TableFilled(fn, {}, key, vals, m)
    requires k in fn && Distinct(fn, m) && Matches(k, key, m)
    ensures Eval(r, m) == Eval(fn[k], m)
  {
    hide Eval, On, IsTotal, Active;
    TotalValsFacts(vals, s);
    assert k !in {} && Active(vals, fn[k], m);
    forall y | Active(vals, y, m)
      ensures y == fn[k]
    {
      var k' :| k' in fn && k' !in {} && fn[k'] == y && Matches(k', key, m);
      assert k' == k;
    }
    assert Only(vals, fn[k], m);
  }

  lemma {:induction false} AddKeepsSome(vals: Vals, val: Expr, dom: Expr, s: Sort)
    requires WellSorted(vals, s) && Piece(val, dom, s)
    ensures AddTo(vals, val, dom, s) == map[] <==> vals == map[] && IsFalse(dom)
    ensures vals == map[] && !IsFalse(dom) ==> AddTo(vals, val, dom, s) == map[val := dom]
  {
    hide Eval, WF, SortOf, MkOr;
    if !IsFalse(dom) {
      assert val in AddTo(vals, val, dom, s);
    }
  }

  class FunctionExpr {
    var fn: map<Expr, Expr>
    var default: Option<Expr>

    constructor (default: Option<Expr>)
      ensures fn == map[] && this.default == default
    {
      fn, this.default := map[], default;
    }

    method Add(key: Expr, val: Expr)
      requires key !in fn
      modifies this`fn
      ensures fn == old(fn)[key := val]
    {
      fn := fn[key := val];
    }

    /** The value for the entry whose key is equal to `key`.  The default is given only if
        all keys are surely apart: otherwise the value of some entry is, also where no key
        matches. */
    method Apply(key: Expr, ghost ks: Sort, ghost s: Sort) returns (r: Option<Expr>)
      requires IsTotal(key, ks) && TableTotal(fn, ks, s)
      ensures AllApart(fn, key) ==> r == default
      ensures !AllApart(fn, key) ==>
        r.Some? && IsTotal(r.value, s) && Tabulated(fn, key, r.value) && FromEntries(fn, key, r.value)
    {
      hide Eval, WF, SortOf, MkEq, IsTotal, TotalVals, TableTotal, AddTo, On, Selects, AllApart, Tabulated,
           AmongValues, FromEntries, TableDone, WellSorted;
      var disj := new DisjointExpr(default);
      var todo := fn.Keys;
      DoneStarts(fn, key, s);
      while todo != {}
        invariant todo <= fn.Keys && TableDone(fn, todo, key, disj.vals, s) && disj.default == default
        modifies disj
        decreases |todo|
      {
        var k :| k in todo;
        KeyEq(fn, k, key, ks, s);
        DoneStep(fn, todo, k, key, disj.vals, ks, s);
        disj.Add(fn[k], MkEq(k, key), s);
        todo := todo - {k};
      }
      DoneSorted(fn, key, disj.vals, s);
      r := disj.Value(s);
      if disj.vals != map[] {
        DoneGives(fn, key, disj.vals, r.value, s);
      }
    }
  }

  /** What is known of the guarded values when the entries for `todo` are still to be added. */
  ghost predicate TableDone(fn: map<Expr, Expr>, todo: set<Expr>, key: Expr, vals: Vals, s: Sort) {
    && TotalVals(vals, s) && EntriesOf(fn, key, vals)
    && (forall m :: TableFilled(fn, todo, key, vals, m))
    && (vals == map[] <==> forall k :: k in fn && k !in todo ==> SurelyApart(k, key))
  }

  lemma {:induction false} DoneStarts(fn: map<Expr, Expr>, key: Expr, s: Sort)
    ensures TableDone(fn, fn.Keys, key, map[], s)
  {
    hide TableFilled, TotalVals, SurelyApart;
    EmptyVals(s);
    TableStarts(fn, key);
  }

  lemma {:induction false} DoneStep(fn: map<Expr, Expr>, todo: set<Expr>, k: Expr, key: Expr, vals: Vals, ks: Sort,
                                    s: Sort)
    requires IsTotal(key, ks) && TableTotal(fn, ks, s) && todo <= fn.Keys && k in todo &&
      TableDone(fn, todo, key, vals, s)
    requires WF(k) && WF(key) && SortOf(k) == SortOf(key)
    ensures WellSorted(vals, s) && Piece(fn[k], MkEq(k, key), s)
    ensures TableDone(fn, todo - {k}, key, AddTo(vals, fn[k], MkEq(k, key), s), s)
  {
    hide Eval, WF, SortOf, MkEq, IsTotal, TotalVals, AddTo, TableFilled, SurelyApart, IsFalse, EntriesOf;
    KeyEq(fn, k, key, ks, s);
    var cmp := MkEq(k, key);
    AddTotal(vals, fn[k], cmp, s);
    TableStepAll(fn, todo, k, key, cmp, vals, s);
    AddKeepsSome(vals, fn[k], cmp, s);
    AddEntry(fn, key, vals, k, cmp, s);
  }

  lemma {:induction false} DoneSorted(fn: map<Expr, Expr>, key: Expr, vals: Vals, s: Sort)
    requires TableDone(fn, {}, key, vals, s)
    ensures WellSorted(vals, s) && (vals == map[] <==> AllApart(fn, key))
  {
    hide TableFilled, TotalVals, SurelyApart, EntriesOf;
    TotalValsFacts(vals, s);
  }

  lemma {:induction false} DoneGives(fn: map<Expr, Expr>, key: Expr, vals: Vals, r: Expr, s: Sort)
    requires TableDone(fn, {}, key, vals, s) && WF(r) && SortOf(r) == s && Selects(vals, r) && AmongValues(vals, r)
    ensures IsTotal(r, s) && Tabulated(fn, key, r) && FromEntries(fn, key, r)
  {
    hide Eval, WF, SortOf, IsTotal, TotalVals, TableFilled, Selects, AmongValues, EntriesOf, Tabulated, FromEntries;
    SelectedTotal(vals, r, s);
    TableSelects(fn, key, vals, r, s);
    EntriesGive(fn, key, vals, r, s);
  }

  ghost predicate AllApart(fn: map<Expr, Expr>, key: Expr) {
    forall k :: k in fn ==> SurelyApart(k, key)
  }

  /** Under every valuation the term has the value of an entry that is not surely apart. */
  ghost predicate FromEntries(fn: map<Expr, Expr>, key: Expr, r: Expr) {
    forall m :: EntryValue(fn, key, r, m)
  }

  ghost predicate EntryValue(fn: map<Expr, Expr>, key: Expr, r: Expr, m: Model) {
    exists k :: k in fn && !SurelyApart(k, key) && Eval(r, m) == Eval(fn[k], m)
  }

  /** The values are those of entries that are not surely apart. */
  ghost predicate EntriesOf(fn: map<Expr, Expr>, key: Expr, vals: Vals) {
    forall x :: x in vals ==> exists k :: k in fn && !SurelyApart(k, key) && fn[k] == x
  }

  lemma {:induction false} AddEntry(fn: map<Expr, Expr>, key: Expr, vals: Vals, k: Expr, cmp: Expr, s: Sort)
    requires WellSorted(vals, s) && EntriesOf(fn, key, vals) && k in fn && Piece(fn[k], cmp, s)
    requires IsFalse(cmp) <==> SurelyApart(k, key)
    ensures EntriesOf(fn, key, AddTo(vals, fn[k], cmp, s))
  {
    hide SurelyApart, MkOr, IsFalse, IsTrue;
  }

  lemma {:induction false} EntriesGive(fn: map<Expr, Expr>, key: Expr, vals: Vals, r: Expr, s: Sort)
    requires EntriesOf(fn, key, vals) && AmongValues(vals, r) && TotalVals(vals, s)
    ensures FromEntries(fn, key, r)
  {
    hide Eval, SurelyApart, AllDecided, Valued, TotalVals, EntriesOf, EntryValue, HasSomeValue, WellSorted;
    TotalValsFacts(vals, s);
    forall m
      ensures EntryValue(fn, key, r, m)
    {
      assert AllDecided(vals, m) && Valued(vals, m);
      EntryGives(fn, key, vals, r, m);
    }
  }

  lemma {:induction false} EntryGives(fn: map<Expr, Expr>, key: Expr, vals: Vals, r: Expr, m: Model)
    requires EntriesOf(fn, key, vals) && HasSomeValue(vals, r, m)
    ensures EntryValue(fn, key, r, m)
  {
    hide Eval, SurelyApart;
    var x :| x in vals && Eval(r, m) == Eval(x, m);
  }

  /** Where no key matches and the default differs from every entry, the lookup gives the default
      iff all keys are surely apart: not where they only happen to differ. */
  lemma {:induction false} DefaultIffApart(fn: map<Expr, Expr>, key: Expr, default: Expr, r: Expr, m: Model)
    requires AllApart(fn, key) ==> r == default
    requires !AllApart(fn, key) ==> FromEntries(fn, key, r)
    requires forall k :: k in fn ==> !Matches(k, key, m) && Eval(fn[k], m) != Eval(default, m)
    ensures Eval(r, m) == Eval(default, m) <==> AllApart(fn, key)
  {
    hide Eval, SurelyApart, Matches;
    if !AllApart(fn, key) {
      assert EntryValue(fn, key, r, m);
    }
  }

  /** A lookup that misses its default: the keys are two variables with different values. */
  method DefaultMissed(ghost m: Model) returns (r: Option<Expr>)
    requires Number(m.nums, "a") == 0 && Number(m.nums, "b") == 1
    ensures !Matches(Var("a", SBv(1)), Var("b", SBv(1)), m)
    ensures r.Some? && Eval(r.value, m) == V([true]) != Eval(Bv([false]), m)
  {
    var k, key, x := Var("a", SBv(1)), Var("b", SBv(1)), Bv([true]);
    UnmatchedNotApart(m);
    NumeralTotal(x);
    OpenBv(x, m);
    OpenBv(Bv([false]), m);
    var table := new FunctionExpr(Some(Bv([false])));
    table.Add(k, x);
    assert table.fn == map[k := x] && k in table.fn;
    hide Eval, IsTotal, SurelyApart, Matches, Tabulated;
    assert TableTotal(table.fn, SBv(1), SBv(1));
    r := table.Apply(key, SBv(1), SBv(1));
    assert EntryValue(table.fn, key, r.value, m);
  }

  lemma {:induction false} NumeralTotal(x: Expr)
    requires x.Bv? && |x.bits| > 0
    ensures IsTotal(x, SBv(|x.bits|))
  {
  }

  lemma {:induction false} EmptyVals(s: Sort)
    ensures TotalVals(map[], s)
  {
  }

  lemma {:induction false} NeverHolds(d: Expr, m: Model)
    requires IsFalse(d)
    ensures !On(d, m)
  {
  }

  lemma {:induction false} DomainStep(vals: Vals, todo: set<Expr>, x: Expr, d: Expr, m: Model)
    requires x in vals && x in todo && (On(d, m) <==> exists y :: y in vals && y !in todo && Active(vals, y, m))
    ensures On(d, m) || On(vals[x], m) <==> exists y :: y in vals && y !in todo - {x} && Active(vals, y, m)
  {
    hide On;
    if On(vals[x], m) {
      assert x !in todo - {x} && Active(vals, x, m);
    }
    if y :| y in vals && y !in todo && Active(vals, y, m) {
      assert y !in todo - {x};
    }
  }

  /** Two keys that differ, without being surely apart. */
  lemma {:induction false} UnmatchedNotApart(m: Model)
    requires Number(m.nums, "a") == 0 && Number(m.nums, "b") == 1
    ensures var k, key := Var("a", SBv(1)), Var("b", SBv(1));
      IsTotal(k, SBv(1)) && IsTotal(key, SBv(1)) && !SurelyApart(k, key) && !Matches(k, key, m)
  {
    assert FromNat(0, 1) == [false] && FromNat(1, 1) == [true];
  }
}

/** Taking undef values out of a branch condition: each recognised shape gets a condition
    for defined behaviour that implies that the expression has the same value for every choice
    of the undef variables, and a replacement without them. The condition is exact for plain
    undef variables; below zeros it is so iff the comparison is not decided anyway.

    An undef variable is a bit-vector variable whose name is in `undefs`; a choice gives
    these variables any values and leaves the other variables alone. */
module UndefStrip {
  import opened Bits
  import opened Terms
  import opened SmartExpr
  import opened SmartMeaning
  import opened SmartArith
  import opened ArithMeaning
  import opened BitLaws
  import opened SymModel
  import opened Arcs

  type Names = set<string>

  ghost predicate Choice(m: Model, m': Model, undefs: Names) {
    && m'.bools == m.bools && m'.arrays == m.arrays
    && forall x :: x !in undefs ==> Number(m'.nums, x) == Number(m.nums, x)
  }

  predicate HasUndef(e: Expr, undefs: Names) {
    exists v :: v in Vars(e) && v.0 in undefs
  }

  /** The same value for every choice. */
  ghost predicate Fixed(e: Expr, undefs: Names, m: Model) {
    forall m' :: Choice(m, m', undefs) ==> Eval(e, m') == Eval(e, m)
  }

  lemma {:induction false} NoUndefFixed(e: Expr, undefs: Names, m: Model, m': Model)
    requires !HasUndef(e, undefs) && Choice(m, m', undefs)
    ensures Eval(e, m') == Eval(e, m)
  {
    hide Eval, Subst, Vars;
    var none: map<string, Expr> := map[];
    forall v | v in Vars(e)
      ensures Eval(Subst(Var(v.0, v.1), none), m) == Eval(Var(v.0, v.1), m)
      ensures Eval(Subst(Var(v.0, v.1), none), m) == Eval(Var(v.0, v.1), m')
    {
      VarFixed(v.0, v.1, undefs, m, m');
    }
    SubstMeans(e, none, m, m);
    SubstMeans(e, none, m, m');
  }

  lemma {:induction false} VarFixed(x: string, s: Sort, undefs: Names, m: Model, m': Model)
    requires x !in undefs && Choice(m, m', undefs)
    ensures Subst(Var(x, s), map[]) == Var(x, s) && Eval(Var(x, s), m') == Eval(Var(x, s), m)
  {
  }

  // ---- Shapes ----

  predicate IsUndef(e: Expr, undefs: Names) {
    e.Var? && e.sort.SBv? && e.name in undefs
  }

  /** An undef variable, or one with zeros above it, as undef pointers are. */
  predicate IsUndefOrConcat(e: Expr, undefs: Names) {
    IsUndef(e, undefs) || (e.Concat? && IsZero(e.a) && IsUndef(e.b, undefs))
  }

  /** The variable that says whether the input `v` is undef. */
  predicate IsUndefMask(e: Expr, v: Expr) {
    e.Var? && v.Var? && "isundef_" + v.name <= e.name
  }

  /** The input is not undef: its mask is zero. */
  predicate IsUndefCond(c: Expr, v: Expr) {
    c.Eq? && ((IsZero(c.a) && IsUndefMask(c.b, v)) || (IsZero(c.b) && IsUndefMask(c.a, v)))
  }

  /** The input if it is not undef, and an undef variable otherwise. */
  predicate IsIfUndef(e: Expr, undefs: Names) {
    e.Ite? && IsUndefOrConcat(e.e, undefs) && IsUndefCond(e.c, e.t)
  }

  function UndefOf(e: Expr, undefs: Names): (v: Expr)
    requires IsIfUndef(e, undefs)
    ensures IsUndef(v, undefs)
  {
    if e.e.Var? then e.e else e.e.b
  }

  /** What a shape amounts to: `notUndef`, the value `stripped` it then has, and otherwise the
      sum of `base` and the undef variable `undef` of `span` bits. */
  datatype Shape = Shape(notUndef: Expr, input: Expr, stripped: Expr, undef: string, base: Bits, span: nat)

  /** An input that may be undef, or the sum of one and a constant. */
  function IfUndefOrAdd(e: Expr, undefs: Names): (r: Option<Shape>)
    requires WF(e) && IsBv(e)
    ensures r.Some? ==> r.value.undef in undefs
    ensures r.Some? ==> WF(r.value.notUndef) && SortOf(r.value.notUndef) == SBool
    ensures r.Some? ==> WF(r.value.stripped) && SortOf(r.value.stripped) == SortOf(e)
    ensures r.Some? ==> |r.value.base| == Width(e) && 0 < r.value.span <= Width(e)
  {
    if IsIfUndef(e, undefs) then
      SpanFits(e, undefs);
      Some(Shape(e.c, e.t, e.t, UndefOf(e, undefs).name, Zeros(Width(e)), Width(UndefOf(e, undefs))))
    else if e.Bin? && e.op == OAdd && e.b.Bv? && IsIfUndef(e.a, undefs) then
      assert WF(e.a) && WF(e.b) && SortOf(e.a.t) == SortOf(e.a) == SortOf(e.b);
      SpanFits(e.a, undefs);
      Some(Shape(e.a.c, e.a.t, MkAdd(e.b, e.a.t), UndefOf(e.a, undefs).name, e.b.bits, Width(UndefOf(e.a, undefs))))
    else if e.Bin? && e.op == OAdd && e.a.Bv? && IsIfUndef(e.b, undefs) then
      assert WF(e.b) && WF(e.a) && SortOf(e.b.t) == SortOf(e.b) == SortOf(e.a);
      SpanFits(e.b, undefs);
      Some(Shape(e.b.c, e.b.t, MkAdd(e.a, e.b.t), UndefOf(e.b, undefs).name, e.a.bits, Width(UndefOf(e.b, undefs))))
    else None
  }

  lemma SpanFits(e: Expr, undefs: Names)
    requires WF(e) && IsBv(e) && IsIfUndef(e, undefs)
    ensures 0 < Width(UndefOf(e, undefs)) <= Width(e)
  {
  }

  /** Masks and inputs are not undef variables themselves. */
  ghost predicate PlainShape(s: Shape, undefs: Names) {
    !HasUndef(s.notUndef, undefs) && !HasUndef(s.input, undefs)
  }

  // ---- Setting an undef variable ----

  function SetNumber(m: Model, x: string, bits: Bits): Model {
    m.(nums := m.nums[x := ToNat(bits)])
  }

  lemma {:induction false} SetIsChoice(m: Model, x: string, bits: Bits, undefs: Names)
    requires x in undefs
    ensures Choice(m, SetNumber(m, x, bits), undefs)
  {
  }

  lemma {:induction false} SetReads(m: Model, x: string, bits: Bits)
    ensures FromNat(Number(SetNumber(m, x, bits).nums, x), |bits|) == bits
  {
    FromToNat(bits);
  }

  lemma {:induction false} ChoiceTransitive(m: Model, m': Model, m'': Model, undefs: Names)
    requires Choice(m, m', undefs) && Choice(m', m'', undefs)
    ensures Choice(m, m'', undefs)
  {
  }

  lemma {:induction false} ChoiceSelf(m: Model, undefs: Names)
    ensures Choice(m, m, undefs)
  {
  }

  lemma {:induction false} ChoiceMore(m: Model, m': Model, few: Names, undefs: Names)
    requires Choice(m, m', few) && few <= undefs
    ensures Choice(m, m', undefs)
  {
  }

  // ---- Values of shapes ----

  /** The value of an undef variable of `n` bits, with zeros up to `w` bits. */
  function UndefBits(m: Model, x: string, n: nat, w: nat): (r: Bits)
    requires n <= w
    ensures |r| == w
  {
    FromNat(Number(m.nums, x), n) + Zeros(w - n)
  }

  lemma {:induction false} IteValue(e: Expr, undefs: Names, m: Model)
    requires WF(e) && IsBv(e) && IsIfUndef(e, undefs)
    ensures 0 < Width(UndefOf(e, undefs)) <= Width(e)
    ensures Eval(e.c, m).B? && Eval(e.t, m).V? && |Eval(e.t, m).bits| == Width(e)
    ensures var v := UndefOf(e, undefs);
      Eval(e, m) == if Eval(e.c, m).val then Eval(e.t, m) else V(UndefBits(m, v.name, Width(v), Width(e)))
  {
    SpanFits(e, undefs);
    MaskDefined(e, m);
    UndefValue(e, undefs, m);
    EvalSort(e.t, m);
    hide Eval;
    OpenIte(e, m);
  }

  lemma {:induction false} MaskDefined(e: Expr, m: Model)
    requires WF(e) && e.Ite? && IsUndefCond(e.c, e.t)
    ensures Eval(e.c, m).B? && !Eval(e.t, m).Undef?
  {
    EvalSort(e.c.a, m);
    EvalSort(e.c.b, m);
    OpenEq(e.c, m);
  }

  lemma {:induction false} UndefValue(e: Expr, undefs: Names, m: Model)
    requires WF(e) && IsBv(e) && IsIfUndef(e, undefs)
    requires 0 < Width(UndefOf(e, undefs)) <= Width(e)
    ensures var v := UndefOf(e, undefs); Eval(e.e, m) == V(UndefBits(m, v.name, Width(v), Width(e)))
  {
    var v := UndefOf(e, undefs);
    if e.e.Var? {
      assert UndefBits(m, v.name, Width(v), Width(e)) == FromNat(Number(m.nums, v.name), Width(v));
    } else {
      ToNatZero(e.e.a.bits);
    }
  }

  /** The value of a shape where its input is undef. */
  function Varied(s: Shape, m: Model): (r: Bits)
    requires s.span <= |s.base|
    ensures |r| == |s.base|
  {
    Add(s.base, UndefBits(m, s.undef, s.span, |s.base|))
  }

  /** What a shape is worth: what is left of it, or the base plus the undef variable. */
  lemma {:induction false} ShapeValue(e: Expr, undefs: Names, m: Model)
    requires WF(e) && IsBv(e) && IfUndefOrAdd(e, undefs).Some?
    ensures var s := IfUndefOrAdd(e, undefs).value;
      && Eval(s.notUndef, m).B? && Eval(s.stripped, m).V? && |Eval(s.stripped, m).bits| == Width(e) > 0
      && Eval(e, m) == if Eval(s.notUndef, m).val then Eval(s.stripped, m) else V(Varied(s, m))
  {
    hide Eval, WF, SortOf, MkAdd, UndefBits, Add;
    var s := IfUndefOrAdd(e, undefs).value;
    if IsIfUndef(e, undefs) {
      IteValue(e, undefs, m);
      AddZeros(UndefBits(m, s.undef, s.span, Width(e)));
    } else if e.b.Bv? && IsIfUndef(e.a, undefs) {
      AddSides(e, undefs);
      OpenBin(e, m);
      OpenBv(e.b, m);
      IteValue(e.a, undefs, m);
      MkAddMeans(e.b, e.a.t, m);
      OpCommutes(OAdd, Eval(e.a.t, m), Eval(e.b, m));
      OpCommutes(OAdd, Eval(e.a, m), Eval(e.b, m));
      SumDefined(Eval(e.b, m), Eval(e.a, m));
      SumDefined(Eval(e.b, m), Eval(e.a.t, m));
    } else {
      AddSides(e, undefs);
      OpenBin(e, m);
      OpenBv(e.a, m);
      IteValue(e.b, undefs, m);
      MkAddMeans(e.a, e.b.t, m);
      SumDefined(Eval(e.a, m), Eval(e.b, m));
      SumDefined(Eval(e.a, m), Eval(e.b.t, m));
    }
  }

  lemma AddSides(e: Expr, undefs: Names)
    requires WF(e) && IsBv(e) && e.Bin?
    ensures IsIfUndef(e.a, undefs) ==> SameBv(e.b, e.a.t) && WF(e.a) && IsBv(e.a) && Width(e.a) == Width(e)
    ensures IsIfUndef(e.b, undefs) ==> SameBv(e.a, e.b.t) && WF(e.b) && IsBv(e.b) && Width(e.b) == Width(e)
  {
  }

  lemma {:induction false} AddZeros(x: Bits)
    ensures Add(Zeros(|x|), x) == x
  {
    hide ToNat, Pow2, FromNat, Mod;
    ToNatFill(|x|);
    ModSmall(ToNat(x), Pow2(|x|));
    FromToNat(x);
  }

  lemma {:induction false} SumDefined(x: Value, y: Value)
    requires x.V? && y.V? && |x.bits| == |y.bits| > 0
    ensures BinV(OAdd, x, y) == V(Add(x.bits, y.bits))
  {
  }

  /** Only its own undef variable matters to a shape. */
  lemma {:induction false} ShapeVars(e: Expr, undefs: Names, u: string)
    requires WF(e) && IsBv(e) && IfUndefOrAdd(e, undefs).Some? && PlainShape(IfUndefOrAdd(e, undefs).value, undefs)
    requires u in undefs && u != IfUndefOrAdd(e, undefs).value.undef
    ensures !HasUndef(e, {u})
  {
    hide Eval, WF, SortOf, MkAdd;
    if IsIfUndef(e, undefs) {
      IteVars(e, undefs, u);
    } else if e.b.Bv? && IsIfUndef(e.a, undefs) {
      IteVars(e.a, undefs, u);
      assert Vars(e) == Vars(e.a) + Vars(e.b) && Vars(e.b) == {};
    } else {
      IteVars(e.b, undefs, u);
      assert Vars(e) == Vars(e.a) + Vars(e.b) && Vars(e.a) == {};
    }
  }

  lemma {:induction false} IteVars(e: Expr, undefs: Names, u: string)
    requires IsIfUndef(e, undefs) && !HasUndef(e.c, undefs) && !HasUndef(e.t, undefs)
    requires u in undefs && u != UndefOf(e, undefs).name
    ensures !HasUndef(e, {u})
  {
    var v := UndefOf(e, undefs);
    assert Vars(e) == Vars(e.c) + Vars(e.t) + Vars(e.e);
    assert Vars(v) == {(v.name, v.sort)};
    assert Vars(e.e) == Vars(v) by {
      if !e.e.Var? {
        assert Vars(e.e.a) == {};
      }
    }
    hide Vars;
  }

  // ---- Sides of a comparison ----

  /** The values a side takes, and the undef variables they come from. */
  datatype Side = Side(range: Range, names: Names)

  ghost predicate HasValueIn(e: Expr, m: Model, r: Range) {
    Eval(e, m).V? && |Eval(e, m).bits| == |r.base| && Contains(r, Eval(e, m).bits)
  }

  ghost predicate CanBe(e: Expr, m: Model, names: Names, t: Bits) {
    exists m' :: Choice(m, m', names) && Eval(e, m') == V(t)
  }

  /** Over all choices the side takes exactly the values of the range, each of them by a choice
      of its own undef variables alone. */
  ghost predicate IsSide(e: Expr, undefs: Names, m: Model, s: Side) {
    && IsRange(s.range, Width(e)) && s.names <= undefs
    && (forall m' :: Choice(m, m', undefs) ==> HasValueIn(e, m', s.range))
    && (forall m', t :: Choice(m, m', undefs) && |t| == |s.range.base| && Contains(s.range, t) ==>
      CanBe(e, m', s.names, t))
  }

  lemma SideValue(e: Expr, undefs: Names, m: Model, s: Side, m': Model)
    requires IsSide(e, undefs, m, s) && Choice(m, m', undefs)
    ensures HasValueIn(e, m', s.range)
  {
  }

  lemma SideReaches(e: Expr, undefs: Names, m: Model, s: Side, m': Model, t: Bits) returns (m'': Model)
    requires IsSide(e, undefs, m, s) && Choice(m, m', undefs) && |t| == |s.range.base| && Contains(s.range, t)
    ensures Choice(m', m'', s.names) && Choice(m, m'', undefs) && Eval(e, m'') == V(t)
  {
    assert CanBe(e, m', s.names, t);
    m'' :| Choice(m', m'', s.names) && Eval(e, m'') == V(t);
    ChoiceMore(m', m'', s.names, undefs);
    ChoiceTransitive(m, m', m'', undefs);
  }

  /** The range of a shape under a valuation. */
  ghost function ShapeSide(s: Shape, nu: bool, x: Bits): Side {
    Side(if nu then Range(x, 0) else Range(s.base, s.span), {s.undef})
  }

  lemma {:induction false} ShapeIsSide(e: Expr, undefs: Names, m: Model, s: Shape, nu: bool, x: Bits)
    requires WF(e) && IsBv(e) && IfUndefOrAdd(e, undefs) == Some(s) && PlainShape(s, undefs)
    requires Eval(s.notUndef, m) == B(nu) && Eval(s.stripped, m) == V(x)
    ensures IsSide(e, undefs, m, ShapeSide(s, nu, x))
  {
    hide Eval, WF, SortOf, IfUndefOrAdd, Choice, Contains, PlainShape, HasUndef, HasValueIn, CanBe;
    ShapeValue(e, undefs, m);
    var r := ShapeSide(s, nu, x).range;
    forall m' | Choice(m, m', undefs)
      ensures HasValueIn(e, m', r)
    {
      ShapeInRange(e, undefs, m, s, nu, x, m');
    }
    forall m', t | Choice(m, m', undefs) && |t| == |r.base| && Contains(r, t)
      ensures CanBe(e, m', {s.undef}, t)
    {
      ShapeReaches(e, undefs, m, s, nu, x, m', t);
    }
  }

  /** Masks and what is left of a shape do not depend on the choice. */
  lemma {:induction false} ShapeKept(e: Expr, undefs: Names, m: Model, s: Shape, m': Model)
    requires WF(e) && IsBv(e) && IfUndefOrAdd(e, undefs) == Some(s) && PlainShape(s, undefs) && Choice(m, m', undefs)
    ensures Eval(s.notUndef, m') == Eval(s.notUndef, m) && Eval(s.stripped, m') == Eval(s.stripped, m)
  {
    hide Eval, WF, SortOf, Choice, HasUndef, MkAdd;
    NoUndefFixed(s.notUndef, undefs, m, m');
    NoUndefFixed(s.input, undefs, m, m');
    if !IsIfUndef(e, undefs) {
      AddSides(e, undefs);
      var c := if e.b.Bv? && IsIfUndef(e.a, undefs) then e.b else e.a;
      OpenBv(c, m);
      OpenBv(c, m');
      InputSum(c, s.input, m);
      InputSum(c, s.input, m');
    }
  }

  lemma {:induction false} InputSum(c: Expr, v: Expr, m: Model)
    requires SameBv(c, v) && c.Bv? && v.Var?
    ensures Eval(MkAdd(c, v), m) == BinV(OAdd, Eval(c, m), Eval(v, m))
  {
    InputDefined(v, m);
    hide Eval, WF, SortOf, MkAdd;
    MkAddMeans(c, v, m);
    OpenBv(c, m);
    EvalSort(v, m);
    WidthOf(c);
    SumDefined(Eval(c, m), Eval(v, m));
  }

  lemma WidthOf(c: Expr)
    requires c.Bv? && WF(c)
    ensures SortOf(c) == SBv(|c.bits|) && |c.bits| > 0
  {
  }

  lemma InputDefined(v: Expr, m: Model)
    requires v.Var?
    ensures !Eval(v, m).Undef?
  {
  }

  lemma {:induction false} ShapeInRange(e: Expr, undefs: Names, m: Model, s: Shape, nu: bool, x: Bits, m': Model)
    requires WF(e) && IsBv(e) && IfUndefOrAdd(e, undefs) == Some(s) && PlainShape(s, undefs) && Choice(m, m', undefs)
    requires Eval(s.notUndef, m) == B(nu) && Eval(s.stripped, m) == V(x)
    ensures HasValueIn(e, m', ShapeSide(s, nu, x).range)
  {
    hide Eval, WF, SortOf, IfUndefOrAdd, Choice, Contains, PlainShape, Add, FromNat;
    ShapeKept(e, undefs, m, s, m');
    ShapeValue(e, undefs, m');
    if nu {
      Extremes(Range(x, 0), x);
    } else {
      SumIn(s.base, FromNat(Number(m'.nums, s.undef), s.span));
    }
  }

  /** Where the input is undef, every value of the range is a choice away. */
  lemma {:induction false} ShapeReaches(e: Expr, undefs: Names, m: Model, s: Shape, nu: bool, x: Bits, m': Model,
                                        t: Bits)
    requires WF(e) && IsBv(e) && IfUndefOrAdd(e, undefs) == Some(s) && PlainShape(s, undefs) && Choice(m, m', undefs)
    requires Eval(s.notUndef, m) == B(nu) && Eval(s.stripped, m) == V(x)
    requires |t| == |ShapeSide(s, nu, x).range.base| && Contains(ShapeSide(s, nu, x).range, t)
    ensures CanBe(e, m', {s.undef}, t)
  {
    hide Eval, WF, SortOf, IfUndefOrAdd, Choice, Contains, PlainShape, Add, SetNumber, FromNat;
    ShapeKept(e, undefs, m, s, m');
    ShapeValue(e, undefs, m');
    if nu {
      Extremes(Range(x, 0), t);
      ChoiceSelf(m', {s.undef});
    } else {
      var u := InIsSum(s.base, s.span, t);
      var m'' := SetNumber(m', s.undef, u);
      SetReads(m', s.undef, u);
      SetIsChoice(m', s.undef, u, {s.undef});
      SetIsChoice(m', s.undef, u, undefs);
      ChoiceTransitive(m, m', m'', undefs);
      ShapeKept(e, undefs, m, s, m'');
      ShapeValue(e, undefs, m'');
    }
  }

  /** A side without undef variables has one value. */
  lemma {:induction false} FreeIsSide(e: Expr, undefs: Names, m: Model, y: Bits)
    requires WF(e) && !HasUndef(e, undefs) && Eval(e, m) == V(y) && |y| == Width(e) > 0
    ensures IsSide(e, undefs, m, Side(Range(y, 0), {}))
  {
    hide Eval, WF, SortOf, Choice, Contains, HasUndef;
    var r := Range(y, 0);
    Extremes(r, y);
    forall m' | Choice(m, m', undefs)
      ensures HasValueIn(e, m', r)
    {
      NoUndefFixed(e, undefs, m, m');
    }
    forall m', t | Choice(m, m', undefs) && |t| == |r.base| && Contains(r, t)
      ensures CanBe(e, m', {}, t)
    {
      NoUndefFixed(e, undefs, m, m');
      Extremes(r, t);
      ChoiceSelf(m', {});
    }
  }

  // ---- Comparisons ----

  function MkSle(a: Expr, b: Expr): (r: Expr)
    requires SameBv(a, b)
    ensures WF(r) && SortOf(r) == SBool
  {
    if a == b then Bool(true)
    else if a.Bv? && b.Bv? then Bool(Sle(a.bits, b.bits))
    else SLe(a, b)
  }

  function Compare(k: Kind, a: Expr, b: Expr): (r: Expr)
    requires SameBv(a, b)
    ensures WF(r) && SortOf(r) == SBool
  {
    match k
    case KEq => MkEq(a, b)
    case KSle => MkSle(a, b)
    case KUle => MkUle(a, b)
  }

  /** The comparison as it stands in a term. */
  function Compared(k: Kind, a: Expr, b: Expr): Expr {
    match k
    case KEq => Eq(a, b)
    case KSle => SLe(a, b)
    case KUle => ULe(a, b)
  }

  function LeastBits(k: Kind, w: nat): (r: Bits)
    requires w > 0
    ensures |r| == w
  {
    if k == KSle then Zeros(w - 1) + [true] else Zeros(w)
  }

  function GreatestBits(k: Kind, w: nat): (r: Bits)
    requires w > 0
    ensures |r| == w
  {
    if k == KSle then Ones(w - 1) + [false] else Ones(w)
  }

  lemma {:induction false} SleMeans(a: Expr, b: Expr, m: Model)
    requires SameBv(a, b)
    ensures Refines(Eval(MkSle(a, b), m), SleV(Eval(a, m), Eval(b, m)))
  {
    hide Eval, WF, SortOf, Size, ToInt;
    OpenBool(Bool(true), m);
    if a.Bv? && b.Bv? {
      OpenBv(a, m);
      OpenBv(b, m);
      OpenBool(Bool(Sle(a.bits, b.bits)), m);
    }
    OpenSLe(SLe(a, b), m);
  }

  lemma {:induction false} CompareMeans(k: Kind, a: Expr, b: Expr, x: Bits, y: Bits, m: Model)
    requires |x| == |y| > 0 && SameBv(a, b) && Eval(a, m) == V(x) && Eval(b, m) == V(y)
    ensures Eval(Compare(k, a, b), m) == B(Rel(k, x, y))
  {
    hide Eval, WF, SortOf, Size, MkEq, MkSle, MkUle, ToNat, ToInt;
    match k
    case KEq => MkEqMeans(a, b, m);
    case KSle => SleMeans(a, b, m);
    case KUle => MkUleMeans(a, b, m);
  }

  lemma {:induction false} ComparedMeans(k: Kind, a: Expr, b: Expr, x: Bits, y: Bits, m: Model)
    requires |x| == |y| > 0 && Eval(a, m) == V(x) && Eval(b, m) == V(y)
    ensures Eval(Compared(k, a, b), m) == B(Rel(k, x, y))
  {
    hide Eval, WF, SortOf, Size, ToNat, ToInt;
    match k
    case KEq => OpenEq(Eq(a, b), m);
    case KSle => OpenSLe(SLe(a, b), m);
    case KUle => OpenULe(ULe(a, b), m);
  }

  /** The least and the greatest value are first and last in the order of the comparison. */
  lemma {:induction false} ExtremePlaces(k: Kind, x: Bits)
    requires k != KEq && |x| > 0
    ensures Place(k, x) == 0 <==> x == LeastBits(k, |x|)
    ensures Place(k, x) == Pow2(|x|) - 1 <==> x == GreatestBits(k, |x|)
  {
    var w := |x|;
    assert Pow2(w) == 2 * Pow2(w - 1);
    hide ToNat, Pow2, Fill;
    if k == KUle {
      ToNatZero(x);
    } else {
      ToNatFill(w - 1);
      ToNatConcat(Zeros(w - 1), [true]);
      ToNatConcat(Ones(w - 1), [false]);
      BitNumber(true);
      BitNumber(false);
      assert Pow2(w - 1) * 1 == Pow2(w - 1) && Pow2(w - 1) * 0 == 0;
      RelPlace(k, x, LeastBits(k, w));
      RelPlace(k, x, GreatestBits(k, w));
    }
  }

  lemma {:induction false} BitNumber(b: bool)
    ensures ToNat([b]) == if b then 1 else 0
  {
    assert [b][1..] == [];
  }

  /** The comparison with `y` on the right is true whatever is on the left. */
  predicate AlwaysBelow(k: Kind, y: Bits)
    requires |y| > 0
  {
    k != KEq && y == GreatestBits(k, |y|)
  }

  predicate AlwaysAbove(k: Kind, x: Bits)
    requires |x| > 0
  {
    k != KEq && x == LeastBits(k, |x|)
  }

  /** What a shortcut takes for decided, when the sides are known to be `x` and `y` if `nu` and
      `nu2` hold. */
  predicate Known(k: Kind, nu: bool, nu2: bool, x: Bits, y: Bits)
    requires |x| > 0 && |y| > 0
  {
    (nu && nu2) || (nu && AlwaysAbove(k, x)) || (nu2 && AlwaysBelow(k, y))
  }

  /** Then the comparison does come out as on these values. */
  lemma {:induction false} KnownSame(k: Kind, nu: bool, nu2: bool, x: Bits, y: Bits, x': Bits, y': Bits)
    requires |x| == |y| == |x'| == |y'| > 0 && Known(k, nu, nu2, x, y) && (nu ==> x' == x) && (nu2 ==> y' == y)
    ensures Rel(k, x', y') == Rel(k, x, y)
  {
    hide Rel, Place, Pow2, LeastBits, GreatestBits;
    if !(nu && nu2) {
      ExtremePlaces(k, x);
      ExtremePlaces(k, y);
      RelPlace(k, x, y);
      RelPlace(k, x', y');
    }
  }

  lemma {:induction false} KnownDecided(k: Kind, nu: bool, nu2: bool, x: Bits, y: Bits, a: Range, b: Range)
    requires |x| == |y| && IsRange(a, |x|) && IsRange(b, |x|) && Known(k, nu, nu2, x, y)
    requires (nu ==> a == Range(x, 0)) && (nu2 ==> b == Range(y, 0))
    ensures Decided(k, a, b)
  {
    if !Decided(k, a, b) {
      hide Decided, Known, Contains;
      var p, q, p', q' := Undecided(k, a, b);
      Extremes(a, p);
      Extremes(a, p');
      Extremes(b, q);
      Extremes(b, q');
      KnownSame(k, nu, nu2, x, y, p, q);
      KnownSame(k, nu, nu2, x, y, p', q');
    }
  }

  /** Without zeros above the undef variables, nothing else is decided. */
  lemma {:induction false} PlainKnown(k: Kind, nu: bool, nu2: bool, x: Bits, y: Bits, a: Range, b: Range)
    requires |x| == |y| && IsRange(a, |x|) && IsRange(b, |x|) && Decided(k, a, b)
    requires a == (if nu then Range(x, 0) else Range(a.base, |x|)) &&
      b == (if nu2 then Range(y, 0) else Range(b.base, |x|))
    ensures Known(k, nu, nu2, x, y)
  {
    if k == KEq {
      Extremes(a, b.base);
      Extremes(b, a.base);
      hide Contains;
    } else {
      PlainBounds(k, nu, x, a);
      PlainBounds(k, nu2, y, b);
      ExtremePlaces(k, x);
      ExtremePlaces(k, y);
      hide Lowest, Highest, Place, Pow2, LeastBits, GreatestBits;
    }
  }

  lemma {:induction false} PlainBounds(k: Kind, nu: bool, x: Bits, a: Range)
    requires IsRange(a, |x|) && a == (if nu then Range(x, 0) else Range(a.base, |x|))
    ensures Lowest(k, a) == (if nu then Place(k, x) else 0) &&
      Highest(k, a) == (if nu then Place(k, x) else Pow2(|x|) - 1)
    ensures Pow2(|x|) > 1
  {
    assert Pow2(0) == 1 && Pow2(|x|) == 2 * Pow2(|x| - 1);
    hide Place, Pow2;
  }

  // ---- Stripping ----

  /** The condition to add, and the term without undef. */
  datatype Stripped = Stripped(cond: Expr, value: Expr)

  function Least(k: Kind, w: nat): Expr
    requires w > 0
  {
    Bv(LeastBits(k, w))
  }

  function Greatest(k: Kind, w: nat): Expr
    requires w > 0
  {
    Bv(GreatestBits(k, w))
  }

  /** A choice between two different constants on a comparison. */
  ghost predicate IsTest(e: Expr, k: Kind, lhs: Expr, rhs: Expr) {
    && WF(e) && e.Ite? && e.t.Bv? && e.e.Bv? && WF(e.t) && e.t != e.e && SortOf(e.t) == SortOf(e.e)
    && e.c == Compared(k, lhs, rhs) && SameBv(lhs, rhs)
  }

  /** What `strip` makes of a comparison with an undef on the left, the right or both. */
  function StripLeft(k: Kind, l: Shape, rhs: Expr, a: Expr, b: Expr): (r: Stripped)
    requires GoodSide(l, rhs) && WF(a) && WF(b) && SortOf(a) == SortOf(b)
    ensures WF(r.cond) && SortOf(r.cond) == SBool
  {
    Stripped(if k == KEq then l.notUndef else MkOr(l.notUndef, MkEq(rhs, Greatest(k, Width(rhs)))),
             MkIf(Compare(k, l.stripped, rhs), a, b))
  }

  function StripRight(k: Kind, lhs: Expr, r: Shape, a: Expr, b: Expr): (s: Stripped)
    requires GoodSide(r, lhs) && WF(a) && WF(b) && SortOf(a) == SortOf(b)
    ensures WF(s.cond) && SortOf(s.cond) == SBool
  {
    Stripped(if k == KEq then r.notUndef else MkOr(r.notUndef, MkEq(lhs, Least(k, Width(lhs)))),
             MkIf(Compare(k, lhs, r.stripped), a, b))
  }

  function StripBoth(k: Kind, l: Shape, r: Shape, a: Expr, b: Expr): (s: Stripped)
    requires GoodSide(l, r.stripped) && GoodSide(r, l.stripped) && WF(a) && WF(b) && SortOf(a) == SortOf(b)
    ensures WF(s.cond) && SortOf(s.cond) == SBool
  {
    Stripped(if k == KEq then MkAnd(l.notUndef, r.notUndef)
      else OrderedCond(k, l, r), MkIf(Compare(k, l.stripped, r.stripped), a, b))
  }

  function OrderedCond(k: Kind, l: Shape, r: Shape): (c: Expr)
    requires GoodSide(l, r.stripped) && GoodSide(r, l.stripped)
    ensures WF(c) && SortOf(c) == SBool
  {
    var w := Width(l.stripped);
    OrAnds(l.notUndef, r.notUndef, MkEq(l.stripped, Least(k, w)), MkEq(r.stripped, Greatest(k, w)))
  }

  predicate IsCond(e: Expr) {
    WF(e) && SortOf(e) == SBool
  }

  function OrAnds(c: Expr, d: Expr, p: Expr, q: Expr): (r: Expr)
    requires IsCond(c) && IsCond(d) && IsCond(p) && IsCond(q)
    ensures IsCond(r)
  {
    MkOr(MkOr(MkAnd(c, d), MkAnd(c, p)), MkAnd(d, q))
  }

  ghost predicate GoodSide(s: Shape, other: Expr) {
    WF(s.notUndef) && SortOf(s.notUndef) == SBool && SameBv(s.stripped, other) && SameBv(other, s.stripped)
  }

  /** The term is fixed exactly when the comparison is. */
  ghost predicate RelFixed(k: Kind, lhs: Expr, rhs: Expr, undefs: Names, m: Model) {
    forall m' :: Choice(m, m', undefs) ==> Eval(Compared(k, lhs, rhs), m') == Eval(Compared(k, lhs, rhs), m)
  }

  lemma {:induction false} TestFixed(e: Expr, k: Kind, lhs: Expr, rhs: Expr, undefs: Names, m: Model)
    requires IsTest(e, k, lhs, rhs) && forall m' :: Choice(m, m', undefs) ==> Eval(Compared(k, lhs, rhs), m').B?
    requires Eval(Compared(k, lhs, rhs), m).B?
    ensures Fixed(e, undefs, m) <==> RelFixed(k, lhs, rhs, undefs, m)
  {
    hide WF, SortOf, Choice, Compared, Eval;
    forall m' | Choice(m, m', undefs)
      ensures Eval(e, m') == Eval(e, m) <==> Eval(Compared(k, lhs, rhs), m') == Eval(Compared(k, lhs, rhs), m)
    {
      TestValue(e, m);
      TestValue(e, m');
    }
  }

  lemma {:induction false} TestValue(e: Expr, m: Model)
    requires e.Ite? && e.t.Bv? && e.e.Bv? && WF(e.t) && SortOf(e.t) == SortOf(e.e) && Eval(e.c, m).B?
    ensures Eval(e, m) == if Eval(e.c, m).val then V(e.t.bits) else V(e.e.bits)
  {
    assert |e.t.bits| == |e.e.bits| > 0;
    hide WF, Eval;
    OpenIte(e, m);
    OpenBv(e.t, m);
    OpenBv(e.e, m);
  }

  /** The comparison is the same for every choice iff the ranges of its sides decide it. */
  lemma {:induction false} PairFixed(k: Kind, lhs: Expr, rhs: Expr, undefs: Names, m: Model, a: Side, b: Side)
    requires Width(lhs) == Width(rhs) && IsSide(lhs, undefs, m, a) && IsSide(rhs, undefs, m, b) &&
      !HasUndef(lhs, b.names)
    ensures RelFixed(k, lhs, rhs, undefs, m) <==> Decided(k, a.range, b.range)
  {
    hide Eval, SortOf, Width, Choice, Contains, HasUndef, Compared, Rel, Decided, IsSide, IsRange;
    SideRange(lhs, undefs, m, a);
    SideRange(rhs, undefs, m, b);
    if Decided(k, a.range, b.range) {
      forall m' | Choice(m, m', undefs)
        ensures Eval(Compared(k, lhs, rhs), m') == Eval(Compared(k, lhs, rhs), m)
      {
        PairSame(k, lhs, rhs, undefs, m, a, b, m');
      }
    } else {
      PairVaries(k, lhs, rhs, undefs, m, a, b);
    }
  }

  lemma {:induction false} PairVaries(k: Kind, lhs: Expr, rhs: Expr, undefs: Names, m: Model, a: Side, b: Side)
    requires Width(lhs) == Width(rhs) && IsSide(lhs, undefs, m, a) && IsSide(rhs, undefs, m, b) &&
      !HasUndef(lhs, b.names)
    requires IsRange(a.range, Width(lhs)) && IsRange(b.range, Width(lhs)) && !Decided(k, a.range, b.range)
    ensures !RelFixed(k, lhs, rhs, undefs, m)
  {
    hide Eval, SortOf, Width, Choice, Contains, HasUndef, Compared, Rel, Decided, IsSide;
    var x, y, x', y' := Undecided(k, a.range, b.range);
    var m1 := PairReaches(lhs, rhs, undefs, m, a, b, x, y);
    var m2 := PairReaches(lhs, rhs, undefs, m, a, b, x', y');
    ComparedMeans(k, lhs, rhs, x, y, m1);
    ComparedMeans(k, lhs, rhs, x', y', m2);
  }

  lemma SideRange(e: Expr, undefs: Names, m: Model, s: Side)
    requires IsSide(e, undefs, m, s)
    ensures IsRange(s.range, Width(e))
  {
  }

  lemma {:induction false} PairSame(k: Kind, lhs: Expr, rhs: Expr, undefs: Names, m: Model, a: Side, b: Side, m': Model)
    requires Width(lhs) == Width(rhs) && IsSide(lhs, undefs, m, a) && IsSide(rhs, undefs, m, b) && Choice(m, m', undefs)
    requires IsRange(a.range, Width(lhs)) && IsRange(b.range, Width(lhs)) && Decided(k, a.range, b.range)
    ensures Eval(Compared(k, lhs, rhs), m') == Eval(Compared(k, lhs, rhs), m)
  {
    hide Eval, SortOf, Choice, Contains, Compared, Rel, Decided, IsSide;
    ChoiceSelf(m, undefs);
    SideValue(lhs, undefs, m, a, m);
    SideValue(lhs, undefs, m, a, m');
    SideValue(rhs, undefs, m, b, m);
    SideValue(rhs, undefs, m, b, m');
    var x, y, x', y' := Eval(lhs, m).bits, Eval(rhs, m).bits, Eval(lhs, m').bits, Eval(rhs, m').bits;
    ComparedMeans(k, lhs, rhs, x, y, m);
    ComparedMeans(k, lhs, rhs, x', y', m');
    DecidedSame(k, a.range, b.range, x, y, x', y');
  }

  /** Every pair of values is a choice away. */
  lemma {:induction false} PairReaches(lhs: Expr, rhs: Expr, undefs: Names, m: Model, a: Side, b: Side, x: Bits,
                                       y: Bits)
    returns (m': Model)
    requires IsSide(lhs, undefs, m, a) && IsSide(rhs, undefs, m, b) && !HasUndef(lhs, b.names)
    requires |x| == |a.range.base| && |y| == |b.range.base| && Contains(a.range, x) && Contains(b.range, y)
    ensures Choice(m, m', undefs) && Eval(lhs, m') == V(x) && Eval(rhs, m') == V(y)
  {
    hide Eval, SortOf, Choice, Contains, HasUndef, IsSide;
    ChoiceSelf(m, undefs);
    var m1 := SideReaches(lhs, undefs, m, a, m, x);
    m' := SideReaches(rhs, undefs, m, b, m1, y);
    NoUndefFixed(lhs, b.names, m1, m');
  }

  // ---- What a shortcut is worth ----

  /** The added condition implies that the term is the same for every choice, and the term it
      is replaced by then has its value. */
  ghost predicate SoundAt(e: Expr, s: Stripped, undefs: Names, m: Model) {
    Eval(s.cond, m) == B(true) ==> Fixed(e, undefs, m) && Eval(s.value, m) == Eval(e, m)
  }

  /** The added condition moreover holds whenever the term is the same for every choice. */
  ghost predicate ExactAt(e: Expr, s: Stripped, undefs: Names, m: Model) {
    SoundAt(e, s, undefs, m) && (Fixed(e, undefs, m) ==> Eval(s.cond, m) == B(true))
  }

  lemma {:induction false} AlwaysBelowMeans(k: Kind, rhs: Expr, y: Bits, m: Model)
    requires WF(rhs) && IsBv(rhs) && Eval(rhs, m) == V(y) && |y| == Width(rhs) > 0 && k != KEq
    ensures WF(Greatest(k, Width(rhs))) && SortOf(Greatest(k, Width(rhs))) == SortOf(rhs)
    ensures Eval(MkEq(rhs, Greatest(k, Width(rhs))), m) == B(AlwaysBelow(k, y))
  {
    hide Eval, WF, SortOf, MkEq, GreatestBits;
    var g := Greatest(k, Width(rhs));
    OpenBv(g, m);
    MkEqMeans(rhs, g, m);
  }

  lemma {:induction false} AlwaysAboveMeans(k: Kind, lhs: Expr, x: Bits, m: Model)
    requires WF(lhs) && IsBv(lhs) && Eval(lhs, m) == V(x) && |x| == Width(lhs) > 0 && k != KEq
    ensures WF(Least(k, Width(lhs))) && SortOf(Least(k, Width(lhs))) == SortOf(lhs)
    ensures Eval(MkEq(lhs, Least(k, Width(lhs))), m) == B(AlwaysAbove(k, x))
  {
    hide Eval, WF, SortOf, MkEq, LeastBits;
    var g := Least(k, Width(lhs));
    OpenBv(g, m);
    MkEqMeans(lhs, g, m);
  }

  /** The replacement: the test on what is left. */
  lemma {:induction false} StrippedValue(e: Expr, k: Kind, lhs: Expr, rhs: Expr, p: Expr, q: Expr, x: Bits, y: Bits,
                                         m: Model)
    requires IsTest(e, k, lhs, rhs) && SameBv(p, q) && |x| == |y| > 0 && Eval(p, m) == V(x) && Eval(q, m) == V(y)
    requires Eval(Compared(k, lhs, rhs), m) == B(Rel(k, x, y))
    ensures WF(e.t) && WF(e.e) && Eval(MkIf(Compare(k, p, q), e.t, e.e), m) == Eval(e, m)
  {
    hide Eval, SortOf, MkIf, Compare, Compared, Rel;
    NumeralWF(e.t, e.e);
    hide WF;
    CompareMeans(k, p, q, x, y, m);
    TestValue(e, m);
    OpenBv(e.t, m);
    OpenBv(e.e, m);
    MkIfMeans(Compare(k, p, q), e.t, e.e, m);
    NumeralSorts(e.t, e.e);
  }

  lemma {:induction false} NumeralWF(a: Expr, b: Expr)
    requires a.Bv? && b.Bv? && WF(a) && SortOf(a) == SortOf(b)
    ensures WF(b)
  {
  }

  lemma {:induction false} NumeralSorts(a: Expr, b: Expr)
    requires a.Bv? && b.Bv? && SortOf(a) == SortOf(b)
    ensures |a.bits| == |b.bits|
  {
  }

  /** What is known of one side of a comparison: its value if it is not undef. */
  datatype View = View(known: bool, value: Bits, side: Side)

  ghost function ViewOf(e: Expr, undefs: Names, m: Model): View
    requires WF(e) && IsBv(e)
  {
    var s := IfUndefOrAdd(e, undefs);
    if s.Some? && Eval(s.value.stripped, m).V? then
      var nu, x := Eval(s.value.notUndef, m) == B(true), Eval(s.value.stripped, m).bits;
      View(nu, x, ShapeSide(s.value, nu, x))
    else
      var x := if Eval(e, m).V? then Eval(e, m).bits else [];
      View(true, x, Side(Range(x, 0), {}))
  }

  ghost predicate Views(e: Expr, undefs: Names, m: Model, v: View) {
    && IsSide(e, undefs, m, v.side) && |v.value| == Width(e) > 0 && (v.known ==> v.side.range == Range(v.value, 0))
  }

  lemma {:induction false} ShapeView(e: Expr, undefs: Names, m: Model)
    requires WF(e) && IsBv(e) && IfUndefOrAdd(e, undefs).Some? && PlainShape(IfUndefOrAdd(e, undefs).value, undefs)
    ensures var v, s := ViewOf(e, undefs, m), IfUndefOrAdd(e, undefs).value;
      && Views(e, undefs, m, v) && Eval(s.notUndef, m) == B(v.known) && Eval(s.stripped, m) == V(v.value)
      && v.side == ShapeSide(s, v.known, v.value)
  {
    hide Eval, WF, SortOf, IfUndefOrAdd, PlainShape, IsSide;
    ShapeValue(e, undefs, m);
    var s, v := IfUndefOrAdd(e, undefs).value, ViewOf(e, undefs, m);
    ShapeIsSide(e, undefs, m, s, v.known, v.value);
  }

  lemma {:induction false} FreeView(e: Expr, undefs: Names, m: Model)
    requires WF(e) && IsBv(e) && !HasUndef(e, undefs) && !Eval(e, m).Undef?
    ensures var v := ViewOf(e, undefs, m);
      v.known && Eval(e, m) == V(v.value) && Views(e, undefs, m, v) && v.side.names == {}
  {
    hide Eval, WF, SortOf, IfUndefOrAdd, IsSide, HasUndef;
    FreeHasNoShape(e, undefs);
    EvalSort(e, m);
    FreeIsSide(e, undefs, m, Eval(e, m).bits);
  }

  lemma {:induction false} FreeHasNoShape(e: Expr, undefs: Names)
    requires WF(e) && IsBv(e) && !HasUndef(e, undefs)
    ensures IfUndefOrAdd(e, undefs).None?
  {
    hide WF, SortOf;
    if IsIfUndef(e, undefs) {
      IteHasUndef(e, undefs);
    } else if e.Bin? {
      assert Vars(e) == Vars(e.a) + Vars(e.b);
      if IsIfUndef(e.a, undefs) {
        IteHasUndef(e.a, undefs);
      }
      if IsIfUndef(e.b, undefs) {
        IteHasUndef(e.b, undefs);
      }
    }
  }

  lemma {:induction false} IteHasUndef(e: Expr, undefs: Names)
    requires IsIfUndef(e, undefs)
    ensures exists v :: v in Vars(e) && v.0 in undefs
  {
    var u := UndefOf(e, undefs);
    assert Vars(e) == Vars(e.c) + Vars(e.t) + Vars(e.e);
    assert (u.name, u.sort) in Vars(u);
    assert (u.name, u.sort) in Vars(e.e) by {
      if !e.e.Var? {
        assert Vars(e.e) == Vars(e.e.a) + Vars(e.e.b);
      }
    }
  }

  /** The condition a shortcut adds is what it takes for decided, and its replacement is the
      test on what is left. */
  ghost predicate Answers(st: Stripped, k: Kind, p: Expr, q: Expr, a: Expr, b: Expr, v: View, v2: View, m: Model)
    requires |v.value| > 0 && |v2.value| > 0
  {
    && SameBv(p, q) && WF(a) && WF(b) && SortOf(a) == SortOf(b) && st.value == MkIf(Compare(k, p, q), a, b)
    && Eval(p, m) == V(v.value) && Eval(q, m) == V(v2.value)
    && Eval(st.cond, m) == B(Known(k, v.known, v2.known, v.value, v2.value))
  }

  ghost predicate Sharp(k: Kind, v: View, v2: View)
    requires |v.side.range.base| == |v2.side.range.base| > 0 && |v.value| > 0 && |v2.value| > 0
  {
    Decided(k, v.side.range, v2.side.range) ==> Known(k, v.known, v2.known, v.value, v2.value)
  }

  lemma {:induction false} TestExactIff(e: Expr, k: Kind, lhs: Expr, rhs: Expr, undefs: Names, m: Model,
                                        st: Stripped, p: Expr, q: Expr, v: View, v2: View)
    requires IsTest(e, k, lhs, rhs) && Views(lhs, undefs, m, v) && Views(rhs, undefs, m, v2) &&
      !HasUndef(lhs, v2.side.names)
    requires Width(lhs) == Width(rhs) && Answers(st, k, p, q, e.t, e.e, v, v2, m)
    ensures |v.side.range.base| == |v2.side.range.base| > 0
    ensures SoundAt(e, st, undefs, m) && (ExactAt(e, st, undefs, m) <==> Sharp(k, v, v2))
  {
    hide WF, SortOf, Width, Choice, Compared, Eval, HasUndef, Rel, MkIf, Compare, Known, Decided, Contains, RelFixed,
         Fixed, IsSide;
    SideRange(lhs, undefs, m, v.side);
    SideRange(rhs, undefs, m, v2.side);
    PairFixed(k, lhs, rhs, undefs, m, v.side, v2.side);
    PairDefined(k, lhs, rhs, undefs, m, v.side, v2.side);
    TestFixed(e, k, lhs, rhs, undefs, m);
    if Known(k, v.known, v2.known, v.value, v2.value) {
      KnownDecided(k, v.known, v2.known, v.value, v2.value, v.side.range, v2.side.range);
      KnownStripped(e, k, lhs, rhs, undefs, m, st, p, q, v, v2);
    }
  }

  lemma {:induction false} KnownStripped(e: Expr, k: Kind, lhs: Expr, rhs: Expr, undefs: Names, m: Model,
                                         st: Stripped, p: Expr, q: Expr, v: View, v2: View)
    requires IsTest(e, k, lhs, rhs) && Views(lhs, undefs, m, v) && Views(rhs, undefs, m, v2) && Width(lhs) == Width(rhs)
    requires Answers(st, k, p, q, e.t, e.e, v, v2, m) && Known(k, v.known, v2.known, v.value, v2.value)
    ensures Eval(st.value, m) == Eval(e, m)
  {
    hide WF, SortOf, Width, Compared, Eval, Rel, MkIf, Compare, Known, IsSide;
    KnownValue(k, lhs, rhs, undefs, m, v, v2);
    StrippedValue(e, k, lhs, rhs, p, q, v.value, v2.value, m);
  }

  lemma {:induction false} PairDefined(k: Kind, lhs: Expr, rhs: Expr, undefs: Names, m: Model, a: Side, b: Side)
    requires Width(lhs) == Width(rhs) && IsSide(lhs, undefs, m, a) && IsSide(rhs, undefs, m, b)
    ensures Eval(Compared(k, lhs, rhs), m).B?
    ensures forall m' :: Choice(m, m', undefs) ==> Eval(Compared(k, lhs, rhs), m').B?
  {
    hide SortOf, Choice, Compared, Eval, Rel, Contains, IsSide;
    ChoiceSelf(m, undefs);
    SideRange(lhs, undefs, m, a);
    SideRange(rhs, undefs, m, b);
    forall m' | Choice(m, m', undefs)
      ensures Eval(Compared(k, lhs, rhs), m').B?
    {
      SideValue(lhs, undefs, m, a, m');
      SideValue(rhs, undefs, m, b, m');
      ComparedMeans(k, lhs, rhs, Eval(lhs, m').bits, Eval(rhs, m').bits, m');
    }
  }

  lemma {:induction false} KnownValue(k: Kind, lhs: Expr, rhs: Expr, undefs: Names, m: Model, v: View, v2: View)
    requires Width(lhs) == Width(rhs) && Views(lhs, undefs, m, v) && Views(rhs, undefs, m, v2)
    requires Known(k, v.known, v2.known, v.value, v2.value)
    ensures Eval(Compared(k, lhs, rhs), m) == B(Rel(k, v.value, v2.value))
  {
    hide SortOf, Choice, Compared, Eval, Rel, Known, Contains, IsSide;
    ChoiceSelf(m, undefs);
    SideRange(lhs, undefs, m, v.side);
    SideRange(rhs, undefs, m, v2.side);
    SideValue(lhs, undefs, m, v.side, m);
    SideValue(rhs, undefs, m, v2.side, m);
    var x, y := Eval(lhs, m).bits, Eval(rhs, m).bits;
    ComparedMeans(k, lhs, rhs, x, y, m);
    Extremes(v.side.range, x);
    Extremes(v2.side.range, y);
    KnownSame(k, v.known, v2.known, v.value, v2.value, x, y);
  }

  // ---- The conditions that are added ----

  lemma {:induction false} KnownWhenFree(k: Kind, nu: bool, x: Bits, y: Bits)
    requires |x| > 0 && |y| > 0
    ensures Known(k, nu, true, x, y) <==> nu || AlwaysBelow(k, y)
    ensures Known(k, true, nu, x, y) <==> nu || AlwaysAbove(k, x)
  {
  }

  /** An undef on the left. */
  lemma {:induction false} LeftAnswers(e: Expr, k: Kind, l: Shape, rhs: Expr, x: Bits, y: Bits, v: View, v2: View,
                                       m: Model)
    requires GoodSide(l, rhs) && e.Ite? && WF(e.t) && WF(e.e) && SortOf(e.t) == SortOf(e.e)
    requires |x| == |y| == Width(rhs) > 0 && v.value == x && v2.value == y && v2.known && Eval(rhs, m) == V(y)
    requires Eval(l.notUndef, m) == B(v.known) && Eval(l.stripped, m) == V(x)
    ensures Answers(StripLeft(k, l, rhs, e.t, e.e), k, l.stripped, rhs, e.t, e.e, v, v2, m)
  {
    hide WF, SortOf, Eval, MkIf, Compare, MkOr, MkEq, Greatest, AlwaysBelow, AlwaysAbove;
    KnownWhenFree(k, v.known, x, y);
    if k == KEq {
      NeverForEquality(k, y);
    } else {
      AlwaysBelowMeans(k, rhs, y, m);
      MkOrMeans(l.notUndef, MkEq(rhs, Greatest(k, Width(rhs))), m);
    }
  }

  /** An undef on the right. */
  lemma {:induction false} RightAnswers(e: Expr, k: Kind, lhs: Expr, r: Shape, x: Bits, y: Bits, v: View, v2: View,
                                        m: Model)
    requires GoodSide(r, lhs) && e.Ite? && WF(e.t) && WF(e.e) && SortOf(e.t) == SortOf(e.e)
    requires |x| == |y| == Width(lhs) > 0 && v.value == x && v2.value == y && v.known && Eval(lhs, m) == V(x)
    requires Eval(r.notUndef, m) == B(v2.known) && Eval(r.stripped, m) == V(y)
    ensures Answers(StripRight(k, lhs, r, e.t, e.e), k, lhs, r.stripped, e.t, e.e, v, v2, m)
  {
    hide WF, SortOf, Eval, MkIf, Compare, MkOr, MkEq, Least, AlwaysAbove, AlwaysBelow;
    KnownWhenFree(k, v2.known, x, y);
    if k == KEq {
      NeverForEquality(k, x);
    } else {
      AlwaysAboveMeans(k, lhs, x, m);
      MkOrMeans(r.notUndef, MkEq(lhs, Least(k, Width(lhs))), m);
    }
  }

  lemma {:induction false} NeverForEquality(k: Kind, x: Bits)
    requires |x| > 0
    ensures k == KEq ==> !AlwaysBelow(k, x) && !AlwaysAbove(k, x)
  {
  }

  /** Undefs on both sides. */
  lemma {:induction false} BothAnswer(e: Expr, k: Kind, l: Shape, r: Shape, x: Bits, y: Bits, v: View, v2: View,
                                      m: Model)
    requires GoodSide(l, r.stripped) && GoodSide(r, l.stripped) && e.Ite? && WF(e.t) && WF(e.e) &&
      SortOf(e.t) == SortOf(e.e)
    requires |x| == |y| == Width(l.stripped) == Width(r.stripped) > 0 && v.value == x && v2.value == y
    requires Eval(l.notUndef, m) == B(v.known) && Eval(l.stripped, m) == V(x)
    requires Eval(r.notUndef, m) == B(v2.known) && Eval(r.stripped, m) == V(y)
    ensures Answers(StripBoth(k, l, r, e.t, e.e), k, l.stripped, r.stripped, e.t, e.e, v, v2, m)
  {
    hide WF, SortOf, Eval, MkIf, Compare, MkAnd, OrderedCond, GreatestBits, LeastBits;
    if k == KEq {
      MkAndMeans(l.notUndef, r.notUndef, m);
    } else {
      OrderedCondMeans(k, l, r, v.known, v2.known, AlwaysAbove(k, x), AlwaysBelow(k, y), x, y, m);
    }
  }

  lemma {:induction false} OrderedCondMeans(k: Kind, l: Shape, r: Shape, nu: bool, nu2: bool, above: bool, below: bool,
                                            x: Bits, y: Bits, m: Model)
    requires |x| == |y| == Width(l.stripped) == Width(r.stripped) > 0 && k != KEq && above == AlwaysAbove(k, x) &&
      below == AlwaysBelow(k, y)
    requires GoodSide(l, r.stripped) && GoodSide(r, l.stripped) && Eval(l.stripped, m) == V(x) &&
      Eval(r.stripped, m) == V(y)
    requires Eval(l.notUndef, m) == B(nu) && Eval(r.notUndef, m) == B(nu2)
    ensures Eval(OrderedCond(k, l, r), m) == B((nu && nu2) || (nu && above) || (nu2 && below))
  {
    hide WF, SortOf, Eval, OrAnds, MkEq, Least, Greatest, AlwaysAbove, AlwaysBelow;
    var w := Width(l.stripped);
    AlwaysAboveMeans(k, l.stripped, x, m);
    AlwaysBelowMeans(k, r.stripped, y, m);
    AndOrMeans(l.notUndef, r.notUndef, MkEq(l.stripped, Least(k, w)), MkEq(r.stripped, Greatest(k, w)), nu, nu2, above,
               below, m);
  }

  lemma {:induction false} CondAnd(a: Expr, b: Expr, x: bool, y: bool, m: Model)
    requires IsCond(a) && IsCond(b) && Eval(a, m) == B(x) && Eval(b, m) == B(y)
    ensures IsCond(MkAnd(a, b)) && Eval(MkAnd(a, b), m) == B(x && y)
  {
    hide WF, SortOf, Eval, MkAnd;
    MkAndMeans(a, b, m);
  }

  lemma {:induction false} CondOr(a: Expr, b: Expr, x: bool, y: bool, m: Model)
    requires IsCond(a) && IsCond(b) && Eval(a, m) == B(x) && Eval(b, m) == B(y)
    ensures IsCond(MkOr(a, b)) && Eval(MkOr(a, b), m) == B(x || y)
  {
    hide WF, SortOf, Eval, MkOr;
    MkOrMeans(a, b, m);
  }

  lemma {:induction false} AndOrMeans(c: Expr, d: Expr, p: Expr, q: Expr, nu: bool, nu2: bool, above: bool,
                                      below: bool, m: Model)
    requires IsCond(c) && IsCond(d) && IsCond(p) && IsCond(q)
    requires Eval(c, m) == B(nu) && Eval(d, m) == B(nu2) && Eval(p, m) == B(above) && Eval(q, m) == B(below)
    ensures Eval(OrAnds(c, d, p, q), m) == B((nu && nu2) || (nu && above) || (nu2 && below))
  {
    hide WF, SortOf, Eval, MkOr, MkAnd;
    CondAnd(c, d, nu, nu2, m);
    CondAnd(c, p, nu, above, m);
    CondAnd(d, q, nu2, below, m);
    CondOr(MkAnd(c, d), MkAnd(c, p), nu && nu2, nu && above, m);
    CondOr(MkOr(MkAnd(c, d), MkAnd(c, p)), MkAnd(d, q), (nu && nu2) || (nu && above), nu2 && below, m);
  }

  /** A single input that may be undef: it must not be, also below zeros. */
  lemma {:induction false} InputExact(e: Expr, undefs: Names, m: Model)
    requires WF(e) && IsBv(e) && IsIfUndef(e, undefs) && !HasUndef(e.c, undefs) && !HasUndef(e.t, undefs)
    ensures ExactAt(e, Stripped(e.c, e.t), undefs, m)
  {
    var s := IfUndefOrAdd(e, undefs).value;
    hide WF, SortOf, Choice, Eval, HasUndef, IsUndefCond, IfUndefOrAdd, Contains;
    ShapeView(e, undefs, m);
    var v := ViewOf(e, undefs, m);
    ChoiceSelf(m, undefs);
    SideValue(e, undefs, m, v.side, m);
    if v.known {
      forall m' | Choice(m, m', undefs)
        ensures Eval(e, m') == V(v.value)
      {
        SideValue(e, undefs, m, v.side, m');
        Extremes(v.side.range, Eval(e, m').bits);
      }
    } else {
      var t := OtherIn(v.side.range, Eval(e, m).bits);
      var m' := SideReaches(e, undefs, m, v.side, m, t);
    }
  }

  /** An undef variable alone is never the same. */
  lemma {:induction false} UndefExact(e: Expr, undefs: Names, m: Model)
    requires WF(e) && IsUndef(e, undefs)
    ensures ExactAt(e, Stripped(Bool(false), UInt(0, Width(e))), undefs, m)
  {
    hide WF, Choice, SetNumber;
    EvalSort(e, m);
    var x := Eval(e, m).bits;
    var y := x[0 := !x[0]];
    assert y[0] != x[0];
    SetReads(m, e.name, y);
    SetIsChoice(m, e.name, y, undefs);
    OpenBool(Bool(false), m);
    assert Eval(e, SetNumber(m, e.name, y)) == V(y);
  }

  // ---- All shapes together ----

  /** The condition and replacement for a test on a comparison, if it has a known shape. */
  function StripTest(k: Kind, lhs: Expr, rhs: Expr, a: Expr, b: Expr, undefs: Names): (r: Option<Stripped>)
    requires SameBv(lhs, rhs) && SameBv(rhs, lhs) && WF(a) && WF(b) && SortOf(a) == SortOf(b)
  {
    var l, r := IfUndefOrAdd(lhs, undefs), IfUndefOrAdd(rhs, undefs);
    if l.Some? && !HasUndef(rhs, undefs) then Some(StripLeft(k, l.value, rhs, a, b))
    else if r.Some? && !HasUndef(lhs, undefs) then Some(StripRight(k, lhs, r.value, a, b))
    else if l.Some? && r.Some? then Some(StripBoth(k, l.value, r.value, a, b))
    else None
  }

  /** The kind of comparison a condition is. */
  function KindOf(c: Expr): (k: Option<Kind>)
    ensures k.Some? ==> (c.Eq? || c.SLe? || c.ULe?) && c == Compared(k.value, c.a, c.b)
  {
    if c.Eq? then Some(KEq) else if c.SLe? then Some(KSle) else if c.ULe? then Some(KUle) else None
  }

  predicate IsComparison(c: Expr) {
    KindOf(c).Some? && SameBv(c.a, c.b) && SameBv(c.b, c.a)
  }

  function Strip(e: Expr, undefs: Names): (r: Option<Stripped>)
    requires WF(e)
  {
    if IsUndef(e, undefs) then Some(Stripped(Bool(false), UInt(0, Width(e))))
    else if IsBv(e) && IsIfUndef(e, undefs) then Some(Stripped(e.c, e.t))
    else if e.Ite? && e.t.Bv? && e.e.Bv? && IsComparison(e.c) then
      StripTest(KindOf(e.c).value, e.c.a, e.c.b, e.t, e.e, undefs)
    else None
  }

  /** Inputs and their masks are not undef variables, and two inputs that may be undef have
      different undef variables. */
  ghost predicate PlainTest(lhs: Expr, rhs: Expr, undefs: Names)
    requires WF(lhs) && IsBv(lhs) && WF(rhs) && IsBv(rhs)
  {
    var l, r := IfUndefOrAdd(lhs, undefs), IfUndefOrAdd(rhs, undefs);
    && (l.Some? ==> PlainShape(l.value, undefs)) && (r.Some? ==> PlainShape(r.value, undefs))
    && (l.Some? && r.Some? ==> l.value.undef != r.value.undef)
  }

  ghost predicate Plain(e: Expr, undefs: Names) {
    && (IsIfUndef(e, undefs) ==> !HasUndef(e.c, undefs) && !HasUndef(e.t, undefs))
    && (e.Ite? && IsComparison(e.c) ==> PlainTest(e.c.a, e.c.b, undefs))
  }

  lemma {:induction false} SideGood(e: Expr, other: Expr, undefs: Names)
    requires SameBv(e, other) && IfUndefOrAdd(e, undefs).Some?
    ensures GoodSide(IfUndefOrAdd(e, undefs).value, other)
  {
    hide Eval, WF, SortOf, IfUndefOrAdd;
  }

  lemma {:induction false} LeftStripped(e: Expr, k: Kind, lhs: Expr, rhs: Expr, undefs: Names, m: Model, v: View,
                                        v2: View)
    requires IsTest(e, k, lhs, rhs) && WF(e.e) && SameBv(rhs, lhs) && IfUndefOrAdd(lhs, undefs).Some?
    requires PlainShape(IfUndefOrAdd(lhs, undefs).value, undefs) && GoodSide(IfUndefOrAdd(lhs, undefs).value, rhs)
    requires !HasUndef(rhs, undefs) && !Eval(rhs, m).Undef?
    requires v == ViewOf(lhs, undefs, m) && v2 == ViewOf(rhs, undefs, m)
    ensures |v.side.range.base| == |v2.side.range.base| > 0 && |v.value| > 0 && |v2.value| > 0
    ensures SoundAt(e, StripLeft(k, IfUndefOrAdd(lhs, undefs).value, rhs, e.t, e.e), undefs, m)
    ensures ExactAt(e, StripLeft(k, IfUndefOrAdd(lhs, undefs).value, rhs, e.t, e.e), undefs, m) <==> Sharp(k, v, v2)
  {
    hide WF, SortOf, Eval, IfUndefOrAdd, HasUndef, ExactAt, SoundAt, StripLeft, StripRight, StripBoth, PlainShape,
         Sharp, ViewOf, Answers, IsSide, IsRange;
    var l := IfUndefOrAdd(lhs, undefs).value;
    ShapeView(lhs, undefs, m);
    FreeView(rhs, undefs, m);
    LeftAnswers(e, k, l, rhs, v.value, v2.value, v, v2, m);
    NoNames(lhs);
    TestExactIff(e, k, lhs, rhs, undefs, m, StripLeft(k, l, rhs, e.t, e.e), l.stripped, rhs, v, v2);
  }

  lemma {:induction false} RightStripped(e: Expr, k: Kind, lhs: Expr, rhs: Expr, undefs: Names, m: Model, v: View,
                                         v2: View)
    requires IsTest(e, k, lhs, rhs) && WF(e.e) && SameBv(rhs, lhs) && IfUndefOrAdd(rhs, undefs).Some?
    requires PlainShape(IfUndefOrAdd(rhs, undefs).value, undefs) && GoodSide(IfUndefOrAdd(rhs, undefs).value, lhs)
    requires !HasUndef(lhs, undefs) && !Eval(lhs, m).Undef?
    requires v == ViewOf(lhs, undefs, m) && v2 == ViewOf(rhs, undefs, m)
    ensures |v.side.range.base| == |v2.side.range.base| > 0 && |v.value| > 0 && |v2.value| > 0
    ensures SoundAt(e, StripRight(k, lhs, IfUndefOrAdd(rhs, undefs).value, e.t, e.e), undefs, m)
    ensures ExactAt(e, StripRight(k, lhs, IfUndefOrAdd(rhs, undefs).value, e.t, e.e), undefs, m) <==> Sharp(k, v, v2)
  {
    hide WF, SortOf, Eval, IfUndefOrAdd, HasUndef, ExactAt, SoundAt, StripLeft, StripRight, StripBoth, PlainShape,
         Sharp, ViewOf, Answers, IsSide, IsRange;
    var r := IfUndefOrAdd(rhs, undefs).value;
    FreeView(lhs, undefs, m);
    ShapeView(rhs, undefs, m);
    RightAnswers(e, k, lhs, r, v.value, v2.value, v, v2, m);
    FewerNames(lhs, undefs, v2.side.names);
    TestExactIff(e, k, lhs, rhs, undefs, m, StripRight(k, lhs, r, e.t, e.e), lhs, r.stripped, v, v2);
  }

  lemma {:induction false} BothStripped(e: Expr, k: Kind, lhs: Expr, rhs: Expr, undefs: Names, m: Model, v: View,
                                        v2: View)
    requires IsTest(e, k, lhs, rhs) && WF(e.e) && SameBv(rhs, lhs) && IfUndefOrAdd(lhs, undefs).Some? &&
      IfUndefOrAdd(rhs, undefs).Some?
    requires PlainShape(IfUndefOrAdd(lhs, undefs).value, undefs) && PlainShape(IfUndefOrAdd(rhs, undefs).value, undefs)
    requires IfUndefOrAdd(lhs, undefs).value.undef != IfUndefOrAdd(rhs, undefs).value.undef
    requires GoodSide(IfUndefOrAdd(lhs, undefs).value, IfUndefOrAdd(rhs, undefs).value.stripped)
    requires GoodSide(IfUndefOrAdd(rhs, undefs).value, IfUndefOrAdd(lhs, undefs).value.stripped)
    requires v == ViewOf(lhs, undefs, m) && v2 == ViewOf(rhs, undefs, m)
    ensures |v.side.range.base| == |v2.side.range.base| > 0 && |v.value| > 0 && |v2.value| > 0
    ensures SoundAt(e, StripBoth(k, IfUndefOrAdd(lhs, undefs).value, IfUndefOrAdd(rhs, undefs).value, e.t, e.e),
                    undefs, m)
    ensures Sharp(k, v, v2) <==>
      ExactAt(e, StripBoth(k, IfUndefOrAdd(lhs, undefs).value, IfUndefOrAdd(rhs, undefs).value, e.t, e.e), undefs, m)
  {
    hide WF, SortOf, Eval, IfUndefOrAdd, HasUndef, ExactAt, SoundAt, StripLeft, StripRight, StripBoth, PlainShape,
         Sharp, ViewOf, Answers, IsSide, IsRange;
    var l, r := IfUndefOrAdd(lhs, undefs).value, IfUndefOrAdd(rhs, undefs).value;
    ShapeView(lhs, undefs, m);
    ShapeView(rhs, undefs, m);
    BothAnswer(e, k, l, r, v.value, v2.value, v, v2, m);
    ShapeVars(lhs, undefs, r.undef);
    TestExactIff(e, k, lhs, rhs, undefs, m, StripBoth(k, l, r, e.t, e.e), l.stripped, r.stripped, v, v2);
  }

  /** A test is stripped soundly, and exactly iff what the ranges decide is what the shortcut
      takes for decided. */
  lemma {:induction false} TestStripped(e: Expr, k: Kind, lhs: Expr, rhs: Expr, undefs: Names, m: Model, v: View,
                                        v2: View)
    requires IsTest(e, k, lhs, rhs) && WF(e.e) && SameBv(rhs, lhs) && PlainTest(lhs, rhs, undefs)
    requires StripTest(k, lhs, rhs, e.t, e.e, undefs).Some? && !Eval(lhs, m).Undef? && !Eval(rhs, m).Undef?
    requires v == ViewOf(lhs, undefs, m) && v2 == ViewOf(rhs, undefs, m)
    ensures |v.side.range.base| == |v2.side.range.base| > 0 && |v.value| > 0 && |v2.value| > 0
    ensures SoundAt(e, StripTest(k, lhs, rhs, e.t, e.e, undefs).value, undefs, m)
    ensures ExactAt(e, StripTest(k, lhs, rhs, e.t, e.e, undefs).value, undefs, m) <==> Sharp(k, v, v2)
  {
    hide WF, SortOf, Eval, IfUndefOrAdd, HasUndef, ExactAt, SoundAt, StripLeft, StripRight, StripBoth, PlainShape,
         Sharp, ViewOf;
    var l, r := IfUndefOrAdd(lhs, undefs), IfUndefOrAdd(rhs, undefs);
    if l.Some? && !HasUndef(rhs, undefs) {
      SideGood(lhs, rhs, undefs);
      LeftStripped(e, k, lhs, rhs, undefs, m, v, v2);
    } else if r.Some? && !HasUndef(lhs, undefs) {
      SideGood(rhs, lhs, undefs);
      RightStripped(e, k, lhs, rhs, undefs, m, v, v2);
    } else {
      BothStripped(e, k, lhs, rhs, undefs, m, v, v2);
    }
  }

  lemma NoNames(e: Expr)
    ensures !HasUndef(e, {})
  {
  }

  lemma FewerNames(e: Expr, undefs: Names, names: Names)
    requires !HasUndef(e, undefs)
    ensures names <= undefs ==> !HasUndef(e, names)
  {
  }

  /** The comparison of a test is not decided by anything a shortcut does not look at. */
  ghost predicate SharpTest(e: Expr, undefs: Names, m: Model)
    requires e.Ite? && IsComparison(e.c)
  {
    var v, v2 := ViewOf(e.c.a, undefs, m), ViewOf(e.c.b, undefs, m);
    && |v.side.range.base| == |v2.side.range.base| > 0 && |v.value| > 0 && |v2.value| > 0
    && Sharp(KindOf(e.c).value, v, v2)
  }

  /** Every shortcut is sound: its condition implies that the term has the same value for every
      choice of the undef variables, and its replacement then has that value. It is exact for an
      undef variable and a single input, and for a test iff the test is sharp. */
  lemma {:induction false} StripExact(e: Expr, undefs: Names, m: Model)
    requires WF(e) && Strip(e, undefs).Some? && Plain(e, undefs) && (e.Ite? ==> e.t != e.e) && !Eval(e, m).Undef?
    ensures SoundAt(e, Strip(e, undefs).value, undefs, m)
    ensures ExactAt(e, Strip(e, undefs).value, undefs, m) <==>
      IsUndef(e, undefs) || (IsBv(e) && IsIfUndef(e, undefs)) || SharpTest(e, undefs, m)
  {
    hide Eval, IfUndefOrAdd, HasUndef, StripTest, SortOf, Fixed, Sharp, ViewOf;
    if IsUndef(e, undefs) {
      UndefExact(e, undefs, m);
    } else if IsBv(e) && IsIfUndef(e, undefs) {
      InputExact(e, undefs, m);
    } else {
      hide WF, SoundAt, ExactAt;
      var k := KindOf(e.c).value;
      OpenIte(e, m);
      ComparedDefined(k, e.c, m);
      TestStripped(e, k, e.c.a, e.c.b, undefs, m, ViewOf(e.c.a, undefs, m), ViewOf(e.c.b, undefs, m));
    }
  }

  lemma {:induction false} ComparedDefined(k: Kind, c: Expr, m: Model)
    requires (c.Eq? || c.SLe? || c.ULe?) && !Eval(c, m).Undef?
    ensures !Eval(c.a, m).Undef? && !Eval(c.b, m).Undef?
  {
  }

  /** A side whose undef variable has no zeros above it. */
  ghost predicate Unpadded(e: Expr, undefs: Names)
    requires WF(e) && IsBv(e)
  {
    IfUndefOrAdd(e, undefs).Some? ==> IfUndefOrAdd(e, undefs).value.span == Width(e)
  }

  /** Without such zeros every shortcut is exact. */
  lemma {:induction false} PlainExact(e: Expr, undefs: Names, m: Model)
    requires WF(e) && Strip(e, undefs).Some? && Plain(e, undefs) && (e.Ite? ==> e.t != e.e) && !Eval(e, m).Undef?
    requires e.Ite? && IsComparison(e.c) ==> Unpadded(e.c.a, undefs) && Unpadded(e.c.b, undefs)
    ensures ExactAt(e, Strip(e, undefs).value, undefs, m)
  {
    StripExact(e, undefs, m);
    if !IsUndef(e, undefs) && !(IsBv(e) && IsIfUndef(e, undefs)) {
      hide Eval, IfUndefOrAdd, HasUndef, StripLeft, StripRight, StripBoth, SortOf, Fixed, ExactAt, SoundAt, WF;
      OpenIte(e, m);
      ComparedDefined(KindOf(e.c).value, e.c, m);
      PlainSharp(KindOf(e.c).value, e.c.a, e.c.b, e.t, e.e, undefs, m, ViewOf(e.c.a, undefs, m),
                 ViewOf(e.c.b, undefs, m));
    }
  }

  /** What is known of a side without zeros above its undef variable. */
  lemma {:induction false} UnpaddedView(e: Expr, undefs: Names, m: Model, v: View)
    requires WF(e) && IsBv(e) && v == ViewOf(e, undefs, m) && Unpadded(e, undefs) && !Eval(e, m).Undef?
    requires if IfUndefOrAdd(e, undefs).Some? then PlainShape(IfUndefOrAdd(e, undefs).value, undefs)
      else !HasUndef(e, undefs)
    ensures |v.value| == Width(e) && IsRange(v.side.range, Width(e))
    ensures v.side.range == if v.known then Range(v.value, 0) else Range(v.side.range.base, Width(e))
  {
    hide Eval, IfUndefOrAdd, HasUndef, SortOf, WF, ViewOf, PlainShape, IsSide;
    if IfUndefOrAdd(e, undefs).Some? {
      ShapeView(e, undefs, m);
    } else {
      FreeView(e, undefs, m);
    }
    SideRange(e, undefs, m, v.side);
  }

  lemma {:induction false} PlainSharp(k: Kind, lhs: Expr, rhs: Expr, a: Expr, b: Expr, undefs: Names, m: Model,
                                      v: View, v2: View)
    requires SameBv(lhs, rhs) && SameBv(rhs, lhs) && WF(a) && WF(b) && SortOf(a) == SortOf(b) &&
      PlainTest(lhs, rhs, undefs)
    requires StripTest(k, lhs, rhs, a, b, undefs).Some? && !Eval(lhs, m).Undef? && !Eval(rhs, m).Undef?
    requires Unpadded(lhs, undefs) && Unpadded(rhs, undefs) && v == ViewOf(lhs, undefs, m) &&
      v2 == ViewOf(rhs, undefs, m)
    ensures |v.side.range.base| == |v2.side.range.base| > 0 && |v.value| > 0 && |v2.value| > 0 && Sharp(k, v, v2)
  {
    hide Eval, IfUndefOrAdd, HasUndef, StripLeft, StripRight, StripBoth, SortOf, WF, ViewOf, PlainShape, Decided,
         Known, Unpadded;
    UnpaddedView(lhs, undefs, m, v);
    UnpaddedView(rhs, undefs, m, v2);
    if Decided(k, v.side.range, v2.side.range) {
      PlainKnown(k, v.known, v2.known, v.value, v2.value, v.side.range, v2.side.range);
    }
  }

  // ---- Undef variables below zeros ----

  /** An undef variable of `n` bits below zeros, compared with `y`: when the shortcut is exact.
      For equality the bits of `y` above the variable must be zero; for an order, `y` must be
      among the values of the variable but not their largest, or above everything. */
  lemma {:induction false} PaddedOnLeft(k: Kind, n: nat, x: Bits, y: Bits)
    requires 0 < n < |x| == |y|
    ensures var v, v2 := View(false, x, Side(Range(Zeros(|x|), n), {})), View(true, y, Side(Range(y, 0), {}));
      Sharp(k, v, v2) <==>
        match k
        case KEq => y[n..] == Zeros(|y| - n)
        case KUle => ToNat(y) < Pow2(n) - 1 || y == Ones(|y|)
        case KSle => 0 <= ToInt(y) < Pow2(n) - 1 || y == GreatestBits(KSle, |y|)
  {
    PaddedPlaces(k, n, y);
    hide LeastBits, GreatestBits, ToNat, Pow2, Fill;
  }

  /** The same with the undef variable on the right: for an order, `x` must be among the values
      of the variable but not the least, or below everything. */
  lemma {:induction false} PaddedOnRight(k: Kind, n: nat, x: Bits, y: Bits)
    requires 0 < n < |x| == |y|
    ensures var v, v2 := View(true, x, Side(Range(x, 0), {})), View(false, y, Side(Range(Zeros(|x|), n), {}));
      Sharp(k, v, v2) <==>
        match k
        case KEq => x[n..] == Zeros(|x| - n)
        case KUle => ToNat(x) < Pow2(n)
        case KSle => 0 < ToInt(x) < Pow2(n) || x == LeastBits(KSle, |x|)
  {
    PaddedPlaces(k, n, x);
    hide LeastBits, GreatestBits, ToNat, Pow2, Fill;
  }

  lemma {:induction false} PaddedPlaces(k: Kind, n: nat, y: Bits)
    requires 0 < n < |y|
    ensures var z, p := Zeros(|y|), Pow2(|y|);
      && ToNat(z) == 0 && Pow2(0) == 1 && p == 2 * Pow2(|y| - 1) && 2 <= Pow2(n) <= Pow2(|y| - 1)
      && (y[n..] == Zeros(|y| - n) <==> ToNat(y) < Pow2(n))
      && (Negative(y) <==> ToNat(y) >= Pow2(|y| - 1))
      && (k != KEq ==> (AlwaysBelow(k, y) <==> Place(k, y) == p - 1) && (AlwaysAbove(k, y) <==> Place(k, y) == 0))
      && (y == Ones(|y|) <==> ToNat(y) == p - 1)
      && (y == GreatestBits(KSle, |y|) <==> Place(KSle, y) == p - 1) &&
      (y == LeastBits(KSle, |y|) <==> Place(KSle, y) == 0)
  {
    var w := |y|;
    ToNatFill(w);
    SignIs(y);
    Pow2Monotone(n, w - 1);
    Pow2Monotone(1, n);
    ToNatLow(y, n);
    ToNatZero(y[n..]);
    ToNatZero(y);
    assert Pow2(1) == 2 && Pow2(0) == 1;
    if k != KEq {
      ExtremePlaces(k, y);
    }
    ExtremePlaces(KSle, y);
    hide ToNat, Pow2, Fill, LeastBits, GreatestBits;
    QuotientZero(ToNat(y), Pow2(n));
  }

  lemma QuotientZero(n: nat, d: nat)
    requires d > 0
    ensures n / d == 0 <==> n < d
  {
    assert n == d * (n / d) + n % d;
    if n < d {
      DivModUnique(n, d, 0, n);
    }
  }

  /** A two-bit input that may be undef, compared with the constant 2; its undef variable has a
      zero bit above it. */
  function PaddedNotUndef(): Expr {
    Eq(Bv([false]), Var("isundef_x", SBv(1)))
  }

  function PaddedTest(): Expr {
    Ite(Eq(Ite(PaddedNotUndef(), Var("x", SBv(2)), Concat(Bv([false]), Var("u", SBv(1)))), Bv([false, true])),
        Bv([true]), Bv([false]))
  }

  /** The shortcut asks for a defined input, although an undef one makes the test false whatever
      the undef variable is. */
  lemma {:induction false} PaddedIsConservative(m: Model)
    requires Number(m.nums, "isundef_x") == 1
    ensures WF(PaddedTest()) && Strip(PaddedTest(), {"u"}).Some? &&
      Strip(PaddedTest(), {"u"}).value.cond == PaddedNotUndef()
    ensures Fixed(PaddedTest(), {"u"}, m) && Eval(PaddedNotUndef(), m) == B(false)
  {
    PaddedStrip();
    hide Eval, Strip, Fixed;
    PaddedMask(m);
    ChoiceSelf(m, {"u"});
    forall m' | Choice(m, m', {"u"})
      ensures Eval(PaddedTest(), m') == V([false])
    {
      PaddedMask(m');
      PaddedValue(m');
    }
    assert Fixed(PaddedTest(), {"u"}, m) by { AllSame(PaddedTest(), {"u"}, m, V([false])); }
  }

  lemma AllSame(e: Expr, undefs: Names, m: Model, x: Value)
    requires forall m' :: Choice(m, m', undefs) ==> Eval(e, m') == x
    ensures Fixed(e, undefs, m)
  {
    hide Eval;
    ChoiceSelf(m, undefs);
  }

  lemma {:induction false} PaddedStrip()
    ensures WF(PaddedTest()) && Strip(PaddedTest(), {"u"}).Some? &&
      Strip(PaddedTest(), {"u"}).value.cond == PaddedNotUndef()
  {
    var lhs := Ite(PaddedNotUndef(), Var("x", SBv(2)), Concat(Bv([false]), Var("u", SBv(1))));
    assert "isundef_" + "x" == "isundef_x";
    assert ToNat([false]) == 0;
    assert IsIfUndef(lhs, {"u"});
    assert Vars(Bv([false, true])) == {};
    hide MkIf, Compare, MkAdd;
  }

  lemma {:induction false} PaddedMask(m: Model)
    requires Number(m.nums, "isundef_x") == 1
    ensures Eval(PaddedNotUndef(), m) == B(false)
  {
    assert FromNat(1, 1) == [true];
  }

  lemma {:induction false} PaddedValue(m: Model)
    requires Eval(PaddedNotUndef(), m) == B(false)
    ensures Eval(PaddedTest(), m) == V([false])
  {
    var x, u, c := Var("x", SBv(2)), Concat(Bv([false]), Var("u", SBv(1))), Bv([false, true]);
    var lhs := Ite(PaddedNotUndef(), x, u);
    assert Eval(x, m).V? && |Eval(x, m).bits| == 2;
    assert Eval(u, m).V? && |Eval(u, m).bits| == 2 && !Eval(u, m).bits[1];
    hide Eval, PaddedNotUndef;
    OpenIte(lhs, m);
    OpenBv(c, m);
    OpenEq(Eq(lhs, c), m);
    OpenBv(Bv([true]), m);
    OpenBv(Bv([false]), m);
    OpenIte(PaddedTest(), m);
    assert Eval(u, m).bits[1] != [false, true][1];
  }

  // ---- The fallback ----

  /** Fresh names for the undef variables, and back. */
  datatype Renaming = Renaming(to: map<string, string>, back: map<string, string>)

  ghost predicate Renames(r: Renaming, undefs: Names) {
    && (forall x :: x in undefs ==> x in r.to && r.to[x] in r.back && r.back[r.to[x]] == x)
    && (forall y :: y in r.back ==> r.back[y] in undefs && r.to[r.back[y]] == y)
  }

  /** Undef variables have one width each, and the new names are not in use. */
  ghost predicate Renamable(e: Expr, r: Renaming, undefs: Names, widths: map<string, nat>) {
    && Renames(r, undefs) && !HasUndef(e, r.back.Keys) && r.back.Keys !! undefs
    && forall v :: v in Vars(e) && v.0 in undefs ==> v.0 in widths && v.1 == SBv(widths[v.0])
  }

  /** Every undef variable replaced by its fresh one. */
  ghost function Replacements(r: Renaming, undefs: Names, widths: map<string, nat>): map<string, Expr>
    requires Renames(r, undefs)
  {
    map x | x in undefs && x in widths :: Var(r.to[x], SBv(widths[x]))
  }

  /** The condition of the fallback, for all values of the fresh variables. */
  ghost predicate FallbackHolds(e: Expr, r: Renaming, undefs: Names, widths: map<string, nat>, m: Model)
    requires Renames(r, undefs)
  {
    forall m' :: Choice(m, m', r.back.Keys) ==>
      EqV(Eval(e, m'), Eval(Subst(e, Replacements(r, undefs, widths)), m')) == B(true)
  }

  lemma {:induction false} RenamedValue(e: Expr, r: Renaming, undefs: Names, widths: map<string, nat>, m: Model,
                                        m': Model, env: Model)
    requires Renamable(e, r, undefs, widths) && Choice(m, m', r.back.Keys) && Choice(m, env, undefs)
    requires forall x :: x in undefs ==> Number(env.nums, x) == Number(m'.nums, r.to[x])
    ensures Eval(Subst(e, Replacements(r, undefs, widths)), m') == Eval(e, env)
  {
    var values := Replacements(r, undefs, widths);
    forall v | v in Vars(e)
      ensures Eval(Subst(Var(v.0, v.1), values), m') == Eval(Var(v.0, v.1), env)
    {
      RenamedVar(v.0, v.1, r, undefs, widths, m, m', env);
    }
    hide Eval, Subst, Vars;
    SubstMeans(e, values, m', env);
  }

  lemma {:induction false} RenamedVar(x: string, s: Sort, r: Renaming, undefs: Names, widths: map<string, nat>,
                                      m: Model, m': Model, env: Model)
    requires Renames(r, undefs) && x !in r.back && (x in undefs ==> x in widths && s == SBv(widths[x]))
    requires Choice(m, m', r.back.Keys) && Choice(m, env, undefs)
    requires forall x :: x in undefs ==> Number(env.nums, x) == Number(m'.nums, r.to[x])
    ensures Eval(Subst(Var(x, s), Replacements(r, undefs, widths)), m') == Eval(Var(x, s), env)
  {
  }

  /** The fallback's condition holds for all values of the fresh variables iff the term has a
      value and it is the same for every choice: this is what the shortcuts must match. */
  lemma {:induction false} FallbackExact(e: Expr, r: Renaming, undefs: Names, widths: map<string, nat>, m: Model)
    requires WF(e) && Renamable(e, r, undefs, widths)
    ensures FallbackHolds(e, r, undefs, widths, m) <==> Fixed(e, undefs, m) && !Eval(e, m).Undef?
  {
    hide Eval, Subst, Vars, HasUndef, Choice;
    if FallbackHolds(e, r, undefs, widths, m) {
      FallbackAt(e, r, undefs, widths, m, m);
      forall m2 | Choice(m, m2, undefs)
        ensures Eval(e, m2) == Eval(e, m) && !Eval(e, m).Undef?
      {
        FallbackAt(e, r, undefs, widths, m, m2);
      }
    } else {
      var m' :| Choice(m, m', r.back.Keys) &&
        EqV(Eval(e, m'), Eval(Subst(e, Replacements(r, undefs, widths)), m')) != B(true);
      var env := EnvOf(r, undefs, m, m');
      RenamedValue(e, r, undefs, widths, m, m', env);
      NoUndefFixed(e, r.back.Keys, m, m');
      EvalSort(e, m);
      if !Eval(e, m).Undef? {
        ValueSame(e, m);
      }
    }
  }

  lemma ValueSame(e: Expr, m: Model)
    requires WF(e) && OfSort(Eval(e, m), SortOf(e)) && !Eval(e, m).Undef?
    ensures EqV(Eval(e, m), Eval(e, m)) == B(true)
  {
  }

  /** The choice that the fresh variables stand for. */
  lemma {:induction false} EnvOf(r: Renaming, undefs: Names, m: Model, m': Model) returns (env: Model)
    requires Renames(r, undefs)
    ensures Choice(m, env, undefs) && forall x :: x in undefs ==> Number(env.nums, x) == Number(m'.nums, r.to[x])
  {
    env := m.(nums := m.nums + map x | x in undefs :: Number(m'.nums, r.to[x]));
  }

  lemma {:induction false} FallbackAt(e: Expr, r: Renaming, undefs: Names, widths: map<string, nat>, m: Model,
                                      m2: Model)
    requires Renamable(e, r, undefs, widths) && FallbackHolds(e, r, undefs, widths, m) &&
      (m2 == m || Choice(m, m2, undefs))
    ensures Eval(e, m2) == Eval(e, m) && !Eval(e, m).Undef?
  {
    hide Eval, Subst, Vars, HasUndef, Choice, Number;
    ChoiceSelf(m, undefs);
    var m' := FreshOf(r, undefs, m, m2);
    RenamedValue(e, r, undefs, widths, m, m', m2);
    NoUndefFixed(e, r.back.Keys, m, m');
  }

  /** The fresh variables given the values of a choice. */
  lemma {:induction false} FreshOf(r: Renaming, undefs: Names, m: Model, m2: Model) returns (m': Model)
    requires Renames(r, undefs)
    ensures Choice(m, m', r.back.Keys) && forall x :: x in undefs ==> Number(m2.nums, x) == Number(m'.nums, r.to[x])
  {
    m' := m.(nums := m.nums + map y | y in r.back :: Number(m2.nums, r.back[y]));
  }

  /** A sharp shortcut adds a condition that holds iff the fallback's does. */
  lemma {:induction false} ShortcutMatchesFallback(e: Expr, r: Renaming, undefs: Names, widths: map<string, nat>,
                                                   m: Model)
    requires WF(e) && Strip(e, undefs).Some? && Plain(e, undefs) && (e.Ite? ==> e.t != e.e) && !Eval(e, m).Undef?
    requires ExactAt(e, Strip(e, undefs).value, undefs, m) && Renamable(e, r, undefs, widths)
    ensures Eval(Strip(e, undefs).value.cond, m) == B(true) <==> FallbackHolds(e, r, undefs, widths, m)
  {
    hide Eval, Strip, Plain, Renamable, FallbackHolds, Fixed;
    FallbackExact(e, r, undefs, widths, m);
  }
}

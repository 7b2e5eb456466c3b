/** SMT terms as the expression layer builds them, and their meaning. */
module Terms {
  import opened Bits

  datatype Sort = SBool | SBv(width: nat)

  datatype Op = OAdd | OMul | OAnd | OOr | OXor | OShl | OLshr | OAshr | OUdiv | OUrem | OSdiv | OSrem

  datatype Expr =
    | Bool(val: bool)
    | Bv(bits: Bits)
    | Var(name: string, sort: Sort)
    | Not(a: Expr)
    | And(a: Expr, b: Expr)
    | Or(a: Expr, b: Expr)
    | Eq(a: Expr, b: Expr)
    | ULe(a: Expr, b: Expr)
    | SLe(a: Expr, b: Expr)
    | Ite(c: Expr, t: Expr, e: Expr)
    | Bin(op: Op, a: Expr, b: Expr)
    | BvNot(a: Expr)
    | Concat(a: Expr, b: Expr)
    | Extract(a: Expr, high: nat, low: nat)
    | SignExt(a: Expr, amount: nat)
    | Select(arr: Array, idx: Expr)

  datatype Array =
    | ArrVar(name: string, iw: nat, vw: nat)
    | ConstArr(iw: nat, val: Expr)
    | Store(arr: Array, idx: Expr, val: Expr)
    | IteArr(c: Expr, t: Array, e: Array)

  // ---- Sorts ----

  function SortOf(e: Expr): Sort
    decreases e, 0
  {
    match e
    case Bool(_) => SBool
    case Bv(bits) => SBv(|bits|)
    case Var(_, s) => s
    case Not(_) => SBool
    case And(_, _) => SBool
    case Or(_, _) => SBool
    case Eq(_, _) => SBool
    case ULe(_, _) => SBool
    case SLe(_, _) => SBool
    case Ite(_, t, _) => SortOf(t)
    case Bin(_, a, _) => SortOf(a)
    case BvNot(a) => SortOf(a)
    case Concat(a, b) => SBv(Width(a) + Width(b))
    case Extract(_, high, low) => SBv(if low <= high then high - low + 1 else 0)
    case SignExt(a, amount) => SBv(Width(a) + amount)
    case Select(arr, _) => SBv(ValueWidth(arr))
  }

  function Width(e: Expr): nat
    decreases e, 1
  {
    match SortOf(e)
    case SBool => 1
    case SBv(w) => w
  }

  function ValueWidth(arr: Array): nat
    decreases arr, 0
  {
    match arr
    case ArrVar(_, _, vw) => vw
    case ConstArr(_, v) => Width(v)
    case Store(a, _, _) => ValueWidth(a)
    case IteArr(_, t, _) => ValueWidth(t)
  }

  function IndexWidth(arr: Array): nat {
    match arr
    case ArrVar(_, iw, _) => iw
    case ConstArr(iw, _) => iw
    case Store(a, _, _) => IndexWidth(a)
    case IteArr(_, t, _) => IndexWidth(t)
  }

  predicate IsBv(e: Expr) {
    SortOf(e).SBv?
  }

  /** Well-sorted, with no zero-width bit-vectors. */
  predicate WF(e: Expr)
    ensures WF(e) ==> Width(e) > 0
    decreases e, 0
  {
    match e
    case Bool(_) => true
    case Bv(bits) => bits != []
    case Var(_, s) => s.SBv? ==> s.width > 0
    case Not(a) => WF(a) && SortOf(a) == SBool
    case And(a, b) => WF(a) && WF(b) && SortOf(a) == SBool && SortOf(b) == SBool
    case Or(a, b) => WF(a) && WF(b) && SortOf(a) == SBool && SortOf(b) == SBool
    case Eq(a, b) => WF(a) && WF(b) && SortOf(a) == SortOf(b)
    case ULe(a, b) => WF(a) && WF(b) && IsBv(a) && SortOf(a) == SortOf(b)
    case SLe(a, b) => WF(a) && WF(b) && IsBv(a) && SortOf(a) == SortOf(b)
    case Ite(c, t, e) => WF(c) && WF(t) && WF(e) && SortOf(c) == SBool && SortOf(t) == SortOf(e)
    case Bin(_, a, b) => WF(a) && WF(b) && IsBv(a) && SortOf(a) == SortOf(b)
    case BvNot(a) => WF(a) && IsBv(a)
    case Concat(a, b) => WF(a) && WF(b) && IsBv(a) && IsBv(b)
    case Extract(a, high, low) => WF(a) && IsBv(a) && low <= high < Width(a)
    case SignExt(a, _) => WF(a) && IsBv(a)
    case Select(arr, idx) => WFArray(arr) && WF(idx) && SortOf(idx) == SBv(IndexWidth(arr))
  }

  predicate WFArray(arr: Array)
    ensures WFArray(arr) ==> ValueWidth(arr) > 0 && IndexWidth(arr) > 0
    decreases arr, 0
  {
    match arr
    case ArrVar(_, iw, vw) => iw > 0 && vw > 0
    case ConstArr(iw, v) => iw > 0 && WF(v) && IsBv(v)
    case Store(a, i, v) => WFArray(a) && WF(i) && WF(v) && SortOf(i) == SBv(IndexWidth(a)) &&
    SortOf(v) == SBv(ValueWidth(a))
    case IteArr(c, t, e) =>
      && WF(c) && SortOf(c) == SBool && WFArray(t) && WFArray(e)
      && IndexWidth(t) == IndexWidth(e) && ValueWidth(t) == ValueWidth(e)
  }

  // ---- Meaning ----

  /** A valuation of the variables; those it does not mention are zero or false. */
  datatype Model = Model(nums: map<string, nat>, bools: map<string, bool>, arrays: map<string, map<nat, nat>>)

  function Number(m: map<string, nat>, x: string): nat {
    if x in m then m[x] else 0
  }

  function Cell(m: map<string, map<nat, nat>>, x: string, i: nat): nat {
    if x in m && i in m[x] then m[x][i] else 0
  }

  function Apply(op: Op, x: Bits, y: Bits): (r: Bits)
    requires |x| == |y| > 0
    ensures |r| == |x|
  {
    match op
    case OAdd => Add(x, y)
    case OMul => Mul(x, y)
    case OAnd => BitAnd(x, y)
    case OOr => BitOr(x, y)
    case OXor => BitXor(x, y)
    case OShl => ShiftLeft(x, ToNat(y))
    case OLshr => ShiftRight(x, ToNat(y), false)
    case OAshr => ShiftRight(x, ToNat(y), Negative(x))
    case OUdiv => Udiv(x, y)
    case OUrem => Urem(x, y)
    case OSdiv => Sdiv(x, y)
    case OSrem => Srem(x, y)
  }

  /** `Undef` is the value of ill-sorted terms and of divisions by zero or that overflow.
      A term is undefined where a part that decides its value is: the branch not taken of an
      if-then-else does not, nor does one side of an `and` or `or` that the other decides. */
  datatype Value = B(val: bool) | V(bits: Bits) | Undef

  predicate SameSort(x: Value, y: Value) {
    (x.B? && y.B?) || (x.V? && y.V? && |x.bits| == |y.bits| > 0)
  }

  function NotV(x: Value): Value {
    if x.B? then B(!x.val) else Undef
  }

  function AndV(x: Value, y: Value): Value {
    if x.B? && y.B? then B(x.val && y.val)
    else if x == B(false) || y == B(false) then B(false) else Undef
  }

  function OrV(x: Value, y: Value): Value {
    if x.B? && y.B? then B(x.val || y.val)
    else if x == B(true) || y == B(true) then B(true) else Undef
  }

  function EqV(x: Value, y: Value): Value {
    if SameSort(x, y) then B(x == y) else Undef
  }

  function UleV(x: Value, y: Value): Value {
    if x.V? && SameSort(x, y) then B(Ule(x.bits, y.bits)) else Undef
  }

  function SleV(x: Value, y: Value): Value {
    if x.V? && SameSort(x, y) then B(Sle(x.bits, y.bits)) else Undef
  }

  function IteV(c: Value, x: Value, y: Value): Value {
    if c.B? then if c.val then x else y else Undef
  }

  function BinV(op: Op, x: Value, y: Value): Value {
    if x.V? && SameSort(x, y) && Divides(op, x.bits, y.bits) then V(Apply(op, x.bits, y.bits)) else Undef
  }

  function BvNotV(x: Value): Value {
    if x.V? then V(BitNot(x.bits)) else Undef
  }

  function ConcatV(x: Value, y: Value): Value {
    if x.V? && y.V? then V(y.bits + x.bits) else Undef
  }

  function ExtractV(x: Value, high: nat, low: nat): Value {
    if x.V? && low <= high < |x.bits| then V(x.bits[low..high + 1]) else Undef
  }

  function SextV(x: Value, k: nat): Value {
    if x.V? && x.bits != [] then V(SignExtend(x.bits, k)) else Undef
  }

  /** An element after a store at index `j`, when the element at `i` was `old`. */
  function StoreV(cell: Value, i: Bits, j: Value, x: Value): Value {
    if cell.V? && j.V? && SameSort(cell, x) then if j.bits == i then x else cell else Undef
  }

  function Eval(e: Expr, m: Model): (r: Value)
    decreases e, 0
  {
    match e
    case Bool(b) => B(b)
    case Bv(bits) => V(bits)
    case Var(x, SBool) => B(x in m.bools && m.bools[x])
    case Var(x, SBv(w)) => V(FromNat(Number(m.nums, x), w))
    case Not(a) => NotV(Eval(a, m))
    case And(a, b) => AndV(Eval(a, m), Eval(b, m))
    case Or(a, b) => OrV(Eval(a, m), Eval(b, m))
    case Eq(a, b) => EqV(Eval(a, m), Eval(b, m))
    case ULe(a, b) => UleV(Eval(a, m), Eval(b, m))
    case SLe(a, b) => SleV(Eval(a, m), Eval(b, m))
    case Ite(c, t, e) => IteV(Eval(c, m), Eval(t, m), Eval(e, m))
    case Bin(op, a, b) => BinV(op, Eval(a, m), Eval(b, m))
    case BvNot(a) => BvNotV(Eval(a, m))
    case Concat(a, b) => ConcatV(Eval(a, m), Eval(b, m))
    case Extract(a, high, low) => ExtractV(Eval(a, m), high, low)
    case SignExt(a, amount) => SextV(Eval(a, m), amount)
    case Select(arr, idx) => if Eval(idx, m).V? then EvalAt(arr, Eval(idx, m).bits, m) else Undef
  }

  /** The array's element at index `i`. */
  function EvalAt(arr: Array, i: Bits, m: Model): (r: Value)
    decreases arr, 0
  {
    match arr
    case ArrVar(x, _, vw) => V(FromNat(Cell(m.arrays, x, ToNat(i)), vw))
    case ConstArr(_, v) => Eval(v, m)
    case Store(a, j, v) => StoreV(EvalAt(a, i, m), i, Eval(j, m), Eval(v, m))
    case IteArr(c, t, e) => IteV(Eval(c, m), EvalAt(t, i, m), EvalAt(e, i, m))
  }

  predicate Divides(op: Op, x: Bits, y: Bits)
    requires |x| == |y| > 0
  {
    match op
    case OUdiv => ToNat(y) != 0
    case OUrem => ToNat(y) != 0
    case OSdiv => ToNat(y) != 0 && !(IsSMin(x) && y == Ones(|y|))
    case OSrem => ToNat(y) != 0
    case _ => true
  }

  predicate IsSMin(x: Bits) {
    |x| > 0 && x == Zeros(|x| - 1) + [true]
  }

  predicate Commutes(op: Op) {
    op == OAdd || op == OMul || op == OAnd || op == OOr || op == OXor
  }

  /** `r` can stand for `e`. */
  ghost predicate Refines(r: Value, e: Value) {
    e.Undef? || r == e
  }

  ghost predicate OfSort(x: Value, s: Sort) {
    x.Undef? || (if s == SBool then x.B? else x.V? && |x.bits| == s.width)
  }

  /** A well-sorted term has a value of its sort unless a division in it is undefined. */
  lemma {:induction false} EvalSort(e: Expr, m: Model)
    requires WF(e)
    ensures OfSort(Eval(e, m), SortOf(e))
    decreases e, 0
  {
    match e
    case Bool(_) =>
    case Bv(_) =>
    case Var(_, _) =>
    case Not(a) => EvalSort(a, m);
    case And(a, b) => EvalSort(a, m); EvalSort(b, m);
    case Or(a, b) => EvalSort(a, m); EvalSort(b, m);
    case Eq(a, b) =>
    case ULe(a, b) =>
    case SLe(a, b) =>
    case Ite(c, t, e) => EvalSort(t, m); EvalSort(e, m);
    case Bin(_, a, b) => EvalSort(a, m);
    case BvNot(a) => EvalSort(a, m);
    case Concat(a, b) => EvalSort(a, m); EvalSort(b, m);
    case Extract(a, _, _) => EvalSort(a, m);
    case SignExt(a, _) => EvalSort(a, m);
    case Select(arr, idx) =>
      if Eval(idx, m).V? {
        EvalAtSort(arr, Eval(idx, m).bits, m);
      }
  }

  lemma {:induction false} EvalAtSort(arr: Array, i: Bits, m: Model)
    requires WFArray(arr)
    ensures OfSort(EvalAt(arr, i, m), SBv(ValueWidth(arr)))
    decreases arr, 0
  {
    match arr
    case ArrVar(_, _, _) =>
    case ConstArr(_, v) => EvalSort(v, m);
    case Store(a, j, v) => EvalAtSort(a, i, m);
    case IteArr(_, t, e) => EvalAtSort(t, i, m); EvalAtSort(e, i, m);
  }

  // ---- Shapes the smart constructors test for ----

  predicate IsConst(e: Expr) {
    e.Bool? || e.Bv?
  }

  predicate IsTrue(e: Expr) {
    e == Bool(true)
  }

  predicate IsFalse(e: Expr) {
    e == Bool(false)
  }

  /** The largest 64-bit number. */
  const MAX64 := Pow2(64) - 1

  /** A numeral that fits a 64-bit unsigned integer. */
  predicate IsUInt(e: Expr) {
    e.Bv? && ToNat(e.bits) <= MAX64
  }

  predicate IsZero(e: Expr) {
    e.Bv? && ToNat(e.bits) == 0
  }

  predicate IsOne(e: Expr) {
    e.Bv? && ToNat(e.bits) == 1
  }

  predicate IsAllOnes(e: Expr) {
    e.Bv? && e.bits == Ones(|e.bits|)
  }

  function UInt(n: nat, w: nat): (r: Expr) {
    Bv(Truncate(n, w))
  }

  /** How far the recursion of the smart constructors can go. */
  function Size(e: Expr): (r: nat)
    ensures r >= 1
    decreases e, 0
  {
    match e
    case Bool(_) => 1
    case Bv(_) => 1
    case Var(_, _) => 1
    case Not(a) => Size(a) + 1
    case And(a, b) => Size(a) + Size(b) + 1
    case Or(a, b) => Size(a) + Size(b) + 1
    case Eq(a, b) => Size(a) + Size(b) + 1
    case ULe(a, b) => Size(a) + Size(b) + 1
    case SLe(a, b) => Size(a) + Size(b) + 1
    case Ite(c, t, e) => Size(c) + Size(t) + Size(e) + 1
    case Bin(_, a, b) => Size(a) + Size(b) + 1
    case BvNot(a) => Size(a) + 1
    case Concat(a, b) => Size(a) + Size(b) + 1
    case Extract(a, _, _) => Size(a) + 1
    case SignExt(a, _) => Size(a) + 3
    case Select(arr, idx) => SizeArray(arr) + Size(idx) + 1
  }

  function SizeArray(arr: Array): (r: nat)
    ensures r >= 1
    decreases arr, 0
  {
    match arr
    case ArrVar(_, _, _) => 1
    case ConstArr(_, v) => Size(v) + 1
    case Store(a, i, v) => SizeArray(a) + Size(i) + Size(v) + 1
    case IteArr(c, t, e) => Size(c) + SizeArray(t) + SizeArray(e) + 1
  }

  // ---- One step of each definition, for proofs that hide them ----

  lemma {:induction false} OpenBool(e: Expr, m: Model)
    requires e.Bool?
    ensures Eval(e, m) == B(e.val)
    ensures SortOf(e) == SBool && Size(e) == 1
    ensures WF(e) <==> true
  {
  }

  lemma {:induction false} OpenBv(e: Expr, m: Model)
    requires e.Bv?
    ensures Eval(e, m) == V(e.bits)
    ensures SortOf(e) == SBv(|e.bits|) && Size(e) == 1
    ensures WF(e) <==> e.bits != []
  {
  }

  lemma {:induction false} OpenNot(e: Expr, m: Model)
    requires e.Not?
    ensures Eval(e, m) == NotV(Eval(e.a, m))
    ensures SortOf(e) == SBool && Size(e) == Size(e.a) + 1
    ensures WF(e) <==> WF(e.a) && SortOf(e.a) == SBool
  {
  }

  lemma {:induction false} OpenAnd(e: Expr, m: Model)
    requires e.And?
    ensures Eval(e, m) == AndV(Eval(e.a, m), Eval(e.b, m))
    ensures SortOf(e) == SBool && Size(e) == Size(e.a) + Size(e.b) + 1
    ensures WF(e) <==> WF(e.a) && WF(e.b) && SortOf(e.a) == SBool && SortOf(e.b) == SBool
  {
  }

  lemma {:induction false} OpenOr(e: Expr, m: Model)
    requires e.Or?
    ensures Eval(e, m) == OrV(Eval(e.a, m), Eval(e.b, m))
    ensures SortOf(e) == SBool && Size(e) == Size(e.a) + Size(e.b) + 1
    ensures WF(e) <==> WF(e.a) && WF(e.b) && SortOf(e.a) == SBool && SortOf(e.b) == SBool
  {
  }

  lemma {:induction false} OpenEq(e: Expr, m: Model)
    requires e.Eq?
    ensures Eval(e, m) == EqV(Eval(e.a, m), Eval(e.b, m))
    ensures SortOf(e) == SBool && Size(e) == Size(e.a) + Size(e.b) + 1
    ensures WF(e) <==> WF(e.a) && WF(e.b) && SortOf(e.a) == SortOf(e.b)
  {
  }

  lemma {:induction false} OpenULe(e: Expr, m: Model)
    requires e.ULe?
    ensures Eval(e, m) == UleV(Eval(e.a, m), Eval(e.b, m))
    ensures SortOf(e) == SBool && Size(e) == Size(e.a) + Size(e.b) + 1
    ensures WF(e) <==> WF(e.a) && WF(e.b) && IsBv(e.a) && SortOf(e.a) == SortOf(e.b)
  {
  }

  lemma {:induction false} OpenSLe(e: Expr, m: Model)
    requires e.SLe?
    ensures Eval(e, m) == SleV(Eval(e.a, m), Eval(e.b, m))
    ensures SortOf(e) == SBool && Size(e) == Size(e.a) + Size(e.b) + 1
    ensures WF(e) <==> WF(e.a) && WF(e.b) && IsBv(e.a) && SortOf(e.a) == SortOf(e.b)
  {
  }

  lemma {:induction false} OpenIte(e: Expr, m: Model)
    requires e.Ite?
    ensures Eval(e, m) == IteV(Eval(e.c, m), Eval(e.t, m), Eval(e.e, m))
    ensures SortOf(e) == SortOf(e.t) && Size(e) == Size(e.c) + Size(e.t) + Size(e.e) + 1
    ensures WF(e) <==> WF(e.c) && WF(e.t) && WF(e.e) && SortOf(e.c) == SBool && SortOf(e.t) == SortOf(e.e)
  {
  }

  lemma {:induction false} OpenBin(e: Expr, m: Model)
    requires e.Bin?
    ensures Eval(e, m) == BinV(e.op, Eval(e.a, m), Eval(e.b, m))
    ensures SortOf(e) == SortOf(e.a) && Size(e) == Size(e.a) + Size(e.b) + 1
    ensures WF(e) <==> WF(e.a) && WF(e.b) && IsBv(e.a) && SortOf(e.a) == SortOf(e.b)
  {
  }

  lemma {:induction false} OpenBvNot(e: Expr, m: Model)
    requires e.BvNot?
    ensures Eval(e, m) == BvNotV(Eval(e.a, m))
    ensures SortOf(e) == SortOf(e.a) && Size(e) == Size(e.a) + 1
    ensures WF(e) <==> WF(e.a) && IsBv(e.a)
  {
  }

  lemma {:induction false} OpenConcat(e: Expr, m: Model)
    requires e.Concat?
    ensures Eval(e, m) == ConcatV(Eval(e.a, m), Eval(e.b, m))
    ensures SortOf(e) == SBv(Width(e.a) + Width(e.b)) && Size(e) == Size(e.a) + Size(e.b) + 1
    ensures WF(e) <==> WF(e.a) && WF(e.b) && IsBv(e.a) && IsBv(e.b)
  {
  }

  lemma {:induction false} OpenExtract(e: Expr, m: Model)
    requires e.Extract?
    ensures Eval(e, m) == ExtractV(Eval(e.a, m), e.high, e.low)
    ensures SortOf(e) == SBv(if e.low <= e.high then e.high - e.low + 1 else 0) && Size(e) == Size(e.a) + 1
    ensures WF(e) <==> WF(e.a) && IsBv(e.a) && e.low <= e.high < Width(e.a)
  {
  }

  lemma {:induction false} OpenSignExt(e: Expr, m: Model)
    requires e.SignExt?
    ensures Eval(e, m) == SextV(Eval(e.a, m), e.amount)
    ensures SortOf(e) == SBv(Width(e.a) + e.amount) && Size(e) == Size(e.a) + 3
    ensures WF(e) <==> WF(e.a) && IsBv(e.a)
  {
  }

  lemma {:induction false} OpenSelect(e: Expr, m: Model)
    requires e.Select?
    ensures Eval(e, m) == if Eval(e.idx, m).V? then EvalAt(e.arr, Eval(e.idx, m).bits, m) else Undef
    ensures SortOf(e) == SBv(ValueWidth(e.arr)) && Size(e) == SizeArray(e.arr) + Size(e.idx) + 1
    ensures WF(e) <==> WFArray(e.arr) && WF(e.idx) && SortOf(e.idx) == SBv(IndexWidth(e.arr))
  {
  }
}

/** The smart constructors of the expression layer.  Each returns a term that can stand
    for the plain one it simplifies; the recursion among them terminates. */
module SmartExpr {
  import opened Bits
  import opened Terms

  // ---- Booleans ----

  function MkNot(e: Expr): (r: Expr)
    requires WF(e) && SortOf(e) == SBool
    ensures WF(r) && SortOf(r) == SBool
    ensures Size(r) <= Size(e) + 1
  {
    if e.Bool? then Bool(!e.val)
    else if e.Not? then e.a
    else Not(e)
  }

  function MkAnd(a: Expr, b: Expr): (r: Expr)
    requires WF(a) && WF(b) && SortOf(a) == SortOf(b) == SBool
    ensures WF(r) && SortOf(r) == SBool
  {
    if a == b || IsFalse(a) || IsTrue(b) then a
    else if IsTrue(a) || IsFalse(b) then b
    else And(a, b)
  }

  function MkOr(a: Expr, b: Expr): (r: Expr)
    requires WF(a) && WF(b) && SortOf(a) == SortOf(b) == SBool
    ensures WF(r) && SortOf(r) == SBool
  {
    if a == b || IsFalse(b) || IsTrue(a) then a
    else if IsTrue(b) || IsFalse(a) then b
    else if (a.Not? && a.a == b) || (b.Not? && a == b.a) then Bool(true)
    else Or(a, b)
  }

  function MkImplies(a: Expr, b: Expr): (r: Expr)
    requires WF(a) && WF(b) && SortOf(a) == SortOf(b) == SBool
    ensures WF(r) && SortOf(r) == SBool
  {
    if a == b then Bool(true) else MkOr(MkNot(a), b)
  }

  predicate IsBit(e: Expr) {
    SortOf(e) == SBv(1)
  }

  /** (ite (= x 1) 1 0), which is x. */
  predicate IsBitTest(c: Expr, t: Expr, e: Expr) {
    && IsOne(t) && IsBit(t) && IsZero(e)
    && c.Eq? && IsBit(c.a) && (IsOne(c.a) || IsOne(c.b))
  }

  function MkIf(c: Expr, t: Expr, e: Expr): (r: Expr)
    requires WF(c) && WF(t) && WF(e) && SortOf(c) == SBool && SortOf(t) == SortOf(e)
    ensures WF(r) && SortOf(r) == SortOf(t)
    ensures Size(r) <= Size(c) + Size(t) + Size(e) + 1
    decreases c
  {
    if IsTrue(c) || t == e then t
    else if IsFalse(c) then e
    else if IsTrue(t) then MkOr(c, e)
    else if IsFalse(t) then MkAnd(MkNot(c), e)
    else if IsTrue(e) then MkOr(MkNot(c), t)
    else if IsFalse(e) then MkAnd(c, t)
    else if c.Not? then MkIf(c.a, e, t)
    else if IsBitTest(c, t, e) then if IsOne(c.a) then c.b else c.a
    else Ite(c, t, e)
  }

  function ToBvBool(e: Expr): (r: Expr)
    requires WF(e) && SortOf(e) == SBool
    ensures WF(r) && SortOf(r) == SBv(1)
  {
    MkIf(e, UInt(1, 1), UInt(0, 1))
  }

  // ---- Static knowledge about numerals ----

  /** Leading zeros of the value; only the top of a concatenation is looked at. */
  function MinLeadingZeros(e: Expr): (r: nat)
    requires WF(e) && IsBv(e)
    ensures r <= Width(e)
  {
    if e.Concat? then MinLeadingZeros(e.a)
    else if IsUInt(e) then LeadingZeros(e.bits)
    else 0
  }

  function LeadingZeros(b: Bits): (r: nat)
    ensures r <= |b|
  {
    if b == [] || b[|b| - 1] then 0 else 1 + LeadingZeros(b[..|b| - 1])
  }

  function MinTrailingOnes(e: Expr): (r: nat)
    requires WF(e) && IsBv(e)
    ensures r <= Width(e)
  {
    if IsUInt(e) then TrailingOnes(e.bits) else 0
  }

  function TrailingOnes(b: Bits): (r: nat)
    ensures r <= |b|
  {
    if b == [] || !b[0] then 0 else 1 + TrailingOnes(b[1..])
  }

  /** A sum with a numeral, or the term itself plus nothing. */
  function Base(e: Expr): (r: Expr) {
    if e.Bin? && e.op == OAdd then
      if IsUInt(e.a) then e.b else if IsUInt(e.b) then e.a else e
    else e
  }

  function Offset(e: Expr): (r: nat) {
    if e.Bin? && e.op == OAdd then
      if IsUInt(e.a) then ToNat(e.a.bits) else if IsUInt(e.b) then ToNat(e.b.bits) else 0
    else 0
  }

  // ---- Equality, comparison, concatenation and extraction ----

  /** Within one size, operands that are about to be swapped come last. */
  function Rank(a: Expr, b: Expr): nat {
    if IsConst(a) || (b.Ite? && !a.Ite?) then 10 else 0
  }

  function MkEq(a: Expr, b: Expr): (r: Expr)
    requires WF(a) && WF(b) && SortOf(a) == SortOf(b)
    ensures WF(r) && SortOf(r) == SBool
    decreases Size(a) + Size(b), Rank(a, b) + 3
  {
    if a == b then Bool(true)
    else if IsConst(a) then
      if IsConst(b) then Bool(false) else MkEq(b, a)
    else if IsTrue(b) then a
    else if IsFalse(b) then MkNot(a)
    // (= (= x c) (= x d)) -> (= c d), for one bit
    else if a.Eq? && IsBit(a.a) && b.Eq? && a.a == b.a then MkEq(a.b, b.b)
    else if Base(a) == Base(b) && Offset(a) != Offset(b) then Bool(false)
    else if a.Concat? && b.Bv? then
      MkAnd(MkEq(a.a, Bv(b.bits[Width(a.b)..])), MkEq(a.b, Bv(b.bits[..Width(a.b)])))
    else if a.Concat? && b.Concat? && Width(a.a) == Width(b.a) then
      MkAnd(MkEq(a.a, b.a), MkEq(a.b, b.b))
    else EqIte(a, b)
  }

  function EqIte(a: Expr, b: Expr): (r: Expr)
    requires WF(a) && WF(b) && SortOf(a) == SortOf(b) && !IsConst(a)
    ensures WF(r) && SortOf(r) == SBool
    decreases Size(a) + Size(b), Rank(a, b) + 2
  {
    if a.Ite? && b.Ite? && a.t == b.t && a.e == b.e && a.t != a.e && IsConst(a.t) && IsConst(a.e) then
      MkEq(a.c, b.c)
    else if a.Ite? && ((IsConst(b) && (IsConst(a.t) || IsConst(a.e))) || (IsConst(a.t) && IsConst(a.e) && !b.Var?)) then
      MkIf(a.c, MkEq(a.t, b), MkEq(a.e, b))
    else if !a.Ite? && b.Ite? then MkEq(b, a)
    else EqArith(a, b)
  }

  /** The sum of two non-negative terms, one of them above `e`. */
  predicate SumAbove(a: Expr, b: Expr, e: Expr)
    requires WF(a) && WF(b) && WF(e) && IsBv(a) && SortOf(a) == SortOf(b) == SortOf(e)
    decreases Size(a) + Size(b) + Size(e), 22
  {
    && IsFalse(IsNegative(a)) && IsFalse(IsNegative(b))
    && (IsTrue(MkUlt(e, a)) || IsTrue(MkUlt(e, b)))
  }

  function EqArith(a: Expr, b: Expr): (r: Expr)
    requires WF(a) && WF(b) && SortOf(a) == SortOf(b)
    ensures WF(r) && SortOf(r) == SBool
    decreases Size(a) + Size(b), Rank(a, b) + 1
  {
    if a.Bin? && a.op == OAdd && SumAbove(a.a, a.b, b) then Bool(false)
    else if a.Bin? && a.op == OUrem && IsTrue(MkUle(a.b, b)) then Bool(false)
    else if a.SignExt? && b.SignExt? && Width(a.a) == Width(b.a) then MkEq(a.a, b.a)
    else if a.SignExt? && b.SignExt? && IsZero(b.a) then MkEq(a.a, UInt(0, Width(a.a)))
    else if Precedes(a, b) then Eq(a, b)
    else Eq(b, a)
  }

  /** Which operand of a commutative term comes first: the smaller one, in place of the one created
      first.  Nothing is proved that depends on the choice. */
  predicate Precedes(a: Expr, b: Expr) {
    Size(a) < Size(b)
  }

  function IsNegative(e: Expr): (r: Expr)
    requires WF(e) && IsBv(e)
    ensures WF(r) && SortOf(r) == SBool
    decreases Size(e) + 2, 20
  {
    MkEq(MkExtract(e, Width(e) - 1, Width(e) - 1, 3), Bv([true]))
  }

  function MkUle(a: Expr, b: Expr): (r: Expr)
    requires WF(a) && WF(b) && IsBv(a) && SortOf(a) == SortOf(b)
    ensures WF(r) && SortOf(r) == SBool
    decreases Size(a) + Size(b), 20
  {
    if a == b || IsZero(a) || IsAllOnes(b) then Bool(true)
    else if IsZero(b) || IsAllOnes(a) then MkEq(a, b)
    // 00... <= ..11 -> true
    else if MinLeadingZeros(a) + MinTrailingOnes(b) >= Width(a) then Bool(true)
    else if a.Bv? && b.Bv? then Bool(Ule(a.bits, b.bits))
    else ULe(a, b)
  }

  function MkUlt(a: Expr, b: Expr): (r: Expr)
    requires WF(a) && WF(b) && IsBv(a) && SortOf(a) == SortOf(b)
    ensures WF(r) && SortOf(r) == SBool
    decreases Size(a) + Size(b), 21
  {
    if IsUInt(b) then
      if ToNat(b.bits) == 0 then Bool(false) else MkUle(a, UInt(ToNat(b.bits) - 1, Width(a)))
    else MkNot(MkUle(b, a))
  }

  /** Two extracts of the same term, the first just above the second. */
  predicate Adjacent(a: Expr, b: Expr)
    requires WF(a) && WF(b)
    ensures Adjacent(a, b) ==>
      && a.Extract? && b.Extract?
      && WF(a.a) && IsBv(a.a) && b.low < a.low <= a.high < Width(a.a)
      && Width(a) + Width(b) == a.high - b.low + 1
      && Size(a) == Size(a.a) + 1 == Size(b)
  {
    a.Extract? && b.Extract? && a.low == b.high + 1 && a.a == b.a
  }

  predicate JoinsLow(a: Expr, b: Expr)
    requires WF(a) && WF(b)
    ensures JoinsLow(a, b) ==>
      && b.Concat? && WF(b.a) && WF(b.b) && IsBv(b.b) && Adjacent(a, b.a)
      && Width(b) == Width(b.a) + Width(b.b) && Size(b) == Size(b.a) + Size(b.b) + 1
  {
    b.Concat? && Adjacent(a, b.a)
  }

  predicate JoinsHigh(a: Expr, b: Expr)
    requires WF(a) && WF(b)
    ensures JoinsHigh(a, b) ==>
      && a.Concat? && WF(a.a) && WF(a.b) && IsBv(a.a) && Adjacent(a.b, b)
      && Width(a) == Width(a.a) + Width(a.b) && Size(a) == Size(a.a) + Size(a.b) + 1
  {
    a.Concat? && Adjacent(a.b, b)
  }

  function MkConcat(a: Expr, b: Expr): (r: Expr)
    requires WF(a) && WF(b) && IsBv(a) && IsBv(b)
    ensures WF(r) && SortOf(r) == SBv(Width(a) + Width(b))
    ensures Size(r) <= Size(a) + Size(b) + 1 && (a.Bv? && b.Bv? ==> r.Bv?)
    decreases Size(a) + Size(b), 0
  {
    if Adjacent(a, b) then MkExtract(a.a, a.high, b.low, 3)
    else if JoinsLow(a, b) then MkConcat(MkExtract(a.a, a.high, b.a.low, 3), b.b)
    else if JoinsHigh(a, b) then MkConcat(a.a, MkExtract(a.b.a, a.b.high, b.low, 3))
    else if a.Bv? && b.Bv? then Bv(b.bits + a.bits)
    else Concat(a, b)
  }

  function FoldExtract(e: Expr, high: nat, low: nat): (r: Expr)
    requires WF(e) && IsBv(e) && low <= high < Width(e)
    ensures WF(r) && SortOf(r) == SBv(high - low + 1)
    ensures Size(r) <= Size(e) + 1 && (e.Bv? ==> r.Bv?)
  {
    if e.Bv? then Bv(e.bits[low..high + 1]) else Extract(e, high, low)
  }

  function MkExtract(e: Expr, high: nat, low: nat, depth: nat): (r: Expr)
    requires WF(e) && IsBv(e) && low <= high < Width(e)
    ensures WF(r) && SortOf(r) == SBv(high - low + 1)
    ensures Size(r) <= Size(e) + 1 && (e.Bv? ==> r.Bv?)
    decreases Size(e), 2
  {
    if low == 0 && high == Width(e) - 1 then e
    else if depth == 0 then FoldExtract(e, high, low)
    else if e.Extract? then MkExtract(e.a, high + e.low, low + e.low, 3)
    else if e.SignExt? && low == 0 then
      if high < Width(e.a) then MkExtract(e.a, high, 0, 3) else MkSext(e.a, high - Width(e.a) + 1)
    else if e.Concat? then FromConcat(e, high, low)
    else if e.Ite? then FromIte(e, high, low, depth - 1)
    else if e.Bin? && (e.op == OAnd || e.op == OOr) then FromBitwise(e, high, low, depth - 1)
    else FoldExtract(e, high, low)
  }

  function FromConcat(e: Expr, high: nat, low: nat): (r: Expr)
    requires WF(e) && e.Concat? && low <= high < Width(e) && !(low == 0 && high == Width(e) - 1)
    ensures WF(r) && SortOf(r) == SBv(high - low + 1) && Size(r) <= Size(e) + 1
    decreases Size(e), 1
  {
    assert Width(e) == Width(e.a) + Width(e.b);
    var w := Width(e.b);
    if high < w then MkExtract(e.b, high, low, 3)
    else if low >= w then MkExtract(e.a, high - w, low - w, 3)
    else if low == 0 then MkConcat(MkExtract(e.a, high - w, 0, 3), e.b)
    else if e.a.Bv? || e.b.Bv? then MkConcat(MkExtract(e.a, high - w, 0, 3), MkExtract(e.b, w - 1, low, 3))
    else FoldExtract(e, high, low)
  }

  function FromIte(e: Expr, high: nat, low: nat, depth: nat): (r: Expr)
    requires WF(e) && e.Ite? && IsBv(e) && low <= high < Width(e)
    ensures WF(r) && SortOf(r) == SBv(high - low + 1) && Size(r) <= Size(e) + 1
    decreases Size(e), 1
  {
    var t, f := MkExtract(e.t, high, low, depth), MkExtract(e.e, high, low, depth);
    if t == f then t
    else if IsConst(t) && IsConst(f) then MkIf(e.c, t, f)
    else FoldExtract(e, high, low)
  }

  function FromBitwise(e: Expr, high: nat, low: nat, depth: nat): (r: Expr)
    requires WF(e) && e.Bin? && (e.op == OAnd || e.op == OOr) && low <= high < Width(e)
    ensures WF(r) && SortOf(r) == SBv(high - low + 1) && Size(r) <= Size(e) + 1
    decreases Size(e), 1
  {
    assert Width(e) == Width(e.a) == Width(e.b);
    var x, y := MkExtract(e.a, high, low, depth), MkExtract(e.b, high, low, depth);
    if Absorbs(e.op, x) then x
    else if Absorbs(e.op, y) then y
    else if x == y then x
    else FoldExtract(e, high, low)
  }

  predicate Absorbs(op: Op, e: Expr) {
    match op
    case OAnd => IsZero(e)
    case OMul => IsZero(e)
    case OOr => IsAllOnes(e)
    case _ => false
  }

  function MkZext(e: Expr, amount: nat): (r: Expr)
    requires WF(e) && IsBv(e)
    ensures WF(r) && SortOf(r) == SBv(Width(e) + amount)
    ensures Size(r) <= Size(e) + 2
    decreases Size(e) + 1, 1
  {
    if amount == 0 then e else MkConcat(UInt(0, amount), e)
  }

  function MkSext(e: Expr, amount: nat): (r: Expr)
    requires WF(e) && IsBv(e)
    ensures WF(r) && SortOf(r) == SBv(Width(e) + amount)
    ensures Size(r) <= Size(e) + 3
    decreases Size(e) + 2, 21
  {
    if amount == 0 then e
    else if e.SignExt? then MkSext(e.a, e.amount + amount)
    else if IsFalse(IsNegative(e)) then MkZext(e, amount)
    else if e.Bv? then Bv(SignExtend(e.bits, amount))
    else SignExt(e, amount)
  }
}

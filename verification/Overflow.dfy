/** Overflow tests and saturating arithmetic: each term says what the arithmetic on numbers
    of unbounded size says. */
module Overflow {
  import opened Bits
  import opened Terms
  import opened SmartExpr
  import opened SmartMeaning
  import opened SmartArith
  import opened ArithMeaning
  import opened BitLaws
  import opened UndefStrip

  // ---- Numbers in two's complement ----

  predicate InSigned(n: int, w: nat)
    requires w > 0
  {
    -(Pow2(w - 1) as int) <= n < Pow2(w - 1)
  }

  lemma {:induction false} IntModShift(n: int, p: nat, k: int)
    requires p > 0
    ensures Mod(n + p * k, p) == Mod(n, p)
  {
    var q, r := n / p, n % p;
    assert n + p * k == r + p * (q + k) by {
      assert p * (q + k) == p * q + p * k;
    }
    IntDivModUnique(n + p * k, p, q + k, r);
  }

  lemma IntDivModUnique(n: int, d: nat, q: int, r: nat)
    requires d > 0 && n == r + d * q && r < d
    ensures n % d == r
  {
    var q', r' := n / d, n % d;
    assert n == d * q' + r';
    assert d * (q - q') == r' - r;
    if q > q' {
      MulMonotone(d, 1, q - q');
    } else if q < q' {
      assert d * (q' - q) == r - r';
      MulMonotone(d, 1, q' - q);
    }
  }

  lemma SignedRange(x: Bits)
    requires |x| > 0
    ensures InSigned(ToInt(x), |x|)
  {
    var n := |x| - 1;
    ToNatLow(x, n);
    assert x == x[..n] + [x[n]];
    ToNatConcat(x[..n], [x[n]]);
    assert ToNat([x[n]]) == if x[n] then 1 else 0 by { assert [x[n]][1..] == []; }
    hide ToNat;
  }

  /** Numbers that are the same modulo two to the width have the same bits. */
  lemma {:induction false} SameBits(n: int, k: int, w: nat)
    ensures FromInt(n + Pow2(w) * k, w) == FromInt(n, w)
  {
    hide Pow2, Mod, Truncate;
    IntModShift(n, Pow2(w), k);
  }

  lemma {:induction false} ToNatFromInt(n: int, w: nat)
    ensures ToNat(FromInt(n, w)) == Mod(n, Pow2(w))
  {
    hide Pow2, Mod, FromNat, ToNat;
    ToNatTruncate(Mod(n, Pow2(w)), w);
    ModSmall(Mod(n, Pow2(w)), Pow2(w));
  }

  lemma {:induction false} FromToInt(x: Bits)
    requires |x| > 0
    ensures FromInt(ToInt(x), |x|) == x
  {
    hide ToNat, Mod, FromInt;
    if Negative(x) {
      SameBits(ToNat(x), -1, |x|);
    }
    ToNatFromInt(ToNat(x), |x|);
    ModSmall(ToNat(x), Pow2(|x|));
    ToNatInjective(FromInt(ToNat(x), |x|), x);
  }

  lemma {:induction false} ToFromInt(n: int, w: nat)
    requires w > 0 && InSigned(n, w)
    ensures ToInt(FromInt(n, w)) == n
  {
    var x := FromInt(n, w);
    ToNatFromInt(n, w);
    assert Pow2(w) == 2 * Pow2(w - 1);
    if n >= 0 {
      ModSmall(n, Pow2(w));
    } else {
      IntModShift(n, Pow2(w), 1);
      ModSmall(n + Pow2(w), Pow2(w));
    }
    SignedRange(x);
    hide ToNat, Mod, FromInt, Pow2;
  }

  lemma {:induction false} ToIntInjective(x: Bits, y: Bits)
    requires |x| == |y| > 0 && ToInt(x) == ToInt(y)
    ensures x == y
  {
    FromToInt(x);
    FromToInt(y);
  }

  lemma {:induction false} SignExtendValue(x: Bits, k: nat)
    requires |x| > 0
    ensures ToInt(SignExtend(x, k)) == ToInt(x)
  {
    hide ToNat, Pow2, Negative, Fill;
    var w, fill := |x|, Fill(Negative(x), k);
    ToNatConcat(x, fill);
    ToNatFill(k);
    Pow2Add(w, k);
    SignKept(x, k);
    AllOnesAbove(Pow2(w), Pow2(k));
    assert fill == if Negative(x) then Ones(k) else Zeros(k);
  }

  lemma AllOnesAbove(p: int, q: int)
    ensures p * (q - 1) == p * q - p && p * 0 == 0
  {
  }

  lemma SignKept(x: Bits, k: nat)
    requires |x| > 0
    ensures Negative(SignExtend(x, k)) == Negative(x)
  {
    var y := SignExtend(x, k);
    if k > 0 {
      assert y[|y| - 1] == Fill(Negative(x), k)[k - 1];
    }
  }

  /** The bits of a sum, a difference and a product are those of the numbers. */
  lemma {:induction false} SignedSum(x: Bits, y: Bits)
    requires |x| == |y| > 0
    ensures Add(x, y) == FromInt(ToInt(x) + ToInt(y), |x|)
    ensures FromInt(ToNat(x) - ToNat(y), |x|) == FromInt(ToInt(x) - ToInt(y), |x|)
  {
    hide ToNat, Pow2, Mod, FromNat, FromInt;
    var w: nat, a: int, b: int, p: int := |x|, ToNat(x), ToNat(y), Pow2(|x|);
    var s: int, t: int := if Negative(x) then 1 else 0, if Negative(y) then 1 else 0;
    AddIsFromInt(x, y);
    SameBits(a + b, 0 - s - t, w);
    SameBits(a - b, t - s, w);
    assert p * (0 - s - t) == 0 - p * s - p * t && p * (t - s) == p * t - p * s;
  }

  lemma AddIsFromInt(x: Bits, y: Bits)
    requires |x| == |y|
    ensures Add(x, y) == FromInt(ToNat(x) + ToNat(y), |x|)
    ensures Mul(x, y) == FromInt(ToNat(x) * ToNat(y), |x|)
  {
    hide ToNat, Truncate, FromInt;
    TruncateIs(ToNat(x) + ToNat(y), |x|);
    TruncateIs(ToNat(x) * ToNat(y), |x|);
  }

  lemma TruncateIs(n: nat, w: nat)
    ensures Truncate(n, w) == FromInt(n, w)
  {
    hide Pow2, Mod, FromNat;
    ModSmall(Mod(n, Pow2(w)), Pow2(w));
  }

  lemma {:induction false} SignedProduct(x: Bits, y: Bits)
    requires |x| == |y| > 0
    ensures Mul(x, y) == FromInt(ToInt(x) * ToInt(y), |x|)
  {
    hide ToNat, Pow2, Mod, FromNat, FromInt;
    var w: nat, a: int, b: int, p: int := |x|, ToNat(x), ToNat(y), Pow2(|x|);
    var s: int, t: int := if Negative(x) then 1 else 0, if Negative(y) then 1 else 0;
    AddIsFromInt(x, y);
    var k := p * (s * t) - a * t - b * s;
    ProductShift(a, b, p, s, t);
    SameBits(a * b, k, w);
  }

  lemma ProductShift(a: int, b: int, p: int, s: int, t: int)
    ensures (a - p * s) * (b - p * t) == a * b + p * (p * (s * t) - a * t - b * s)
  {
    assert (a - p * s) * (b - p * t) == a * b - a * (p * t) - (p * s) * b + (p * s) * (p * t);
    assert a * (p * t) == p * (a * t);
    assert (p * s) * b == p * (b * s);
    assert (p * s) * (p * t) == p * (p * (s * t));
    assert p * (p * (s * t) - a * t - b * s) == p * (p * (s * t)) - p * (a * t) - p * (b * s);
  }

  /** A number survives in `w` bits iff it is in range. */
  lemma {:induction false} Survives(n: int, w: nat, k: nat)
    requires w > 0 && InSigned(n, w + k)
    ensures FromInt(n, w + k) == SignExtend(FromInt(n, w), k) <==> InSigned(n, w)
  {
    hide FromInt, ToNat, SignExtend;
    ToFromInt(n, w + k);
    var x := FromInt(n, w);
    SignExtendValue(x, k);
    SignedRange(x);
    if InSigned(n, w) {
      ToFromInt(n, w);
      ToIntInjective(FromInt(n, w + k), SignExtend(x, k));
    }
  }

  // ---- Signed overflow ----

  function AddNoSignedOverflow(a: Expr, b: Expr): (r: Expr)
    requires SameBv(a, b)
    ensures WF(r) && SortOf(r) == SBool
  {
    if MinLeadingZeros(a) >= 2 && MinLeadingZeros(b) >= 2 then Bool(true)
    else MkEq(MkAdd(MkSext(a, 1), MkSext(b, 1)), MkSext(MkAdd(a, b), 1))
  }

  function SubNoSignedOverflow(a: Expr, b: Expr): (r: Expr)
    requires SameBv(a, b)
    ensures WF(r) && SortOf(r) == SBool
  {
    if MinLeadingZeros(a) >= 1 && MinLeadingZeros(b) >= 1 then Bool(true)
    else MkEq(MkSub(MkSext(a, 1), MkSext(b, 1)), MkSext(MkSub(a, b), 1))
  }

  function MulNoSignedOverflow(a: Expr, b: Expr): (r: Expr)
    requires SameBv(a, b)
    ensures WF(r) && SortOf(r) == SBool
  {
    var w := Width(a);
    MkEq(MkMul(MkSext(a, w), MkSext(b, w)), MkSext(MkMul(a, b), w))
  }

  /** The values of two operands, as bit-vectors of the same width. */
  lemma {:induction false} Operands(a: Expr, b: Expr, m: Model)
    requires SameBv(a, b) && Eval(a, m).V? && Eval(b, m).V?
    ensures |Eval(a, m).bits| == |Eval(b, m).bits| == Width(a) == Width(b) > 0
  {
    hide Eval, WF;
    EvalSort(a, m);
    EvalSort(b, m);
  }

  lemma {:induction false} Sum(a: Expr, b: Expr, m: Model)
    requires SameBv(a, b) && Eval(a, m).V? && Eval(b, m).V?
    ensures var x, y := Eval(a, m).bits, Eval(b, m).bits;
      |x| == |y| == Width(a) > 0 && Eval(MkAdd(a, b), m) == V(FromInt(ToInt(x) + ToInt(y), |x|))
  {
    hide Eval, WF, SortOf, Size, MkAdd, ToInt, FromInt, Add;
    Operands(a, b, m);
    MkAddMeans(a, b, m);
    SignedSum(Eval(a, m).bits, Eval(b, m).bits);
  }

  lemma {:induction false} Difference(a: Expr, b: Expr, m: Model)
    requires SameBv(a, b) && Eval(a, m).V? && Eval(b, m).V?
    ensures var x, y := Eval(a, m).bits, Eval(b, m).bits;
      |x| == |y| == Width(a) > 0 && Eval(MkSub(a, b), m) == V(FromInt(ToInt(x) - ToInt(y), |x|))
  {
    hide Eval, WF, SortOf, Size, MkSub, ToInt, FromInt;
    Operands(a, b, m);
    MkSubMeans(a, b, m);
    SignedSum(Eval(a, m).bits, Eval(b, m).bits);
  }

  lemma {:induction false} Product(a: Expr, b: Expr, m: Model)
    requires SameBv(a, b) && Eval(a, m).V? && Eval(b, m).V?
    ensures var x, y := Eval(a, m).bits, Eval(b, m).bits;
      |x| == |y| == Width(a) > 0 && Eval(MkMul(a, b), m) == V(FromInt(ToInt(x) * ToInt(y), |x|))
  {
    hide Eval, WF, SortOf, Size, MkMul, ToInt, FromInt, Mul;
    Operands(a, b, m);
    MkMulMeans(a, b, m);
    SignedProduct(Eval(a, m).bits, Eval(b, m).bits);
  }

  lemma {:induction false} Extended(a: Expr, k: nat, m: Model)
    requires WF(a) && IsBv(a) && Eval(a, m).V?
    ensures var x := Eval(a, m).bits;
      && |x| == Width(a) > 0 && Eval(MkSext(a, k), m) == V(SignExtend(x, k)) && ToInt(SignExtend(x, k)) == ToInt(x)
  {
    hide Eval, WF, SortOf, Size, MkSext, ToInt, SignExtend;
    EvalSort(a, m);
    MkSextMeans(a, k, m);
    SignExtendValue(Eval(a, m).bits, k);
  }

  /** An operation done with more bits agrees with the same done with fewer iff the number it
      computes fits. */
  lemma {:induction false} WideAgrees(wide: Expr, narrow: Expr, n: int, w: nat, k: nat, m: Model)
    requires w > 0 && WF(wide) && WF(narrow) && SortOf(narrow) == SBv(w) && SortOf(wide) == SBv(w + k) &&
      InSigned(n, w + k)
    requires Eval(wide, m) == V(FromInt(n, w + k)) && Eval(narrow, m) == V(FromInt(n, w))
    ensures Eval(MkEq(wide, MkSext(narrow, k)), m) == B(InSigned(n, w))
  {
    hide Eval, WF, SortOf, Size, MkSext, MkEq, ToInt, SignExtend, FromInt, InSigned;
    Extended(narrow, k, m);
    MkEqMeans(wide, MkSext(narrow, k), m);
    Survives(n, w, k);
  }

  lemma {:induction false} SumInRange(x: Bits, y: Bits)
    requires |x| == |y| > 0
    ensures InSigned(ToInt(x) + ToInt(y), |x| + 1) && InSigned(ToInt(x) - ToInt(y), |x| + 1)
  {
    hide ToInt;
    SignedRange(x);
    SignedRange(y);
  }

  lemma {:induction false} ProductInRange(x: Bits, y: Bits)
    requires |x| == |y| > 0
    ensures InSigned(ToInt(x) * ToInt(y), |x| + |x|)
  {
    SignedRange(x);
    SignedRange(y);
    var w := |x|;
    Pow2Add(w - 1, w - 1);
    assert Pow2(w + w - 1) == 2 * Pow2(w - 1 + (w - 1));
    hide ToInt, Pow2;
    BoundedProduct(ToInt(x), ToInt(y), Pow2(w - 1));
  }

  lemma BoundedProduct(x: int, y: int, p: int)
    requires -p <= x <= p && -p <= y <= p
    ensures -(p * p) <= x * y <= p * p
  {
    var a: int, b: int := Abs(x), Abs(y);
    MulMonotone(a, b, p);
    MulMonotone(p, a, p);
    assert x * y == a * b || x * y == 0 - a * b;
  }

  lemma {:induction false} SmallOperand(e: Expr, k: nat, m: Model)
    requires WF(e) && IsBv(e) && Eval(e, m).V? && 0 < k <= MinLeadingZeros(e)
    ensures var x := Eval(e, m).bits; |x| == Width(e) >= k && 0 <= ToInt(x) < Pow2(|x| - k)
  {
    hide Eval, WF, SortOf, Size, MinLeadingZeros, ToNat;
    EvalSort(e, m);
    LeadingZerosBound(e, m);
    var x := Eval(e, m).bits;
    var w := |x|;
    Pow2Monotone(w - MinLeadingZeros(e), w - k);
    Pow2Monotone(w - k, w - 1);
    SignedRange(x);
    assert Pow2(w) == 2 * Pow2(w - 1);
  }

  /** The test is true iff the sum of the signed numbers fits. */
  lemma {:induction false} AddNoSignedOverflowMeans(a: Expr, b: Expr, m: Model)
    requires SameBv(a, b) && Eval(a, m).V? && Eval(b, m).V?
    ensures var x, y := Eval(a, m).bits, Eval(b, m).bits;
      |x| == |y| > 0 && Eval(AddNoSignedOverflow(a, b), m) == B(InSigned(ToInt(x) + ToInt(y), |x|))
  {
    hide Eval, WF, SortOf, Size, MkSext, MkAdd, MkEq, MinLeadingZeros, ToInt, InSigned;
    Operands(a, b, m);
    if MinLeadingZeros(a) >= 2 && MinLeadingZeros(b) >= 2 {
      OpenBool(Bool(true), m);
      SmallSum(a, b, m);
    } else {
      WideSum(a, b, m);
    }
  }

  lemma {:induction false} SmallSum(a: Expr, b: Expr, m: Model)
    requires SameBv(a, b) && Eval(a, m).V? && Eval(b, m).V? && MinLeadingZeros(a) >= 2 && MinLeadingZeros(b) >= 2
    ensures var x, y := Eval(a, m).bits, Eval(b, m).bits; |x| == |y| > 0 && InSigned(ToInt(x) + ToInt(y), |x|)
  {
    hide Eval, WF, SortOf, Size, MinLeadingZeros, ToInt;
    Operands(a, b, m);
    SmallOperand(a, 2, m);
    SmallOperand(b, 2, m);
  }

  lemma {:induction false} ExtendedSum(a: Expr, b: Expr, m: Model)
    requires SameBv(a, b) && Eval(a, m).V? && Eval(b, m).V?
    ensures var x, y := Eval(a, m).bits, Eval(b, m).bits;
      && |x| == |y| > 0 && InSigned(ToInt(x) + ToInt(y), |x| + 1)
      && Eval(MkAdd(MkSext(a, 1), MkSext(b, 1)), m) == V(FromInt(ToInt(x) + ToInt(y), |x| + 1))
  {
    hide Eval, WF, Size, MkSext, MkAdd, ToInt, FromInt, SignExtend, InSigned;
    Operands(a, b, m);
    SumInRange(Eval(a, m).bits, Eval(b, m).bits);
    Extended(a, 1, m);
    Extended(b, 1, m);
    Sum(MkSext(a, 1), MkSext(b, 1), m);
  }

  lemma {:induction false} WideSum(a: Expr, b: Expr, m: Model)
    requires SameBv(a, b) && Eval(a, m).V? && Eval(b, m).V?
    ensures var x, y := Eval(a, m).bits, Eval(b, m).bits;
      && |x| == |y| > 0
      && Eval(MkEq(MkAdd(MkSext(a, 1), MkSext(b, 1)), MkSext(MkAdd(a, b), 1)), m) ==
        B(InSigned(ToInt(x) + ToInt(y), |x|))
  {
    hide Eval, WF, Size, MkSext, MkAdd, MkEq, ToInt, FromInt, SignExtend, InSigned;
    Operands(a, b, m);
    var x, y := Eval(a, m).bits, Eval(b, m).bits;
    ExtendedSum(a, b, m);
    Sum(a, b, m);
    WideAgrees(MkAdd(MkSext(a, 1), MkSext(b, 1)), MkAdd(a, b), ToInt(x) + ToInt(y), |x|, 1, m);
  }

  lemma {:induction false} SubNoSignedOverflowMeans(a: Expr, b: Expr, m: Model)
    requires SameBv(a, b) && Eval(a, m).V? && Eval(b, m).V?
    ensures var x, y := Eval(a, m).bits, Eval(b, m).bits;
      |x| == |y| > 0 && Eval(SubNoSignedOverflow(a, b), m) == B(InSigned(ToInt(x) - ToInt(y), |x|))
  {
    hide Eval, WF, SortOf, Size, MkSext, MkSub, MkEq, MinLeadingZeros, ToInt, InSigned;
    Operands(a, b, m);
    if MinLeadingZeros(a) >= 1 && MinLeadingZeros(b) >= 1 {
      OpenBool(Bool(true), m);
      SmallDifference(a, b, m);
    } else {
      WideDifference(a, b, m);
    }
  }

  lemma {:induction false} SmallDifference(a: Expr, b: Expr, m: Model)
    requires SameBv(a, b) && Eval(a, m).V? && Eval(b, m).V? && MinLeadingZeros(a) >= 1 && MinLeadingZeros(b) >= 1
    ensures var x, y := Eval(a, m).bits, Eval(b, m).bits; |x| == |y| > 0 && InSigned(ToInt(x) - ToInt(y), |x|)
  {
    hide Eval, WF, SortOf, Size, MinLeadingZeros, ToInt;
    Operands(a, b, m);
    SmallOperand(a, 1, m);
    SmallOperand(b, 1, m);
  }

  lemma {:induction false} ExtendedDifference(a: Expr, b: Expr, m: Model)
    requires SameBv(a, b) && Eval(a, m).V? && Eval(b, m).V?
    ensures var x, y := Eval(a, m).bits, Eval(b, m).bits;
      && |x| == |y| > 0 && InSigned(ToInt(x) - ToInt(y), |x| + 1)
      && Eval(MkSub(MkSext(a, 1), MkSext(b, 1)), m) == V(FromInt(ToInt(x) - ToInt(y), |x| + 1))
  {
    hide Eval, WF, Size, MkSext, MkSub, ToInt, FromInt, SignExtend, InSigned;
    Operands(a, b, m);
    SumInRange(Eval(a, m).bits, Eval(b, m).bits);
    Extended(a, 1, m);
    Extended(b, 1, m);
    Difference(MkSext(a, 1), MkSext(b, 1), m);
  }

  lemma {:induction false} WideDifference(a: Expr, b: Expr, m: Model)
    requires SameBv(a, b) && Eval(a, m).V? && Eval(b, m).V?
    ensures var x, y := Eval(a, m).bits, Eval(b, m).bits;
      && |x| == |y| > 0
      && Eval(MkEq(MkSub(MkSext(a, 1), MkSext(b, 1)), MkSext(MkSub(a, b), 1)), m) ==
        B(InSigned(ToInt(x) - ToInt(y), |x|))
  {
    hide Eval, WF, Size, MkSext, MkSub, MkEq, ToInt, FromInt, SignExtend, InSigned;
    Operands(a, b, m);
    var x, y := Eval(a, m).bits, Eval(b, m).bits;
    ExtendedDifference(a, b, m);
    Difference(a, b, m);
    WideAgrees(MkSub(MkSext(a, 1), MkSext(b, 1)), MkSub(a, b), ToInt(x) - ToInt(y), |x|, 1, m);
  }

  lemma {:induction false} MulNoSignedOverflowMeans(a: Expr, b: Expr, m: Model)
    requires SameBv(a, b) && Eval(a, m).V? && Eval(b, m).V?
    ensures var x, y := Eval(a, m).bits, Eval(b, m).bits;
      |x| == |y| > 0 && Eval(MulNoSignedOverflow(a, b), m) == B(InSigned(ToInt(x) * ToInt(y), |x|))
  {
    hide Eval, WF, Size, MkSext, MkMul, MkEq, ToInt, FromInt, SignExtend, InSigned;
    Operands(a, b, m);
    var x, y, w := Eval(a, m).bits, Eval(b, m).bits, Width(a);
    Extended(a, w, m);
    Extended(b, w, m);
    Product(a, b, m);
    Product(MkSext(a, w), MkSext(b, w), m);
    ProductInRange(x, y);
    WideAgrees(MkMul(MkSext(a, w), MkSext(b, w)), MkMul(a, b), ToInt(x) * ToInt(y), w, w, m);
  }

  // ---- Unsigned overflow ----

  function AddNoUnsignedOverflow(a: Expr, b: Expr): (r: Expr)
    requires SameBv(a, b)
    ensures WF(r) && SortOf(r) == SBool
  {
    var w := Width(a);
    if MinLeadingZeros(a) >= 1 && MinLeadingZeros(b) >= 1 then Bool(true)
    else if IsConst(b) then MkUle(a, MkSub(Bv(Ones(w)), b))
    else if IsConst(a) then MkUle(b, MkSub(Bv(Ones(w)), a))
    else MkEq(MkExtract(MkAdd(MkZext(a, 1), MkZext(b, 1)), w, w, 3), UInt(0, 1))
  }

  function SubNoUnsignedOverflow(a: Expr, b: Expr): (r: Expr)
    requires SameBv(a, b)
    ensures WF(r) && SortOf(r) == SBool
  {
    var w := Width(a);
    MkEq(MkExtract(MkSub(MkZext(a, 1), MkZext(b, 1)), w, w, 3), UInt(0, 1))
  }

  function MulNoUnsignedOverflow(a: Expr, b: Expr): (r: Expr)
    requires SameBv(a, b)
    ensures WF(r) && SortOf(r) == SBool
  {
    var w := Width(a);
    MkEq(MkExtract(MkMul(MkZext(a, w), MkZext(b, w)), 2 * w - 1, w, 3), UInt(0, w))
  }

  lemma {:induction false} ZeroExtended(a: Expr, k: nat, m: Model)
    requires WF(a) && IsBv(a) && Eval(a, m).V?
    ensures var x := Eval(a, m).bits;
      && |x| == Width(a) > 0 && Eval(MkZext(a, k), m) == V(x + Zeros(k)) && ToNat(x + Zeros(k)) == ToNat(x)
  {
    hide Eval, WF, SortOf, Size, MkZext, ToNat, Pow2;
    EvalSort(a, m);
    MkZextMeans(a, k, m);
    var x := Eval(a, m).bits;
    ToNatConcat(x, Zeros(k));
    ToNatFill(k);
    assert Pow2(|x|) * 0 == 0;
  }

  /** The test that the bits from `w` up are zero. */
  lemma {:induction false} HighZero(e: Expr, n: int, w: nat, k: nat, m: Model)
    requires w > 0 && k > 0 && WF(e) && SortOf(e) == SBv(w + k) && Eval(e, m) == V(FromInt(n, w + k))
    requires -(Pow2(w) as int) <= n < Pow2(w + k) && (n < 0 ==> k == 1)
    ensures Eval(MkEq(MkExtract(e, w + k - 1, w, 3), UInt(0, k)), m) == B(0 <= n < Pow2(w))
  {
    hide Eval, WF, SortOf, Size, MkExtract, MkEq, ToNat, FromInt, Truncate, Fill;
    var x := FromInt(n, w + k);
    MkExtractMeans(e, w + k - 1, w, 3, m);
    OpenBv(UInt(0, k), m);
    MkEqMeans(MkExtract(e, w + k - 1, w, 3), UInt(0, k), m);
    ZeroNumeral(k);
    ToNatLow(x, w);
    ToNatZero(x[w..]);
    HighPart(n, w, k);
    assert x[w..w + k] == x[w..];
  }

  lemma {:induction false} HighPart(n: int, w: nat, k: nat)
    requires k > 0 && -(Pow2(w) as int) <= n < Pow2(w + k) && (n < 0 ==> k == 1)
    ensures ToNat(FromInt(n, w + k)) / Pow2(w) == 0 <==> 0 <= n < Pow2(w)
  {
    ToNatFromInt(n, w + k);
    assert n < 0 ==> Pow2(w + k) == 2 * Pow2(w);
    hide ToNat, FromInt, Mod;
    if n < 0 {
      IntModShift(n, Pow2(w + k), 1);
      ModSmall(n + Pow2(w + k), Pow2(w + k));
    } else {
      ModSmall(n, Pow2(w + k));
    }
    hide Pow2;
    QuotientZero(Mod(n, Pow2(w + k)), Pow2(w));
  }

  lemma QuotientZero(n: nat, d: nat)
    requires d > 0
    ensures n / d == 0 <==> n < d
  {
    assert n == d * (n / d) + n % d;
    if n < d {
      DivModUnique(n, d, 0, n);
    }
  }

  /** The test is true iff the sum of the unsigned numbers fits. */
  lemma {:induction false} AddNoUnsignedOverflowMeans(a: Expr, b: Expr, m: Model)
    requires SameBv(a, b) && Eval(a, m).V? && Eval(b, m).V?
    ensures var x, y := Eval(a, m).bits, Eval(b, m).bits;
      |x| == |y| > 0 && Eval(AddNoUnsignedOverflow(a, b), m) == B(ToNat(x) + ToNat(y) < Pow2(|x|))
  {
    hide Eval, WF, SortOf, Size, MkZext, MkAdd, MkEq, MkUle, MkSub, MkExtract, MinLeadingZeros, ToNat, Fill, Truncate;
    Operands(a, b, m);
    if MinLeadingZeros(a) >= 1 && MinLeadingZeros(b) >= 1 {
      OpenBool(Bool(true), m);
      HalfRange(a, m);
      HalfRange(b, m);
    } else if IsConst(b) {
      BelowRest(a, b, m);
    } else if IsConst(a) {
      BelowRest(b, a, m);
    } else {
      CarryBit(a, b, m);
    }
  }

  lemma {:induction false} CarryBit(a: Expr, b: Expr, m: Model)
    requires SameBv(a, b) && Eval(a, m).V? && Eval(b, m).V?
    ensures var x, y, w := Eval(a, m).bits, Eval(b, m).bits, Width(a);
      && |x| == |y| == w > 0
      && Eval(MkEq(MkExtract(MkAdd(MkZext(a, 1), MkZext(b, 1)), w, w, 3), UInt(0, 1)), m) ==
        B(ToNat(x) + ToNat(y) < Pow2(w))
  {
    hide Eval, WF, Size, MkZext, MkAdd, MkEq, MkExtract, ToNat, FromInt, Add, Fill, Truncate;
    Operands(a, b, m);
    var x, y, w := Eval(a, m).bits, Eval(b, m).bits, Width(a);
    ZeroExtended(a, 1, m);
    ZeroExtended(b, 1, m);
    MkAddMeans(MkZext(a, 1), MkZext(b, 1), m);
    AddIsFromInt(x + Zeros(1), y + Zeros(1));
    HighZero(MkAdd(MkZext(a, 1), MkZext(b, 1)), ToNat(x) + ToNat(y), w, 1, m);
  }

  lemma {:induction false} HalfRange(e: Expr, m: Model)
    requires WF(e) && IsBv(e) && Eval(e, m).V? && MinLeadingZeros(e) >= 1
    ensures var x := Eval(e, m).bits; |x| == Width(e) > 0 && 2 * ToNat(x) < Pow2(|x|)
  {
    hide Eval, WF, SortOf, Size, MinLeadingZeros, ToNat;
    EvalSort(e, m);
    LeadingZerosBound(e, m);
    var w := Width(e);
    Pow2Monotone(w - MinLeadingZeros(e), w - 1);
  }

  lemma {:induction false} BelowRest(a: Expr, b: Expr, m: Model)
    requires SameBv(a, b) && Eval(a, m).V? && Eval(b, m).V?
    ensures var x, y := Eval(a, m).bits, Eval(b, m).bits;
      |x| == |y| > 0 && Eval(MkUle(a, MkSub(Bv(Ones(Width(a))), b)), m) == B(ToNat(x) + ToNat(y) < Pow2(|x|))
  {
    hide Eval, WF, Size, MkUle, MkSub, ToNat, FromInt, Pow2, Fill;
    Operands(a, b, m);
    var y, w := Eval(b, m).bits, Width(a);
    var ones := Bv(Ones(w));
    OpenBv(ones, m);
    OnesWellFormed(w);
    MkSubMeans(ones, b, m);
    MkUleMeans(a, MkSub(ones, b), m);
    ToNatFill(w);
    ToNatFromInt(Pow2(w) - 1 - ToNat(y), w);
    ModSmall(Pow2(w) - 1 - ToNat(y), Pow2(w));
  }

  lemma OnesWellFormed(w: nat)
    requires w > 0
    ensures WF(Bv(Ones(w))) && SortOf(Bv(Ones(w))) == SBv(w)
  {
  }

  lemma {:induction false} SubNoUnsignedOverflowMeans(a: Expr, b: Expr, m: Model)
    requires SameBv(a, b) && Eval(a, m).V? && Eval(b, m).V?
    ensures var x, y := Eval(a, m).bits, Eval(b, m).bits;
      |x| == |y| > 0 && Eval(SubNoUnsignedOverflow(a, b), m) == B(ToNat(x) >= ToNat(y))
  {
    hide Eval, WF, Size, MkZext, MkEq, MkSub, MkExtract, ToNat, FromInt, Fill, Truncate;
    Operands(a, b, m);
    var x, y, w := Eval(a, m).bits, Eval(b, m).bits, Width(a);
    ZeroExtended(a, 1, m);
    ZeroExtended(b, 1, m);
    MkSubMeans(MkZext(a, 1), MkZext(b, 1), m);
    HighZero(MkSub(MkZext(a, 1), MkZext(b, 1)), ToNat(x) - ToNat(y), w, 1, m);
  }

  lemma {:induction false} MulNoUnsignedOverflowMeans(a: Expr, b: Expr, m: Model)
    requires SameBv(a, b) && Eval(a, m).V? && Eval(b, m).V?
    ensures var x, y := Eval(a, m).bits, Eval(b, m).bits;
      |x| == |y| > 0 && Eval(MulNoUnsignedOverflow(a, b), m) == B(ToNat(x) * ToNat(y) < Pow2(|x|))
  {
    hide Eval, WF, Size, MkZext, MkEq, MkMul, MkExtract, ToNat, FromInt, Fill, Truncate, Mul, Pow2;
    Operands(a, b, m);
    var x, y, w := Eval(a, m).bits, Eval(b, m).bits, Width(a);
    ZeroExtended(a, w, m);
    ZeroExtended(b, w, m);
    MkMulMeans(MkZext(a, w), MkZext(b, w), m);
    AddIsFromInt(x + Zeros(w), y + Zeros(w));
    Pow2Add(w, w);
    SquareBound(ToNat(x), ToNat(y), Pow2(w));
    HighZero(MkMul(MkZext(a, w), MkZext(b, w)), ToNat(x) * ToNat(y), w, w, m);
  }

  lemma SquareBound(x: nat, y: nat, p: nat)
    requires x < p && y < p
    ensures 0 <= x * y < p * p
  {
    MulMonotone(x, y, p);
    MulMonotone(p, x + 1, p);
    assert p * (x + 1) == x * p + p;
  }

  // ---- Saturation ----

  function SMin(w: nat): (r: Bits)
    requires w > 0
    ensures |r| == w
  {
    Zeros(w - 1) + [true]
  }

  function SMax(w: nat): (r: Bits)
    requires w > 0
    ensures |r| == w
  {
    Ones(w - 1) + [false]
  }

  lemma {:induction false} Extremes(w: nat)
    requires w > 0
    ensures ToInt(SMin(w)) == -(Pow2(w - 1) as int) && ToInt(SMax(w)) == Pow2(w - 1) - 1
  {
    OneBitValue(true);
    OneBitValue(false);
    assert Pow2(w) == 2 * Pow2(w - 1);
    hide ToNat, Pow2, Fill;
    ToNatFill(w - 1);
    ToNatConcat(Zeros(w - 1), [true]);
    ToNatConcat(Ones(w - 1), [false]);
    assert Pow2(w - 1) * 1 == Pow2(w - 1) && Pow2(w - 1) * 0 == 0;
  }

  lemma OneBitValue(b: bool)
    ensures ToNat([b]) == if b then 1 else 0
  {
    assert [b][1..] == [];
  }

  /** The nearest number in range. */
  function Clamp(n: int, low: int, high: int): int {
    if n < low then low else if n > high then high else n
  }

  /** The number `wide` computes, or the extreme it is past; `narrow` is the wrapped result. */
  function Saturated(wide: Expr, narrow: Expr, w: nat): (r: Expr)
    requires w > 0 && WF(wide) && WF(narrow) && SortOf(wide) == SBv(w + 1) && SortOf(narrow) == SBv(w)
    ensures WF(r) && SortOf(r) == SBv(w)
  {
    var min, max := Bv(SMin(w)), Bv(SMax(w));
    MkIf(MkSle(wide, MkSext(min, 1)), min, MkIf(MkSle(MkSext(max, 1), wide), max, narrow))
  }

  function SaddSat(a: Expr, b: Expr): (r: Expr)
    requires SameBv(a, b)
    ensures WF(r) && SortOf(r) == SortOf(a)
  {
    Saturated(MkAdd(MkSext(a, 1), MkSext(b, 1)), MkAdd(a, b), Width(a))
  }

  function SsubSat(a: Expr, b: Expr): (r: Expr)
    requires SameBv(a, b)
    ensures WF(r) && SortOf(r) == SortOf(a)
  {
    Saturated(MkSub(MkSext(a, 1), MkSext(b, 1)), MkSub(a, b), Width(a))
  }

  function UaddSat(a: Expr, b: Expr): (r: Expr)
    requires SameBv(a, b)
    ensures WF(r) && SortOf(r) == SortOf(a)
  {
    MkIf(AddNoUnsignedOverflow(a, b), MkAdd(a, b), Bv(Ones(Width(a))))
  }

  function UsubSat(a: Expr, b: Expr): (r: Expr)
    requires SameBv(a, b)
    ensures WF(r) && SortOf(r) == SortOf(a)
  {
    MkIf(MkUle(a, b), UInt(0, Width(a)), MkSub(a, b))
  }

  lemma {:induction false} NumeralExtended(x: Bits, k: nat, m: Model)
    requires |x| > 0
    ensures WF(Bv(x)) && SortOf(Bv(x)) == SBv(|x|) && Eval(Bv(x), m) == V(x)
    ensures Eval(MkSext(Bv(x), k), m) == V(SignExtend(x, k)) && ToInt(SignExtend(x, k)) == ToInt(x)
  {
    OpenBv(Bv(x), m);
    hide Eval, MkSext, SignExtend, ToInt;
    Extended(Bv(x), k, m);
  }

  lemma {:induction false} OneChoice(c: Expr, x: Expr, y: Expr, b: bool, p: Bits, q: Bits, m: Model)
    requires WF(c) && SortOf(c) == SBool && SameBv(x, y) && |p| == |q| > 0
    requires Eval(c, m) == B(b) && Eval(x, m) == V(p) && Eval(y, m) == V(q)
    ensures Eval(MkIf(c, x, y), m) == V(if b then p else q)
  {
    hide Eval, WF, SortOf, Size, MkIf;
    MkIfMeans(c, x, y, m);
  }

  lemma {:induction false} SaturatedMeans(wide: Expr, narrow: Expr, n: int, w: nat, m: Model, r: Bits)
    requires w > 0 && WF(wide) && WF(narrow) && SortOf(wide) == SBv(w + 1) && SortOf(narrow) == SBv(w) &&
      InSigned(n, w + 1)
    requires Eval(wide, m) == V(FromInt(n, w + 1)) && Eval(narrow, m) == V(FromInt(n, w))
    requires r == if n <= ToInt(SMin(w)) then SMin(w) else if ToInt(SMax(w)) <= n then SMax(w) else FromInt(n, w)
    ensures Eval(Saturated(wide, narrow, w), m) == V(r)
    ensures |r| == w && ToInt(r) == Clamp(n, -(Pow2(w - 1) as int), Pow2(w - 1) - 1)
  {
    hide Eval, WF, SortOf, Size, MkSext, MkSle, MkIf, ToInt, FromInt, SMin, SMax, SignExtend;
    var low, high := SMin(w), SMax(w);
    var min, max := Bv(low), Bv(high);
    ClampedBits(n, w, r);
    NumeralExtended(low, 1, m);
    NumeralExtended(high, 1, m);
    PastExtremes(wide, n, w, m);
    hide InSigned, Pow2;
    var below, above := MkSle(wide, MkSext(min, 1)), MkSle(MkSext(max, 1), wide);
    OneChoice(above, max, narrow, ToInt(high) <= n, high, FromInt(n, w), m);
    OneChoice(below, min, MkIf(above, max, narrow), n <= ToInt(low), low, if ToInt(high) <= n then high
      else FromInt(n, w), m);
  }

  lemma {:induction false} ClampedBits(n: int, w: nat, r: Bits)
    requires w > 0 && r == if n <= ToInt(SMin(w)) then SMin(w) else if ToInt(SMax(w)) <= n then SMax(w)
      else FromInt(n, w)
    ensures |r| == w && ToInt(r) == Clamp(n, -(Pow2(w - 1) as int), Pow2(w - 1) - 1)
  {
    hide ToInt, FromInt, SMin, SMax, Pow2;
    Extremes(w);
    if InSigned(n, w) {
      ToFromInt(n, w);
    }
  }

  lemma {:induction false} PastExtremes(wide: Expr, n: int, w: nat, m: Model)
    requires w > 0 && WF(wide) && SortOf(wide) == SBv(w + 1) && InSigned(n, w + 1) &&
      Eval(wide, m) == V(FromInt(n, w + 1))
    ensures WF(Bv(SMin(w))) && WF(Bv(SMax(w)))
    ensures Eval(MkSle(wide, MkSext(Bv(SMin(w)), 1)), m) == B(n <= ToInt(SMin(w)))
    ensures Eval(MkSle(MkSext(Bv(SMax(w)), 1), wide), m) == B(ToInt(SMax(w)) <= n)
  {
    var low, high := SMin(w), SMax(w);
    var min, max := Bv(low), Bv(high);
    hide Eval, WF, SortOf, Size, MkSext, MkSle, ToInt, FromInt, SignExtend, SMin, SMax;
    NumeralExtended(low, 1, m);
    NumeralExtended(high, 1, m);
    ToFromInt(n, w + 1);
    SleMeans(wide, MkSext(min, 1), m);
    SleMeans(MkSext(max, 1), wide, m);
  }

  /** Signed saturating addition gives the nearest number in range to the sum. */
  lemma {:induction false} SaddSatMeans(a: Expr, b: Expr, m: Model)
    requires SameBv(a, b) && Eval(a, m).V? && Eval(b, m).V?
    ensures var x, y, r := Eval(a, m).bits, Eval(b, m).bits, Eval(SaddSat(a, b), m);
      && |x| == |y| > 0 && r.V? && |r.bits| == |x|
      && ToInt(r.bits) == Clamp(ToInt(x) + ToInt(y), -(Pow2(|x| - 1) as int), Pow2(|x| - 1) - 1)
  {
    hide Eval, WF, Size, MkSext, MkAdd, Saturated, ToInt, FromInt, SignExtend, InSigned, Pow2, SMin, SMax;
    Operands(a, b, m);
    var x, y := Eval(a, m).bits, Eval(b, m).bits;
    ExtendedSum(a, b, m);
    Sum(a, b, m);
    var n := ToInt(x) + ToInt(y);
    var r := if n <= ToInt(SMin(|x|)) then SMin(|x|) else if ToInt(SMax(|x|)) <= n then SMax(|x|) else FromInt(n, |x|);
    SaturatedMeans(MkAdd(MkSext(a, 1), MkSext(b, 1)), MkAdd(a, b), n, |x|, m, r);
  }

  lemma {:induction false} SsubSatMeans(a: Expr, b: Expr, m: Model)
    requires SameBv(a, b) && Eval(a, m).V? && Eval(b, m).V?
    ensures var x, y, r := Eval(a, m).bits, Eval(b, m).bits, Eval(SsubSat(a, b), m);
      && |x| == |y| > 0 && r.V? && |r.bits| == |x|
      && ToInt(r.bits) == Clamp(ToInt(x) - ToInt(y), -(Pow2(|x| - 1) as int), Pow2(|x| - 1) - 1)
  {
    hide Eval, WF, Size, MkSext, MkSub, Saturated, ToInt, FromInt, SignExtend, InSigned, Pow2, SMin, SMax;
    Operands(a, b, m);
    var x, y := Eval(a, m).bits, Eval(b, m).bits;
    ExtendedDifference(a, b, m);
    Difference(a, b, m);
    var n := ToInt(x) - ToInt(y);
    var r := if n <= ToInt(SMin(|x|)) then SMin(|x|) else if ToInt(SMax(|x|)) <= n then SMax(|x|) else FromInt(n, |x|);
    SaturatedMeans(MkSub(MkSext(a, 1), MkSext(b, 1)), MkSub(a, b), n, |x|, m, r);
  }

  lemma {:induction false} UaddSatMeans(a: Expr, b: Expr, m: Model)
    requires SameBv(a, b) && Eval(a, m).V? && Eval(b, m).V?
    ensures var x, y, r := Eval(a, m).bits, Eval(b, m).bits, Eval(UaddSat(a, b), m);
      && |x| == |y| > 0 && r.V? && |r.bits| == |x| && ToNat(r.bits) == Clamp(ToNat(x) + ToNat(y), 0, Pow2(|x|) - 1)
  {
    hide Eval, WF, Size, MkAdd, MkIf, AddNoUnsignedOverflow, ToNat, FromInt, Pow2, Fill, Add, Clamp;
    Operands(a, b, m);
    var x, y, w := Eval(a, m).bits, Eval(b, m).bits, Width(a);
    AddNoUnsignedOverflowMeans(a, b, m);
    MkAddMeans(a, b, m);
    AddIsFromInt(x, y);
    ClampedSum(ToNat(x) + ToNat(y), w);
    OnesWellFormed(w);
    OpenBv(Bv(Ones(w)), m);
    OneChoice(AddNoUnsignedOverflow(a, b), MkAdd(a, b), Bv(Ones(w)), ToNat(x) + ToNat(y) < Pow2(w),
              FromInt(ToNat(x) + ToNat(y), w), Ones(w), m);
  }

  lemma ClampedSum(n: nat, w: nat)
    ensures ToNat(if n < Pow2(w) then FromInt(n, w) else Ones(w)) == Clamp(n, 0, Pow2(w) - 1)
  {
    hide ToNat, FromInt, Pow2, Fill, Mod;
    ToNatFromInt(n, w);
    if n < Pow2(w) {
      ModSmall(n, Pow2(w));
    }
    ToNatFill(w);
  }

  lemma ClampedDifference(x: nat, y: nat, w: nat, zero: Bits)
    requires x < Pow2(w) && ToNat(zero) == 0
    ensures ToNat(if x <= y then zero else FromInt(x - y, w)) == Clamp(x - y, 0, Pow2(w) - 1)
  {
    hide ToNat, FromInt, Pow2, Mod;
    ToNatFromInt(x - y, w);
    if x > y {
      ModSmall(x - y, Pow2(w));
    }
  }

  lemma {:induction false} UsubSatMeans(a: Expr, b: Expr, m: Model)
    requires SameBv(a, b) && Eval(a, m).V? && Eval(b, m).V?
    ensures var x, y, r := Eval(a, m).bits, Eval(b, m).bits, Eval(UsubSat(a, b), m);
      && |x| == |y| > 0 && r.V? && |r.bits| == |x| && ToNat(r.bits) == Clamp(ToNat(x) - ToNat(y), 0, Pow2(|x|) - 1)
  {
    hide Eval, WF, Size, MkSub, MkIf, MkUle, ToNat, FromInt, Pow2, Truncate, Clamp;
    Operands(a, b, m);
    var x, y, w := Eval(a, m).bits, Eval(b, m).bits, Width(a);
    MkUleMeans(a, b, m);
    MkSubMeans(a, b, m);
    ZeroWellFormed(w, m);
    var zero := Eval(UInt(0, w), m).bits;
    ClampedDifference(ToNat(x), ToNat(y), w, zero);
    OneChoice(MkUle(a, b), UInt(0, w), MkSub(a, b), ToNat(x) <= ToNat(y), zero, FromInt(ToNat(x) - ToNat(y), w), m);
  }

  lemma ZeroWellFormed(w: nat, m: Model)
    requires w > 0
    ensures WF(UInt(0, w)) && SortOf(UInt(0, w)) == SBv(w)
    ensures var z := Eval(UInt(0, w), m); z.V? && |z.bits| == w && ToNat(z.bits) == 0
  {
    OpenBv(UInt(0, w), m);
    ToNatTruncate(0, w);
    ModSmall(0, Pow2(w));
  }
}

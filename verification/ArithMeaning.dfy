/** The arithmetic, bitwise and array constructors keep the meaning of the plain terms. */
module ArithMeaning {
  import opened Bits
  import opened BitLaws
  import opened Terms
  import opened SmartExpr
  import opened SmartMeaning
  import opened SmartArith

  lemma {:induction false} FoldMeans(op: Op, a: Expr, b: Expr, m: Model)
    requires SameBv(a, b)
    ensures Refines(Eval(Fold(op, a, b), m), BinV(op, Eval(a, m), Eval(b, m)))
  {
    hide Eval, WF, SortOf, Size, Apply, Divides;
    if a.Bv? && b.Bv? {
      OpenBv(a, m);
      OpenBv(b, m);
      OpenBv(Bv(Apply(op, a.bits, b.bits)), m);
    } else {
      OpenBin(Bin(op, a, b), m);
    }
  }

  /** The numeral of a small enough number. */
  lemma {:induction false} NumeralMeans(n: nat, w: nat, m: Model)
    requires n < Pow2(w)
    ensures Eval(UInt(n, w), m) == V(Truncate(n, w)) && |Truncate(n, w)| == w && ToNat(Truncate(n, w)) == n
  {
    hide ToNat, Pow2, FromNat, SortOf, WF, Size, Eval;
    OpenBv(UInt(n, w), m);
    ToNatTruncate(n, w);
    ModSmall(n, Pow2(w));
  }

  // ---- Shifts ----

  lemma {:induction false} ZerosAboveMeans(e: Expr, n: nat, m: Model)
    requires WF(e) && IsBv(e)
    ensures var x := Eval(e, m); x.V? ==> Eval(ZerosAbove(e, n), m) == V(x.bits + Zeros(n))
  {
    hide Eval, WF, SortOf, Size, MkConcat;
    EvalSort(e, m);
    if n > 0 {
      ZeroNumeral(n);
      OpenBv(UInt(0, n), m);
      MkConcatMeans(UInt(0, n), e, m);
    } else if Eval(e, m).V? {
      assert Eval(e, m).bits + Zeros(n) == Eval(e, m).bits;
    }
  }

  lemma {:induction false} ZerosBelowMeans(e: Expr, n: nat, m: Model)
    requires WF(e) && IsBv(e)
    ensures var x := Eval(e, m); x.V? ==> Eval(ZerosBelow(e, n), m) == V(Zeros(n) + x.bits)
  {
    hide Eval, WF, SortOf, Size, MkConcat;
    EvalSort(e, m);
    if n > 0 {
      ZeroNumeral(n);
      OpenBv(UInt(0, n), m);
      MkConcatMeans(e, UInt(0, n), m);
    } else if Eval(e, m).V? {
      assert Zeros(n) + Eval(e, m).bits == Eval(e, m).bits;
    }
  }

  lemma {:induction false} ShlByMeans(a: Expr, k: nat, m: Model)
    requires WF(a) && IsBv(a) && k > 0
    ensures var x := Eval(a, m); x.V? ==> Eval(ShlBy(a, k), m) == V(ShiftLeft(x.bits, k))
  {
    hide Eval, WF, SortOf, Size, ZerosBelow, MkExtract;
    var w := Width(a);
    EvalSort(a, m);
    if k >= w {
      ZeroNumeral(w);
      OpenBv(UInt(0, w), m);
    } else {
      MkExtractMeans(a, w - k - 1, 0, 3, m);
      ZerosBelowMeans(MkExtract(a, w - k - 1, 0, 3), k, m);
    }
  }

  lemma {:induction false} MkShlMeans(a: Expr, b: Expr, m: Model)
    requires SameBv(a, b)
    ensures Refines(Eval(MkShl(a, b), m), BinV(OShl, Eval(a, m), Eval(b, m)))
  {
    hide Eval, WF, SortOf, Size, Fold, ShlBy;
    FoldMeans(OShl, a, b, m);
    var x, y := Eval(a, m), Eval(b, m);
    if IsZero(a) || IsZero(b) {
      ShiftZero(a, b, m);
    } else if IsUInt(b) {
      OpenBv(b, m);
      ShlByMeans(a, ToNat(b.bits), m);
    }
  }

  /** Shifting zero, or by zero, changes nothing. */
  lemma {:induction false} ShiftZero(a: Expr, b: Expr, m: Model)
    requires SameBv(a, b) && (IsZero(a) || IsZero(b))
    ensures Refines(Eval(a, m), BinV(OShl, Eval(a, m), Eval(b, m)))
    ensures Refines(Eval(a, m), BinV(OLshr, Eval(a, m), Eval(b, m)))
    ensures Refines(Eval(a, m), BinV(OAshr, Eval(a, m), Eval(b, m)))
  {
    hide Eval, WF, SortOf, Size, ToNat, ShiftLeft, ShiftRight, Negative, Fill;
    if IsZero(a) { OpenBv(a, m); } else { OpenBv(b, m); }
    var x, y := Eval(a, m), Eval(b, m);
    if x.V? && SameSort(x, y) {
      ToNatZero(x.bits);
      ShiftLaws(x.bits, ToNat(y.bits));
    }
  }

  lemma ShiftLaws(x: Bits, k: nat)
    requires |x| > 0
    ensures k == 0 || x == Zeros(|x|) ==>
      ShiftLeft(x, k) == x && ShiftRight(x, k, false) == x && ShiftRight(x, k, Negative(x)) == x
  {
  }

  lemma {:induction false} LshrByMeans(a: Expr, k: nat, m: Model)
    requires WF(a) && IsBv(a) && k > 0
    ensures var x := Eval(a, m); x.V? ==> Eval(LshrBy(a, k), m) == V(ShiftRight(x.bits, k, false))
  {
    hide Eval, WF, SortOf, Size, ZerosAbove, MkExtract;
    var w := Width(a);
    var x := Eval(a, m);
    EvalSort(a, m);
    if k >= w {
      ZeroNumeral(w);
      OpenBv(UInt(0, w), m);
    } else {
      MkExtractMeans(a, w - 1, k, 3, m);
      ZerosAboveMeans(MkExtract(a, w - 1, k, 3), k, m);
      assert x.V? ==> x.bits[k..w] == x.bits[k..];
    }
  }

  lemma {:induction false} MkLshrMeans(a: Expr, b: Expr, m: Model)
    requires SameBv(a, b)
    ensures Refines(Eval(MkLshr(a, b), m), BinV(OLshr, Eval(a, m), Eval(b, m)))
  {
    hide Eval, WF, SortOf, Size, Fold, LshrBy;
    FoldMeans(OLshr, a, b, m);
    if IsZero(a) || IsZero(b) {
      ShiftZero(a, b, m);
    } else if IsUInt(b) {
      OpenBv(b, m);
      LshrByMeans(a, ToNat(b.bits), m);
    }
  }

  lemma {:induction false} MkAshrMeans(a: Expr, b: Expr, m: Model)
    requires SameBv(a, b)
    ensures Refines(Eval(MkAshr(a, b), m), BinV(OAshr, Eval(a, m), Eval(b, m)))
  {
    hide Eval, WF, SortOf, Size, Fold;
    FoldMeans(OAshr, a, b, m);
    if IsZero(a) || IsZero(b) {
      ShiftZero(a, b, m);
    }
  }

  // ---- Commutative operations ----

  lemma {:induction false} OpCommutes(op: Op, x: Value, y: Value)
    requires Commutes(op)
    ensures BinV(op, x, y) == BinV(op, y, x)
  {
    hide Apply;
    if x.V? && SameSort(x, y) {
      OpLaws(op, x.bits, y.bits, x.bits);
    }
  }

  lemma {:induction false} OpAssociates(op: Op, x: Value, y: Value, z: Value)
    requires Commutes(op)
    ensures BinV(op, BinV(op, x, y), z) == BinV(op, x, BinV(op, y, z))
  {
    hide Apply;
    if x.V? && SameSort(x, y) && SameSort(y, z) {
      OpLaws(op, x.bits, y.bits, z.bits);
    }
  }

  lemma {:induction false} OrderedMeans(op: Op, a: Expr, b: Expr, m: Model)
    requires SameBv(a, b) && Commutes(op)
    ensures Refines(Eval(Ordered(op, a, b), m), BinV(op, Eval(a, m), Eval(b, m)))
  {
    hide Eval, WF, SortOf, Size, Fold, BinV;
    FoldMeans(op, a, b, m);
    FoldMeans(op, b, a, m);
    OpCommutes(op, Eval(a, m), Eval(b, m));
  }

  /** An identity operand can be dropped, and an absorbing one kept. */
  lemma {:induction false} UnitMeans(op: Op, a: Expr, b: Expr, m: Model)
    requires SameBv(a, b) && Commutes(op)
    ensures Identity(op, b) ==> Refines(Eval(a, m), BinV(op, Eval(a, m), Eval(b, m)))
    ensures Absorbs(op, b) ==> Refines(Eval(b, m), BinV(op, Eval(a, m), Eval(b, m)))
  {
    hide Eval, WF, SortOf, Size, Add, Mul, BitAnd, BitOr, BitXor;
    if b.Bv? {
      OpenBv(b, m);
      var x, y := Eval(a, m), Eval(b, m);
      if x.V? && SameSort(x, y) {
        Units(x.bits, y.bits);
      }
    }
  }

  lemma {:induction false} MkCommutativeMeans(op: Op, a: Expr, b: Expr, m: Model)
    requires SameBv(a, b) && Commutes(op)
    ensures Refines(Eval(MkCommutative(op, a, b), m), BinV(op, Eval(a, m), Eval(b, m)))
    decreases Size(a) + Size(b), if a.Bv? then 0 else 1
  {
    hide Eval, WF, SortOf, Size, MkOp, Ordered, BinV, Absorbs, Identity;
    var x, y := Eval(a, m), Eval(b, m);
    OpCommutes(op, x, y);
    UnitMeans(op, a, b, m);
    UnitMeans(op, b, a, m);
    if Absorbs(op, a) || Identity(op, b) || Absorbs(op, b) || Identity(op, a) {
    } else if a.Bv? && b.Bin? && b.op == op && b.a.Bv? {
      OpenBin(b, m);
      MoveNumeral(op, a, b.a, b.b, m);
    } else if a.Bv? && b.Bin? && b.op == op && b.b.Bv? {
      OpenBin(b, m);
      OpCommutes(op, Eval(b.a, m), Eval(b.b, m));
      MoveNumeral(op, a, b.b, b.a, m);
    } else if !a.Bv? && b.Bv? {
      MkCommutativeMeans(op, b, a, m);
    } else {
      OrderedMeans(op, a, b, m);
    }
  }

  lemma {:induction false} MoveNumeral(op: Op, a: Expr, b: Expr, c: Expr, m: Model)
    requires SameBv(a, b) && SameBv(b, c) && Commutes(op) && a.Bv? && b.Bv?
    ensures Refines(Eval(MkOp(op, MkOp(op, a, b), c), m), BinV(op, Eval(a, m), BinV(op, Eval(b, m), Eval(c, m))))
    decreases Size(b) + Size(c) + 1, 0
  {
    hide Eval, WF, SortOf, MkOp, BinV;
    MkOpMeans(op, a, b, m);
    MkOpMeans(op, MkOp(op, a, b), c, m);
    OpAssociates(op, Eval(a, m), Eval(b, m), Eval(c, m));
    BinStrict(op, Eval(a, m), Eval(b, m), Eval(c, m));
  }

  lemma BinStrict(op: Op, x: Value, y: Value, z: Value)
    ensures BinV(op, x, y).Undef? ==> BinV(op, BinV(op, x, y), z).Undef?
  {
  }

  lemma {:induction false} MkOpMeans(op: Op, a: Expr, b: Expr, m: Model)
    requires SameBv(a, b) && Commutes(op)
    ensures Refines(Eval(MkOp(op, a, b), m), BinV(op, Eval(a, m), Eval(b, m)))
    decreases Size(a) + Size(b), 3
  {
    hide Eval, WF, SortOf, Size, MkAdd, MkMul, MkBvAnd, MkBvOr, MkBvXor, BinV;
    if op == OAdd {
      MkAddMeans(a, b, m);
    } else if op == OMul {
      MkMulMeans(a, b, m);
    } else if op == OAnd {
      MkBvAndMeans(a, b, m);
    } else if op == OOr {
      MkBvOrMeans(a, b, m);
    } else {
      MkBvXorMeans(a, b, m);
    }
  }

  lemma {:induction false} AddLowMeans(a: Expr, b: Expr, m: Model)
    requires SameBv(a, b) && AddsToLow(a, b)
    ensures Refines(Eval(MkConcat(a.a, Bv(Add(a.b.bits, b.bits[..|a.b.bits|]))), m), BinV(OAdd, Eval(a, m), Eval(b, m)))
  {
    hide Eval, WF, SortOf, Size, MkConcat, Add, ToNat, Pow2;
    OpenConcat(a, m);
    OpenBv(a.b, m);
    OpenBv(b, m);
    var w := |a.b.bits|;
    var d := b.bits[..w];
    var low := Bv(Add(a.b.bits, d));
    OpenBv(low, m);
    MkConcatMeans(a.a, low, m);
    EvalSort(a.a, m);
    var x := Eval(a.a, m);
    if x.V? {
      assert b.bits == d + Zeros(|x.bits|);
      AddLow(a.b.bits, x.bits, d);
    }
  }

  lemma {:induction false} MkAddMeans(a: Expr, b: Expr, m: Model)
    requires SameBv(a, b)
    ensures Refines(Eval(MkAdd(a, b), m), BinV(OAdd, Eval(a, m), Eval(b, m)))
    decreases Size(a) + Size(b), 2
  {
    hide Eval, WF, SortOf, Size, MkConcat, MkCommutative, AddsToLow, BinV;
    if AddsToLow(a, b) {
      AddLowMeans(a, b, m);
    } else {
      MkCommutativeMeans(OAdd, a, b, m);
    }
  }

  lemma {:induction false} ShiftByLog(a: Expr, b: Expr, m: Model)
    requires SameBv(a, b) && IsPower2(b)
    ensures Refines(Eval(MkShl(a, UInt(Log2(b), Width(a))), m), BinV(OMul, Eval(a, m), Eval(b, m)))
  {
    hide Eval, WF, SortOf, Size, MkShl, Mul, ShiftLeft, ToNat, Pow2;
    var k := Log2(b);
    OpenBv(b, m);
    WidthBelowPow2(Width(a));
    NumeralMeans(k, Width(a), m);
    OpenBv(UInt(k, Width(a)), m);
    MkShlMeans(a, UInt(k, Width(a)), m);
    EvalSort(a, m);
    var x := Eval(a, m);
    if x.V? {
      MulPow2(x.bits, b.bits, k);
    }
  }

  lemma {:induction false} WidthBelowPow2(w: nat)
    ensures w < Pow2(w)
  {
    if w > 0 {
      WidthBelowPow2(w - 1);
    }
  }

  lemma {:induction false} MkMulMeans(a: Expr, b: Expr, m: Model)
    requires SameBv(a, b)
    ensures Refines(Eval(MkMul(a, b), m), BinV(OMul, Eval(a, m), Eval(b, m)))
    decreases Size(a) + Size(b), 2
  {
    hide Eval, WF, SortOf, Size, MkShl, MkCommutative, IsPower2, BinV;
    OpCommutes(OMul, Eval(a, m), Eval(b, m));
    if IsPower2(b) {
      ShiftByLog(a, b, m);
    } else if IsPower2(a) {
      ShiftByLog(b, a, m);
    } else {
      MkCommutativeMeans(OMul, a, b, m);
    }
  }

  /** The difference of the values, modulo the word size. */
  lemma {:induction false} MkSubMeans(a: Expr, b: Expr, m: Model)
    requires SameBv(a, b)
    ensures var x, y := Eval(a, m), Eval(b, m);
      x.V? && SameSort(x, y) ==> Eval(MkSub(a, b), m) == V(FromInt(ToNat(x.bits) - ToNat(y.bits), |x.bits|))
  {
    hide Eval, WF, SortOf, Size, MkAdd, MkMul, Add, Mul, Truncate, FromInt, ToNat, Pow2, FromNat, Fill;
    var w := Width(a);
    EvalSort(a, m);
    EvalSort(b, m);
    var minus := Bv(Ones(w));
    OpenBv(minus, m);
    OpenBv(UInt(0, w), m);
    MkMulMeans(minus, b, m);
    MkAddMeans(a, MkMul(minus, b), m);
    var x, y := Eval(a, m), Eval(b, m);
    if x.V? && SameSort(x, y) {
      SubtractBits(x.bits, y.bits);
    }
  }

  lemma {:induction false} SubtractBits(x: Bits, y: Bits)
    requires |x| == |y|
    ensures Add(x, Mul(Ones(|x|), y)) == FromInt(ToNat(x) - ToNat(y), |x|)
    ensures x == y ==> FromInt(ToNat(x) - ToNat(y), |x|) == Truncate(0, |x|)
  {
    hide ToNat, Pow2, FromNat;
    var p := Pow2(|x|);
    var a, b := ToNat(x), ToNat(y);
    ToNatFill(|x|);
    ToNatTruncate((p - 1) * b, |x|);
    SubtractMod(a, b, p);
    ModSmall(0, p);
  }

  lemma SubtractMod(a: nat, b: nat, p: nat)
    requires a < p && b < p
    ensures Mod(a + Mod((p - 1) * b, p), p) == Mod(a - b, p)
    ensures Mod(Mod(a - b, p), p) == Mod(a - b, p)
  {
    hide Mod;
    var q := (p - 1) * b;
    ModAdd(q, a, p);
    if a >= b {
      assert a + q == (a - b) + p * b;
      ModShift(a - b, p, b);
    } else {
      Wrapped(a, b, p);
    }
    ModSmall(Mod(a - b, p), p);
  }

  lemma Wrapped(a: nat, b: nat, p: nat)
    requires a < b < p
    ensures Mod(a + (p - 1) * b, p) == Mod(a - b, p)
  {
    hide Mod;
    var r := p + a - b;
    assert a + (p - 1) * b == r + p * (b - 1);
    ModShift(r, p, b - 1);
    ModSmall(r, p);
    NegativeMod(b - a, p);
  }

  lemma NegativeMod(n: nat, p: nat)
    requires 0 < n < p
    ensures Mod(0 - n, p) == p - n
  {
    assert 0 - n == -1 * p + (p - n);
  }

  // ---- Bitwise operations ----

  lemma {:induction false} SelfMeans(a: Expr, m: Model)
    requires WF(a) && IsBv(a)
    ensures Refines(Eval(a, m), BinV(OAnd, Eval(a, m), Eval(a, m)))
    ensures Refines(Eval(a, m), BinV(OOr, Eval(a, m), Eval(a, m)))
    ensures Refines(Eval(UInt(0, Width(a)), m), BinV(OXor, Eval(a, m), Eval(a, m)))
  {
    hide Eval, WF, SortOf, Size, BitAnd, BitOr, BitXor;
    EvalSort(a, m);
    OpenBv(UInt(0, Width(a)), m);
    ZeroNumeral(Width(a));
    var x := Eval(a, m);
    if x.V? {
      SelfLaws(x.bits);
    }
  }

  lemma {:induction false} KeepMaskedMeans(mask: Expr, e: Expr, m: Model)
    requires SameBv(e, mask) && IsMask(mask)
    ensures Refines(Eval(KeepMasked(mask, e), m), BinV(OAnd, Eval(mask, m), Eval(e, m)))
  {
    hide Eval, WF, SortOf, Size, ZerosAbove, ZerosBelow, MkExtract, TrailingZeros, LeadingZeros, BitAnd, Fill;
    MaskRange(mask.bits);
    OpenBv(mask, m);
    EvalSort(e, m);
    var w, lead, trail := |mask.bits|, LeadingZeros(mask.bits), TrailingZeros(mask.bits);
    var kept := MkExtract(e, w - lead - 1, trail, 3);
    MkExtractMeans(e, w - lead - 1, trail, 3, m);
    ZerosAboveMeans(kept, lead, m);
    ZerosBelowMeans(ZerosAbove(kept, lead), trail, m);
    var x := Eval(e, m);
    if x.V? {
      MaskedBits(mask.bits, x.bits, trail, w - lead);
    }
  }

  lemma {:induction false} GetBoolMeans(e: Expr, m: Model)
    requires WF(e) && IsBit(e) && GetBool(e).Some?
    ensures var c, x := Eval(GetBool(e).value, m), Eval(e, m);
      x.V? ==> c.B? && x == V([c.val])
  {
    hide Eval, WF, SortOf, Size, MkEq, MkNot;
    OpenIte(e, m);
    OpenBool(Bool(true), m);
    var one, zero := Bv([true]), Bv([false]);
    OpenBv(one, m);
    OpenBv(zero, m);
    MkEqMeans(e.t, one, m);
    MkEqMeans(e.e, zero, m);
    MkEqMeans(e.t, zero, m);
    MkEqMeans(e.e, one, m);
    MkNotMeans(e.c, m);
    EvalSort(e.t, m);
    EvalSort(e.e, m);
  }

  lemma {:induction false} ToBvBoolMeans(e: Expr, m: Model)
    requires WF(e) && SortOf(e) == SBool
    ensures Eval(e, m).B? ==> Eval(ToBvBool(e), m) == V([Eval(e, m).val])
  {
    hide Eval, WF, SortOf, Size, MkIf;
    NumeralMeans(1, 1, m);
    NumeralMeans(0, 1, m);
    OpenBv(UInt(1, 1), m);
    OpenBv(UInt(0, 1), m);
    BitValue(Truncate(1, 1));
    BitValue(Truncate(0, 1));
    MkIfMeans(e, UInt(1, 1), UInt(0, 1), m);
  }

  lemma {:induction false} OneBitAnd(a: Expr, b: Expr, m: Model)
    requires SameBv(a, b) && IsBit(a) && GetBool(a).Some? && GetBool(b).Some?
    ensures Refines(Eval(ToBvBool(MkAnd(GetBool(a).value, GetBool(b).value)), m), BinV(OAnd, Eval(a, m), Eval(b, m)))
    ensures Refines(Eval(ToBvBool(MkOr(GetBool(a).value, GetBool(b).value)), m), BinV(OOr, Eval(a, m), Eval(b, m)))
  {
    hide Eval, WF, SortOf, Size, GetBool, ToBvBool, MkAnd, MkOr;
    GetBoolMeans(a, m);
    GetBoolMeans(b, m);
    var c, d := GetBool(a).value, GetBool(b).value;
    MkAndMeans(c, d, m);
    MkOrMeans(c, d, m);
    ToBvBoolMeans(MkAnd(c, d), m);
    ToBvBoolMeans(MkOr(c, d), m);
  }

  lemma {:induction false} MkBvAndMeans(a: Expr, b: Expr, m: Model)
    requires SameBv(a, b)
    ensures Refines(Eval(MkBvAnd(a, b), m), BinV(OAnd, Eval(a, m), Eval(b, m)))
    decreases Size(a) + Size(b), 2
  {
    hide Eval, WF, SortOf, Size, GetBool, ToBvBool, MkAnd, MkCommutative, KeepMasked, IsMask, BinV, IsZero, IsAllOnes;
    OpCommutes(OAnd, Eval(a, m), Eval(b, m));
    if a == b {
      SelfMeans(a, m);
    } else if IsZero(a) || IsAllOnes(b) || IsAllOnes(a) || IsZero(b) {
      UnitMeans(OAnd, a, b, m);
      UnitMeans(OAnd, b, a, m);
    } else if IsMask(a) {
      KeepMaskedMeans(a, b, m);
    } else if IsMask(b) {
      KeepMaskedMeans(b, a, m);
    } else if IsBit(a) && GetBool(a).Some? && GetBool(b).Some? {
      OneBitAnd(a, b, m);
    } else {
      MkCommutativeMeans(OAnd, a, b, m);
    }
  }

  lemma {:induction false} MkBvOrMeans(a: Expr, b: Expr, m: Model)
    requires SameBv(a, b)
    ensures Refines(Eval(MkBvOr(a, b), m), BinV(OOr, Eval(a, m), Eval(b, m)))
    decreases Size(a) + Size(b), 2
  {
    hide Eval, WF, SortOf, Size, GetBool, ToBvBool, MkOr, MkCommutative, BinV, IsZero, IsAllOnes;
    OpCommutes(OOr, Eval(a, m), Eval(b, m));
    if a == b {
      SelfMeans(a, m);
    } else if IsAllOnes(a) || IsZero(b) || IsZero(a) || IsAllOnes(b) {
      UnitMeans(OOr, a, b, m);
      UnitMeans(OOr, b, a, m);
    } else if IsBit(a) && GetBool(a).Some? && GetBool(b).Some? {
      OneBitAnd(a, b, m);
    } else {
      MkCommutativeMeans(OOr, a, b, m);
    }
  }

  lemma {:induction false} FlipMeans(a: Expr, m: Model)
    requires WF(a) && IsBv(a)
    ensures Refines(Eval(Flip(a), m), BvNotV(Eval(a, m)))
  {
    hide Eval, WF, SortOf, Size, ToBvBool, MkEq;
    EvalSort(a, m);
    var x := Eval(a, m);
    if IsBit(a) {
      NumeralMeans(0, 1, m);
      OpenBv(UInt(0, 1), m);
      BitValue(Truncate(0, 1));
      MkEqMeans(a, UInt(0, 1), m);
      ToBvBoolMeans(MkEq(a, UInt(0, 1)), m);
      if x.V? { BitValue(x.bits); }
    } else if a.Bv? {
      OpenBv(a, m);
      OpenBv(Bv(BitNot(a.bits)), m);
    } else {
      OpenBvNot(BvNot(a), m);
    }
  }

  lemma {:induction false} XorOnes(a: Expr, b: Expr, m: Model)
    requires SameBv(a, b) && IsAllOnes(b)
    ensures Refines(BvNotV(Eval(a, m)), BinV(OXor, Eval(a, m), Eval(b, m)))
  {
    hide Eval, WF, SortOf, Size, BitXor, BitNot;
    OpenBv(b, m);
    var x := Eval(a, m);
    if x.V? && |x.bits| == |b.bits| {
      Units(x.bits, b.bits);
    }
  }

  lemma {:induction false} MkBvXorMeans(a: Expr, b: Expr, m: Model)
    requires SameBv(a, b)
    ensures Refines(Eval(MkBvXor(a, b), m), BinV(OXor, Eval(a, m), Eval(b, m)))
    decreases Size(a) + Size(b), 2
  {
    hide Eval, WF, SortOf, Size, Flip, MkCommutative, IsAllOnes, BinV;
    OpCommutes(OXor, Eval(a, m), Eval(b, m));
    if a == b {
      SelfMeans(a, m);
    } else if IsAllOnes(a) {
      FlipMeans(b, m);
      XorOnes(b, a, m);
    } else if IsAllOnes(b) {
      FlipMeans(a, m);
      XorOnes(a, b, m);
    } else {
      MkCommutativeMeans(OXor, a, b, m);
    }
  }

  // ---- Division ----

  lemma {:induction false} SelfDivides(a: Expr, m: Model)
    requires WF(a) && IsBv(a)
    ensures Refines(Eval(UInt(1, Width(a)), m), BinV(OUdiv, Eval(a, m), Eval(a, m)))
    ensures Refines(Eval(UInt(1, Width(a)), m), BinV(OSdiv, Eval(a, m), Eval(a, m)))
    ensures Refines(Eval(UInt(0, Width(a)), m), BinV(OUrem, Eval(a, m), Eval(a, m)))
    ensures Refines(Eval(UInt(0, Width(a)), m), BinV(OSrem, Eval(a, m), Eval(a, m)))
  {
    hide Eval, WF, SortOf, Size, Udiv, Sdiv, Urem, Srem, ToNat, IsSMin;
    EvalSort(a, m);
    OpenBv(UInt(0, Width(a)), m);
    OpenBv(UInt(1, Width(a)), m);
    var x := Eval(a, m);
    if x.V? && ToNat(x.bits) != 0 {
      SelfDivision(x.bits);
    }
  }

  lemma {:induction false} DivideByZero(op: Op, a: Expr, b: Expr, m: Model)
    requires SameBv(a, b) && IsZero(b) && (op == OUdiv || op == OUrem || op == OSdiv || op == OSrem)
    ensures BinV(op, Eval(a, m), Eval(b, m)).Undef?
  {
    hide Eval, WF, SortOf, Size;
    OpenBv(b, m);
  }

  lemma {:induction false} MkUdivMeans(a: Expr, b: Expr, m: Model)
    requires SameBv(a, b)
    ensures Refines(Eval(MkUdiv(a, b), m), BinV(OUdiv, Eval(a, m), Eval(b, m)))
  {
    hide Eval, WF, SortOf, Size, Fold, BinV, IsZero;
    if a == b {
      SelfDivides(a, m);
    } else if IsZero(b) {
      DivideByZero(OUdiv, a, b, m);
    } else {
      FoldMeans(OUdiv, a, b, m);
    }
  }

  lemma {:induction false} LowBitsMeans(a: Expr, b: Expr, k: nat, m: Model)
    requires SameBv(a, b) && b.Bv? && k < Width(a) && ToNat(b.bits) == Pow2(k)
    ensures Refines(Eval(LowBits(a, k), m), BinV(OUrem, Eval(a, m), Eval(b, m)))
  {
    hide Eval, WF, SortOf, Size, LowBits, Urem, ToNat, Pow2, Fill;
    OpenBv(b, m);
    EvalSort(a, m);
    LowBitsValue(a, k, m);
    var x := Eval(a, m);
    if x.V? {
      UremPow2(x.bits, b.bits, k);
    }
  }

  lemma {:induction false} LowBitsValue(a: Expr, k: nat, m: Model)
    requires WF(a) && IsBv(a) && k < Width(a)
    ensures var x := Eval(a, m);
      x.V? ==> |x.bits| == Width(a) && Eval(LowBits(a, k), m) == V(x.bits[..k] + Zeros(|x.bits| - k))
  {
    hide Eval, WF, SortOf, Size, ZerosAbove, MkExtract;
    EvalSort(a, m);
    var w := Width(a);
    var x := Eval(a, m);
    if k == 0 {
      ZeroNumeral(w);
      OpenBv(UInt(0, w), m);
      assert x.V? ==> x.bits[..k] + Zeros(w - k) == Zeros(w);
    } else {
      MkExtractMeans(a, k - 1, 0, 3, m);
      ZerosAboveMeans(MkExtract(a, k - 1, 0, 3), w - k, m);
      assert x.V? ==> x.bits[0..k] == x.bits[..k];
    }
  }

  lemma {:induction false} MkUremMeans(a: Expr, b: Expr, m: Model)
    requires SameBv(a, b)
    ensures Refines(Eval(MkUrem(a, b), m), BinV(OUrem, Eval(a, m), Eval(b, m)))
  {
    hide Eval, WF, SortOf, Size, Fold, BinV, LowBits, ToNat;
    if a == b {
      SelfDivides(a, m);
    } else if b.Bv? && ToNat(b.bits) <= 1 {
      UremByOne(a, b, m);
    } else if IsPower2Numeral(b) {
      OpenBv(b, m);
      LowBitsMeans(a, b, Log2(b), m);
    } else {
      FoldMeans(OUrem, a, b, m);
    }
  }

  lemma {:induction false} UremByOne(a: Expr, b: Expr, m: Model)
    requires SameBv(a, b) && b.Bv? && ToNat(b.bits) <= 1
    ensures Refines(Eval(UInt(0, Width(a)), m), BinV(OUrem, Eval(a, m), Eval(b, m)))
  {
    hide Eval, WF, SortOf, Size, FromNat;
    OpenBv(b, m);
    EvalSort(a, m);
    OpenBv(UInt(0, Width(a)), m);
  }

  lemma {:induction false} MkSdivMeans(a: Expr, b: Expr, m: Model)
    requires SameBv(a, b)
    ensures Refines(Eval(MkSdiv(a, b), m), BinV(OSdiv, Eval(a, m), Eval(b, m)))
  {
    hide Eval, WF, SortOf, Size, Fold, IsZero, Sdiv, ToNat, IsSMin;
    if a == b {
      SelfDivides(a, m);
    } else if IsZero(b) {
      DivideByZero(OSdiv, a, b, m);
    } else if IsSMinTerm(a) && IsAllOnes(b) {
      OpenBv(a, m);
      OpenBv(b, m);
    } else {
      FoldMeans(OSdiv, a, b, m);
    }
  }

  lemma {:induction false} MkSremMeans(a: Expr, b: Expr, m: Model)
    requires SameBv(a, b)
    ensures Refines(Eval(MkSrem(a, b), m), BinV(OSrem, Eval(a, m), Eval(b, m)))
  {
    hide Eval, WF, SortOf, Size, Fold, IsZero, BinV, MkUrem, IsNegative, IsSMinTerm, IsAllOnes;
    if a == b {
      SelfDivides(a, m);
    } else if IsSMinTerm(a) && IsAllOnes(b) {
      SMinRemMeans(a, b, m);
    } else if IsZero(b) {
      DivideByZero(OSrem, a, b, m);
    } else if IsFalse(IsNegative(a)) && IsFalse(IsNegative(b)) {
      MkUremMeans(a, b, m);
      NonNegativeRem(a, b, m);
    } else {
      FoldMeans(OSrem, a, b, m);
    }
  }

  lemma {:induction false} SMinRemMeans(a: Expr, b: Expr, m: Model)
    requires SameBv(a, b) && IsSMinTerm(a) && IsAllOnes(b)
    ensures Refines(Eval(UInt(0, Width(a)), m), BinV(OSrem, Eval(a, m), Eval(b, m)))
  {
    hide Eval, WF, SortOf, Size, Srem;
    OpenBv(a, m);
    OpenBv(b, m);
    OpenBv(UInt(0, Width(a)), m);
    SMinRem(a.bits, b.bits);
  }

  lemma {:induction false} NonNegativeRem(a: Expr, b: Expr, m: Model)
    requires SameBv(a, b) && IsFalse(IsNegative(a)) && IsFalse(IsNegative(b))
    ensures BinV(OSrem, Eval(a, m), Eval(b, m)) == BinV(OUrem, Eval(a, m), Eval(b, m))
  {
    hide Eval, WF, SortOf, Size, IsNegative, Srem, Urem, ToNat, Negative;
    IsNegativeMeans(a, m);
    IsNegativeMeans(b, m);
    OpenBool(Bool(false), m);
    var x, y := Eval(a, m), Eval(b, m);
    if x.V? && y.V? && SameSort(x, y) && ToNat(y.bits) != 0 {
      SremNonNegative(x.bits, y.bits);
    }
  }

  // ---- Greater-than ----

  /** The largest 64-bit number as a wider numeral. */
  predicate SuccessorWraps(b: Expr) {
    b.Bv? && |b.bits| > 64 && ToNat(b.bits) == MAX64
  }

  lemma {:induction false} MkUgtMeans(a: Expr, b: Expr, m: Model)
    requires SameBv(a, b) && !SuccessorWraps(b)
    ensures Refines(Eval(MkUgt(a, b), m), NotV(UleV(Eval(a, m), Eval(b, m))))
  {
    hide Eval, WF, SortOf, Size, MkUle, MkNot, ToNat, Pow2, UleV, IsAllOnes, SuccessorWraps;
    if IsAllOnes(b) {
      OpenBool(Bool(false), m);
      AboveOnes(a, b, m);
    } else if IsUInt(b) {
      var n := Mod(ToNat(b.bits) + 1, MAX64 + 1);
      AboveNumeral(a, b, m);
      OpenBv(UInt(n, Width(a)), m);
      MkUleMeans(UInt(n, Width(a)), a, m);
    } else {
      MkUleMeans(a, b, m);
      MkNotMeans(MkUle(a, b), m);
    }
  }

  lemma {:induction false} AboveOnes(a: Expr, b: Expr, m: Model)
    requires SameBv(a, b) && IsAllOnes(b)
    ensures Refines(B(false), NotV(UleV(Eval(a, m), Eval(b, m))))
  {
    hide Eval, WF, SortOf, Size, ToNat, Pow2;
    OpenBv(b, m);
    EvalSort(a, m);
    var x := Eval(a, m);
    if x.V? { UleExtremes(x.bits, b.bits); }
  }

  lemma {:induction false} AboveNumeral(a: Expr, b: Expr, m: Model)
    requires SameBv(a, b) && !SuccessorWraps(b) && IsUInt(b) && !IsAllOnes(b)
    ensures var n := Mod(ToNat(b.bits) + 1, MAX64 + 1);
      Refines(UleV(Eval(UInt(n, Width(a)), m), Eval(a, m)), NotV(UleV(Eval(a, m), Eval(b, m))))
  {
    hide Eval, WF, SortOf, Size, ToNat, Pow2;
    OpenBv(b, m);
    SuccessorFits(b.bits);
    var n := ToNat(b.bits) + 1;
    NumeralMeans(n, Width(a), m);
    OpenBv(UInt(n, Width(a)), m);
  }

  lemma {:induction false} SuccessorFits(b: Bits)
    requires b != Ones(|b|) && ToNat(b) <= MAX64 && (|b| > 64 ==> ToNat(b) != MAX64)
    ensures ToNat(b) + 1 < Pow2(|b|) && Mod(ToNat(b) + 1, MAX64 + 1) == ToNat(b) + 1
  {
    hide ToNat, Pow2;
    ToNatZero(b);
    if |b| <= 64 {
      Pow2Monotone(|b|, 64);
    }
  }

  /** The comparison is right for every left operand exactly when the numeral's successor
      does not wrap around. */
  lemma {:induction false} MkUgtExact(b: Expr)
    requires WF(b) && IsBv(b)
    ensures !SuccessorWraps(b) <==>
      forall a, m :: SameBv(a, b) ==> Refines(Eval(MkUgt(a, b), m), NotV(UleV(Eval(a, m), Eval(b, m))))
  {
    hide WF, Size, MkUgt;
    if !SuccessorWraps(b) {
      forall a, m | SameBv(a, b)
        ensures Refines(Eval(MkUgt(a, b), m), NotV(UleV(Eval(a, m), Eval(b, m))))
      {
        MkUgtMeans(a, b, m);
      }
    } else {
      UgtWraps(b);
    }
  }

  /** Zero counted as greater than 2^64 - 1. */
  lemma {:induction false} UgtWraps(b: Expr)
    requires WF(b) && SuccessorWraps(b)
    ensures exists a, m :: SameBv(a, b) && !Refines(Eval(MkUgt(a, b), m), NotV(UleV(Eval(a, m), Eval(b, m))))
  {
    hide Eval, WF, SortOf, Size, ToNat, Pow2, MkUgt;
    var w := |b.bits|;
    var a, m := UInt(0, w), Model(map[], map[], map[]);
    OpenBv(b, m);
    OpenBv(a, m);
    ZeroNumeral(w);
    UgtZero(b);
    OpenBool(Bool(true), m);
    ToNatFill(w);
    assert SameBv(a, b);
  }

  lemma {:induction false} UgtZero(b: Expr)
    requires SuccessorWraps(b) && SameBv(UInt(0, |b.bits|), b)
    ensures MkUgt(UInt(0, |b.bits|), b) == Bool(true)
  {
    hide WF, SortOf, Size, ToNat, Pow2;
    var w := |b.bits|;
    Pow2Monotone(65, w);
    Pow2Add(64, 1);
    assert Pow2(1) == 2 by { Pow2One(); }
    ToNatFill(w);
    ModSelf(MAX64 + 1);
    OpenBv(UInt(0, w), Model(map[], map[], map[]));
  }

  lemma Pow2One()
    ensures Pow2(1) == 2
  {
  }

  lemma ModSelf(p: nat)
    requires p > 0
    ensures Mod(p, p) == 0
  {
  }

  // ---- Arrays ----

  lemma {:induction false} MkStoreMeans(arr: Array, idx: Expr, val: Expr, i: Bits, m: Model)
    requires Fits(arr, idx) && WF(val) && SortOf(val) == SBv(ValueWidth(arr))
    ensures Refines(EvalAt(MkStore(arr, idx, val), i, m), StoreV(EvalAt(arr, i, m), i, Eval(idx, m), Eval(val, m)))
    decreases arr
  {
    hide Eval, WF, SortOf, Size, MkEq;
    if arr.Store? && IsTrue(MkEq(idx, arr.idx)) {
      MkEqMeans(idx, arr.idx, m);
      OpenBool(Bool(true), m);
      MkStoreMeans(arr.arr, idx, val, i, m);
      EvalSort(idx, m);
      EvalSort(arr.idx, m);
    }
  }

  lemma {:induction false} MkLoadMeans(arr: Array, idx: Expr, m: Model)
    requires Fits(arr, idx)
    ensures Eval(idx, m).V? ==> Refines(Eval(MkLoad(arr, idx), m), EvalAt(arr, Eval(idx, m).bits, m))
    decreases arr
  {
    hide Eval, WF, SortOf, Size, MkEq, StoreV;
    EvalSort(idx, m);
    match arr
    case Store(a, j, v) =>
      MkEqMeans(idx, j, m);
      OpenBool(Bool(true), m);
      OpenBool(Bool(false), m);
      OpenSelect(Select(arr, idx), m);
      EvalSort(j, m);
      if Eval(idx, m).V? {
        StoreCases(EvalAt(a, Eval(idx, m).bits, m), Eval(idx, m).bits, Eval(j, m), Eval(v, m));
      }
      if IsFalse(MkEq(idx, j)) {
        MkLoadMeans(a, idx, m);
      }
    case ConstArr(_, v) =>
    case _ =>
      OpenSelect(Select(arr, idx), m);
  }

  lemma StoreCases(cell: Value, i: Bits, j: Value, x: Value)
    ensures var r := StoreV(cell, i, j, x); r.Undef? || (j.V? && (if j.bits == i then r == x else r == cell))
  {
  }
}

/** Every smart constructor keeps the meaning of the plain term it stands for, in every
    model in which that term's divisions are defined. */
module SmartMeaning {
  import opened Bits
  import opened Terms
  import opened SmartExpr

  // ---- Booleans ----

  lemma {:induction false} MkNotMeans(e: Expr, m: Model)
    requires WF(e) && SortOf(e) == SBool
    ensures Refines(Eval(MkNot(e), m), NotV(Eval(e, m)))
  {
    hide Eval, WF, SortOf, Size;
    if e.Bool? {
      OpenBool(e, m);
      OpenBool(Bool(!e.val), m);
    } else if e.Not? {
      OpenNot(e, m);
    } else {
      OpenNot(Not(e), m);
    }
  }

  lemma {:induction false} MkAndMeans(a: Expr, b: Expr, m: Model)
    requires WF(a) && WF(b) && SortOf(a) == SortOf(b) == SBool
    ensures Refines(Eval(MkAnd(a, b), m), AndV(Eval(a, m), Eval(b, m)))
  {
    hide Eval, WF, SortOf, Size;
    OpenBool(Bool(true), m);
    OpenBool(Bool(false), m);
    OpenAnd(And(a, b), m);
  }

  lemma {:induction false} MkOrMeans(a: Expr, b: Expr, m: Model)
    requires WF(a) && WF(b) && SortOf(a) == SortOf(b) == SBool
    ensures Refines(Eval(MkOr(a, b), m), OrV(Eval(a, m), Eval(b, m)))
  {
    hide Eval, WF, SortOf, Size;
    OpenBool(Bool(true), m);
    OpenBool(Bool(false), m);
    OpenOr(Or(a, b), m);
    if a.Not? { OpenNot(a, m); }
    if b.Not? { OpenNot(b, m); }
  }

  lemma {:induction false} MkImpliesMeans(a: Expr, b: Expr, m: Model)
    requires WF(a) && WF(b) && SortOf(a) == SortOf(b) == SBool
    ensures Refines(Eval(MkImplies(a, b), m), OrV(NotV(Eval(a, m)), Eval(b, m)))
  {
    hide Eval, WF, SortOf, Size, MkNot, MkOr;
    OpenBool(Bool(true), m);
    MkNotMeans(a, m);
    MkOrMeans(MkNot(a), b, m);
  }

  lemma BitValue(x: Bits)
    requires |x| == 1
    ensures x == [x[0]] && ToNat(x) == if x[0] then 1 else 0
  {
  }

  lemma {:induction false} MkIfMeans(c: Expr, t: Expr, e: Expr, m: Model)
    requires WF(c) && WF(t) && WF(e) && SortOf(c) == SBool && SortOf(t) == SortOf(e)
    ensures Refines(Eval(MkIf(c, t, e), m), IteV(Eval(c, m), Eval(t, m), Eval(e, m)))
    decreases c
  {
    hide Eval, WF, SortOf, Size, MkIf, IsBitTest;
    if IsTrue(c) || t == e || IsFalse(c) {
      IfTrivial(c, t, e, m);
    } else if t.Bool? || e.Bool? {
      IfBool(c, t, e, m);
    } else if c.Not? {
      OpenNot(c, m);
      MkIfNegated(c, t, e);
      MkIfMeans(c.a, e, t, m);
      NegatedIf(Eval(c.a, m), Eval(t, m), Eval(e, m));
    } else {
      MkIfPlain(c, t, e);
      if IsBitTest(c, t, e) {
        OneBitIf(c, t, e, m);
      } else {
        OpenIte(Ite(c, t, e), m);
      }
    }
  }

  lemma {:induction false} MkIfNegated(c: Expr, t: Expr, e: Expr)
    requires WF(c) && WF(t) && WF(e) && SortOf(c) == SBool && SortOf(t) == SortOf(e)
    requires t != e && !t.Bool? && !e.Bool? && c.Not? && WF(c.a) && SortOf(c.a) == SBool
    ensures MkIf(c, t, e) == MkIf(c.a, e, t)
  {
    hide WF, SortOf, Size, MkNot, MkOr, MkAnd, IsBitTest;
  }

  lemma {:induction false} MkIfPlain(c: Expr, t: Expr, e: Expr)
    requires WF(c) && WF(t) && WF(e) && SortOf(c) == SBool && SortOf(t) == SortOf(e)
    requires !IsTrue(c) && !IsFalse(c) && t != e && !t.Bool? && !e.Bool? && !c.Not?
    ensures MkIf(c, t, e) == if IsBitTest(c, t, e) then if IsOne(c.a) then c.b else c.a else Ite(c, t, e)
  {
    hide WF, SortOf, Size, MkNot, MkOr, MkAnd, IsOne, IsBitTest;
  }

  lemma {:induction false} IfTrivial(c: Expr, t: Expr, e: Expr, m: Model)
    requires WF(c) && WF(t) && WF(e) && SortOf(c) == SBool && SortOf(t) == SortOf(e)
    requires IsTrue(c) || t == e || IsFalse(c)
    ensures Refines(Eval(MkIf(c, t, e), m), IteV(Eval(c, m), Eval(t, m), Eval(e, m)))
  {
    hide Eval, WF, SortOf, Size, MkNot, MkOr, MkAnd, IsBitTest;
    OpenBool(Bool(true), m);
    OpenBool(Bool(false), m);
  }

  lemma NegatedIf(c: Value, x: Value, y: Value)
    ensures IteV(NotV(c), x, y) == IteV(c, y, x)
  {
  }

  lemma {:induction false} IfBool(c: Expr, t: Expr, e: Expr, m: Model)
    requires WF(c) && WF(t) && WF(e) && SortOf(c) == SBool && SortOf(t) == SortOf(e)
    requires !IsTrue(c) && !IsFalse(c) && t != e && (t.Bool? || e.Bool?)
    ensures Refines(Eval(MkIf(c, t, e), m), IteV(Eval(c, m), Eval(t, m), Eval(e, m)))
  {
    hide Eval, WF, SortOf, Size, MkNot, MkOr, MkAnd, IsBitTest;
    MkNotMeans(c, m);
    OpenBool(Bool(true), m);
    OpenBool(Bool(false), m);
    if t.Bool? { OpenBool(t, m); } else { OpenBool(e, m); }
    EvalSort(t, m);
    EvalSort(e, m);
    if IsTrue(t) {
      MkOrMeans(c, e, m);
    } else if IsFalse(t) {
      MkAndMeans(MkNot(c), e, m);
    } else if IsTrue(e) {
      MkOrMeans(MkNot(c), t, m);
    } else {
      MkAndMeans(c, t, m);
    }
  }

  lemma {:induction false} OneBitIf(c: Expr, t: Expr, e: Expr, m: Model)
    requires WF(c) && IsBitTest(c, t, e) && SortOf(e) == SortOf(t)
    ensures Refines(Eval(if IsOne(c.a) then c.b else c.a, m), IteV(Eval(c, m), Eval(t, m), Eval(e, m)))
  {
    hide Eval, WF, SortOf, Size;
    OpenEq(c, m);
    OpenBv(t, m);
    OpenBv(e, m);
    EvalSort(c.a, m);
    EvalSort(c.b, m);
    BitValue(t.bits);
    BitValue(e.bits);
    if c.a.Bv? { OpenBv(c.a, m); }
    if c.b.Bv? { OpenBv(c.b, m); }
    if SameSort(Eval(c.a, m), Eval(c.b, m)) {
      BitValue(Eval(c.a, m).bits);
      BitValue(Eval(c.b, m).bits);
    }
  }

  // ---- Concatenation, extraction and extension ----

  lemma SliceSlice(s: Bits, a: nat, b: nat, c: nat, d: nat)
    requires a <= b <= |s| && c <= d <= b - a
    ensures s[a..b][c..d] == s[a + c..a + d]
  {
    assert forall i :: 0 <= i < d - c ==> s[a..b][c..d][i] == s[a + c..a + d][i];
  }

  /** Adjacent extracts of one value join. */
  lemma ExtractJoin(x: Value, h: nat, l: nat, l2: nat)
    requires l > 0 && l2 <= l - 1
    ensures Refines(ExtractV(x, h, l2), ConcatV(ExtractV(x, h, l), ExtractV(x, l - 1, l2)))
  {
    if x.V? && l <= h < |x.bits| {
      assert x.bits[l2..l] + x.bits[l..h + 1] == x.bits[l2..h + 1];
    }
  }

  lemma ConcatAssociative(x: Value, y: Value, z: Value)
    ensures ConcatV(ConcatV(x, y), z) == ConcatV(x, ConcatV(y, z))
  {
    if x.V? && y.V? && z.V? {
      assert z.bits + (y.bits + x.bits) == (z.bits + y.bits) + x.bits;
    }
  }

  lemma {:induction false} MkConcatMeans(a: Expr, b: Expr, m: Model)
    requires WF(a) && WF(b) && IsBv(a) && IsBv(b)
    ensures Refines(Eval(MkConcat(a, b), m), ConcatV(Eval(a, m), Eval(b, m)))
    decreases Size(a) + Size(b), 0
  {
    hide Eval, WF, SortOf, Size, MkExtract;
    if b.Concat? { OpenConcat(b, m); }
    if a.Concat? { OpenConcat(a, m); }
    if Adjacent(a, b) {
      AdjacentJoin(a, b, m);
    } else if b.Concat? && Adjacent(a, b.a) {
      AdjacentJoin(a, b.a, m);
      MkConcatMeans(MkExtract(a.a, a.high, b.a.low, 3), b.b, m);
      ConcatAssociative(Eval(a, m), Eval(b.a, m), Eval(b.b, m));
    } else if a.Concat? && Adjacent(a.b, b) {
      AdjacentJoin(a.b, b, m);
      MkConcatMeans(a.a, MkExtract(a.b.a, a.b.high, b.low, 3), m);
      ConcatAssociative(Eval(a.a, m), Eval(a.b, m), Eval(b, m));
    } else if a.Bv? && b.Bv? {
      OpenBv(a, m);
      OpenBv(b, m);
      OpenBv(Bv(b.bits + a.bits), m);
    } else {
      OpenConcat(Concat(a, b), m);
    }
  }

  lemma {:induction false} AdjacentJoin(a: Expr, b: Expr, m: Model)
    requires WF(a) && WF(b) && Adjacent(a, b)
    ensures Refines(Eval(MkExtract(a.a, a.high, b.low, 3), m), ConcatV(Eval(a, m), Eval(b, m)))
    decreases Size(a), 10
  {
    hide Eval, WF, SortOf, Size, MkExtract;
    OpenExtract(a, m);
    OpenExtract(b, m);
    MkExtractMeans(a.a, a.high, b.low, 3, m);
    ExtractJoin(Eval(a.a, m), a.high, a.low, b.low);
  }

  lemma {:induction false} FoldExtractMeans(e: Expr, high: nat, low: nat, m: Model)
    requires WF(e) && IsBv(e) && low <= high < Width(e)
    ensures Refines(Eval(FoldExtract(e, high, low), m), ExtractV(Eval(e, m), high, low))
  {
    hide Eval, WF, SortOf, Size;
    if e.Bv? {
      OpenBv(e, m);
      OpenBv(Bv(e.bits[low..high + 1]), m);
    } else {
      OpenExtract(Extract(e, high, low), m);
    }
  }

  lemma {:induction false} MkExtractMeans(e: Expr, high: nat, low: nat, depth: nat, m: Model)
    requires WF(e) && IsBv(e) && low <= high < Width(e)
    ensures Refines(Eval(MkExtract(e, high, low, depth), m), ExtractV(Eval(e, m), high, low))
    decreases Size(e), 9
  {
    hide Eval, WF, SortOf, Size, FoldExtract, MkSext, FromConcat, FromIte, FromBitwise;
    EvalSort(e, m);
    var x := Eval(e, m);
    FoldExtractMeans(e, high, low, m);
    if low == 0 && high == Width(e) - 1 {
      assert x.V? ==> x.bits[..high + 1] == x.bits;
    } else if depth == 0 {
    } else if e.Extract? {
      OpenExtract(e, m);
      MkExtractMeans(e.a, high + e.low, low + e.low, 3, m);
      if Eval(e.a, m).V? && e.low <= e.high < |Eval(e.a, m).bits| {
        SliceSlice(Eval(e.a, m).bits, e.low, e.high + 1, low, high + 1);
      }
    } else if e.SignExt? && low == 0 {
      ExtractSext(e, high, m);
    } else if e.Concat? {
      FromConcatMeans(e, high, low, m);
    } else if e.Ite? {
      FromIteMeans(e, high, low, depth - 1, m);
    } else if e.Bin? && (e.op == OAnd || e.op == OOr) {
      FromBitwiseMeans(e, high, low, depth - 1, m);
    }
  }

  lemma {:induction false} ExtractSext(e: Expr, high: nat, m: Model)
    requires WF(e) && e.SignExt? && high < Width(e) - 1
    ensures WF(e.a) && IsBv(e.a)
    ensures Refines(Eval(if high < Width(e.a) then MkExtract(e.a, high, 0, 3)
      else MkSext(e.a, high - Width(e.a) + 1), m),
                    ExtractV(Eval(e, m), high, 0))
    decreases Size(e), 5
  {
    hide Eval, WF, SortOf, Size, MkExtract, MkSext;
    OpenSignExt(e, m);
    EvalSort(e.a, m);
    var x := Eval(e.a, m);
    if high < Width(e.a) {
      MkExtractMeans(e.a, high, 0, 3, m);
      assert x.V? ==> SignExtend(x.bits, e.amount)[..high + 1] == x.bits[..high + 1];
    } else {
      var k := high - Width(e.a) + 1;
      MkSextMeans(e.a, k, m);
      assert x.V? ==> SignExtend(x.bits, e.amount)[..high + 1] == SignExtend(x.bits, k);
    }
  }

  /** Slicing a concatenation. */
  lemma ConcatSlice(y: Bits, x: Bits, low: nat, high: nat)
    requires low <= high < |y| + |x|
    ensures high < |y| ==> (y + x)[low..high + 1] == y[low..high + 1]
    ensures low >= |y| ==> (y + x)[low..high + 1] == x[low - |y|..high - |y| + 1]
    ensures low < |y| <= high ==> (y + x)[low..high + 1] == y[low..] + x[..high - |y| + 1]
  {
  }

  lemma {:induction false} FromConcatMeans(e: Expr, high: nat, low: nat, m: Model)
    requires WF(e) && e.Concat? && low <= high < Width(e) && !(low == 0 && high == Width(e) - 1)
    ensures Refines(Eval(FromConcat(e, high, low), m), ExtractV(Eval(e, m), high, low))
    decreases Size(e), 5
  {
    hide Eval, WF, SortOf, Size, FoldExtract, MkExtract, MkConcat, MkIf;
    OpenConcat(e, m);
    EvalSort(e.a, m);
    EvalSort(e.b, m);
    var x, y := Eval(e.a, m), Eval(e.b, m);
    var w := Width(e.b);
    if x.V? && y.V? {
      ConcatSlice(y.bits, x.bits, low, high);
    }
    if high < w {
      MkExtractMeans(e.b, high, low, 3, m);
    } else if low >= w {
      MkExtractMeans(e.a, high - w, low - w, 3, m);
    } else if low == 0 {
      MkExtractMeans(e.a, high - w, 0, 3, m);
      MkConcatMeans(MkExtract(e.a, high - w, 0, 3), e.b, m);
    } else if e.a.Bv? || e.b.Bv? {
      ExtractAcross(e, high, low, m);
    } else {
      FoldExtractMeans(e, high, low, m);
    }
  }

  lemma {:induction false} ExtractAcross(e: Expr, high: nat, low: nat, m: Model)
    requires WF(e) && e.Concat? && WF(e.a) && WF(e.b) && IsBv(e.a) && IsBv(e.b) && (e.a.Bv? || e.b.Bv?)
    requires low < Width(e.b) <= high < Width(e.a) + Width(e.b)
    ensures var r := MkConcat(MkExtract(e.a, high - Width(e.b), 0, 3), MkExtract(e.b, Width(e.b) - 1, low, 3));
      Refines(Eval(r, m), ExtractV(Eval(e, m), high, low))
    decreases Size(e), 4
  {
    hide Eval, WF, SortOf, Size, MkExtract, MkConcat;
    OpenConcat(e, m);
    EvalSort(e.a, m);
    EvalSort(e.b, m);
    var w := Width(e.b);
    var p, q := MkExtract(e.a, high - w, 0, 3), MkExtract(e.b, w - 1, low, 3);
    MkExtractMeans(e.a, high - w, 0, 3, m);
    MkExtractMeans(e.b, w - 1, low, 3, m);
    assert Size(p) + Size(q) <= Size(e) by {
      if e.a.Bv? { OpenBv(e.a, m); OpenBv(p, m); } else { OpenBv(e.b, m); OpenBv(q, m); }
    }
    MkConcatMeans(p, q, m);
    var x, y := Eval(e.a, m), Eval(e.b, m);
    if x.V? && y.V? {
      ConcatSlice(y.bits, x.bits, low, high);
    }
  }

  lemma {:induction false} FromIteMeans(e: Expr, high: nat, low: nat, depth: nat, m: Model)
    requires WF(e) && e.Ite? && IsBv(e) && low <= high < Width(e)
    ensures Refines(Eval(FromIte(e, high, low, depth), m), ExtractV(Eval(e, m), high, low))
    decreases Size(e), 5
  {
    hide Eval, WF, SortOf, Size, FoldExtract, MkExtract, MkConcat, MkIf;
    OpenIte(e, m);
    FoldExtractMeans(e, high, low, m);
    MkExtractMeans(e.t, high, low, depth, m);
    MkExtractMeans(e.e, high, low, depth, m);
    var t, f := MkExtract(e.t, high, low, depth), MkExtract(e.e, high, low, depth);
    if t != f && IsConst(t) && IsConst(f) {
      MkIfMeans(e.c, t, f, m);
    }
  }

  lemma {:induction false} FromBitwiseMeans(e: Expr, high: nat, low: nat, depth: nat, m: Model)
    requires WF(e) && e.Bin? && (e.op == OAnd || e.op == OOr) && low <= high < Width(e)
    ensures Refines(Eval(FromBitwise(e, high, low, depth), m), ExtractV(Eval(e, m), high, low))
    decreases Size(e), 5
  {
    hide Eval, WF, SortOf, Size, FoldExtract, MkExtract, MkConcat, MkIf;
    OpenBin(e, m);
    FoldExtractMeans(e, high, low, m);
    MkExtractMeans(e.a, high, low, depth, m);
    MkExtractMeans(e.b, high, low, depth, m);
    var x, y := MkExtract(e.a, high, low, depth), MkExtract(e.b, high, low, depth);
    var p, q := Eval(e.a, m), Eval(e.b, m);
    if p.V? && SameSort(p, q) && high < |p.bits| {
      var p', q' := p.bits[low..high + 1], q.bits[low..high + 1];
      BitwiseSlice(e.op, p.bits, q.bits, high, low);
      if Absorbs(e.op, x) {
        OpenBv(x, m);
        ToNatZero(x.bits);
        BitwiseAbsorb(e.op, p', q');
      } else if Absorbs(e.op, y) {
        OpenBv(y, m);
        ToNatZero(y.bits);
        BitwiseAbsorb(e.op, p', q');
      } else if x == y {
        BitwiseAbsorb(e.op, p', q');
      }
    }
  }

  lemma BitwiseSlice(op: Op, p: Bits, q: Bits, high: nat, low: nat)
    requires |p| == |q| && low <= high < |p| && (op == OAnd || op == OOr)
    ensures Apply(op, p, q)[low..high + 1] == Apply(op, p[low..high + 1], q[low..high + 1])
  {
  }

  lemma BitwiseAbsorb(op: Op, p: Bits, q: Bits)
    requires |p| == |q| > 0 && (op == OAnd || op == OOr)
    ensures p == q || p == Fill(op == OOr, |p|) ==> Apply(op, p, q) == p
    ensures q == Fill(op == OOr, |p|) ==> Apply(op, p, q) == q
  {
  }

  lemma ZeroNumeral(w: nat)
    ensures Truncate(0, w) == Zeros(w)
  {
    ToNatTruncate(0, w);
    ToNatZero(Truncate(0, w));
  }

  lemma {:induction false} MkZextMeans(e: Expr, amount: nat, m: Model)
    requires WF(e) && IsBv(e)
    ensures Refines(Eval(MkZext(e, amount), m), ConcatV(V(Zeros(amount)), Eval(e, m)))
    decreases Size(e) + 1, 1
  {
    hide Eval, WF, SortOf, Size, MkConcat;
    if amount > 0 {
      var z := UInt(0, amount);
      OpenBv(z, m);
      MkConcatMeans(z, e, m);
      ZeroNumeral(amount);
    } else {
      var x := Eval(e, m);
      assert x.V? ==> x.bits + Zeros(0) == x.bits;
    }
  }

  lemma {:induction false} MkSextMeans(e: Expr, amount: nat, m: Model)
    requires WF(e) && IsBv(e)
    ensures Refines(Eval(MkSext(e, amount), m), SextV(Eval(e, m), amount))
    decreases Size(e) + 2, 21
  {
    hide Eval, WF, SortOf, Size, MkZext, IsNegative;
    EvalSort(e, m);
    var x := Eval(e, m);
    if amount == 0 {
      assert x.V? ==> SignExtend(x.bits, 0) == x.bits;
    } else if e.SignExt? {
      OpenSignExt(e, m);
      MkSextMeans(e.a, e.amount + amount, m);
      var y := Eval(e.a, m);
      assert y.V? && y.bits != [] ==>
        SignExtend(SignExtend(y.bits, e.amount), amount) == SignExtend(y.bits, e.amount + amount);
    } else {
      IsNegativeMeans(e, m);
      if IsFalse(IsNegative(e)) {
        OpenBool(Bool(false), m);
        MkZextMeans(e, amount, m);
        assert x.V? && !Negative(x.bits) ==> SignExtend(x.bits, amount) == x.bits + Zeros(amount);
      } else if e.Bv? {
        OpenBv(e, m);
        OpenBv(Bv(SignExtend(e.bits, amount)), m);
      } else {
        OpenSignExt(SignExt(e, amount), m);
      }
    }
  }

  lemma {:induction false} IsNegativeMeans(e: Expr, m: Model)
    requires WF(e) && IsBv(e)
    ensures OfSort(Eval(e, m), SortOf(e))
    ensures var x := Eval(e, m); x.V? ==> Eval(IsNegative(e), m) == B(Negative(x.bits))
    decreases Size(e) + 2, 20
  {
    hide Eval, WF, SortOf, Size, MkExtract, MkEq;
    var w := Width(e);
    EvalSort(e, m);
    MkExtractMeans(e, w - 1, w - 1, 3, m);
    var one := Bv([true]);
    OpenBv(one, m);
    MkEqMeans(MkExtract(e, w - 1, w - 1, 3), one, m);
    var x := Eval(e, m);
    assert x.V? ==> x.bits[w - 1..w] == [x.bits[w - 1]];
  }

  // ---- Equality ----

  lemma {:induction false} MkEqMeans(a: Expr, b: Expr, m: Model)
    requires WF(a) && WF(b) && SortOf(a) == SortOf(b)
    ensures Refines(Eval(MkEq(a, b), m), EqV(Eval(a, m), Eval(b, m)))
    decreases Size(a) + Size(b), Rank(a, b) + 3
  {
    hide Eval, WF, SortOf, Size, MkNot, MkAnd, EqIte;
    OpenBool(Bool(true), m);
    OpenBool(Bool(false), m);
    if a == b {
    } else if IsConst(a) {
      if !IsConst(b) {
        MkEqMeans(b, a, m);
      } else {
        ConstsDiffer(a, b, m);
      }
    } else if IsTrue(b) {
    } else if IsFalse(b) {
      MkNotMeans(a, m);
    } else if a.Eq? && IsBit(a.a) && b.Eq? && a.a == b.a {
      OpenEq(a, m);
      OpenEq(b, m);
      MkEqMeans(a.b, b.b, m);
      OneBitEq(a, b, m);
    } else if Base(a) == Base(b) && Offset(a) != Offset(b) {
      OffsetsDiffer(a, b, m);
    } else if a.Concat? && b.Bv? {
      EqConcatNumeral(a, b, m);
    } else if a.Concat? && b.Concat? && Width(a.a) == Width(b.a) {
      EqConcats(a, b, m);
    } else {
      EqIteMeans(a, b, m);
    }
  }

  lemma {:induction false} ConstsDiffer(a: Expr, b: Expr, m: Model)
    requires IsConst(a) && IsConst(b) && a != b
    ensures Refines(B(false), EqV(Eval(a, m), Eval(b, m)))
  {
  }

  lemma {:induction false} OneBitEq(a: Expr, b: Expr, m: Model)
    requires WF(a) && WF(b) && a.Eq? && b.Eq? && IsBit(a.a) && a.a == b.a
    ensures Refines(EqV(Eval(a.b, m), Eval(b.b, m)), EqV(Eval(a, m), Eval(b, m)))
  {
    hide Eval, WF, SortOf, Size;
    OpenEq(a, m);
    OpenEq(b, m);
    EvalSort(a.a, m);
    EvalSort(a.b, m);
    EvalSort(b.b, m);
    if Eval(a, m).B? && Eval(b, m).B? {
      BitValue(Eval(a.a, m).bits);
      BitValue(Eval(a.b, m).bits);
      BitValue(Eval(b.b, m).bits);
    }
  }

  lemma SplitEqual(a: Bits, b: Bits, c: Bits, d: Bits)
    requires |a| == |c|
    ensures a + b == c + d <==> a == c && b == d
  {
    if a + b == c + d {
      assert a == (a + b)[..|a|] && c == (c + d)[..|a|];
      assert b == (a + b)[|a|..] && d == (c + d)[|a|..];
    }
  }

  lemma {:induction false} EqConcatNumeral(a: Expr, b: Expr, m: Model)
    requires WF(a) && WF(b) && SortOf(a) == SortOf(b) && a.Concat? && b.Bv?
    ensures WF(a.a) && WF(a.b) && IsBv(a.a) && IsBv(a.b) && |b.bits| == Width(a.a) + Width(a.b)
    ensures var w := Width(a.b);
      Refines(Eval(MkAnd(MkEq(a.a, Bv(b.bits[w..])), MkEq(a.b, Bv(b.bits[..w]))), m), EqV(Eval(a, m), Eval(b, m)))
    decreases Size(a) + Size(b), 0
  {
    hide Eval, WF, SortOf, Size, MkEq, MkAnd;
    OpenConcat(a, m);
    OpenBv(b, m);
    var w := Width(a.b);
    var hi, lo := Bv(b.bits[w..]), Bv(b.bits[..w]);
    OpenBv(hi, m);
    OpenBv(lo, m);
    MkEqMeans(a.a, hi, m);
    MkEqMeans(a.b, lo, m);
    MkAndMeans(MkEq(a.a, hi), MkEq(a.b, lo), m);
    EvalSort(a.a, m);
    EvalSort(a.b, m);
    assert b.bits == b.bits[..w] + b.bits[w..];
    if Eval(a.a, m).V? && Eval(a.b, m).V? {
      SplitEqual(Eval(a.b, m).bits, Eval(a.a, m).bits, lo.bits, hi.bits);
    }
  }

  lemma {:induction false} EqConcats(a: Expr, b: Expr, m: Model)
    requires WF(a) && WF(b) && SortOf(a) == SortOf(b) && a.Concat? && b.Concat? && Width(a.a) == Width(b.a)
    ensures WF(a.a) && WF(a.b) && WF(b.a) && WF(b.b) && SortOf(a.a) == SortOf(b.a) && SortOf(a.b) == SortOf(b.b)
    ensures Refines(Eval(MkAnd(MkEq(a.a, b.a), MkEq(a.b, b.b)), m), EqV(Eval(a, m), Eval(b, m)))
    decreases Size(a) + Size(b), 0
  {
    hide Eval, WF, SortOf, Size, MkEq, MkAnd;
    OpenConcat(a, m);
    OpenConcat(b, m);
    MkEqMeans(a.a, b.a, m);
    MkEqMeans(a.b, b.b, m);
    MkAndMeans(MkEq(a.a, b.a), MkEq(a.b, b.b), m);
    EvalSort(a.a, m);
    EvalSort(a.b, m);
    EvalSort(b.a, m);
    EvalSort(b.b, m);
    if Eval(a, m).V? && Eval(b, m).V? {
      SplitEqual(Eval(a.b, m).bits, Eval(a.a, m).bits, Eval(b.b, m).bits, Eval(b.a, m).bits);
    }
  }

  /** A term is its base plus its offset. */
  lemma {:induction false} BaseOffset(e: Expr, m: Model)
    requires WF(e) && IsBv(e)
    ensures WF(Base(e)) && SortOf(Base(e)) == SortOf(e) && Offset(e) < Pow2(Width(e))
    ensures var x, y := Eval(e, m), Eval(Base(e), m);
      x.V? ==> y.V? && ToNat(x.bits) == Mod(ToNat(y.bits) + Offset(e), Pow2(Width(e)))
  {
    hide Eval, WF, SortOf, Size;
    EvalSort(e, m);
    var x := Eval(e, m);
    if e.Bin? && e.op == OAdd && (IsUInt(e.a) || IsUInt(e.b)) {
      OpenBin(e, m);
      if IsUInt(e.a) { OpenBv(e.a, m); } else { OpenBv(e.b, m); }
      if x.V? {
        var p, q := Eval(e.a, m), Eval(e.b, m);
        ToNatTruncate(ToNat(p.bits) + ToNat(q.bits), Width(e));
      }
    } else if x.V? {
      DivModUnique(ToNat(x.bits), Pow2(Width(e)), 0, ToNat(x.bits));
    }
  }

  lemma {:induction false} OffsetsDiffer(a: Expr, b: Expr, m: Model)
    requires WF(a) && WF(b) && SortOf(a) == SortOf(b) && Base(a) == Base(b) && Offset(a) != Offset(b)
    ensures Refines(B(false), EqV(Eval(a, m), Eval(b, m)))
  {
    hide Eval, WF, SortOf, Size, ToNat, Pow2, Base, Offset;
    if Offset(a) != 0 { OffsetMeansBv(a); } else { OffsetMeansBv(b); }
    BaseOffset(a, m);
    BaseOffset(b, m);
    EvalSort(a, m);
    EvalSort(b, m);
    if Eval(a, m).V? && Eval(b, m).V? {
      AddDistinct(ToNat(Eval(Base(a), m).bits), Offset(a), Offset(b), Pow2(Width(a)));
    }
  }

  lemma {:induction false} OffsetMeansBv(e: Expr)
    requires WF(e) && Offset(e) != 0
    ensures IsBv(e)
  {
  }

  lemma AddDistinct(x: nat, c: nat, d: nat, p: nat)
    requires c < p && d < p && c != d
    ensures Mod(x + c, p) != Mod(x + d, p)
  {
    if (x + c) % p == (x + d) % p {
      var q1, q2 := (x + c) / p, (x + d) / p;
      assert c - d == p * (q1 - q2);
      if q1 > q2 {
        MulMonotone(p, 1, q1 - q2);
      } else if q1 < q2 {
        assert d - c == p * (q2 - q1);
        MulMonotone(p, 1, q2 - q1);
      }
    }
  }

  lemma {:induction false} EqIteMeans(a: Expr, b: Expr, m: Model)
    requires WF(a) && WF(b) && SortOf(a) == SortOf(b) && !IsConst(a)
    ensures Refines(Eval(EqIte(a, b), m), EqV(Eval(a, m), Eval(b, m)))
    decreases Size(a) + Size(b), Rank(a, b) + 2
  {
    hide Eval, WF, SortOf, Size, MkEq, MkIf, EqArith;
    if a.Ite? { OpenIte(a, m); }
    if b.Ite? { OpenIte(b, m); }
    if a.Ite? && b.Ite? && a.t == b.t && a.e == b.e && a.t != a.e && IsConst(a.t) && IsConst(a.e) {
      MkEqMeans(a.c, b.c, m);
      ConstsDiffer(a.t, a.e, m);
    } else if a.Ite? && ((IsConst(b) && (IsConst(a.t) || IsConst(a.e))) || (IsConst(a.t) && IsConst(a.e) && !b.Var?)) {
      MkEqMeans(a.t, b, m);
      MkEqMeans(a.e, b, m);
      MkIfMeans(a.c, MkEq(a.t, b), MkEq(a.e, b), m);
    } else if !a.Ite? && b.Ite? {
      MkEqMeans(b, a, m);
    } else {
      EqArithMeans(a, b, m);
    }
  }

  lemma {:induction false} EqArithMeans(a: Expr, b: Expr, m: Model)
    requires WF(a) && WF(b) && SortOf(a) == SortOf(b)
    ensures Refines(Eval(EqArith(a, b), m), EqV(Eval(a, m), Eval(b, m)))
    decreases Size(a) + Size(b), Rank(a, b) + 1
  {
    hide Eval, WF, SortOf, Size, MkEq, MkUle, SumAbove, IsZero;
    OpenBool(Bool(true), m);
    OpenBool(Bool(false), m);
    if a.Bin? { OpenBin(a, m); }
    if a.SignExt? { OpenSignExt(a, m); }
    if b.SignExt? { OpenSignExt(b, m); }
    if a.Bin? && a.op == OAdd && SumAbove(a.a, a.b, b) {
      SumAboveMeans(a.a, a.b, b, m);
    } else if a.Bin? && a.op == OUrem && IsTrue(MkUle(a.b, b)) {
      MkUleMeans(a.b, b, m);
      EvalSort(a.b, m);
      EvalSort(b, m);
      if Eval(a, m).V? {
        RemainderBelow(Eval(a.a, m).bits, Eval(a.b, m).bits);
      }
    } else if a.SignExt? && b.SignExt? && Width(a.a) == Width(b.a) {
      MkEqMeans(a.a, b.a, m);
      EqSexts(a, b, m);
    } else if a.SignExt? && b.SignExt? && IsZero(b.a) {
      OpenBv(UInt(0, Width(a.a)), m);
      MkEqMeans(a.a, UInt(0, Width(a.a)), m);
      EqSextZero(a, b, m);
    } else {
      OpenEq(Eq(a, b), m);
      OpenEq(Eq(b, a), m);
    }
  }

  lemma {:induction false} SumAboveMeans(a: Expr, b: Expr, e: Expr, m: Model)
    requires WF(a) && WF(b) && WF(e) && IsBv(a) && SortOf(a) == SortOf(b) == SortOf(e) && SumAbove(a, b, e)
    ensures Refines(B(false), EqV(BinV(OAdd, Eval(a, m), Eval(b, m)), Eval(e, m)))
    decreases Size(a) + Size(b) + Size(e), 22
  {
    hide Eval, WF, SortOf, Size, MkUlt, IsNegative, BinV, Sign, Above, EqV;
    NotNegative(a, m);
    NotNegative(b, m);
    if IsTrue(MkUlt(e, a)) {
      StrictlyAbove(e, a, m);
    } else {
      StrictlyAbove(e, b, m);
    }
    SumAboveValues(Eval(a, m), Eval(b, m), Eval(e, m));
  }

  predicate Sign(x: Value) {
    x.V? ==> |x.bits| > 0 && !Negative(x.bits)
  }

  predicate Above(z: Value, x: Value) {
    x.V? && SameSort(z, x) ==> !Ule(x.bits, z.bits)
  }

  lemma {:induction false} NotNegative(a: Expr, m: Model)
    requires WF(a) && IsBv(a) && IsFalse(IsNegative(a))
    ensures Sign(Eval(a, m))
    decreases Size(a) + 2, 21
  {
    hide Eval, WF, SortOf, Size, IsNegative, Negative;
    IsNegativeMeans(a, m);
    OpenBool(Bool(false), m);
    EvalSort(a, m);
  }

  lemma {:induction false} StrictlyAbove(e: Expr, a: Expr, m: Model)
    requires WF(a) && WF(e) && IsBv(a) && SortOf(a) == SortOf(e) && IsTrue(MkUlt(e, a))
    ensures Above(Eval(e, m), Eval(a, m))
    decreases Size(a) + Size(e), 22
  {
    hide Eval, WF, SortOf, Size, MkUlt, Ule;
    MkUltMeans(e, a, m);
    OpenBool(Bool(true), m);
  }

  lemma SumAboveValues(x: Value, y: Value, z: Value)
    requires Sign(x) && Sign(y) && (Above(z, x) || Above(z, y))
    ensures Refines(B(false), EqV(BinV(OAdd, x, y), z))
  {
    hide ToNat, Add, Negative;
    if x.V? && SameSort(x, y) {
      NonNegativeSum(x.bits, y.bits);
    }
  }

  lemma {:induction false} EqSextZero(a: Expr, b: Expr, m: Model)
    requires WF(a) && WF(b) && SortOf(a) == SortOf(b) && a.SignExt? && b.SignExt? && IsZero(b.a)
    ensures WF(a.a) && IsBv(a.a)
    ensures Refines(EqV(Eval(a.a, m), V(Truncate(0, Width(a.a)))), EqV(Eval(a, m), Eval(b, m)))
  {
    hide Eval, WF, SortOf, Size;
    OpenSignExt(a, m);
    OpenSignExt(b, m);
    OpenBv(b.a, m);
    EvalSort(a.a, m);
    if Eval(a.a, m).V? {
      SextZero(Eval(a.a, m).bits, a.amount, b.a.bits, b.amount);
    }
  }

  lemma {:induction false} EqSexts(a: Expr, b: Expr, m: Model)
    requires WF(a) && WF(b) && SortOf(a) == SortOf(b) && a.SignExt? && b.SignExt? && Width(a.a) == Width(b.a)
    ensures Refines(EqV(Eval(a.a, m), Eval(b.a, m)), EqV(Eval(a, m), Eval(b, m)))
  {
    hide Eval, WF, SortOf, Size;
    OpenSignExt(a, m);
    OpenSignExt(b, m);
    EvalSort(a.a, m);
    EvalSort(b.a, m);
    var x, y := Eval(a.a, m), Eval(b.a, m);
    if x.V? && y.V? {
      SplitEqual(x.bits, Fill(Negative(x.bits), a.amount), y.bits, Fill(Negative(y.bits), b.amount));
    }
  }

  lemma NonNegativeSum(x: Bits, y: Bits)
    requires |x| == |y| > 0
    ensures !Negative(x) && !Negative(y) ==> ToNat(Add(x, y)) == ToNat(x) + ToNat(y)
  {
    if !Negative(x) && !Negative(y) {
      TopBit(x);
      TopBit(y);
      ToNatTruncate(ToNat(x) + ToNat(y), |x|);
      DivModUnique(ToNat(x) + ToNat(y), Pow2(|x|), 0, ToNat(x) + ToNat(y));
    }
  }

  lemma {:induction false} TopBit(x: Bits)
    requires |x| > 0
    ensures Negative(x) <==> ToNat(x) >= Pow2(|x| - 1)
  {
    var n := |x| - 1;
    assert x == x[..n] + [x[n]];
    ToNatConcat(x[..n], [x[n]]);
    BitValue([x[n]]);
  }

  lemma RemainderBelow(x: Bits, y: Bits)
    requires |x| == |y| && ToNat(y) != 0
    ensures ToNat(Urem(x, y)) == ToNat(x) % ToNat(y) < ToNat(y)
  {
    var r := ToNat(x) % ToNat(y);
    ToNatTruncate(r, |x|);
    DivModUnique(r, Pow2(|x|), 0, r);
  }

  lemma SextZero(x: Bits, k: nat, y: Bits, l: nat)
    requires |x| > 0 && |y| > 0 && |x| + k == |y| + l && ToNat(y) == 0
    ensures SignExtend(x, k) == SignExtend(y, l) <==> x == Truncate(0, |x|)
  {
    ToNatZero(y);
    ZeroNumeral(|x|);
    assert SignExtend(y, l) == Zeros(|x| + k);
    if SignExtend(x, k) == Zeros(|x| + k) {
      assert x == SignExtend(x, k)[..|x|];
    }
    if x == Zeros(|x|) {
      assert SignExtend(x, k) == Zeros(|x| + k);
    }
  }

  // ---- Comparison ----

  lemma {:induction false} MkUleMeans(a: Expr, b: Expr, m: Model)
    requires WF(a) && WF(b) && IsBv(a) && SortOf(a) == SortOf(b)
    ensures Refines(Eval(MkUle(a, b), m), UleV(Eval(a, m), Eval(b, m)))
    decreases Size(a) + Size(b), 20
  {
    hide Eval, WF, SortOf, Size, MkEq, MinLeadingZeros, MinTrailingOnes, ToNat, Pow2;
    EvalSort(a, m);
    EvalSort(b, m);
    if a == b || IsZero(a) || IsAllOnes(b) {
      OpenBool(Bool(true), m);
      UleTrivial(a, b, m);
    } else if IsZero(b) || IsAllOnes(a) {
      MkEqMeans(a, b, m);
      UleTrivial(a, b, m);
    } else if MinLeadingZeros(a) + MinTrailingOnes(b) >= Width(a) {
      OpenBool(Bool(true), m);
      LeadingZerosBound(a, m);
      TrailingOnesBound(b, m);
      Pow2Monotone(Width(a) - MinLeadingZeros(a), MinTrailingOnes(b));
    } else if a.Bv? && b.Bv? {
      OpenBv(a, m);
      OpenBv(b, m);
      OpenBool(Bool(Ule(a.bits, b.bits)), m);
    } else {
      OpenULe(ULe(a, b), m);
    }
  }

  lemma {:induction false} UleTrivial(a: Expr, b: Expr, m: Model)
    requires WF(a) && WF(b) && IsBv(a) && SortOf(a) == SortOf(b) && (a == b || a.Bv? || b.Bv?)
    ensures a == b || IsZero(a) || IsAllOnes(b) ==> Refines(B(true), UleV(Eval(a, m), Eval(b, m)))
    ensures IsZero(b) || IsAllOnes(a) ==> Refines(EqV(Eval(a, m), Eval(b, m)), UleV(Eval(a, m), Eval(b, m)))
  {
    hide Eval, WF, SortOf, Size, ToNat, Pow2;
    EvalSort(a, m);
    EvalSort(b, m);
    var x, y := Eval(a, m), Eval(b, m);
    if x.V? && y.V? {
      UleExtremes(x.bits, y.bits);
      ToNatZero(x.bits);
      ToNatZero(y.bits);
      if a.Bv? { OpenBv(a, m); }
      if b.Bv? { OpenBv(b, m); }
    }
  }

  lemma {:induction false} UleExtremes(x: Bits, y: Bits)
    requires |x| == |y|
    ensures x == Zeros(|x|) || y == Ones(|x|) ==> Ule(x, y)
    ensures y == Zeros(|x|) || x == Ones(|x|) ==> (Ule(x, y) <==> x == y)
  {
    ToNatZero(x);
    ToNatZero(y);
    if ToNat(x) == ToNat(y) {
      ToNatInjective(x, y);
    }
  }

  lemma {:induction false} LeadingZerosBound(e: Expr, m: Model)
    requires WF(e) && IsBv(e)
    ensures Eval(e, m).V? ==> ToNat(Eval(e, m).bits) < Pow2(Width(e) - MinLeadingZeros(e))
    decreases e
  {
    hide Eval, WF, SortOf, Size;
    EvalSort(e, m);
    if e.Concat? {
      OpenConcat(e, m);
      if Eval(e, m).V? {
        LeadingZerosBound(e.a, m);
        EvalSort(e.a, m);
        EvalSort(e.b, m);
        ConcatBelow(Eval(e.a, m).bits, Eval(e.b, m).bits, Width(e.a) - MinLeadingZeros(e.a));
      }
    } else if IsUInt(e) {
      OpenBv(e, m);
      LeadingZerosValue(e.bits);
    }
  }

  lemma ConcatBelow(x: Bits, y: Bits, k: nat)
    requires ToNat(x) < Pow2(k)
    ensures ToNat(y + x) < Pow2(|y| + k)
  {
    ToNatConcat(y, x);
    Pow2Add(|y|, k);
    MulMonotone(Pow2(|y|), ToNat(x) + 1, Pow2(k));
    assert Pow2(|y|) * (ToNat(x) + 1) == Pow2(|y|) * ToNat(x) + Pow2(|y|);
  }

  lemma {:induction false} LeadingZerosValue(b: Bits)
    ensures ToNat(b) < Pow2(|b| - LeadingZeros(b))
    decreases |b|
  {
    if b != [] && !b[|b| - 1] {
      var n := |b| - 1;
      LeadingZerosValue(b[..n]);
      assert b == b[..n] + [false];
      ToNatConcat(b[..n], [false]);
      BitValue([false]);
    }
  }

  lemma {:induction false} TrailingOnesBound(e: Expr, m: Model)
    requires WF(e) && IsBv(e)
    ensures Eval(e, m).V? ==> ToNat(Eval(e, m).bits) >= Pow2(MinTrailingOnes(e)) - 1
  {
    hide Eval, WF, SortOf, Size;
    if IsUInt(e) {
      OpenBv(e, m);
      TrailingOnesValue(e.bits);
    }
  }

  lemma {:induction false} TrailingOnesValue(b: Bits)
    ensures ToNat(b) >= Pow2(TrailingOnes(b)) - 1
    decreases |b|
  {
    if b != [] && b[0] {
      TrailingOnesValue(b[1..]);
    }
  }

  lemma {:induction false} MkUltMeans(a: Expr, b: Expr, m: Model)
    requires WF(a) && WF(b) && IsBv(a) && SortOf(a) == SortOf(b)
    ensures Refines(Eval(MkUlt(a, b), m), NotV(UleV(Eval(b, m), Eval(a, m))))
    decreases Size(a) + Size(b), 21
  {
    hide Eval, WF, SortOf, Size, MkUle, MkNot;
    EvalSort(a, m);
    EvalSort(b, m);
    if IsUInt(b) {
      OpenBv(b, m);
      OpenBool(Bool(false), m);
      if ToNat(b.bits) != 0 {
        var n := ToNat(b.bits) - 1;
        OpenBv(UInt(n, Width(a)), m);
        MkUleMeans(a, UInt(n, Width(a)), m);
        ToNatTruncate(n, Width(a));
        DivModUnique(n, Pow2(Width(a)), 0, n);
      }
    } else {
      MkUleMeans(b, a, m);
      MkNotMeans(MkUle(b, a), m);
    }
  }
}

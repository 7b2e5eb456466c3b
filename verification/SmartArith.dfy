/** Smart constructors for bit-vector arithmetic, bitwise operations and arrays. */
module SmartArith {
  import opened Bits
  import opened Terms
  import opened SmartExpr

  predicate SameBv(a: Expr, b: Expr) {
    WF(a) && WF(b) && IsBv(a) && SortOf(a) == SortOf(b)
  }

  /** The plain operation, folded when both operands are numerals. */
  function Fold(op: Op, a: Expr, b: Expr): (r: Expr)
    requires SameBv(a, b)
    ensures WF(r) && SortOf(r) == SortOf(a) && (a.Bv? && b.Bv? ==> r.Bv?)
  {
    if a.Bv? && b.Bv? then Bv(Apply(op, a.bits, b.bits)) else Bin(op, a, b)
  }

  // ---- Shifts ----

  function MkShl(a: Expr, b: Expr): (r: Expr)
    requires SameBv(a, b)
    ensures WF(r) && SortOf(r) == SortOf(a) && (a.Bv? && b.Bv? ==> r.Bv?)
  {
    if IsZero(a) || IsZero(b) then a
    else if IsUInt(b) then ShlBy(a, ToNat(b.bits))
    else Fold(OShl, a, b)
  }

  function ZerosAbove(e: Expr, n: nat): (r: Expr)
    requires WF(e) && IsBv(e)
    ensures WF(r) && SortOf(r) == SBv(n + Width(e)) && (e.Bv? ==> r.Bv?)
  {
    if n > 0 then MkConcat(UInt(0, n), e) else e
  }

  function ZerosBelow(e: Expr, n: nat): (r: Expr)
    requires WF(e) && IsBv(e)
    ensures WF(r) && SortOf(r) == SBv(n + Width(e)) && (e.Bv? ==> r.Bv?)
  {
    if n > 0 then MkConcat(e, UInt(0, n)) else e
  }

  function ShlBy(a: Expr, k: nat): (r: Expr)
    requires WF(a) && IsBv(a) && k > 0
    ensures WF(r) && SortOf(r) == SortOf(a) && (a.Bv? ==> r.Bv?)
  {
    var w := Width(a);
    if k >= w then UInt(0, w) else ZerosBelow(MkExtract(a, w - k - 1, 0, 3), k)
  }

  function MkLshr(a: Expr, b: Expr): (r: Expr)
    requires SameBv(a, b)
    ensures WF(r) && SortOf(r) == SortOf(a)
  {
    if IsZero(a) || IsZero(b) then a
    else if IsUInt(b) then LshrBy(a, ToNat(b.bits))
    else Fold(OLshr, a, b)
  }

  function LshrBy(a: Expr, k: nat): (r: Expr)
    requires WF(a) && IsBv(a) && k > 0
    ensures WF(r) && SortOf(r) == SortOf(a)
  {
    var w := Width(a);
    if k >= w then UInt(0, w) else ZerosAbove(MkExtract(a, w - 1, k, 3), k)
  }

  function MkAshr(a: Expr, b: Expr): (r: Expr)
    requires SameBv(a, b)
    ensures WF(r) && SortOf(r) == SortOf(a)
  {
    if IsZero(a) || IsZero(b) then a else Fold(OAshr, a, b)
  }

  // ---- Commutative operations ----

  predicate Identity(op: Op, e: Expr) {
    match op
    case OMul => IsOne(e)
    case OAnd => IsAllOnes(e)
    case _ => IsZero(e)
  }

  function Ordered(op: Op, a: Expr, b: Expr): (r: Expr)
    requires SameBv(a, b)
    ensures WF(r) && SortOf(r) == SortOf(a) && (a.Bv? && b.Bv? ==> r.Bv?)
  {
    if Precedes(a, b) then Fold(op, a, b) else Fold(op, b, a)
  }

  /** Moves numerals left and combines them. */
  function MkCommutative(op: Op, a: Expr, b: Expr): (r: Expr)
    requires SameBv(a, b) && Commutes(op)
    ensures WF(r) && SortOf(r) == SortOf(a) && (a.Bv? && b.Bv? ==> r.Bv?)
    decreases Size(a) + Size(b), if a.Bv? then 0 else 1
  {
    if Absorbs(op, a) || Identity(op, b) then a
    else if Absorbs(op, b) || Identity(op, a) then b
    else if a.Bv? && b.Bin? && b.op == op && b.a.Bv? then MkOp(op, MkOp(op, a, b.a), b.b)
    else if a.Bv? && b.Bin? && b.op == op && b.b.Bv? then MkOp(op, MkOp(op, a, b.b), b.a)
    else if !a.Bv? && b.Bv? then MkCommutative(op, b, a)
    else Ordered(op, a, b)
  }

  function MkOp(op: Op, a: Expr, b: Expr): (r: Expr)
    requires SameBv(a, b) && Commutes(op)
    ensures WF(r) && SortOf(r) == SortOf(a) && (a.Bv? && b.Bv? ==> r.Bv?)
    decreases Size(a) + Size(b), 3
  {
    match op
    case OAdd => MkAdd(a, b)
    case OMul => MkMul(a, b)
    case OAnd => MkBvAnd(a, b)
    case OOr => MkBvOr(a, b)
    case _ => MkBvXor(a, b)
  }

  /** (concat x c) + d, when d only reaches c and the sum of both fits. */
  predicate AddsToLow(a: Expr, b: Expr)
    requires SameBv(a, b)
    ensures AddsToLow(a, b) ==>
      && a.Concat? && a.b.Bv? && b.Bv? && WF(a.a) && IsBv(a.a) && a.b.bits != []
      && Width(a.a) + |a.b.bits| == Width(a) == |b.bits|
  {
    && b.Bv? && a.Concat? && a.b.Bv?
    && var w := |a.b.bits|;
       && b.bits[w..] == Zeros(Width(a) - w)
       && ToNat(a.b.bits) + ToNat(b.bits[..w]) < Pow2(w)
  }

  function MkAdd(a: Expr, b: Expr): (r: Expr)
    requires SameBv(a, b)
    ensures WF(r) && SortOf(r) == SortOf(a) && (a.Bv? && b.Bv? ==> r.Bv?)
    decreases Size(a) + Size(b), 2
  {
    if AddsToLow(a, b) then MkConcat(a.a, Bv(Add(a.b.bits, b.bits[..|a.b.bits|])))
    else MkCommutative(OAdd, a, b)
  }

  function MkSub(a: Expr, b: Expr): (r: Expr)
    requires SameBv(a, b)
    ensures WF(r) && SortOf(r) == SortOf(a)
  {
    if a == b then UInt(0, Width(a)) else MkAdd(a, MkMul(Bv(Ones(Width(a))), b))
  }

  predicate IsPower2(e: Expr) {
    e.Bv? && exists k :: 0 <= k < |e.bits| && ToNat(e.bits) == Pow2(k)
  }

  function Log2(e: Expr): (k: nat)
    requires IsPower2(e)
    ensures k < |e.bits| && ToNat(e.bits) == Pow2(k)
  {
    Pow2Injective();
    var k :| 0 <= k < |e.bits| && ToNat(e.bits) == Pow2(k);
    k
  }

  lemma Pow2Injective()
    ensures forall j: nat, k: nat {:trigger Pow2(j), Pow2(k)} :: Pow2(j) == Pow2(k) ==> j == k
  {
    forall j: nat, k: nat | Pow2(j) == Pow2(k)
      ensures j == k
    {
      if j < k {
        Pow2Monotone(j + 1, k);
      } else if k < j {
        Pow2Monotone(k + 1, j);
      }
    }
  }

  function MkMul(a: Expr, b: Expr): (r: Expr)
    requires SameBv(a, b)
    ensures WF(r) && SortOf(r) == SortOf(a) && (a.Bv? && b.Bv? ==> r.Bv?)
    decreases Size(a) + Size(b), 2
  {
    if IsPower2(b) then MkShl(a, UInt(Log2(b), Width(a)))
    else if IsPower2(a) then MkShl(b, UInt(Log2(a), Width(a)))
    else MkCommutative(OMul, a, b)
  }

  // ---- Bitwise operations ----

  function TrailingZeros(b: Bits): (r: nat)
    ensures r <= |b|
  {
    if b == [] || b[0] then 0 else 1 + TrailingZeros(b[1..])
  }

  /** A numeral of at most 64 bits whose set bits are contiguous. */
  predicate IsMask(e: Expr) {
    && e.Bv? && 0 < |e.bits| <= 64 && ToNat(e.bits) != 0
    && forall i :: TrailingZeros(e.bits) <= i < |e.bits| - LeadingZeros(e.bits) ==> e.bits[i]
  }

  lemma {:induction false} MaskRange(b: Bits)
    requires ToNat(b) != 0
    ensures TrailingZeros(b) < |b| - LeadingZeros(b)
    ensures forall i :: 0 <= i < TrailingZeros(b) || |b| - LeadingZeros(b) <= i < |b| ==> !b[i]
  {
    LowZeros(b);
    HighZeros(b);
    if TrailingZeros(b) >= |b| - LeadingZeros(b) {
      assert b == Zeros(|b|);
      ToNatFill(|b|);
    }
  }

  lemma {:induction false} LowZeros(b: Bits)
    ensures forall i :: 0 <= i < TrailingZeros(b) ==> !b[i]
    decreases |b|
  {
    if b != [] && !b[0] {
      LowZeros(b[1..]);
      forall i | 0 <= i < TrailingZeros(b)
        ensures !b[i]
      {
        assert i > 0 ==> b[i] == b[1..][i - 1];
      }
    }
  }

  lemma {:induction false} HighZeros(b: Bits)
    ensures forall i :: |b| - LeadingZeros(b) <= i < |b| ==> !b[i]
    decreases |b|
  {
    if b != [] && !b[|b| - 1] {
      HighZeros(b[..|b| - 1]);
    }
  }

  function KeepMasked(mask: Expr, e: Expr): (r: Expr)
    requires SameBv(e, mask) && IsMask(mask)
    ensures WF(r) && SortOf(r) == SortOf(e) && (e.Bv? ==> r.Bv?)
  {
    MaskRange(mask.bits);
    var lead, trail := LeadingZeros(mask.bits), TrailingZeros(mask.bits);
    ZerosBelow(ZerosAbove(MkExtract(e, |mask.bits| - lead - 1, trail, 3), lead), trail)
  }

  datatype Option<T> = None | Some(value: T)

  /** The condition of a one-bit if-then-else between 0 and 1. */
  function GetBool(e: Expr): (r: Option<Expr>)
    requires WF(e) && IsBit(e)
    ensures r.Some? ==> WF(r.value) && SortOf(r.value) == SBool
  {
    if e.Ite? && IsTrue(MkEq(e.t, Bv([true]))) && IsTrue(MkEq(e.e, Bv([false]))) then Some(e.c)
    else if e.Ite? && IsTrue(MkEq(e.t, Bv([false]))) && IsTrue(MkEq(e.e, Bv([true]))) then Some(MkNot(e.c))
    else None
  }

  function MkBvAnd(a: Expr, b: Expr): (r: Expr)
    requires SameBv(a, b)
    ensures WF(r) && SortOf(r) == SortOf(a) && (a.Bv? && b.Bv? ==> r.Bv?)
    decreases Size(a) + Size(b), 2
  {
    if a == b || IsZero(a) || IsAllOnes(b) then a
    else if IsAllOnes(a) || IsZero(b) then b
    else if IsMask(a) then KeepMasked(a, b)
    else if IsMask(b) then KeepMasked(b, a)
    else if IsBit(a) && GetBool(a).Some? && GetBool(b).Some? then ToBvBool(MkAnd(GetBool(a).value, GetBool(b).value))
    else MkCommutative(OAnd, a, b)
  }

  function MkBvOr(a: Expr, b: Expr): (r: Expr)
    requires SameBv(a, b)
    ensures WF(r) && SortOf(r) == SortOf(a) && (a.Bv? && b.Bv? ==> r.Bv?)
    decreases Size(a) + Size(b), 2
  {
    if a == b || IsAllOnes(a) || IsZero(b) then a
    else if IsZero(a) || IsAllOnes(b) then b
    else if IsBit(a) && GetBool(a).Some? && GetBool(b).Some? then ToBvBool(MkOr(GetBool(a).value, GetBool(b).value))
    else MkCommutative(OOr, a, b)
  }

  function MkBvNot(a: Expr): (r: Expr)
    requires WF(a) && IsBv(a)
    ensures WF(r) && SortOf(r) == SortOf(a) && (a.Bv? ==> r.Bv?)
  {
    if a.Bv? then Bv(BitNot(a.bits)) else BvNot(a)
  }

  /** Exclusive or with all ones. */
  function Flip(a: Expr): (r: Expr)
    requires WF(a) && IsBv(a)
    ensures WF(r) && SortOf(r) == SortOf(a)
  {
    if IsBit(a) then ToBvBool(MkEq(a, UInt(0, 1))) else MkBvNot(a)
  }

  function MkBvXor(a: Expr, b: Expr): (r: Expr)
    requires SameBv(a, b)
    ensures WF(r) && SortOf(r) == SortOf(a) && (a.Bv? && b.Bv? ==> r.Bv?)
    decreases Size(a) + Size(b), 2
  {
    if a == b then UInt(0, Width(a))
    else if IsAllOnes(a) then Flip(b)
    else if IsAllOnes(b) then Flip(a)
    else MkCommutative(OXor, a, b)
  }

  // ---- Division ----

  function MkUdiv(a: Expr, b: Expr): (r: Expr)
    requires SameBv(a, b)
    ensures WF(r) && SortOf(r) == SortOf(a)
  {
    if a == b then UInt(1, Width(a))
    else if IsZero(b) then b
    else Fold(OUdiv, a, b)
  }

  predicate IsPower2Numeral(e: Expr) {
    IsUInt(e) && exists k :: 0 < k < |e.bits| && ToNat(e.bits) == Pow2(k)
  }

  function MkUrem(a: Expr, b: Expr): (r: Expr)
    requires SameBv(a, b)
    ensures WF(r) && SortOf(r) == SortOf(a)
  {
    if a == b then UInt(0, Width(a))
    else if b.Bv? && ToNat(b.bits) <= 1 then UInt(0, Width(a))
    else if IsPower2Numeral(b) then LowBits(a, Log2(b))
    else Fold(OUrem, a, b)
  }

  function LowBits(a: Expr, k: nat): (r: Expr)
    requires WF(a) && IsBv(a) && k < Width(a)
    ensures WF(r) && SortOf(r) == SortOf(a)
  {
    if k == 0 then UInt(0, Width(a))
    else ZerosAbove(MkExtract(a, k - 1, 0, 3), Width(a) - k)
  }

  predicate IsSMinTerm(e: Expr) {
    e.Bv? && IsSMin(e.bits)
  }

  function MkSdiv(a: Expr, b: Expr): (r: Expr)
    requires SameBv(a, b)
    ensures WF(r) && SortOf(r) == SortOf(a)
  {
    if a == b then UInt(1, Width(a))
    else if IsZero(b) then b
    else if IsSMinTerm(a) && IsAllOnes(b) then UInt(0, Width(a))
    else Fold(OSdiv, a, b)
  }

  function MkSrem(a: Expr, b: Expr): (r: Expr)
    requires SameBv(a, b)
    ensures WF(r) && SortOf(r) == SortOf(a)
  {
    if a == b || (IsSMinTerm(a) && IsAllOnes(b)) then UInt(0, Width(a))
    else if IsZero(b) then b
    else if IsFalse(IsNegative(a)) && IsFalse(IsNegative(b)) then MkUrem(a, b)
    else Fold(OSrem, a, b)
  }

  // ---- Comparison with a successor that wraps ----

  /** The successor of the numeral is computed in 64 bits. */
  function MkUgt(a: Expr, b: Expr): (r: Expr)
    requires SameBv(a, b)
    ensures WF(r) && SortOf(r) == SBool
  {
    if IsAllOnes(b) then Bool(false)
    else if IsUInt(b) then MkUle(UInt(Mod(ToNat(b.bits) + 1, MAX64 + 1), Width(a)), a)
    else MkNot(MkUle(a, b))
  }

  // ---- Arrays ----

  predicate Fits(arr: Array, idx: Expr) {
    WFArray(arr) && WF(idx) && SortOf(idx) == SBv(IndexWidth(arr))
  }

  function MkStore(arr: Array, idx: Expr, val: Expr): (r: Array)
    requires Fits(arr, idx) && WF(val) && SortOf(val) == SBv(ValueWidth(arr))
    ensures WFArray(r) && IndexWidth(r) == IndexWidth(arr) && ValueWidth(r) == ValueWidth(arr)
    decreases arr
  {
    if arr.Store? && IsTrue(MkEq(idx, arr.idx)) then MkStore(arr.arr, idx, val)
    else if arr.ConstArr? && arr.val == val then arr
    else Store(arr, idx, val)
  }

  function MkLoad(arr: Array, idx: Expr): (r: Expr)
    requires Fits(arr, idx)
    ensures WF(r) && SortOf(r) == SBv(ValueWidth(arr))
    decreases arr
  {
    match arr
    case Store(a, i, v) =>
      if IsTrue(MkEq(idx, i)) then v
      else if IsFalse(MkEq(idx, i)) then MkLoad(a, idx)
      else Select(arr, idx)
    case ConstArr(_, v) => v
    case _ => Select(arr, idx)
  }
}

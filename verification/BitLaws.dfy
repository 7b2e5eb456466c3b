/** Laws of bit-vector arithmetic that the rewrites rely on. */
module BitLaws {
  import opened Bits
  import opened Terms

  lemma ModShift(n: nat, p: nat, q: nat)
    requires p > 0
    ensures Mod(n + p * q, p) == Mod(n, p)
  {
    var k, r := n / p, n % p;
    assert p * (k + q) == p * k + p * q;
    DivModUnique(n + p * q, p, k + q, r);
  }

  lemma ModAdd(a: nat, b: nat, p: nat)
    requires p > 0
    ensures Mod(Mod(a, p) + b, p) == Mod(a + b, p)
  {
    var q, r := a / p, a % p;
    assert a + b == (r + b) + p * q;
    ModShift(r + b, p, q);
  }

  lemma ModMul(a: nat, b: nat, p: nat)
    requires p > 0
    ensures Mod(Mod(a, p) * b, p) == Mod(a * b, p)
  {
    var q, r := a / p, a % p;
    assert a * b == r * b + p * (q * b) by {
      assert a == r + p * q;
      assert (r + p * q) * b == r * b + (p * q) * b;
      assert (p * q) * b == p * (q * b);
    }
    ModShift(r * b, p, q * b);
  }

  lemma ModSmall(n: nat, p: nat)
    requires n < p
    ensures Mod(n, p) == n
  {
    DivModUnique(n, p, 0, n);
  }

  lemma AddLaws(x: Bits, y: Bits, z: Bits)
    requires |x| == |y| == |z|
    ensures Add(x, y) == Add(y, x)
    ensures Add(Add(x, y), z) == Add(x, Add(y, z))
  {
    hide ToNat, Pow2, FromNat, Mod;
    var p := Pow2(|x|);
    var a, b, c := ToNat(x), ToNat(y), ToNat(z);
    ToNatTruncate(a + b, |x|);
    ToNatTruncate(b + c, |x|);
    AddModAssociative(a, b, c, p);
  }

  lemma AddModAssociative(a: nat, b: nat, c: nat, p: nat)
    requires p > 0
    ensures Mod(Mod(a + b, p) + c, p) == Mod(a + Mod(b + c, p), p)
  {
    hide Mod;
    ModAdd(a + b, c, p);
    ModAdd(b + c, a, p);
    assert (b + c) + a == (a + b) + c;
  }

  lemma MulModAssociative(a: nat, b: nat, c: nat, p: nat)
    requires p > 0
    ensures Mod(Mod(a * b, p) * c, p) == Mod(a * Mod(b * c, p), p)
  {
    hide Mod;
    ModMul(a * b, c, p);
    ModMul(b * c, a, p);
    assert (a * b) * c == (b * c) * a by { MulAssociative(a, b, c); }
    assert Mod(b * c, p) * a == a * Mod(b * c, p);
  }

  lemma {:induction false} MulLaws(x: Bits, y: Bits, z: Bits)
    requires |x| == |y| == |z|
    ensures Mul(x, y) == Mul(y, x)
    ensures Mul(Mul(x, y), z) == Mul(x, Mul(y, z))
  {
    hide ToNat, Pow2, FromNat, Mod;
    var a, b, c := ToNat(x), ToNat(y), ToNat(z);
    assert a * b == b * a;
    ToNatTruncate(a * b, |x|);
    ToNatTruncate(b * c, |x|);
    MulModAssociative(a, b, c, Pow2(|x|));
  }

  lemma BitwiseLaws(x: Bits, y: Bits, z: Bits)
    requires |x| == |y| == |z|
    ensures BitAnd(x, y) == BitAnd(y, x) && BitOr(x, y) == BitOr(y, x) && BitXor(x, y) == BitXor(y, x)
    ensures BitAnd(BitAnd(x, y), z) == BitAnd(x, BitAnd(y, z))
    ensures BitOr(BitOr(x, y), z) == BitOr(x, BitOr(y, z))
    ensures BitXor(BitXor(x, y), z) == BitXor(x, BitXor(y, z))
  {
  }

  lemma OpLaws(op: Op, x: Bits, y: Bits, z: Bits)
    requires |x| == |y| == |z| > 0 && Commutes(op)
    ensures Apply(op, x, y) == Apply(op, y, x)
    ensures Apply(op, Apply(op, x, y), z) == Apply(op, x, Apply(op, y, z))
  {
    hide Add, Mul, BitAnd, BitOr, BitXor;
    match op
    case OAdd => AddLaws(x, y, z);
    case OMul => MulLaws(x, y, z);
    case _ => BitwiseLaws(x, y, z);
  }

  /** Zero, one and all ones. */
  lemma {:induction false} Units(x: Bits, y: Bits)
    requires |x| == |y|
    ensures ToNat(y) == 0 ==>
      Add(x, y) == x && Mul(x, y) == y && BitAnd(x, y) == y && BitOr(x, y) == x && BitXor(x, y) == x
    ensures ToNat(y) == 1 ==> Mul(x, y) == x
    ensures y == Ones(|y|) ==> BitAnd(x, y) == x && BitOr(x, y) == y && BitXor(x, y) == BitNot(x)
  {
    hide ToNat, Pow2, FromNat, Mod;
    FromToNat(x);
    FromToNat(y);
    ModSmall(ToNat(x), Pow2(|x|));
    ModSmall(ToNat(y), Pow2(|x|));
    if ToNat(y) == 0 {
      ToNatZero(y);
      BitwiseUnits(x, y);
      assert ToNat(x) * 0 == 0;
    }
    if ToNat(y) == 1 {
      assert ToNat(x) * 1 == ToNat(x);
    }
    BitwiseUnits(x, y);
  }

  lemma BitwiseUnits(x: Bits, y: Bits)
    requires |x| == |y|
    ensures y == Zeros(|y|) ==> BitAnd(x, y) == y && BitOr(x, y) == x && BitXor(x, y) == x
    ensures y == Ones(|y|) ==> BitAnd(x, y) == x && BitOr(x, y) == y && BitXor(x, y) == BitNot(x)
  {
    if y == Zeros(|y|) {
      assert BitAnd(x, y) == y;
      assert BitOr(x, y) == x;
      assert BitXor(x, y) == x;
    }
    if y == Ones(|y|) {
      assert BitAnd(x, y) == x;
      assert BitOr(x, y) == y;
      assert BitXor(x, y) == BitNot(x);
    }
  }

  lemma SelfLaws(x: Bits)
    ensures BitAnd(x, x) == x && BitOr(x, x) == x && BitXor(x, x) == Zeros(|x|)
  {
  }

  /** Multiplying by a power of two shifts. */
  lemma {:induction false} MulPow2(x: Bits, y: Bits, k: nat)
    requires |x| == |y| && k < |x| && ToNat(y) == Pow2(k)
    ensures Mul(x, y) == ShiftLeft(x, k)
  {
    hide ToNat, Pow2, FromNat, Mod;
    var w := |x|;
    var lo, hi := x[..w - k], x[w - k..];
    assert x == lo + hi;
    ToNatConcat(lo, hi);
    ToNatFill(k);
    ToNatConcat(Zeros(k), lo);
    Pow2Add(k, w - k);
    ShiftedProduct(ToNat(x), Pow2(k), Pow2(w - k), ToNat(lo), ToNat(hi));
    ToNatTruncate(ToNat(x) * Pow2(k), w);
    ToNatInjective(Mul(x, y), ShiftLeft(x, k));
  }

  lemma ShiftedProduct(n: nat, p: nat, q: nat, lo: nat, hi: nat)
    requires p > 0 && q > 0 && n == lo + q * hi && lo < q
    ensures p * q > 0 && Mod(n * p, p * q) == p * lo
  {
    hide Mod;
    assert n * p == p * lo + (p * q) * hi by {
      assert p * (lo + q * hi) == p * lo + p * (q * hi);
      MulAssociative(p, q, hi);
    }
    MulMonotone(p, lo + 1, q);
    assert p * (lo + 1) == p * lo + p;
    ModShift(p * lo, p * q, hi);
    ModSmall(p * lo, p * q);
  }

  /** The remainder by a power of two is the low bits. */
  lemma UremPow2(x: Bits, y: Bits, k: nat)
    requires |x| == |y| && k < |x| && ToNat(y) == Pow2(k)
    ensures Urem(x, y) == x[..k] + Zeros(|x| - k)
  {
    hide ToNat, Pow2, FromNat, Mod;
    ToNatLow(x, k);
    var r := ToNat(x) % Pow2(k);
    Pow2Monotone(k, |x|);
    ModSmall(r, Pow2(|x|));
    ToNatTruncate(r, |x|);
    ToNatFill(|x| - k);
    ToNatConcat(x[..k], Zeros(|x| - k));
    assert Pow2(k) * 0 == 0;
    ToNatInjective(Urem(x, y), x[..k] + Zeros(|x| - k));
  }

  /** Adding below the top part when nothing is carried out of the low part. */
  lemma {:induction false} AddLow(lo: Bits, hi: Bits, d: Bits)
    requires |lo| == |d| && ToNat(lo) + ToNat(d) < Pow2(|lo|)
    ensures Add(lo + hi, d + Zeros(|hi|)) == Add(lo, d) + hi
  {
    hide ToNat, Pow2, FromNat, Mod;
    var p, q := Pow2(|lo|), Pow2(|hi|);
    ToNatConcat(lo, hi);
    ToNatConcat(d, Zeros(|hi|));
    ToNatFill(|hi|);
    var s := ToNat(lo) + ToNat(d);
    ToNatTruncate(s, |lo|);
    ModSmall(s, p);
    ToNatConcat(Add(lo, d), hi);
    Pow2Add(|lo|, |hi|);
    NoCarry(s, p, q, ToNat(hi));
    ToNatTruncate(s + p * ToNat(hi), |lo| + |hi|);
    ToNatInjective(Add(lo + hi, d + Zeros(|hi|)), Add(lo, d) + hi);
  }

  lemma NoCarry(s: nat, p: nat, q: nat, hi: nat)
    requires s < p && hi < q
    ensures p * q > 0 && Mod(s + p * hi, p * q) == s + p * hi && p * 0 == 0
  {
    hide Mod;
    MulMonotone(p, hi + 1, q);
    assert p * (hi + 1) == p * hi + p;
    ModSmall(s + p * hi, p * q);
  }

  /** Keeping the bits of a contiguous mask. */
  lemma MaskedBits(mask: Bits, x: Bits, lo: nat, hi: nat)
    requires |mask| == |x| && lo < hi <= |x|
    requires forall i :: 0 <= i < |mask| ==> (mask[i] <==> lo <= i < hi)
    ensures BitAnd(mask, x) == Zeros(lo) + (x[lo..hi] + Zeros(|x| - hi))
  {
  }

  lemma SremNonNegative(x: Bits, y: Bits)
    requires |x| == |y| > 0 && ToNat(y) != 0 && !Negative(x) && !Negative(y)
    ensures Srem(x, y) == Urem(x, y)
  {
    hide ToNat, Pow2, FromNat, Mod;
    var r := ToNat(x) % ToNat(y);
    ModSmall(r, Pow2(|x|));
  }

  lemma SelfDivision(x: Bits)
    requires |x| > 0 && ToNat(x) != 0
    ensures Udiv(x, x) == Truncate(1, |x|) && Sdiv(x, x) == Truncate(1, |x|)
    ensures Urem(x, x) == Truncate(0, |x|) && Srem(x, x) == Truncate(0, |x|)
  {
    var p := Pow2(|x|);
    ToIntZero(x);
    var a := Abs(ToInt(x));
    DivModUnique(a, a, 1, 0);
    DivModUnique(ToNat(x), ToNat(x), 1, 0);
    ModSmall(0, p);
    if p > 1 {
      ModSmall(1, p);
    }
  }

  lemma SMinRem(x: Bits, y: Bits)
    requires |x| == |y| > 0 && IsSMin(x) && y == Ones(|y|)
    ensures Srem(x, y) == Truncate(0, |x|)
  {
    ToNatFill(|y|);
    hide ToNat, Pow2, FromNat, Mod;
    assert ToInt(y) == -1;
    RemByOne(Abs(ToInt(x)));
    ModSmall(0, Pow2(|x|));
  }

  lemma RemByOne(n: nat)
    ensures n % 1 == 0
  {
    DivModUnique(n, 1, n, 0);
  }
}

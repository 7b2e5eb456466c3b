/** Bit-vectors as sequences of bits, least significant first, with the operations of
    the SMT-LIB theory FixedSizeBitVectors. */
module Bits {

  type Bits = seq<bool>

  function Pow2(n: nat): (r: nat)
    ensures r > 0
  {
    if n == 0 then 1 else 2 * Pow2(n - 1)
  }

  function ToNat(b: Bits): (r: nat)
    ensures r < Pow2(|b|)
  {
    if b == [] then 0 else (if b[0] then 1 else 0) + 2 * ToNat(b[1..])
  }

  function FromNat(v: nat, w: nat): (r: Bits)
    ensures |r| == w
    decreases w
  {
    if w == 0 then [] else [v % 2 == 1] + FromNat(v / 2, w - 1)
  }

  function Fill(b: bool, w: nat): (r: Bits)
    ensures |r| == w && forall i :: 0 <= i < w ==> r[i] == b
  {
    seq(w, _ => b)
  }

  function Zeros(w: nat): (r: Bits) { Fill(false, w) }
  function Ones(w: nat): (r: Bits) { Fill(true, w) }

  // ---- Bits and numbers ----

  lemma {:induction false} Pow2Add(m: nat, n: nat)
    ensures Pow2(m + n) == Pow2(m) * Pow2(n)
  {
    if m > 0 {
      Pow2Add(m - 1, n);
      assert Pow2(m + n) == 2 * (Pow2(m - 1) * Pow2(n));
    }
  }

  lemma {:induction false} Pow2Monotone(m: nat, n: nat)
    requires m <= n
    ensures Pow2(m) <= Pow2(n)
  {
    Pow2Add(m, n - m);
    MulAtLeast(Pow2(m), Pow2(n - m));
  }

  lemma MulAtLeast(a: nat, b: nat)
    requires b >= 1
    ensures a <= a * b
  {
    MulMonotone(a, 1, b);
  }

  lemma {:induction false} MulMonotone(a: nat, b: nat, c: nat)
    requires b <= c
    ensures a * b <= a * c
  {
    assert a * c - a * b == a * (c - b);
  }

  lemma MulAssociative(a: nat, b: nat, c: nat)
    ensures a * (b * c) == (a * b) * c
  {
  }

  lemma {:induction false} ToNatConcat(lo: Bits, hi: Bits)
    ensures ToNat(lo + hi) == ToNat(lo) + Pow2(|lo|) * ToNat(hi)
  {
    if lo == [] {
      assert lo + hi == hi;
    } else {
      ToNatConcat(lo[1..], hi);
      assert (lo + hi)[1..] == lo[1..] + hi;
      MulAssociative(2, Pow2(|lo| - 1), ToNat(hi));
    }
  }

  lemma {:induction false} FromToNat(b: Bits)
    ensures FromNat(ToNat(b), |b|) == b
  {
    if b != [] {
      FromToNat(b[1..]);
      assert ToNat(b) / 2 == ToNat(b[1..]);
      assert b == [b[0]] + b[1..];
    }
  }

  lemma {:induction false} ToFromNat(v: nat, w: nat)
    requires v < Pow2(w)
    ensures ToNat(FromNat(v, w)) == v
    decreases w
  {
    if w > 0 {
      ToFromNat(v / 2, w - 1);
      var r := FromNat(v, w);
      assert r[1..] == FromNat(v / 2, w - 1);
    }
  }

  lemma ToNatInjective(a: Bits, b: Bits)
    requires |a| == |b| && ToNat(a) == ToNat(b)
    ensures a == b
  {
    FromToNat(a);
    FromToNat(b);
  }

  lemma {:induction false} ToNatFill(w: nat)
    ensures ToNat(Zeros(w)) == 0 && ToNat(Ones(w)) == Pow2(w) - 1
  {
    if w > 0 {
      ToNatFill(w - 1);
      assert Zeros(w)[1..] == Zeros(w - 1);
      assert Ones(w)[1..] == Ones(w - 1);
    }
  }

  lemma ToNatZero(b: Bits)
    ensures ToNat(b) == 0 <==> b == Zeros(|b|)
    ensures ToNat(b) == Pow2(|b|) - 1 <==> b == Ones(|b|)
  {
    ToNatFill(|b|);
    if ToNat(b) == 0 {
      ToNatInjective(b, Zeros(|b|));
    }
    if ToNat(b) == Pow2(|b|) - 1 {
      ToNatInjective(b, Ones(|b|));
    }
  }

  /** Value modulo a power of two, as the low bits. */
  lemma ToNatLow(b: Bits, k: nat)
    requires k <= |b|
    ensures ToNat(b[..k]) == ToNat(b) % Pow2(k)
    ensures ToNat(b[k..]) == ToNat(b) / Pow2(k)
  {
    assert b == b[..k] + b[k..];
    ToNatConcat(b[..k], b[k..]);
    DivModUnique(ToNat(b), Pow2(k), ToNat(b[k..]), ToNat(b[..k]));
  }

  lemma DivModUnique(n: nat, d: nat, q: nat, r: nat)
    requires d > 0 && n == r + d * q && r < d
    ensures n / d == q && n % d == r
  {
    var q', r' := n / d, n % d;
    assert n == d * q' + r';
    assert d * (q - q') == r' - r;
    if q != q' {
      if q > q' {
        MulMonotone(d, 1, q - q');
      } else {
        assert d * (q' - q) == r - r';
        MulMonotone(d, 1, q' - q);
      }
    }
  }

  /** The digit of `w` bits of a number above its lowest `lo` bits. */
  function Digit(n: nat, lo: nat, w: nat): nat {
    (n / Pow2(lo)) % Pow2(w)
  }

  lemma {:induction false} DigitOf(b: Bits, lo: nat, w: nat)
    requires lo + w <= |b|
    ensures ToNat(b[lo..lo + w]) == Digit(ToNat(b), lo, w)
  {
    hide ToNat, Pow2;
    ToNatLow(b, lo);
    ToNatLow(b[lo..], w);
    assert b[lo..][..w] == b[lo..lo + w];
  }

  // ---- Arithmetic ----

  function Mod(n: int, p: nat): (r: nat)
    requires p > 0
    ensures r < p
  {
    n % p
  }

  function Truncate(v: nat, w: nat): (r: Bits)
    ensures |r| == w
  {
    FromNat(Mod(v, Pow2(w)), w)
  }

  lemma ToNatTruncate(v: nat, w: nat)
    ensures ToNat(Truncate(v, w)) == Mod(v, Pow2(w))
  {
    ToFromNat(Mod(v, Pow2(w)), w);
  }

  function Add(a: Bits, b: Bits): (r: Bits)
    requires |a| == |b|
    ensures |r| == |a|
  {
    Truncate(ToNat(a) + ToNat(b), |a|)
  }

  function Mul(a: Bits, b: Bits): (r: Bits)
    requires |a| == |b|
    ensures |r| == |a|
  {
    Truncate(ToNat(a) * ToNat(b), |a|)
  }

  function Quotient(n: nat, d: nat): (q: nat)
    requires d > 0
  {
    n / d
  }

  /** Division and remainder are as in SMT-LIB when the divisor is zero. */
  function Udiv(a: Bits, b: Bits): (r: Bits)
    requires |a| == |b|
    ensures |r| == |a|
  {
    if ToNat(b) == 0 then Ones(|a|) else Truncate(Quotient(ToNat(a), ToNat(b)), |a|)
  }

  function Urem(a: Bits, b: Bits): (r: Bits)
    requires |a| == |b|
    ensures |r| == |a|
  {
    if ToNat(b) == 0 then a else Truncate(ToNat(a) % ToNat(b), |a|)
  }

  function BitAnd(a: Bits, b: Bits): (r: Bits)
    requires |a| == |b|
    ensures |r| == |a|
  {
    seq(|a|, i requires 0 <= i < |a| => a[i] && b[i])
  }

  function BitOr(a: Bits, b: Bits): (r: Bits)
    requires |a| == |b|
    ensures |r| == |a|
  {
    seq(|a|, i requires 0 <= i < |a| => a[i] || b[i])
  }

  function BitXor(a: Bits, b: Bits): (r: Bits)
    requires |a| == |b|
    ensures |r| == |a|
  {
    seq(|a|, i requires 0 <= i < |a| => a[i] != b[i])
  }

  function BitNot(a: Bits): (r: Bits)
    ensures |r| == |a|
  {
    seq(|a|, i requires 0 <= i < |a| => !a[i])
  }

  function ShiftLeft(a: Bits, k: nat): (r: Bits)
    ensures |r| == |a|
  {
    if k >= |a| then Zeros(|a|) else Zeros(k) + a[..|a| - k]
  }

  function ShiftRight(a: Bits, k: nat, fill: bool): (r: Bits)
    ensures |r| == |a|
  {
    if k >= |a| then Fill(fill, |a|) else a[k..] + Fill(fill, k)
  }

  predicate Negative(a: Bits)
    requires |a| > 0
  {
    a[|a| - 1]
  }

  function SignExtend(a: Bits, k: nat): (r: Bits)
    requires |a| > 0
    ensures |r| == |a| + k
  {
    a + Fill(Negative(a), k)
  }

  /** The value read in two's complement. */
  function ToInt(a: Bits): (r: int)
    requires |a| > 0
  {
    ToNat(a) - if Negative(a) then Pow2(|a|) else 0
  }

  function FromInt(v: int, w: nat): (r: Bits)
    ensures |r| == w
  {
    Truncate(Mod(v, Pow2(w)), w)
  }

  /** Signed division truncates toward zero. */
  function Sdiv(a: Bits, b: Bits): (r: Bits)
    requires |a| == |b| > 0
    ensures |r| == |a|
  {
    if ToNat(b) == 0 then (if Negative(a) then FromNat(1, |a|) else Ones(|a|))
    else
      var x, y := ToInt(a), ToInt(b);
      FromInt(if (x < 0) == (y < 0) then Quotient(Abs(x), Abs(y)) else -(Quotient(Abs(x), Abs(y)) as int), |a|)
  }

  function Srem(a: Bits, b: Bits): (r: Bits)
    requires |a| == |b| > 0
    ensures |r| == |a|
  {
    if ToNat(b) == 0 then a
    else
      var x, y := ToInt(a), ToInt(b);
      assert y != 0 by { ToIntZero(b); }
      FromInt(if x < 0 then -(Abs(x) % Abs(y)) else Abs(x) % Abs(y), |a|)
  }

  function Abs(x: int): (r: nat) {
    if x < 0 then -x else x
  }

  lemma ToIntZero(b: Bits)
    requires |b| > 0
    ensures ToInt(b) == 0 <==> ToNat(b) == 0
  {
  }

  predicate Ule(a: Bits, b: Bits) {
    ToNat(a) <= ToNat(b)
  }

  predicate Sle(a: Bits, b: Bits)
    requires |a| > 0 && |b| > 0
  {
    ToInt(a) <= ToInt(b)
  }
}

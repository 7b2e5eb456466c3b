/** What the operators of the bit-vector theory are as operations on numbers. */
module WordMeaning {
  import opened Bits
  import opened Terms
  import opened BitLaws
  import opened Overflow

  /** Sums and products are those of the numbers, up to multiples of two to the width. */
  lemma {:induction false} SumAndProduct(x: Bits, y: Bits)
    requires |x| == |y| > 0
    ensures ToNat(Apply(OAdd, x, y)) == (ToNat(x) + ToNat(y)) % Pow2(|x|)
    ensures ToNat(Apply(OMul, x, y)) == (ToNat(x) * ToNat(y)) % Pow2(|x|)
  {
    hide ToNat, Pow2, Truncate;
    ToNatTruncate(ToNat(x) + ToNat(y), |x|);
    ToNatTruncate(ToNat(x) * ToNat(y), |x|);
  }

  /** Quotient and remainder of the unsigned numbers. */
  lemma {:induction false} UnsignedDivision(x: Bits, y: Bits)
    requires |x| == |y| > 0 && Divides(OUdiv, x, y)
    ensures ToNat(x) == ToNat(Apply(OUdiv, x, y)) * ToNat(y) + ToNat(Apply(OUrem, x, y))
    ensures ToNat(Apply(OUrem, x, y)) < ToNat(y)
  {
    hide ToNat, Pow2, Truncate, Mod;
    var n, d, p := ToNat(x), ToNat(y), Pow2(|x|);
    DivisionOf(n, d);
    ModSmall(n / d, p);
    ModSmall(n % d, p);
    ToNatTruncate(n / d, |x|);
    ToNatTruncate(n % d, |x|);
  }

  lemma {:induction false} DivisionOf(n: nat, d: nat)
    requires d > 0
    ensures n == (n / d) * d + n % d && n % d < d && n / d <= n && n % d <= n
  {
    var q, r := n / d, n % d;
    assert n == d * q + r && d * q == q * d;
    QuotientBelow(n, d);
  }

  lemma {:induction false} QuotientBelow(n: nat, d: nat)
    requires d > 0
    ensures n / d <= n
  {
    var q := n / d;
    assert n == d * q + n % d;
    MulAtLeast(q, d);
    assert q * d == d * q;
  }

  /** Shifting up multiplies, shifting down divides. */
  lemma {:induction false} UnsignedShifts(x: Bits, y: Bits)
    requires |x| == |y| > 0
    ensures ToNat(Apply(OShl, x, y)) == (ToNat(x) * Pow2(ToNat(y))) % Pow2(|x|)
    ensures ToNat(Apply(OLshr, x, y)) == ToNat(x) / Pow2(ToNat(y))
  {
    ShiftUp(x, ToNat(y));
    ShiftDown(x, ToNat(y));
  }

  lemma {:induction false} ShiftUp(x: Bits, k: nat)
    ensures ToNat(ShiftLeft(x, k)) == (ToNat(x) * Pow2(k)) % Pow2(|x|)
  {
    hide ToNat, Pow2;
    var w, n := |x|, ToNat(x);
    ToNatFill(w);
    if k >= w {
      Pow2Add(k - w, w);
      MulSwap(n, Pow2(k - w), Pow2(w));
      DivModUnique(n * Pow2(k), Pow2(w), n * Pow2(k - w), 0);
    } else {
      var lo, hi := x[..w - k], x[w - k..];
      assert x == lo + hi;
      ToNatConcat(lo, hi);
      ToNatConcat(Zeros(k), lo);
      ToNatFill(k);
      Pow2Add(w - k, k);
      Spread(ToNat(lo), Pow2(w - k), ToNat(hi), Pow2(k));
      assert ToNat(Zeros(k) + lo) < Pow2(w);
      DivModUnique(n * Pow2(k), Pow2(w), ToNat(hi), Pow2(k) * ToNat(lo));
    }
  }

  lemma MulSwap(n: nat, a: nat, b: nat)
    ensures n * (a * b) == b * (n * a)
  {
  }

  lemma Spread(lo: nat, p: nat, hi: nat, q: nat)
    ensures (lo + p * hi) * q == q * lo + (p * q) * hi
  {
    assert (lo + p * hi) * q == lo * q + (p * hi) * q;
    assert (p * hi) * q == (p * q) * hi;
  }

  lemma {:induction false} ShiftDown(x: Bits, k: nat)
    ensures ToNat(ShiftRight(x, k, false)) == ToNat(x) / Pow2(k)
  {
    if k >= |x| {
      ToNatFill(|x|);
      Pow2Monotone(|x|, k);
      DivModUnique(ToNat(x), Pow2(k), 0, ToNat(x));
    } else {
      ToNatLow(x, k);
      ToNatConcat(x[k..], Zeros(k));
      ToNatFill(k);
    }
  }

  /** An arithmetic shift divides the signed number by a power of two and rounds down. */
  lemma {:induction false} ArithmeticShift(x: Bits, y: Bits)
    requires |x| == |y| > 0
    ensures var q, p := ToInt(Apply(OAshr, x, y)), Pow2(ToNat(y));
      p * q <= ToInt(x) < p * (q + 1)
  {
    SignedShift(x, ToNat(y));
  }

  lemma {:induction false} SignedShift(x: Bits, k: nat)
    requires |x| > 0
    ensures var q, p := ToInt(ShiftRight(x, k, Negative(x))), Pow2(k);
      p * q <= ToInt(x) < p * (q + 1)
  {
    hide ToNat, Pow2, ToInt;
    var w, neg := |x|, Negative(x);
    if k >= w {
      AllSign(x);
      Pow2Monotone(w, k);
    } else {
      assert x == x[..k] + x[k..];
      ShiftedParts(x[..k], x[k..]);
      var q := ToNat(x[k..]) - if neg then Pow2(w - k) else 0;
      assert Pow2(k) * (q + 1) == Pow2(k) * q + Pow2(k);
    }
  }

  lemma {:induction false} AllSign(x: Bits)
    requires |x| > 0
    ensures var r := ToInt(Fill(Negative(x), |x|));
      if Negative(x) then r == -1 && -(Pow2(|x|) as int) <= ToInt(x) < 0 else r == 0 && 0 <= ToInt(x) < Pow2(|x|)
  {
    ToNatFill(|x|);
    hide ToNat, Pow2;
    assert Fill(Negative(x), |x|) == if Negative(x) then Ones(|x|) else Zeros(|x|);
  }

  lemma {:induction false} ShiftedParts(lo: Bits, hi: Bits)
    requires hi != []
    ensures var x := lo + hi; var top := if Negative(hi) then Pow2(|hi|) else 0;
      && Negative(x) == Negative(hi) && ToInt(x) == ToNat(lo) + Pow2(|lo|) * (ToNat(hi) - top)
      && ToInt(hi + Fill(Negative(hi), |lo|)) == ToNat(hi) - top
  {
    hide ToNat, Pow2;
    var x := lo + hi;
    assert Negative(x) == Negative(hi);
    ToNatConcat(lo, hi);
    Pow2Add(|lo|, |hi|);
    SignExtendValue(hi, |lo|);
    Distribute(Pow2(|lo|), ToNat(hi), if Negative(hi) then Pow2(|hi|) else 0);
  }

  lemma Distribute(p: int, a: int, b: int)
    ensures p * (a - b) == p * a - p * b
  {
  }

  /** Signed division: quotient and remainder give back the dividend, and the remainder is smaller
      than the divisor and has the sign of the dividend. Only the quotient need not fit. */
  lemma {:induction false} SignedDivision(x: Bits, y: Bits) returns (q: int)
    requires |x| == |y| > 0 && Divides(OSrem, x, y)
    ensures var r := ToInt(Apply(OSrem, x, y));
      && ToInt(x) == q * ToInt(y) + r && Abs(r) < Abs(ToInt(y)) && (r == 0 || (r < 0 <==> ToInt(x) < 0))
    ensures Divides(OSdiv, x, y) ==> ToInt(Apply(OSdiv, x, y)) == q
  {
    hide ToNat, Pow2, ToInt, Sdiv, Srem, TruncatedQuotient, TruncatedRemainder;
    ToIntZero(y);
    var a, b := ToInt(x), ToInt(y);
    q := TruncatedQuotient(a, b);
    TruncatedDivision(a, b);
    WordRemainder(x, y);
    if Divides(OSdiv, x, y) {
      WordQuotient(x, y);
    }
  }

  /** Division that rounds toward zero. */
  function TruncatedQuotient(a: int, b: int): int
    requires b != 0
  {
    if (a < 0) == (b < 0) then Abs(a) / Abs(b) else -(Abs(a) / Abs(b))
  }

  function TruncatedRemainder(a: int, b: int): int
    requires b != 0
  {
    if a < 0 then -(Abs(a) % Abs(b)) else Abs(a) % Abs(b)
  }

  lemma {:induction false} TruncatedDivision(a: int, b: int)
    requires b != 0
    ensures var q, r := TruncatedQuotient(a, b), TruncatedRemainder(a, b);
      a == q * b + r && Abs(r) < Abs(b) && (r == 0 || (r < 0 <==> a < 0))
  {
    var n, r := Abs(a) / Abs(b), Abs(a) % Abs(b);
    DivisionOf(Abs(a), Abs(b));
    SignsFit(a, b, n, r);
  }

  lemma {:induction false} WordRemainder(x: Bits, y: Bits)
    requires |x| == |y| > 0 && ToInt(y) != 0
    ensures ToInt(Srem(x, y)) == TruncatedRemainder(ToInt(x), ToInt(y))
  {
    SignedRange(x);
    ToIntZero(y);
    hide ToNat, Pow2, FromInt, ToInt;
    var a, b := ToInt(x), ToInt(y);
    QuotientFits(a, b, Pow2(|x| - 1));
    ToFromInt(TruncatedRemainder(a, b), |x|);
  }

  lemma {:induction false} WordQuotient(x: Bits, y: Bits)
    requires |x| == |y| > 0 && ToInt(y) != 0 && Divides(OSdiv, x, y)
    ensures ToInt(Sdiv(x, y)) == TruncatedQuotient(ToInt(x), ToInt(y))
  {
    SignedRange(x);
    ToIntZero(y);
    SpecialWords(x);
    SpecialWords(y);
    var a, b, p: int := ToInt(x), ToInt(y), Pow2(|x| - 1);
    assert !(a == -p && b == -1);
    QuotientIs(x, y);
    hide ToNat, Pow2, FromInt, ToInt, IsSMin, Divides, Sdiv, TruncatedQuotient;
    QuotientInRange(a, b, p);
    ToFromInt(TruncatedQuotient(a, b), |x|);
  }

  lemma QuotientIs(x: Bits, y: Bits)
    requires |x| == |y| > 0 && ToNat(y) != 0 && ToInt(y) != 0
    ensures Sdiv(x, y) == FromInt(TruncatedQuotient(ToInt(x), ToInt(y)), |x|)
  {
    hide ToNat, Pow2, FromInt, ToInt;
  }

  lemma {:induction false} QuotientInRange(a: int, b: int, p: int)
    requires b != 0 && -p <= a < p && !(a == -p && b == -1)
    ensures -p <= TruncatedQuotient(a, b) < p
  {
    QuotientFits(a, b, p);
  }

  lemma {:induction false} SpecialWords(x: Bits)
    requires |x| > 0
    ensures IsSMin(x) <==> ToInt(x) == -(Pow2(|x| - 1) as int)
    ensures x == Ones(|x|) <==> ToInt(x) == -1
  {
    var w := |x|;
    var least := Zeros(w - 1) + [true];
    ToNatConcat(Zeros(w - 1), [true]);
    ToNatFill(w - 1);
    ToNatFill(w);
    assert ToNat([true]) == 1 by { assert [true][1..] == []; }
    assert ToInt(least) == -(Pow2(w - 1) as int) && ToInt(Ones(w)) == -1;
    if ToInt(x) == ToInt(least) {
      ToIntInjective(x, least);
    }
    if ToInt(x) == -1 {
      ToIntInjective(x, Ones(w));
    }
  }

  lemma {:induction false} QuotientFits(a: int, b: int, p: int)
    requires b != 0 && -p <= a < p
    ensures var n, r := Abs(a) / Abs(b), Abs(a) % Abs(b);
      && n <= p && r <= Abs(a) && (n == p ==> a == -p && (b == 1 || b == -1))
  {
    var n, r, d := Abs(a) / Abs(b), Abs(a) % Abs(b), Abs(b);
    assert Abs(a) == d * n + r;
    QuotientBelow(Abs(a), d);
    if d > 1 {
      MulMonotone(n, 2, d);
      assert n * d == d * n;
    }
  }

  lemma SignsFit(a: int, b: int, n: nat, r: nat)
    requires b != 0 && Abs(a) == n * Abs(b) + r
    ensures a == (if (a < 0) == (b < 0) then n else -(n as int)) * b + (if a < 0 then -(r as int) else r)
  {
    assert n * (-b) == -(n * b) && (-(n as int)) * b == -(n * b);
  }
}

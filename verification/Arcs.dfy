/** Ranges of bit-vectors that may wrap around, and when the values in two of them compare the
    same way whatever they are. */
module Arcs {
  import opened Bits
  import opened BitLaws

  // ---- Numbers modulo `n` ----

  /** The `s` numbers from `b` on. */
  predicate In(n: nat, b: nat, s: nat, t: nat) {
    (if t >= b then t - b else t - b + n) < s
  }

  predicate IsArc(n: nat, b: nat, s: nat) {
    b < n && 1 <= s <= n
  }

  function LowestIn(n: nat, b: nat, s: nat): nat {
    if b + s > n then 0 else b
  }

  function HighestIn(n: nat, b: nat, s: nat): nat
    requires n > 0 && s > 0
  {
    if b + s > n then n - 1 else b + s - 1
  }

  lemma ArcBounds(n: nat, b: nat, s: nat, t: nat)
    requires IsArc(n, b, s) && t < n
    ensures In(n, b, s, t) ==> LowestIn(n, b, s) <= t <= HighestIn(n, b, s)
    ensures LowestIn(n, b, s) < n && HighestIn(n, b, s) < n
    ensures In(n, b, s, LowestIn(n, b, s)) && In(n, b, s, HighestIn(n, b, s))
  {
  }

  /** Two arcs meet iff one contains the start of the other. */
  lemma ArcsMeet(n: nat, b: nat, s: nat, c: nat, u: nat, t: nat)
    requires IsArc(n, b, s) && IsArc(n, c, u) && t < n
    ensures In(n, b, s, t) && In(n, c, u, t) ==> In(n, b, s, c) || In(n, c, u, b)
    ensures In(n, b, s, b)
  {
  }

  lemma AnotherIn(n: nat, b: nat, s: nat, t: nat) returns (r: nat)
    requires IsArc(n, b, s) && s > 1 && t < n
    ensures r < n && r != t && In(n, b, s, r)
  {
    r := if t != b then b else if b + 1 < n then b + 1 else 0;
  }

  // ---- Comparisons ----

  datatype Kind = KEq | KSle | KUle

  predicate Rel(k: Kind, x: Bits, y: Bits)
    requires |x| == |y| > 0
  {
    match k
    case KEq => x == y
    case KSle => Sle(x, y)
    case KUle => Ule(x, y)
  }

  /** The place of a value in the order that a comparison uses. */
  function Place(k: Kind, x: Bits): (r: nat)
    requires |x| > 0
    ensures r < Pow2(|x|)
  {
    var half := Pow2(|x| - 1);
    if k != KSle then ToNat(x) else if ToNat(x) < half then ToNat(x) + half else ToNat(x) - half
  }

  lemma {:induction false} SignIs(x: Bits)
    requires |x| > 0
    ensures Negative(x) <==> ToNat(x) >= Pow2(|x| - 1)
    ensures Pow2(|x|) == 2 * Pow2(|x| - 1)
  {
    var n := |x| - 1;
    assert x == x[..n] + [x[n]];
    ToNatConcat(x[..n], [x[n]]);
    assert ToNat([x[n]]) == if x[n] then 1 else 0 by { assert [x[n]][1..] == []; }
    hide ToNat;
    assert Pow2(n) * 1 == Pow2(n) && Pow2(n) * 0 == 0;
  }

  lemma {:induction false} RelPlace(k: Kind, x: Bits, y: Bits)
    requires |x| == |y| > 0
    ensures k != KEq ==> (Rel(k, x, y) <==> Place(k, x) <= Place(k, y))
    ensures Place(k, x) == Place(k, y) <==> x == y
  {
    SignIs(x);
    SignIs(y);
    hide ToNat, Pow2, Negative;
    if ToNat(x) == ToNat(y) {
      ToNatInjective(x, y);
    }
  }

  lemma {:induction false} Placed(k: Kind, n: nat, w: nat) returns (x: Bits)
    requires w > 0 && n < Pow2(w)
    ensures |x| == w && Place(k, x) == n
  {
    var half := Pow2(w - 1);
    var v := if k != KSle then n else if n < half then n + half else n - half;
    assert Pow2(w) == 2 * half;
    x := FromNat(v, w);
    ToFromNat(v, w);
    hide ToNat, Pow2, FromNat;
  }

  // ---- Ranges ----

  /** The values from `base` on, two to the `span` of them. */
  datatype Range = Range(base: Bits, span: nat)

  predicate IsRange(r: Range, w: nat) {
    |r.base| == w > 0 && r.span <= w
  }

  predicate Contains(r: Range, t: Bits)
    requires |t| == |r.base|
  {
    In(Pow2(|t|), ToNat(r.base), Pow2(r.span), ToNat(t))
  }

  /** One value, or all of them. */
  lemma {:induction false} Extremes(r: Range, t: Bits)
    requires IsRange(r, |t|)
    ensures r.span == 0 ==> (Contains(r, t) <==> t == r.base)
    ensures r.span == |t| ==> Contains(r, t)
    ensures Contains(r, r.base)
  {
    assert Pow2(0) == 1;
    hide Pow2, ToNat;
    if ToNat(t) == ToNat(r.base) {
      ToNatInjective(t, r.base);
    }
  }

  /** The values are the base plus what fits into the span. */
  lemma {:induction false} SumIn(base: Bits, u: Bits)
    requires |u| <= |base|
    ensures Contains(Range(base, |u|), Add(base, u + Zeros(|base| - |u|)))
  {
    hide ToNat, Pow2, FromNat, Mod;
    var w := |base|;
    var p := Pow2(w);
    Padded(u, w);
    Pow2Monotone(|u|, w);
    var s := ToNat(base) + ToNat(u);
    ToNatTruncate(s, w);
    if s < p {
      ModSmall(s, p);
    } else {
      ModOver(s, p);
    }
  }

  lemma {:induction false} InIsSum(base: Bits, span: nat, t: Bits) returns (u: Bits)
    requires IsRange(Range(base, span), |t|) && Contains(Range(base, span), t)
    ensures |u| == span && Add(base, u + Zeros(|base| - span)) == t
  {
    hide ToNat, Pow2, FromNat, Mod;
    var w := |base|;
    var p := Pow2(w);
    var d := if ToNat(t) >= ToNat(base) then ToNat(t) - ToNat(base) else ToNat(t) - ToNat(base) + p;
    u := FromNat(d, span);
    ToFromNat(d, span);
    Padded(u, w);
    var s := ToNat(base) + d;
    ToNatTruncate(s, w);
    if s < p {
      ModSmall(s, p);
    } else {
      ModOver(s, p);
    }
    ToNatInjective(Add(base, u + Zeros(w - span)), t);
  }

  lemma {:induction false} Padded(u: Bits, w: nat)
    requires |u| <= w
    ensures ToNat(u + Zeros(w - |u|)) == ToNat(u)
  {
    hide Pow2, ToNat;
    ToNatConcat(u, Zeros(w - |u|));
    ToNatFill(w - |u|);
    assert Pow2(|u|) * 0 == 0;
  }

  lemma ModOver(s: nat, p: nat)
    requires p <= s < 2 * p
    ensures Mod(s, p) == s - p
  {
    DivModUnique(s, p, 1, s - p);
  }

  lemma {:induction false} PlaceContains(k: Kind, r: Range, t: Bits)
    requires IsRange(r, |t|)
    ensures IsArc(Pow2(|t|), Place(k, r.base), Pow2(r.span))
    ensures Contains(r, t) <==> In(Pow2(|t|), Place(k, r.base), Pow2(r.span), Place(k, t))
  {
    Pow2Monotone(r.span, |t|);
    assert Pow2(|t|) == 2 * Pow2(|t| - 1);
    hide Pow2, ToNat;
  }

  function Lowest(k: Kind, r: Range): nat
    requires |r.base| > 0
  {
    LowestIn(Pow2(|r.base|), Place(k, r.base), Pow2(r.span))
  }

  function Highest(k: Kind, r: Range): nat
    requires |r.base| > 0
  {
    HighestIn(Pow2(|r.base|), Place(k, r.base), Pow2(r.span))
  }

  /** Whatever values the ranges have, the comparison comes out the same: for equality there is
      only one value on each side or the ranges have none in common, and for an order all of one
      range comes before the other. */
  predicate Decided(k: Kind, a: Range, b: Range)
    requires |a.base| == |b.base| > 0
  {
    if k == KEq then (a.span == 0 && b.span == 0) || (!Contains(a, b.base) && !Contains(b, a.base))
    else Highest(k, a) <= Lowest(k, b) || Highest(k, b) < Lowest(k, a)
  }

  lemma {:induction false} DecidedSame(k: Kind, a: Range, b: Range, x: Bits, y: Bits, x': Bits, y': Bits)
    requires |x| == |y| == |x'| == |y'| && IsRange(a, |x|) && IsRange(b, |x|) && Decided(k, a, b)
    requires Contains(a, x) && Contains(b, y) && Contains(a, x') && Contains(b, y')
    ensures Rel(k, x, y) == Rel(k, x', y')
  {
    if k == KEq {
      NeverEqual(a, b, x, y);
      NeverEqual(a, b, x', y');
    } else {
      InRange(k, a, x);
      InRange(k, a, x');
      InRange(k, b, y);
      InRange(k, b, y');
      hide Rel, Place, Lowest, Highest, Contains;
      RelPlace(k, x, y);
      RelPlace(k, x', y');
    }
  }

  lemma {:induction false} NeverEqual(a: Range, b: Range, x: Bits, y: Bits)
    requires |x| == |y| && IsRange(a, |x|) && IsRange(b, |x|) && Decided(KEq, a, b) && Contains(a, x) && Contains(b, y)
    ensures if a.span == 0 && b.span == 0 then x == a.base && y == b.base else x != y
  {
    Extremes(a, x);
    Extremes(b, y);
    PlaceContains(KUle, a, b.base);
    PlaceContains(KUle, b, a.base);
    hide Pow2, ToNat;
    ArcsMeet(Pow2(|x|), ToNat(a.base), Pow2(a.span), ToNat(b.base), Pow2(b.span), ToNat(x));
  }

  lemma {:induction false} InRange(k: Kind, r: Range, t: Bits)
    requires IsRange(r, |t|) && Contains(r, t)
    ensures Lowest(k, r) <= Place(k, t) <= Highest(k, r)
  {
    hide Pow2, ToNat, Place, Contains;
    PlaceContains(k, r, t);
    ArcBounds(Pow2(|t|), Place(k, r.base), Pow2(r.span), Place(k, t));
  }

  /** Otherwise it comes out both ways. */
  lemma {:induction false} Undecided(k: Kind, a: Range, b: Range) returns (x: Bits, y: Bits, x': Bits, y': Bits)
    requires |a.base| == |b.base| && IsRange(a, |a.base|) && IsRange(b, |a.base|) && !Decided(k, a, b)
    ensures |x| == |y| == |x'| == |y'| == |a.base|
    ensures Contains(a, x) && Contains(b, y) && Contains(a, x') && Contains(b, y')
    ensures Rel(k, x, y) && !Rel(k, x', y')
  {
    if k == KEq {
      x := if Contains(a, b.base) then b.base else a.base;
      y := x;
      Extremes(a, a.base);
      Extremes(b, b.base);
      if a.span > 0 {
        x' := OtherIn(a, x);
        y' := y;
      } else {
        x' := x;
        y' := OtherIn(b, y);
      }
    } else {
      hide Rel, Lowest, Highest, Decided;
      x := LowestOf(k, a);
      y := HighestOf(k, b);
      x' := HighestOf(k, a);
      y' := LowestOf(k, b);
      RelPlace(k, x, y);
      RelPlace(k, x', y');
      OrderUndecided(k, a, b);
    }
  }

  lemma OrderUndecided(k: Kind, a: Range, b: Range)
    requires |a.base| == |b.base| > 0 && k != KEq && !Decided(k, a, b)
    ensures Lowest(k, a) <= Highest(k, b) && Highest(k, a) > Lowest(k, b)
  {
  }

  lemma {:induction false} OtherIn(r: Range, t: Bits) returns (u: Bits)
    requires IsRange(r, |t|) && r.span > 0
    ensures |u| == |t| && u != t && Contains(r, u)
  {
    PlaceContains(KUle, r, t);
    assert Pow2(r.span) == 2 * Pow2(r.span - 1);
    hide Pow2, ToNat;
    var n := AnotherIn(Pow2(|t|), ToNat(r.base), Pow2(r.span), ToNat(t));
    u := Placed(KUle, n, |t|);
  }

  lemma {:induction false} LowestOf(k: Kind, r: Range) returns (t: Bits)
    requires IsRange(r, |r.base|)
    ensures |t| == |r.base| && Contains(r, t) && Place(k, t) == Lowest(k, r)
  {
    hide Pow2, ToNat, Place, Contains;
    PlaceContains(k, r, r.base);
    ArcBounds(Pow2(|r.base|), Place(k, r.base), Pow2(r.span), 0);
    t := Placed(k, Lowest(k, r), |r.base|);
    PlaceContains(k, r, t);
  }

  lemma {:induction false} HighestOf(k: Kind, r: Range) returns (t: Bits)
    requires IsRange(r, |r.base|)
    ensures |t| == |r.base| && Contains(r, t) && Place(k, t) == Highest(k, r)
  {
    hide Pow2, ToNat, Place, Contains;
    PlaceContains(k, r, r.base);
    ArcBounds(Pow2(|r.base|), Place(k, r.base), Pow2(r.span), 0);
    t := Placed(k, Highest(k, r), |r.base|);
    PlaceContains(k, r, t);
  }
}

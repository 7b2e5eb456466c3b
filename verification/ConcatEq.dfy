/** Comparing two concatenations that are not split at the same places. */
module ConcatEq {
  import opened Bits
  import opened Terms

  /** An argument of a concatenation: a constant, or a term that may have any value. */
  datatype Part = Const(bits: Bits) | Free(width: nat)

  function Span(p: Part): (n: nat) {
    if p.Const? then |p.bits| else p.width
  }

  /** Where an argument starts, counted from the highest bit. */
  function Start(parts: seq<Part>, k: nat): nat
    requires k <= |parts|
  {
    if k == 0 then 0 else Start(parts, k - 1) + Span(parts[k - 1])
  }

  /** `n` bits of a word from `start` on, counted from the highest bit. */
  function Cut(word: Bits, start: nat, n: nat): Bits {
    if start + n <= |word| then word[|word| - start - n..|word| - start] else []
  }

  /** The concatenation can have this value: the constants are where they must be. */
  ghost predicate Fits(parts: seq<Part>, word: Bits) {
    && |word| == Start(parts, |parts|)
    && forall k :: 0 <= k < |parts| && parts[k].Const? ==> parts[k].bits == Cut(word, Start(parts, k), Span(parts[k]))
  }

  /** Whether the comparison of two arguments that start at `ls` and `rs` comes out false. */
  predicate Differ(lhs: Part, ls: nat, rhs: Part, rs: nat) {
    && lhs.Const? && rhs.Const?
    && var l, r := |lhs.bits|, |rhs.bits|;
       if ls == rs && l == r then lhs.bits != rhs.bits
       else if rs <= ls < rs + r then
         var overlap := if r - (ls - rs) < l then r - (ls - rs) else l;
         lhs.bits[l - overlap..] != rhs.bits[..overlap]
       else if ls <= rs < ls + l then
         var overlap := if l - (rs - ls) < r then l - (rs - ls) else r;
         lhs.bits[..overlap] != rhs.bits[r - overlap..]
       else false
  }

  ghost predicate DifferAt(l: seq<Part>, r: seq<Part>, i: nat) {
    i < |l| && i < |r| && Differ(l[i], Start(l, i), r[i], Start(r, i))
  }

  ghost predicate Refuted(l: seq<Part>, r: seq<Part>) {
    |l| == |r| && exists i :: 0 <= i < |l| && DifferAt(l, r, i)
  }

  /** Whether some pair of arguments shows the concatenations to be different. */
  method Refute(l: seq<Part>, r: seq<Part>) returns (no: bool)
    ensures no <==> Refuted(l, r)
  {
    hide Differ;
    no := false;
    if |l| != |r| {
      return;
    }
    var ls, rs := 0, 0;
    for i := 0 to |l|
      invariant ls == Start(l, i) && rs == Start(r, i)
      invariant no <==> exists j :: 0 <= j < i && DifferAt(l, r, j)
    {
      assert DifferAt(l, r, i) == Differ(l[i], ls, r[i], rs);
      no := no || Differ(l[i], ls, r[i], rs);
      ls, rs := ls + Span(l[i]), rs + Span(r[i]);
    }
  }

  /** One constant ends before the other although it does not start before it. */
  predicate EndsInside(inner: Part, start: nat, outer: Part, from: nat) {
    inner.Const? && outer.Const? && from <= start && start + Span(inner) < from + Span(outer)
  }

  predicate Misplaced(lhs: Part, ls: nat, rhs: Part, rs: nat) {
    EndsInside(lhs, ls, rhs, rs) || (ls < rs && EndsInside(rhs, rs, lhs, ls))
  }

  ghost predicate Nested(l: seq<Part>, r: seq<Part>) {
    |l| == |r| && exists i :: 0 <= i < |l| && Misplaced(l[i], Start(l, i), r[i], Start(r, i))
  }

  lemma {:induction false} StartGrows(parts: seq<Part>, j: nat, k: nat)
    requires j < k <= |parts|
    ensures Start(parts, j) + Span(parts[j]) <= Start(parts, k)
  {
    if j + 1 < k {
      StartGrows(parts, j, k - 1);
    }
  }

  lemma {:induction false} CutWithin(word: Bits, start: nat, n: nat, i: nat, k: nat)
    requires start + n <= |word| && i + k <= n
    ensures |Cut(word, start, n)| == n
    ensures Cut(word, start, n)[n - i - k..n - i] == Cut(word, start + i, k)
  {
  }

  /** The constants have different bits at place `q`, counted from the highest bit of the word. */
  predicate DifferentBit(lhs: Part, ls: nat, rhs: Part, rs: nat, q: nat) {
    && lhs.Const? && ls <= q < ls + |lhs.bits| && rhs.Const? && rs <= q < rs + |rhs.bits|
    && lhs.bits[|lhs.bits| - 1 - (q - ls)] != rhs.bits[|rhs.bits| - 1 - (q - rs)]
  }

  /** Constants that do not end inside each other are found to differ iff they have different bits at
      some place. */
  lemma {:induction false} DifferExact(lhs: Part, ls: nat, rhs: Part, rs: nat)
    requires !Misplaced(lhs, ls, rhs, rs)
    ensures Differ(lhs, ls, rhs, rs) <==> exists q :: DifferentBit(lhs, ls, rhs, rs, q)
  {
    if lhs.Const? && rhs.Const? {
      var l, r := |lhs.bits|, |rhs.bits|;
      if rs <= ls < rs + r {
        FirstInside(lhs.bits, ls, rhs.bits, rs);
      } else if ls < rs < ls + l {
        FirstInside(rhs.bits, rs, lhs.bits, ls);
        assert forall q :: DifferentBit(rhs, rs, lhs, ls, q) <==> DifferentBit(lhs, ls, rhs, rs, q);
      }
    }
  }

  lemma {:induction false} FirstInside(a: Bits, s: nat, b: Bits, from: nat)
    requires from <= s < from + |b| <= s + |a|
    ensures var overlap := |b| - (s - from);
      a[|a| - overlap..] != b[..overlap] <==> exists q :: DifferentBit(Const(a), s, Const(b), from, q)
  {
    var overlap := |b| - (s - from);
    var x, y := a[|a| - overlap..], b[..overlap];
    if x != y {
      var k :| 0 <= k < overlap && x[k] != y[k];
      assert DifferentBit(Const(a), s, Const(b), from, s + overlap - 1 - k);
    }
    if q :| DifferentBit(Const(a), s, Const(b), from, q) {
      var k := s + overlap - 1 - q;
      assert x[k] != y[k];
    }
  }

  /** Compared at the place where they overlap, constants of one word agree. */
  lemma {:induction false} AgreeInPlace(word: Bits, lhs: Part, ls: nat, rhs: Part, rs: nat)
    requires lhs.Const? && ls + Span(lhs) <= |word| && lhs.bits == Cut(word, ls, Span(lhs))
    requires rhs.Const? && rs + Span(rhs) <= |word| && rhs.bits == Cut(word, rs, Span(rhs))
    requires !Misplaced(lhs, ls, rhs, rs)
    ensures !Differ(lhs, ls, rhs, rs)
  {
    hide Cut;
    var l, r := Span(lhs), Span(rhs);
    if ls == rs && l == r {
    } else if rs <= ls < rs + r {
      OverlapAgrees(word, ls, l, rs, r);
    } else if ls < rs < ls + l {
      OverlapAgrees(word, rs, r, ls, l);
    } else {
      assert ls == rs ==> r == 0;
    }
  }

  /** A part that starts inside another and does not end before it. */
  lemma {:induction false} OverlapAgrees(word: Bits, s: nat, n: nat, from: nat, m: nat)
    requires from <= s < from + m <= s + n <= |word|
    ensures |Cut(word, s, n)| == n && |Cut(word, from, m)| == m
    ensures var overlap := m - (s - from); Cut(word, s, n)[n - overlap..] == Cut(word, from, m)[..overlap]
  {
    CutWithin(word, s, n, 0, m - (s - from));
    CutWithin(word, from, m, s - from, m - (s - from));
  }

  /** Without nested constants, concatenations shown to be different have no common value. */
  lemma {:induction false} RefutedRight(l: seq<Part>, r: seq<Part>, word: Bits)
    requires !Nested(l, r) && Fits(l, word) && Fits(r, word)
    ensures !Refuted(l, r)
  {
    if Refuted(l, r) {
      var i :| 0 <= i < |l| && DifferAt(l, r, i);
      StartGrows(l, i, |l|);
      StartGrows(r, i, |r|);
      AgreeInPlace(word, l[i], Start(l, i), r[i], Start(r, i));
    }
  }

  // ---- Nested constants ----

  /** The same arguments up to the values of the constants. */
  ghost predicate SameLayout(p: seq<Part>, q: seq<Part>) {
    |p| == |q| && forall k :: 0 <= k < |p| ==> p[k].Const? == q[k].Const? && Span(p[k]) == Span(q[k])
  }

  lemma {:induction false} SameStart(p: seq<Part>, q: seq<Part>, k: nat)
    requires SameLayout(p, q) && k <= |p|
    ensures Start(p, k) == Start(q, k)
  {
    if k > 0 {
      SameStart(p, q, k - 1);
    }
  }

  /** The constants are those of a word. */
  function Filled(parts: seq<Part>, word: Bits): (p: seq<Part>)
    requires |word| == Start(parts, |parts|)
    ensures |p| == |parts|
  {
    seq(|parts|, k requires 0 <= k < |parts| =>
      if parts[k].Const? then Const(Cut(word, Start(parts, k), Span(parts[k]))) else parts[k])
  }

  lemma {:induction false} FilledFits(parts: seq<Part>, word: Bits)
    requires |word| == Start(parts, |parts|)
    ensures SameLayout(Filled(parts, word), parts) && Fits(Filled(parts, word), word)
  {
    var p := Filled(parts, word);
    forall k | 0 <= k < |parts|
      ensures p[k].Const? == parts[k].Const? && Span(p[k]) == Span(parts[k])
    {
      StartGrows(parts, k, |parts|);
    }
    forall k | 0 <= k <= |parts|
      ensures Start(p, k) == Start(parts, k)
    {
      SameStart(p, parts, k);
    }
  }

  /** A word with a single one, `place` bits from the top. */
  function OneBit(n: nat, place: nat): (w: Bits)
    requires place < n
    ensures |w| == n && forall k :: 0 <= k < n ==> w[k] == (k == n - 1 - place)
  {
    seq(n, k => k == n - 1 - place)
  }

  /** The last bits of the outer constant are taken for those that the inner one overlaps. */
  lemma {:induction false} NestedDiffer(n: nat, lhs: Part, ls: nat, rhs: Part, rs: nat)
    requires Misplaced(lhs, ls, rhs, rs) && 0 < Span(lhs) && 0 < Span(rhs) && ls + Span(lhs) <= n && rs + Span(rhs) <= n
    ensures var word := OneBit(n, if EndsInside(lhs, ls, rhs, rs) then ls else rs);
      Differ(Const(Cut(word, ls, Span(lhs))), ls, Const(Cut(word, rs, Span(rhs))), rs)
  {
    var l, r := Span(lhs), Span(rhs);
    if EndsInside(lhs, ls, rhs, rs) {
      var word := OneBit(n, ls);
      assert Cut(word, ls, l)[l - l..][l - 1] && !Cut(word, rs, r)[..l][l - 1];
    } else {
      var word := OneBit(n, rs);
      assert !Cut(word, ls, l)[..r][r - 1] && Cut(word, rs, r)[r - r..][r - 1];
    }
  }

  ghost predicate Wrong(l: seq<Part>, r: seq<Part>, l': seq<Part>, r': seq<Part>, word: Bits) {
    SameLayout(l', l) && SameLayout(r', r) && Refuted(l', r') && Fits(l', word) && Fits(r', word)
  }

  /** Nested constants can be such that concatenations with a common value are shown to be
      different. */
  lemma {:induction false} NestedWrong(l: seq<Part>, r: seq<Part>) returns (l': seq<Part>, r': seq<Part>, word: Bits)
    requires Start(l, |l|) == Start(r, |r|) && Nested(l, r)
    requires forall p :: p in l || p in r ==> 0 < Span(p)
    ensures Wrong(l, r, l', r', word)
  {
    var i :| 0 <= i < |l| && Misplaced(l[i], Start(l, i), r[i], Start(r, i));
    var ls, rs, n := Start(l, i), Start(r, i), Start(l, |l|);
    StartGrows(l, i, |l|);
    StartGrows(r, i, |r|);
    word := OneBit(n, if EndsInside(l[i], ls, r[i], rs) then ls else rs);
    NestedDiffer(n, l[i], ls, r[i], rs);
    l', r' := Filled(l, word), Filled(r, word);
    FilledFits(l, word);
    FilledFits(r, word);
    SameStart(l', l, i);
    SameStart(r', r, i);
    assert DifferAt(l', r', i);
  }

  /** The rule is right for all constants in two layouts iff no constant is nested in its
      counterpart so that it ends before it. */
  lemma {:induction false} RuleRight(l: seq<Part>, r: seq<Part>)
    requires Start(l, |l|) == Start(r, |r|)
    requires forall p :: p in l || p in r ==> 0 < Span(p)
    ensures (forall l', r', word :: !Wrong(l, r, l', r', word)) <==> !Nested(l, r)
  {
    if Nested(l, r) {
      var l', r', word := NestedWrong(l, r);
    } else {
      forall l', r', word
        ensures !Wrong(l, r, l', r', word)
      {
        if SameLayout(l', l) && SameLayout(r', r) {
          SameNesting(l, r, l', r');
          if Fits(l', word) && Fits(r', word) {
            RefutedRight(l', r', word);
          }
        }
      }
    }
  }

  lemma {:induction false} SameNesting(l: seq<Part>, r: seq<Part>, l': seq<Part>, r': seq<Part>)
    requires SameLayout(l', l) && SameLayout(r', r) && !Nested(l, r)
    ensures !Nested(l', r')
  {
    if Nested(l', r') {
      var i :| 0 <= i < |l'| && Misplaced(l'[i], Start(l', i), r'[i], Start(r', i));
      SameStart(l', l, i);
      SameStart(r', r, i);
      assert Misplaced(l[i], Start(l, i), r[i], Start(r, i));
    }
  }

  // ---- Terms ----

  function PartOf(e: Expr): Part
    requires WF(e) && IsBv(e)
  {
    if e.Bv? then Const(e.bits) else Free(Width(e))
  }

  ghost predicate AllBv(args: seq<Expr>) {
    forall k :: 0 <= k < |args| ==> WF(args[k]) && IsBv(args[k])
  }

  function Parts(args: seq<Expr>): (p: seq<Part>)
    requires AllBv(args)
    ensures |p| == |args|
  {
    seq(|args|, k requires 0 <= k < |args| => PartOf(args[k]))
  }

  /** The concatenation of the arguments. */
  function Joined(args: seq<Expr>): (e: Expr)
    requires args != [] && AllBv(args)
    ensures WF(e) && IsBv(e)
  {
    if |args| == 1 then args[0] else Concat(args[0], Joined(args[1..]))
  }

  /** A value of the concatenation fits its arguments. */
  lemma {:induction false} JoinedFits(args: seq<Expr>, m: Model)
    requires args != [] && AllBv(args) && !Eval(Joined(args), m).Undef?
    ensures Eval(Joined(args), m).V? && Fits(Parts(args), Eval(Joined(args), m).bits)
  {
    hide Fits;
    var e := Joined(args);
    EvalSort(e, m);
    EvalSort(args[0], m);
    if |args| == 1 {
      OneFits(args[0], Eval(e, m).bits, m);
      assert Parts(args) == [PartOf(args[0])];
    } else {
      OpenConcat(e, m);
      JoinedFits(args[1..], m);
      MoreFits(args[0], Parts(args[1..]), Eval(args[0], m).bits, Eval(Joined(args[1..]), m).bits, m);
      assert Parts(args) == [PartOf(args[0])] + Parts(args[1..]);
    }
  }

  lemma {:induction false} OneFits(e: Expr, word: Bits, m: Model)
    requires WF(e) && IsBv(e) && Eval(e, m) == V(word)
    ensures Fits([PartOf(e)], word)
  {
    EvalSort(e, m);
    assert Start([PartOf(e)], 1) == Start([PartOf(e)], 0) + Span(PartOf(e));
  }

  lemma {:induction false} MoreFits(e: Expr, parts: seq<Part>, high: Bits, low: Bits, m: Model)
    requires WF(e) && IsBv(e) && Eval(e, m) == V(high) && Fits(parts, low)
    ensures Fits([PartOf(e)] + parts, low + high)
  {
    hide Eval, WF, SortOf, Fits;
    EvalSort(e, m);
    if e.Bv? {
      OpenBv(e, m);
    }
    PartFits(PartOf(e), parts, high, low);
  }

  lemma {:induction false} PartFits(p: Part, parts: seq<Part>, high: Bits, low: Bits)
    requires |high| == Span(p) && (p.Const? ==> p.bits == high) && Fits(parts, low)
    ensures Fits([p] + parts, low + high)
  {
    hide Start, Cut;
    var all, word := [p] + parts, low + high;
    StartShifts(p, parts, |parts|);
    forall k | 0 <= k < |all| && all[k].Const?
      ensures all[k].bits == Cut(word, Start(all, k), Span(all[k]))
    {
      if k > 0 {
        StartGrows(parts, k - 1, |parts|);
        StartShifts(p, parts, k - 1);
        CutBelow(low, high, Start(parts, k - 1), Span(parts[k - 1]));
      } else {
        StartsAtZero(all);
        CutTop(low, high);
      }
    }
  }

  lemma CutBelow(low: Bits, high: Bits, start: nat, n: nat)
    requires start + n <= |low|
    ensures Cut(low + high, |high| + start, n) == Cut(low, start, n)
  {
  }

  lemma CutTop(low: Bits, high: Bits)
    ensures Cut(low + high, 0, |high|) == high
  {
  }

  lemma StartsAtZero(parts: seq<Part>)
    ensures Start(parts, 0) == 0
  {
  }

  lemma {:induction false} StartShifts(p: Part, parts: seq<Part>, k: nat)
    requires k <= |parts|
    ensures Start([p] + parts, k + 1) == Span(p) + Start(parts, k)
  {
    if k > 0 {
      StartShifts(p, parts, k - 1);
    }
  }

  /** Without nested constants, terms shown to be different differ under every valuation. */
  lemma {:induction false} TermsDiffer(l: seq<Expr>, r: seq<Expr>, m: Model)
    requires l != [] && r != [] && AllBv(l) && AllBv(r) && !Nested(Parts(l), Parts(r)) && Refuted(Parts(l), Parts(r))
    requires !Eval(Joined(l), m).Undef? && !Eval(Joined(r), m).Undef?
    ensures Eval(Joined(l), m) != Eval(Joined(r), m)
  {
    hide Eval, WF, SortOf, Fits, Nested, Refuted, Joined, Parts;
    JoinedFits(l, m);
    JoinedFits(r, m);
    if Eval(Joined(l), m) == Eval(Joined(r), m) {
      RefutedRight(Parts(l), Parts(r), Eval(Joined(l), m).bits);
    }
  }

  lemma {:induction false} RefutedExample()
    ensures Refuted([Const([true]), Free(2)], [Const([false, true]), Free(1)])
  {
    var high, low := [true], [false, true];
    assert high[0..][0] != low[..1][0];
    assert DifferAt([Const(high), Free(2)], [Const(low), Free(1)], 0);
  }

  lemma {:induction false} ZeroExample(high: Bits, x: string, w: nat, m: Model)
    requires high != [] && 0 < w && Number(m.nums, x) == 0
    ensures var args := [Bv(high), Var(x, SBv(w))];
      AllBv(args) && Parts(args) == [Const(high), Free(w)] && Eval(Joined(args), m) == V(FromNat(0, w) + high)
  {
    var args := [Bv(high), Var(x, SBv(w))];
    assert Joined(args[1..]) == args[1];
    var e := Joined(args);
    hide Joined;
    assert e == Concat(args[0], args[1]);
  }

  /** Two terms that are equal where both variables are zero, and are shown to be different. */
  lemma {:induction false} EqualButRefuted(m: Model)
    requires Number(m.nums, "x") == 0 && Number(m.nums, "y") == 0
    ensures var l, r := [Bv([true]), Var("x", SBv(2))], [Bv([false, true]), Var("y", SBv(1))];
      && AllBv(l) && AllBv(r) && Refuted(Parts(l), Parts(r))
      && Eval(Joined(l), m) == Eval(Joined(r), m) == V([false, false, true])
  {
    hide Eval, WF, SortOf, Parts, Joined, Refuted, AllBv;
    RefutedExample();
    ZeroExample([true], "x", 2, m);
    ZeroExample([false, true], "y", 1, m);
    assert FromNat(0, 1) == [false] && FromNat(0, 2) == [false, false];
  }
}

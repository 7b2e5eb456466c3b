/** Library functions that loop, encoded by unrolling a bounded number of iterations and
    assuming that no more are needed. */
module LoopApprox {

  /** One iteration: its value, whether it is not poison, whether it is defined, and whether
      the loop goes on. */
  datatype Iteration<T> = Iteration(value: T, nonPoison: bool, defined: bool, goesOn: bool)

  datatype Outcome<T> = Outcome(value: T, nonPoison: bool, defined: bool)

  // ---- The loop without bound ----

  ghost predicate Passes<T>(f: nat -> Iteration<T>, from: nat, to: nat) {
    forall j :: from <= j < to ==> f(j).defined && f(j).goesOn
  }

  /** The loop, entered at `from`, ends without undefined behaviour in iteration `n`. */
  ghost predicate Ends<T>(f: nat -> Iteration<T>, from: nat, n: nat) {
    from <= n && Passes(f, from, n) && f(n).defined && !f(n).goesOn
  }

  ghost predicate NonPoisonUpTo<T>(f: nat -> Iteration<T>, from: nat, n: nat) {
    forall j :: from <= j <= n ==> f(j).nonPoison
  }

  // ---- The encoding ----

  /** `r` is the outcome of the iterations `from` to `count`, unless the loop goes on. */
  ghost predicate Encodes<T>(f: nat -> Iteration<T>, from: nat, count: nat, r: Outcome<T>) {
    && (r.defined <==> (exists n: nat :: n < count && Ends(f, from, n)) || Passes(f, from, count))
    && forall n: nat :: n < count && Ends(f, from, n) ==>
      r.value == f(n).value && (r.nonPoison <==> NonPoisonUpTo(f, from, n))
  }

  /** Iteration `i` and those after it. `prefix` says that the loop gets here; `pre` is what
      is assumed. Folding may show that the loop ends in this iteration. */
  method Loop<T>(f: nat -> Iteration<T>, prefix: bool, i: nat, count: nat) returns (r: Outcome<T>, pre: bool)
    requires i < count
    ensures pre <==> !(prefix && Passes(f, i, count))
    ensures Encodes(f, i, count, r)
    decreases count - i
  {
    var isLast := i == count - 1;
    var it := f(i);
    var prefix' := prefix && it.defined;
    pre := true;
    if isLast {
      pre := prefix' ==> !it.goesOn;
    }
    var foldEnd, foldUb := *, *;
    if isLast || (foldEnd && !it.goesOn) || (foldUb && !it.defined) {
      r := Outcome(it.value, it.nonPoison, it.defined);
      EndsHere(f, i, count, r);
      return;
    }
    var next, nextPre := Loop(f, prefix' && it.goesOn, i + 1, count);
    pre := nextPre;
    r := Outcome(if it.goesOn then next.value else it.value,
                 it.nonPoison && (it.goesOn ==> next.nonPoison),
                 it.defined && (it.goesOn ==> next.defined));
    GoesOn(f, i, count, next, r);
  }

  lemma EndsHere<T>(f: nat -> Iteration<T>, i: nat, count: nat, r: Outcome<T>)
    requires i < count && r == Outcome(f(i).value, f(i).nonPoison, f(i).defined)
    requires i == count - 1 || !f(i).goesOn || !f(i).defined
    ensures Encodes(f, i, count, r)
  {
    if r.defined && !f(i).goesOn {
      assert Ends(f, i, i);
    }
    forall n: nat | n < count && Ends(f, i, n)
      ensures n == i
    {
      assert n > i ==> f(i).defined && f(i).goesOn;
    }
  }

  lemma GoesOn<T>(f: nat -> Iteration<T>, i: nat, count: nat, next: Outcome<T>, r: Outcome<T>)
    requires i + 1 < count && Encodes(f, i + 1, count, next)
    requires r == Outcome(if f(i).goesOn then next.value else f(i).value,
                          f(i).nonPoison && (f(i).goesOn ==> next.nonPoison),
                          f(i).defined && (f(i).goesOn ==> next.defined))
    ensures Encodes(f, i, count, r)
    ensures Passes(f, i, count) <==> f(i).defined && f(i).goesOn && Passes(f, i + 1, count)
  {
    if f(i).defined && f(i).goesOn {
      forall n: nat
        ensures n > i && Ends(f, i, n) <==> Ends(f, i + 1, n)
      {
        assert n > i ==> (Passes(f, i, n) <==> Passes(f, i + 1, n));
      }
      if next.defined && !Passes(f, i + 1, count) {
        var n: nat :| n < count && Ends(f, i + 1, n);
        assert Ends(f, i, n);
      }
    } else {
      EndsAtOnce(f, i, count, r);
    }
  }

  lemma EndsAtOnce<T>(f: nat -> Iteration<T>, i: nat, count: nat, r: Outcome<T>)
    requires i < count && !(f(i).defined && f(i).goesOn)
    requires r.defined == f(i).defined && (f(i).defined ==> r.value == f(i).value && r.nonPoison == f(i).nonPoison)
    ensures Encodes(f, i, count, r)
  {
    if f(i).defined {
      assert Ends(f, i, i);
    }
    forall n: nat | n < count && Ends(f, i, n)
      ensures n == i && f(i).defined
    {
      assert n > i ==> f(i).defined && f(i).goesOn;
    }
  }

  lemma EndsInside<T>(f: nat -> Iteration<T>, count: nat, n: nat)
    requires !Passes(f, 0, count) && Ends(f, 0, n)
    ensures n < count
  {
    var k :| 0 <= k < count && !(f(k).defined && f(k).goesOn);
  }

  /** The encoding is exact: what it assumes excludes just the loops that go on past the bound,
      and otherwise it is defined iff the loop without bound ends without undefined behaviour,
      with the value of the last iteration, and not poison iff no iteration was. */
  method Encode<T>(f: nat -> Iteration<T>, count: nat) returns (r: Outcome<T>, pre: bool)
    requires count > 0
    ensures pre <==> !Passes(f, 0, count)
    ensures pre ==> (r.defined <==> exists n: nat :: Ends(f, 0, n))
    ensures pre ==> forall n: nat ::
      Ends(f, 0, n) ==> r.value == f(n).value && (r.nonPoison <==> NonPoisonUpTo(f, 0, n))
  {
    r, pre := Loop(f, true, 0, count);
    if pre {
      forall n: nat | Ends(f, 0, n)
        ensures n < count
      {
        EndsInside(f, count, n);
      }
    }
  }

  // ---- strlen ----

  /** A byte read by strlen: whether the read is defined and the value not poison, and the value. */
  datatype Char = Char(defined: bool, value: nat)

  ghost predicate FirstZero(s: nat -> Char, n: nat) {
    s(n).value == 0 && s(n).defined && forall j :: 0 <= j < n ==> s(j).defined && s(j).value != 0
  }

  const STRLEN_UNROLL := 10

  /** The length of a string is the number of characters before the first zero (section
      7.24.6.3 of C11). Strings of ten characters or more are left out. */
  method Strlen(s: nat -> Char) returns (r: nat, defined: bool, pre: bool)
    ensures pre <==> !forall j :: 0 <= j < STRLEN_UNROLL ==> s(j).defined && s(j).value != 0
    ensures pre ==> (defined <==> exists n: nat :: FirstZero(s, n))
    ensures pre && defined ==> FirstZero(s, r)
  {
    var f := (i: nat) => Iteration(i, true, s(i).defined, s(i).value != 0);
    var out;
    out, pre := Encode(f, STRLEN_UNROLL);
    r, defined := out.value, out.defined;
    forall n: nat
      ensures FirstZero(s, n) <==> Ends(f, 0, n)
    {
      AsLoop(s, f, n);
    }
    AsLoop(s, f, STRLEN_UNROLL);
  }

  lemma AsLoop(s: nat -> Char, f: nat -> Iteration<nat>, n: nat)
    requires forall i: nat :: f(i).defined == s(i).defined && f(i).goesOn == (s(i).value != 0)
    ensures Passes(f, 0, n) <==> forall j :: 0 <= j < n ==> s(j).defined && s(j).value != 0
  {
    if Passes(f, 0, n) {
      forall j | 0 <= j < n
        ensures s(j).defined && s(j).value != 0
      {
        assert f(j).defined && f(j).goesOn;
      }
    }
  }

  // ---- memcmp ----

  /** A byte read by memcmp: of a pointer with an address or of an integer. */
  datatype Cell = Cell(isPtr: bool, address: nat, number: nat, poison: bool)

  predicate IsZero(c: Cell) {
    if c.isPtr then c.address == 0 else c.number == 0
  }

  /** Equal bytes; a null pointer is equal to zero. */
  predicate Equal(a: Cell, b: Cell) {
    (a.isPtr == b.isPtr && if a.isPtr then a.address == b.address else a.number == b.number) || (IsZero(a) && IsZero(b))
  }

  predicate AtLeast(a: Cell, b: Cell) {
    if a.isPtr then a.address >= b.address else a.number >= b.number
  }

  predicate Comparable(a: Cell, b: Cell) {
    (a.isPtr == b.isPtr || IsZero(a) || IsZero(b)) && !a.poison && !b.poison
  }

  /** What the comparisons mean for two bytes of an integer, two of a pointer, and one of each. */
  lemma {:induction false} CellsCompared(a: Cell, b: Cell)
    ensures !a.isPtr && !b.isPtr ==>
      && (Equal(a, b) <==> a.number == b.number) && (AtLeast(a, b) <==> a.number >= b.number)
      && (Comparable(a, b) <==> !a.poison && !b.poison)
    ensures a.isPtr && b.isPtr ==>
      && (Equal(a, b) <==> a.address == b.address) && (AtLeast(a, b) <==> a.address >= b.address)
      && (Comparable(a, b) <==> !a.poison && !b.poison)
    ensures a.isPtr && !b.isPtr ==>
      && (Equal(a, b) <==> a.address == 0 && b.number == 0) && Equal(a, b) == Equal(b, a)
      && (Comparable(a, b) <==> (a.address == 0 || b.number == 0) && !a.poison && !b.poison)
      && Comparable(a, b) == Comparable(b, a)
  {
  }

  const MEMCMP_UNROLL := 10

  ghost predicate EqualUpTo(p: nat -> Cell, q: nat -> Cell, n: nat) {
    forall j :: 0 <= j < n ==> Equal(p(j), q(j))
  }

  /** Bytes up to `n` are equal and there is a byte `n`. */
  ghost predicate FirstDifference(p: nat -> Cell, q: nat -> Cell, num: nat, n: nat) {
    n < num && EqualUpTo(p, q, n) && !Equal(p(n), q(n))
  }

  /** Zero iff all `num` bytes agree, else positive iff the first byte that differs is the
      greater one (section 7.24.4.1 of C11); `above` and `below` are arbitrary numbers with these
      signs. For `bcmp` it is just not zero. Comparisons of more than ten bytes are left out if
      ten are equal. */
  method Memcmp(p: nat -> Cell, q: nat -> Cell, num: nat, bcmp: bool, above: int, below: int)
    returns (r: int, nonPoison: bool, pre: bool)
    requires if bcmp then above != 0 else above > 0 > below
    ensures pre <==> !(num > MEMCMP_UNROLL && EqualUpTo(p, q, MEMCMP_UNROLL))
    ensures pre ==> (r == 0 <==> EqualUpTo(p, q, num))
    ensures pre ==> forall n: nat :: FirstDifference(p, q, num, n) ==>
      r == if bcmp || AtLeast(p(n), q(n)) then above else below
    ensures pre && EqualUpTo(p, q, num) ==> (nonPoison <==> forall j :: 0 <= j < num ==> Comparable(p(j), q(j)))
    ensures pre ==> forall n: nat :: FirstDifference(p, q, num, n) ==>
      (nonPoison <==> forall j :: 0 <= j <= n ==> Comparable(p(j), q(j)))
    ensures pre && !bcmp ==> forall n: nat :: FirstDifference(p, q, num, n) ==>
      && (!p(n).isPtr && !q(n).isPtr ==>
        if p(n).number > q(n).number then r > 0 else p(n).number < q(n).number && r < 0)
      && (p(n).isPtr && q(n).isPtr ==>
        if p(n).address > q(n).address then r > 0 else p(n).address < q(n).address && r < 0)
    ensures pre && (forall j :: 0 <= j < num ==> !p(j).isPtr && !q(j).isPtr) ==>
      && (r == 0 <==> forall j :: 0 <= j < num ==> p(j).number == q(j).number)
      && (r == 0 ==> (nonPoison <==> forall j :: 0 <= j < num ==> !p(j).poison && !q(j).poison))
  {
    hide Equal, Comparable, AtLeast;
    var f := (i: nat) => Iteration(
      if Equal(p(i), q(i)) then 0 else if bcmp || AtLeast(p(i), q(i)) then above else below,
      Comparable(p(i), q(i)), true, Equal(p(i), q(i)) && num >= i + 2);
    var out;
    out, pre := Encode(f, MEMCMP_UNROLL);
    r := if num == 0 then 0 else out.value;
    nonPoison := num != 0 ==> out.nonPoison;
    WhenItPasses(p, q, num, f, MEMCMP_UNROLL);
    if num > 0 {
      forall n: nat | FirstDifference(p, q, num, n)
        ensures Ends(f, 0, n)
      {
        WhenItPasses(p, q, num, f, n);
      }
      if EqualUpTo(p, q, num) {
        WhenItPasses(p, q, num, f, num - 1);
        assert Ends(f, 0, num - 1);
      } else {
        var n := FindDifference(p, q, num);
      }
    }
    if pre {
      forall n: nat | FirstDifference(p, q, num, n) && !bcmp
        ensures !p(n).isPtr && !q(n).isPtr ==>
          if p(n).number > q(n).number then r > 0 else p(n).number < q(n).number && r < 0
        ensures p(n).isPtr && q(n).isPtr ==>
          if p(n).address > q(n).address then r > 0 else p(n).address < q(n).address && r < 0
      {
        CellsCompared(p(n), q(n));
      }
      if forall j :: 0 <= j < num ==> !p(j).isPtr && !q(j).isPtr {
        forall j: nat | j < num
          ensures Equal(p(j), q(j)) <==> p(j).number == q(j).number
          ensures Comparable(p(j), q(j)) <==> !p(j).poison && !q(j).poison
        {
          CellsCompared(p(j), q(j));
        }
      }
    }
  }

  lemma WhenItPasses(p: nat -> Cell, q: nat -> Cell, num: nat, f: nat -> Iteration<int>, n: nat)
    requires forall i: nat :: f(i).defined && f(i).goesOn == (Equal(p(i), q(i)) && num >= i + 2)
    ensures Passes(f, 0, n) <==> n == 0 || (EqualUpTo(p, q, n) && num > n)
  {
    if n > 0 && Passes(f, 0, n) {
      assert f(n - 1).goesOn;
    }
  }

  lemma {:induction false} FindDifference(p: nat -> Cell, q: nat -> Cell, num: nat) returns (n: nat)
    requires !EqualUpTo(p, q, num)
    ensures FirstDifference(p, q, num, n)
  {
    n := num - 1;
    if !EqualUpTo(p, q, num - 1) {
      n := FindDifference(p, q, num - 1);
    }
  }
}

/** Functions in static single assignment form, and what running one concretely does.

    Memory is one more name, read and written like a register.  What an instruction
    computes is a term over register and input names; an operation that has no term of
    its own, such as a division, can be the lookup of a table. */
module SymModel {
  import opened Bits
  import opened Terms
  import opened SmartArith

  datatype Target = Bb(n: nat) | Sink

  datatype Instr =
    | Def(reg: string, term: Expr)
    | Require(cond: Expr)
    | SetMemory(term: Expr)
    | Phi(reg: string, incoming: seq<(Expr, nat)>)

  datatype Terminator =
    | Jump(dst: Target)
    | CondJump(cond: Expr, ifTrue: Target, ifFalse: Target)
    | Switch(cond: Expr, cases: seq<(Expr, Target)>, default: Target)
    | Return(val: Expr)
    | Unreachable

  datatype Block = Block(instrs: seq<Instr>, term: Terminator)

  /** `sorts` gives the sort of every register and of the memory, `ret` of what is returned. */
  datatype Fn = Fn(blocks: seq<Block>, sorts: map<string, Sort>, ret: Sort)

  const MEMORY := "memory"

  // ---- Running concretely ----

  /** About to run block `bb`, coming from `prev`; `ok` until behaviour was undefined. */
  datatype Config = Config(bb: nat, prev: nat, env: Model, ok: bool)

  datatype Step = Next(config: Config) | Sunk(env: Model, ok: bool) | Returned(val: Value, env: Model,
      ok: bool) | Stopped

  function Bind(env: Model, x: string, v: Value): Model {
    match v
    case B(b) => env.(bools := env.bools[x := b])
    case V(bits) => env.(nums := env.nums[x := ToNat(bits)])
    case Undef => env
  }

  function Incoming(incoming: seq<(Expr, nat)>, prev: nat): (r: Option<Expr>)
    ensures r.Some? ==> (r.value, prev) in incoming
    ensures r.None? ==> forall i :: 0 <= i < |incoming| ==> incoming[i].1 != prev
  {
    if incoming == [] then None
    else if incoming[0].1 == prev then Some(incoming[0].0)
    else Incoming(incoming[1..], prev)
  }

  /** Phis read what was defined at the end of the previous block. */
  function ExecInstr(i: Instr, c: Config, env: Model, ok: bool): (Model, bool) {
    match i
    case Def(x, e) => (Bind(env, x, Eval(e, env)), ok)
    case Require(e) => (env, ok && Eval(e, env) == B(true))
    case SetMemory(e) => (Bind(env, MEMORY, Eval(e, env)), ok)
    case Phi(x, incoming) =>
      match Incoming(incoming, c.prev)
      case Some(e) => (Bind(env, x, Eval(e, c.env)), ok)
      case None => (env, ok)
  }

  /** After the first `k` instructions. */
  function After(f: Fn, c: Config, k: nat): (Model, bool)
    requires c.bb < |f.blocks| && k <= |f.blocks[c.bb].instrs|
  {
    if k == 0 then (c.env, c.ok)
    else var (env, ok) := After(f, c, k - 1); ExecInstr(f.blocks[c.bb].instrs[k - 1], c, env, ok)
  }

  /** The first case that matches. */
  function Chosen(cases: seq<(Expr, Target)>, v: Value, env: Model, default: Target): Target {
    if cases == [] then default
    else if Eval(cases[0].0, env) == v then cases[0].1
    else Chosen(cases[1..], v, env, default)
  }

  function Goes(t: Terminator, env: Model): Target
    requires t.Jump? || t.CondJump? || t.Switch?
  {
    match t
    case Jump(dst) => dst
    case CondJump(e, ifTrue, ifFalse) => if Eval(e, env) == V([false]) then ifFalse else ifTrue
    case Switch(e, cases, default) => Chosen(cases, Eval(e, env), env, default)
  }

  /** Only blocks further down the order are entered; other jumps end in the sink. */
  function Redirect(f: Fn, src: nat, dst: Target): Target {
    if dst.Bb? && src < dst.n < |f.blocks| then dst else Sink
  }

  function Arrive(f: Fn, src: nat, dst: Target, env: Model, ok: bool): Step {
    match Redirect(f, src, dst)
    case Bb(n) => Next(Config(n, src, env, ok))
    case Sink => Sunk(env, ok)
  }

  function Exec(f: Fn, c: Config): (s: Step)
    requires c.bb < |f.blocks|
    ensures s.Next? ==> c.bb < s.config.bb < |f.blocks| && s.config.prev == c.bb
  {
    var b := f.blocks[c.bb];
    var (env, ok) := After(f, c, |b.instrs|);
    match b.term
    case Return(e) => Returned(Eval(e, env), env, ok)
    case Unreachable => Stopped
    case t => Arrive(f, c.bb, Goes(t, env), env, ok)
  }

  /** How the run from `c` enters block `b`. */
  function Visit(f: Fn, c: Config, b: nat): (r: Option<Config>)
    requires c.bb < |f.blocks|
    ensures r.Some? ==> r.value.bb == b < |f.blocks| && c.bb <= b
    decreases |f.blocks| - c.bb
  {
    if c.bb == b then Some(c)
    else match Exec(f, c)
      case Next(c') => Visit(f, c', b)
      case _ => None
  }

  /** How the run from `c` ends. */
  function Outcome(f: Fn, c: Config): (r: Step)
    requires c.bb < |f.blocks|
    ensures !r.Next?
    decreases |f.blocks| - c.bb
  {
    match Exec(f, c)
    case Next(c') => Outcome(f, c')
    case s => s
  }

  function Start(m: Model): Config {
    Config(0, 0, m, true)
  }

  lemma {:induction false} VisitNext(f: Fn, c: Config, b: nat)
    requires c.bb < |f.blocks| && Visit(f, c, b).Some? && Exec(f, Visit(f, c, b).value).Next?
    ensures var c' := Exec(f, Visit(f, c, b).value).config; Visit(f, c, c'.bb) == Some(c')
    decreases |f.blocks| - c.bb
  {
    hide Eval, After;
    if c.bb != b {
      VisitNext(f, Exec(f, c).config, b);
    }
  }

  lemma {:induction false} VisitPrev(f: Fn, c: Config, b: nat)
    requires c.bb < |f.blocks| && Visit(f, c, b).Some? && b != c.bb
    ensures var p := Visit(f, c, b).value.prev;
      p < b && Visit(f, c, p).Some? && Exec(f, Visit(f, c, p).value) == Next(Visit(f, c, b).value)
    decreases |f.blocks| - c.bb
  {
    hide Eval, After;
    var c' := Exec(f, c).config;
    if c'.bb != b {
      VisitPrev(f, c', b);
    }
  }

  /** A run ends in some block it visits. */
  lemma {:induction false} OutcomeVisited(f: Fn, c: Config) returns (b: nat)
    requires c.bb < |f.blocks|
    ensures b < |f.blocks| && Visit(f, c, b).Some? && Exec(f, Visit(f, c, b).value) == Outcome(f, c)
    decreases |f.blocks| - c.bb
  {
    hide Eval, After;
    if Exec(f, c).Next? {
      b := OutcomeVisited(f, Exec(f, c).config);
    } else {
      b := c.bb;
    }
  }

  // ---- Substituting the terms of registers ----

  function Subst(e: Expr, values: map<string, Expr>): (r: Expr)
    decreases e, 0
  {
    match e
    case Bool(_) => e
    case Bv(_) => e
    case Var(x, s) => if x in values && SortOf(values[x]) == s then values[x] else e
    case Not(a) => Not(Subst(a, values))
    case And(a, b) => And(Subst(a, values), Subst(b, values))
    case Or(a, b) => Or(Subst(a, values), Subst(b, values))
    case Eq(a, b) => Eq(Subst(a, values), Subst(b, values))
    case ULe(a, b) => ULe(Subst(a, values), Subst(b, values))
    case SLe(a, b) => SLe(Subst(a, values), Subst(b, values))
    case Ite(c, t, e) => Ite(Subst(c, values), Subst(t, values), Subst(e, values))
    case Bin(op, a, b) => Bin(op, Subst(a, values), Subst(b, values))
    case BvNot(a) => BvNot(Subst(a, values))
    case Concat(a, b) => Concat(Subst(a, values), Subst(b, values))
    case Extract(a, high, low) => Extract(Subst(a, values), high, low)
    case SignExt(a, amount) => SignExt(Subst(a, values), amount)
    case Select(arr, idx) => Select(SubstArray(arr, values), Subst(idx, values))
  }

  function SubstArray(arr: Array, values: map<string, Expr>): (r: Array)
    decreases arr, 0
  {
    match arr
    case ArrVar(_, _, _) => arr
    case ConstArr(iw, v) => ConstArr(iw, Subst(v, values))
    case Store(a, i, v) => Store(SubstArray(a, values), Subst(i, values), Subst(v, values))
    case IteArr(c, t, e) => IteArr(Subst(c, values), SubstArray(t, values), SubstArray(e, values))
  }

  /** The variables of a term. */
  function Vars(e: Expr): set<(string, Sort)>
    decreases e, 0
  {
    match e
    case Bool(_) => {}
    case Bv(_) => {}
    case Var(x, s) => {(x, s)}
    case Not(a) => Vars(a)
    case And(a, b) => Vars(a) + Vars(b)
    case Or(a, b) => Vars(a) + Vars(b)
    case Eq(a, b) => Vars(a) + Vars(b)
    case ULe(a, b) => Vars(a) + Vars(b)
    case SLe(a, b) => Vars(a) + Vars(b)
    case Ite(c, t, e) => Vars(c) + Vars(t) + Vars(e)
    case Bin(_, a, b) => Vars(a) + Vars(b)
    case BvNot(a) => Vars(a)
    case Concat(a, b) => Vars(a) + Vars(b)
    case Extract(a, _, _) => Vars(a)
    case SignExt(a, _) => Vars(a)
    case Select(arr, idx) => ArrayVars(arr) + Vars(idx)
  }

  function ArrayVars(arr: Array): set<(string, Sort)>
    decreases arr, 0
  {
    match arr
    case ArrVar(_, _, _) => {}
    case ConstArr(_, v) => Vars(v)
    case Store(a, i, v) => ArrayVars(a) + Vars(i) + Vars(v)
    case IteArr(c, t, e) => Vars(c) + ArrayVars(t) + ArrayVars(e)
  }

  /** Substituting gives each of the variables the value it has in `env`. */
  ghost predicate AgreeOn(vars: set<(string, Sort)>, values: map<string, Expr>, m: Model, env: Model) {
    forall v :: v in vars ==> Eval(Subst(Var(v.0, v.1), values), m) == Eval(Var(v.0, v.1), env)
  }

  lemma {:induction false} SubstMeans(e: Expr, values: map<string, Expr>, m: Model, env: Model)
    requires env.arrays == m.arrays && AgreeOn(Vars(e), values, m, env)
    ensures Eval(Subst(e, values), m) == Eval(e, env)
    decreases e, 0
  {
    hide AgreeOn;
    match e
    case Bool(_) =>
    case Bv(_) =>
    case Var(x, s) => AgreeVar(x, s, values, m, env);
    case Not(a) => SubstMeans(a, values, m, env);
    case And(a, b) => SubstBoth(e, a, b, values, m, env);
    case Or(a, b) => SubstBoth(e, a, b, values, m, env);
    case Eq(a, b) => SubstBoth(e, a, b, values, m, env);
    case ULe(a, b) => SubstBoth(e, a, b, values, m, env);
    case SLe(a, b) => SubstBoth(e, a, b, values, m, env);
    case Ite(c, t, e') =>
      AgreeSubset(Vars(e), Vars(c), values, m, env);
      SubstMeans(c, values, m, env);
      SubstBoth(e, t, e', values, m, env);
    case Bin(_, a, b) => SubstBoth(e, a, b, values, m, env);
    case BvNot(a) => SubstMeans(a, values, m, env);
    case Concat(a, b) => SubstBoth(e, a, b, values, m, env);
    case Extract(a, _, _) => SubstMeans(a, values, m, env);
    case SignExt(a, _) => SubstMeans(a, values, m, env);
    case Select(arr, idx) =>
      AgreeSubset(Vars(e), Vars(idx), values, m, env);
      AgreeSubset(Vars(e), ArrayVars(arr), values, m, env);
      SubstMeans(idx, values, m, env);
      if Eval(idx, env).V? {
        SubstArrayMeans(arr, Eval(idx, env).bits, values, m, env);
      }
  }

  lemma {:induction false} AgreeVar(x: string, s: Sort, values: map<string, Expr>, m: Model, env: Model)
    requires AgreeOn({(x, s)}, values, m, env)
    ensures Eval(Subst(Var(x, s), values), m) == Eval(Var(x, s), env)
  {
    assert (x, s) in {(x, s)};
  }

  lemma {:induction false} AgreeSubset(big: set<(string, Sort)>, vars: set<(string, Sort)>, values: map<string, Expr>,
                                       m: Model, env: Model)
    requires AgreeOn(big, values, m, env) && vars <= big
    ensures AgreeOn(vars, values, m, env)
  {
  }

  lemma {:induction false} SubstBoth(e: Expr, a: Expr, b: Expr, values: map<string, Expr>, m: Model, env: Model)
    requires env.arrays == m.arrays && AgreeOn(Vars(e), values, m, env) && a < e && b < e &&
      Vars(a) + Vars(b) <= Vars(e)
    ensures Eval(Subst(a, values), m) == Eval(a, env) && Eval(Subst(b, values), m) == Eval(b, env)
    decreases e, 0, 0
  {
    hide AgreeOn, Subst, Eval, Vars;
    AgreeSubset(Vars(e), Vars(a), values, m, env);
    AgreeSubset(Vars(e), Vars(b), values, m, env);
    SubstMeans(a, values, m, env);
    SubstMeans(b, values, m, env);
  }

  lemma {:induction false} SubstArrayMeans(arr: Array, i: Bits, values: map<string, Expr>, m: Model, env: Model)
    requires env.arrays == m.arrays && AgreeOn(ArrayVars(arr), values, m, env)
    ensures EvalAt(SubstArray(arr, values), i, m) == EvalAt(arr, i, env)
    decreases arr, 0
  {
    hide AgreeOn;
    match arr
    case ArrVar(_, _, _) =>
    case ConstArr(_, v) => SubstMeans(v, values, m, env);
    case Store(a, j, v) =>
      AgreeSubset(ArrayVars(arr), ArrayVars(a), values, m, env);
      AgreeSubset(ArrayVars(arr), Vars(j), values, m, env);
      AgreeSubset(ArrayVars(arr), Vars(v), values, m, env);
      SubstArrayMeans(a, i, values, m, env);
      SubstMeans(j, values, m, env);
      SubstMeans(v, values, m, env);
    case IteArr(c, t, e) =>
      AgreeSubset(ArrayVars(arr), Vars(c), values, m, env);
      AgreeSubset(ArrayVars(arr), ArrayVars(t), values, m, env);
      AgreeSubset(ArrayVars(arr), ArrayVars(e), values, m, env);
      SubstMeans(c, values, m, env);
      SubstArrayMeans(t, i, values, m, env);
      SubstArrayMeans(e, i, values, m, env);
  }

  ghost predicate WFValues(values: map<string, Expr>) {
    forall x :: x in values ==> WF(values[x])
  }

  lemma {:induction false} SubstSort(e: Expr, values: map<string, Expr>)
    requires WF(e) && WFValues(values)
    ensures WF(Subst(e, values)) && SortOf(Subst(e, values)) == SortOf(e)
    decreases e, 0
  {
    hide WF, SortOf, Eval;
    var m := Model(map[], map[], map[]);
    var r := Subst(e, values);
    match e
    case Bool(_) =>
    case Bv(_) =>
    case Var(_, _) => SubstVarSort(e, values);
    case Not(a) => OpenNot(e, m); SubstSort(a, values); OpenNot(r, m);
    case And(a, b) => OpenAnd(e, m); SubstSort(a, values); SubstSort(b, values); OpenAnd(r, m);
    case Or(a, b) => OpenOr(e, m); SubstSort(a, values); SubstSort(b, values); OpenOr(r, m);
    case Eq(a, b) => OpenEq(e, m); SubstSort(a, values); SubstSort(b, values); OpenEq(r, m);
    case ULe(a, b) => OpenULe(e, m); SubstSort(a, values); SubstSort(b, values); OpenULe(r, m);
    case SLe(a, b) => OpenSLe(e, m); SubstSort(a, values); SubstSort(b, values); OpenSLe(r, m);
    case Ite(c, t, e') => OpenIte(e, m); SubstSort(c, values); SubstSort(t, values); SubstSort(e', values); OpenIte(r,
        m);
    case Bin(_, a, b) => OpenBin(e, m); SubstSort(a, values); SubstSort(b, values); OpenBin(r, m);
    case BvNot(a) => OpenBvNot(e, m); SubstSort(a, values); OpenBvNot(r, m);
    case Concat(a, b) => OpenConcat(e, m); SubstSort(a, values); SubstSort(b, values); OpenConcat(r, m);
    case Extract(a, _, _) => OpenExtract(e, m); SubstSort(a, values); OpenExtract(r, m);
    case SignExt(a, _) => OpenSignExt(e, m); SubstSort(a, values); OpenSignExt(r, m);
    case Select(arr, idx) => SubstSelectSort(e, values);
  }

  lemma {:induction false} SubstSelectSort(e: Expr, values: map<string, Expr>)
    requires WF(e) && WFValues(values) && e.Select?
    ensures WF(Subst(e, values)) && SortOf(Subst(e, values)) == SortOf(e)
    decreases e, 0, 0
  {
    hide WF, SortOf, Eval;
    var m := Model(map[], map[], map[]);
    OpenSelect(e, m);
    SubstArraySort(e.arr, values);
    SubstSort(e.idx, values);
    OpenSelect(Subst(e, values), m);
  }

  lemma {:induction false} SubstVarSort(e: Expr, values: map<string, Expr>)
    requires WF(e) && WFValues(values) && e.Var?
    ensures WF(Subst(e, values)) && SortOf(Subst(e, values)) == SortOf(e)
  {
  }

  lemma {:induction false} SubstArraySort(arr: Array, values: map<string, Expr>)
    requires WFArray(arr) && WFValues(values)
    ensures WFArray(SubstArray(arr, values))
    ensures IndexWidth(SubstArray(arr, values)) == IndexWidth(arr) &&
      ValueWidth(SubstArray(arr, values)) == ValueWidth(arr)
    decreases arr, 0
  {
    match arr
    case ArrVar(_, _, _) =>
    case ConstArr(_, v) => SubstSort(v, values);
    case Store(a, i, v) => SubstArraySort(a, values); SubstSort(i, values); SubstSort(v, values);
    case IteArr(c, t, e) => SubstSort(c, values); SubstArraySort(t, values); SubstArraySort(e, values);
  }
}

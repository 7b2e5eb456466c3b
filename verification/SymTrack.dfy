/** Following the instructions of a block symbolically: the register terms, the memory
    term and the condition for defined behaviour agree with the concrete run. */
module SymTrack {
  import opened Bits
  import opened Terms
  import opened SmartArith
  import opened Disjoint
  import opened Total
  import opened SymModel

  // ---- Well-formed functions ----

  /** A term over the inputs, the memory and the registers in `regs`. */
  ghost predicate GoodTerm(f: Fn, e: Expr, s: Sort, regs: set<string>) {
    && IsTotal(e, s)
    && forall v :: v in Vars(e) && v.0 in f.sorts ==> v.1 == f.sorts[v.0] && (v.0 == MEMORY || v.0 in regs)
  }

  ghost predicate NoMemory(e: Expr) {
    forall v :: v in Vars(e) ==> v.0 != MEMORY
  }

  predicate Defines(i: Instr, x: string) {
    (i.Def? || i.Phi?) && i.reg == x
  }

  /** Registers defined by the first `k` instructions. */
  function Defs(instrs: seq<Instr>, k: nat): set<string>
    requires k <= |instrs|
  {
    if k == 0 then {}
    else Defs(instrs, k - 1) + (if instrs[k - 1].Def? || instrs[k - 1].Phi? then {instrs[k - 1].reg} else {})
  }

  /** What is defined at the end of block `b`, given what is at its start. */
  function Out(f: Fn, avail: seq<set<string>>, b: nat): set<string>
    requires b < |f.blocks| && b < |avail|
  {
    avail[b] + Defs(f.blocks[b].instrs, |f.blocks[b].instrs|)
  }

  ghost predicate GoodReg(f: Fn, x: string) {
    x in f.sorts && x != MEMORY
  }

  ghost predicate GoodInstr(f: Fn, avail: seq<set<string>>, b: nat, k: nat)
    requires b < |f.blocks| == |avail| && k < |f.blocks[b].instrs|
  {
    var regs := avail[b] + Defs(f.blocks[b].instrs, k);
    match f.blocks[b].instrs[k]
    case Def(x, e) => GoodReg(f, x) && GoodTerm(f, e, f.sorts[x], regs)
    case Require(e) => GoodTerm(f, e, SBool, regs)
    case SetMemory(e) => MEMORY in f.sorts && GoodTerm(f, e, f.sorts[MEMORY], regs)
    case Phi(x, incoming) =>
      && b > 0 && GoodReg(f, x)
      && (forall i :: 0 <= i < |incoming| ==> GoodIncoming(f, avail, incoming[i].0, f.sorts[x], incoming[i].1))
      && (forall i, j :: 0 <= i < |incoming| && 0 <= j < |incoming| && incoming[i].1 == incoming[j].1 ==>
        incoming[i].0 == incoming[j].0)
      && (forall src :: 0 <= src < b && JumpsTo(f.blocks[src].term, Bb(b)) ==> Incoming(incoming, src).Some?)
  }

  /** Phis do not read the memory. */
  ghost predicate GoodIncoming(f: Fn, avail: seq<set<string>>, e: Expr, s: Sort, src: nat)
    requires |f.blocks| == |avail|
  {
    src < |f.blocks| && NoMemory(e) && GoodTerm(f, e, s, Out(f, avail, src))
  }

  predicate JumpsTo(t: Terminator, dst: Target) {
    match t
    case Jump(d) => d == dst
    case CondJump(_, d, d') => d == dst || d' == dst
    case Switch(_, cases, d) => d == dst || exists i :: 0 <= i < |cases| && cases[i].1 == dst
    case _ => false
  }

  ghost predicate GoodTerminator(f: Fn, t: Terminator, regs: set<string>) {
    match t
    case Jump(_) => true
    case CondJump(e, _, _) => GoodTerm(f, e, SBv(1), regs)
    case Switch(e, cases, _) =>
      && GoodTerm(f, e, SortOf(e), regs)
      && (forall i :: 0 <= i < |cases| ==> cases[i].0.Bv? && SortOf(cases[i].0) == SortOf(e))
      && (forall i, j :: 0 <= i < j < |cases| ==> cases[i].0 != cases[j].0)
    case Return(e) => GoodTerm(f, e, f.ret, regs)
    case Unreachable => true
  }

  /** Every register has one definition. */
  ghost predicate SingleAssignment(f: Fn) {
    forall b, k, b', k' | 0 <= b < |f.blocks| && 0 <= k < |f.blocks[b].instrs| && 0 <= b' < |f.blocks| &&
    0 <= k' < |f.blocks[b'].instrs| ::
      SameDefinition(f.blocks[b].instrs[k], f.blocks[b'].instrs[k']) ==> b == b' && k == k'
  }

  predicate SameDefinition(i: Instr, j: Instr) {
    (i.Def? || i.Phi?) && Defines(j, i.reg)
  }

  /** `avail[b]` is defined on every way to block `b`. */
  ghost predicate GoodFn(f: Fn, avail: seq<set<string>>) {
    && |f.blocks| > 0 && |avail| == |f.blocks| && avail[0] == {}
    && MEMORY in f.sorts && (forall x :: x in f.sorts ==> f.sorts[x].SBv? ==> f.sorts[x].width > 0)
    && (forall b, k :: 0 <= b < |f.blocks| && 0 <= k < |f.blocks[b].instrs| ==> GoodInstr(f, avail, b, k))
    && (forall b :: 0 <= b < |f.blocks| ==> GoodTerminator(f, f.blocks[b].term, Out(f, avail, b)))
    && (forall b, n: nat :: 0 <= b < |f.blocks| && JumpsTo(f.blocks[b].term, Bb(n)) ==> n < |f.blocks|)
    && (forall b, b' :: 0 <= b < b' < |f.blocks| && JumpsTo(f.blocks[b].term, Bb(b')) ==> avail[b'] <= Out(f, avail, b))
    && SingleAssignment(f)
  }

  // ---- Agreement ----

  ghost predicate ValuesOk(f: Fn, values: map<string, Expr>) {
    forall x :: x in values ==> GoodReg(f, x) && IsTotal(values[x], f.sorts[x])
  }

  /** Inputs and tables are as in the valuation. */
  ghost predicate SameInputs(f: Fn, m: Model, env: Model) {
    && env.arrays == m.arrays
    && forall x, s :: x !in f.sorts ==> Eval(Var(x, s), env) == Eval(Var(x, s), m)
  }

  ghost predicate RegAgrees(f: Fn, values: map<string, Expr>, m: Model, env: Model, x: string) {
    x in values && x in f.sorts && Eval(values[x], m) == Eval(Var(x, f.sorts[x]), env)
  }

  ghost predicate RegsAgree(f: Fn, values: map<string, Expr>, m: Model, env: Model, regs: set<string>) {
    SameInputs(f, m, env) && forall x :: x in regs ==> RegAgrees(f, values, m, env, x)
  }

  ghost predicate MemoryAgrees(f: Fn, memory: Expr, m: Model, env: Model) {
    MEMORY in f.sorts && Eval(memory, m) == Eval(Var(MEMORY, f.sorts[MEMORY]), env)
  }

  function Sigma(values: map<string, Expr>, memory: Expr): map<string, Expr> {
    values[MEMORY := memory]
  }

  lemma {:induction false} GoodTermAgrees(f: Fn, e: Expr, s: Sort, values: map<string, Expr>, memory: Expr, m: Model,
                                          env: Model, regs: set<string>)
    requires GoodTerm(f, e, s, regs) && ValuesOk(f, values) && MEMORY in f.sorts && IsTotal(memory, f.sorts[MEMORY])
    requires RegsAgree(f, values, m, env, regs) && (NoMemory(e) || MemoryAgrees(f, memory, m, env))
    ensures Eval(Subst(e, Sigma(values, memory)), m) == Eval(e, env)
  {
    hide Eval, WF, SortOf, IsTotal;
    var sigma := Sigma(values, memory);
    forall v | v in Vars(e)
      ensures Eval(Subst(Var(v.0, v.1), sigma), m) == Eval(Var(v.0, v.1), env)
    {
      SubstVar(f, v.0, v.1, values, memory);
      if v.0 in f.sorts && v.0 != MEMORY {
        assert RegAgrees(f, values, m, env, v.0);
      }
    }
    SubstMeans(e, sigma, m, env);
  }

  lemma {:induction false} SubstVar(f: Fn, x: string, s: Sort, values: map<string, Expr>, memory: Expr)
    requires ValuesOk(f, values) && MEMORY in f.sorts && IsTotal(memory, f.sorts[MEMORY])
    ensures x !in f.sorts ==> Subst(Var(x, s), Sigma(values, memory)) == Var(x, s)
    ensures x == MEMORY && s == f.sorts[x] ==> Subst(Var(x, s), Sigma(values, memory)) == memory
    ensures x != MEMORY && x in values && s == f.sorts[x] ==> Subst(Var(x, s), Sigma(values, memory)) == values[x]
  {
    hide Eval, WF;
  }

  /** The environment that a valuation and the register terms amount to. */
  ghost function Extend(f: Fn, sigma: map<string, Expr>, m: Model): Model {
    Model(
      m.nums + (map x | x in sigma && Eval(sigma[x], m).V? :: ToNat(Eval(sigma[x], m).bits)),
      m.bools + (map x | x in sigma && Eval(sigma[x], m).B? :: Eval(sigma[x], m).val),
      m.arrays)
  }

  lemma {:induction false} ExtendReg(f: Fn, sigma: map<string, Expr>, m: Model, x: string, s: Sort)
    requires x in sigma && IsTotal(sigma[x], s)
    ensures Eval(Var(x, s), Extend(f, sigma, m)) == Eval(sigma[x], m)
  {
    EvalSort(sigma[x], m);
    if Eval(sigma[x], m).V? {
      FromToNat(Eval(sigma[x], m).bits);
    }
  }

  lemma {:induction false} ExtendInput(f: Fn, sigma: map<string, Expr>, m: Model, x: string, s: Sort)
    requires x !in sigma
    ensures Eval(Var(x, s), Extend(f, sigma, m)) == Eval(Var(x, s), m)
  {
  }

  /** Substituting total terms gives a total term. */
  lemma {:induction false} SubstTotal(f: Fn, e: Expr, s: Sort, values: map<string, Expr>, memory: Expr,
                                      regs: set<string>)
    requires GoodTerm(f, e, s, regs) && ValuesOk(f, values) && MEMORY in f.sorts && IsTotal(memory, f.sorts[MEMORY])
    requires regs <= values.Keys
    ensures IsTotal(Subst(e, Sigma(values, memory)), s)
  {
    hide Eval, WF, SortOf, Subst, Extend;
    var sigma := Sigma(values, memory);
    SubstSort(e, sigma);
    forall m
      ensures !Eval(Subst(e, sigma), m).Undef?
    {
      var env := Extend(f, sigma, m);
      ExtendAgrees(f, values, memory, m, regs);
      GoodTermAgrees(f, e, s, values, memory, m, env, regs);
    }
  }

  lemma {:induction false} ExtendAgrees(f: Fn, values: map<string, Expr>, memory: Expr, m: Model, regs: set<string>)
    requires ValuesOk(f, values) && MEMORY in f.sorts && IsTotal(memory, f.sorts[MEMORY]) && regs <= values.Keys
    ensures var env := Extend(f, Sigma(values, memory), m);
      RegsAgree(f, values, m, env, regs) && MemoryAgrees(f, memory, m, env)
  {
    var sigma := Sigma(values, memory);
    var env := Extend(f, sigma, m);
    assert env.arrays == m.arrays;
    hide Eval, WF, SortOf, Extend;
    forall x, s | x !in f.sorts
      ensures Eval(Var(x, s), env) == Eval(Var(x, s), m)
    {
      ExtendInput(f, sigma, m, x, s);
    }
    forall x | x in regs
      ensures RegAgrees(f, values, m, env, x)
    {
      ExtendReg(f, sigma, m, x, f.sorts[x]);
    }
    ExtendReg(f, sigma, m, MEMORY, f.sorts[MEMORY]);
  }

  // ---- Binding a name ----

  lemma {:induction false} BindReads(env: Model, x: string, v: Value, s: Sort)
    requires !v.Undef? && OfSort(v, s)
    ensures Eval(Var(x, s), Bind(env, x, v)) == v
  {
    if v.V? {
      FromToNat(v.bits);
    }
  }

  lemma {:induction false} BindOther(env: Model, x: string, v: Value, y: string, s: Sort)
    requires x != y
    ensures Eval(Var(y, s), Bind(env, x, v)) == Eval(Var(y, s), env)
    ensures Bind(env, x, v).arrays == env.arrays
  {
  }

  /** Defining a register in the table and in the environment. */
  lemma {:induction false} DefineAgrees(f: Fn, values: map<string, Expr>, memory: Expr, m: Model, env: Model,
                                        regs: set<string>, x: string, e: Expr)
    requires ValuesOk(f, values) && GoodReg(f, x) && IsTotal(e, f.sorts[x]) && x !in values
    requires RegsAgree(f, values, m, env, regs) && MemoryAgrees(f, memory, m, env)
    ensures var env' := Bind(env, x, Eval(e, m));
      RegsAgree(f, values[x := e], m, env', regs + {x}) && MemoryAgrees(f, memory, m, env')
  {
    hide Eval, WF, SortOf, Bind;
    EvalSort(e, m);
    var v := Eval(e, m);
    var env' := Bind(env, x, v);
    BindReads(env, x, v, f.sorts[x]);
    BindKeeps(f, m, env, x, v);
    forall y | y in regs + {x}
      ensures RegAgrees(f, values[x := e], m, env', y)
    {
      if y != x {
        assert RegAgrees(f, values, m, env, y);
        BindOther(env, x, v, y, f.sorts[y]);
      }
    }
    BindOther(env, x, v, MEMORY, f.sorts[MEMORY]);
  }

  lemma {:induction false} BindKeeps(f: Fn, m: Model, env: Model, x: string, v: Value)
    requires SameInputs(f, m, env) && x in f.sorts
    ensures SameInputs(f, m, Bind(env, x, v))
  {
    hide Eval, Bind;
    BindOther(env, x, v, x + "'", SBool);
    forall y, s | y !in f.sorts
      ensures Eval(Var(y, s), Bind(env, x, v)) == Eval(Var(y, s), m)
    {
      BindOther(env, x, v, y, s);
    }
  }

  lemma {:induction false} StoreAgrees(f: Fn, values: map<string, Expr>, m: Model, env: Model, regs: set<string>,
                                       e: Expr)
    requires ValuesOk(f, values) && MEMORY in f.sorts && IsTotal(e, f.sorts[MEMORY]) && MEMORY !in regs
    requires RegsAgree(f, values, m, env, regs)
    ensures var env' := Bind(env, MEMORY, Eval(e, m));
      RegsAgree(f, values, m, env', regs) && MemoryAgrees(f, e, m, env')
  {
    hide Eval, WF, SortOf, Bind;
    EvalSort(e, m);
    var v := Eval(e, m);
    var env' := Bind(env, MEMORY, v);
    BindReads(env, MEMORY, v, f.sorts[MEMORY]);
    BindKeeps(f, m, env, MEMORY, v);
    forall y | y in regs
      ensures RegAgrees(f, values, m, env', y)
    {
      assert RegAgrees(f, values, m, env, y);
      BindOther(env, MEMORY, v, y, f.sorts[y]);
    }
  }
}

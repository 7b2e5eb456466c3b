/** The symbolic executor: one sweep over the blocks in order gives, for every block,
    the condition under which it runs, and joins what its predecessors leave behind. */
module SymExec {
  import opened Terms
  import opened SmartExpr
  import opened SmartArith
  import opened Disjoint
  import opened Total
  import opened SymModel
  import opened SymTrack

  // ---- Following one block ----

  ghost function At(f: Fn, m: Model, b: nat): Option<Config>
    requires |f.blocks| > 0
  {
    Visit(f, Start(m), b)
  }

  /** After `k` instructions of block `b`: where the path condition holds, the run is in
      this block and the terms have its values. */
  ghost predicate Tracks(f: Fn, b: nat, k: nat, path: Expr, ub: Expr, memory: Expr, values: map<string, Expr>,
                         regs: set<string>, m: Model)
    requires b < |f.blocks| && k <= |f.blocks[b].instrs|
  {
    On(path, m) ==> At(f, m, b).Some? && Follows(f, At(f, m, b).value, k, ub, memory, values, regs, m)
  }

  ghost predicate Follows(f: Fn, c: Config, k: nat, ub: Expr, memory: Expr, values: map<string, Expr>,
                          regs: set<string>, m: Model)
    requires c.bb < |f.blocks| && k <= |f.blocks[c.bb].instrs|
  {
    var r := After(f, c, k);
    RegsAgree(f, values, m, r.0, regs) && MemoryAgrees(f, memory, m, r.0) && Eval(ub, m) == B(r.1)
  }

  /** A run that is defined so far is not missed. */
  ghost predicate Reaches(f: Fn, b: nat, path: Expr, m: Model)
    requires b < |f.blocks|
  {
    At(f, m, b).Some? && At(f, m, b).value.ok ==> On(path, m)
  }

  lemma {:induction false} OkBefore(f: Fn, c: Config, k: nat)
    requires c.bb < |f.blocks| && k <= |f.blocks[c.bb].instrs| && After(f, c, k).1
    ensures c.ok
  {
    hide Eval;
    if k > 0 {
      OkBefore(f, c, k - 1);
    }
  }

  ghost predicate TermsOk(f: Fn, path: Expr, ub: Expr, memory: Expr, values: map<string, Expr>) {
    && IsTotal(path, SBool) && IsTotal(ub, SBool) && MEMORY in f.sorts && IsTotal(memory, f.sorts[MEMORY])
    && ValuesOk(f, values)
  }

  lemma {:induction false} DefsAt(instrs: seq<Instr>, k: nat)
    requires k < |instrs|
    ensures Defs(instrs, k + 1) == Defs(instrs, k) + (if instrs[k].Def? || instrs[k].Phi? then {instrs[k].reg} else {})
  {
  }

  lemma {:induction false} TrackDef(f: Fn, b: nat, k: nat, path: Expr, ub: Expr, memory: Expr, values: map<string,
                                    Expr>, regs: set<string>, m: Model)
    requires b < |f.blocks| && k < |f.blocks[b].instrs| && f.blocks[b].instrs[k].Def?
    requires TermsOk(f, path, ub, memory, values) && Tracks(f, b, k, path, ub, memory, values, regs, m)
    requires var i := f.blocks[b].instrs[k];
      GoodReg(f, i.reg) && GoodTerm(f, i.term, f.sorts[i.reg], regs) && i.reg !in values
    requires regs <= values.Keys
    ensures var i := f.blocks[b].instrs[k];
      Tracks(f, b, k + 1, path, ub, memory, values[i.reg := Subst(i.term, Sigma(values, memory))], regs + {i.reg}, m)
  {
    hide Eval, Subst, Visit, RegsAgree, MemoryAgrees, GoodTerm, ValuesOk, IsTotal, Bind, Sigma;
    if On(path, m) {
      var i := f.blocks[b].instrs[k];
      var c := At(f, m, b).value;
      var env := After(f, c, k).0;
      var e := Subst(i.term, Sigma(values, memory));
      GoodTermAgrees(f, i.term, f.sorts[i.reg], values, memory, m, env, regs);
      SubstTotal(f, i.term, f.sorts[i.reg], values, memory, regs);
      DefineAgrees(f, values, memory, m, env, regs, i.reg, e);
    }
  }

  lemma {:induction false} TrackRequire(f: Fn, b: nat, k: nat, path: Expr, ub: Expr, memory: Expr, values: map<string,
                                        Expr>, regs: set<string>, m: Model)
    requires b < |f.blocks| && k < |f.blocks[b].instrs| && f.blocks[b].instrs[k].Require?
    requires TermsOk(f, path, ub, memory, values) && Tracks(f, b, k, path, ub, memory, values, regs, m)
    requires var i := f.blocks[b].instrs[k];
      GoodTerm(f, i.cond, SBool, regs) && IsTotal(Subst(i.cond, Sigma(values, memory)), SBool)
    ensures var i := f.blocks[b].instrs[k];
      Tracks(f, b, k + 1, path, MkAnd(ub, Subst(i.cond, Sigma(values, memory))), memory, values, regs, m)
  {
    hide Eval, Subst, Visit, RegsAgree, MemoryAgrees, GoodTerm, ValuesOk, Sigma, MkAnd, WF, SortOf;
    if On(path, m) {
      var i := f.blocks[b].instrs[k];
      var env := After(f, At(f, m, b).value, k).0;
      var e := Subst(i.cond, Sigma(values, memory));
      GoodTermAgrees(f, i.cond, SBool, values, memory, m, env, regs);
      AndTotal(ub, e);
      TotalBool(MkAnd(ub, e), m);
      TotalBool(ub, m);
    }
  }

  lemma {:induction false} TrackMemory(f: Fn, b: nat, k: nat, path: Expr, ub: Expr, memory: Expr, values: map<string,
                                       Expr>, regs: set<string>, m: Model)
    requires b < |f.blocks| && k < |f.blocks[b].instrs| && f.blocks[b].instrs[k].SetMemory?
    requires TermsOk(f, path, ub, memory, values) && Tracks(f, b, k, path, ub, memory, values, regs, m)
    requires var i := f.blocks[b].instrs[k];
      GoodTerm(f, i.term, f.sorts[MEMORY], regs) && IsTotal(Subst(i.term, Sigma(values, memory)), f.sorts[MEMORY]) &&
      MEMORY !in regs
    ensures var i := f.blocks[b].instrs[k];
      Tracks(f, b, k + 1, path, ub, Subst(i.term, Sigma(values, memory)), values, regs, m)
  {
    hide Eval, Subst, Visit, RegsAgree, MemoryAgrees, GoodTerm, ValuesOk, Sigma, Bind, IsTotal;
    if On(path, m) {
      var i := f.blocks[b].instrs[k];
      var env := After(f, At(f, m, b).value, k).0;
      var e := Subst(i.term, Sigma(values, memory));
      GoodTermAgrees(f, i.term, f.sorts[MEMORY], values, memory, m, env, regs);
      StoreAgrees(f, values, m, env, regs, e);
    }
  }

  // ---- Edges ----

  /** What a predecessor leaves for a block: when it jumps there, and then whether
      behaviour was defined and what the memory is. */
  datatype Info = Info(path: Expr, ub: Vals, mem: Vals)

  const NO_INFO := Info(Bool(false), map[], map[])

  type Preds = map<Target, map<nat, Info>>

  function InfoAt(preds: Preds, dst: Target, src: nat): Info {
    if dst in preds && src in preds[dst] then preds[dst][src] else NO_INFO
  }

  predicate ArrivesAt(s: Step, dst: Target) {
    (s.Next? && dst == Bb(s.config.bb)) || (s.Sunk? && dst == Sink)
  }

  function EnvOf(s: Step): Model
    requires s.Next? || s.Sunk?
  {
    if s.Next? then s.config.env else s.env
  }

  predicate OkOf(s: Step)
    requires s.Next? || s.Sunk?
  {
    if s.Next? then s.config.ok else s.ok
  }

  /** The run jumps from `src` to `dst`. */
  ghost predicate Took(f: Fn, m: Model, src: nat, dst: Target)
    requires src < |f.blocks|
  {
    At(f, m, src).Some? && ArrivesAt(Exec(f, At(f, m, src).value), dst)
  }

  ghost function Leaves(f: Fn, m: Model, src: nat): Step
    requires src < |f.blocks| && At(f, m, src).Some?
  {
    Exec(f, At(f, m, src).value)
  }

  ghost predicate InfoOk(f: Fn, info: Info) {
    && IsTotal(info.path, SBool) && MEMORY in f.sorts
    && TotalVals(info.ub, SBool) && TotalVals(info.mem, f.sorts[MEMORY])
  }

  /** An edge's condition holds only if the run takes the edge, and does hold if the run
      takes it with behaviour defined; then the guarded values are those of the run. */
  ghost predicate EdgeOk(f: Fn, values: map<string, Expr>, regs: set<string>, info: Info, src: nat, dst: Target,
                         m: Model)
    requires src < |f.blocks| && MEMORY in f.sorts
  {
    && (On(info.path, m) ==>
         && Took(f, m, src, dst)
         && var s := Leaves(f, m, src);
            && Picks(info.ub, B(OkOf(s)), m)
            && Picks(info.mem, Eval(Var(MEMORY, f.sorts[MEMORY]), EnvOf(s)), m)
            && RegsAgree(f, values, m, EnvOf(s), regs))
    && (Took(f, m, src, dst) && OkOf(Leaves(f, m, src)) ==> On(info.path, m))
  }

  /** Two predecessors never both jump to a block. */
  lemma {:induction false} OnePredecessor(f: Fn, m: Model, src: nat, src': nat, b: nat)
    requires src < |f.blocks| && src' < |f.blocks| && Took(f, m, src, Bb(b)) && Took(f, m, src', Bb(b))
    ensures src == src' && At(f, m, b) == Some(Leaves(f, m, src).config) && At(f, m, b).value.prev == src
  {
    hide Eval, Visit, Exec;
    VisitNext(f, Start(m), src);
    VisitNext(f, Start(m), src');
  }

  /** A block other than the entry is entered from the block the run was in before. */
  lemma {:induction false} EnteredFrom(f: Fn, m: Model, b: nat)
    requires 0 < b < |f.blocks| && At(f, m, b).Some?
    ensures var p := At(f, m, b).value.prev; p < b && Took(f, m, p, Bb(b)) && Leaves(f, m, p) == Next(At(f, m, b).value)
  {
    hide Eval, Visit, Exec;
    VisitPrev(f, Start(m), b);
  }

  // ---- What holds between blocks ----

  /** Guards at most one value, and is not empty. */
  ghost predicate OneValue(vals: Vals) {
    && vals != map[]
    && (forall x, y :: x in vals && y in vals ==> x == y)
    && (forall x :: x in vals ==> !IsFalse(vals[x]))
  }

  ghost predicate Live(f: Fn, info: Info) {
    InfoOk(f, info) && !IsFalse(info.path) && OneValue(info.ub) && OneValue(info.mem)
  }

  ghost predicate Recorded(preds: Preds, dst: Target, src: nat) {
    dst in preds && src in preds[dst]
  }

  ghost predicate RecordOk(f: Fn, avail: seq<set<string>>, values: map<string, Expr>, preds: Preds, b: nat,
                           dst: Target, src: nat)
    requires |avail| == |f.blocks| && Recorded(preds, dst, src)
  {
    && src < b <= |f.blocks| && Live(f, preds[dst][src]) && Out(f, avail, src) <= values.Keys
    && (dst.Bb? ==> src < dst.n < |f.blocks| && JumpsTo(f.blocks[src].term, dst))
  }

  /** Registers are defined where the sweep has been. */
  ghost predicate DefinedBefore(f: Fn, x: string, b: nat, k: nat) {
    exists b', k' :: 0 <= b' < |f.blocks| && 0 <= k' < |f.blocks[b'].instrs| && (b' < b || (b' == b && k' < k))
      && Defines(f.blocks[b'].instrs[k'], x)
  }

  ghost predicate KeysBefore(f: Fn, values: map<string, Expr>, b: nat, k: nat) {
    forall x :: x in values ==> DefinedBefore(f, x, b, k)
  }

  ghost predicate Recordings(f: Fn, avail: seq<set<string>>, values: map<string, Expr>, preds: Preds, b: nat)
    requires |avail| == |f.blocks|
  {
    && (forall dst, src :: Recorded(preds, dst, src) ==> RecordOk(f, avail, values, preds, b, dst, src))
    && (forall dst :: dst in preds ==> preds[dst] != map[])
  }

  ghost predicate Edges(f: Fn, avail: seq<set<string>>, values: map<string, Expr>, preds: Preds, b: nat)
    requires |avail| == |f.blocks| && MEMORY in f.sorts && b <= |f.blocks|
  {
    forall dst, src: nat, m :: src < b ==> EdgeOk(f, values, Out(f, avail, src), InfoAt(preds, dst, src), src, dst, m)
  }

  /** The blocks before `b` have been executed. */
  ghost predicate Swept(f: Fn, avail: seq<set<string>>, values: map<string, Expr>, preds: Preds, b: nat) {
    && GoodFn(f, avail) && b <= |f.blocks| && ValuesOk(f, values)
    && Recordings(f, avail, values, preds, b) && Edges(f, avail, values, preds, b)
  }

  lemma {:induction false} FreshRegister(f: Fn, avail: seq<set<string>>, values: map<string, Expr>, b: nat, k: nat,
                                         e: Expr)
    requires GoodFn(f, avail) && b < |f.blocks| && k < |f.blocks[b].instrs| && KeysBefore(f, values, b, k)
    requires f.blocks[b].instrs[k].Def? || f.blocks[b].instrs[k].Phi?
    ensures var x := f.blocks[b].instrs[k].reg; x !in values && KeysBefore(f, values[x := e], b, k + 1)
  {
    hide GoodInstr, GoodTerminator;
    var x := f.blocks[b].instrs[k].reg;
    assert !DefinedBefore(f, x, b, k) by {
      forall b', k' | 0 <= b' < |f.blocks| && 0 <= k' < |f.blocks[b'].instrs| && (b' < b || (b' == b && k' < k))
        ensures !Defines(f.blocks[b'].instrs[k'], x)
      {
        assert SameDefinition(f.blocks[b].instrs[k], f.blocks[b'].instrs[k']) == Defines(f.blocks[b'].instrs[k'], x);
      }
    }
    assert DefinedBefore(f, x, b, k + 1) by {
      assert Defines(f.blocks[b].instrs[k], x);
    }
    KeysLater(f, values, b, k, b, k + 1);
  }

  lemma {:induction false} KeysLater(f: Fn, values: map<string, Expr>, b: nat, k: nat, b': nat, k': nat)
    requires KeysBefore(f, values, b, k) && (b < b' || (b == b' && k <= k'))
    ensures KeysBefore(f, values, b', k')
  {
    forall x | x in values
      ensures DefinedBefore(f, x, b', k')
    {
      assert DefinedBefore(f, x, b, k);
    }
  }

  /** A new register changes nothing recorded before. */
  lemma {:induction false} RegsAgreeGrow(f: Fn, values: map<string, Expr>, x: string, e: Expr, m: Model, env: Model,
                                         regs: set<string>)
    requires RegsAgree(f, values, m, env, regs) && x !in values
    ensures RegsAgree(f, values[x := e], m, env, regs)
  {
    hide Eval, SameInputs;
    forall y | y in regs
      ensures RegAgrees(f, values[x := e], m, env, y)
    {
      assert RegAgrees(f, values, m, env, y);
    }
  }

  lemma {:induction false} SweptGrows(f: Fn, avail: seq<set<string>>, values: map<string, Expr>, preds: Preds, b: nat,
                                      x: string, e: Expr)
    requires Swept(f, avail, values, preds, b) && x !in values && GoodReg(f, x) && IsTotal(e, f.sorts[x])
    ensures Swept(f, avail, values[x := e], preds, b)
  {
    hide Eval, GoodFn, IsTotal, Out, RegsAgree, Picks, Took, Visit, Exec, Live;
    var values' := values[x := e];
    OpenFn(f, avail);
    assert Recordings(f, avail, values', preds, b) by {
      forall dst, src | Recorded(preds, dst, src)
        ensures RecordOk(f, avail, values', preds, b, dst, src)
      {
        assert RecordOk(f, avail, values, preds, b, dst, src);
      }
    }
    forall dst, src: nat, m | src < b
      ensures EdgeOk(f, values', Out(f, avail, src), InfoAt(preds, dst, src), src, dst, m)
    {
      assert EdgeOk(f, values, Out(f, avail, src), InfoAt(preds, dst, src), src, dst, m);
      if On(InfoAt(preds, dst, src).path, m) {
        OpenTook(f, m, src, dst);
        RegsAgreeGrow(f, values, x, e, m, EnvOf(Leaves(f, m, src)), Out(f, avail, src));
      }
    }
  }

  lemma {:induction false} OpenTook(f: Fn, m: Model, src: nat, dst: Target)
    requires src < |f.blocks| && Took(f, m, src, dst)
    ensures At(f, m, src).Some? && (Leaves(f, m, src).Next? || Leaves(f, m, src).Sunk?) &&
      (dst.Bb? <==> Leaves(f, m, src).Next?)
  {
    hide Visit, Exec;
  }

  lemma {:induction false} OpenFn(f: Fn, avail: seq<set<string>>)
    requires GoodFn(f, avail)
    ensures |avail| == |f.blocks| > 0 && MEMORY in f.sorts
  {
  }

  // ---- Entering a block ----

  ghost predicate JoinedFrom(infos: map<nat, Info>, todo: set<nat>, path: Expr, ub: Vals, mem: Vals, m: Model) {
    && (On(path, m) <==> exists src :: src in infos && src !in todo && On(infos[src].path, m))
    && (!On(path, m) ==> NoneActive(ub, m) && NoneActive(mem, m))
    && (forall src :: src in infos && src !in todo && On(infos[src].path, m) ==>
         SameActive(infos[src].ub, ub, m) && SameActive(infos[src].mem, mem, m))
  }

  ghost predicate Exclusive(infos: map<nat, Info>, m: Model) {
    forall src, src' :: src in infos && src' in infos && On(infos[src].path, m) && On(infos[src'].path, m) ==>
      src == src'
  }

  lemma {:induction false} JoinOne(infos: map<nat, Info>, todo: set<nat>, src: nat, path: Expr, ub: Vals, mem: Vals,
                                   ub': Vals, mem': Vals, f: Fn, m: Model)
    requires src in infos && src in todo && Live(f, infos[src]) && Exclusive(infos, m) && IsTotal(path, SBool)
    requires JoinedFrom(infos, todo, path, ub, mem, m)
    requires Joined(ub, ub', infos[src].ub, infos[src].path, m) && Joined(mem, mem', infos[src].mem, infos[src].path, m)
    ensures WF(path) && WF(infos[src].path) && SortOf(path) == SBool && SortOf(infos[src].path) == SBool
    ensures JoinedFrom(infos, todo - {src}, MkOr(path, infos[src].path), ub', mem', m)
  {
    hide Eval, WF, SortOf, On, MkOr, TotalVals;
    var info := infos[src];
    OrTotal(path, info.path);
    assert AtMostOne(info.ub, m) && AtMostOne(info.mem, m);
    if On(info.path, m) {
      assert !On(path, m);
      assert src !in todo - {src};
    } else {
      assert SameActive(ub, ub', m) && SameActive(mem, mem', m);
      forall s | s in infos && s !in todo - {src} && On(infos[s].path, m)
        ensures SameActive(infos[s].ub, ub', m) && SameActive(infos[s].mem, mem', m)
      {
        assert s != src && s !in todo;
      }
      if s :| s in infos && s !in todo && On(infos[s].path, m) {
        assert s !in todo - {src};
      }
    }
  }

  /** The edges into a block exclude each other. */
  lemma {:induction false} EdgesExclusive(f: Fn, avail: seq<set<string>>, values: map<string, Expr>, preds: Preds,
                                          b: nat, m: Model)
    requires Swept(f, avail, values, preds, b) && b < |f.blocks| && Bb(b) in preds
    ensures Exclusive(preds[Bb(b)], m)
  {
    hide Eval, GoodFn, IsTotal, Out, RegsAgree, Picks, Took, Live, On;
    OpenFn(f, avail);
    var infos := preds[Bb(b)];
    forall src, src' | src in infos && src' in infos && On(infos[src].path, m) && On(infos[src'].path, m)
      ensures src == src'
    {
      EdgeTaken(f, avail, values, preds, b, src, m);
      EdgeTaken(f, avail, values, preds, b, src', m);
      OnePredecessor(f, m, src, src', b);
    }
  }

  lemma {:induction false} EdgeTaken(f: Fn, avail: seq<set<string>>, values: map<string, Expr>, preds: Preds, b: nat,
                                     src: nat, m: Model)
    requires Swept(f, avail, values, preds, b) && b < |f.blocks| && Recorded(preds, Bb(b), src)
    ensures src < b && |avail| == |f.blocks| && MEMORY in f.sorts
    ensures EdgeOk(f, values, Out(f, avail, src), preds[Bb(b)][src], src, Bb(b), m) && Live(f, preds[Bb(b)][src])
    ensures On(preds[Bb(b)][src].path, m) ==> Took(f, m, src, Bb(b)) && At(f, m, b) == Some(Leaves(f, m, src).config)
  {
    hide Eval, GoodFn, IsTotal, Out, RegsAgree, Picks, Live, Visit, Exec, On;
    OpenFn(f, avail);
    assert RecordOk(f, avail, values, preds, b, Bb(b), src);
    assert InfoAt(preds, Bb(b), src) == preds[Bb(b)][src];
    if On(preds[Bb(b)][src].path, m) {
      assert EdgeOk(f, values, Out(f, avail, src), InfoAt(preds, Bb(b), src), src, Bb(b), m);
      OnePredecessor(f, m, src, src, b);
    }
  }

  lemma {:induction false} SelectPicked(vals: Vals, vals': Vals, r: Expr, t: Value, s: Sort, m: Model)
    requires Picks(vals, t, m) && SameActive(vals, vals', m) && TotalVals(vals', s) && Selects(vals', r)
    ensures Eval(r, m) == t
  {
    hide Eval, On, IsTotal;
    TotalValsFacts(vals', s);
    var x :| Only(vals, x, m) && Eval(x, m) == t;
    assert Only(vals', x, m);
  }

  ghost predicate Merged(f: Fn, preds: Preds, b: nat, path: Expr, ubs: Vals, mems: Vals, m: Model) {
    && Bb(b) in preds && JoinedFrom(preds[Bb(b)], {}, path, ubs, mems, m)
    && MEMORY in f.sorts && TotalVals(ubs, SBool) && TotalVals(mems, f.sorts[MEMORY])
  }

  lemma {:induction false} EnteredBy(f: Fn, avail: seq<set<string>>, values: map<string, Expr>, preds: Preds, b: nat,
                                     src: nat,
                                     ubs: Vals, mems: Vals, ub: Expr, memory: Expr, m: Model)
    requires Swept(f, avail, values, preds, b) && b < |f.blocks| && Recorded(preds, Bb(b), src) &&
      On(preds[Bb(b)][src].path, m)
    requires SameActive(preds[Bb(b)][src].ub, ubs, m) && SameActive(preds[Bb(b)][src].mem, mems, m)
    requires MEMORY in f.sorts && TotalVals(ubs, SBool) && TotalVals(mems, f.sorts[MEMORY])
    requires Selects(ubs, ub) && Selects(mems, memory)
    ensures |avail| == |f.blocks| && At(f, m, b).Some? &&
      Follows(f, At(f, m, b).value, 0, ub, memory, values, avail[b], m)
  {
    hide ExecInstr, Eval, GoodFn, IsTotal, Out, RegsAgree, Picks, Live, Visit, Exec, Selects, TotalVals, Swept, On,
         SameActive, Took;
    var info := preds[Bb(b)][src];
    EdgeTaken(f, avail, values, preds, b, src, m);
    var c := At(f, m, b).value;
    OpenTook(f, m, src, Bb(b));
    SelectPicked(info.ub, ubs, ub, B(c.ok), SBool, m);
    SelectPicked(info.mem, mems, memory, Eval(Var(MEMORY, f.sorts[MEMORY]), c.env), f.sorts[MEMORY], m);
    AvailOut(f, avail, values, preds, b, src);
    RegsFewer(f, values, m, c.env, Out(f, avail, src), avail[b]);
  }

  lemma {:induction false} SomeEdgeOn(infos: map<nat, Info>, path: Expr, ubs: Vals, mems: Vals, m: Model)
    returns (src: nat)
    requires JoinedFrom(infos, {}, path, ubs, mems, m) && On(path, m)
    ensures src in infos && On(infos[src].path, m)
    ensures SameActive(infos[src].ub, ubs, m) && SameActive(infos[src].mem, mems, m)
  {
    hide On, SameActive, NoneActive;
    src :| src in infos && src !in {} && On(infos[src].path, m);
  }

  lemma {:induction false} EnteredOn(f: Fn, avail: seq<set<string>>, values: map<string, Expr>, preds: Preds, b: nat,
                                     path: Expr, ubs: Vals, mems: Vals, ub: Expr, memory: Expr, m: Model)
    requires |avail| == |f.blocks| && 0 < b < |f.blocks| && On(path, m)
    requires Swept(f, avail, values, preds, b) && Merged(f, preds, b, path, ubs, mems, m)
    requires Selects(ubs, ub) && Selects(mems, memory)
    ensures At(f, m, b).Some? && Follows(f, At(f, m, b).value, 0, ub, memory, values, avail[b], m)
  {
    hide Eval, Follows, At, Selects, TotalVals, Swept, On, SameActive, JoinedFrom;
    var src := SomeEdgeOn(preds[Bb(b)], path, ubs, mems, m);
    EnteredBy(f, avail, values, preds, b, src, ubs, mems, ub, memory, m);
  }

  /** The joined terms have the values the run enters the block with. */
  lemma {:induction false} EnteredTracks(f: Fn, avail: seq<set<string>>, values: map<string, Expr>, preds: Preds,
                                         b: nat,
                                         path: Expr, ubs: Vals, mems: Vals, ub: Expr, memory: Expr, m: Model)
    requires |avail| == |f.blocks| && 0 < b < |f.blocks|
    requires Swept(f, avail, values, preds, b) && Merged(f, preds, b, path, ubs, mems, m)
    requires Selects(ubs, ub) && Selects(mems, memory)
    ensures Tracks(f, b, 0, path, ub, memory, values, avail[b], m)
  {
    hide Eval, Follows, At, Selects, Swept, On, Merged;
    if On(path, m) {
      EnteredOn(f, avail, values, preds, b, path, ubs, mems, ub, memory, m);
    }
  }

  lemma {:induction false} EnteredReaches(f: Fn, avail: seq<set<string>>, values: map<string, Expr>, preds: Preds,
                                          b: nat,
                                          path: Expr, ubs: Vals, mems: Vals, m: Model)
    requires Swept(f, avail, values, preds, b) && 0 < b < |f.blocks| && Merged(f, preds, b, path, ubs, mems, m)
    ensures Reaches(f, b, path, m)
  {
    hide Eval, Visit, Exec, TotalVals, Swept, On, SameActive, NoneActive;
    if At(f, m, b).Some? && At(f, m, b).value.ok {
      EnteredFrom(f, m, b);
      var p := At(f, m, b).value.prev;
      EdgeMissing(f, avail, values, preds, b, p, m);
      assert p in preds[Bb(b)] && p !in {};
    }
  }

  lemma {:induction false} OpenSwept(f: Fn, avail: seq<set<string>>, values: map<string, Expr>, preds: Preds, b: nat)
    requires Swept(f, avail, values, preds, b)
    ensures GoodFn(f, avail) && |avail| == |f.blocks| > 0 && MEMORY in f.sorts && b <= |f.blocks|
  {
    hide Edges, Recordings;
  }

  /** A defined run that comes along an edge has its condition on. */
  lemma {:induction false} EdgeMissing(f: Fn, avail: seq<set<string>>, values: map<string, Expr>, preds: Preds, b: nat,
                                       p: nat, m: Model)
    requires Swept(f, avail, values, preds, b) && p < b < |f.blocks| && Took(f, m, p, Bb(b)) && OkOf(Leaves(f, m, p))
    ensures Recorded(preds, Bb(b), p) && On(preds[Bb(b)][p].path, m)
  {
    hide Eval, GoodFn, IsTotal, Out, RegsAgree, Picks, Live, Visit, Exec, Recordings;
    OpenFn(f, avail);
    assert EdgeOk(f, values, Out(f, avail, p), InfoAt(preds, Bb(b), p), p, Bb(b), m);
    OpenBool(Bool(false), m);
  }

  lemma {:induction false} AvailOut(f: Fn, avail: seq<set<string>>, values: map<string, Expr>, preds: Preds, b: nat,
                                    src: nat)
    requires Swept(f, avail, values, preds, b) && b < |f.blocks| && Recorded(preds, Bb(b), src)
    ensures src < b && |avail| == |f.blocks| && avail[b] <= Out(f, avail, src) <= values.Keys
  {
    hide Eval, Edges, Out, Live, GoodInstr, GoodTerminator, SingleAssignment;
    assert RecordOk(f, avail, values, preds, b, Bb(b), src);
  }

  lemma {:induction false} RegsFewer(f: Fn, values: map<string, Expr>, m: Model, env: Model, regs: set<string>,
                                     fewer: set<string>)
    requires RegsAgree(f, values, m, env, regs) && fewer <= regs
    ensures RegsAgree(f, values, m, env, fewer)
  {
    hide Eval, SameInputs, RegAgrees;
  }
}

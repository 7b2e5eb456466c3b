/** Symbolic execution of a whole function agrees with every concrete run. */
module SymRun {
  import opened Terms
  import opened SmartExpr
  import opened SmartArith
  import opened Disjoint
  import opened Total
  import opened SymModel
  import opened SymTrack
  import opened SymExec
  import opened SymState

  // ---- Inside a block ----

  function Regs(f: Fn, avail: seq<set<string>>, b: nat, k: nat): set<string>
    requires b < |f.blocks| == |avail| && k <= |f.blocks[b].instrs|
  {
    avail[b] + Defs(f.blocks[b].instrs, k)
  }

  ghost predicate AtPoint(f: Fn, preds: Preds, b: nat, k: nat, path: Expr, ub: Expr, memory: Expr, values: map<string,
                          Expr>, regs: set<string>, m: Model)
    requires b < |f.blocks| && k <= |f.blocks[b].instrs|
  {
    && Tracks(f, b, k, path, ub, memory, values, regs, m) && Reaches(f, b, path, m)
    && CameBy(f, preds, b, path, m) && PrevRecorded(f, preds, b, path, m)
  }

  /** After `k` instructions of block `b`, under every valuation. */
  ghost predicate BlockState(f: Fn, avail: seq<set<string>>, values: map<string, Expr>, preds: Preds, b: nat, k: nat,
                             path: Expr, ub: Expr, memory: Expr) {
    && b < |f.blocks| == |avail| && k <= |f.blocks[b].instrs|
    && Swept(f, avail, values, preds, b) && KeysBefore(f, values, b, k) && TermsOk(f, path, ub, memory, values)
    && !IsFalse(path) && (b > 0 ==> Bb(b) in preds) && Regs(f, avail, b, k) <= values.Keys
    && AtPoints(f, preds, b, k, path, ub, memory, values, Regs(f, avail, b, k))
  }

  ghost predicate AtPoints(f: Fn, preds: Preds, b: nat, k: nat, path: Expr, ub: Expr, memory: Expr, values: map<string,
                           Expr>, regs: set<string>) {
    b < |f.blocks| && k <= |f.blocks[b].instrs| && forall m ::
      AtPoint(f, preds, b, k, path, ub, memory, values, regs, m)
  }

  lemma {:induction false} RegsNext(f: Fn, avail: seq<set<string>>, b: nat, k: nat)
    requires b < |f.blocks| == |avail| && k < |f.blocks[b].instrs|
    ensures var i := f.blocks[b].instrs[k];
      Regs(f, avail, b, k + 1) == Regs(f, avail, b, k) + (if i.Def? || i.Phi? then {i.reg} else {})
  {
    hide Defs;
    DefsAt(f.blocks[b].instrs, k);
  }

  lemma {:induction false} InstrGood(f: Fn, avail: seq<set<string>>, b: nat, k: nat)
    requires GoodFn(f, avail) && b < |f.blocks| == |avail| && k < |f.blocks[b].instrs|
    ensures GoodInstr(f, avail, b, k)
  {
    hide GoodInstr, GoodTerminator;
  }

  lemma {:induction false} PointDef(f: Fn, preds: Preds, b: nat, k: nat, path: Expr, ub: Expr, memory: Expr,
                                    values: map<string, Expr>, regs: set<string>,
                                    x: string, t: Expr, e: Expr)
    requires b < |f.blocks| && k < |f.blocks[b].instrs| && f.blocks[b].instrs[k] == Def(x, t)
    requires GoodReg(f, x) && GoodTerm(f, t, f.sorts[x], regs) && x !in values && regs <= values.Keys
    requires TermsOk(f, path, ub, memory, values) && e == Subst(t, Sigma(values, memory))
    requires AtPoints(f, preds, b, k, path, ub, memory, values, regs)
    ensures AtPoints(f, preds, b, k + 1, path, ub, memory, values[x := e], regs + {x})
  {
    hide Eval, Subst, Tracks, Reaches, CameBy, PrevRecorded, GoodTerm, Sigma, TermsOk;
    var k', regs', values' := k + 1, regs + {x}, values[x := e];
    forall m
      ensures AtPoint(f, preds, b, k', path, ub, memory, values', regs', m)
    {
      assert AtPoint(f, preds, b, k, path, ub, memory, values, regs, m);
      TrackDef(f, b, k, path, ub, memory, values, regs, m);
    }
  }

  lemma {:induction false} StepDef(f: Fn, avail: seq<set<string>>, values: map<string, Expr>, preds: Preds, b: nat,
                                   k: nat, path: Expr, ub: Expr, memory: Expr)
    requires b < |f.blocks| == |avail| && k < |f.blocks[b].instrs| && f.blocks[b].instrs[k].Def?
    requires BlockState(f, avail, values, preds, b, k, path, ub, memory)
    ensures var i := f.blocks[b].instrs[k];
      BlockState(f, avail, values[i.reg := Subst(i.term, Sigma(values, memory))], preds, b, k + 1, path, ub, memory)
  {
    hide Eval, Subst, Swept, AtPoints, KeysBefore, IsTotal, GoodTerm, Regs, Sigma, GoodFn;
    var i := f.blocks[b].instrs[k];
    var regs := Regs(f, avail, b, k);
    var e := Subst(i.term, Sigma(values, memory));
    OpenSwept(f, avail, values, preds, b);
    InstrGood(f, avail, b, k);
    DefGood(f, avail, b, k);
    RegsNext(f, avail, b, k);
    FreshRegister(f, avail, values, b, k, e);
    SubstTotal(f, i.term, f.sorts[i.reg], values, memory, regs);
    SweptGrows(f, avail, values, preds, b, i.reg, e);
    PointDef(f, preds, b, k, path, ub, memory, values, regs, i.reg, i.term, e);
  }

  lemma {:induction false} DefGood(f: Fn, avail: seq<set<string>>, b: nat, k: nat)
    requires b < |f.blocks| == |avail| && k < |f.blocks[b].instrs| && GoodInstr(f, avail, b, k)
    ensures var i := f.blocks[b].instrs[k]; var regs := Regs(f, avail, b, k);
      && (i.Def? ==> GoodReg(f, i.reg) && GoodTerm(f, i.term, f.sorts[i.reg], regs))
      && (i.Require? ==> GoodTerm(f, i.cond, SBool, regs))
      && (i.SetMemory? ==> MEMORY in f.sorts && GoodTerm(f, i.term, f.sorts[MEMORY], regs))
  {
    hide GoodTerm;
  }

  lemma {:induction false} PointRequire(f: Fn, preds: Preds, b: nat, k: nat, path: Expr, ub: Expr, memory: Expr,
                                        values: map<string, Expr>, regs: set<string>,
                                        t: Expr, e: Expr, ub': Expr)
    requires b < |f.blocks| && k < |f.blocks[b].instrs| && f.blocks[b].instrs[k] == Require(t)
    requires e == Subst(t, Sigma(values, memory)) && IsTotal(e, SBool) && IsTotal(ub, SBool) && ub' == MkAnd(ub, e)
    requires GoodTerm(f, t, SBool, regs) && TermsOk(f, path, ub, memory, values)
    requires AtPoints(f, preds, b, k, path, ub, memory, values, regs)
    ensures AtPoints(f, preds, b, k + 1, path, ub', memory, values, regs)
  {
    hide Eval, Subst, Tracks, Reaches, CameBy, PrevRecorded, GoodTerm, Sigma, MkAnd, TermsOk, WF, SortOf;
    var k' := k + 1;
    forall m
      ensures AtPoint(f, preds, b, k', path, ub', memory, values, regs, m)
    {
      assert AtPoint(f, preds, b, k, path, ub, memory, values, regs, m);
      TrackRequire(f, b, k, path, ub, memory, values, regs, m);
    }
  }

  lemma {:induction false} StepRequire(f: Fn, avail: seq<set<string>>, values: map<string, Expr>, preds: Preds, b: nat,
                                       k: nat, path: Expr, ub: Expr, memory: Expr)
    requires b < |f.blocks| == |avail| && k < |f.blocks[b].instrs| && f.blocks[b].instrs[k].Require?
    requires BlockState(f, avail, values, preds, b, k, path, ub, memory)
    ensures var e := Subst(f.blocks[b].instrs[k].cond, Sigma(values, memory));
      && WF(ub) && SortOf(ub) == SBool && WF(e) && SortOf(e) == SBool
      && BlockState(f, avail, values, preds, b, k + 1, path, MkAnd(ub, e), memory)
  {
    hide Eval, Subst, Swept, AtPoints, KeysBefore, GoodTerm, Regs, Sigma, GoodFn, MkAnd, WF, SortOf, ValuesOk;
    var i := f.blocks[b].instrs[k];
    var regs := Regs(f, avail, b, k);
    var e := Subst(i.cond, Sigma(values, memory));
    OpenSwept(f, avail, values, preds, b);
    InstrGood(f, avail, b, k);
    DefGood(f, avail, b, k);
    RegsNext(f, avail, b, k);
    assert Regs(f, avail, b, k + 1) == regs;
    KeysLater(f, values, b, k, b, k + 1);
    SubstTotal(f, i.cond, SBool, values, memory, regs);
    AndTotal(ub, e);
    PointRequire(f, preds, b, k, path, ub, memory, values, regs, i.cond, e, MkAnd(ub, e));
  }

  lemma {:induction false} PointMemory(f: Fn, preds: Preds, b: nat, k: nat, path: Expr, ub: Expr, memory: Expr,
                                       values: map<string, Expr>, regs: set<string>, e: Expr)
    requires b < |f.blocks| && k < |f.blocks[b].instrs| && f.blocks[b].instrs[k].SetMemory?
    requires TermsOk(f, path, ub, memory, values) && AtPoints(f, preds, b, k, path, ub, memory, values, regs) &&
      MEMORY !in regs
    requires e == Subst(f.blocks[b].instrs[k].term, Sigma(values, memory)) && IsTotal(e, f.sorts[MEMORY])
    requires GoodTerm(f, f.blocks[b].instrs[k].term, f.sorts[MEMORY], regs)
    ensures AtPoints(f, preds, b, k + 1, path, ub, e, values, regs)
  {
    hide Eval, Subst, Tracks, Reaches, CameBy, PrevRecorded, GoodTerm, Sigma, IsTotal;
    var k' := k + 1;
    forall m
      ensures AtPoint(f, preds, b, k', path, ub, e, values, regs, m)
    {
      assert AtPoint(f, preds, b, k, path, ub, memory, values, regs, m);
      TrackMemory(f, b, k, path, ub, memory, values, regs, m);
    }
  }

  lemma {:induction false} StepMemory(f: Fn, avail: seq<set<string>>, values: map<string, Expr>, preds: Preds, b: nat,
                                      k: nat, path: Expr, ub: Expr, memory: Expr)
    requires b < |f.blocks| == |avail| && k < |f.blocks[b].instrs| && f.blocks[b].instrs[k].SetMemory?
    requires BlockState(f, avail, values, preds, b, k, path, ub, memory)
    ensures BlockState(f, avail, values, preds, b, k + 1, path, ub,
                       Subst(f.blocks[b].instrs[k].term, Sigma(values, memory)))
  {
    hide Eval, Subst, Swept, AtPoints, KeysBefore, GoodTerm, Regs, Sigma, GoodFn, IsTotal;
    var i := f.blocks[b].instrs[k];
    var regs := Regs(f, avail, b, k);
    var e := Subst(i.term, Sigma(values, memory));
    OpenSwept(f, avail, values, preds, b);
    InstrGood(f, avail, b, k);
    DefGood(f, avail, b, k);
    RegsNext(f, avail, b, k);
    assert Regs(f, avail, b, k + 1) == regs;
    KeysLater(f, values, b, k, b, k + 1);
    SubstTotal(f, i.term, f.sorts[MEMORY], values, memory, regs);
    PointMemory(f, preds, b, k, path, ub, memory, values, regs, e);
  }

  // ---- Phis ----

  /** Where the path condition holds, the operands so far are filled in. */
  ghost predicate PhiFilledAll(f: Fn, vals: Vals, incoming: seq<(Expr, nat)>, i: nat, sigma: map<string, Expr>, b: nat,
                               path: Expr)
    requires i <= |incoming| && b < |f.blocks|
  {
    forall m :: On(path, m) ==> At(f, m, b).Some? && PhiFilled(vals, incoming, i, sigma, At(f, m, b).value.prev, m)
  }

  /** What the phi instruction `k` of block `b` is given. */
  ghost predicate PhiAt(f: Fn, avail: seq<set<string>>, b: nat, k: nat)
    requires b < |f.blocks| == |avail| && k < |f.blocks[b].instrs|
  {
    && f.blocks[b].instrs[k].Phi? && b > 0 && GoodReg(f, f.blocks[b].instrs[k].reg)
    && SameOperands(f.blocks[b].instrs[k].incoming)
    && forall i :: 0 <= i < |f.blocks[b].instrs[k].incoming| ==>
      GoodIncoming(f, avail, f.blocks[b].instrs[k].incoming[i].0, f.sorts[f.blocks[b].instrs[k].reg],
                   f.blocks[b].instrs[k].incoming[i].1)
  }

  lemma {:induction false} PhiGood(f: Fn, avail: seq<set<string>>, b: nat, k: nat)
    requires GoodFn(f, avail) && b < |f.blocks| == |avail| && k < |f.blocks[b].instrs| && f.blocks[b].instrs[k].Phi?
    ensures PhiAt(f, avail, b, k)
    ensures forall src ::
      0 <= src < b && JumpsTo(f.blocks[src].term, Bb(b)) ==> Incoming(f.blocks[b].instrs[k].incoming, src).Some?
  {
    InstrGood(f, avail, b, k);
    hide GoodFn, GoodIncoming, Incoming, JumpsTo;
  }

  lemma {:induction false} PhiStarts(f: Fn, avail: seq<set<string>>, values: map<string, Expr>, preds: Preds, b: nat,
                                     k: nat, path: Expr, ub: Expr, memory: Expr,
                                     incoming: seq<(Expr, nat)>, sigma: map<string, Expr>)
    requires b < |f.blocks| == |avail| && k <= |f.blocks[b].instrs| && b > 0
    requires BlockState(f, avail, values, preds, b, k, path, ub, memory)
    ensures PhiFilledAll(f, map[], incoming, 0, sigma, b, path)
  {
    hide Eval, Subst, Swept, Tracks, Reaches, CameBy, KeysBefore, Regs, TermsOk, Visit;
    forall m | On(path, m)
      ensures At(f, m, b).Some? && PhiFilled(map[], incoming, 0, sigma, At(f, m, b).value.prev, m)
    {
      assert AtPoint(f, preds, b, k, path, ub, memory, values, Regs(f, avail, b, k), m);
    }
  }

  lemma {:induction false} PhiAddAll(f: Fn, preds: Preds, b: nat, k: nat, path: Expr, ub: Expr, memory: Expr,
                                     values: map<string, Expr>, regs: set<string>,
                                     incoming: seq<(Expr, nat)>, sigma: map<string, Expr>, vals: Vals, j: nat, s: Sort)
    requires 0 < b < |f.blocks| && k <= |f.blocks[b].instrs| && AtPoints(f, preds, b, k, path, ub, memory, values, regs)
    requires j < |incoming| && SameOperands(incoming) && Recorded(preds, Bb(b), incoming[j].1)
    requires TotalVals(vals, s) && IsTotal(Subst(incoming[j].0, sigma), s) &&
      IsTotal(preds[Bb(b)][incoming[j].1].path, SBool)
    requires PhiFilledAll(f, vals, incoming, j, sigma, b, path)
    ensures WellSorted(vals, s) && Piece(Subst(incoming[j].0, sigma), preds[Bb(b)][incoming[j].1].path, s)
    ensures PhiFilledAll(f, AddTo(vals, Subst(incoming[j].0, sigma), preds[Bb(b)][incoming[j].1].path, s), incoming,
                         j + 1, sigma, b, path)
  {
    hide Eval, Subst, Tracks, Reaches, Visit, IsTotal, TotalVals, PhiFilled, AddTo, SameOperands, On;
    var src := incoming[j].1;
    var x, d := Subst(incoming[j].0, sigma), preds[Bb(b)][src].path;
    AddTotal(vals, x, d, s);
    forall m | On(path, m)
      ensures At(f, m, b).Some? && PhiFilled(AddTo(vals, x, d, s), incoming, j + 1, sigma, At(f, m, b).value.prev, m)
    {
      assert AtPoint(f, preds, b, k, path, ub, memory, values, regs, m);
      PhiStep(vals, incoming, j, sigma, At(f, m, b).value.prev, d, s, m);
    }
  }

  lemma {:induction false} PhiSkipAll(f: Fn, preds: Preds, b: nat, k: nat, path: Expr, ub: Expr, memory: Expr,
                                      values: map<string, Expr>, regs: set<string>,
                                      incoming: seq<(Expr, nat)>, sigma: map<string, Expr>, vals: Vals, j: nat)
    requires 0 < b < |f.blocks| && k <= |f.blocks[b].instrs| && AtPoints(f, preds, b, k, path, ub, memory, values, regs)
    requires j < |incoming| && !Recorded(preds, Bb(b), incoming[j].1) &&
      PhiFilledAll(f, vals, incoming, j, sigma, b, path)
    ensures PhiFilledAll(f, vals, incoming, j + 1, sigma, b, path)
  {
    hide Eval, Subst, Tracks, Reaches, Visit, PhiFilled, On, CameBy;
    forall m | On(path, m)
      ensures At(f, m, b).Some? && PhiFilled(vals, incoming, j + 1, sigma, At(f, m, b).value.prev, m)
    {
      assert AtPoint(f, preds, b, k, path, ub, memory, values, regs, m);
      PhiSkip(vals, incoming, j, sigma, At(f, m, b).value.prev, m);
    }
  }

  /** The term of a phi's operand. */
  lemma {:induction false} OperandTotal(f: Fn, avail: seq<set<string>>, values: map<string, Expr>, preds: Preds,
                                        b: nat, k: nat, path: Expr, ub: Expr, memory: Expr, j: nat)
    requires b < |f.blocks| == |avail| && k < |f.blocks[b].instrs| && PhiAt(f, avail, b, k)
    requires BlockState(f, avail, values, preds, b, k, path, ub, memory)
    requires j < |f.blocks[b].instrs[k].incoming| && Recorded(preds, Bb(b), f.blocks[b].instrs[k].incoming[j].1)
    ensures var i := f.blocks[b].instrs[k];
      && IsTotal(Subst(i.incoming[j].0, Sigma(values, memory)), f.sorts[i.reg])
      && IsTotal(preds[Bb(b)][i.incoming[j].1].path, SBool)
  {
    hide Eval, Subst, Swept, AtPoints, KeysBefore, Regs, Sigma, IsTotal, GoodTerm, NoMemory, Out;
    var i := f.blocks[b].instrs[k];
    var src := i.incoming[j].1;
    AvailOut(f, avail, values, preds, b, src);
    assert GoodIncoming(f, avail, i.incoming[j].0, f.sorts[i.reg], src);
    SubstTotal(f, i.incoming[j].0, f.sorts[i.reg], values, memory, Out(f, avail, src));
    RecordedTotal(f, avail, values, preds, b, src);
  }

  lemma {:induction false} RecordedTotal(f: Fn, avail: seq<set<string>>, values: map<string, Expr>, preds: Preds,
                                         b: nat, src: nat)
    requires Swept(f, avail, values, preds, b) && Recorded(preds, Bb(b), src)
    ensures IsTotal(preds[Bb(b)][src].path, SBool)
  {
    hide GoodFn, Edges, IsTotal, TotalVals;
    OpenFn(f, avail);
    assert RecordOk(f, avail, values, preds, b, Bb(b), src);
  }

  ghost predicate PhiValue(f: Fn, b: nat, incoming: seq<(Expr, nat)>, path: Expr, r: Expr)
    requires b < |f.blocks|
  {
    forall m :: On(path, m) ==> At(f, m, b).Some? && OperandTaken(incoming, At(f, m, b).value, Eval(r, m))
  }

  /** `v` is the operand for the block that was left to get to `c`. */
  ghost predicate OperandTaken(incoming: seq<(Expr, nat)>, c: Config, v: Value) {
    Incoming(incoming, c.prev).Some? && v == Eval(Incoming(incoming, c.prev).value, c.env)
  }

  lemma {:induction false} PointPhi(f: Fn, avail: seq<set<string>>, preds: Preds, b: nat, k: nat, path: Expr, ub: Expr,
                                    memory: Expr,
                                    values: map<string, Expr>, regs: set<string>, x: string,
                                      incoming: seq<(Expr, nat)>, r: Expr)
    requires b < |f.blocks| == |avail| && k < |f.blocks[b].instrs| && f.blocks[b].instrs[k] == Phi(x, incoming)
    requires GoodReg(f, x) && IsTotal(r, f.sorts[x]) && x !in values && PhiValue(f, b, incoming, path, r)
    requires TermsOk(f, path, ub, memory, values) && AtPoints(f, preds, b, k, path, ub, memory, values, regs)
    ensures AtPoints(f, preds, b, k + 1, path, ub, memory, values[x := r], regs + {x})
  {
    hide Eval, Tracks, Reaches, CameBy, PrevRecorded, TermsOk, Visit, Incoming, IsTotal, On;
    var k', regs', values' := k + 1, regs + {x}, values[x := r];
    forall m
      ensures AtPoint(f, preds, b, k', path, ub, memory, values', regs', m)
    {
      assert AtPoint(f, preds, b, k, path, ub, memory, values, regs, m);
      TrackPhi(f, avail, b, k, path, ub, memory, values, regs, r, m);
    }
  }

  /** The phi's term has the value of the operand for the block the run came from. */
  lemma {:induction false} StepPhi(f: Fn, avail: seq<set<string>>, values: map<string, Expr>, preds: Preds, b: nat,
                                   k: nat, path: Expr, ub: Expr, memory: Expr, r: Expr)
    requires b < |f.blocks| == |avail| && k < |f.blocks[b].instrs| && f.blocks[b].instrs[k].Phi?
    requires BlockState(f, avail, values, preds, b, k, path, ub, memory)
    requires var i := f.blocks[b].instrs[k];
      GoodReg(f, i.reg) && IsTotal(r, f.sorts[i.reg]) && PhiValue(f, b, i.incoming, path, r)
    ensures BlockState(f, avail, values[f.blocks[b].instrs[k].reg := r], preds, b, k + 1, path, ub, memory)
  {
    hide Eval, Swept, AtPoints, KeysBefore, IsTotal, Regs, GoodFn, PhiValue;
    var i := f.blocks[b].instrs[k];
    OpenSwept(f, avail, values, preds, b);
    RegsNext(f, avail, b, k);
    FreshRegister(f, avail, values, b, k, r);
    SweptGrows(f, avail, values, preds, b, i.reg, r);
    PointPhi(f, avail, preds, b, k, path, ub, memory, values, Regs(f, avail, b, k), i.reg, i.incoming, r);
  }

  lemma {:induction false} PhiOperands(f: Fn, avail: seq<set<string>>, values: map<string, Expr>, preds: Preds, b: nat,
                                       k: nat, path: Expr, ub: Expr, memory: Expr,
                                       vals: Vals, r: Expr)
    requires b < |f.blocks| == |avail| && k < |f.blocks[b].instrs| && f.blocks[b].instrs[k].Phi?
    requires BlockState(f, avail, values, preds, b, k, path, ub, memory)
    requires var i := f.blocks[b].instrs[k];
      && GoodReg(f, i.reg) && TotalVals(vals, f.sorts[i.reg]) && (vals != map[] ==> Selects(vals, r))
      && PhiFilledAll(f, vals, i.incoming, |i.incoming|, Sigma(values, memory), b, path)
    ensures PhiValue(f, b, f.blocks[b].instrs[k].incoming, path, r)
  {
    hide Eval, BlockState, Selects, TotalVals, PhiFilledAll, Sigma, On, Visit, Incoming;
    forall m | On(path, m)
      ensures At(f, m, b).Some? && OperandTaken(f.blocks[b].instrs[k].incoming, At(f, m, b).value, Eval(r, m))
    {
      PhiOperand(f, avail, values, preds, b, k, path, ub, memory, vals, r, m);
    }
  }

  lemma {:induction false} PhiOperand(f: Fn, avail: seq<set<string>>, values: map<string, Expr>, preds: Preds, b: nat,
                                      k: nat, path: Expr, ub: Expr, memory: Expr,
                                      vals: Vals, r: Expr, m: Model)
    requires b < |f.blocks| == |avail| && k < |f.blocks[b].instrs| && f.blocks[b].instrs[k].Phi? && On(path, m)
    requires BlockState(f, avail, values, preds, b, k, path, ub, memory)
    requires var i := f.blocks[b].instrs[k];
      && GoodReg(f, i.reg) && TotalVals(vals, f.sorts[i.reg]) && (vals != map[] ==> Selects(vals, r))
      && PhiFilledAll(f, vals, i.incoming, |i.incoming|, Sigma(values, memory), b, path)
    ensures At(f, m, b).Some?
    ensures var c := At(f, m, b).value; var i := f.blocks[b].instrs[k];
      Incoming(i.incoming, c.prev).Some? && Eval(r, m) == Eval(Incoming(i.incoming, c.prev).value, c.env)
  {
    hide Eval, Subst, Swept, Tracks, Reaches, KeysBefore, IsTotal, Regs, Sigma, GoodFn, Visit, CameBy, Selects,
         TotalVals, PhiFilled, GoodIncoming, SameOperands, Incoming, JumpsTo, ValuesOk;
    var i := f.blocks[b].instrs[k];
    OpenSwept(f, avail, values, preds, b);
    PhiGood(f, avail, b, k);
    assert AtPoint(f, preds, b, k, path, ub, memory, values, Regs(f, avail, b, k), m);
    var c := At(f, m, b).value;
    RecordedJumps(f, avail, values, preds, b, c.prev);
    var e := Incoming(i.incoming, c.prev).value;
    PhiPicks(vals, i.incoming, Sigma(values, memory), c.prev, r, f.sorts[i.reg], m);
    var j :| 0 <= j < |i.incoming| && i.incoming[j] == (e, c.prev);
    OperandAgrees(f, avail, values, memory, preds, b, e, f.sorts[i.reg], path, m);
  }

  lemma {:induction false} RecordedJumps(f: Fn, avail: seq<set<string>>, values: map<string, Expr>, preds: Preds,
                                         b: nat, src: nat)
    requires Swept(f, avail, values, preds, b) && Recorded(preds, Bb(b), src)
    ensures src < b <= |f.blocks| && JumpsTo(f.blocks[src].term, Bb(b))
  {
    hide GoodFn, Edges, Live;
    OpenFn(f, avail);
    assert RecordOk(f, avail, values, preds, b, Bb(b), src);
  }

  // ---- Leaving a block ----

  /** Only what block `b` records is new. */
  ghost predicate Extends(f: Fn, preds0: Preds, preds: Preds, b: nat)
    requires b < |f.blocks|
  {
    && (forall dst, src :: src != b ==>
      && InfoAt(preds, dst, src) == InfoAt(preds0, dst, src)
      && (Recorded(preds, dst, src) <==> Recorded(preds0, dst, src)))
    && (forall dst :: Recorded(preds, dst, b) ==> NewRecord(f, preds, b, dst))
    && (forall dst :: dst in preds ==> preds[dst] != map[])
  }

  ghost predicate NewRecord(f: Fn, preds: Preds, b: nat, dst: Target)
    requires b < |f.blocks| && Recorded(preds, dst, b)
  {
    Live(f, preds[dst][b]) && (dst.Bb? ==> b < dst.n < |f.blocks| && JumpsTo(f.blocks[b].term, dst))
  }

  ghost predicate Jumping(f: Fn, preds0: Preds, preds: Preds, b: nat, path: Expr, ub: Expr, memory: Expr,
                          js: seq<(Expr, Target)>)
    requires b < |f.blocks|
  {
    JumpsRecorded(f, preds, b, path, ub, memory, js) && Extends(f, preds0, preds, b)
  }

  lemma {:induction false} JumpingStarts(f: Fn, avail: seq<set<string>>, values: map<string, Expr>, preds: Preds,
                                         b: nat, path: Expr, ub: Expr, memory: Expr)
    requires b < |f.blocks| && Swept(f, avail, values, preds, b)
    ensures Jumping(f, preds, preds, b, path, ub, memory, [])
  {
    hide Eval, GoodFn, Edges, JumpInfo, JumpOn, Live, On;
    OpenFn(f, avail);
    forall dst
      ensures !Recorded(preds, dst, b)
    {
    }
    forall dst, m
      ensures JumpInfo(f, InfoAt(preds, dst, b), ub, memory)
      ensures JumpOn(InfoAt(preds, dst, b), ub, memory, On(path, m) && TakenIn([], dst, m), m)
    {
      assert !Recorded(preds, dst, b);
      NoJump(f, ub, memory, m);
    }
    forall dst
      ensures JumpInfo(f, InfoAt(preds, dst, b), ub, memory)
    {
      assert !Recorded(preds, dst, b);
      NoJump(f, ub, memory, Model(map[], map[], map[]));
    }
  }

  /** A jump whose condition is constantly false records nothing. */
  lemma {:induction false} JumpingSkips(f: Fn, preds0: Preds, preds: Preds, b: nat, path: Expr, ub: Expr, memory: Expr,
                                        js: seq<(Expr, Target)>, cond: Expr, dst: Target)
    requires b < |f.blocks| && Jumping(f, preds0, preds, b, path, ub, memory, js) && IsFalse(cond)
    ensures Jumping(f, preds0, preds, b, path, ub, memory, js + [(cond, dst)])
  {
    hide Eval, JumpInfo, JumpOn, Extends, TakenIn, On;
    forall d, m
      ensures JumpOn(InfoAt(preds, d, b), ub, memory, On(path, m) && TakenIn(js + [(cond, dst)], d, m), m)
    {
      assert JumpOn(InfoAt(preds, d, b), ub, memory, On(path, m) && TakenIn(js, d, m), m);
      TakenMore(js, cond, dst, d, m);
      NeverOn(cond, m);
    }
  }

  lemma {:induction false} NeverOn(cond: Expr, m: Model)
    requires IsFalse(cond)
    ensures !On(cond, m)
  {
  }

  /** What a jump under the condition `c` puts on record. */
  function JumpRecord(f: Fn, preds: Preds, b: nat, ub: Expr, memory: Expr, c: Expr, dst: Target): Preds
    requires CanJump(f, preds, b, ub, memory, c, dst)
  {
    Record(preds, dst, b, NewInfo(InfoAt(preds, dst, b), c, ub, memory, f.sorts[MEMORY]))
  }

  ghost predicate CanJump(f: Fn, preds: Preds, b: nat, ub: Expr, memory: Expr, c: Expr, dst: Target) {
    && MEMORY in f.sorts && IsTotal(ub, SBool) && IsTotal(memory, f.sorts[MEMORY]) && IsTotal(c, SBool)
    && JumpInfo(f, InfoAt(preds, dst, b), ub, memory) && Fits(f, InfoAt(preds, dst, b), ub, memory, c)
  }

  ghost predicate Fits(f: Fn, info: Info, ub: Expr, memory: Expr, c: Expr) {
    && MEMORY in f.sorts && WellSorted(info.ub, SBool) && WellSorted(info.mem, f.sorts[MEMORY])
    && Piece(ub, c, SBool) && Piece(memory, c, f.sorts[MEMORY]) && WF(info.path) && SortOf(info.path) == SBool
  }

  lemma {:induction false} JumpRecordIs(f: Fn, preds: Preds, b: nat, ub: Expr, memory: Expr, c: Expr, dst: Target)
    returns (info: Info)
    requires CanJump(f, preds, b, ub, memory, c, dst) && !IsFalse(c)
    ensures JumpRecord(f, preds, b, ub, memory, c, dst) == Record(preds, dst, b, info)
    ensures JumpInfo(f, info, ub, memory) && Live(f, info)
  {
    hide Eval, WF, SortOf, NewInfo, JumpInfo, Live, IsTotal, Record, InfoAt, WellSorted, Piece;
    JumpKeeps(f, InfoAt(preds, dst, b), ub, memory, c);
    info := NewInfo(InfoAt(preds, dst, b), c, ub, memory, f.sorts[MEMORY]);
  }

  lemma {:induction false} JumpRecordAt(f: Fn, preds: Preds, b: nat, ub: Expr, memory: Expr, c: Expr, dst: Target,
                                        d: Target, src: nat)
    requires CanJump(f, preds, b, ub, memory, c, dst) && !IsFalse(c)
    ensures var preds' := JumpRecord(f, preds, b, ub, memory, c, dst);
      && (d != dst || src != b ==>
        InfoAt(preds', d, src) == InfoAt(preds, d, src) && (Recorded(preds', d, src) <==> Recorded(preds, d, src)))
      && Recorded(preds', dst, b) && JumpInfo(f, InfoAt(preds', dst, b), ub, memory) && Live(f, InfoAt(preds', dst, b))
      && (d in preds' && d != dst ==> d in preds && preds'[d] == preds[d])
  {
    hide JumpRecord, JumpInfo, Live, CanJump;
    var info := JumpRecordIs(f, preds, b, ub, memory, c, dst);
    RecordAt(preds, dst, b, info, d, src);
    RecordAt(preds, dst, b, info, dst, b);
  }

  lemma {:induction false} JumpRecordOn(f: Fn, preds: Preds, b: nat, ub: Expr, memory: Expr, c: Expr, dst: Target,
                                        on: bool, m: Model)
    requires CanJump(f, preds, b, ub, memory, c, dst) && JumpOn(InfoAt(preds, dst, b), ub, memory, on, m)
    ensures JumpOn(InfoAt(JumpRecord(f, preds, b, ub, memory, c, dst), dst, b), ub, memory, on || On(c, m), m)
  {
    hide Eval, WF, SortOf, NewInfo, JumpInfo, Live, IsTotal, On, JumpOn, WellSorted, Piece;
    JumpAdds(f, InfoAt(preds, dst, b), ub, memory, c, on, m);
    RecordAt(preds, dst, b, NewInfo(InfoAt(preds, dst, b), c, ub, memory, f.sorts[MEMORY]), dst, b);
  }

  lemma {:induction false} JumpingCan(f: Fn, preds0: Preds, preds: Preds, b: nat, path: Expr, ub: Expr, memory: Expr,
                                      js: seq<(Expr, Target)>, c: Expr, dst: Target)
    requires b < |f.blocks| && MEMORY in f.sorts && IsTotal(ub, SBool) && IsTotal(memory, f.sorts[MEMORY]) &&
      IsTotal(c, SBool)
    requires Jumping(f, preds0, preds, b, path, ub, memory, js)
    ensures CanJump(f, preds, b, ub, memory, c, dst)
  {
    hide Eval, WF, SortOf, JumpInfo, JumpOn, Extends, On, IsTotal, Piece, WellSorted;
    JumpInfoSorts(f, InfoAt(preds, dst, b), ub, memory, c);
  }

  lemma {:induction false} JumpingExtends(f: Fn, preds0: Preds, preds: Preds, b: nat, ub: Expr, memory: Expr, c: Expr,
                                          dst: Target)
    requires b < |f.blocks| && CanJump(f, preds, b, ub, memory, c, dst) && !IsFalse(c) && Extends(f, preds0, preds, b)
    requires dst.Bb? ==> b < dst.n < |f.blocks| && JumpsTo(f.blocks[b].term, dst)
    ensures Extends(f, preds0, JumpRecord(f, preds, b, ub, memory, c, dst), b)
  {
    hide Eval, CanJump, JumpRecord, Live, JumpInfo, JumpsTo;
    var preds' := JumpRecord(f, preds, b, ub, memory, c, dst);
    forall d, src | src != b
      ensures InfoAt(preds', d, src) == InfoAt(preds0, d, src) &&
        (Recorded(preds', d, src) <==> Recorded(preds0, d, src))
    {
      JumpRecordAt(f, preds, b, ub, memory, c, dst, d, src);
    }
    forall d | Recorded(preds', d, b)
      ensures NewRecord(f, preds', b, d)
    {
      JumpRecordAt(f, preds, b, ub, memory, c, dst, d, b);
      if d != dst {
        assert NewRecord(f, preds, b, d);
      }
    }
    forall d | d in preds'
      ensures preds'[d] != map[]
    {
      JumpRecordAt(f, preds, b, ub, memory, c, dst, d, b);
      if d == dst {
        assert b in preds'[d];
      }
    }
  }

  lemma {:induction false} JumpingAdds(f: Fn, preds0: Preds, preds: Preds, b: nat, path: Expr, ub: Expr, memory: Expr,
                                       js: seq<(Expr, Target)>, cond: Expr, c: Expr, dst: Target)
    requires b < |f.blocks| && CanJump(f, preds, b, ub, memory, c, dst) && !IsFalse(c)
    requires dst.Bb? ==> b < dst.n < |f.blocks| && JumpsTo(f.blocks[b].term, dst)
    requires Jumping(f, preds0, preds, b, path, ub, memory, js)
    requires forall m :: On(c, m) <==> On(cond, m) && On(path, m)
    ensures Jumping(f, preds0, JumpRecord(f, preds, b, ub, memory, c, dst), b, path, ub, memory, js + [(cond, dst)])
  {
    hide Eval, JumpInfo, JumpOn, Extends, On, CanJump, JumpRecord, TakenIn, JumpsTo, IsFalse, InfoAt, Live;
    JumpingExtends(f, preds0, preds, b, ub, memory, c, dst);
    var preds' := JumpRecord(f, preds, b, ub, memory, c, dst);
    forall d
      ensures JumpInfo(f, InfoAt(preds', d, b), ub, memory)
    {
      JumpRecordAt(f, preds, b, ub, memory, c, dst, d, b);
    }
    forall d, m
      ensures JumpOn(InfoAt(preds', d, b), ub, memory, On(path, m) && TakenIn(js + [(cond, dst)], d, m), m)
    {
      assert JumpOn(InfoAt(preds, d, b), ub, memory, On(path, m) && TakenIn(js, d, m), m);
      TakenMore(js, cond, dst, d, m);
      if d == dst {
        JumpRecordOn(f, preds, b, ub, memory, c, dst, On(path, m) && TakenIn(js, d, m), m);
      } else {
        JumpRecordAt(f, preds, b, ub, memory, c, dst, d, b);
      }
    }
  }

  /** The condition of a terminator, as a term. */
  ghost predicate JumpTerm(f: Fn, b: nat, path: Expr, v: Expr)
    requires b < |f.blocks|
  {
    var t := f.blocks[b].term;
    GoodJump(t, v) && (!t.Jump? ==> forall m :: EndsAs(f, b, path, v, t.cond, m))
  }

  /** The term `v` has the value `e` has at the end of the block. */
  ghost predicate EndsAs(f: Fn, b: nat, path: Expr, v: Expr, e: Expr, m: Model)
    requires b < |f.blocks|
  {
    On(path, m) ==> At(f, m, b).Some? && Eval(v, m) == Eval(e, After(f, At(f, m, b).value, |f.blocks[b].instrs|).0)
  }

  lemma {:induction false} TerminatorTerm(f: Fn, avail: seq<set<string>>, values: map<string, Expr>, preds: Preds,
                                          b: nat, path: Expr, ub: Expr, memory: Expr, e: Expr, s: Sort)
    requires b < |f.blocks| == |avail| && GoodTerm(f, e, s, Out(f, avail, b))
    requires BlockState(f, avail, values, preds, b, |f.blocks[b].instrs|, path, ub, memory)
    ensures IsTotal(Subst(e, Sigma(values, memory)), s)
    ensures forall m :: EndsAs(f, b, path, Subst(e, Sigma(values, memory)), e, m)
  {
    hide Eval, Subst, Swept, Tracks, Reaches, CameBy, PrevRecorded, KeysBefore, IsTotal, GoodTerm, Sigma, On, Visit,
         After, Defs;
    var regs := Out(f, avail, b);
    assert regs == Regs(f, avail, b, |f.blocks[b].instrs|);
    SubstTotal(f, e, s, values, memory, regs);
    var v := Subst(e, Sigma(values, memory));
    forall m
      ensures EndsAs(f, b, path, v, e, m)
    {
      if On(path, m) {
        assert AtPoint(f, preds, b, |f.blocks[b].instrs|, path, ub, memory, values, regs, m);
        EndValues(f, b, |f.blocks[b].instrs|, path, ub, memory, values, regs, m);
        GoodTermAgrees(f, e, s, values, memory, m, After(f, At(f, m, b).value, |f.blocks[b].instrs|).0, regs);
      }
    }
  }

  ghost predicate EdgeFrom(f: Fn, avail: seq<set<string>>, values: map<string, Expr>, info: Info, src: nat,
                           dst: Target, m: Model) {
    src < |f.blocks| == |avail| && MEMORY in f.sorts && EdgeOk(f, values, Out(f, avail, src), info, src, dst, m)
  }

  lemma {:induction false} EndPoint(f: Fn, avail: seq<set<string>>, values: map<string, Expr>, preds: Preds, b: nat,
                                    path: Expr, ub: Expr, memory: Expr, m: Model)
    requires b < |f.blocks| == |avail| && BlockState(f, avail, values, preds, b, |f.blocks[b].instrs|, path, ub, memory)
    ensures Tracks(f, b, |f.blocks[b].instrs|, path, ub, memory, values, Out(f, avail, b), m) && Reaches(f, b, path, m)
  {
    hide Eval, Swept, KeysBefore, TermsOk, Tracks, Reaches, CameBy, PrevRecorded, Defs;
    assert Out(f, avail, b) == Regs(f, avail, b, |f.blocks[b].instrs|);
    assert AtPoint(f, preds, b, |f.blocks[b].instrs|, path, ub, memory, values, Out(f, avail, b), m);
  }

  lemma {:induction false} JumpTermAt(f: Fn, b: nat, path: Expr, v: Expr, m: Model)
    requires b < |f.blocks| && JumpTerm(f, b, path, v)
    ensures GoodJump(f.blocks[b].term, v) &&
      (!f.blocks[b].term.Jump? ==> EndsAs(f, b, path, v, f.blocks[b].term.cond, m))
  {
    hide EndsAs, IsTotal, ConstCases, CasesSorted;
  }

  lemma {:induction false} JumpOnAt(f: Fn, preds0: Preds, preds: Preds, b: nat, path: Expr, ub: Expr, memory: Expr,
                                    js: seq<(Expr, Target)>, dst: Target, m: Model)
    requires b < |f.blocks| && Jumping(f, preds0, preds, b, path, ub, memory, js)
    ensures JumpOn(InfoAt(preds, dst, b), ub, memory, On(path, m) && TakenIn(js, dst, m), m)
  {
    hide Eval, JumpInfo, JumpOn, Extends, On, TakenIn;
  }

  /** Every edge out of the block is right once all its jumps are on record. */
  lemma {:induction false} JumpsLeave(f: Fn, avail: seq<set<string>>, values: map<string, Expr>, preds0: Preds,
                                      preds: Preds, b: nat, path: Expr, ub: Expr, memory: Expr,
                                      v: Expr, js: seq<(Expr, Target)>, dst: Target, m: Model)
    requires b < |f.blocks| == |avail| && MEMORY in f.sorts && GuardedOk(f.blocks[b].term, v) &&
      js == GuardedJumps(f, b, f.blocks[b].term, v)
    requires JumpTerm(f, b, path, v) && Jumping(f, preds0, preds, b, path, ub, memory, js)
    requires BlockState(f, avail, values, preds0, b, |f.blocks[b].instrs|, path, ub, memory)
    ensures EdgeFrom(f, avail, values, InfoAt(preds, dst, b), b, dst, m)
  {
    hide Eval, BlockState, Tracks, Reaches, JumpTerm, Jumping, JumpOn, On, TakenIn, GuardedJumps, Visit, After, Out,
         EdgeOk, IsTotal, ConstCases, CasesSorted;
    EndPoint(f, avail, values, preds0, b, path, ub, memory, m);
    JumpTermAt(f, b, path, v, m);
    JumpOnAt(f, preds0, preds, b, path, ub, memory, js, dst, m);
    EdgeLeaves(f, b, path, ub, memory, values, Out(f, avail, b), v, InfoAt(preds, dst, b), dst, m);
  }

  ghost predicate GuardedOk(t: Terminator, v: Expr) {
    (t.CondJump? ==> WF(v) && SortOf(v) == SBv(1)) && (t.Switch? ==> CasesSorted(t.cases, v))
  }

  lemma {:induction false} RecordingsLeave(f: Fn, avail: seq<set<string>>, values: map<string, Expr>, preds0: Preds,
                                           preds: Preds, b: nat)
    requires b < |f.blocks| == |avail| && Recordings(f, avail, values, preds0, b) && Extends(f, preds0, preds, b) &&
      Out(f, avail, b) <= values.Keys
    ensures Recordings(f, avail, values, preds, b + 1)
  {
    hide Live, JumpsTo, Out;
    forall dst, src | Recorded(preds, dst, src)
      ensures RecordOk(f, avail, values, preds, b + 1, dst, src)
    {
      if src == b {
        assert NewRecord(f, preds, b, dst);
      } else {
        assert Recorded(preds0, dst, src) && InfoAt(preds, dst, src) == InfoAt(preds0, dst, src);
        assert RecordOk(f, avail, values, preds0, b, dst, src);
      }
    }
  }

  lemma {:induction false} BlockLeft(f: Fn, avail: seq<set<string>>, values: map<string, Expr>, preds0: Preds,
                                     preds: Preds, b: nat, path: Expr, ub: Expr, memory: Expr,
                                     v: Expr, js: seq<(Expr, Target)>)
    requires b < |f.blocks| == |avail| && MEMORY in f.sorts && GuardedOk(f.blocks[b].term, v) &&
      js == GuardedJumps(f, b, f.blocks[b].term, v)
    requires JumpTerm(f, b, path, v) && Jumping(f, preds0, preds, b, path, ub, memory, js)
    requires BlockState(f, avail, values, preds0, b, |f.blocks[b].instrs|, path, ub, memory)
    ensures Swept(f, avail, values, preds, b + 1)
  {
    hide Eval, GoodFn, Recordings, EdgeOk, Defs, InfoAt, JumpTerm, GuardedOk, JumpsRecorded, GuardedJumps, AtPoints,
         KeysBefore, TermsOk, ValuesOk;
    assert Out(f, avail, b) == Regs(f, avail, b, |f.blocks[b].instrs|);
    RecordingsLeave(f, avail, values, preds0, preds, b);
    forall dst, src: nat, m | src < b + 1
      ensures EdgeOk(f, values, Out(f, avail, src), InfoAt(preds, dst, src), src, dst, m)
    {
      if src == b {
        JumpsLeave(f, avail, values, preds0, preds, b, path, ub, memory, v, js, dst, m);
      } else {
        assert InfoAt(preds, dst, src) == InfoAt(preds0, dst, src);
        assert EdgeOk(f, values, Out(f, avail, src), InfoAt(preds0, dst, src), src, dst, m);
      }
    }
  }

  /** A block that was skipped, or that does not jump, leaves nothing behind. */
  lemma {:induction false} BlockSilent(f: Fn, avail: seq<set<string>>, values: map<string, Expr>, preds: Preds, b: nat)
    requires b < |f.blocks| && Swept(f, avail, values, preds, b)
    requires f.blocks[b].term.Return? || f.blocks[b].term.Unreachable? || forall m ::
      At(f, m, b).Some? ==> !At(f, m, b).value.ok
    ensures Swept(f, avail, values, preds, b + 1)
  {
    hide Eval, GoodFn, EdgeOk, Out, Live, Visit, JumpsTo;
    OpenFn(f, avail);
    assert Recordings(f, avail, values, preds, b + 1) by {
      forall dst, src | Recorded(preds, dst, src)
        ensures RecordOk(f, avail, values, preds, b + 1, dst, src)
      {
        assert RecordOk(f, avail, values, preds, b, dst, src);
      }
    }
    forall dst, src: nat, m | src < b + 1
      ensures EdgeOk(f, values, Out(f, avail, src), InfoAt(preds, dst, src), src, dst, m)
    {
      if src == b {
        assert !Recorded(preds, dst, b);
        EdgeNone(f, b, values, Out(f, avail, b), dst, m);
      } else {
        assert EdgeOk(f, values, Out(f, avail, src), InfoAt(preds, dst, src), src, dst, m);
      }
    }
  }
}

/** The state of the symbolic executor and its steps. */
module SymState {
  import opened Bits
  import opened Terms
  import opened SmartExpr
  import opened SmartMeaning
  import opened SmartArith
  import opened Disjoint
  import opened Total
  import opened SymModel
  import opened SymTrack
  import opened SymExec

  // ---- Phis ----

  /** Where the path condition holds, so does the condition of the edge the run came by,
      and of no other. */
  ghost predicate CameBy(f: Fn, preds: Preds, b: nat, path: Expr, m: Model)
    requires b < |f.blocks|
  {
    On(path, m) && b > 0 ==>
      && At(f, m, b).Some? && Bb(b) in preds
      && forall src :: src in preds[Bb(b)] ==> (On(preds[Bb(b)][src].path, m) <==> src == At(f, m, b).value.prev)
  }

  ghost predicate PrevRecorded(f: Fn, preds: Preds, b: nat, path: Expr, m: Model)
    requires b < |f.blocks|
  {
    On(path, m) && b > 0 ==> At(f, m, b).Some? && Recorded(preds, Bb(b), At(f, m, b).value.prev)
  }

  lemma {:induction false} EnteredCameBy(f: Fn, avail: seq<set<string>>, values: map<string, Expr>, preds: Preds,
                                         b: nat,
                                         path: Expr, ubs: Vals, mems: Vals, m: Model)
    requires Swept(f, avail, values, preds, b) && 0 < b < |f.blocks| && Merged(f, preds, b, path, ubs, mems, m)
    ensures CameBy(f, preds, b, path, m) && PrevRecorded(f, preds, b, path, m)
  {
    hide Eval, Visit, Exec, TotalVals, Swept, On, SameActive, JoinedFrom, EdgeOk, Live, Out;
    if On(path, m) {
      var src := SomeEdgeOn(preds[Bb(b)], path, ubs, mems, m);
      EdgeTaken(f, avail, values, preds, b, src, m);
      OnePredecessor(f, m, src, src, b);
      EdgesExclusive(f, avail, values, preds, b, m);
    }
  }

  /** The operands added so far include the one for the previous block. */
  ghost predicate PhiFilled(vals: Vals, incoming: seq<(Expr, nat)>, i: nat, sigma: map<string, Expr>, prev: nat,
                            m: Model)
    requires i <= |incoming|
  {
    forall x :: Active(vals, x, m) <==>
      exists j :: 0 <= j < i && incoming[j].1 == prev && x == Subst(incoming[j].0, sigma)
  }

  ghost predicate SameOperands(incoming: seq<(Expr, nat)>) {
    forall i, j :: 0 <= i < |incoming| && 0 <= j < |incoming| && incoming[i].1 == incoming[j].1 ==>
      incoming[i].0 == incoming[j].0
  }

  lemma {:induction false} PhiStep(vals: Vals, incoming: seq<(Expr, nat)>, i: nat, sigma: map<string, Expr>, prev: nat,
                                   dom: Expr, s: Sort, m: Model)
    requires i < |incoming| && TotalVals(vals, s) && IsTotal(Subst(incoming[i].0, sigma), s) && IsTotal(dom, SBool)
    requires SameOperands(incoming) && (On(dom, m) <==> incoming[i].1 == prev) &&
      PhiFilled(vals, incoming, i, sigma, prev, m)
    ensures WellSorted(vals, s) && Piece(Subst(incoming[i].0, sigma), dom, s)
    ensures PhiFilled(AddTo(vals, Subst(incoming[i].0, sigma), dom, s), incoming, i + 1, sigma, prev, m)
  {
    hide Eval, Subst, On, IsTotal, TotalVals, AddTo;
    AddTotalActive(vals, Subst(incoming[i].0, sigma), dom, s, m);
  }

  lemma {:induction false} PhiSkip(vals: Vals, incoming: seq<(Expr, nat)>, i: nat, sigma: map<string, Expr>, prev: nat,
                                   m: Model)
    requires i < |incoming| && incoming[i].1 != prev && PhiFilled(vals, incoming, i, sigma, prev, m)
    ensures PhiFilled(vals, incoming, i + 1, sigma, prev, m)
  {
    hide Eval, Subst, On;
  }

  lemma {:induction false} PhiPicks(vals: Vals, incoming: seq<(Expr, nat)>, sigma: map<string, Expr>, prev: nat,
                                    r: Expr, s: Sort, m: Model)
    requires TotalVals(vals, s) && SameOperands(incoming) && PhiFilled(vals, incoming, |incoming|, sigma, prev, m)
    requires Incoming(incoming, prev).Some? && (vals != map[] ==> Selects(vals, r))
    ensures Eval(r, m) == Eval(Subst(Incoming(incoming, prev).value, sigma), m)
  {
    hide Eval, Subst, On, IsTotal;
    TotalValsFacts(vals, s);
    var e := Incoming(incoming, prev).value;
    var j :| 0 <= j < |incoming| && incoming[j] == (e, prev);
    var x := Subst(e, sigma);
    assert Active(vals, x, m);
    assert Only(vals, x, m);
  }

  lemma {:induction false} TrackPhi(f: Fn, avail: seq<set<string>>, b: nat, k: nat, path: Expr, ub: Expr, memory: Expr,
                                    values: map<string, Expr>, regs: set<string>, r: Expr, m: Model)
    requires |avail| == |f.blocks| && b < |f.blocks| && k < |f.blocks[b].instrs| && f.blocks[b].instrs[k].Phi?
    requires TermsOk(f, path, ub, memory, values) && Tracks(f, b, k, path, ub, memory, values, regs, m)
    requires var i := f.blocks[b].instrs[k]; GoodReg(f, i.reg) && IsTotal(r, f.sorts[i.reg]) && i.reg !in values
    requires var i := f.blocks[b].instrs[k];
      On(path, m) ==> At(f, m, b).Some? && var c := At(f, m, b).value;
        Incoming(i.incoming, c.prev).Some? && Eval(r, m) == Eval(Incoming(i.incoming, c.prev).value, c.env)
    ensures var i := f.blocks[b].instrs[k];
      Tracks(f, b, k + 1, path, ub, memory, values[i.reg := r], regs + {i.reg}, m)
  {
    hide Eval, Subst, Visit, RegsAgree, MemoryAgrees, ValuesOk, IsTotal, Bind, Incoming;
    if On(path, m) {
      var i := f.blocks[b].instrs[k];
      var env := After(f, At(f, m, b).value, k).0;
      DefineAgrees(f, values, memory, m, env, regs, i.reg, r);
    }
  }

  /** The operand for the previous block, read where that block ended. */
  lemma {:induction false} OperandAgrees(f: Fn, avail: seq<set<string>>, values: map<string, Expr>, memory: Expr,
                                         preds: Preds,
                                         b: nat, e: Expr, s: Sort, path: Expr, m: Model)
    requires Swept(f, avail, values, preds, b) && 0 < b < |f.blocks| && On(path, m) && |avail| == |f.blocks|
    requires CameBy(f, preds, b, path, m) && PrevRecorded(f, preds, b, path, m)
    requires GoodIncoming(f, avail, e, s, At(f, m, b).value.prev) && MEMORY in f.sorts &&
      IsTotal(memory, f.sorts[MEMORY])
    ensures Eval(Subst(e, Sigma(values, memory)), m) == Eval(e, At(f, m, b).value.env)
  {
    hide Eval, Subst, Visit, Exec, RegsAgree, Swept, On, IsTotal, Out, GoodTerm, Picks, NoMemory, Took, Live;
    var c := At(f, m, b).value;
    EdgeTaken(f, avail, values, preds, b, c.prev, m);
    OpenTook(f, m, c.prev, Bb(b));
    SweptValues(f, avail, values, preds, b);
    GoodTermAgrees(f, e, s, values, memory, m, c.env, Out(f, avail, c.prev));
  }

  lemma {:induction false} SweptValues(f: Fn, avail: seq<set<string>>, values: map<string, Expr>, preds: Preds, b: nat)
    requires Swept(f, avail, values, preds, b)
    ensures ValuesOk(f, values)
  {
    hide GoodFn, Recordings, Edges;
  }

  // ---- Jumps ----

  function NewInfo(info: Info, cond: Expr, ub: Expr, memory: Expr, ghost ms: Sort): Info
    requires WellSorted(info.ub, SBool) && WellSorted(info.mem, ms) && Piece(ub, cond, SBool) && Piece(memory, cond, ms)
    requires WF(info.path) && SortOf(info.path) == SBool
  {
    Info(MkOr(info.path, cond), AddTo(info.ub, ub, cond, SBool), AddTo(info.mem, memory, cond, ms))
  }

  function Record(preds: Preds, dst: Target, src: nat, info: Info): Preds {
    preds[dst := (if dst in preds then preds[dst] else map[])[src := info]]
  }

  lemma {:induction false} RecordAt(preds: Preds, dst: Target, src: nat, info: Info, dst': Target, src': nat)
    ensures InfoAt(Record(preds, dst, src, info), dst', src') ==
      if dst' == dst && src' == src then info else InfoAt(preds, dst', src')
    ensures Recorded(Record(preds, dst, src, info), dst', src') <==>
      (dst' == dst && src' == src) || Recorded(preds, dst', src')
  {
  }

  /** What the jumps of the current block have recorded for one target: nothing, or the
      one memory and the one condition there are. */
  ghost predicate JumpInfo(f: Fn, info: Info, ub: Expr, memory: Expr) {
    && InfoOk(f, info) && (info == NO_INFO || Live(f, info))
    && (forall x :: x in info.ub ==> x == ub) && (forall x :: x in info.mem ==> x == memory)
  }

  ghost predicate JumpOn(info: Info, ub: Expr, memory: Expr, on: bool, m: Model) {
    && (On(info.path, m) <==> on)
    && (forall x :: Active(info.ub, x, m) <==> x == ub && on)
    && (forall x :: Active(info.mem, x, m) <==> x == memory && on)
  }

  lemma {:induction false} NoJump(f: Fn, ub: Expr, memory: Expr, m: Model)
    requires MEMORY in f.sorts
    ensures JumpInfo(f, NO_INFO, ub, memory) && JumpOn(NO_INFO, ub, memory, false, m)
  {
    ConstTotal(false);
  }

  lemma {:induction false} JumpInfoSorts(f: Fn, info: Info, ub: Expr, memory: Expr, cond: Expr)
    requires JumpInfo(f, info, ub, memory) && IsTotal(ub, SBool) && IsTotal(memory, f.sorts[MEMORY]) &&
      IsTotal(cond, SBool)
    ensures WellSorted(info.ub, SBool) && WellSorted(info.mem, f.sorts[MEMORY])
    ensures Piece(ub, cond, SBool) && Piece(memory, cond, f.sorts[MEMORY]) && WF(info.path) &&
      SortOf(info.path) == SBool
  {
    hide Eval, WF, SortOf;
    TotalValsFacts(info.ub, SBool);
    TotalValsFacts(info.mem, f.sorts[MEMORY]);
  }

  /** Adding a value to a map that guards at most that one. */
  lemma {:induction false} AddSame(vals: Vals, val: Expr, dom: Expr, s: Sort)
    requires TotalVals(vals, s) && IsTotal(val, s) && IsTotal(dom, SBool) && !IsFalse(dom)
    requires (forall x :: x in vals ==> x == val) && (vals == map[] || OneValue(vals))
    ensures WellSorted(vals, s) && Piece(val, dom, s)
    ensures var r := AddTo(vals, val, dom, s); TotalVals(r, s) && OneValue(r) && forall x :: x in r ==> x == val
  {
    hide Eval, WF, SortOf, MkOr;
    AddTotal(vals, val, dom, s);
    if val in vals {
      OrTotal(vals[val], dom);
    }
  }

  lemma {:induction false} JumpKeeps(f: Fn, info: Info, ub: Expr, memory: Expr, cond: Expr)
    requires JumpInfo(f, info, ub, memory) && IsTotal(ub, SBool) && IsTotal(memory, f.sorts[MEMORY]) &&
      IsTotal(cond, SBool) && !IsFalse(cond)
    ensures WellSorted(info.ub, SBool) && WellSorted(info.mem, f.sorts[MEMORY])
    ensures Piece(ub, cond, SBool) && Piece(memory, cond, f.sorts[MEMORY]) && WF(info.path) &&
      SortOf(info.path) == SBool
    ensures var r := NewInfo(info, cond, ub, memory, f.sorts[MEMORY]); JumpInfo(f, r, ub, memory) && Live(f, r)
  {
    hide Eval, WF, SortOf, MkOr, AddTo, TotalVals, OneValue;
    JumpInfoSorts(f, info, ub, memory, cond);
    NoInfoEmpty(info);
    AddSame(info.ub, ub, cond, SBool);
    AddSame(info.mem, memory, cond, f.sorts[MEMORY]);
    OrTotal(info.path, cond);
  }

  lemma {:induction false} NoInfoEmpty(info: Info)
    ensures info == NO_INFO ==> info.ub == map[] && info.mem == map[]
  {
  }

  lemma {:induction false} JumpAdds(f: Fn, info: Info, ub: Expr, memory: Expr, cond: Expr, on: bool, m: Model)
    requires JumpInfo(f, info, ub, memory) && IsTotal(ub, SBool) && IsTotal(memory, f.sorts[MEMORY]) &&
      IsTotal(cond, SBool)
    requires JumpOn(info, ub, memory, on, m)
    ensures WellSorted(info.ub, SBool) && WellSorted(info.mem, f.sorts[MEMORY])
    ensures Piece(ub, cond, SBool) && Piece(memory, cond, f.sorts[MEMORY]) && WF(info.path) &&
      SortOf(info.path) == SBool
    ensures JumpOn(NewInfo(info, cond, ub, memory, f.sorts[MEMORY]), ub, memory, on || On(cond, m), m)
  {
    hide Eval, WF, SortOf, MkOr, AddTo, On, TotalVals, Live;
    JumpInfoSorts(f, info, ub, memory, cond);
    AddTotalActive(info.ub, ub, cond, SBool, m);
    AddTotalActive(info.mem, memory, cond, f.sorts[MEMORY], m);
    OrTotal(info.path, cond);
  }

  /** One of the guarded jumps `js` to `dst` is taken. */
  ghost predicate TakenIn(js: seq<(Expr, Target)>, dst: Target, m: Model) {
    exists j :: 0 <= j < |js| && js[j].1 == dst && On(js[j].0, m)
  }

  lemma {:induction false} TakenMore(js: seq<(Expr, Target)>, cond: Expr, dst: Target, dst': Target, m: Model)
    ensures TakenIn(js + [(cond, dst)], dst', m) <==> TakenIn(js, dst', m) || (dst' == dst && On(cond, m))
  {
    hide On;
    var js' := js + [(cond, dst)];
    if dst' == dst && On(cond, m) {
      assert js'[|js|].1 == dst' && On(js'[|js|].0, m);
    }
    if j :| 0 <= j < |js| && js[j].1 == dst' && On(js[j].0, m) {
      assert js'[j].1 == dst' && On(js'[j].0, m);
    }
  }

  /** The condition `v` and the cases have one sort. */
  ghost predicate CasesSorted(cases: seq<(Expr, Target)>, v: Expr) {
    WF(v) && forall i :: 0 <= i < |cases| ==> WF(cases[i].0) && SortOf(cases[i].0) == SortOf(v)
  }

  /** The guarded jumps of a terminator, once its condition is the term `v`. */
  function GuardedJumps(f: Fn, b: nat, t: Terminator, v: Expr): seq<(Expr, Target)>
    requires t.CondJump? ==> WF(v) && SortOf(v) == SBv(1)
    requires t.Switch? ==> CasesSorted(t.cases, v)
  {
    match t
    case Jump(dst) => [(Bool(true), Redirect(f, b, dst))]
    case CondJump(_, d, d') =>
      var isFalse := MkEq(v, UInt(0, 1));
      [(MkNot(isFalse), Redirect(f, b, d)), (isFalse, Redirect(f, b, d'))]
    case Switch(_, cases, d) => CaseJumps(f, b, cases, v, |cases|) +
      [(DefaultCond(cases, v, |cases|), Redirect(f, b, d))]
    case _ => []
  }

  function CaseJumps(f: Fn, b: nat, cases: seq<(Expr, Target)>, v: Expr, k: nat): (r: seq<(Expr, Target)>)
    requires k <= |cases| && CasesSorted(cases, v)
    ensures |r| == k && forall i :: 0 <= i < k ==> r[i] == (MkEq(v, cases[i].0), Redirect(f, b, cases[i].1))
  {
    if k == 0 then []
    else CaseJumps(f, b, cases, v, k - 1) + [(MkEq(v, cases[k - 1].0), Redirect(f, b, cases[k - 1].1))]
  }

  function DefaultCond(cases: seq<(Expr, Target)>, v: Expr, k: nat): (r: Expr)
    requires k <= |cases| && CasesSorted(cases, v)
    ensures WF(r) && SortOf(r) == SBool
  {
    if k == 0 then Bool(true) else MkAnd(DefaultCond(cases, v, k - 1), MkNot(MkEq(v, cases[k - 1].0)))
  }

  ghost predicate ConstCases(cases: seq<(Expr, Target)>, s: Sort) {
    forall i :: 0 <= i < |cases| ==> cases[i].0.Bv? && IsTotal(cases[i].0, s)
  }

  lemma {:induction false} DefaultMeans(cases: seq<(Expr, Target)>, v: Expr, s: Sort, k: nat)
    requires k <= |cases| && IsTotal(v, s) && ConstCases(cases, s) && CasesSorted(cases, v)
    ensures IsTotal(DefaultCond(cases, v, k), SBool)
    ensures forall m :: On(DefaultCond(cases, v, k), m) <==> forall i ::
      0 <= i < k ==> Eval(cases[i].0, m) != Eval(v, m)
    decreases k
  {
    hide Eval, WF, SortOf, MkEq, MkNot, MkAnd;
    if k == 0 {
      ConstTotal(true);
    } else {
      DefaultMeans(cases, v, s, k - 1);
      EqTotal(v, cases[k - 1].0, s);
      NotTotal(MkEq(v, cases[k - 1].0));
      AndTotal(DefaultCond(cases, v, k - 1), MkNot(MkEq(v, cases[k - 1].0)));
      forall m
        ensures On(DefaultCond(cases, v, k), m) <==> forall i :: 0 <= i < k ==> Eval(cases[i].0, m) != Eval(v, m)
      {
      }
    }
  }

  lemma {:induction false} ChosenFirst(cases: seq<(Expr, Target)>, v: Value, env: Model, default: Target, k: nat)
    requires k < |cases| && Eval(cases[k].0, env) == v && forall j :: 0 <= j < k ==> Eval(cases[j].0, env) != v
    ensures Chosen(cases, v, env, default) == cases[k].1
    decreases k
  {
    hide Eval;
    if k > 0 {
      var rest := cases[1..];
      assert forall j :: 0 <= j < |rest| ==> rest[j] == cases[j + 1];
      ChosenFirst(rest, v, env, default, k - 1);
    }
  }

  lemma {:induction false} ChosenDefault(cases: seq<(Expr, Target)>, v: Value, env: Model, default: Target)
    requires forall j :: 0 <= j < |cases| ==> Eval(cases[j].0, env) != v
    ensures Chosen(cases, v, env, default) == default
    decreases |cases|
  {
    hide Eval;
    if cases != [] {
      var rest := cases[1..];
      assert forall j :: 0 <= j < |rest| ==> rest[j] == cases[j + 1];
      ChosenDefault(rest, v, env, default);
    }
  }

  ghost predicate GoodJump(t: Terminator, v: Expr) {
    match t
    case Jump(_) => true
    case CondJump(_, _, _) => IsTotal(v, SBv(1))
    case Switch(_, cases, _) =>
      && IsTotal(v, SortOf(v)) && ConstCases(cases, SortOf(v)) && CasesSorted(cases, v)
      && forall i, j :: 0 <= i < j < |cases| ==> cases[i].0 != cases[j].0
    case _ => false
  }

  lemma {:induction false} CasesAreSorted(cases: seq<(Expr, Target)>, v: Expr, s: Sort)
    requires IsTotal(v, s) && ConstCases(cases, s)
    ensures CasesSorted(cases, v)
  {
    hide Eval, WF, SortOf;
  }

  /** At most one case matches, the same one under the valuation and in the run. */
  lemma {:induction false} CasesTaken(f: Fn, b: nat, cases: seq<(Expr, Target)>, v: Expr, s: Sort, env: Model, m: Model)
    requires IsTotal(v, s) && ConstCases(cases, s) && CasesSorted(cases, v) && forall i, j ::
      0 <= i < j < |cases| ==> cases[i].0 != cases[j].0
    ensures forall i :: 0 <= i < |cases| ==> Eval(cases[i].0, m) == Eval(cases[i].0, env)
    ensures forall i, j :: 0 <= i < j < |cases| ==> Eval(cases[i].0, env) != Eval(cases[j].0, env)
    ensures forall i :: 0 <= i < |cases| ==>
      (On(CaseJumps(f, b, cases, v, |cases|)[i].0, m) <==> Eval(cases[i].0, m) == Eval(v, m))
  {
    hide Eval, WF, SortOf, MkEq, CaseJumps, Redirect;
    forall i | 0 <= i < |cases|
      ensures Eval(cases[i].0, m) == Eval(cases[i].0, env) == V(cases[i].0.bits)
      ensures On(CaseJumps(f, b, cases, v, |cases|)[i].0, m) <==> Eval(cases[i].0, m) == Eval(v, m)
    {
      OpenBv(cases[i].0, m);
      OpenBv(cases[i].0, env);
      EqTotal(v, cases[i].0, s);
    }
  }

  /** The case that matches is the one chosen and the one whose jump is on. */
  lemma {:induction false} MatchTaken(f: Fn, b: nat, cases: seq<(Expr, Target)>, default: Target, v: Expr, s: Sort,
                                      env: Model, k: nat, dst: Target, m: Model)
    requires IsTotal(v, s) && ConstCases(cases, s) && CasesSorted(cases, v) && forall i, j ::
      0 <= i < j < |cases| ==> cases[i].0 != cases[j].0
    requires k < |cases| && Eval(cases[k].0, env) == Eval(v, m)
    ensures Chosen(cases, Eval(v, m), env, default) == cases[k].1
    ensures TakenIn(CaseJumps(f, b, cases, v, |cases|), dst, m) <==> Redirect(f, b, cases[k].1) == dst
  {
    hide Eval, WF, SortOf, MkEq, CaseJumps, Redirect, IsTotal, ConstCases, CasesSorted, On;
    CasesTaken(f, b, cases, v, s, env, m);
    ChosenFirst(cases, Eval(v, m), env, default, k);
    var js := CaseJumps(f, b, cases, v, |cases|);
    assert On(js[k].0, m) && js[k].1 == Redirect(f, b, cases[k].1);
  }

  lemma {:induction false} SwitchTaken(f: Fn, b: nat, cases: seq<(Expr, Target)>, default: Target, v: Expr, s: Sort,
                                       env: Model, dst: Target, m: Model)
    requires IsTotal(v, s) && ConstCases(cases, s) && CasesSorted(cases, v) && forall i, j ::
      0 <= i < j < |cases| ==> cases[i].0 != cases[j].0
    ensures var js := CaseJumps(f, b, cases, v, |cases|) + [(DefaultCond(cases, v, |cases|), Redirect(f, b, default))];
      TakenIn(js, dst, m) <==> Redirect(f, b, Chosen(cases, Eval(v, m), env, default)) == dst
  {
    hide Eval, WF, SortOf, MkEq, CaseJumps, DefaultCond, Redirect, IsTotal, ConstCases, CasesSorted, On, Chosen;
    CasesTaken(f, b, cases, v, s, env, m);
    DefaultMeans(cases, v, s, |cases|);
    TakenMore(CaseJumps(f, b, cases, v, |cases|), DefaultCond(cases, v, |cases|), Redirect(f, b, default), dst, m);
    if k :| 0 <= k < |cases| && Eval(cases[k].0, env) == Eval(v, m) {
      MatchTaken(f, b, cases, default, v, s, env, k, dst, m);
    } else {
      ChosenDefault(cases, Eval(v, m), env, default);
    }
  }

  lemma {:induction false} CondTaken(f: Fn, b: nat, v: Expr, d: Target, d': Target, dst: Target, m: Model)
    requires IsTotal(v, SBv(1))
    ensures var isFalse := MkEq(v, UInt(0, 1));
      var js := [(MkNot(isFalse), Redirect(f, b, d)), (isFalse, Redirect(f, b, d'))];
      TakenIn(js, dst, m) <==> Redirect(f, b, if Eval(v, m) == V([false]) then d' else d) == dst
  {
    hide Eval, WF, SortOf, MkEq, MkNot, Redirect;
    var zero := UInt(0, 1);
    ZeroBit(m);
    EqTotal(v, zero, SBv(1));
    NotTotal(MkEq(v, zero));
    var js := [(MkNot(MkEq(v, zero)), Redirect(f, b, d)), (MkEq(v, zero), Redirect(f, b, d'))];
    assert On(js[0].0, m) <==> Eval(v, m) != V([false]);
    assert On(js[1].0, m) <==> Eval(v, m) == V([false]);
  }

  lemma {:induction false} ZeroBit(m: Model)
    ensures IsTotal(UInt(0, 1), SBv(1)) && Eval(UInt(0, 1), m) == V([false])
  {
    ZeroNumeral(1);
    assert Zeros(1) == [false];
  }

  /** Exactly the jump the run makes is on. */
  lemma {:induction false} JumpTaken(f: Fn, b: nat, t: Terminator, v: Expr, env: Model, dst: Target, m: Model)
    requires GoodJump(t, v) && (!t.Jump? ==> Eval(v, m) == Eval(t.cond, env))
    ensures TakenIn(GuardedJumps(f, b, t, v), dst, m) <==> Redirect(f, b, Goes(t, env)) == dst
  {
    hide Eval, WF, SortOf, MkEq, MkNot, Redirect, CaseJumps, DefaultCond, TakenIn, Chosen;
    match t
    case Jump(d) => PlainTaken(f, b, d, dst, m);
    case CondJump(_, d, d') => CondTaken(f, b, v, d, d', dst, m);
    case Switch(_, cases, d) => SwitchTaken(f, b, cases, d, v, SortOf(v), env, dst, m);
  }

  lemma {:induction false} PlainTaken(f: Fn, b: nat, d: Target, dst: Target, m: Model)
    ensures TakenIn([(Bool(true), Redirect(f, b, d))], dst, m) <==> Redirect(f, b, d) == dst
  {
    hide Redirect;
    ConstTotal(true);
    var js := [(Bool(true), Redirect(f, b, d))];
    assert On(js[0].0, m);
  }

  // ---- Leaving a block ----

  ghost predicate JumpsRecorded(f: Fn, preds: Preds, b: nat, path: Expr, ub: Expr, memory: Expr,
                                js: seq<(Expr, Target)>) {
    && (forall dst :: JumpInfo(f, InfoAt(preds, dst, b), ub, memory))
    && (forall dst, m :: JumpOn(InfoAt(preds, dst, b), ub, memory, On(path, m) && TakenIn(js, dst, m), m))
  }

  /** The edges out of an executed block. */
  lemma {:induction false} EdgeLeaves(f: Fn, b: nat, path: Expr, ub: Expr, memory: Expr, values: map<string, Expr>,
                                      regs: set<string>,
                                      v: Expr, info: Info, dst: Target, m: Model)
    requires b < |f.blocks| && MEMORY in f.sorts && GoodJump(f.blocks[b].term, v)
    requires Tracks(f, b, |f.blocks[b].instrs|, path, ub, memory, values, regs, m) && Reaches(f, b, path, m)
    requires On(path, m) && !f.blocks[b].term.Jump? ==>
      At(f, m, b).Some? &&
      Eval(v, m) == Eval(f.blocks[b].term.cond, After(f, At(f, m, b).value, |f.blocks[b].instrs|).0)
    requires JumpOn(info, ub, memory, On(path, m) && TakenIn(GuardedJumps(f, b, f.blocks[b].term, v), dst, m), m)
    ensures EdgeOk(f, values, regs, info, b, dst, m)
  {
    hide Eval, Visit, After, RegsAgree, GuardedJumps, TakenIn, IsTotal, ConstCases, Goes, On;
    var n := |f.blocks[b].instrs|;
    if On(path, m) {
      var c := At(f, m, b).value;
      JumpTaken(f, b, f.blocks[b].term, v, After(f, c, n).0, dst, m);
      LeavesBy(f, m, b, dst);
      if On(info.path, m) {
        assert Only(info.ub, ub, m) && Only(info.mem, memory, m);
      }
    } else if At(f, m, b).Some? && After(f, At(f, m, b).value, n).1 {
      OkBefore(f, At(f, m, b).value, n);
    } else if At(f, m, b).Some? {
      LeavesBy(f, m, b, dst);
    }
  }

  lemma {:induction false} LeavesBy(f: Fn, m: Model, b: nat, dst: Target)
    requires b < |f.blocks| && At(f, m, b).Some?
    requires var t := f.blocks[b].term; t.Jump? || t.CondJump? || t.Switch?
    ensures var c := At(f, m, b).value; var r := After(f, c, |f.blocks[b].instrs|); var s := Leaves(f, m, b);
      && (s.Next? || s.Sunk?) && EnvOf(s) == r.0 && OkOf(s) == r.1
      && (Took(f, m, b, dst) <==> Redirect(f, b, Goes(f.blocks[b].term, r.0)) == dst)
  {
    hide Eval, Visit, After, Goes;
  }

  /** Nothing defined comes out of a block that was skipped or that does not jump. */
  lemma {:induction false} EdgeNone(f: Fn, b: nat, values: map<string, Expr>, regs: set<string>, dst: Target, m: Model)
    requires b < |f.blocks| && MEMORY in f.sorts
    requires f.blocks[b].term.Return? || f.blocks[b].term.Unreachable? || (At(f, m, b).Some? ==> !At(f, m, b).value.ok)
    ensures EdgeOk(f, values, regs, NO_INFO, b, dst, m)
  {
    hide Eval, Visit, After, RegsAgree, Goes, Picks;
    OpenBool(Bool(false), m);
    if At(f, m, b).Some? && After(f, At(f, m, b).value, |f.blocks[b].instrs|).1 {
      OkBefore(f, At(f, m, b).value, |f.blocks[b].instrs|);
    }
  }

  // ---- Returning ----

  lemma {:induction false} VisitStops(f: Fn, c: Config, src: nat, b: nat)
    requires c.bb < |f.blocks| && Visit(f, c, src).Some? && !Exec(f, Visit(f, c, src).value).Next? && src < b
    ensures Visit(f, c, b).None?
    decreases |f.blocks| - c.bb
  {
    hide Eval, After;
    if c.bb != src {
      VisitStops(f, Exec(f, c).config, src, b);
    }
  }

  ghost predicate ReturnsAt(f: Fn, m: Model, src: nat)
    requires src < |f.blocks|
  {
    At(f, m, src).Some? && Leaves(f, m, src).Returned?
  }

  /** The values and memories returned so far, and when. */
  datatype Returns = Returns(vals: Vals, mems: Vals, dom: Expr)

  ghost predicate ReturnsTotal(f: Fn, rs: Returns) {
    MEMORY in f.sorts && TotalVals(rs.vals, f.ret) && TotalVals(rs.mems, f.sorts[MEMORY]) && IsTotal(rs.dom, SBool)
  }

  ghost predicate ReturnTerms(f: Fn, path: Expr, ub: Expr, memory: Expr, val: Expr) {
    MEMORY in f.sorts && IsTotal(path, SBool) && IsTotal(ub, SBool) && IsTotal(memory, f.sorts[MEMORY]) &&
    IsTotal(val, f.ret)
  }

  function AddReturnTo(f: Fn, rs: Returns, path: Expr, ub: Expr, memory: Expr, val: Expr): (r: Returns)
    requires ReturnsTotal(f, rs) && ReturnTerms(f, path, ub, memory, val)
    ensures ReturnsTotal(f, r)
  {
    AddTotal(rs.vals, val, path, f.ret);
    AddTotal(rs.mems, memory, path, f.sorts[MEMORY]);
    AndTotal(path, ub);
    OrTotal(rs.dom, MkAnd(path, ub));
    Returns(AddTo(rs.vals, val, path, f.ret), AddTo(rs.mems, memory, path, f.sorts[MEMORY]),
            MkOr(rs.dom, MkAnd(path, ub)))
  }

  /** Where nothing was active before, exactly the new value and memory are. */
  ghost predicate Added(rs: Returns, rs': Returns, path: Expr, ub: Expr, memory: Expr, val: Expr, m: Model) {
    && (forall x :: Active(rs'.vals, x, m) <==> Active(rs.vals, x, m) || (x == val && On(path, m)))
    && (forall x :: Active(rs'.mems, x, m) <==> Active(rs.mems, x, m) || (x == memory && On(path, m)))
    && (On(rs'.dom, m) <==> On(rs.dom, m) || (On(path, m) && On(ub, m)))
  }

  /** The return is added wherever no other return is on. */
  ghost predicate AddedFirst(rs: Returns, rs': Returns, path: Expr, ub: Expr, memory: Expr, val: Expr, m: Model) {
    (On(path, m) ==> NoneActive(rs.vals, m) && NoneActive(rs.mems, m)) ==> Added(rs, rs', path, ub, memory, val, m)
  }

  lemma {:induction false} AddReturnFields(f: Fn, rs: Returns, path: Expr, ub: Expr, memory: Expr, val: Expr)
    requires ReturnsTotal(f, rs) && ReturnTerms(f, path, ub, memory, val)
    ensures WellSorted(rs.vals, f.ret) && Piece(val, path, f.ret) && WellSorted(rs.mems, f.sorts[MEMORY]) &&
      Piece(memory, path, f.sorts[MEMORY])
    ensures WF(ub) && SortOf(ub) == SBool && WF(rs.dom) && SortOf(rs.dom) == SBool
    ensures AddReturnTo(f, rs, path, ub, memory, val) ==
      Returns(AddTo(rs.vals, val, path, f.ret), AddTo(rs.mems, memory, path, f.sorts[MEMORY]),
              MkOr(rs.dom, MkAnd(path, ub)))
  {
    hide Eval, WF, SortOf, AddTo, MkOr, MkAnd, AddReturnTo;
    TotalValsFacts(rs.vals, f.ret);
    TotalValsFacts(rs.mems, f.sorts[MEMORY]);
    AddReturnBody(f, rs, path, ub, memory, val);
  }

  lemma {:induction false} AddReturnBody(f: Fn, rs: Returns, path: Expr, ub: Expr, memory: Expr, val: Expr)
    requires MEMORY in f.sorts && WellSorted(rs.vals, f.ret) && WellSorted(rs.mems, f.sorts[MEMORY])
    requires Piece(val, path, f.ret) && Piece(memory, path, f.sorts[MEMORY])
    requires WF(ub) && SortOf(ub) == SBool && WF(rs.dom) && SortOf(rs.dom) == SBool
    requires ReturnsTotal(f, rs) && ReturnTerms(f, path, ub, memory, val)
    ensures AddReturnTo(f, rs, path, ub, memory, val) ==
      Returns(AddTo(rs.vals, val, path, f.ret), AddTo(rs.mems, memory, path, f.sorts[MEMORY]),
              MkOr(rs.dom, MkAnd(path, ub)))
  {
    hide Eval, WF, SortOf, AddTo, MkOr, MkAnd, TotalVals, WellSorted;
  }

  lemma {:induction false} AddReturnActive(f: Fn, rs: Returns, path: Expr, ub: Expr, memory: Expr, val: Expr, m: Model)
    requires ReturnsTotal(f, rs) && ReturnTerms(f, path, ub, memory, val)
    requires On(path, m) ==> NoneActive(rs.vals, m) && NoneActive(rs.mems, m)
    ensures Added(rs, AddReturnTo(f, rs, path, ub, memory, val), path, ub, memory, val, m)
  {
    hide Eval, WF, SortOf, AddTo, TotalVals, MkOr, MkAnd, On, Active, AddReturnTo, WellSorted;
    AddReturnFields(f, rs, path, ub, memory, val);
    AddTotalActive(rs.vals, val, path, f.ret, m);
    AddTotalActive(rs.mems, memory, path, f.sorts[MEMORY], m);
    AndTotal(path, ub);
    OrTotal(rs.dom, MkAnd(path, ub));
  }

  /** What the returns of the blocks before `b` have accumulated. */
  ghost predicate ReturnsOk(f: Fn, rs: Returns, b: nat, m: Model)
    requires b <= |f.blocks| && MEMORY in f.sorts
  {
    && (forall src: nat :: src < b && ReturnsAt(f, m, src) ==> ReturnOk(f, rs, Leaves(f, m, src), m))
    && ((forall src: nat :: src < b ==> !ReturnsAt(f, m, src)) ==> NoneReturned(rs, m))
  }

  ghost predicate NoneReturned(rs: Returns, m: Model) {
    NoneActive(rs.vals, m) && NoneActive(rs.mems, m) && !On(rs.dom, m)
  }

  ghost predicate ReturnOk(f: Fn, rs: Returns, s: Step, m: Model)
    requires s.Returned? && MEMORY in f.sorts
  {
    && (On(rs.dom, m) <==> s.ok)
    && (s.ok ==> Picks(rs.vals, s.val, m) && Picks(rs.mems, Eval(Var(MEMORY, f.sorts[MEMORY]), s.env), m))
  }

  lemma {:induction false} FirstReturn(f: Fn, m: Model, b: nat)
    requires b < |f.blocks| && At(f, m, b).Some?
    ensures forall src: nat :: src < b ==> !ReturnsAt(f, m, src)
  {
    hide Eval, Visit, Exec;
    forall src: nat | src < b
      ensures !ReturnsAt(f, m, src)
    {
      if ReturnsAt(f, m, src) {
        VisitStops(f, Start(m), src, b);
      }
    }
  }

  /** A block that was skipped, or that does not return. */
  lemma {:induction false} NoReturn(f: Fn, rs: Returns, b: nat, m: Model)
    requires b < |f.blocks| && MEMORY in f.sorts && ReturnsOk(f, rs, b, m)
    requires !f.blocks[b].term.Return? || (At(f, m, b).Some? ==> !At(f, m, b).value.ok)
    ensures ReturnsOk(f, rs, b + 1, m)
  {
    hide Eval, Visit, Exec, On, Picks, NoneActive;
    if ReturnsAt(f, m, b) {
      FirstReturn(f, m, b);
      NotDefined(f, m, b);
    }
  }

  lemma {:induction false} NotDefined(f: Fn, m: Model, b: nat)
    requires b < |f.blocks| && ReturnsAt(f, m, b)
    ensures f.blocks[b].term.Return?
    ensures !At(f, m, b).value.ok ==> !Leaves(f, m, b).ok
  {
    hide Eval, Visit, After, Goes;
    var c := At(f, m, b).value;
    var n := |f.blocks[b].instrs|;
    if After(f, c, n).1 {
      OkBefore(f, c, n);
    }
  }

  lemma {:induction false} ReturnAdds(f: Fn, rs: Returns, rs': Returns, b: nat, path: Expr, ub: Expr, memory: Expr,
                                      values: map<string, Expr>, regs: set<string>, val: Expr, m: Model)
    requires b < |f.blocks| && f.blocks[b].term.Return? && MEMORY in f.sorts &&
      AddedFirst(rs, rs', path, ub, memory, val, m)
    requires ReturnsOk(f, rs, b, m)
    requires Tracks(f, b, |f.blocks[b].instrs|, path, ub, memory, values, regs, m) && Reaches(f, b, path, m)
    requires On(path, m) ==>
      Eval(val, m) == Eval(f.blocks[b].term.val, After(f, At(f, m, b).value, |f.blocks[b].instrs|).0)
    ensures ReturnsOk(f, rs', b + 1, m)
  {
    hide Eval, Visit, After, RegsAgree, Exec, ReturnOk, Added;
    if At(f, m, b).Some? {
      FirstReturn(f, m, b);
      ReturnLeaves(f, m, b);
      ReturnHere(f, rs, rs', b, path, ub, memory, values, regs, val, m);
    } else {
      ReturnOff(f, rs, rs', b, path, ub, memory, val, m);
    }
  }

  lemma {:induction false} EndValues(f: Fn, b: nat, k: nat, path: Expr, ub: Expr, memory: Expr, values: map<string,
                                     Expr>, regs: set<string>, m: Model)
    requires b < |f.blocks| && k <= |f.blocks[b].instrs| && MEMORY in f.sorts && On(path, m)
    requires Tracks(f, b, k, path, ub, memory, values, regs, m)
    ensures At(f, m, b).Some?
    ensures var r := After(f, At(f, m, b).value, k);
      && Eval(memory, m) == Eval(Var(MEMORY, f.sorts[MEMORY]), r.0) && (On(ub, m) <==> r.1)
      && RegsAgree(f, values, m, r.0, regs) && MemoryAgrees(f, memory, m, r.0) && Eval(ub, m) == B(r.1)
  {
    hide Eval, Visit, After, RegsAgree;
  }

  lemma {:induction false} ReturnHere(f: Fn, rs: Returns, rs': Returns, b: nat, path: Expr, ub: Expr, memory: Expr,
                                      values: map<string, Expr>, regs: set<string>, val: Expr, m: Model)
    requires b < |f.blocks| && f.blocks[b].term.Return? && MEMORY in f.sorts && At(f, m, b).Some? && ReturnsAt(f, m, b)
    requires NoneReturned(rs, m) && Added(rs, rs', path, ub, memory, val, m)
    requires Tracks(f, b, |f.blocks[b].instrs|, path, ub, memory, values, regs, m) && Reaches(f, b, path, m)
    requires On(path, m) ==>
      Eval(val, m) == Eval(f.blocks[b].term.val, After(f, At(f, m, b).value, |f.blocks[b].instrs|).0)
    ensures ReturnOk(f, rs', Leaves(f, m, b), m)
  {
    hide Eval, Visit, After, Tracks, Exec, On, Active;
    ReturnLeaves(f, m, b);
    if On(path, m) {
      EndValues(f, b, |f.blocks[b].instrs|, path, ub, memory, values, regs, m);
      assert Only(rs'.vals, val, m) && Only(rs'.mems, memory, m);
    } else {
      OkUnlessMissed(f, m, b, path);
    }
  }

  lemma {:induction false} OkUnlessMissed(f: Fn, m: Model, b: nat, path: Expr)
    requires b < |f.blocks| && f.blocks[b].term.Return? && At(f, m, b).Some? && Reaches(f, b, path, m) && !On(path, m)
    ensures ReturnsAt(f, m, b) && !Leaves(f, m, b).ok
  {
    hide Eval, Visit, After;
    ReturnLeaves(f, m, b);
    NotDefined(f, m, b);
  }

  lemma {:induction false} ReturnLeaves(f: Fn, m: Model, b: nat)
    requires b < |f.blocks| && f.blocks[b].term.Return? && At(f, m, b).Some?
    ensures var r := After(f, At(f, m, b).value, |f.blocks[b].instrs|);
      Leaves(f, m, b) == Returned(Eval(f.blocks[b].term.val, r.0), r.0, r.1) && ReturnsAt(f, m, b)
  {
    hide Eval, Visit, After;
  }

  lemma {:induction false} ReturnOff(f: Fn, rs: Returns, rs': Returns, b: nat, path: Expr, ub: Expr, memory: Expr,
                                     val: Expr, m: Model)
    requires b < |f.blocks| && At(f, m, b).None? && !On(path, m) && MEMORY in f.sorts
    requires ReturnsOk(f, rs, b, m) && Added(rs, rs', path, ub, memory, val, m)
    ensures ReturnsOk(f, rs', b + 1, m)
  {
    hide Eval, Visit, Exec, On, Picks;
    assert !ReturnsAt(f, m, b);
    SamePicks(rs.vals, rs'.vals, m);
    SamePicks(rs.mems, rs'.mems, m);
    forall src: nat | src < b && ReturnsAt(f, m, src)
      ensures ReturnOk(f, rs', Leaves(f, m, src), m)
    {
      assert ReturnOk(f, rs, Leaves(f, m, src), m);
    }
    if forall src: nat :: src < b + 1 ==> !ReturnsAt(f, m, src) {
      assert NoneReturned(rs, m);
    }
  }

  lemma {:induction false} SamePicks(vals: Vals, vals': Vals, m: Model)
    requires SameActive(vals, vals', m)
    ensures forall t :: Picks(vals, t, m) ==> Picks(vals', t, m)
  {
    hide Eval, On;
    forall t | Picks(vals, t, m)
      ensures Picks(vals', t, m)
    {
      var x :| Only(vals, x, m) && Eval(x, m) == t;
      assert Only(vals', x, m);
    }
  }
}

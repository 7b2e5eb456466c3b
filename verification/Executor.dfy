/** The symbolic executor. */
module Executor {
  import opened Bits
  import opened Terms
  import opened SmartExpr
  import opened SmartArith
  import opened Disjoint
  import opened Total
  import opened SymModel
  import opened SymTrack
  import opened SymExec
  import opened SymState
  import opened SymRun

  ghost predicate ReturnsUpTo(f: Fn, rs: Returns, b: nat) {
    && b <= |f.blocks| && MEMORY in f.sorts && ReturnsTotal(f, rs)
    && forall m :: ReturnsOk(f, rs, b, m)
  }

  /** A block that no defined run enters. */
  ghost predicate NeverDefined(f: Fn, b: nat)
    requires b < |f.blocks|
  {
    forall m :: At(f, m, b).Some? ==> !At(f, m, b).value.ok
  }

  // ---- Entering a block ----

  ghost predicate JoinedAll(infos: map<nat, Info>, todo: set<nat>, path: Expr, ubs: Vals, mems: Vals) {
    forall m :: JoinedFrom(infos, todo, path, ubs, mems, m)
  }

  lemma {:induction false} JoinStartsAll(infos: map<nat, Info>)
    ensures JoinedAll(infos, infos.Keys, Bool(false), map[], map[])
  {
    hide Eval;
    forall m
      ensures JoinedFrom(infos, infos.Keys, Bool(false), map[], map[], m)
    {
      OpenBool(Bool(false), m);
    }
  }

  lemma {:induction false} JoinOneAll(f: Fn, infos: map<nat, Info>, todo: set<nat>, src: nat, path: Expr, ubs: Vals,
                                      mems: Vals, ubs': Vals, mems': Vals, path': Expr)
    requires src in infos && src in todo && Live(f, infos[src]) && IsTotal(path, SBool) &&
      path' == MkOr(path, infos[src].path)
    requires JoinedAll(infos, todo, path, ubs, mems) && forall m :: Exclusive(infos, m)
    requires forall m :: Joined(ubs, ubs', infos[src].ub, infos[src].path, m)
    requires forall m :: Joined(mems, mems', infos[src].mem, infos[src].path, m)
    ensures JoinedAll(infos, todo - {src}, path', ubs', mems')
  {
    hide Eval, JoinedFrom, Joined, Exclusive, Live, IsTotal, MkOr;
    var rest := todo - {src};
    forall m
      ensures JoinedFrom(infos, rest, path', ubs', mems', m)
    {
      JoinOne(infos, todo, src, path, ubs, mems, ubs', mems', f, m);
    }
  }

  /** What is known on entering a block from what its predecessors left. */
  lemma {:induction false} EnteredAll(f: Fn, avail: seq<set<string>>, values: map<string, Expr>, preds: Preds, b: nat,
                                      path: Expr, ubs: Vals, mems: Vals, ub: Expr, memory: Expr)
    requires 0 < b < |f.blocks| == |avail| && Bb(b) in preds && Swept(f, avail, values, preds, b)
    requires MEMORY in f.sorts && TotalVals(ubs, SBool) && TotalVals(mems, f.sorts[MEMORY])
    requires JoinedAll(preds[Bb(b)], {}, path, ubs, mems) && Selects(ubs, ub) && Selects(mems, memory)
    ensures AtPoints(f, preds, b, 0, path, ub, memory, values, avail[b])
  {
    hide Eval, Swept, TotalVals, Selects, JoinedFrom, Tracks, Reaches, CameBy, PrevRecorded;
    forall m
      ensures AtPoint(f, preds, b, 0, path, ub, memory, values, avail[b], m)
    {
      assert Merged(f, preds, b, path, ubs, mems, m);
      EnteredTracks(f, avail, values, preds, b, path, ubs, mems, ub, memory, m);
      EnteredReaches(f, avail, values, preds, b, path, ubs, mems, m);
      EnteredCameBy(f, avail, values, preds, b, path, ubs, mems, m);
    }
  }

  lemma {:induction false} EntryPoint(f: Fn, avail: seq<set<string>>, values: map<string, Expr>, preds: Preds)
    requires GoodFn(f, avail)
    ensures |avail| == |f.blocks| > 0 && MEMORY in f.sorts && avail[0] == {}
    ensures IsTotal(Bool(true), SBool) && IsTotal(Var(MEMORY, f.sorts[MEMORY]), f.sorts[MEMORY])
    ensures AtPoints(f, preds, 0, 0, Bool(true), Bool(true), Var(MEMORY, f.sorts[MEMORY]), values, {})
  {
    var memory := Var(MEMORY, f.sorts[MEMORY]);
    MemoryTotal(f, avail);
    ConstTotal(true);
    hide GoodInstr, GoodTerminator, WF, SortOf, GoodFn, IsTotal;
    OpenFn(f, avail);
    EntryAvail(f, avail);
    var no: set<string> := {};
    forall m
      ensures AtPoint(f, preds, 0, 0, Bool(true), Bool(true), memory, values, no, m)
    {
      OpenBool(Bool(true), m);
      assert At(f, m, 0) == Some(Start(m));
    }
  }

  lemma {:induction false} EntryAvail(f: Fn, avail: seq<set<string>>)
    requires GoodFn(f, avail)
    ensures |avail| > 0 && avail[0] == {}
  {
  }

  lemma {:induction false} MemoryTotal(f: Fn, avail: seq<set<string>>)
    requires GoodFn(f, avail)
    ensures MEMORY in f.sorts && IsTotal(Var(MEMORY, f.sorts[MEMORY]), f.sorts[MEMORY])
  {
    hide GoodInstr, GoodTerminator;
  }

  lemma {:induction false} BlockStarts(f: Fn, avail: seq<set<string>>, values: map<string, Expr>, preds: Preds, b: nat,
                                       path: Expr, ub: Expr, memory: Expr)
    requires b < |f.blocks| == |avail| && MEMORY in f.sorts && (b > 0 ==> Bb(b) in preds)
    requires IsTotal(path, SBool) && IsTotal(ub, SBool) && IsTotal(memory, f.sorts[MEMORY]) && !IsFalse(path)
    requires Swept(f, avail, values, preds, b) && KeysBefore(f, values, b, 0)
    requires AtPoints(f, preds, b, 0, path, ub, memory, values, avail[b])
    ensures BlockState(f, avail, values, preds, b, 0, path, ub, memory)
  {
    hide Eval, Swept, KeysBefore, IsTotal, AtPoints, GoodFn;
    assert Regs(f, avail, b, 0) == avail[b];
    SweptValues(f, avail, values, preds, b);
    OpenSwept(f, avail, values, preds, b);
    if b > 0 {
      AvailDefined(f, avail, values, preds, b);
    } else {
      EntryAvail(f, avail);
    }
  }

  lemma {:induction false} AvailDefined(f: Fn, avail: seq<set<string>>, values: map<string, Expr>, preds: Preds, b: nat)
    requires b < |f.blocks| == |avail| && Bb(b) in preds && Swept(f, avail, values, preds, b)
    ensures avail[b] <= values.Keys
  {
    hide Edges, GoodFn, RecordOk;
    assert preds[Bb(b)] != map[];
    var src :| src in preds[Bb(b)];
    AvailOut(f, avail, values, preds, b, src);
  }

  lemma {:induction false} SkippedBlock(f: Fn, avail: seq<set<string>>, values: map<string, Expr>, preds: Preds,
                                        b: nat, path: Expr, ub: Expr, memory: Expr)
    requires b < |f.blocks| == |avail| && AtPoints(f, preds, b, 0, path, ub, memory, values, avail[b]) &&
      (IsFalse(path) || IsFalse(ub))
    ensures NeverDefined(f, b)
  {
    hide Eval, CameBy, PrevRecorded, RegsAgree, MemoryAgrees, Visit;
    forall m
      ensures At(f, m, b).Some? ==> !At(f, m, b).value.ok
    {
      assert AtPoint(f, preds, b, 0, path, ub, memory, values, avail[b], m);
      OpenBool(Bool(false), m);
    }
  }

  lemma {:induction false} UnreachedBlock(f: Fn, avail: seq<set<string>>, values: map<string, Expr>, preds: Preds,
                                          b: nat)
    requires 0 < b < |f.blocks| && Swept(f, avail, values, preds, b) && Bb(b) !in preds
    ensures NeverDefined(f, b)
  {
    hide Eval, Swept, Visit, Exec;
    forall m | At(f, m, b).Some?
      ensures !At(f, m, b).value.ok
    {
      EnteredFrom(f, m, b);
      if At(f, m, b).value.ok {
        EdgeMissing(f, avail, values, preds, b, At(f, m, b).value.prev, m);
      }
    }
  }

  /** Conditions of edges into a block: live, and at most one on. */
  lemma {:induction false} InfosOk(f: Fn, avail: seq<set<string>>, values: map<string, Expr>, preds: Preds, b: nat)
    requires b < |f.blocks| && Swept(f, avail, values, preds, b) && Bb(b) in preds
    ensures preds[Bb(b)] != map[] && MEMORY in f.sorts
    ensures forall src :: src in preds[Bb(b)] ==> Live(f, preds[Bb(b)][src])
    ensures forall m :: Exclusive(preds[Bb(b)], m)
  {
    hide Eval, Edges, GoodFn, Live, Exclusive, Out, JumpsTo;
    OpenSwept(f, avail, values, preds, b);
    forall src | src in preds[Bb(b)]
      ensures Live(f, preds[Bb(b)][src])
    {
      assert Recorded(preds, Bb(b), src);
      assert RecordOk(f, avail, values, preds, b, Bb(b), src);
    }
    forall m
      ensures Exclusive(preds[Bb(b)], m)
    {
      EdgesExclusive(f, avail, values, preds, b, m);
    }
  }

  lemma {:induction false} LiveFacts(f: Fn, info: Info)
    requires Live(f, info)
    ensures IsTotal(info.path, SBool) && !IsFalse(info.path) && MEMORY in f.sorts
    ensures TotalVals(info.ub, SBool) && TotalVals(info.mem, f.sorts[MEMORY])
    ensures (exists x :: x in info.ub && !IsFalse(info.ub[x])) && (exists x :: x in info.mem && !IsFalse(info.mem[x]))
  {
    hide IsTotal, TotalVals;
    var x :| x in info.ub;
    var y :| y in info.mem;
  }

  lemma {:induction false} SomeTotal(s: Sort)
    requires s.SBv? ==> s.width > 0
    ensures IsTotal(Dummy(s), s)
  {
  }

  function Dummy(s: Sort): Expr {
    match s
    case SBool => Bool(false)
    case SBv(w) => UInt(0, w)
  }

  lemma {:induction false} SortWidth(f: Fn, avail: seq<set<string>>, x: string)
    requires GoodFn(f, avail) && x in f.sorts
    ensures f.sorts[x].SBv? ==> f.sorts[x].width > 0
  {
    hide GoodInstr, GoodTerminator;
  }

  lemma {:induction false} SeenRedirect(f: Fn, b: nat, seen: set<nat>, dst: Target)
    requires b < |f.blocks| && (dst.Bb? ==> dst.n < |f.blocks|) && forall n: nat :: n in seen <==> n <= b
    ensures Redirect(f, b, dst) == if dst.Bb? && dst.n in seen then Sink else dst
  {
  }

  lemma {:induction false} TargetGood(f: Fn, avail: seq<set<string>>, b: nat, dst: Target)
    requires GoodFn(f, avail) && b < |f.blocks| && JumpsTo(f.blocks[b].term, dst)
    ensures dst.Bb? ==> dst.n < |f.blocks|
  {
    hide GoodInstr, GoodTerminator, JumpsTo;
  }

  lemma {:induction false} TerminatorGood(f: Fn, avail: seq<set<string>>, b: nat)
    requires GoodFn(f, avail) && b < |f.blocks| == |avail|
    ensures GoodTerminator(f, f.blocks[b].term, Out(f, avail, b))
  {
    hide GoodInstr, GoodTerminator;
  }

  class State {
    const f: Fn
    ghost const avail: seq<set<string>>
    var seen: set<nat>
    var current: nat
    var path: Expr
    var ub: Expr
    var memory: Expr
    var values: map<string, Expr>
    var preds: Preds
    var returned: Returns

    /** The blocks before `b` have been executed. */
    ghost predicate Between(b: nat)
      reads this
    {
      && Swept(f, avail, values, preds, b) && KeysBefore(f, values, b, 0)
      && (forall n: nat :: n in seen <==> n < b) && ReturnsUpTo(f, returned, b)
    }

    /** The first `k` instructions of the current block have been executed. */
    ghost predicate Inside(k: nat)
      reads this
    {
      && current < |f.blocks| == |avail| && k <= |f.blocks[current].instrs|
      && BlockState(f, avail, values, preds, current, k, path, ub, memory)
      && (forall n: nat :: n in seen <==> n <= current) && ReturnsUpTo(f, returned, current)
    }

    constructor (f: Fn, ghost avail: seq<set<string>>)
      requires GoodFn(f, avail)
      ensures this.f == f && this.avail == avail && Between(0)
    {
      this.f, this.avail := f, avail;
      seen, current, path, ub, memory := {}, 0, Bool(true), Bool(true), Bool(true);
      values, preds := map[], map[];
      returned := Returns(map[], map[], Bool(false));
      new;
      NothingDone(f, avail);
    }

    /** Joins what the predecessors of block `b` left; false if there is nothing to do. */
    method StartBB(b: nat) returns (go: bool)
      requires b < |f.blocks| && Between(b)
      modifies `seen, `current, `path, `ub, `memory
      ensures go ==> current == b && Inside(0)
      ensures !go ==> NeverDefined(f, b) && (forall n: nat :: n in seen <==> n < b + 1)
    {
      hide Swept, KeysBefore, ReturnsUpTo, IsTotal, AtPoints, NeverDefined, BlockState, GoodFn;
      OpenSwept(f, avail, values, preds, b);
      seen := seen + {b};
      current := b;
      if b == 0 {
        EntryPoint(f, avail, values, preds);
        path, ub, memory := Bool(true), Bool(true), Var(MEMORY, f.sorts[MEMORY]);
        BlockStarts(f, avail, values, preds, b, path, ub, memory);
        return true;
      }
      if Bb(b) !in preds {
        UnreachedBlock(f, avail, values, preds, b);
        return false;
      }
      path, ub, memory := JoinPreds(b);
      go := !IsFalse(path) && !IsFalse(ub);
      if go {
        BlockStarts(f, avail, values, preds, b, path, ub, memory);
      } else {
        SkippedBlock(f, avail, values, preds, b, path, ub, memory);
      }
    }

    method JoinPreds(b: nat) returns (path: Expr, ub: Expr, memory: Expr)
      requires 0 < b < |f.blocks| == |avail| && Bb(b) in preds && MEMORY in f.sorts && Swept(f, avail, values, preds, b)
      ensures IsTotal(path, SBool) && IsTotal(ub, SBool) && IsTotal(memory, f.sorts[MEMORY])
      ensures AtPoints(f, preds, b, 0, path, ub, memory, values, avail[b])
    {
      hide Swept, IsTotal, AtPoints, TotalVals, Live, Exclusive, JoinedAll, Joined, Selects, MkOr, WF, SortOf;
      var infos := preds[Bb(b)];
      InfosOk(f, avail, values, preds, b);
      path := Bool(false);
      ConstTotal(false);
      JoinStartsAll(infos);
      var ubs := new DisjointExpr(None);
      var mems := new DisjointExpr(None);
      EmptyTotal();
      var todo := infos.Keys;
      while todo != {}
        invariant todo <= infos.Keys && IsTotal(path, SBool)
        invariant TotalVals(ubs.vals, SBool) && TotalVals(mems.vals, f.sorts[MEMORY])
        invariant JoinedAll(infos, todo, path, ubs.vals, mems.vals)
        invariant todo != infos.Keys ==> ubs.vals != map[] && mems.vals != map[]
        invariant fresh(ubs) && fresh(mems) && ubs != mems
        modifies ubs, mems
        decreases |todo|
      {
        var src :| src in todo;
        var info := infos[src];
        LiveFacts(f, info);
        ghost var ubs0, mems0 := ubs.vals, mems.vals;
        AddDisj(ubs, info.ub, info.path, SBool);
        AddDisj(mems, info.mem, info.path, f.sorts[MEMORY]);
        OrTotal(path, info.path);
        TotalSort(path, info.path);
        JoinOneAll(f, infos, todo, src, path, ubs0, mems0, ubs.vals, mems.vals, MkOr(path, info.path));
        path := MkOr(path, info.path);
        todo := todo - {src};
      }
      TotalValsFacts(ubs.vals, SBool);
      TotalValsFacts(mems.vals, f.sorts[MEMORY]);
      var u := ubs.Value(SBool);
      var r := mems.Value(f.sorts[MEMORY]);
      ub, memory := u.value, r.value;
      SelectedTotal(ubs.vals, ub, SBool);
      SelectedTotal(mems.vals, memory, f.sorts[MEMORY]);
      EnteredAll(f, avail, values, preds, b, path, ubs.vals, mems.vals, ub, memory);
    }

    /** Executes instruction `k` of the current block. */
    method ExecInstr(k: nat)
      requires Inside(k) && k < |f.blocks[current].instrs|
      modifies `values, `ub, `memory
      ensures Inside(k + 1)
    {
      hide Swept, KeysBefore, ReturnsUpTo, IsTotal, AtPoints, BlockState, Subst, Sigma, MkAnd, WF, SortOf, GoodFn;
      var i := f.blocks[current].instrs[k];
      match i
      case Def(x, e) =>
        StepDef(f, avail, values, preds, current, k, path, ub, memory);
        values := values[x := Subst(e, Sigma(values, memory))];
      case Require(e) =>
        StepRequire(f, avail, values, preds, current, k, path, ub, memory);
        ub := MkAnd(ub, Subst(e, Sigma(values, memory)));
      case SetMemory(e) =>
        StepMemory(f, avail, values, preds, current, k, path, ub, memory);
        memory := Subst(e, Sigma(values, memory));
      case Phi(x, incoming) =>
        var r := PhiTerm(k, x, incoming);
        StepPhi(f, avail, values, preds, current, k, path, ub, memory, r);
        values := values[x := r];
    }

    /** The value of a phi: each operand under the condition of the jump it goes with. */
    method PhiTerm(k: nat, x: string, incoming: seq<(Expr, nat)>) returns (r: Expr)
      requires Inside(k) && k < |f.blocks[current].instrs| && f.blocks[current].instrs[k] == Phi(x, incoming)
      ensures GoodReg(f, x) && IsTotal(r, f.sorts[x]) && PhiValue(f, current, incoming, path, r)
    {
      hide Swept, KeysBefore, ReturnsUpTo, IsTotal, BlockState, Subst, Sigma, AddTo, WF, SortOf, GoodFn, PhiFilledAll,
           TotalVals, Selects, PhiValue, PhiAt, AtPoints;
      StateFacts(f, avail, values, preds, current, k, path, ub, memory);
      PhiGood(f, avail, current, k);
      PhiFacts(f, avail, current, k);
      ghost var s := f.sorts[x];
      SortWidth(f, avail, x);
      SomeTotal(s);
      var ret := new DisjointExpr(Some(Dummy(f.sorts[x])));
      EmptyTotal();
      PhiStarts(f, avail, values, preds, current, k, path, ub, memory, incoming, Sigma(values, memory));
      var infos := preds[Bb(current)];
      var j := 0;
      while j < |incoming|
        invariant 0 <= j <= |incoming| && TotalVals(ret.vals, s) && ret.default == Some(Dummy(s))
        invariant PhiFilledAll(f, ret.vals, incoming, j, Sigma(values, memory), current, path)
        modifies ret
      {
        var src := incoming[j].1;
        if src in infos {
          OperandTotal(f, avail, values, preds, current, k, path, ub, memory, j);
          AddTotal(ret.vals, Subst(incoming[j].0, Sigma(values, memory)), infos[src].path, s);
          PhiAddAll(f, preds, current, k, path, ub, memory, values, Regs(f, avail, current, k), incoming,
                    Sigma(values, memory), ret.vals, j, s);
          ret.Add(Subst(incoming[j].0, Sigma(values, memory)), infos[src].path, s);
        } else {
          PhiSkipAll(f, preds, current, k, path, ub, memory, values, Regs(f, avail, current, k), incoming,
                     Sigma(values, memory), ret.vals, j);
        }
        j := j + 1;
      }
      TotalValsFacts(ret.vals, s);
      var v := ret.Value(s);
      r := v.value;
      if ret.vals != map[] {
        SelectedTotal(ret.vals, r, s);
      }
      PhiOperands(f, avail, values, preds, current, k, path, ub, memory, ret.vals, r);
    }

    /** The jumps `js` of the current block are on record. */
    ghost predicate Leaving(preds0: Preds, js: seq<(Expr, Target)>)
      reads this
    {
      && current < |f.blocks| == |avail| && GoodFn(f, avail) && MEMORY in f.sorts
      && IsTotal(path, SBool) && IsTotal(ub, SBool) && IsTotal(memory, f.sorts[MEMORY]) && !IsFalse(path)
      && (forall n: nat :: n in seen <==> n <= current)
      && Jumping(f, preds0, preds, current, path, ub, memory, js)
    }

    /** Jumps to blocks already seen go to the sink. */
    method AddJump(dst0: Target, cond: Expr, ghost preds0: Preds, ghost js: seq<(Expr, Target)>)
      requires Leaving(preds0, js) && IsTotal(cond, SBool) && JumpsTo(f.blocks[current].term, dst0)
      modifies `preds
      ensures Leaving(preds0, js + [(cond, Redirect(f, current, dst0))])
    {
      hide GoodFn, IsTotal, Jumping, JumpsTo, CanJump, MkAnd, MkOr, AddTo, WF, SortOf, Redirect;
      TargetGood(f, avail, current, dst0);
      SeenRedirect(f, current, seen, dst0);
      if IsFalse(cond) {
        JumpingSkips(f, preds0, preds, current, path, ub, memory, js, cond, Redirect(f, current, dst0));
        return;
      }
      var dst := dst0;
      if dst.Bb? && dst.n in seen {
        dst := Sink;
      }
      AndTotal(cond, path);
      TotalSort(cond, path);
      var c := MkAnd(cond, path);
      JumpingCan(f, preds0, preds, current, path, ub, memory, js, c, dst);
      JumpingAdds(f, preds0, preds, current, path, ub, memory, js, cond, c, dst);
      preds := JumpRecord(f, preds, current, ub, memory, c, dst);
    }

    method AddUB(cond: Expr)
      requires IsTotal(ub, SBool) && IsTotal(cond, SBool)
      modifies `ub
      ensures IsTotal(ub, SBool) && forall m :: On(ub, m) <==> On(old(ub), m) && On(cond, m)
    {
      hide IsTotal, MkAnd, On, WF, SortOf;
      AndTotal(ub, cond);
      TotalSort(ub, cond);
      ub := MkAnd(ub, cond);
    }

    /** Where no other return is on, exactly this one's value and memory are added under the path
        condition, and the return condition holds if the behaviour so far is defined. Nothing after
        the return is defined. */
    method AddReturn(val: Expr)
      requires ReturnsTotal(f, returned) && ReturnTerms(f, path, ub, memory, val)
      modifies `returned, `ub
      ensures ReturnsTotal(f, returned)
      ensures forall m :: AddedFirst(old(returned), returned, path, old(ub), memory, val, m)
      ensures IsTotal(ub, SBool) && forall m :: !On(ub, m)
    {
      hide IsTotal, TotalVals, AddTo, MkOr, MkAnd, WF, SortOf, On, ReturnsTotal, ReturnTerms, AddReturnTo, Added,
           NoneActive, Eval;
      ReturnTermsTotal(f, path, ub, memory, val);
      ghost var before := returned;
      returned := AddReturnTo(f, returned, path, ub, memory, val);
      forall m
        ensures AddedFirst(before, returned, path, ub, memory, val, m)
      {
        if !On(path, m) || (NoneActive(before.vals, m) && NoneActive(before.mems, m)) {
          AddReturnActive(f, before, path, ub, memory, val, m);
        }
      }
      ConstTotal(false);
      AddUB(Bool(false));
    }

    /** Leaves the current block. */
    method ExecTerminator()
      requires current < |f.blocks| && Inside(|f.blocks[current].instrs|)
      modifies `preds, `returned, `ub
      ensures Between(current + 1)
    {
      hide Swept, KeysBefore, ReturnsUpTo, IsTotal, BlockState, Subst, Sigma, GoodFn, AtPoints, Jumping, NeverDefined,
           ReturnsTotal, ReturnTerms, AddedFirst, ValuesOk, On;
      var t := f.blocks[current].term;
      StateFacts(f, avail, values, preds, current, |f.blocks[current].instrs|, path, ub, memory);
      KeysLater(f, values, current, |f.blocks[current].instrs|, current + 1, 0);
      ConstTotal(false);
      match t
      case Return(e) =>
        ReturnReady(f, avail, values, preds, returned, current, path, ub, memory, e, Subst(e, Sigma(values, memory)));
        ghost var before, defined := returned, ub;
        AddReturn(Subst(e, Sigma(values, memory)));
        ReturnDone(f, avail, values, preds, before, current, path, defined, memory, e, Subst(e, Sigma(values, memory)),
                   returned, current + 1);
        BlockSilent(f, avail, values, preds, current);
      case Unreachable =>
        NoReturnAll(f, returned, current);
        BlockSilent(f, avail, values, preds, current);
        AddUB(Bool(false));
      case _ =>
        NoReturnAll(f, returned, current);
        ExecJumps();
        AddUB(Bool(false));
    }

    method ExecJumps()
      requires current < |f.blocks| && Inside(|f.blocks[current].instrs|)
      requires var t := f.blocks[current].term; t.Jump? || t.CondJump? || t.Switch?
      modifies `preds
      ensures Swept(f, avail, values, preds, current + 1)
    {
      hide Swept, KeysBefore, ReturnsUpTo, IsTotal, BlockState, Subst, Sigma, GoodFn, AtPoints, Jumping, JumpTerm,
           GuardedOk, MkEq, MkNot, WF, SortOf, ValuesOk, Redirect, CaseJumps, DefaultCond, CasesSorted;
      var t := f.blocks[current].term;
      ghost var preds0 := preds;
      StateFacts(f, avail, values, preds, current, |f.blocks[current].instrs|, path, ub, memory);
      JumpingStarts(f, avail, values, preds, current, path, ub, memory);
      var v := if t.Jump? then Bool(true) else Subst(t.cond, Sigma(values, memory));
      JumpReady(f, avail, values, preds, current, path, ub, memory, v);
      match t {
      case Jump(dst) =>
        ConstTotal(true);
        AddJump(dst, Bool(true), preds0, []);
        assert [] + [(Bool(true), Redirect(f, current, dst))] == GuardedJumps(f, current, t, v);
      case CondJump(_, ifTrue, ifFalse) =>
        CondTerms(v, t);
        var isFalse := MkEq(v, UInt(0, 1));
        AddJump(ifTrue, MkNot(isFalse), preds0, []);
        AddJump(ifFalse, isFalse, preds0, [] + [(MkNot(isFalse), Redirect(f, current, ifTrue))]);
        assert [] + [(MkNot(isFalse), Redirect(f, current, ifTrue))] + [(isFalse, Redirect(f, current, ifFalse))] ==
          GuardedJumps(f, current, t, v);
      case Switch(_, cases, default) =>
        ExecSwitch(v, cases, default, preds0);
      }
      BlockLeft(f, avail, values, preds0, preds, current, path, ub, memory, v, GuardedJumps(f, current, t, v));
    }

    method ExecSwitch(v: Expr, cases: seq<(Expr, Target)>, default: Target, ghost preds0: Preds)
      requires Leaving(preds0, []) && f.blocks[current].term.Switch? && f.blocks[current].term.cases == cases &&
        f.blocks[current].term.default == default
      requires GoodJump(f.blocks[current].term, v) && CasesSorted(cases, v)
      modifies `preds
      ensures Leaving(preds0, CaseJumps(f, current, cases, v, |cases|) +
        [(DefaultCond(cases, v, |cases|), Redirect(f, current, default))])
    {
      hide IsTotal, GoodFn, Jumping, MkEq, MkNot, MkAnd, WF, SortOf, Redirect, CasesSorted;
      SwitchTargets(f.blocks[current].term);
      SwitchTerms(v, f.blocks[current].term);
      var defaultCond := Bool(true);
      var i := 0;
      while i < |cases|
        invariant 0 <= i <= |cases| && defaultCond == DefaultCond(cases, v, i)
        invariant Leaving(preds0, CaseJumps(f, current, cases, v, i))
      {
        CaseTerm(v, f.blocks[current].term, i);
        var cmp := MkEq(v, cases[i].0);
        defaultCond := MkAnd(defaultCond, MkNot(cmp));
        AddJump(cases[i].1, cmp, preds0, CaseJumps(f, current, cases, v, i));
        i := i + 1;
      }
      AddJump(default, defaultCond, preds0, CaseJumps(f, current, cases, v, |cases|));
    }

    /** Executes the whole function, block by block in order. */
    method Run()
      requires Between(0)
      modifies this
      ensures Between(|f.blocks|)
    {
      hide Swept, KeysBefore, ReturnsUpTo, BlockState, NeverDefined;
      var b := 0;
      while b < |f.blocks|
        invariant 0 <= b <= |f.blocks| && Between(b)
      {
        var go := StartBB(b);
        if go {
          var k := 0;
          while k < |f.blocks[b].instrs|
            invariant current == b && 0 <= k <= |f.blocks[b].instrs| && Inside(k)
          {
            ExecInstr(k);
            k := k + 1;
          }
          ExecTerminator();
        } else {
          SilentReturns(f, avail, values, preds, returned, b);
        }
        b := b + 1;
      }
    }

    /** When the run ends in the sink. */
    method SinkDomain() returns (d: Expr)
      requires Between(|f.blocks|)
      ensures forall m :: On(d, m) <==> SinkOn(f, preds, m)
    {
      hide Swept, KeysBefore, ReturnsUpTo, On, SinkOn, IsTotal, MkOr, WF, SortOf;
      d := Bool(false);
      ConstTotal(false);
      if Sink !in preds {
        SinkAbsent(f, preds);
        return;
      }
      var infos := preds[Sink];
      var todo := infos.Keys;
      while todo != {}
        invariant todo <= infos.Keys && IsTotal(d, SBool)
        invariant forall m :: On(d, m) <==> exists src :: src in infos && src !in todo && On(infos[src].path, m)
        decreases |todo|
      {
        var src :| src in todo;
        SinkTotal(f, avail, values, preds, |f.blocks|, src);
        OrTotal(d, infos[src].path);
        TotalSort(d, infos[src].path);
        SinkStep(infos, todo, src, d, MkOr(d, infos[src].path));
        d := MkOr(d, infos[src].path);
        todo := todo - {src};
      }
      SinkAll(f, preds, d);
    }
  }

  // ---- What the steps rely on ----

  lemma {:induction false} ReturnReady(f: Fn, avail: seq<set<string>>, values: map<string, Expr>, preds: Preds,
                                       rs: Returns, b: nat, path: Expr, ub: Expr, memory: Expr,
                                       e: Expr, v: Expr)
    requires b < |f.blocks| == |avail| && f.blocks[b].term == Return(e) && v == Subst(e, Sigma(values, memory)) &&
      ReturnsUpTo(f, rs, b)
    requires BlockState(f, avail, values, preds, b, |f.blocks[b].instrs|, path, ub, memory)
    ensures ReturnsTotal(f, rs) && ReturnTerms(f, path, ub, memory, v)
  {
    hide Subst, Sigma, BlockState, ReturnsOk, IsTotal, TotalVals, GoodTerm, GoodFn, Out, EndsAs;
    StateFacts(f, avail, values, preds, b, |f.blocks[b].instrs|, path, ub, memory);
    TerminatorGood(f, avail, b);
    TerminatorTerm(f, avail, values, preds, b, path, ub, memory, e, f.ret);
  }

  lemma ReturnTermsTotal(f: Fn, path: Expr, ub: Expr, memory: Expr, val: Expr)
    requires ReturnTerms(f, path, ub, memory, val)
    ensures IsTotal(ub, SBool)
  {
  }

  lemma {:induction false} ReturnDone(f: Fn, avail: seq<set<string>>, values: map<string, Expr>, preds: Preds,
                                      rs: Returns, b: nat, path: Expr, ub: Expr, memory: Expr,
                                      e: Expr, v: Expr, rs': Returns, b': nat)
    requires ReturnsTotal(f, rs') && b' == b + 1 && forall m :: AddedFirst(rs, rs', path, ub, memory, v, m)
    requires b < |f.blocks| == |avail| && f.blocks[b].term == Return(e) && v == Subst(e, Sigma(values, memory)) &&
      ReturnsUpTo(f, rs, b)
    requires BlockState(f, avail, values, preds, b, |f.blocks[b].instrs|, path, ub, memory)
    ensures ReturnsUpTo(f, rs', b')
  {
    hide Subst, Sigma, BlockState, ReturnsOk, AddedFirst, ReturnsTotal, GoodTerm, GoodFn, Out, EndsAs;
    StateFacts(f, avail, values, preds, b, |f.blocks[b].instrs|, path, ub, memory);
    TerminatorGood(f, avail, b);
    TerminatorTerm(f, avail, values, preds, b, path, ub, memory, e, f.ret);
    forall m
      ensures ReturnsOk(f, rs', b', m)
    {
      EndPoint(f, avail, values, preds, b, path, ub, memory, m);
      assert EndsAs(f, b, path, v, e, m);
      ReturnDoneAt(f, rs, b, path, ub, memory, values, Out(f, avail, b), e, v, rs', b', m);
    }
  }

  lemma {:induction false} ReturnDoneAt(f: Fn, rs: Returns, b: nat, path: Expr, ub: Expr, memory: Expr,
                                        values: map<string, Expr>, regs: set<string>,
                                        e: Expr, v: Expr, rs': Returns, b': nat, m: Model)
    requires AddedFirst(rs, rs', path, ub, memory, v, m)
    requires b < |f.blocks| && MEMORY in f.sorts && f.blocks[b].term == Return(e) && b' == b + 1
    requires EndsAs(f, b, path, v, e, m) && ReturnsOk(f, rs, b, m)
    requires Tracks(f, b, |f.blocks[b].instrs|, path, ub, memory, values, regs, m) && Reaches(f, b, path, m)
    ensures ReturnsOk(f, rs', b', m)
  {
    hide ReturnsOk, AddedFirst, Tracks, Reaches, On, Eval, Visit, After;
    ReturnAdds(f, rs, rs', b, path, ub, memory, values, regs, v, m);
  }

  lemma {:induction false} NoReturnAll(f: Fn, rs: Returns, b: nat)
    requires b < |f.blocks| && ReturnsUpTo(f, rs, b) && (!f.blocks[b].term.Return? || NeverDefined(f, b))
    ensures ReturnsUpTo(f, rs, b + 1)
  {
    hide ReturnsOk, ReturnsTotal, At;
    var b' := b + 1;
    forall m
      ensures ReturnsOk(f, rs, b', m)
    {
      NoReturn(f, rs, b, m);
    }
  }

  lemma {:induction false} SilentReturns(f: Fn, avail: seq<set<string>>, values: map<string, Expr>, preds: Preds,
                                         rs: Returns, b: nat)
    requires b < |f.blocks| && Swept(f, avail, values, preds, b) && KeysBefore(f, values, b, 0) &&
      ReturnsUpTo(f, rs, b) && NeverDefined(f, b)
    ensures Swept(f, avail, values, preds, b + 1) && KeysBefore(f, values, b + 1, 0) && ReturnsUpTo(f, rs, b + 1)
  {
    hide Swept, KeysBefore, ReturnsUpTo;
    BlockSilent(f, avail, values, preds, b);
    KeysLater(f, values, b, 0, b + 1, 0);
    NoReturnAll(f, rs, b);
  }

  lemma {:induction false} JumpReady(f: Fn, avail: seq<set<string>>, values: map<string, Expr>, preds: Preds, b: nat,
                                     path: Expr, ub: Expr, memory: Expr, v: Expr)
    requires b < |f.blocks| == |avail| && BlockState(f, avail, values, preds, b, |f.blocks[b].instrs|, path, ub, memory)
    requires var t := f.blocks[b].term;
      (t.Jump? || t.CondJump? || t.Switch?) && v == if t.Jump? then Bool(true) else Subst(t.cond, Sigma(values, memory))
    ensures GoodJump(f.blocks[b].term, v) && JumpTerm(f, b, path, v) && GuardedOk(f.blocks[b].term, v)
  {
    hide Subst, Sigma, BlockState, Eval, WF, SortOf, EndsAs, GoodFn, Out;
    var t := f.blocks[b].term;
    StateFacts(f, avail, values, preds, b, |f.blocks[b].instrs|, path, ub, memory);
    TerminatorGood(f, avail, b);
    match t
    case Jump(_) =>
    case CondJump(e, _, _) =>
      TerminatorTerm(f, avail, values, preds, b, path, ub, memory, e, SBv(1));
    case Switch(e, cases, _) =>
      TerminatorTerm(f, avail, values, preds, b, path, ub, memory, e, SortOf(e));
      ConstCasesTotal(cases, e, SortOf(e));
      CasesAreSorted(cases, v, SortOf(e));
  }

  lemma {:induction false} ConstCasesTotal(cases: seq<(Expr, Target)>, e: Expr, s: Sort)
    requires IsTotal(e, s) && forall i :: 0 <= i < |cases| ==> cases[i].0.Bv? && SortOf(cases[i].0) == s
    ensures ConstCases(cases, s)
  {
    hide Eval, WF, SortOf;
    OpenWidth(e);
    forall i | 0 <= i < |cases|
      ensures IsTotal(cases[i].0, s)
    {
      NumeralTotal(cases[i].0, e);
    }
  }

  lemma {:induction false} OpenWidth(e: Expr)
    requires WF(e)
    ensures Width(e) > 0
  {
  }

  lemma {:induction false} NumeralTotal(n: Expr, e: Expr)
    requires n.Bv? && WF(e) && SortOf(n) == SortOf(e)
    ensures IsTotal(n, SortOf(e))
  {
  }

  lemma {:induction false} CondTerms(v: Expr, t: Terminator)
    requires t.CondJump? && GoodJump(t, v)
    ensures WF(v) && SortOf(v) == SBv(1) && WF(UInt(0, 1)) && SortOf(UInt(0, 1)) == SBv(1) &&
      WF(MkEq(v, UInt(0, 1))) && SortOf(MkEq(v, UInt(0, 1))) == SBool
    ensures IsTotal(MkEq(v, UInt(0, 1)), SBool) && IsTotal(MkNot(MkEq(v, UInt(0, 1))), SBool)
    ensures JumpsTo(t, t.ifTrue) && JumpsTo(t, t.ifFalse)
  {
    hide MkEq, MkNot, Eval, WF, SortOf;
    ZeroBit(Model(map[], map[], map[]));
    EqTotal(v, UInt(0, 1), SBv(1));
    NotTotal(MkEq(v, UInt(0, 1)));
  }

  lemma {:induction false} SwitchTargets(t: Terminator)
    requires t.Switch?
    ensures JumpsTo(t, t.default) && forall i :: 0 <= i < |t.cases| ==> JumpsTo(t, t.cases[i].1)
  {
  }

  lemma {:induction false} SwitchTerms(v: Expr, t: Terminator)
    requires t.Switch? && GoodJump(t, v) && CasesSorted(t.cases, v)
    ensures IsTotal(DefaultCond(t.cases, v, |t.cases|), SBool)
  {
    hide Eval, WF, SortOf, CasesSorted, IsTotal, DefaultCond;
    DefaultMeans(t.cases, v, SortOf(v), |t.cases|);
  }

  lemma {:induction false} CaseTerm(v: Expr, t: Terminator, i: nat)
    requires t.Switch? && GoodJump(t, v) && i < |t.cases|
    ensures var c := t.cases[i].0;
      WF(v) && WF(c) && SortOf(c) == SortOf(v) && IsTotal(MkEq(v, c), SBool) && WF(MkEq(v, c)) &&
      SortOf(MkEq(v, c)) == SBool
  {
    hide Eval, WF, SortOf, MkEq;
    EqTotal(v, t.cases[i].0, SortOf(v));
  }

  ghost predicate SinkOn(f: Fn, preds: Preds, m: Model) {
    exists src :: Recorded(preds, Sink, src) && On(preds[Sink][src].path, m)
  }

  lemma {:induction false} SinkAbsent(f: Fn, preds: Preds)
    requires Sink !in preds
    ensures forall m :: !SinkOn(f, preds, m)
  {
  }

  lemma {:induction false} SinkTotal(f: Fn, avail: seq<set<string>>, values: map<string, Expr>, preds: Preds, b: nat,
                                     src: nat)
    requires Swept(f, avail, values, preds, b) && Recorded(preds, Sink, src)
    ensures IsTotal(preds[Sink][src].path, SBool)
  {
    hide Edges, GoodFn, IsTotal, TotalVals;
    OpenFn(f, avail);
    assert RecordOk(f, avail, values, preds, b, Sink, src);
  }

  lemma {:induction false} SinkStep(infos: map<nat, Info>, todo: set<nat>, src: nat, d: Expr, d': Expr)
    requires src in infos && src in todo
    requires forall m :: On(d, m) <==> exists s :: s in infos && s !in todo && On(infos[s].path, m)
    requires forall m :: On(d', m) <==> On(d, m) || On(infos[src].path, m)
    ensures forall m :: On(d', m) <==> exists s :: s in infos && s !in todo - {src} && On(infos[s].path, m)
  {
    hide On;
    forall m
      ensures On(d', m) <==> exists s :: s in infos && s !in todo - {src} && On(infos[s].path, m)
    {
      if On(infos[src].path, m) {
        assert src !in todo - {src};
      }
      if s :| s in infos && s !in todo && On(infos[s].path, m) {
        assert s !in todo - {src};
      }
    }
  }

  lemma {:induction false} SinkAll(f: Fn, preds: Preds, d: Expr)
    requires Sink in preds && forall m ::
      On(d, m) <==> exists s :: s in preds[Sink] && s !in {} && On(preds[Sink][s].path, m)
    ensures forall m :: On(d, m) <==> SinkOn(f, preds, m)
  {
    hide On;
    forall m
      ensures On(d, m) <==> SinkOn(f, preds, m)
    {
      if s :| s in preds[Sink] && s !in {} && On(preds[Sink][s].path, m) {
        assert Recorded(preds, Sink, s);
      }
      if SinkOn(f, preds, m) {
        var s :| Recorded(preds, Sink, s) && On(preds[Sink][s].path, m);
        assert s in preds[Sink] && s !in {};
      }
    }
  }

  // ---- The results ----

  /** The path and UB condition of a block holds exactly when the run enters the block
      with its behaviour defined; the memory and registers are then those of the run. */
  lemma {:induction false} BlockCondition(f: Fn, avail: seq<set<string>>, values: map<string, Expr>, preds: Preds,
                                          b: nat, path: Expr, ub: Expr, memory: Expr, m: Model)
    requires b < |f.blocks| == |avail| && BlockState(f, avail, values, preds, b, 0, path, ub, memory)
    ensures On(path, m) && On(ub, m) <==> At(f, m, b).Some? && At(f, m, b).value.ok
    ensures On(path, m) ==> At(f, m, b).Some? && Follows(f, At(f, m, b).value, 0, ub, memory, values, avail[b], m)
  {
    hide Eval, Swept, KeysBefore, TermsOk, CameBy, PrevRecorded, RegsAgree, MemoryAgrees, Visit;
    assert Regs(f, avail, b, 0) == avail[b];
    assert AtPoint(f, preds, b, 0, path, ub, memory, values, avail[b], m);
  }

  /** After the sweep, under every valuation: the return condition holds exactly when the
      run returns with its behaviour defined, and then the joined value and memory are
      the run's; the sink's condition holds only if the run ends there, and does if the
      run's behaviour was defined. */
  lemma {:induction false} RunAgrees(f: Fn, avail: seq<set<string>>, values: map<string, Expr>, preds: Preds,
                                     rs: Returns, m: Model)
    requires |f.blocks| > 0 && MEMORY in f.sorts && Swept(f, avail, values, preds, |f.blocks|) &&
      ReturnsUpTo(f, rs, |f.blocks|)
    ensures var o := Outcome(f, Start(m));
      && (On(rs.dom, m) <==> o.Returned? && o.ok)
      && (On(rs.dom, m) ==> Picks(rs.vals, o.val, m) && Picks(rs.mems, Eval(Var(MEMORY, f.sorts[MEMORY]), o.env), m))
      && (SinkOn(f, preds, m) ==> o.Sunk?)
      && (o.Sunk? && o.ok ==> SinkOn(f, preds, m))
  {
    hide Eval, Swept, Visit, Exec, Outcome, ReturnsTotal, Picks, On, NoneActive;
    var b := OutcomeVisited(f, Start(m));
    var o := Outcome(f, Start(m));
    assert ReturnsOk(f, rs, |f.blocks|, m);
    assert Leaves(f, m, b) == o;
    if o.Returned? {
      assert ReturnsAt(f, m, b);
    } else {
      forall src: nat | src < |f.blocks|
        ensures !ReturnsAt(f, m, src)
      {
        OneEnd(f, m, src, b);
      }
    }
    if SinkOn(f, preds, m) {
      var src :| Recorded(preds, Sink, src) && On(preds[Sink][src].path, m);
      SinkTaken(f, avail, values, preds, src, m);
      OneEnd(f, m, src, b);
    }
    if o.Sunk? && o.ok {
      SinkReached(f, avail, values, preds, b, m);
    }
  }

  /** A run has one end. */
  lemma {:induction false} OneEnd(f: Fn, m: Model, src: nat, b: nat)
    requires src < |f.blocks| && b < |f.blocks| && At(f, m, b).Some? && !Leaves(f, m, b).Next?
    ensures At(f, m, src).Some? && !Leaves(f, m, src).Next? ==> src == b
  {
    hide Eval, Visit, Exec;
    if At(f, m, src).Some? && !Leaves(f, m, src).Next? {
      if src < b {
        VisitStops(f, Start(m), src, b);
      } else if b < src {
        VisitStops(f, Start(m), b, src);
      }
    }
  }

  lemma {:induction false} SinkTaken(f: Fn, avail: seq<set<string>>, values: map<string, Expr>, preds: Preds, src: nat,
                                     m: Model)
    requires Swept(f, avail, values, preds, |f.blocks|) && Recorded(preds, Sink, src) && On(preds[Sink][src].path, m)
    ensures src < |f.blocks| && At(f, m, src).Some? && Leaves(f, m, src).Sunk?
  {
    hide Eval, GoodFn, Out, RegsAgree, Picks, Live, Visit, Exec, On, JumpsTo;
    OpenFn(f, avail);
    assert RecordOk(f, avail, values, preds, |f.blocks|, Sink, src);
    assert InfoAt(preds, Sink, src) == preds[Sink][src];
    assert EdgeOk(f, values, Out(f, avail, src), InfoAt(preds, Sink, src), src, Sink, m);
  }

  lemma {:induction false} SinkReached(f: Fn, avail: seq<set<string>>, values: map<string, Expr>, preds: Preds, b: nat,
                                       m: Model)
    requires Swept(f, avail, values, preds, |f.blocks|) && b < |f.blocks| && At(f, m, b).Some? &&
      Leaves(f, m, b).Sunk? && Leaves(f, m, b).ok
    ensures SinkOn(f, preds, m)
  {
    hide Eval, GoodFn, Out, RegsAgree, Picks, Live, Visit, Exec, Recordings;
    OpenFn(f, avail);
    assert EdgeOk(f, values, Out(f, avail, b), InfoAt(preds, Sink, b), b, Sink, m);
    OpenBool(Bool(false), m);
    assert Recorded(preds, Sink, b);
  }

  lemma {:induction false} NothingDone(f: Fn, avail: seq<set<string>>)
    requires GoodFn(f, avail)
    ensures Swept(f, avail, map[], map[], 0) && KeysBefore(f, map[], 0, 0)
    ensures ReturnsUpTo(f, Returns(map[], map[], Bool(false)), 0)
  {
    hide GoodFn, Visit, Exec;
    OpenFn(f, avail);
    ConstTotal(false);
    forall m
      ensures ReturnsOk(f, Returns(map[], map[], Bool(false)), 0, m)
    {
    }
  }

  lemma {:induction false} EmptyTotal()
    ensures forall s :: TotalVals(map[], s)
  {
  }

  lemma {:induction false} TotalSort(a: Expr, b: Expr)
    requires IsTotal(a, SBool) && IsTotal(b, SBool)
    ensures WF(a) && WF(b) && SortOf(a) == SortOf(b) == SBool
  {
  }

  lemma {:induction false} StateFacts(f: Fn, avail: seq<set<string>>, values: map<string, Expr>, preds: Preds, b: nat,
                                      k: nat, path: Expr, ub: Expr, memory: Expr)
    requires b < |f.blocks| == |avail| && k <= |f.blocks[b].instrs| &&
      BlockState(f, avail, values, preds, b, k, path, ub, memory)
    ensures GoodFn(f, avail) && MEMORY in f.sorts && (b > 0 ==> Bb(b) in preds) && Swept(f, avail, values, preds, b) &&
      !IsFalse(path)
    ensures IsTotal(path, SBool) && IsTotal(ub, SBool) && IsTotal(memory, f.sorts[MEMORY]) && ValuesOk(f, values) &&
      KeysBefore(f, values, b, k)
    ensures AtPoints(f, preds, b, k, path, ub, memory, values, Regs(f, avail, b, k))
  {
    hide Swept, AtPoints, KeysBefore, IsTotal, GoodFn;
    OpenSwept(f, avail, values, preds, b);
  }

  lemma {:induction false} PhiFacts(f: Fn, avail: seq<set<string>>, b: nat, k: nat)
    requires b < |f.blocks| == |avail| && k < |f.blocks[b].instrs| && PhiAt(f, avail, b, k)
    ensures var i := f.blocks[b].instrs[k]; i.Phi? && b > 0 && GoodReg(f, i.reg) && SameOperands(i.incoming)
  {
    hide GoodIncoming;
  }
}

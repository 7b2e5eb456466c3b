/** How often each function may have been called on the paths to a point. */
module FnCalls {

  /** The possible counts, and whether calls are restricted to memory no one else sees. */
  datatype Calls = Calls(counts: set<nat>, restricted: bool)

  type Ranges = map<string, Calls>

  /** How often one path calls each function. */
  type Count = map<string, nat>

  function Of(c: Count, name: string): nat {
    if name in c then c[name] else 0
  }

  function Possible(r: Ranges, name: string): set<nat> {
    if name in r then r[name].counts else {0}
  }

  predicate Restricted(r: Ranges, name: string) {
    name in r && r[name].restricted
  }

  ghost predicate Contains(r: Ranges, c: Count) {
    forall name :: Of(c, name) in Possible(r, name)
  }

  function CallOnce(c: Count, name: string): Count {
    c[name := Of(c, name) + 1]
  }

  /** The numbers one above those in `s`. */
  function Shifted(s: set<nat>): (r: set<nat>)
    ensures forall x :: x in r <==> x > 0 && x - 1 in s
  {
    var r: set<nat> := set n | n in s :: n + 1;
    ShiftedBack(s, r);
    r
  }

  lemma ShiftedBack(s: set<nat>, r: set<nat>)
    requires r == set n | n in s :: n + 1
    ensures forall x :: x in r <==> x > 0 && x - 1 in s
  {
    forall x
      ensures x in r <==> x > 0 && x - 1 in s
    {
      if x > 0 && x - 1 in s {
        var n := x - 1;
        assert n + 1 in r;
      }
    }
  }

  function IncIn(r: Ranges, name: string, restricted: bool): Ranges {
    r[name := Calls(Shifted(Possible(r, name)), Restricted(r, name) || restricted)]
  }

  /** What two predecessors have in common, names missing on one side counting as zero calls. */
  ghost predicate Meets(r: Ranges, a: Ranges, b: Ranges) {
    && r.Keys == a.Keys + b.Keys
    && (forall name :: name in r ==> MetAt(r, a, b, name))
  }

  ghost predicate MetAt(r: Ranges, a: Ranges, b: Ranges, name: string)
    requires name in r
  {
    && (name in a || name in b) && r[name].counts == Possible(a, name) + Possible(b, name)
    && r[name].restricted == if name in a then a[name].restricted else b[name].restricted
  }

  /** The names of `b` outside `todo` have been added to those of `a`. */
  ghost predicate Added(r: Ranges, a: Ranges, b: Ranges, todo: set<string>, name: string)
    requires name in r
  {
    if name in b && name !in todo then MetAt(r, a, b, name) else name in a && r[name] == a[name]
  }

  /** The two sides can have made the same calls, as far as others can tell. */
  ghost predicate CanAgree(a: Ranges, b: Ranges, c: Count) {
    forall name :: !Restricted(a, name) && !Restricted(b, name) ==>
      Of(c, name) in Possible(a, name) && Of(c, name) in Possible(b, name)
  }

  predicate AgreeOn(a: Ranges, b: Ranges, name: string) {
    Restricted(a, name) || Restricted(b, name) || Possible(a, name) * Possible(b, name) != {}
  }

  ghost predicate AllAdded(r: Ranges, a: Ranges, b: Ranges, todo: set<string>) {
    r.Keys == a.Keys + (b.Keys - todo) && forall name :: name in r ==> Added(r, a, b, todo, name)
  }

  lemma AddStarts(a: Ranges, b: Ranges)
    ensures AllAdded(a, a, b, b.Keys)
  {
  }

  function AddName(r: Ranges, b: Ranges, name: string): Ranges
    requires name in b
  {
    r[name := if name in r then Calls(r[name].counts + b[name].counts, r[name].restricted)
              else Calls(b[name].counts + {0}, b[name].restricted)]
  }

  lemma AddStep(r: Ranges, a: Ranges, b: Ranges, todo: set<string>, name: string)
    requires AllAdded(r, a, b, todo) && name in b && name in todo
    ensures AllAdded(AddName(r, b, name), a, b, todo - {name})
  {
    var r' := AddName(r, b, name);
    forall x | x in r'
      ensures Added(r', a, b, todo - {name}, x)
    {
      if x == name {
        assert name in r ==> Added(r, a, b, todo, name);
        MetNow(r', a, b, name);
      } else {
        assert Added(r, a, b, todo, x);
      }
    }
  }

  lemma MetNow(r: Ranges, a: Ranges, b: Ranges, name: string)
    requires name in b && name in r
    requires r[name] == if name in a then Calls(a[name].counts + b[name].counts, a[name].restricted)
      else Calls(b[name].counts + {0}, b[name].restricted)
    ensures MetAt(r, a, b, name)
  {
  }

  ghost predicate Zeroing(r: Ranges, a: Ranges, b: Ranges, todo: set<string>) {
    r.Keys == a.Keys + b.Keys && forall name ::
      name in r ==> if name in todo then Added(r, a, b, {}, name) else MetAt(r, a, b, name)
  }

  lemma ZeroStarts(r: Ranges, a: Ranges, b: Ranges)
    requires AllAdded(r, a, b, {})
    ensures Zeroing(r, a, b, r.Keys)
  {
  }

  lemma ZeroStep(r: Ranges, a: Ranges, b: Ranges, todo: set<string>, name: string)
    requires Zeroing(r, a, b, todo) && name in todo && name in r
    ensures name in b ==> Zeroing(r, a, b, todo - {name})
    ensures name !in b ==> Zeroing(r[name := Calls(r[name].counts + {0}, r[name].restricted)], a, b, todo - {name})
  {
    var r' := if name in b then r else r[name := Calls(r[name].counts + {0}, r[name].restricted)];
    forall x | x in r'
      ensures if x in todo - {name} then Added(r', a, b, {}, x) else MetAt(r', a, b, x)
    {
      assert if x in todo then Added(r, a, b, {}, x) else MetAt(r, a, b, x);
    }
  }

  lemma ZeroEnds(r: Ranges, a: Ranges, b: Ranges)
    requires Zeroing(r, a, b, {})
    ensures Meets(r, a, b)
  {
  }

  lemma MeetFlags(r: Ranges, a: Ranges, b: Ranges)
    requires Meets(r, a, b) && forall name :: name in a && name in b ==> a[name].restricted == b[name].restricted
    ensures forall name :: Restricted(r, name) <==> Restricted(a, name) || Restricted(b, name)
  {
    assert forall name :: name in r ==> MetAt(r, a, b, name);
  }

  class FnCallRanges {
    var ranges: Ranges

    constructor ()
      ensures ranges == map[]
    {
      ranges := map[];
    }

    method Inc(name: string, restricted: bool)
      modifies this
      ensures ranges == IncIn(old(ranges), name, restricted)
      ensures name in ranges && (ranges[name].restricted <==> restricted || Restricted(old(ranges), name))
      ensures forall n: nat :: n in ranges[name].counts <==>
        n > 0 && if name in old(ranges) then n - 1 in old(ranges)[name].counts else n == 1
      ensures ranges - {name} == old(ranges) - {name}
    {
      if name !in ranges {
        ranges := ranges[name := Calls({1}, restricted)];
        assert Shifted({0}) == {1};
      } else {
        var calls := ranges[name];
        var newSet: set<nat> := {};
        var todo := calls.counts;
        while todo != {}
          invariant todo <= calls.counts
          invariant forall x :: x in newSet <==> x > 0 && x - 1 in calls.counts - todo
          decreases |todo|
        {
          var n :| n in todo;
          newSet := newSet + {n + 1};
          todo := todo - {n};
        }
        assert newSet == Shifted(calls.counts);
        ranges := ranges[name := Calls(newSet, calls.restricted || restricted)];
      }
    }

    method MeetWith(other: Ranges)
      requires forall name :: name in ranges && name in other ==> ranges[name].restricted == other[name].restricted
      modifies this
      ensures Meets(ranges, old(ranges), other)
      ensures forall name :: Restricted(ranges, name) <==> Restricted(old(ranges), name) || Restricted(other, name)
    {
      hide Added, MetAt, Meets;
      ghost var mine := ranges;
      AddStarts(mine, other);
      var todo := other.Keys;
      while todo != {}
        invariant todo <= other.Keys && AllAdded(ranges, mine, other, todo)
        decreases |todo|
      {
        var name :| name in todo;
        AddStep(ranges, mine, other, todo, name);
        if name !in ranges {
          ranges := ranges[name := Calls(other[name].counts + {0}, other[name].restricted)];
        } else {
          ranges := ranges[name := Calls(ranges[name].counts + other[name].counts, ranges[name].restricted)];
        }
        todo := todo - {name};
      }
      AddZeros(mine, other);
      MeetFlags(ranges, mine, other);
    }

    /** Names the other side does not have may also have been called zero times. */
    method AddZeros(ghost mine: Ranges, other: Ranges)
      requires AllAdded(ranges, mine, other, {})
      modifies this
      ensures Meets(ranges, mine, other)
    {
      hide Added, MetAt, Meets, AllAdded;
      var todo := ranges.Keys;
      ZeroStarts(ranges, mine, other);
      while todo != {}
        invariant todo <= ranges.Keys && Zeroing(ranges, mine, other, todo)
        decreases |todo|
      {
        var name :| name in todo;
        ZeroStep(ranges, mine, other, todo, name);
        if name !in other {
          ranges := ranges[name := Calls(ranges[name].counts + {0}, ranges[name].restricted)];
        }
        todo := todo - {name};
      }
      ZeroEnds(ranges, mine, other);
    }

    method Overlaps(other: Ranges) returns (r: bool)
      ensures r <==> exists c :: CanAgree(ranges, other, c)
    {
      var todo := ranges.Keys;
      while todo != {}
        invariant todo <= ranges.Keys && forall name :: name in ranges && name !in todo ==> AgreeOn(ranges, other, name)
        decreases |todo|
      {
        var name :| name in todo;
        todo := todo - {name};
        if !ranges[name].restricted {
          if name !in other {
            if 0 !in ranges[name].counts {
              assert Possible(ranges, name) * Possible(other, name) == {};
              NoAgreement(ranges, other, name);
              return false;
            }
            assert 0 in Possible(ranges, name) * Possible(other, name);
          } else if !other[name].restricted && ranges[name].counts * other[name].counts == {} {
            NoAgreement(ranges, other, name);
            return false;
          }
        }
      }
      todo := other.Keys;
      while todo != {}
        invariant todo <= other.Keys && forall name ::
          name in ranges || (name in other && name !in todo) ==> AgreeOn(ranges, other, name)
        decreases |todo|
      {
        var name :| name in todo;
        todo := todo - {name};
        if !other[name].restricted && 0 !in other[name].counts && name !in ranges {
          assert Possible(ranges, name) * Possible(other, name) == {};
          NoAgreement(ranges, other, name);
          return false;
        }
        if name !in ranges && !other[name].restricted {
          assert 0 in Possible(ranges, name) * Possible(other, name);
        }
      }
      var c := Agreement(ranges, other, ranges.Keys + other.Keys);
      return true;
    }

    /** The calls of one function: its counts are as they were, and no other is called. */
    method Project(name: string) returns (r: Ranges)
      ensures r.Keys == (if name in ranges then {name} else {}) && !Restricted(r, name)
      ensures Possible(r, name) == Possible(ranges, name)
      ensures forall c :: Contains(r, c) <==> Of(c, name) in Possible(ranges, name) && forall x ::
        x != name ==> Of(c, x) == 0
    {
      if name !in ranges {
        return map[];
      }
      return map[name := Calls(ranges[name].counts, false)];
    }
  }

  lemma NoAgreement(a: Ranges, b: Ranges, name: string)
    requires !AgreeOn(a, b, name)
    ensures !exists c :: CanAgree(a, b, c)
  {
    forall c
      ensures !CanAgree(a, b, c)
    {
      assert Of(c, name) !in Possible(a, name) * Possible(b, name);
    }
  }

  lemma {:induction false} Agreement(a: Ranges, b: Ranges, names: set<string>) returns (c: Count)
    requires forall name :: name in names ==> AgreeOn(a, b, name)
    ensures c.Keys <= names
    ensures forall name :: name in names && !Restricted(a, name) && !Restricted(b, name) ==>
      Of(c, name) in Possible(a, name) && Of(c, name) in Possible(b, name)
    ensures a.Keys + b.Keys <= names ==> CanAgree(a, b, c)
    decreases names
  {
    if names == {} {
      c := map[];
    } else {
      var name :| name in names;
      c := Agreement(a, b, names - {name});
      if !Restricted(a, name) && !Restricted(b, name) {
        var n :| n in Possible(a, name) * Possible(b, name);
        c := c[name := n];
      }
    }
  }

  /** A path that makes one more call stays within the ranges. */
  lemma IncContains(r: Ranges, c: Count, name: string, restricted: bool)
    requires Contains(r, c)
    ensures Contains(IncIn(r, name, restricted), CallOnce(c, name))
  {
    var r' := IncIn(r, name, restricted);
    forall x
      ensures Of(CallOnce(c, name), x) in Possible(r', x)
    {
      assert Of(c, x) in Possible(r, x);
    }
  }

  lemma MeetContains(r: Ranges, a: Ranges, b: Ranges, c: Count)
    requires Meets(r, a, b) && (Contains(a, c) || Contains(b, c))
    ensures Contains(r, c)
  {
    forall name
      ensures Of(c, name) in Possible(r, name)
    {
      assert Contains(a, c) ==> Of(c, name) in Possible(a, name);
      assert Contains(b, c) ==> Of(c, name) in Possible(b, name);
    }
  }

  // ---- Along a control-flow graph ----

  /** A call of a block, and whether it is restricted. */
  type Call = (string, bool)

  function IncAll(r: Ranges, calls: seq<Call>): Ranges {
    if calls == [] then r
    else IncIn(IncAll(r, calls[..|calls| - 1]), calls[|calls| - 1].0, calls[|calls| - 1].1)
  }

  function CallAll(c: Count, calls: seq<Call>): Count {
    if calls == [] then c else CallOnce(CallAll(c, calls[..|calls| - 1]), calls[|calls| - 1].0)
  }

  lemma {:induction false} IncAllContains(r: Ranges, c: Count, calls: seq<Call>)
    requires Contains(r, c)
    ensures Contains(IncAll(r, calls), CallAll(c, calls))
    decreases |calls|
  {
    if calls != [] {
      var front := calls[..|calls| - 1];
      IncAllContains(r, c, front);
      IncContains(IncAll(r, front), CallAll(c, front), calls[|calls| - 1].0, calls[|calls| - 1].1);
    }
  }

  /** `r` is the join of what the predecessors in `ps` leave behind. */
  ghost predicate JoinsAll(r: Ranges, outs: seq<Ranges>, ps: seq<nat>)
    decreases |ps|
  {
    && ps != [] && ps[|ps| - 1] < |outs|
    && if |ps| == 1 then r == outs[ps[0]]
       else var front, last := ps[..|ps| - 1], outs[ps[|ps| - 1]];
         exists a :: JoinsAll(a, outs, front) && Meets(r, a, last)
  }

  lemma {:induction false} JoinContains(r: Ranges, outs: seq<Ranges>, ps: seq<nat>, p: nat, c: Count)
    requires JoinsAll(r, outs, ps) && p in ps && p < |outs| && Contains(outs[p], c)
    ensures Contains(r, c)
    decreases |ps|
  {
    if |ps| > 1 {
      var front := ps[..|ps| - 1];
      var a :| JoinsAll(a, outs, front) && Meets(r, a, outs[ps[|ps| - 1]]);
      if p != ps[|ps| - 1] {
        JoinContains(a, outs, front, p, c);
      }
      MeetContains(r, a, outs[ps[|ps| - 1]], c);
    }
  }

  /** A graph whose ranges have been computed block by block. */
  ghost predicate Flow(preds: seq<seq<nat>>, calls: seq<seq<Call>>, ins: seq<Ranges>, outs: seq<Ranges>) {
    && |preds| == |calls| == |ins| == |outs| > 0 && ins[0] == map[]
    && (forall b :: 0 <= b < |outs| ==> outs[b] == IncAll(ins[b], calls[b]))
    && (forall b :: 0 < b < |ins| && preds[b] != [] ==> JoinsAll(ins[b], outs, preds[b]))
  }

  ghost predicate IsPath(preds: seq<seq<nat>>, p: seq<nat>) {
    && p != [] && p[0] == 0 && (forall i :: 0 <= i < |p| ==> p[i] < |preds|)
    && forall i :: 0 <= i < |p| - 1 ==> Follows(preds, p, i)
  }

  ghost predicate Follows(preds: seq<seq<nat>>, p: seq<nat>, i: nat)
    requires i + 1 < |p| && p[i + 1] < |preds|
  {
    p[i] in preds[p[i + 1]] && p[i + 1] != 0
  }

  /** The calls made on a path, up to the end of its last block. */
  function PathCount(calls: seq<seq<Call>>, p: seq<nat>): Count
    requires forall i :: 0 <= i < |p| ==> p[i] < |calls|
  {
    if p == [] then map[] else CallAll(PathCount(calls, p[..|p| - 1]), calls[p[|p| - 1]])
  }

  /** The calls of every path lie within the ranges at its end. */
  lemma {:induction false} PathCounts(preds: seq<seq<nat>>, calls: seq<seq<Call>>, ins: seq<Ranges>, outs: seq<Ranges>,
                                      p: seq<nat>)
    requires Flow(preds, calls, ins, outs) && IsPath(preds, p)
    ensures Contains(outs[p[|p| - 1]], PathCount(calls, p))
    decreases |p|
  {
    var n := |p| - 1;
    var b := p[n];
    if n == 0 {
      assert p[..|p| - 1] == [];
      assert PathCount(calls, p) == CallAll(map[], calls[0]);
      IncAllContains(ins[0], map[], calls[0]);
    } else {
      var q := p[..n];
      forall i | 0 <= i < |q| - 1
        ensures Follows(preds, q, i)
      {
        assert Follows(preds, p, i);
      }
      assert Follows(preds, p, n - 1);
      PathCounts(preds, calls, ins, outs, q);
      JoinContains(ins[b], outs, preds[b], p[n - 1], PathCount(calls, q));
      IncAllContains(ins[b], PathCount(calls, q), calls[b]);
    }
  }

  // ---- Nothing more than what paths do ----

  /** How often a block calls a function. */
  function Times(calls: seq<Call>, name: string): nat {
    if calls == [] then 0 else Times(calls[..|calls| - 1], name) + if calls[|calls| - 1].0 == name then 1 else 0
  }

  lemma {:induction false} CallAllTimes(c: Count, calls: seq<Call>, name: string)
    ensures Of(CallAll(c, calls), name) == Of(c, name) + Times(calls, name)
  {
    if calls != [] {
      CallAllTimes(c, calls[..|calls| - 1], name);
    }
  }

  lemma {:induction false} IncAllTimes(r: Ranges, calls: seq<Call>, name: string, n: nat)
    ensures n in Possible(IncAll(r, calls), name) <==>
      n >= Times(calls, name) && n - Times(calls, name) in Possible(r, name)
  {
    if calls != [] {
      var front, last := calls[..|calls| - 1], calls[|calls| - 1];
      if last.0 != name {
        IncAllTimes(r, front, name, n);
      } else if n > 0 {
        IncAllTimes(r, front, name, n - 1);
      }
    }
  }

  lemma {:induction false} JoinTight(r: Ranges, outs: seq<Ranges>, ps: seq<nat>, name: string, n: nat) returns (p: nat)
    requires JoinsAll(r, outs, ps) && n in Possible(r, name)
    ensures p in ps && p < |outs| && n in Possible(outs[p], name)
    decreases |ps|
  {
    p := ps[|ps| - 1];
    if |ps| > 1 {
      var front := ps[..|ps| - 1];
      var a :| JoinsAll(a, outs, front) && Meets(r, a, outs[p]);
      assert name in r ==> MetAt(r, a, outs[p], name);
      if n !in Possible(outs[p], name) {
        p := JoinTight(a, outs, front, name, n);
      }
    }
  }

  ghost predicate PathTo(preds: seq<seq<nat>>, p: seq<nat>, b: nat) {
    IsPath(preds, p) && p[|p| - 1] == b
  }

  /** Every block but the first has a predecessor, and all come before it. */
  ghost predicate Ordered(preds: seq<seq<nat>>) {
    && (forall b :: 0 < b < |preds| ==> preds[b] != [])
    && forall b, i :: 0 <= b < |preds| && 0 <= i < |preds[b]| ==> preds[b][i] < b
  }

  lemma {:induction false} Witness(preds: seq<seq<nat>>, calls: seq<seq<Call>>, ins: seq<Ranges>, outs: seq<Ranges>,
                                   b: nat, name: string, n: nat)
    returns (p: seq<nat>)
    requires Flow(preds, calls, ins, outs) && Ordered(preds) && b < |preds| && n in Possible(outs[b], name)
    ensures PathTo(preds, p, b) && Of(PathCount(calls, p), name) == n
    decreases b
  {
    IncAllTimes(ins[b], calls[b], name, n);
    var k := n - Times(calls[b], name);
    if b == 0 {
      p := [0];
      assert p[..0] == [];
      CallAllTimes(map[], calls[0], name);
    } else {
      var a := JoinTight(ins[b], outs, preds[b], name, k);
      var q := Witness(preds, calls, ins, outs, a, name, k);
      p := q + [b];
      forall i | 0 <= i < |p| - 1
        ensures Follows(preds, p, i)
      {
        assert i < |q| - 1 ==> Follows(preds, q, i);
      }
      assert p[..|p| - 1] == q;
      CallAllTimes(PathCount(calls, q), calls[b], name);
    }
  }

  /** On a graph without cycles the counts of each function at the end of a block are exactly those
      of the paths to it. */
  lemma {:induction false} CountsExact(preds: seq<seq<nat>>, calls: seq<seq<Call>>, ins: seq<Ranges>,
                                       outs: seq<Ranges>, b: nat, name: string, n: nat)
    requires Flow(preds, calls, ins, outs) && Ordered(preds) && b < |preds|
    ensures n in Possible(outs[b], name) <==> exists p :: PathTo(preds, p, b) && Of(PathCount(calls, p), name) == n
  {
    hide Ordered, PathCount, JoinsAll, IncAll;
    if n in Possible(outs[b], name) {
      var p := Witness(preds, calls, ins, outs, b, name, n);
    }
    if p :| PathTo(preds, p, b) && Of(PathCount(calls, p), name) == n {
      PathCounts(preds, calls, ins, outs, p);
    }
  }
}

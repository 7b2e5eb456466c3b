/** Which memory blocks are alive: one bit per block, read and written with shifts and masks. */
module Liveness {
  import opened Bits
  import opened BitLaws
  import opened Lanes

  // ---- One bit of a vector ----

  /** The bit of a block. `ones` says that the vector is known to have all bits set. */
  function LoadBit(v: Bits, bid: Bits, ones: bool): bool
    requires |v| > 0
  {
    if ones && v == Ones(|v|) then true
    else ShiftRight(v, ToNat(Resize(bid, |v|)), false)[0]
  }

  function Difference(a: Bits, b: Bits): (r: Bits)
    requires |a| == |b|
    ensures |r| == |a|
  {
    Truncate(Mod(ToNat(a) - ToNat(b), Pow2(|a|)), |a|)
  }

  /** All bits but that of a block. */
  function AllBut(bid: Bits): (r: Bits)
    ensures |r| == |bid|
  {
    var w := |bid|;
    var full := Ones(w);
    BitOr(ShiftLeft(full, ToNat(Add(bid, FromNat(1, w)))),
          ShiftRight(full, ToNat(Difference(FromNat(w, w), bid)), false))
  }

  function StoreBit(v: Bits, bid: Bits, alive: bool): (r: Bits)
    ensures |r| == |v|
  {
    var w := |v|;
    var b := Resize(bid, w);
    if alive then BitOr(v, ShiftLeft(FromNat(1, w), ToNat(b))) else BitAnd(v, AllBut(b))
  }

  lemma {:induction false} OneBit(w: nat, k: nat, p: nat)
    requires k < w && p < w
    ensures ShiftLeft(FromNat(1, w), k)[p] == (p == k)
  {
    if p >= k {
      FromOne(w, p - k);
    }
  }

  lemma {:induction false} FromOne(w: nat, p: nat)
    requires p < w
    ensures FromNat(1, w)[p] == (p == 0)
  {
    if p > 0 {
      FromZero(w - 1, p - 1);
    }
  }

  lemma {:induction false} FromZero(w: nat, p: nat)
    requires p < w
    ensures !FromNat(0, w)[p]
  {
    if p > 0 {
      FromZero(w - 1, p - 1);
    }
  }

  lemma {:induction false} MaskBits(bid: Bits, p: nat)
    requires ToNat(bid) < |bid| && p < |bid|
    ensures AllBut(bid)[p] == (p != ToNat(bid))
  {
    hide ToNat, Pow2, FromNat, Mod;
    var w, k := |bid|, ToNat(bid);
    BelowPow2(w);
    ToFromNat(1, w);
    ToFromNat(w, w);
    ModSmall(k + 1, Pow2(w));
    ToNatTruncate(k + 1, w);
    assert ToNat(Add(bid, FromNat(1, w))) == k + 1;
    ModSmall(w - k, Pow2(w));
    ToNatTruncate(w - k, w);
    assert ToNat(Difference(FromNat(w, w), bid)) == w - k;
    ShiftedOnes(w, k, p);
  }

  lemma ShiftedOnes(w: nat, k: nat, p: nat)
    requires k < w && p < w
    ensures ShiftLeft(Ones(w), k + 1)[p] == (p > k) && ShiftRight(Ones(w), w - k, false)[p] == (p < k)
  {
  }

  /** A store is a map update. */
  lemma {:induction false} StoreIsUpdate(v: Bits, bid: Bits, alive: bool)
    requires ToNat(bid) < |v|
    ensures StoreBit(v, bid, alive) == v[ToNat(bid) := alive]
  {
    hide ToNat, FromNat, ShiftLeft, AllBut;
    var w, k := |v|, ToNat(bid);
    BelowPow2(w);
    ResizeValue(bid, w);
    var r := StoreBit(v, bid, alive);
    forall p | 0 <= p < w
      ensures r[p] == v[k := alive][p]
    {
      OneBit(w, k, p);
      MaskBits(Resize(bid, w), p);
    }
  }

  /** The block that an id stands for once it is cut to the width of the vector. */
  lemma {:induction false} ResizedId(bid: Bits, w: nat)
    ensures ToNat(Resize(bid, w)) == Mod(ToNat(bid), Pow2(w))
    ensures ToNat(bid) < w ==> ToNat(Resize(bid, w)) == ToNat(bid)
  {
    hide ToNat, Pow2, Mod;
    var r := Resize(bid, w);
    BelowPow2(w);
    ModSmall(ToNat(r), Pow2(w));
    if |bid| < w {
      ToNatConcat(bid, Zeros(w - |bid|));
      ToNatFill(w - |bid|);
      assert Pow2(|bid|) * 0 == 0;
    } else {
      assert bid == r + bid[w..];
      ToNatConcat(r, bid[w..]);
      ModShift(ToNat(r), Pow2(w), ToNat(bid[w..]));
    }
    if ToNat(bid) < w {
      ModSmall(ToNat(bid), Pow2(w));
    }
  }

  /** A load is a lookup of the block the id stands for; where there is none it gives dead, except
      that a vector of ones known as such gives alive.  So the answer depends on what is known
      just for an id that stands for no block in a vector of ones. */
  lemma {:induction false} LoadIsLookup(v: Bits, bid: Bits)
    requires |v| > 0
    ensures var k := Mod(ToNat(bid), Pow2(|v|));
      && (ToNat(bid) < |v| ==> k == ToNat(bid))
      && (forall ones :: LoadBit(v, bid, ones) == if k < |v| then v[k] else ones && v == Ones(|v|))
      && (LoadBit(v, bid, true) == LoadBit(v, bid, false) <==> v != Ones(|v|) || k < |v|)
  {
    hide ToNat, Mod, Pow2;
    ResizedId(bid, |v|);
  }

  // ---- Frees and calls ----

  datatype Pointer = Pointer(local: bool, bid: Bits)

  /** A pointer argument of a call, with the id of its block. */
  datatype Argument = Argument(byval: bool, nonPoison: bool, bid: nat)

  datatype Arguments = Anything | Only(args: seq<Argument>)

  /** What a call may touch, and the bits its result is masked with. */
  datatype Call = Call(reach: Arguments, liveness: Bits, known: bool)

  /** The blocks that are not local: whether block 0 is null, which are on the heap, which
      stands for the memory of calls, and how many exist so far. */
  datatype NonLocals = NonLocals(hasNull: bool, heap: seq<bool>, callMemory: int, next: nat)

  /** Whether a call may free a block. */
  predicate MayFree(n: NonLocals, c: Call, b: nat)
    requires b < |n.heap|
  {
    && !(n.hasNull && b == 0) && n.heap[b] && b != n.callMemory
    && (c.reach.Anything? || exists i :: 0 <= i < |c.reach.args| && Reaches(n, c.reach.args[i], b))
  }

  predicate Reaches(n: NonLocals, a: Argument, b: nat) {
    !a.byval && b < n.next && a.nonPoison && a.bid == b
  }

  class Blocks {
    const n: NonLocals
    var local: Bits
    var nonLocal: Bits

    ghost predicate Valid()
      reads this
    {
      |nonLocal| == |n.heap|
    }

    constructor (n: NonLocals, local: Bits, nonLocal: Bits)
      requires |nonLocal| == |n.heap|
      ensures Valid() && this.n == n && this.local == local && this.nonLocal == nonLocal
    {
      this.n := n;
      this.local := local;
      this.nonLocal := nonLocal;
    }

    /** Sets the bit of a block if `cond` holds. */
    method Store(p: Pointer, alive: bool, assumeLocal: bool, cond: bool)
      requires Valid()
      requires cond ==> ToNat(p.bid) < if p.local || assumeLocal then |local| else |nonLocal|
      modifies this
      ensures Valid()
      ensures local == if cond && (p.local || assumeLocal) then old(local)[ToNat(p.bid) := alive] else old(local)
      ensures nonLocal ==
        if cond && !(p.local || assumeLocal) then old(nonLocal)[ToNat(p.bid) := alive] else old(nonLocal)
    {
      hide ToNat, StoreBit;
      var isLocal := p.local || assumeLocal;
      if cond && isLocal {
        StoreIsUpdate(local, p.bid, alive);
        local := StoreBit(local, p.bid, alive);
      }
      if cond && !isLocal {
        StoreIsUpdate(nonLocal, p.bid, alive);
        nonLocal := StoreBit(nonLocal, p.bid, alive);
      }
    }

    method Free(p: Pointer, isNull: bool)
      requires Valid()
      requires !isNull ==> ToNat(p.bid) < if p.local then |local| else |nonLocal|
      modifies this
      ensures Valid()
      ensures nonLocal == if isNull || p.local then old(nonLocal) else old(nonLocal)[ToNat(p.bid) := false]
      ensures local == if isNull || !p.local then old(local) else old(local)[ToNat(p.bid) := false]
    {
      if !isNull {
        Store(p, false, false, true);
      }
    }

    /** The state after a call: it can free blocks but not bring them back. */
    method SetState(c: Call)
      requires Valid() && |c.liveness| == |nonLocal|
      modifies this`nonLocal
      ensures Valid()
      ensures forall b :: 0 <= b < |nonLocal| ==>
        (nonLocal[b] <==> old(nonLocal)[b] && (c.liveness[b] || !MayFree(n, c, b)))
      ensures forall b :: 0 <= b < |nonLocal| && n.heap[b] && b != n.callMemory && !(n.hasNull && b == 0) ==>
        c.reach.Anything? || (exists a :: a in c.reach.args && !a.byval && a.nonPoison && a.bid == b < n.next) ==>
          (nonLocal[b] <==> old(nonLocal)[b] && c.liveness[b])
      ensures forall b :: 0 <= b < |nonLocal| && (!n.heap[b] || b == n.callMemory || (n.hasNull && b == 0)) ==>
        nonLocal[b] == old(nonLocal)[b]
      ensures forall b :: 0 <= b < |nonLocal| && c.reach.Only? ==>
        (forall a :: a in c.reach.args ==> a.byval || !a.nonPoison || a.bid != b || b >= n.next) ==>
          nonLocal[b] == old(nonLocal)[b]
    {
      FreeableExactly(n, c);
      hide MayFree, ShiftLeft, FromNat;
      var w := |nonLocal|;
      if c.known && c.liveness == Ones(w) {
        return;
      }
      var mask := Zeros(w);
      if n.hasNull && w > 0 {
        mask := FromNat(1, w);
        forall p | 0 <= p < w
          ensures mask[p] == (p < 1 && !MayFree(n, c, p))
        {
          FromOne(w, p);
          NullIsSafe(n, c, p);
        }
      }
      var bid := if n.hasNull && w > 0 then 1 else 0;
      while bid < w
        invariant 0 <= bid <= w && |mask| == w && nonLocal == old(nonLocal)
        invariant forall p :: 0 <= p < w ==> mask[p] == (p < bid && !MayFree(n, c, p))
      {
        var mayFree := MayFreeBlock(c, bid);
        ghost var before := mask;
        mask := BitOr(mask, if mayFree then Zeros(w) else ShiftLeft(FromNat(1, w), bid));
        forall p | 0 <= p < w
          ensures mask[p] == (p < bid + 1 && !MayFree(n, c, p))
        {
          OneBit(w, bid, p);
        }
        bid := bid + 1;
      }
      nonLocal := BitAnd(nonLocal, BitOr(c.liveness, mask));
    }

    method MayFreeBlock(c: Call, bid: nat) returns (r: bool)
      requires bid < |n.heap| && !(n.hasNull && bid == 0)
      ensures r == MayFree(n, c, bid)
    {
      var mayFree := true;
      if c.reach.Only? {
        mayFree := false;
        var i := 0;
        while i < |c.reach.args|
          invariant 0 <= i <= |c.reach.args|
          invariant mayFree <==> exists j :: 0 <= j < i && Reaches(n, c.reach.args[j], bid)
        {
          var a := c.reach.args[i];
          if !a.byval && bid < n.next {
            mayFree := mayFree || (a.nonPoison && a.bid == bid);
          }
          i := i + 1;
        }
      }
      r := n.heap[bid] && mayFree && bid != n.callMemory;
    }
  }

  /** Just the heap blocks can be freed that are neither null nor the memory of calls, and that the
      call reaches: if it may touch anything, or by an argument that is a pointer to the block. */
  lemma {:induction false} FreeableExactly(n: NonLocals, c: Call)
    ensures forall b: nat ::
      b < |n.heap| && MayFree(n, c, b) ==> n.heap[b] && b != n.callMemory && !(n.hasNull && b == 0)
    ensures c.reach.Anything? ==>
      forall b: nat :: b < |n.heap| && n.heap[b] && b != n.callMemory && !(n.hasNull && b == 0) ==> MayFree(n, c, b)
    ensures c.reach.Only? ==>
      forall b: nat :: b < |n.heap| && n.heap[b] && b != n.callMemory && !(n.hasNull && b == 0) ==>
        (MayFree(n, c, b) <==> exists a :: a in c.reach.args && !a.byval && a.nonPoison && a.bid == b < n.next)
  {
    forall b: nat | c.reach.Only? && b < |n.heap| && n.heap[b] && b != n.callMemory && !(n.hasNull && b == 0)
      ensures MayFree(n, c, b) <==> exists a :: a in c.reach.args && !a.byval && a.nonPoison && a.bid == b < n.next
    {
      if a :| a in c.reach.args && !a.byval && a.nonPoison && a.bid == b < n.next {
        var i :| 0 <= i < |c.reach.args| && c.reach.args[i] == a;
        assert Reaches(n, c.reach.args[i], b);
      }
    }
  }

  lemma NullIsSafe(n: NonLocals, c: Call, b: nat)
    requires b < |n.heap| && n.hasNull
    ensures b == 0 ==> !MayFree(n, c, b)
  {
  }

  // ---- Runs ----

  datatype Step = FreeStep(p: Pointer, isNull: bool) | CallStep(c: Call)

  predicate Fits(n: NonLocals, s: Step) {
    match s
    case FreeStep(p, isNull) => !isNull && !p.local ==> ToNat(p.bid) < |n.heap|
    case CallStep(c) => |c.liveness| == |n.heap|
  }

  /** Whether a step ends the life of block `b`. */
  predicate Kills(n: NonLocals, s: Step, b: nat)
    requires Fits(n, s) && b < |n.heap|
  {
    match s
    case FreeStep(p, isNull) => !isNull && !p.local && ToNat(p.bid) == b
    case CallStep(c) => !c.liveness[b] && MayFree(n, c, b)
  }

  /** A call spares what is not on the heap, what its arguments do not reach, and the block
      that stands for the memory of calls. */
  predicate Spares(n: NonLocals, s: Step, b: nat)
    requires b < |n.heap|
  {
    match s
    case FreeStep(p, isNull) => isNull || p.local || ToNat(p.bid) != b
    case CallStep(c) =>
      || !n.heap[b] || b == n.callMemory
      || (c.reach.Only? && forall i :: 0 <= i < |c.reach.args| ==> !Reaches(n, c.reach.args[i], b))
  }

  predicate FreesLocal(s: Step, b: nat) {
    s.FreeStep? && !s.isNull && s.p.local && ToNat(s.p.bid) == b
  }

  lemma {:induction false} SparesKillsNot(n: NonLocals, s: Step, b: nat)
    requires Fits(n, s) && b < |n.heap| && Spares(n, s, b)
    ensures !Kills(n, s, b)
  {
  }

  /** After any run of frees and calls a block is alive iff it was and no step ended its life:
      the dead do not come back, and what every step must spare is as it was. */
  method Run(m: Blocks, steps: seq<Step>)
    requires m.Valid() && forall i :: 0 <= i < |steps| ==> Fits(m.n, steps[i])
    requires forall i :: 0 <= i < |steps| && steps[i].FreeStep? && !steps[i].isNull && steps[i].p.local ==>
      ToNat(steps[i].p.bid) < |m.local|
    modifies m
    ensures m.Valid()
    ensures forall b :: 0 <= b < |m.nonLocal| ==>
      (m.nonLocal[b] <==> old(m.nonLocal)[b] && forall i :: 0 <= i < |steps| ==> !Kills(m.n, steps[i], b))
    ensures forall b :: 0 <= b < |m.nonLocal| && (forall i :: 0 <= i < |steps| ==> Spares(m.n, steps[i], b)) ==>
      m.nonLocal[b] == old(m.nonLocal)[b]
    ensures |m.local| == |old(m.local)| && forall b :: 0 <= b < |m.local| ==>
      (m.local[b] <==> old(m.local)[b] && forall i :: 0 <= i < |steps| ==> !FreesLocal(steps[i], b))
    ensures forall i :: 0 <= i < |steps| && Fits(m.n, steps[i]) ==>
      steps[i].FreeStep? && !steps[i].isNull && !steps[i].p.local ==> !m.nonLocal[ToNat(steps[i].p.bid)]
    ensures forall i, b :: 0 <= i < |steps| && Fits(m.n, steps[i]) && steps[i].CallStep? && 0 <= b < |m.nonLocal| ==>
      !steps[i].c.liveness[b] && m.n.heap[b] && b != m.n.callMemory && !(m.n.hasNull && b == 0) ==>
      (var c := steps[i].c;
       c.reach.Anything? || exists a :: a in c.reach.args && !a.byval && a.nonPoison && a.bid == b < m.n.next) ==>
        !m.nonLocal[b]
  {
    hide MayFree, ToNat;
    var i := 0;
    while i < |steps|
      invariant 0 <= i <= |steps| && m.Valid() && |m.local| == |old(m.local)|
      invariant forall b :: 0 <= b < |m.nonLocal| ==>
        (m.nonLocal[b] <==> old(m.nonLocal)[b] && forall j :: 0 <= j < i ==> !Kills(m.n, steps[j], b))
      invariant forall b :: 0 <= b < |m.local| ==>
        (m.local[b] <==> old(m.local)[b] && forall j :: 0 <= j < i ==> !FreesLocal(steps[j], b))
    {
      ghost var live := m.local;
      ghost var before := m.nonLocal;
      match steps[i] {
        case FreeStep(p, isNull) => m.Free(p, isNull);
        case CallStep(c) => m.SetState(c);
      }
      assert forall b :: 0 <= b < |m.nonLocal| ==> (m.nonLocal[b] <==> before[b] && !Kills(m.n, steps[i], b));
      assert forall b :: 0 <= b < |m.local| ==> (m.local[b] <==> live[b] && !FreesLocal(steps[i], b));
      i := i + 1;
    }
    forall b | 0 <= b < |m.nonLocal| && forall j :: 0 <= j < |steps| ==> Spares(m.n, steps[j], b)
      ensures m.nonLocal[b] == old(m.nonLocal)[b]
    {
      forall j | 0 <= j < |steps|
        ensures !Kills(m.n, steps[j], b)
      {
        SparesKillsNot(m.n, steps[j], b);
      }
    }
    forall j | 0 <= j < |steps| && steps[j].FreeStep? && !steps[j].isNull && !steps[j].p.local
      ensures !m.nonLocal[ToNat(steps[j].p.bid)]
    {
      assert Fits(m.n, steps[j]) && Kills(m.n, steps[j], ToNat(steps[j].p.bid));
    }
    forall j, b: nat | 0 <= j < |steps| && steps[j].CallStep? && b < |m.nonLocal| && !steps[j].c.liveness[b]
      ensures MayFree(m.n, steps[j].c, b) ==> !m.nonLocal[b]
    {
      assert Kills(m.n, steps[j], b) == MayFree(m.n, steps[j].c, b);
    }
    forall j, b: nat | 0 <= j < |steps| && steps[j].CallStep? && b < |m.nonLocal| && !steps[j].c.liveness[b]
      ensures m.n.heap[b] && b != m.n.callMemory && !(m.n.hasNull && b == 0) ==>
        (var c := steps[j].c;
         c.reach.Anything? || exists a :: a in c.reach.args && !a.byval && a.nonPoison && a.bid == b < m.n.next) ==>
          !m.nonLocal[b]
    {
      FreeableExactly(m.n, steps[j].c);
    }
  }
}

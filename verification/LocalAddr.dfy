/** Addresses of local blocks: what is assumed when a block is granted or comes to life, and
    that blocks alive at the same time then never overlap. */
module LocalAddr {
  import opened Bits
  import opened BitLaws
  import opened Lanes

  /** A block: where it starts within the local half, its size, the logarithm of its
      alignment, and whether the allocation was granted. */
  datatype Block = Block(base: nat, size: nat, align: nat, granted: bool)

  /** Addresses have `bits` bits. The highest is set for local blocks if there are others. */
  datatype Space = Space(bits: nat, localBit: bool) {
    function Half(): (r: nat)
      requires bits > 0
      ensures 0 < r <= Pow2(bits)
    {
      Pow2Monotone(if localBit then bits - 1 else bits, bits);
      Pow2(if localBit then bits - 1 else bits)
    }

    /** The bits of a block's address above those that its alignment fixes. */
    function FreeBits(align: nat): nat
      requires align + (if localBit then 1 else 0) <= bits
    {
      bits - align - if localBit then 1 else 0
    }

    function Address(b: Block): nat
      requires bits > 0
    {
      b.base + if localBit then Half() else 0
    }
  }

  predicate Fits(s: Space, b: Block) {
    s.bits > 0 && b.base < s.Half() && Pow2(b.align) <= s.Half()
  }

  /** The size of a block, cut to the bits of an address. */
  function Length(s: Space, b: Block): (r: nat) {
    Mod(b.size, Pow2(s.bits))
  }

  // ---- Two blocks ----

  /** The test for two blocks being apart. `known` says that the sizes are constants and that
      the alignments are the same term. */
  predicate Disjoint(s: Space, a: Block, b: Block, known: bool)
    requires s.bits > 0
  {
    var m := Pow2(s.bits);
    var n, k := Length(s, a), Length(s, b);
    if known && a.align == b.align && Pow2(a.align) >= n && Pow2(b.align) >= k then s.Address(a) != s.Address(b)
    else s.Address(a) >= Mod(s.Address(b) + k, m) || s.Address(b) >= Mod(s.Address(a) + n, m)
  }

  /** The test comes out right whatever is known. */
  predicate SurelyDisjoint(s: Space, a: Block, b: Block)
    requires s.bits > 0
  {
    Disjoint(s, a, b, true) && Disjoint(s, a, b, false)
  }

  predicate Within(s: Space, b: Block)
    requires s.bits > 0
  {
    b.base + b.size < s.Half()
  }

  predicate Aligned(b: Block) {
    Mod(b.base, Pow2(b.align)) == 0
  }

  predicate Apart(s: Space, a: Block, b: Block)
    requires s.bits > 0
  {
    s.Address(a) + a.size <= s.Address(b) || s.Address(b) + b.size <= s.Address(a)
  }

  lemma HalfTwice(s: Space)
    requires s.bits > 0 && s.localBit
    ensures Pow2(s.bits) == 2 * s.Half()
  {
  }

  lemma NoWrap(s: Space, b: Block)
    requires s.bits > 0 && Within(s, b)
    ensures s.Address(b) + b.size < Pow2(s.bits)
    ensures Length(s, b) == b.size && Mod(s.Address(b) + b.size, Pow2(s.bits)) == s.Address(b) + b.size
  {
    if s.localBit {
      HalfTwice(s);
    }
    hide Pow2, Mod;
    ModSmall(s.Address(b) + b.size, Pow2(s.bits));
    ModSmall(b.size, Pow2(s.bits));
  }

  /** Local blocks are in the upper half of the addresses if there are others, and a multiple of the
      alignment stays one there. */
  lemma {:induction false} AddressPlace(s: Space, b: Block)
    requires Fits(s, b) && Aligned(b)
    ensures Mod(s.Address(b), Pow2(b.align)) == 0 && s.Address(b) < Pow2(s.bits)
    ensures s.localBit <==> s.Half() < Pow2(s.bits)
    ensures if s.localBit then s.Address(b) == b.base + Pow2(s.bits - 1) else s.Address(b) == b.base
  {
    if s.localBit {
      HalfTwice(s);
      PowersDivide(b.align, s.bits - 1);
      hide Pow2, Mod;
      var d, h := Pow2(b.align), s.Half();
      MultiplesAdd(b.base, h, d);
    }
  }

  lemma {:induction false} PowersDivide(a: nat, b: nat)
    requires Pow2(a) <= Pow2(b)
    ensures Mod(Pow2(b), Pow2(a)) == 0
  {
    if a > b {
      Pow2Monotone(b + 1, a);
    }
    Pow2Add(b - a, a);
    hide Pow2;
    BlockAligned(Pow2(b - a), Pow2(a));
  }

  lemma MultiplesAdd(x: nat, y: nat, d: nat)
    requires d > 0 && Mod(x, d) == 0 && Mod(y, d) == 0
    ensures Mod(x + y, d) == 0
  {
    var p, q := x / d, y / d;
    assert x == d * p && y == d * q && d * (p + q) == d * p + d * q;
    DivModUnique(x + y, d, p + q, 0);
  }

  /** Different multiples of a number are at least that number apart. */
  lemma MultiplesApart(x: nat, y: nat, d: nat)
    requires d > 0 && Mod(x, d) == 0 && Mod(y, d) == 0 && x < y
    ensures x + d <= y
  {
    var p, q := x / d, y / d;
    assert x == d * p && y == d * q;
    if q <= p {
      MulMonotone(d, q, p);
    } else {
      MulMonotone(d, p + 1, q);
      assert d * (p + 1) == d * p + d;
    }
  }

  /** For blocks that do not leave the local half the test is exact: different addresses are
      all that equally aligned blocks no larger than their alignment need. */
  lemma DisjointExact(s: Space, a: Block, b: Block, known: bool)
    requires s.bits > 0 && Within(s, a) && Within(s, b) && Aligned(a) && Aligned(b)
    ensures Disjoint(s, a, b, known) ==> Apart(s, a, b)
    ensures Apart(s, a, b) && a.size > 0 && b.size > 0 ==> Disjoint(s, a, b, known)
    ensures if known && a.align == b.align && a.size <= Pow2(a.align) && b.size <= Pow2(b.align)
      then Disjoint(s, a, b, known) <==> a.base != b.base
      else Disjoint(s, a, b, known) <==> Apart(s, a, b)
  {
    NoWrap(s, a);
    NoWrap(s, b);
    hide Mod;
    if known && a.align == b.align && a.base != b.base {
      if a.base < b.base {
        MultiplesApart(a.base, b.base, Pow2(a.align));
      } else {
        MultiplesApart(b.base, a.base, Pow2(a.align));
      }
    }
  }

  // ---- The local blocks ----

  ghost predicate AllPlaced(s: Space, blocks: map<nat, Block>) {
    forall b :: b in blocks ==> Fits(s, blocks[b]) && Aligned(blocks[b])
  }

  ghost predicate GrantedWithin(s: Space, blocks: map<nat, Block>)
    requires s.bits > 0
  {
    forall b :: b in blocks && blocks[b].granted && blocks[b].size < s.Half() ==> Within(s, blocks[b])
  }

  ghost predicate Separated(s: Space, blocks: map<nat, Block>, alive: set<nat>)
    requires s.bits > 0 && alive <= blocks.Keys
  {
    && (forall b :: b in alive ==> Within(s, blocks[b]))
    && (forall a, b :: a in alive && b in alive && a != b ==> Apart(s, blocks[a], blocks[b]))
  }

  /** A block that passed the test against all live ones may join them. */
  lemma Joins(s: Space, blocks: map<nat, Block>, alive: set<nat>, bid: nat, x: Block)
    requires s.bits > 0 && alive <= blocks.Keys && AllPlaced(s, blocks) && Separated(s, blocks, alive)
    requires Within(s, x) && Aligned(x) && (bid in blocks ==> blocks[bid] == x) && PassesTest(s, blocks, alive, x)
    ensures Separated(s, blocks[bid := x], alive + {bid})
  {
    hide Disjoint, Within, Aligned, Apart, Fits;
    forall b | b in alive
      ensures Apart(s, x, blocks[b]) && Apart(s, blocks[b], x)
    {
      DisjointExact(s, x, blocks[b], true);
      DisjointExact(s, x, blocks[b], false);
      ApartBothWays(s, x, blocks[b]);
    }
  }

  lemma ApartBothWays(s: Space, a: Block, b: Block)
    requires s.bits > 0
    ensures Apart(s, a, b) == Apart(s, b, a)
  {
  }

  ghost predicate PassesTest(s: Space, blocks: map<nat, Block>, alive: set<nat>, x: Block)
    requires s.bits > 0 && alive <= blocks.Keys
  {
    forall b :: b in alive ==> Disjoint(s, x, blocks[b], true) || Disjoint(s, x, blocks[b], false)
  }

  /** A block whose allocation was granted, with a size that the address space has room for. */
  predicate Started(s: Space, b: Block)
    requires s.bits > 0
  {
    b.granted && b.size < s.Half()
  }

  /** The place leaves room for the block. A block no larger than the logarithm of its alignment
      must not be at the last multiple of the alignment. */
  predicate Roomy(s: Space, b: Block)
    requires s.bits > 0
  {
    b.base + (if b.size <= b.align then Pow2(b.align) else Mod(b.size, s.Half())) < s.Half()
  }

  ghost predicate ClearOf(s: Space, blocks: map<nat, Block>, alive: set<nat>, x: Block)
    requires s.bits > 0 && alive <= blocks.Keys
  {
    forall b :: b in alive ==> SurelyDisjoint(s, x, blocks[b])
  }

  ghost predicate ApartFrom(s: Space, blocks: map<nat, Block>, alive: set<nat>, x: Block)
    requires s.bits > 0 && alive <= blocks.Keys
  {
    forall b :: b in alive ==> blocks[b].size > 0 && Apart(s, x, blocks[b])
  }

  /** Nonempty blocks that do not overlap pass the test. */
  lemma ApartIsClear(s: Space, blocks: map<nat, Block>, alive: set<nat>, x: Block)
    requires s.bits > 0 && alive <= blocks.Keys && AllPlaced(s, blocks) && Separated(s, blocks, alive)
    requires Within(s, x) && Aligned(x) && x.size > 0 && ApartFrom(s, blocks, alive, x)
    ensures ClearOf(s, blocks, alive, x)
  {
    hide Disjoint, Within, Aligned, Apart, Fits;
    forall b | b in alive
      ensures SurelyDisjoint(s, x, blocks[b])
    {
      DisjointExact(s, x, blocks[b], true);
      DisjointExact(s, x, blocks[b], false);
    }
  }

  class LocalMemory {
    const s: Space
    var blocks: map<nat, Block>
    var alive: set<nat>
    /** What has been assumed so far. */
    var pre: bool

    ghost predicate Valid()
      reads this
    {
      && s.bits > 0 && alive <= blocks.Keys
      && AllPlaced(s, blocks) && (pre ==> GrantedWithin(s, blocks))
    }

    /** Live blocks lie within the address space and do not overlap. */
    ghost predicate Separate()
      requires s.bits > 0 && alive <= blocks.Keys
      reads this
    {
      Separated(s, blocks, alive)
    }

    constructor (s: Space)
      requires s.bits > 0
      ensures Valid() && Separate() && this.s == s && blocks == map[] && alive == {} && pre
    {
      this.s := s;
      blocks := map[];
      alive := {};
      pre := true;
    }

    /** Whether a block is apart from every live one, itself included if it is alive. */
    method DisjointLocals(x: Block) returns (r: bool)
      requires Valid()
      ensures r ==> PassesTest(s, blocks, alive, x)
      ensures !r ==> !ClearOf(s, blocks, alive, x)
    {
      hide Disjoint;
      r := true;
      var rest := blocks.Keys;
      while rest != {}
        invariant rest <= blocks.Keys
        invariant r ==> forall b ::
          b in alive && b !in rest ==> Disjoint(s, x, blocks[b], true) || Disjoint(s, x, blocks[b], false)
        invariant !r ==> exists b :: b in alive && !SurelyDisjoint(s, x, blocks[b])
        decreases rest
      {
        var b :| b in rest;
        var known := *;
        if b in alive && !Disjoint(s, x, blocks[b], known) {
          r := false;
        }
        rest := rest - {b};
      }
    }

    /** A new block; `high` is an arbitrary value for the bits of its address that its
        alignment leaves open. */
    method Alloc(bid: nat, size: nat, align: nat, granted: bool, high: nat)
      requires Valid() && bid !in blocks
      requires align + (if s.localBit then 1 else 0) <= s.bits && high < Pow2(s.FreeBits(align))
      modifies this
      ensures Valid() && blocks == old(blocks)[bid := Block(high * Pow2(align), size, align, granted)]
      ensures alive == if granted then old(alive) + {bid} else old(alive)
      ensures pre ==> old(pre)
      ensures pre && old(Separate()) && (granted ==> size < s.Half()) ==> Separate()
      ensures old(pre) && !granted ==> pre
      ensures old(pre) && Roomy(s, blocks[bid]) && ClearOf(s, old(blocks), old(alive), blocks[bid]) ==> pre
    {
      hide Disjoint, Apart, Pow2, Aligned, Mod, Roomy, ClearOf, PassesTest, Within, Separated, AllPlaced, GrantedWithin;
      var b := Block(high * Pow2(align), size, align, granted);
      BlockPlaced(s, align, high, b);
      var noOverflow := StaysWithin(s, high, b);
      var apart := DisjointLocals(b);
      pre := pre && (granted ==> noOverflow) && (granted ==> apart);
      if pre && granted && size < s.Half() && old(Separate()) {
        Joins(s, blocks, alive, bid, b);
      }
      AddPlaced(s, blocks, bid, b);
      OtherBlock(s, blocks, alive, bid, b);
      blocks := blocks[bid := b];
      if granted {
        alive := alive + {bid};
      }
    }

    method Free(bid: nat)
      requires Valid() && bid in blocks
      modifies this
      ensures Valid() && blocks == old(blocks) && alive == old(alive) - {bid} && pre == old(pre)
      ensures old(Separate()) ==> Separate()
    {
      alive := alive - {bid};
    }

    /** A block comes to life. Callers start only blocks whose allocation was granted: the others
        were never asked to stay within the address space. */
    method StartLifetime(bid: nat)
      requires Valid() && bid in blocks
      modifies this
      ensures Valid() && blocks == old(blocks) && alive == old(alive) + {bid}
      ensures pre ==> old(pre)
      ensures pre && old(Separate()) ==> (Separate() <==> Within(s, blocks[bid]))
      ensures pre && Started(s, blocks[bid]) && old(Separate()) ==> Separate()
      ensures old(pre) && ClearOf(s, old(blocks), old(alive), blocks[bid]) ==> pre
      ensures pre && bid in old(alive) && Started(s, blocks[bid]) ==> blocks[bid].size == 0
    {
      hide Disjoint, Apart;
      var apart := DisjointLocals(blocks[bid]);
      pre := pre && apart;
      if pre && Within(s, blocks[bid]) {
        if old(Separate()) {
          Joins(s, blocks, alive, bid, blocks[bid]);
          assert blocks[bid := blocks[bid]] == blocks;
        }
        if bid in alive {
          AgainstItself(s, blocks[bid]);
        }
      }
      alive := alive + {bid};
    }
  }

  /** Whether the end of the block does not wrap around; `known` says that the sizes compare as
      constants. */
  method StaysWithin(s: Space, high: nat, b: Block) returns (r: bool)
    requires s.bits > 0 && b.align + (if s.localBit then 1 else 0) <= s.bits && high < Pow2(s.FreeBits(b.align))
    requires b.base == high * Pow2(b.align)
    ensures r && b.size < s.Half() ==> Within(s, b)
    ensures Roomy(s, b) ==> r
  {
    hide Pow2, Mod, Roomy;
    RoomFor(s, b.align, high, b);
    if b.size < s.Half() {
      ModSmall(b.size, s.Half());
    }
    var known := *;
    if known && b.size <= b.align {
      r := high != Pow2(s.FreeBits(b.align)) - 1;
      if r {
        HighBits(s, b.align, high + 1);
        LastExcluded(high, b.align, b.size, s.Half());
      }
    } else {
      r := b.base + Mod(b.size, s.Half()) < s.Half();
    }
  }

  lemma AddPlaced(s: Space, blocks: map<nat, Block>, bid: nat, b: Block)
    requires s.bits > 0 && AllPlaced(s, blocks) && Fits(s, b) && Aligned(b)
    ensures AllPlaced(s, blocks[bid := b])
    ensures GrantedWithin(s, blocks) && (b.granted && b.size < s.Half() ==> Within(s, b)) ==>
      GrantedWithin(s, blocks[bid := b])
  {
  }

  /** A block that is not alive does not matter. */
  lemma OtherBlock(s: Space, blocks: map<nat, Block>, alive: set<nat>, bid: nat, b: Block)
    requires s.bits > 0 && alive <= blocks.Keys && bid !in alive
    ensures Separated(s, blocks[bid := b], alive) == Separated(s, blocks, alive)
  {
    hide Apart, Within;
  }

  lemma HighBits(s: Space, align: nat, high: nat)
    requires s.bits > 0 && align + (if s.localBit then 1 else 0) <= s.bits && high < Pow2(s.FreeBits(align))
    ensures high * Pow2(align) + Pow2(align) <= s.Half()
  {
    var f := s.FreeBits(align);
    Pow2Add(f, align);
    hide Pow2;
    MulMonotone(Pow2(align), high + 1, Pow2(f));
    assert Pow2(align) * (high + 1) == high * Pow2(align) + Pow2(align);
    assert Pow2(align) * Pow2(f) == Pow2(f) * Pow2(align);
  }

  /** The last multiple of the alignment is the one without room after it. */
  lemma RoomFor(s: Space, align: nat, high: nat, b: Block)
    requires s.bits > 0 && align + (if s.localBit then 1 else 0) <= s.bits && high < Pow2(s.FreeBits(align))
    requires b.base == high * Pow2(align) && b.align == align
    ensures b.size <= align && Roomy(s, b) ==> high != Pow2(s.FreeBits(align)) - 1
    ensures Roomy(s, b) ==> b.base + Mod(b.size, s.Half()) < s.Half()
  {
    hide Pow2, Mod;
    BelowPow2(align);
    ModBelow(b.size, s.Half());
    HalfIs(s, align);
    LastMultiple(high, Pow2(s.FreeBits(align)), Pow2(align));
  }

  lemma HalfIs(s: Space, align: nat)
    requires s.bits > 0 && align + (if s.localBit then 1 else 0) <= s.bits
    ensures s.Half() == Pow2(s.FreeBits(align)) * Pow2(align)
  {
    Pow2Add(s.FreeBits(align), align);
  }

  lemma LastMultiple(high: nat, p: nat, d: nat)
    ensures high + 1 == p ==> high * d + d == p * d
  {
    assert (high + 1) * d == high * d + d;
  }

  lemma ModBelow(n: nat, p: nat)
    requires p > 0
    ensures Mod(n, p) <= n
  {
  }

  lemma BlockPlaced(s: Space, align: nat, high: nat, b: Block)
    requires s.bits > 0 && align + (if s.localBit then 1 else 0) <= s.bits && high < Pow2(s.FreeBits(align))
    requires b.base == high * Pow2(align) && b.align == align
    ensures Aligned(b) && Fits(s, b)
  {
    BlockAligned(high, Pow2(align));
    HighBits(s, align, high);
  }

  lemma BlockAligned(high: nat, d: nat)
    requires d > 0
    ensures Mod(high * d, d) == 0
  {
    DivModUnique(high * d, d, high, 0);
  }

  /** For a block no larger than the logarithm of its alignment, only the last multiple of the
      alignment would leave the address space. */
  lemma LastExcluded(high: nat, align: nat, size: nat, half: nat)
    requires size <= align && (high + 1) * Pow2(align) + Pow2(align) <= half
    ensures high * Pow2(align) + size < half
  {
    BelowPow2(align);
    hide Pow2;
    assert (high + 1) * Pow2(align) == high * Pow2(align) + Pow2(align);
  }

  lemma AgainstItself(s: Space, b: Block)
    requires s.bits > 0 && Within(s, b)
    ensures Disjoint(s, b, b, true) || Disjoint(s, b, b, false) ==> b.size == 0
  {
    NoWrap(s, b);
  }

  // ---- Runs ----

  datatype Step =
    | AllocStep(bid: nat, size: nat, align: nat, granted: bool, high: nat)
    | FreeStep(bid: nat)
    | StartStep(bid: nat)

  /** Every block is allocated once, before it is used, at a possible place. */
  predicate Runs(s: Space, steps: seq<Step>, blocks: set<nat>)
    requires s.bits > 0
  {
    if steps == [] then true
    else
      match steps[0]
      case AllocStep(bid, _, align, _, high) =>
        && bid !in blocks && align + (if s.localBit then 1 else 0) <= s.bits && high < Pow2(s.FreeBits(align))
        && Runs(s, steps[1..], blocks + {bid})
      case FreeStep(bid) => bid in blocks && Runs(s, steps[1..], blocks)
      case StartStep(bid) => bid in blocks && Runs(s, steps[1..], blocks)
  }

  /** Sizes have room, and only blocks are started whose allocation is granted somewhere. */
  predicate Proper(s: Space, steps: seq<Step>)
    requires s.bits > 0
  {
    forall i :: 0 <= i < |steps| ==>
      && (steps[i].AllocStep? ==> steps[i].size < s.Half())
      && (steps[i].StartStep? ==> forall j ::
        0 <= j < |steps| && steps[j].AllocStep? && steps[j].bid == steps[i].bid ==> steps[j].granted)
  }

  /** The blocks and which of them are alive. */
  datatype Moment = Moment(blocks: map<nat, Block>, alive: set<nat>)

  ghost predicate SeparateAt(s: Space, t: Moment)
    requires s.bits > 0
  {
    t.alive <= t.blocks.Keys && Separated(s, t.blocks, t.alive)
  }

  ghost predicate AllSeparate(s: Space, moments: seq<Moment>)
    requires s.bits > 0
  {
    forall i :: 0 <= i < |moments| ==> SeparateAt(s, moments[i])
  }

  /** The blocks are those that the steps allocated. */
  ghost predicate FromSteps(blocks: map<nat, Block>, steps: seq<Step>) {
    forall b :: b in blocks ==> exists i :: 0 <= i < |steps| && AllocatedBy(steps[i], b, blocks[b])
  }

  predicate AllocatedBy(t: Step, bid: nat, b: Block) {
    t.AllocStep? && t.bid == bid && b.size == t.size && b.granted == t.granted
  }

  /** Any run of allocations, frees and starts of lifetimes: if everything that was assumed holds
      at its end, blocks alive at the same time never overlapped and never wrapped around.
      Conversely nothing more is assumed: if every new block has room and the live blocks never
      overlap, everything assumed holds. */
  method Run(s: Space, steps: seq<Step>) returns (pre: bool, ghost moments: seq<Moment>)
    requires s.bits > 0 && Runs(s, steps, {})
    ensures |moments| == |steps| + 1 && moments[0] == Moment(map[], {}) && forall i ::
      0 <= i < |steps| ==> Follows(moments, steps, i)
    ensures pre && Proper(s, steps) ==> AllSeparate(s, moments)
    ensures (forall i :: 0 <= i < |steps| ==> CanStep(s, moments, steps, i)) ==> pre
    ensures AllSeparate(s, moments) && (forall i :: 0 <= i < |steps| ==> FreshStep(s, moments, steps, i)) ==> pre
  {
    hide Separated, AllPlaced, GrantedWithin, Proper, ClearOf, Roomy, ApartFrom;
    var m := new LocalMemory(s);
    moments := [Moment(m.blocks, m.alive)];
    var i := 0;
    assert steps[0..] == steps && m.blocks.Keys == {};
    while i < |steps|
      invariant 0 <= i <= |steps| && |moments| == i + 1 && m.Valid() && m.s == s
      invariant Runs(s, steps[i..], m.blocks.Keys) && FromSteps(m.blocks, steps)
      invariant moments[0] == Moment(map[], {}) && moments[i] == Moment(m.blocks, m.alive)
      invariant m.pre && Proper(s, steps) ==> m.Separate() && forall j :: 0 <= j <= i ==> SeparateAt(s, moments[j])
      invariant forall j :: 0 <= j < i ==> Follows(moments, steps, j)
      invariant (forall j :: 0 <= j < i ==> CanStep(s, moments, steps, j)) ==> m.pre
      invariant forall j :: 0 <= j <= i ==> AllPlaced(s, moments[j].blocks)
    {
      var t := steps[i];
      ghost var could, was := moments, m.pre;
      assert steps[i..][0] == t && steps[i..][1..] == steps[i + 1..];
      ghost var before := m.blocks;
      match t {
        case AllocStep(bid, size, align, granted, high) =>
          ProperSize(s, steps, i);
          m.Alloc(bid, size, align, granted, high);
          assert was && CanStep(s, could, steps, i) ==> m.pre;
          AllocFromSteps(before, steps, i, m.blocks[bid]);
          assert m.blocks.Keys == before.Keys + {bid};
        case FreeStep(bid) =>
          m.Free(bid);
        case StartStep(bid) =>
          ProperStart(s, steps, i, m.blocks);
          m.StartLifetime(bid);
          assert was && CanStep(s, could, steps, i) ==> m.pre;
      }
      AppendMoment(moments, steps, i, Moment(m.blocks, m.alive));
      moments := moments + [Moment(m.blocks, m.alive)];
      SameSteps(s, could, moments, steps, i);
      i := i + 1;
    }
    pre := m.pre;
    if AllSeparate(s, moments) && forall j :: 0 <= j < |steps| ==> FreshStep(s, moments, steps, j) {
      forall j | 0 <= j < |steps|
        ensures CanStep(s, moments, steps, j)
      {
        SeparateCanStep(s, moments, steps, j);
      }
    }
  }

  /** A step that leaves no empty block alive, in which a new block has room and a started one was
      not alive. */
  ghost predicate FreshStep(s: Space, moments: seq<Moment>, steps: seq<Step>, i: nat)
    requires s.bits > 0
  {
    && i < |steps| && i + 1 < |moments|
    && var t, t' := moments[i], moments[i + 1];
       && (forall b :: b in t'.alive && b in t'.blocks ==> t'.blocks[b].size > 0)
       && match steps[i]
          case AllocStep(bid, _, _, granted, _) =>
            bid !in t.blocks && (granted ==> bid in t'.blocks && Roomy(s, t'.blocks[bid]))
          case FreeStep(_) => true
          case StartStep(bid) => bid in t.blocks && bid !in t.alive
  }

  /** If the live blocks are apart before and after such a step, nothing assumed stands against it. */
  lemma {:induction false} SeparateCanStep(s: Space, moments: seq<Moment>, steps: seq<Step>, i: nat)
    requires s.bits > 0 && FreshStep(s, moments, steps, i) && Follows(moments, steps, i)
    requires SeparateAt(s, moments[i]) && SeparateAt(s, moments[i + 1])
    requires AllPlaced(s, moments[i].blocks) && AllPlaced(s, moments[i + 1].blocks)
    ensures CanStep(s, moments, steps, i)
  {
    hide ClearOf, Roomy, Apart, Aligned, Within, Pow2;
    var t, t' := moments[i], moments[i + 1];
    if steps[i].StartStep? || (steps[i].AllocStep? && steps[i].granted) {
      var bid := steps[i].bid;
      var x := t'.blocks[bid];
      assert bid in t'.alive && forall b :: b in t.alive ==> b in t'.alive && b != bid && t'.blocks[b] == t.blocks[b];
      assert ApartFrom(s, t.blocks, t.alive, x);
      ApartIsClear(s, t.blocks, t.alive, x);
    }
  }

  /** A step that nothing assumed stands against: an allocation that is refused, or gets a place
      with room that is apart from the live blocks, or a start of a block that is. */
  ghost predicate CanStep(s: Space, moments: seq<Moment>, steps: seq<Step>, i: nat)
    requires s.bits > 0
  {
    && i < |steps| && i < |moments| && moments[i].alive <= moments[i].blocks.Keys
    && var t := moments[i];
       match steps[i]
       case AllocStep(_, size, align, granted, high) =>
         var b := Block(high * Pow2(align), size, align, granted);
         granted ==> Roomy(s, b) && ClearOf(s, t.blocks, t.alive, b)
       case FreeStep(_) => true
       case StartStep(bid) => bid in t.blocks && ClearOf(s, t.blocks, t.alive, t.blocks[bid])
  }

  lemma SameSteps(s: Space, moments: seq<Moment>, moments': seq<Moment>, steps: seq<Step>, i: nat)
    requires s.bits > 0 && |moments| == i + 1 && |moments'| == i + 2 && moments'[..i + 1] == moments
    ensures forall j :: 0 <= j <= i ==> CanStep(s, moments, steps, j) == CanStep(s, moments', steps, j)
  {
    hide ClearOf, Roomy;
    assert forall j :: 0 <= j <= i ==> moments'[j] == moments[j];
  }

  ghost predicate Follows(moments: seq<Moment>, steps: seq<Step>, i: nat) {
    i < |steps| && i + 1 < |moments| && AfterStep(moments[i], steps[i], moments[i + 1])
  }

  lemma AppendMoment(moments: seq<Moment>, steps: seq<Step>, i: nat, t: Moment)
    requires |moments| == i + 1 && i < |steps| && AfterStep(moments[i], steps[i], t)
    requires forall j :: 0 <= j < i ==> Follows(moments, steps, j)
    ensures forall j :: 0 <= j <= i ==> Follows(moments + [t], steps, j)
  {
    hide AfterStep;
    forall j | 0 <= j <= i
      ensures Follows(moments + [t], steps, j)
    {
      assert j < i ==> Follows(moments, steps, j);
    }
  }

  /** What a step does to the blocks. */
  predicate AfterStep(a: Moment, t: Step, b: Moment) {
    match t
    case AllocStep(bid, size, align, granted, high) =>
      && b.blocks == a.blocks[bid := Block(high * Pow2(align), size, align, granted)]
      && b.alive == if granted then a.alive + {bid} else a.alive
    case FreeStep(bid) => b.blocks == a.blocks && b.alive == a.alive - {bid}
    case StartStep(bid) => b.blocks == a.blocks && b.alive == a.alive + {bid}
  }

  lemma ProperSize(s: Space, steps: seq<Step>, i: nat)
    requires s.bits > 0 && i < |steps| && steps[i].AllocStep?
    ensures Proper(s, steps) ==> steps[i].size < s.Half()
  {
  }

  lemma AllocFromSteps(blocks: map<nat, Block>, steps: seq<Step>, i: nat, b: Block)
    requires FromSteps(blocks, steps) && i < |steps| && steps[i].AllocStep? && AllocatedBy(steps[i], steps[i].bid, b)
    ensures FromSteps(blocks[steps[i].bid := b], steps)
  {
  }

  lemma ProperStart(s: Space, steps: seq<Step>, i: nat, blocks: map<nat, Block>)
    requires s.bits > 0 && i < |steps| && steps[i].StartStep? && steps[i].bid in blocks && FromSteps(blocks, steps)
    ensures Proper(s, steps) ==> Started(s, blocks[steps[i].bid])
  {
    var b := steps[i].bid;
    var j :| 0 <= j < |steps| && AllocatedBy(steps[j], b, blocks[b]);
  }

  /** Why only granted blocks may be started: a block that was refused can come to life where its
      range wraps around, on top of another block, although everything assumed holds. */
  method RefusedBlockOverlaps() returns (m: LocalMemory)
    ensures m.Valid() && m.pre && 0 in m.alive && 1 in m.alive && !m.Separate()
    ensures var a, b := m.blocks[0], m.blocks[1];
      Mod(m.s.Address(a) + 1, Pow2(m.s.bits)) == m.s.Address(b) && a.size > 1 && b.size > 0
  {
    var s := Space(4, false);
    assert Pow2(0) == 1 && Pow2(1) == 2 && Pow2(2) == 4 && Pow2(3) == 8 && Pow2(4) == 16;
    m := new LocalMemory(s);
    m.Alloc(0, 2, 0, false, 15);
    m.Alloc(1, 1, 0, true, 0);
    m.StartLifetime(0);
  }
}

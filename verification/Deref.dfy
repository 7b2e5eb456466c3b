/** Whether an access through a pointer is allowed, and what is learnt about the pointer when
    it is. Bit-vectors are numbers here; offsets are signed. */
module Deref {
  import opened Bits
  import opened BitLaws

  /** The bits of an offset, of a size, and of the size of the access. */
  datatype Widths = Widths(offset: nat, size: nat, bytes: nat) {
    /** Sizes have room for every offset, up to the sign. */
    predicate Valid() {
      offset > 0 && size > 0 && size + 1 >= offset
    }

    /** The number of offsets that are not negative. */
    function Half(): nat
      requires Valid()
    {
      Pow2(offset - 1)
    }

    /** The number of values of the wider of an offset and a size. */
    function Wide(): nat {
      Pow2(if size < offset then offset else size)
    }
  }

  datatype Block = Block(size: nat, align: nat, alive: bool, writable: bool)

  datatype Pointer = Pointer(bid: nat, offset: nat, noRead: bool, noWrite: bool)

  predicate Fits(w: Widths, p: Pointer)
    requires w.Valid()
  {
    p.offset < 2 * w.Half()
  }

  // ---- Bounds ----

  function Signed(v: nat, half: nat): int {
    if v < half then v else v - 2 * half
  }

  /** The test as it is computed: the end of the access wraps around and is compared as an
      unsigned number of the wider of the two widths; overflow is looked at only if the size
      could be taken for a negative number. */
  predicate BoundsTest(half: nat, wide: nat, offset: nat, bytes: nat, size: nat, checked: bool)
    requires half > 0
  {
    var b := Mod(bytes, 2 * half);
    var end := Mod(offset + b, 2 * half);
    && (if end < half then end else end + wide - 2 * half) <= size
    && offset < half
    && (checked ==> 0 - half <= Signed(offset, half) + Signed(b, half) < half)
  }

  predicate InBounds(half: nat, offset: nat, bytes: nat, size: nat) {
    Signed(offset, half) >= 0 && offset + bytes <= size
  }

  /** What the encoding knows of a block's size: it is below the wider of the two widths, and
      overflow is looked at unless the size is below half of that. */
  predicate Sized(half: nat, wide: nat, size: nat, checked: bool) {
    0 < half && 2 * half <= wide && size < wide && (2 * size >= wide ==> checked)
  }

  lemma ModOnce(n: nat, m: nat)
    requires 0 < m <= n < 2 * m
    ensures Mod(n, m) == n - m
  {
    DivModUnique(n, m, 1, n - m);
  }

  lemma AtLeastMod(n: nat, m: nat)
    requires m > 0
    ensures Mod(n, m) <= n
  {
    if n < m {
      ModSmall(n, m);
    }
  }

  /** The test on numbers: the access size is taken for a signed number, the end of the access
      must be an offset and lie in the block, and an end before the start of the block passes
      if the block is large enough for the wrapped end. */
  predicate Accepts(half: nat, wide: nat, offset: nat, bytes: nat, size: nat)
    requires half > 0
  {
    var end := offset + Signed(Mod(bytes, 2 * half), half);
    offset < half && if end >= 0 then end < half && end <= size else end + wide <= size
  }

  lemma BoundsAccepts(half: nat, wide: nat, offset: nat, bytes: nat, size: nat, checked: bool)
    requires Sized(half, wide, size, checked) && offset < 2 * half
    ensures BoundsTest(half, wide, offset, bytes, size, checked) <==> Accepts(half, wide, offset, bytes, size)
  {
    var b := Mod(bytes, 2 * half);
    if offset + b < 2 * half {
      ModSmall(offset + b, 2 * half);
    } else {
      ModOnce(offset + b, 2 * half);
    }
    hide Mod;
  }

  /** Accesses below half the range of offsets: the test is the mathematical one, but it
      refuses an access that ends past the largest offset, however large the block. */
  lemma BoundsExact(half: nat, wide: nat, offset: nat, bytes: nat, size: nat, checked: bool)
    requires Sized(half, wide, size, checked) && offset < 2 * half && bytes < half
    ensures BoundsTest(half, wide, offset, bytes, size, checked) <==>
      InBounds(half, offset, bytes, size) && offset + bytes < half
  {
    BoundsAccepts(half, wide, offset, bytes, size, checked);
    ModSmall(bytes, 2 * half);
  }

  /** The last offset at which an access is in bounds, if not negative. */
  function LastAllowed(half: nat, bytes: nat, size: nat): int {
    if size - bytes < half then size - bytes else half - 1
  }

  /** Access and block sizes for which the test is right whatever the offset. Below half the
      range of offsets the block must be below it too. An access size that wraps to a number
      that is not negative must not fit the block as that number, or lose nothing by wrapping;
      one that wraps to a negative number must be the least one and not fit, or the block be so
      large that the wrapped ends come out at the right places. */
  predicate RightSizes(half: nat, wide: nat, bytes: nat, size: nat)
    requires half > 0
  {
    var c, last := Signed(Mod(bytes, 2 * half), half), LastAllowed(half, bytes, size);
    if bytes < half then bytes == 0 || size < half
    else if c >= 0 then (if last < 0 then size < c else last + c == half - 1)
    else if c == 0 - half then (if last < 0 then size + half < wide else last + wide == size + half)
    else size == wide - 1 && last == half - 1
  }

  /** The test is right at every offset exactly for these sizes. */
  lemma BoundsRight(half: nat, wide: nat, bytes: nat, size: nat, checked: bool)
    requires Sized(half, wide, size, checked)
    ensures RightSizes(half, wide, bytes, size) <==> forall offset :: 0 <= offset < 2 * half ==>
      (BoundsTest(half, wide, offset, bytes, size, checked) <==> InBounds(half, offset, bytes, size))
  {
    hide BoundsTest, InBounds;
    if RightSizes(half, wide, bytes, size) {
      forall offset | 0 <= offset < 2 * half
        ensures BoundsTest(half, wide, offset, bytes, size, checked) <==> InBounds(half, offset, bytes, size)
      {
        BoundsAccepts(half, wide, offset, bytes, size, checked);
        RightAt(half, wide, offset, bytes, size);
      }
    } else {
      var offset := WrongAt(half, wide, bytes, size);
      BoundsAccepts(half, wide, offset, bytes, size, checked);
    }
  }

  lemma RightAt(half: nat, wide: nat, offset: nat, bytes: nat, size: nat)
    requires 0 < half && 2 * half <= wide && size < wide && offset < 2 * half && RightSizes(half, wide, bytes, size)
    ensures Accepts(half, wide, offset, bytes, size) <==> InBounds(half, offset, bytes, size)
  {
    if bytes < half {
      ModSmall(bytes, 2 * half);
    }
    hide Mod;
  }

  /** For all other sizes some offset is wrongly accepted or wrongly refused. */
  lemma WrongAt(half: nat, wide: nat, bytes: nat, size: nat) returns (offset: nat)
    requires 0 < half && 2 * half <= wide && size < wide && !RightSizes(half, wide, bytes, size)
    ensures offset < half && (Accepts(half, wide, offset, bytes, size) <==> !InBounds(half, offset, bytes, size))
  {
    if bytes < half {
      ModSmall(bytes, 2 * half);
    } else {
      ModBelow(bytes, half);
    }
    var c, last := Signed(Mod(bytes, 2 * half), half), LastAllowed(half, bytes, size);
    hide Mod;
    if bytes < half {
      offset := half - bytes;
    } else if c >= 0 {
      offset := if last < 0 then 0 else if last + c < half - 1 then last + 1 else half - c;
    } else if c == 0 - half {
      offset := if last < 0 then 0 else if last + wide > size + half then last else last + 1;
    } else if size < wide - 1 && last >= 0 - c - 1 {
      offset := 0 - c - 1;
    } else {
      offset := if last < 0 - c then 0 - c else last + 1;
    }
  }

  lemma ModBelow(bytes: nat, half: nat)
    requires 0 < half <= bytes
    ensures var b := Mod(bytes, 2 * half); b < 2 * half && (b < half ==> bytes >= 2 * half + b)
  {
    var q, r := bytes / (2 * half), bytes % (2 * half);
    assert bytes == 2 * half * q + r;
    if q >= 1 {
      MulMonotone(2 * half, 1, q);
    }
  }

  /** A byte array of 500 bytes with eight-bit offsets: reading 50 bytes at offset 100 is in
      bounds and refused. */
  lemma LargeBlockRefused(checked: bool)
    ensures InBounds(128, 100, 50, 500) && !BoundsTest(128, 1024, 100, 50, 500, checked)
  {
    ModSmall(50, 256);
    ModSmall(150, 256);
  }

  // ---- Alignment ----

  /** The bits of an offset that an alignment fixes. */
  function LowBits(w: Widths, align: nat): nat {
    if align < w.offset then align else w.offset
  }

  /** Alignment of the block and of the offset. */
  predicate IsAligned(w: Widths, b: Block, p: Pointer, align: nat) {
    align == 0 || (b.align >= align && Mod(p.offset, Pow2(LowBits(w, align))) == 0)
  }

  /** The pointer with the offset bits cleared that must be zero. */
  function Cleared(w: Widths, p: Pointer, align: nat): Pointer {
    var m := Pow2(LowBits(w, align));
    AtLeastMod(p.offset, m);
    if align == 0 then p else p.(offset := p.offset - Mod(p.offset, m))
  }

  /** The address is a multiple of the alignment wherever the block is put. */
  ghost predicate AddressAligned(b: Block, p: Pointer, align: nat) {
    forall base: nat :: Mod(base, Pow2(b.align)) == 0 ==> Mod(base + p.offset, Pow2(align)) == 0
  }

  /** The test looks at the block and the offset by themselves, and is right. */
  lemma {:induction false} AlignedExact(w: Widths, b: Block, p: Pointer, align: nat)
    requires w.Valid() && Fits(w, p)
    ensures IsAligned(w, b, p, align) <==> AddressAligned(b, p, align)
  {
    hide Mod, Pow2;
    if IsAligned(w, b, p, align) {
      forall base: nat | Mod(base, Pow2(b.align)) == 0
        ensures Mod(base + p.offset, Pow2(align)) == 0
      {
        AlignedAddress(w, b, p, align, base);
      }
    }
    if AddressAligned(b, p, align) && align > 0 {
      ModSmall(0, Pow2(b.align));
      assert Mod(0 + p.offset, Pow2(align)) == 0;
      OffsetAligned(w, p, align);
      ModSelf(Pow2(b.align));
      assert Mod(Pow2(b.align) + p.offset, Pow2(align)) == 0;
      BlockAligned(b.align, p.offset, align);
    }
  }

  lemma {:induction false} AlignedAddress(w: Widths, b: Block, p: Pointer, align: nat, base: nat)
    requires w.Valid() && Fits(w, p) && IsAligned(w, b, p, align) && Mod(base, Pow2(b.align)) == 0
    ensures Mod(base + p.offset, Pow2(align)) == 0
  {
    AlignedOffset(w, p, align);
    if align == 0 {
      MultipleSum(base, Pow2(b.align), 1, p.offset);
    } else {
      Pow2Add(b.align - align, align);
      MultipleSum(base, Pow2(b.align - align), Pow2(align), p.offset);
    }
  }

  lemma {:induction false} MultipleSum(base: nat, e: nat, d: nat, offset: nat)
    requires d > 0 && e > 0 && Mod(base, e * d) == 0 && Mod(offset, d) == 0
    ensures Mod(base + offset, d) == 0
  {
    var q, r := base / (e * d), offset / d;
    assert base == (e * d) * q && offset == d * r;
    assert (e * d) * q == d * (e * q);
    assert d * (e * q) + d * r == d * (e * q + r);
    DivModUnique(base + offset, d, e * q + r, 0);
  }

  lemma ModSelf(d: nat)
    requires d > 0
    ensures Mod(d, d) == 0
  {
    DivModUnique(d, d, 1, 0);
  }

  /** A multiple of the alignment has zeros in the bits that are looked at. */
  lemma {:induction false} OffsetAligned(w: Widths, p: Pointer, align: nat)
    requires w.Valid() && Fits(w, p) && Mod(p.offset, Pow2(align)) == 0
    ensures Mod(p.offset, Pow2(LowBits(w, align))) == 0
  {
    if align > w.offset {
      Pow2Monotone(w.offset, align);
      ModSmall(p.offset, Pow2(align));
      ModSmall(0, Pow2(w.offset));
    }
  }

  lemma {:induction false} BlockAligned(block: nat, offset: nat, align: nat)
    requires Mod(offset, Pow2(align)) == 0 && Mod(Pow2(block) + offset, Pow2(align)) == 0
    ensures block >= align
  {
    if block < align {
      Pow2Strict(block, align);
      NotMultiple(Pow2(block), Pow2(align), offset);
    }
  }

  lemma {:induction false} NotMultiple(e: nat, d: nat, offset: nat)
    requires 0 < e < d && Mod(offset, d) == 0
    ensures Mod(e + offset, d) != 0
  {
    assert offset == d * (offset / d);
    DivModUnique(e + offset, d, offset / d, e);
  }

  lemma {:induction false} Pow2Strict(a: nat, b: nat)
    requires a < b
    ensures 0 < Pow2(a) < Pow2(b)
  {
    Pow2Monotone(a + 1, b);
  }

  /** The low bits of an aligned offset are zero for the whole alignment. */
  lemma AlignedOffset(w: Widths, p: Pointer, align: nat)
    requires w.Valid() && Fits(w, p)
    ensures Mod(p.offset, Pow2(LowBits(w, align))) == 0 ==> Mod(p.offset, Pow2(align)) == 0
  {
    if align > w.offset && Mod(p.offset, Pow2(w.offset)) == 0 {
      ModSmall(p.offset, Pow2(w.offset));
      ModSmall(0, Pow2(align));
    }
  }

  // ---- Accesses ----

  type Blocks = map<nat, Block>

  /** A size is below two to its width. */
  predicate Known(w: Widths, blocks: Blocks, p: Pointer)
    requires w.Valid()
  {
    Fits(w, p) && p.bid in blocks && blocks[p.bid].size < Pow2(w.size)
  }

  /** An access of `bytes` bytes is allowed. With no bytes only the alignment matters. */
  ghost predicate Allowed(w: Widths, blocks: Blocks, p: Pointer, bytes: nat, align: nat, write: bool)
    requires w.Valid() && Known(w, blocks, p)
  {
    var b := blocks[p.bid];
    && AddressAligned(b, p, align)
    && (bytes == 0 || (
      && b.alive && InBounds(w.Half(), p.offset, bytes, b.size)
      && (if write then b.writable && !p.noWrite else !p.noRead)))
  }

  /** The access ends at an offset, or the sizes are right at every offset. */
  predicate RightBounds(w: Widths, b: Block, p: Pointer, bytes: nat)
    requires w.Valid()
  {
    (bytes < w.Half() && p.offset + bytes < w.Half()) || RightSizes(w.Half(), w.Wide(), bytes, b.size)
  }

  /** Sizes that do not fit are refused, so the test is right for them as well. */
  predicate RightAccess(w: Widths, b: Block, p: Pointer, bytes: nat)
    requires w.Valid()
  {
    RightBounds(w, b, p, bytes) || (w.bytes > w.size && bytes >= Pow2(w.size))
  }

  /** One possible value of the pointer and whether it is the value. */
  datatype Case = Case(ptr: Pointer, taken: bool)

  predicate Cases(w: Widths, blocks: Blocks, cases: seq<Case>, p: Pointer)
    requires w.Valid()
  {
    && (forall i :: 0 <= i < |cases| ==> Known(w, blocks, cases[i].ptr) && (cases[i].taken ==> cases[i].ptr == p))
    && exists k :: 0 <= k < |cases| && TakenAt(cases, k)
  }

  /** Exactly one case is the value. */
  predicate TakenAt(cases: seq<Case>, k: nat)
    requires k < |cases|
  {
    forall i :: 0 <= i < |cases| ==> cases[i].taken == (i == k)
  }

  lemma SizedIn(w: Widths, size: nat, checked: bool)
    requires w.Valid() && size < Pow2(w.size) && (2 * size >= w.Wide() ==> checked)
    ensures Sized(w.Half(), w.Wide(), size, checked)
  {
    Pow2Monotone(w.offset, if w.size < w.offset then w.offset else w.size);
    Pow2Monotone(w.size, if w.size < w.offset then w.offset else w.size);
  }

  lemma RightBoundsExact(w: Widths, b: Block, p: Pointer, bytes: nat, checked: bool)
    requires w.Valid() && Fits(w, p) && RightBounds(w, b, p, bytes) && Sized(w.Half(), w.Wide(), b.size, checked)
    ensures BoundsTest(w.Half(), w.Wide(), p.offset, bytes, b.size, checked) <==>
      InBounds(w.Half(), p.offset, bytes, b.size)
  {
    if bytes < w.Half() {
      BoundsExact(w.Half(), w.Wide(), p.offset, bytes, b.size, checked);
    }
    BoundsRight(w.Half(), w.Wide(), bytes, b.size, checked);
    hide BoundsTest, Pow2, RightSizes;
  }

  /** The test for one case. What folding finds out is sound but arbitrary. */
  method IsDereferenceable(w: Widths, b: Block, p: Pointer, bytes: nat, align: nat, write: bool)
    returns (ok: bool, aligned: bool, cleared: Pointer)
    requires w.Valid() && Fits(w, p) && b.size < Pow2(w.size)
    ensures aligned <==> AddressAligned(b, p, align)
    ensures cleared == Cleared(w, p, align)
    ensures RightBounds(w, b, p, bytes) && 0 < bytes < Pow2(w.size) ==>
      (ok <==> Passes(w, b, p, bytes, write))
  {
    var checked := *;
    if 2 * b.size >= w.Wide() {
      checked := true;
    }
    ok := BoundsTest(w.Half(), w.Wide(), p.offset, bytes, b.size, checked);
    SizedIn(w, b.size, checked);
    if RightBounds(w, b, p, bytes) {
      RightBoundsExact(w, b, p, bytes, checked);
    }
    hide BoundsTest, RightBounds, AddressAligned;
    ok := ok && b.alive;
    ok := ok && if write then b.writable && !p.noWrite else !p.noRead;
    if bytes < Pow2(w.size) {
      ModSmall(bytes, Pow2(w.size));
    }
    var large, outside := *, *;
    if (large && Mod(bytes, Pow2(w.size)) > b.size) || (outside && p.offset >= b.size) {
      ok := false;
    }
    aligned := IsAligned(w, b, p, align);
    AlignedExact(w, b, p, align);
    cleared := Cleared(w, p, align);
  }

  /** Tests all cases and leaves out those that cannot be. */
  method TestCases(w: Widths, blocks: Blocks, cases: seq<Case>, bytes: nat, align: nat, write: bool, ghost p: Pointer)
    returns (ub: bool, aligned: bool, picked: bool, trimmed: Pointer)
    requires w.Valid() && Cases(w, blocks, cases, p) && Known(w, blocks, p)
    ensures aligned <==> AddressAligned(blocks[p.bid], p, align)
    ensures RightBounds(w, blocks[p.bid], p, bytes) && 0 < bytes < Pow2(w.size) ==>
      (ub <==> Passes(w, blocks[p.bid], p, bytes, write))
    ensures picked ==> trimmed == Cleared(w, p, align)
    ensures ub && aligned && blocks[p.bid].size > 0 ==> picked
  {
    hide Mod, AddressAligned, Cleared, Passes, RightBounds, Pow2;
    ub, aligned, picked := false, false, false;
    trimmed := Pointer(0, 0, false, false);
    ghost var k :| 0 <= k < |cases| && TakenAt(cases, k);
    var i := 0;
    while i < |cases|
      invariant 0 <= i <= |cases|
      invariant i <= k ==> !picked
      invariant i > k ==> (aligned <==> AddressAligned(blocks[p.bid], p, align))
      invariant i > k && RightBounds(w, blocks[p.bid], p, bytes) && 0 < bytes < Pow2(w.size) ==>
        (ub <==> Passes(w, blocks[p.bid], p, bytes, write))
      invariant picked ==> trimmed == Cleared(w, p, align)
      invariant i > k && ub && aligned && blocks[p.bid].size > 0 ==> picked
    {
      var ptr, taken := cases[i].ptr, cases[i].taken;
      assert Known(w, blocks, ptr) && taken == (i == k) && (taken ==> ptr == p);
      var caseUb, caseAligned, cleared := IsDereferenceable(w, blocks[ptr.bid], ptr, bytes, align, write);
      if taken {
        ub, aligned := caseUb, caseAligned;
      }
      var ubKnown, alignedKnown, sizeKnown := *, *, *;
      if !((ubKnown && !caseUb) || (alignedKnown && !caseAligned) || (sizeKnown && blocks[ptr.bid].size == 0)) {
        if taken || !picked {
          picked := taken;
          trimmed := cleared;
        }
      }
      i := i + 1;
    }
  }

  /** The test of an access, and the pointer with the cases left out that cannot be. The test
      is exact, and when it holds the pointer is unchanged. */
  method IsPointerDereferenceable(w: Widths, blocks: Blocks, cases: seq<Case>, bytes: nat, align: nat, write: bool,
                                  ghost p: Pointer)
    returns (ok: bool, trimmed: Pointer)
    requires w.Valid() && Cases(w, blocks, cases, p) && Known(w, blocks, p) && bytes < Pow2(w.bytes)
    ensures RightAccess(w, blocks[p.bid], p, bytes) ==> (ok <==> Allowed(w, blocks, p, bytes, align, write))
    ensures RightAccess(w, blocks[p.bid], p, bytes) && ok && bytes > 0 ==> trimmed == p
  {
    hide Mod, AddressAligned, Cleared, Passes, RightBounds, RightAccess, Pow2, Allowed;
    var ub, aligned, picked;
    ub, aligned, picked, trimmed := TestCases(w, blocks, cases, bytes, align, write, p);
    ok := Mod(bytes, Pow2(w.size)) == 0 || ub;
    if w.bytes > w.size {
      ok := ok && bytes < Pow2(w.size);
    }
    ok := ok && aligned;
    if RightAccess(w, blocks[p.bid], p, bytes) {
      Combined(w, blocks[p.bid], p, bytes, align, write, ub);
      AllowedIs(w, blocks, p, bytes, align, write);
      AlignedExact(w, blocks[p.bid], p, align);
    }
  }

  lemma AllowedIs(w: Widths, blocks: Blocks, p: Pointer, bytes: nat, align: nat, write: bool)
    requires w.Valid() && Known(w, blocks, p)
    ensures Allowed(w, blocks, p, bytes, align, write) <==>
      AddressAligned(blocks[p.bid], p, align) && (bytes == 0 || Passes(w, blocks[p.bid], p, bytes, write))
  {
  }

  predicate Passes(w: Widths, b: Block, p: Pointer, bytes: nat, write: bool)
    requires w.Valid()
  {
    InBounds(w.Half(), p.offset, bytes, b.size) && b.alive && if write then b.writable && !p.noWrite else !p.noRead
  }

  lemma Combined(w: Widths, b: Block, p: Pointer, bytes: nat, align: nat, write: bool, ub: bool)
    requires w.Valid() && Fits(w, p) && b.size < Pow2(w.size) && bytes < Pow2(w.bytes) && RightAccess(w, b, p, bytes)
    requires RightBounds(w, b, p, bytes) && 0 < bytes < Pow2(w.size) ==> (ub <==> Passes(w, b, p, bytes, write))
    ensures (Mod(bytes, Pow2(w.size)) == 0 || ub) && (w.bytes > w.size ==> bytes < Pow2(w.size)) <==>
      bytes == 0 || Passes(w, b, p, bytes, write)
    ensures bytes > 0 && (w.bytes > w.size ==> bytes < Pow2(w.size)) ==> Mod(bytes, Pow2(w.size)) != 0
    ensures bytes > 0 && Passes(w, b, p, bytes, write) ==> b.size > 0
    ensures IsAligned(w, b, p, align) ==> Cleared(w, p, align) == p
  {
    if w.bytes <= w.size {
      Pow2Monotone(w.bytes, w.size);
    }
    hide Pow2, RightBounds;
    if bytes < Pow2(w.size) {
      ModSmall(bytes, Pow2(w.size));
    }
  }
}

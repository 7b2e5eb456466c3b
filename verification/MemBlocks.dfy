/** One local memory block: its bytes, and the tag that says which kinds of value it may
    hold, so that a load of another kind need not look. */
module MemBlocks {
  import opened Bits
  import opened Lanes
  import opened MemBytes
  import opened MemTypes

  datatype Tag = Tag(ints: bool, ptrs: bool) {
    function Or(t: Tag): Tag {
      Tag(ints || t.ints, ptrs || t.ptrs)
    }
  }

  type Data = seq<(nat, Bits)>

  // ---- What a store writes ----

  /** Every entry is the byte of its place, and every place has one entry. */
  ghost predicate Places(data: Data, from: nat, image: seq<Bits>) {
    && |data| == |image|
    && (forall k :: 0 <= k < |data| ==> from <= data[k].0 < from + |image| && data[k].1 == image[data[k].0 - from])
    && (forall k, l :: 0 <= k < l < |data| ==> data[k].0 != data[l].0)
  }

  lemma PlacesJoin(d: Data, e: Data, from: nat, a: seq<Bits>, b: seq<Bits>)
    requires Places(d, from, a) && Places(e, from + |a|, b)
    ensures Places(d + e, from, a + b)
  {
    var de := d + e;
    forall k | 0 <= k < |de|
      ensures from <= de[k].0 < from + |a + b| && de[k].1 == (a + b)[de[k].0 - from]
    {
      if k >= |d| {
        assert de[k] == e[k - |d|];
      }
    }
    forall k, l | 0 <= k < l < |de|
      ensures de[k].0 != de[l].0
    {
      if k >= |d| {
        assert de[k] == e[k - |d|] && de[l] == e[l - |d|];
      } else if l >= |d| {
        assert de[l] == e[l - |d|];
      }
    }
  }

  /** A type without bits. */
  predicate NoBits(t: Type)
    decreases t
  {
    match t
    case IntTy(bits) => bits == 0
    case PtrTy => false
    case AggTy(fields) => forall i :: 0 <= i < |fields| ==> NoBits(fields[i].ty)
  }

  lemma {:induction false} NoBitsNoBytes(c: Layout, t: Type)
    requires c.Valid() && NoBits(t)
    ensures Size(c, t) == 0
    decreases t, |if t.AggTy? then t.fields else []| + 1
  {
    match t
    case IntTy(bits) => DivModUnique(c.byte - 1, c.byte, 0, c.byte - 1);
    case AggTy(fields) => NoBitsStart(c, t, |fields|);
  }

  lemma {:induction false} NoBitsStart(c: Layout, t: Type, i: nat)
    requires c.Valid() && NoBits(t) && t.AggTy? && i <= |t.fields|
    ensures Start(c, t, i) == 0
    decreases t, i
  {
    if i > 0 {
      NoBitsStart(c, t, i - 1);
      NoBitsNoBytes(c, t.fields[i - 1].ty);
    }
  }

  /** The entries that storing a value of type `t` makes. */
  method Collect(c: Layout, t: Type, v: Value, from: nat, little: bool) returns (data: Data)
    requires c.Valid() && Fits(c, t, v)
    ensures Places(data, from, Image(c, t, v, little))
    decreases t
  {
    match t {
      case AggTy(fields) =>
        data := [];
        var byteofs := 0;
        var i := 0;
        while i < |fields|
          invariant 0 <= i <= |fields| && byteofs == Start(c, t, i)
          invariant Places(data, from, ImageUpTo(c, t, v, little, i))
        {
          var child := fields[i].ty;
          if NoBits(child) {
            NoBitsNoBytes(c, child);
            assert ImageUpTo(c, t, v, little, i + 1) == ImageUpTo(c, t, v, little, i);
          } else {
            var more := Collect(c, child, v.members[i], from + byteofs, little);
            PlacesJoin(data, more, from, ImageUpTo(c, t, v, little, i), Image(c, child, v.members[i], little));
            data := data + more;
            byteofs := byteofs + Size(c, child);
          }
          i := i + 1;
        }
      case IntTy(bits) =>
        var bytes := IntToBytes(c, v.v, v.pad, bits);
        data := Entries(bytes, from, little);
      case PtrTy =>
        var bytes := PtrToBytes(c, v.p);
        data := Entries(bytes, from, little);
    }
  }

  method Entries(bytes: seq<Bits>, from: nat, little: bool) returns (data: Data)
    ensures Places(data, from, Ordered(bytes, little))
  {
    data := [];
    var i := 0;
    while i < |bytes|
      invariant 0 <= i <= |bytes| && |data| == i
      invariant forall k :: 0 <= k < i ==> data[k] == (from + if little then k else |bytes| - k - 1, bytes[k])
    {
      data := data + [(from + if little then i else |bytes| - i - 1, bytes[i])];
      i := i + 1;
    }
    EntriesPlaced(data, bytes, from, little);
  }

  lemma EntriesPlaced(data: Data, bytes: seq<Bits>, from: nat, little: bool)
    requires |data| == |bytes|
    requires forall k :: 0 <= k < |data| ==> data[k] == (from + if little then k else |bytes| - k - 1, bytes[k])
    ensures Places(data, from, Ordered(bytes, little))
  {
    var image := Ordered(bytes, little);
    forall k | 0 <= k < |data|
      ensures from <= data[k].0 < from + |image| && data[k].1 == image[data[k].0 - from]
    {
      assert data[k].0 - from == if little then k else |bytes| - 1 - k;
    }
  }

  // ---- Tags ----

  /** Whether a byte can be part of a pointer that is not poison. */
  predicate Usable(c: Layout, b: Bits)
    requires IsByte(c, b)
  {
    !IsPoison(c, b) && (IsPtr(c, b) || IntValue(c, b) == Zeros(c.byte))
  }

  ghost function UsablePlaces(c: Layout, bytes: seq<Bits>): set<int>
    requires AreBytes(c, bytes)
  {
    set p | 0 <= p < |bytes| && Usable(c, bytes[p])
  }

  /** What a tag promises: without the integer kind no byte has a set poison bit for an
      integer load, and without the pointer kind a pointer does not find enough bytes. */
  ghost predicate Promises(c: Layout, bytes: seq<Bits>, tag: Tag)
    requires AreBytes(c, bytes)
  {
    && (!tag.ints ==> forall p ::
      0 <= p < |bytes| ==> IsPtr(c, bytes[p]) || IntNonpoison(c, bytes[p]) == Zeros(c.poison))
    && (!tag.ptrs && c.ptrs ==> |UsablePlaces(c, bytes)| < c.PtrBytes())
  }

  predicate AreEntries(c: Layout, data: Data) {
    c.Valid() && forall k :: 0 <= k < |data| ==> IsByte(c, data[k].1)
  }

  ghost function ZeroPlaces(c: Layout, data: Data): set<int>
    requires AreEntries(c, data)
  {
    set k | 0 <= k < |data| && IntValue(c, data[k].1) == Zeros(c.byte) :: data[k].0
  }

  /** How many entries are zero bytes of integers. */
  ghost function ZeroEntries(c: Layout, data: Data): nat
    requires AreEntries(c, data)
  {
    if data == [] then 0
    else
      var n := |data| - 1;
      ZeroEntries(c, data[..n]) +
      if !IsPtr(c, data[n].1) && IntValue(c, data[n].1) == Zeros(c.byte) then 1 else 0
  }

  /** Nothing is in the tag without a reason: an integer byte, a byte of a pointer, or zeros that
      could be read as a null pointer. */
  ghost predicate Justified(c: Layout, data: Data, full: bool, tag: Tag)
    requires AreEntries(c, data)
  {
    && (tag.ints ==> exists k :: 0 <= k < |data| && !IsPtr(c, data[k].1))
    && (tag.ptrs ==> (exists k :: 0 <= k < |data| && IsPtr(c, data[k].1)) ||
                     ZeroEntries(c, data) >= if full then c.PtrBytes() else 1)
  }

  /** The tag of a store. What folding finds out about a byte is sound but arbitrary; `folds` says
      that it finds out everything. */
  method DataType(c: Layout, data: Data, full: bool, folds: bool) returns (tag: Tag)
    requires AreEntries(c, data)
    ensures !tag.ints ==> forall k :: 0 <= k < |data| ==> IsPtr(c, data[k].1)
    ensures !tag.ptrs ==> forall k :: 0 <= k < |data| ==> !IsPtr(c, data[k].1)
    ensures !tag.ptrs && !full ==> forall k :: 0 <= k < |data| ==> IntValue(c, data[k].1) != Zeros(c.byte)
    ensures !tag.ptrs && full ==> |ZeroPlaces(c, data)| < c.PtrBytes()
    ensures folds ==> Justified(c, data, full, tag)
  {
    hide IsPtr, IntValue;
    tag := Tag(false, false);
    var zeros := 0;
    var k := 0;
    while k < |data|
      invariant 0 <= k <= |data| && AreEntries(c, data[..k])
      invariant !tag.ints ==> forall l :: 0 <= l < k ==> IsPtr(c, data[l].1)
      invariant !tag.ptrs ==> forall l :: 0 <= l < k ==> !IsPtr(c, data[l].1)
      invariant !tag.ptrs && zeros == 0 ==> forall l :: 0 <= l < k ==> IntValue(c, data[l].1) != Zeros(c.byte)
      invariant !tag.ptrs ==> |ZeroPlaces(c, data[..k])| <= zeros
      invariant folds ==> zeros == ZeroEntries(c, data[..k])
      invariant folds && tag.ints ==> exists l :: 0 <= l < k && !IsPtr(c, data[l].1)
      invariant folds && tag.ptrs ==> exists l :: 0 <= l < k && IsPtr(c, data[l].1)
    {
      var b := data[k].1;
      MoreZeroPlaces(c, data, k);
      assert data[..k + 1][..k] == data[..k];
      var known, nonzero := *, *;
      if folds {
        known, nonzero := true, true;
      }
      var isTrue, isFalse := known && IsPtr(c, b), known && !IsPtr(c, b);
      if !isFalse {
        tag := tag.(ptrs := true);
      }
      if !isTrue {
        tag := tag.(ints := true);
        if !(nonzero && (IsPtr(c, b) || IntValue(c, b) != Zeros(c.byte))) {
          zeros := zeros + 1;
        }
      }
      if tag == Tag(true, true) {
        return;
      }
      k := k + 1;
    }
    assert data[..k] == data;
    if (full && zeros >= c.PtrBytes()) || (!full && zeros > 0) {
      tag := tag.(ptrs := true);
    }
  }

  lemma MoreZeroPlaces(c: Layout, data: Data, k: nat)
    requires AreEntries(c, data) && k < |data|
    ensures AreEntries(c, data[..k]) && AreEntries(c, data[..k + 1])
    ensures |ZeroPlaces(c, data[..k + 1])| <= |ZeroPlaces(c, data[..k])| + if IntValue(c, data[k].1) ==
      Zeros(c.byte) then 1 else 0
  {
    hide IntValue;
    var zs, zs' := ZeroPlaces(c, data[..k]), ZeroPlaces(c, data[..k + 1]);
    forall p | p in zs'
      ensures p in zs || (p == data[k].0 && IntValue(c, data[k].1) == Zeros(c.byte))
    {
      var l :| 0 <= l < k + 1 && IntValue(c, data[l].1) == Zeros(c.byte) && data[l].0 == p;
      if l < k {
        assert data[..k][l] == data[l];
      }
    }
    if IntValue(c, data[k].1) == Zeros(c.byte) {
      SubsetSize(zs', zs + {data[k].0});
    } else {
      SubsetSize(zs', zs);
    }
  }

  lemma SubsetSize(a: set<int>, b: set<int>)
    requires a <= b
    ensures |a| <= |b|
  {
    assert b == a + (b - a) && a !! (b - a);
  }

  // ---- Places ----

  function Range(from: int, n: nat): (r: set<int>)
    ensures |r| == n && forall p :: p in r <==> from <= p < from + n
  {
    if n == 0 then {} else Range(from, n - 1) + {from + n - 1}
  }

  ghost function PlacesOf(data: Data): set<int> {
    set k | 0 <= k < |data| :: data[k].0
  }

  lemma {:induction false} PlacesOfSize(data: Data)
    requires forall k, l :: 0 <= k < l < |data| ==> data[k].0 != data[l].0
    ensures |PlacesOf(data)| == |data|
    decreases |data|
  {
    if data != [] {
      var n := |data| - 1;
      PlacesOfSize(data[..n]);
      assert PlacesOf(data) == PlacesOf(data[..n]) + {data[n].0};
      assert data[n].0 !in PlacesOf(data[..n]);
    }
  }

  /** Every place is written. */
  lemma {:induction false} EveryPlace(data: Data, image: seq<Bits>, p: nat) returns (k: nat)
    requires Places(data, 0, image) && p < |image|
    ensures k < |data| && data[k].0 == p && data[k].1 == image[p]
  {
    PlacesOfSize(data);
    hide Range;
    assert PlacesOf(data) <= Range(0, |image|);
    if p !in PlacesOf(data) {
      SubsetSize(PlacesOf(data) + {p}, Range(0, |image|));
      assert false;
    }
    k :| 0 <= k < |data| && data[k].0 == p;
  }

  // ---- The block ----

  /** `image` put into `mem` at `offset`. */
  function Written(mem: seq<Bits>, offset: nat, image: seq<Bits>): (r: seq<Bits>)
    requires offset + |image| <= |mem|
    ensures |r| == |mem|
  {
    mem[..offset] + image + mem[offset + |image|..]
  }

  /** Writes the entries one by one. Over a block that was filled with the first entry, those
      recognised as equal to it are left out. */
  method WriteAll(c: Layout, base: seq<Bits>, data: Data, offset: nat, filled: bool, ghost image: seq<Bits>)
    returns (mem: seq<Bits>)
    requires AreBytes(c, base) && |base| > 0 && AreEntries(c, data) && Places(data, 0, image)
    requires filled ==> data != [] && forall p :: 0 <= p < |base| ==> base[p] == data[0].1
    ensures |mem| == |base| && AreBytes(c, mem)
    ensures offset + |image| <= |base| ==> mem == Written(base, offset, image)
  {
    mem := base;
    var k := 0;
    while k < |data|
      invariant 0 <= k <= |data| && |mem| == |base| && AreBytes(c, mem)
      invariant offset + |image| <= |base| ==> Partly(mem, base, data, offset, image, k)
    {
      var same := *;
      if !(filled && same && data[k].1 == data[0].1) {
        ghost var before := mem;
        var off := Mod(offset + data[k].0, |base|);
        mem := mem[off := data[k].1];
        if offset + |image| <= |base| {
          DivModUnique(offset + data[k].0, |base|, 0, offset + data[k].0);
        }
      }
      k := k + 1;
    }
    if offset + |image| <= |base| {
      forall p | 0 <= p < |base|
        ensures mem[p] == Written(base, offset, image)[p]
      {
        if offset <= p < offset + |image| {
          var l := EveryPlace(data, image, p - offset);
        }
      }
    }
  }

  ghost predicate Partly(mem: seq<Bits>, base: seq<Bits>, data: Data, offset: nat, image: seq<Bits>, k: nat)
    requires |mem| == |base| && offset + |image| <= |base| && k <= |data| && Places(data, 0, image)
  {
    && (forall p :: 0 <= p < |mem| ==>
      mem[p] == base[p] || (offset <= p < offset + |image| && mem[p] == image[p - offset]))
    && forall l :: 0 <= l < k ==> mem[offset + data[l].0] == data[l].1
  }

  lemma {:induction false} FreshPromises(c: Layout, bytes: seq<Bits>)
    requires c.Valid() && forall p :: 0 <= p < |bytes| ==> bytes[p] == PoisonByte(c)
    ensures AreBytes(c, bytes) && Promises(c, bytes, Tag(false, false))
  {
    PoisonFields(c);
    hide IsPtr, IsPoison, IntNonpoison, PoisonByte;
    assert UsablePlaces(c, bytes) == {};
    if c.ptrs {
      PtrHasBytes(c);
    }
  }

  lemma WeakerTag(c: Layout, bytes: seq<Bits>, tag: Tag, more: Tag)
    requires AreBytes(c, bytes) && Promises(c, bytes, tag)
    ensures Promises(c, bytes, tag.Or(more)) && tag.Or(more) == more.Or(tag)
  {
  }

  /** A store of part of the block. */
  lemma {:induction false} PartialStore(c: Layout, bytes: seq<Bits>, tag: Tag, offset: nat, image: seq<Bits>,
                                        data: Data, stored: Tag)
    requires AreBytes(c, bytes) && AreBytes(c, image) && offset + |image| <= |bytes| && Promises(c, bytes, tag)
    requires Places(data, 0, image) && AreEntries(c, data)
    requires !stored.ints ==> forall k :: 0 <= k < |data| ==> IsPtr(c, data[k].1)
    requires !stored.ptrs ==> forall k ::
      0 <= k < |data| ==> !IsPtr(c, data[k].1) && IntValue(c, data[k].1) != Zeros(c.byte)
    ensures AreBytes(c, Written(bytes, offset, image)) && Promises(c, Written(bytes, offset, image), tag.Or(stored))
  {
    hide IsPtr, IsPoison, IntNonpoison, IntValue;
    var after := Written(bytes, offset, image);
    forall p | 0 <= p < |after|
      ensures IsByte(c, after[p])
      ensures !(offset <= p < offset + |image|) ==> after[p] == bytes[p]
      ensures offset <= p < offset + |image| && !stored.ints ==> IsPtr(c, after[p])
      ensures offset <= p < offset + |image| && !stored.ptrs ==> !Usable(c, after[p])
    {
      if offset <= p < offset + |image| {
        var k := EveryPlace(data, image, p - offset);
        assert after[p] == data[k].1;
      }
    }
    if !stored.ptrs {
      SubsetSize(UsablePlaces(c, after), UsablePlaces(c, bytes));
    }
  }

  /** A store of the whole block. */
  lemma {:induction false} FullStore(c: Layout, image: seq<Bits>, data: Data, stored: Tag)
    requires AreBytes(c, image) && Places(data, 0, image) && AreEntries(c, data)
    requires !stored.ints ==> forall k :: 0 <= k < |data| ==> IsPtr(c, data[k].1)
    requires !stored.ptrs ==> forall k :: 0 <= k < |data| ==> !IsPtr(c, data[k].1)
    requires !stored.ptrs ==> |ZeroPlaces(c, data)| < c.PtrBytes()
    ensures Promises(c, image, stored)
  {
    hide IsPtr, IsPoison, IntNonpoison, IntValue;
    forall p | 0 <= p < |image|
      ensures !stored.ints ==> IsPtr(c, image[p])
      ensures !stored.ptrs && Usable(c, image[p]) ==> p in ZeroPlaces(c, data)
    {
      var k := EveryPlace(data, image, p);
      assert data[k].0 == p;
    }
    if !stored.ptrs {
      SubsetSize(UsablePlaces(c, image), ZeroPlaces(c, data));
    }
  }

  /** Without the integer kind in the tag an integer load is wholly poison. */
  lemma {:induction false} NoInt(c: Layout, all: seq<Bits>, tag: Tag, bytes: seq<Bits>, bits: nat, r: StateValue)
    requires AreBytes(c, all) && Promises(c, all, tag) && !tag.ints
    requires AreBytes(c, bytes) && |bytes| == IntBytes(c, bits) && forall i :: 0 <= i < |bytes| ==> bytes[i] in all
    requires IsInt(c, r, bits) && r.np == Zeros(|r.np|)
    ensures IntReads(c, bytes, bits, r)
  {
    hide Joined, NpBits, IntBytes, IsPtr, IntNonpoison;
    EnoughBits(c, bytes, bits);
    var np := Joined(NpParts(c, bytes));
    forall i | 0 <= i < |bytes|
      ensures IsPtr(c, bytes[i]) || IntNonpoison(c, bytes[i]) == Zeros(c.poison)
    {
      var p :| 0 <= p < |all| && all[p] == bytes[i];
    }
    NoIntInPtrs(c, bytes, np);
    assert r.np == np[..|r.np|];
  }

  /** Without the pointer kind in the tag a pointer load is poison. */
  lemma {:induction false} NoPtr(c: Layout, all: seq<Bits>, tag: Tag, offset: nat, bytes: seq<Bits>, little: bool,
                                 r: PtrLoad)
    requires AreBytes(c, all) && Promises(c, all, tag) && !tag.ptrs && c.ptrs
    requires offset + c.PtrBytes() <= |all| && bytes == Ordered(Sub(all, offset, c.PtrBytes()), little)
    requires AreBytes(c, bytes) && |r.value| == c.encoded && !r.np
    ensures ReadsAs(c, bytes, r)
  {
    hide IsPtr, IsPoison, IntNonpoison, IntValue, PtrValue, PtrIndex;
    var n := c.PtrBytes();
    var p := NotUsable(c, all, offset, n);
    var i := if little then p - offset else n - 1 - (p - offset);
    PtrHasBytes(c);
    assert bytes[i] == all[p];
  }

  lemma {:induction false} NotUsable(c: Layout, all: seq<Bits>, offset: nat, n: nat) returns (p: nat)
    requires AreBytes(c, all) && offset + n <= |all| && |UsablePlaces(c, all)| < n
    ensures offset <= p < offset + n && !Usable(c, all[p])
  {
    hide Usable;
    if forall p :: offset <= p < offset + n ==> Usable(c, all[p]) {
      hide Range;
      SubsetSize(Range(offset, n), UsablePlaces(c, all));
    }
    p :| offset <= p < offset + n && !Usable(c, all[p]);
  }

  lemma PoisonReads(c: Layout, bytes: seq<Bits>)
    requires c.Valid() && forall i :: 0 <= i < |bytes| ==> bytes[i] == PoisonByte(c)
    ensures AreBytes(c, bytes)
    ensures forall r: Bits :: r <= Joined(NpParts(c, bytes)) ==> r == Zeros(|r|)
    ensures |bytes| > 0 ==> forall r :: ReadsAs(c, bytes, r) ==> !r.np
  {
    PoisonFields(c);
    hide IsPtr, IsPoison, IntNonpoison, IntValue, PoisonByte, Joined;
    forall r: Bits | r <= Joined(NpParts(c, bytes))
      ensures r == Zeros(|r|)
    {
      NoIntInPtrs(c, bytes, r);
    }
    if |bytes| > 0 {
      assert IsPoison(c, bytes[0]);
    }
  }

  class MemBlock {
    const c: Layout
    /** Bytes in the block. */
    const size: nat
    /** All offsets a pointer can have. */
    var val: seq<Bits>
    var tag: Tag

    ghost predicate Valid()
      reads this
    {
      AreBytes(c, val) && |val| > 0 && size <= |val|
    }

    ghost predicate Sound()
      requires Valid()
      reads this
    {
      Promises(c, Bytes(), tag)
    }

    constructor (c: Layout, size: nat, offsets: nat)
      requires c.Valid() && 0 < offsets && size <= offsets
      ensures Valid() && Sound() && this.c == c && this.size == size && |val| == offsets
    {
      this.c := c;
      this.size := size;
      var poison := seq(offsets, _ => PoisonByte(c));
      FreshPromises(c, poison[..size]);
      val := poison;
      tag := Tag(false, false);
    }

    /** Stores the entries if `cond` holds. Within bounds the block then holds the bytes, as if
        they were written one by one, and the tag keeps its promise. */
    method Store(data: Data, offset: nat, sizeKnown: bool, cond: bool, condKnown: bool, folds: bool,
                 ghost image: seq<Bits>)
      requires Valid() && AreEntries(c, data) && AreBytes(c, image) && Places(data, 0, image)
      requires condKnown ==> cond
      modifies this
      ensures Valid() && |val| == |old(val)|
      ensures !cond ==> val == old(val)
      ensures cond && offset + |image| <= size ==> val[..size] == Written(old(val[..size]), offset, image)
      ensures old(Sound()) && (cond ==> offset + |image| <= size) ==> Sound()
      ensures folds && data != [] && condKnown && sizeKnown && size == |data| ==> Justified(c, data, true, tag)
      ensures folds && !(sizeKnown && size == |data|) ==>
        exists t :: Justified(c, data, false, t) && tag == old(tag).Or(t)
    {
      if data == [] {
        assert Justified(c, data, false, Tag(false, false)) && old(tag).Or(Tag(false, false)) == tag;
        assert image == [];
        if offset <= size {
          assert val[..size] == Written(val[..size], offset, image);
        }
        return;
      }
      var partly := DataType(c, data, false, folds);
      var whole := DataType(c, data, true, folds);
      var full := sizeKnown && size == |data|;
      ghost var before := val[..size];
      var mem := if full then seq(|val|, _ => data[0].1) else val;
      ghost var base := mem;
      if full {
        tag := if condKnown then whole else tag.Or(whole);
      } else {
        tag := tag.Or(partly);
      }
      mem := WriteAll(c, mem, data, offset, full, image);
      if cond && offset + |image| <= size {
        WrittenPrefix(base, size, offset, image);
      }
      if cond {
        val := mem;
      }
      if cond && offset + |image| <= size {
        if full {
          assert val[..size] == image && Written(before, offset, image) == image;
        }
      }
      if old(Sound()) && (cond ==> offset + |image| <= size) {
        StoreKeepsPromise(before, old(tag), val[..size], tag, offset, image, data, full, partly, whole, cond,
                          condKnown);
      }
    }

    lemma StoreKeepsPromise(before: seq<Bits>, tag: Tag, after: seq<Bits>, tag': Tag, offset: nat, image: seq<Bits>,
                            data: Data,
      full: bool, partly: Tag, whole: Tag, cond: bool, condKnown: bool)
      requires AreBytes(c, before) && AreBytes(c, after) && AreBytes(c, image) && AreEntries(c, data) &&
        Places(data, 0, image)
      requires Promises(c, before, tag)
      requires cond ==> offset + |image| <= |before| && after == Written(before, offset, image)
      requires full ==> |data| == |before|
      requires (condKnown ==> cond) && (!cond ==> after == before)
      requires tag' == if full then (if condKnown then whole else tag.Or(whole)) else tag.Or(partly)
      requires !partly.ints ==> forall k :: 0 <= k < |data| ==> IsPtr(c, data[k].1)
      requires !partly.ptrs ==> forall k ::
        0 <= k < |data| ==> !IsPtr(c, data[k].1) && IntValue(c, data[k].1) != Zeros(c.byte)
      requires !whole.ints ==> forall k :: 0 <= k < |data| ==> IsPtr(c, data[k].1)
      requires !whole.ptrs ==> forall k :: 0 <= k < |data| ==> !IsPtr(c, data[k].1)
      requires !whole.ptrs ==> |ZeroPlaces(c, data)| < c.PtrBytes()
      ensures Promises(c, after, tag')
    {
      hide Promises, IsPtr, IntValue, ZeroPlaces;
      WeakerTag(c, before, tag, if full then whole else partly);
      if cond {
        if full {
          assert after == image;
          FullStore(c, image, data, whole);
          WeakerTag(c, image, whole, tag);
        } else {
          PartialStore(c, before, tag, offset, image, data, partly);
        }
      }
    }

    /** The bytes of the block. */
    ghost function Bytes(): (r: seq<Bits>)
      requires Valid()
      reads this
      ensures |r| == size && AreBytes(c, r)
    {
      val[..size]
    }

    predicate Has(kind: Tag)
      reads this
    {
      (tag.ints && kind.ints) || (tag.ptrs && kind.ptrs)
    }

    /** Loads `n` bytes, lowest first; poison bytes if the tag excludes the kind. */
    method LoadBytes(offset: nat, n: nat, little: bool, kind: Tag) returns (bytes: seq<Bits>)
      requires Valid()
      ensures |bytes| == n && AreBytes(c, bytes)
      ensures !Has(kind) ==> forall i :: 0 <= i < n ==> bytes[i] == PoisonByte(c)
      ensures Has(kind) && offset + n <= size ==> bytes == Ordered(Sub(Bytes(), offset, n), little)
    {
      bytes := [];
      var i := 0;
      while i < n
        invariant 0 <= i <= n && |bytes| == i && AreBytes(c, bytes)
        invariant !Has(kind) ==> forall j :: 0 <= j < i ==> bytes[j] == PoisonByte(c)
        invariant Has(kind) && offset + n <= size ==> forall j :: 0 <= j < i ==>
          bytes[j] == val[offset + if little then j else n - j - 1]
      {
        var idx := if little then i else n - i - 1;
        if offset + n <= size {
          DivModUnique(offset + idx, |val|, 0, offset + idx);
        }
        bytes := bytes + [if Has(kind) then val[Mod(offset + idx, |val|)] else PoisonByte(c)];
        i := i + 1;
      }
      if Has(kind) && offset + n <= size {
        ReadInOrder(Sub(Bytes(), offset, n), bytes, little);
      }
    }

    method LoadInt(bits: nat, offset: nat, little: bool) returns (r: Value)
      requires Valid()
      ensures Loads(c, Bytes(), tag, IntTy(bits), offset, little, r)
    {
      hide Joined, IntBytes, NpBits, Promises, IntValue, AsIntNonpoison, Ordered, Sub, PoisonByte, Bytes;
      var bytes := LoadBytes(offset, IntBytes(c, bits), little, Tag(true, false));
      var v := BytesToInt(c, bytes, bits);
      r := IntV(v, StateValue([], []));
      IntLoaded(c, Bytes(), tag, bits, offset, little, bytes, v);
    }

    method LoadPtr(offset: nat, little: bool, extracts: bool) returns (r: Value)
      requires Valid() && c.ptrs
      ensures Loads(c, Bytes(), tag, PtrTy, offset, little, r)
    {
      hide Promises, Ordered, Sub, PoisonByte, Bytes, ReadsAs;
      var bytes := LoadBytes(offset, c.PtrBytes(), little, Tag(false, true));
      var p := BytesToPtr(c, bytes, extracts);
      r := PtrV(p);
      PtrLoaded(c, Bytes(), tag, offset, little, bytes, p);
    }

    /** Loads a value of type `t`. Whatever the tag excludes, a load within bounds reads what
        the bytes of the block hold. */
    method Load(t: Type, offset: nat, little: bool, extracts: bool) returns (r: Value)
      requires Valid() && Covered(c, t)
      ensures Loads(c, Bytes(), tag, t, offset, little, r)
      decreases t, 1
    {
      hide Loads;
      match t {
        case IntTy(bits) =>
          r := LoadInt(bits, offset, little);
        case PtrTy =>
          r := LoadPtr(offset, little, extracts);
        case AggTy(fields) =>
          r := LoadAggregate(t, offset, little, extracts);
      }
    }

    method LoadAggregate(t: Type, offset: nat, little: bool, extracts: bool) returns (r: Value)
      requires Valid() && Covered(c, t) && t.AggTy?
      ensures Loads(c, Bytes(), tag, t, offset, little, r)
      decreases t, 0
    {
      var members := [];
      var byteofs := 0;
      var i := 0;
      assert Start(c, t, 0) == 0;
      hide Loads, Size, Bytes;
      while i < |t.fields|
        invariant 0 <= i <= |t.fields| && byteofs == Start(c, t, i) && |members| == i
        invariant forall j :: 0 <= j < i ==> FieldLoads(c, Bytes(), tag, t, offset, little, j, members[j])
      {
        var field := t.fields[i];
        var m := AggV([]);
        if !field.padding {
          m := Load(field.ty, offset + byteofs, little, extracts);
        }
        members := members + [m];
        byteofs := byteofs + Size(c, field.ty);
        i := i + 1;
      }
      r := AggV(members);
      AggregateLoaded(c, Bytes(), tag, t, offset, little, members);
    }
  }

  // ---- Loads ----

  function Sub(all: seq<Bits>, offset: nat, n: nat): (r: seq<Bits>)
    requires offset + n <= |all|
    ensures |r| == n
  {
    all[offset..offset + n]
  }

  lemma SubBytes(c: Layout, all: seq<Bits>, offset: nat, n: nat, little: bool)
    requires AreBytes(c, all) && offset + n <= |all|
    ensures AreBytes(c, Sub(all, offset, n)) && AreBytes(c, Ordered(Sub(all, offset, n), little))
  {
    InBlock(all, offset, n, little);
  }

  /** A load within bounds from a block whose tag is right reads what the bytes hold. */
  ghost predicate Loads(c: Layout, all: seq<Bits>, tag: Tag, t: Type, offset: nat, little: bool, r: Value)
    requires AreBytes(c, all)
  {
    Promises(c, all, tag) && offset + Size(c, t) <= |all| ==>
      && AreBytes(c, Sub(all, offset, Size(c, t)))
      && TypedReads(c, t, Sub(all, offset, Size(c, t)), little, r)
  }

  ghost predicate FieldLoads(c: Layout, all: seq<Bits>, tag: Tag, t: Type, offset: nat, little: bool, i: nat, m: Value)
    requires AreBytes(c, all) && t.AggTy? && i < |t.fields|
  {
    t.fields[i].padding || Loads(c, all, tag, t.fields[i].ty, offset + Start(c, t, i), little, m)
  }

  lemma IntLoaded(c: Layout, all: seq<Bits>, tag: Tag, bits: nat, offset: nat, little: bool, bytes: seq<Bits>,
                  v: StateValue)
    requires AreBytes(c, all) && AreBytes(c, bytes) && |bytes| == IntBytes(c, bits) && IsInt(c, v, bits)
    requires v.value <= Joined(IntParts(c, bytes)) && v.np <= Joined(NpParts(c, bytes))
    requires !tag.ints ==> forall i :: 0 <= i < |bytes| ==> bytes[i] == PoisonByte(c)
    requires tag.ints && offset + |bytes| <= |all| ==> bytes == Ordered(Sub(all, offset, |bytes|), little)
    ensures Loads(c, all, tag, IntTy(bits), offset, little, IntV(v, StateValue([], [])))
  {
    hide Joined, IntBytes, NpBits, Promises, Ordered, Sub, PoisonByte, IntReads;
    var n := |bytes|;
    if Promises(c, all, tag) && offset + n <= |all| {
      SubBytes(c, all, offset, n, little);
      var held := Ordered(Sub(all, offset, n), little);
      if tag.ints {
        ReadWhole(c, bytes, bits, v);
      } else {
        PoisonReads(c, bytes);
        InBlock(all, offset, n, little);
        NoInt(c, all, tag, held, bits, v);
      }
    }
  }

  lemma ReadWhole(c: Layout, bytes: seq<Bits>, bits: nat, v: StateValue)
    requires AreBytes(c, bytes) && IsInt(c, v, bits)
    requires v.value <= Joined(IntParts(c, bytes)) && v.np <= Joined(NpParts(c, bytes))
    ensures IntReads(c, bytes, bits, v)
  {
  }

  lemma PtrLoaded(c: Layout, all: seq<Bits>, tag: Tag, offset: nat, little: bool, bytes: seq<Bits>, p: PtrLoad)
    requires AreBytes(c, all) && AreBytes(c, bytes) && |bytes| == c.PtrBytes() && c.ptrs && ReadsAs(c, bytes, p)
    requires !tag.ptrs ==> forall i :: 0 <= i < |bytes| ==> bytes[i] == PoisonByte(c)
    requires tag.ptrs && offset + |bytes| <= |all| ==> bytes == Ordered(Sub(all, offset, |bytes|), little)
    ensures Loads(c, all, tag, PtrTy, offset, little, PtrV(p))
  {
    var n := |bytes|;
    assert |p.value| == c.encoded;
    hide Promises, Ordered, PoisonByte, ReadsAs, Sub;
    if Promises(c, all, tag) && offset + n <= |all| {
      SubBytes(c, all, offset, n, little);
      if !tag.ptrs {
        PtrHasBytes(c);
        PoisonReads(c, bytes);
        NoPtr(c, all, tag, offset, Ordered(Sub(all, offset, n), little), little, p);
      }
    }
  }

  lemma {:induction false} AggregateLoaded(c: Layout, all: seq<Bits>, tag: Tag, t: Type, offset: nat, little: bool,
                                           members: seq<Value>)
    requires AreBytes(c, all) && t.AggTy? && |members| == |t.fields|
    requires forall i :: 0 <= i < |members| ==> FieldLoads(c, all, tag, t, offset, little, i, members[i])
    ensures Loads(c, all, tag, t, offset, little, AggV(members))
  {
    var n := Size(c, t);
    if Promises(c, all, tag) && offset + n <= |all| {
      SubBytes(c, all, offset, n, little);
      var bytes := Sub(all, offset, n);
      forall i | 0 <= i < |members| && !t.fields[i].padding
        ensures TypedReads(c, t.fields[i].ty, FieldBytes(c, t, bytes, i), little, members[i])
      {
        FieldLoaded(c, all, tag, t, offset, little, i, members[i]);
      }
    }
  }

  lemma FieldLoaded(c: Layout, all: seq<Bits>, tag: Tag, t: Type, offset: nat, little: bool, i: nat, m: Value)
    requires AreBytes(c, all) && t.AggTy? && i < |t.fields| && !t.fields[i].padding && Promises(c, all, tag)
    requires offset + Size(c, t) <= |all| && FieldLoads(c, all, tag, t, offset, little, i, m)
    ensures AreBytes(c, FieldBytes(c, t, Sub(all, offset, Size(c, t)), i))
    ensures TypedReads(c, t.fields[i].ty, FieldBytes(c, t, Sub(all, offset, Size(c, t)), i), little, m)
  {
    hide TypedReads, Promises, Size;
    FieldInside(c, t, i);
    SubBytes(c, all, offset, Size(c, t), little);
    var lo, n := Start(c, t, i), Size(c, t.fields[i].ty);
    SubSub(all, offset, Size(c, t), lo, n);
  }

  lemma SubSub(all: seq<Bits>, offset: nat, n: nat, from: nat, m: nat)
    requires offset + n <= |all| && from + m <= n
    ensures Sub(all, offset, n)[from..from + m] == Sub(all, offset + from, m)
  {
    var a, b := Sub(all, offset, n)[from..from + m], Sub(all, offset + from, m);
    forall i | 0 <= i < m
      ensures a[i] == b[i]
    {
      assert a[i] == Sub(all, offset, n)[from + i] == all[offset + (from + i)];
    }
  }

  lemma InBlock(all: seq<Bits>, offset: nat, n: nat, little: bool)
    requires offset + n <= |all|
    ensures var held := Ordered(Sub(all, offset, n), little); forall i :: 0 <= i < n ==> held[i] in all
  {
    var held := Ordered(Sub(all, offset, n), little);
    forall i | 0 <= i < n
      ensures held[i] in all
    {
      var p := offset + if little then i else n - 1 - i;
      assert held[i] == all[p];
    }
  }

  lemma ReadInOrder(slice: seq<Bits>, bytes: seq<Bits>, little: bool)
    requires |bytes| == |slice|
    requires forall j :: 0 <= j < |bytes| ==> bytes[j] == slice[if little then j else |bytes| - j - 1]
    ensures bytes == Ordered(slice, little)
  {
  }

  lemma WrittenPrefix(base: seq<Bits>, size: nat, offset: nat, image: seq<Bits>)
    requires offset + |image| <= size <= |base|
    ensures Written(base, offset, image)[..size] == Written(base[..size], offset, image)
  {
  }

  lemma WrittenSub(base: seq<Bits>, offset: nat, image: seq<Bits>)
    requires offset + |image| <= |base|
    ensures Sub(Written(base, offset, image), offset, |image|) == image
  {
  }

  /** A value of any nested type stored into a block and loaded from it again is the same,
      whatever was stored into the block before. */
  method StoreAndLoad(b: MemBlock, t: Type, v: Value, offset: nat, little: bool, sizeKnown: bool, extracts: bool)
    returns (r: Value)
    requires b.Valid() && b.Sound() && Covered(b.c, t) && Fits(b.c, t, v) && offset + Size(b.c, t) <= b.size
    modifies b
    ensures b.Valid() && b.Sound() && Same(t, v, r)
  {
    var data := Collect(b.c, t, v, 0, little);
    ghost var image := Image(b.c, t, v, little);
    ImageBytes(b.c, t, v, little);
    EntriesBytes(b.c, data, 0, image);
    ghost var before := b.Bytes();
    hide Image, Places, Promises, TypedReads, Same, Fits, Covered, Size, Written;
    var folds := *;
    b.Store(data, offset, sizeKnown, true, true, folds, image);
    WrittenSub(before, offset, image);
    r := b.Load(t, offset, little, extracts);
    StoreThenLoad(b.c, t, v, little, r);
  }

  lemma EntriesBytes(c: Layout, data: Data, from: nat, image: seq<Bits>)
    requires AreBytes(c, image) && Places(data, from, image)
    ensures AreEntries(c, data)
  {
  }
}

/** Values of nested types in memory: the bytes a store writes and the value a load reads. */
module MemTypes {
  import opened Bits
  import opened Lanes
  import opened MemBytes

  /** Vectors of integers are stored as integers. */
  datatype Type = IntTy(bits: nat) | PtrTy | AggTy(fields: seq<Field>)

  datatype Field = Field(ty: Type, padding: bool)

  /** A value to store, each integer with the bits that fill up its last byte. */
  datatype Value = IntV(v: StateValue, pad: StateValue) | PtrV(p: PtrLoad) | AggV(members: seq<Value>)

  // ---- Sizes ----

  /** The number of bytes of a type. */
  function Size(c: Layout, t: Type): nat
    requires c.Valid()
    decreases t, 1, 0
  {
    match t
    case IntTy(bits) => IntBytes(c, bits)
    case PtrTy => c.PtrBytes()
    case AggTy(fields) => Start(c, t, |fields|)
  }

  /** Where field `i` starts. */
  function Start(c: Layout, t: Type, i: nat): nat
    requires c.Valid() && t.AggTy? && i <= |t.fields|
    decreases t, 0, i
  {
    if i == 0 then 0 else Start(c, t, i - 1) + Size(c, t.fields[i - 1].ty)
  }

  lemma {:induction false} StartMonotone(c: Layout, t: Type, i: nat, j: nat)
    requires c.Valid() && t.AggTy? && i <= j <= |t.fields|
    ensures Start(c, t, i) <= Start(c, t, j)
    decreases j
  {
    if i < j {
      StartMonotone(c, t, i, j - 1);
    }
  }

  lemma FieldInside(c: Layout, t: Type, i: nat)
    requires c.Valid() && t.AggTy? && i < |t.fields|
    ensures Start(c, t, i) + Size(c, t.fields[i].ty) <= Size(c, t)
  {
    StartMonotone(c, t, i + 1, |t.fields|);
    assert Start(c, t, i + 1) == Start(c, t, i) + Size(c, t.fields[i].ty);
  }

  // ---- What a store writes ----

  predicate Fits(c: Layout, t: Type, v: Value)
    requires c.Valid()
    decreases t
  {
    match t
    case IntTy(bits) => v.IntV? && IsInt(c, v.v, bits) && IsPadding(c, v.pad, bits)
    case PtrTy => v.PtrV? && |v.p.value| == c.encoded
    case AggTy(fields) =>
      v.AggV? && |v.members| == |fields| && forall i :: 0 <= i < |fields| ==> Fits(c, fields[i].ty, v.members[i])
  }

  /** Bytes in the order of their addresses. */
  function Ordered(bytes: seq<Bits>, little: bool): (r: seq<Bits>)
    ensures |r| == |bytes|
    ensures forall i :: 0 <= i < |bytes| ==> r[if little then i else |bytes| - 1 - i] == bytes[i]
  {
    if little then bytes else seq(|bytes|, i requires 0 <= i < |bytes| => bytes[|bytes| - 1 - i])
  }

  lemma OrderedTwice(bytes: seq<Bits>, little: bool)
    ensures Ordered(Ordered(bytes, little), little) == bytes
  {
  }

  /** The bytes of a value. */
  ghost function Image(c: Layout, t: Type, v: Value, little: bool): (r: seq<Bits>)
    requires c.Valid() && Fits(c, t, v)
    ensures |r| == Size(c, t)
    decreases t, 1, 0
  {
    match t
    case IntTy(bits) => Ordered(BytesOf(c, v.v, v.pad, bits), little)
    case PtrTy => Ordered(BytesOfPtr(c, v.p), little)
    case AggTy(fields) => ImageUpTo(c, t, v, little, |fields|)
  }

  /** The byte with digit `i` of a stored integer is byte `i` of the block on a little-endian target,
      and the `i`-th from the end on others. */
  lemma {:induction false} StoredDigit(c: Layout, v: Value, bits: nat, little: bool, i: nat)
    requires c.Valid() && c.ints && Fits(c, IntTy(bits), v) && i < IntBytes(c, bits) && i * c.byte + c.byte <= bits
    ensures var image := Image(c, IntTy(bits), v, little);
      var b := image[if little then i else |image| - 1 - i];
      IsByte(c, b) && !IsPtr(c, b) && ToNat(IntValue(c, b)) == Digit(ToNat(v.v.value), i * c.byte, c.byte)
  {
    hide ToNat, Digit, IsPtr, IntValue, BytesOf;
    ByteValue(c, v.v, v.pad, bits, i);
  }

  /** The bytes of the first `i` fields. */
  ghost function ImageUpTo(c: Layout, t: Type, v: Value, little: bool, i: nat): (r: seq<Bits>)
    requires c.Valid() && t.AggTy? && Fits(c, t, v) && i <= |t.fields|
    ensures |r| == Start(c, t, i)
    decreases t, 0, i
  {
    if i == 0 then [] else ImageUpTo(c, t, v, little, i - 1) + Image(c, t.fields[i - 1].ty, v.members[i - 1], little)
  }

  /** A field's bytes lie where the field starts. */
  lemma {:induction false} ImageField(c: Layout, t: Type, v: Value, little: bool, i: nat, k: nat)
    requires c.Valid() && t.AggTy? && Fits(c, t, v) && i < k <= |t.fields|
    ensures var lo := Start(c, t, i);
      && lo + Size(c, t.fields[i].ty) <= Start(c, t, k)
      && ImageUpTo(c, t, v, little, k)[lo..lo + Size(c, t.fields[i].ty)] ==
        Image(c, t.fields[i].ty, v.members[i], little)
    decreases k
  {
    hide Fits, Image, Size;
    if i + 1 < k {
      ImageField(c, t, v, little, i, k - 1);
    }
  }

  // ---- What a load reads ----

  /** The integer in some bytes; its value does not matter where it is wholly poison. */
  ghost predicate IntReads(c: Layout, bytes: seq<Bits>, bits: nat, v: StateValue)
    requires AreBytes(c, bytes)
  {
    && IsInt(c, v, bits) && v.np <= Joined(NpParts(c, bytes))
    && (v.np == Zeros(|v.np|) || v.value <= Joined(IntParts(c, bytes)))
  }

  /** `r` is the value of type `t` in some bytes. */
  ghost predicate TypedReads(c: Layout, t: Type, bytes: seq<Bits>, little: bool, r: Value)
    requires AreBytes(c, bytes) && |bytes| == Size(c, t)
    decreases t
  {
    match t
    case IntTy(bits) => r.IntV? && IntReads(c, Ordered(bytes, little), bits, r.v)
    case PtrTy => r.PtrV? && ReadsAs(c, Ordered(bytes, little), r.p)
    case AggTy(fields) =>
      && r.AggV? && |r.members| == |fields|
      && forall i :: 0 <= i < |fields| ==>
        fields[i].padding || TypedReads(c, fields[i].ty, FieldBytes(c, t, bytes, i), little, r.members[i])
  }

  function FieldBytes(c: Layout, t: Type, bytes: seq<Bits>, i: nat): (r: seq<Bits>)
    requires c.Valid() && t.AggTy? && i < |t.fields| && |bytes| == Size(c, t)
    ensures |r| == Size(c, t.fields[i].ty) && (AreBytes(c, bytes) ==> AreBytes(c, r))
  {
    FieldInside(c, t, i);
    bytes[Start(c, t, i)..Start(c, t, i) + Size(c, t.fields[i].ty)]
  }

  // ---- Loading what was stored ----

  /** The program has accesses of the kinds that the type needs. */
  predicate Covered(c: Layout, t: Type)
    decreases t
  {
    match t
    case IntTy(_) => c.ints
    case PtrTy => c.ptrs
    case AggTy(fields) => forall i :: 0 <= i < |fields| ==> Covered(c, fields[i].ty)
  }

  /** The same value, up to padding and up to the contents of poison. */
  predicate Same(t: Type, v: Value, r: Value)
    decreases t
  {
    match t
    case IntTy(_) => v.IntV? && r.IntV? && r.v.np == v.v.np && (v.v.np == Zeros(|v.v.np|) || r.v.value == v.v.value)
    case PtrTy => v.PtrV? && r.PtrV? && r.p.np == v.p.np && (v.p.np ==> r.p == v.p)
    case AggTy(fields) =>
      && v.AggV? && r.AggV? && |v.members| == |r.members| == |fields|
      && forall i :: 0 <= i < |fields| ==> fields[i].padding || Same(fields[i].ty, v.members[i], r.members[i])
  }

  lemma {:induction false} ImageBytes(c: Layout, t: Type, v: Value, little: bool)
    requires c.Valid() && Fits(c, t, v)
    ensures AreBytes(c, Image(c, t, v, little))
    decreases t, |if t.AggTy? then t.fields else []| + 1
  {
    match t
    case IntTy(bits) =>
    case PtrTy =>
    case AggTy(fields) => ImageUpToBytes(c, t, v, little, |fields|);
  }

  lemma {:induction false} ImageUpToBytes(c: Layout, t: Type, v: Value, little: bool, i: nat)
    requires c.Valid() && t.AggTy? && Fits(c, t, v) && i <= |t.fields|
    ensures AreBytes(c, ImageUpTo(c, t, v, little, i))
    decreases t, i
  {
    hide Image, Size;
    if i > 0 {
      ImageUpToBytes(c, t, v, little, i - 1);
      ImageBytes(c, t.fields[i - 1].ty, v.members[i - 1], little);
    }
  }

  /** Storing a value of any nested type and loading it gives it back, on both kinds of
      target. */
  lemma {:induction false} StoreThenLoad(c: Layout, t: Type, v: Value, little: bool, r: Value)
    requires c.Valid() && Fits(c, t, v) && Covered(c, t)
    requires AreBytes(c, Image(c, t, v, little)) && TypedReads(c, t, Image(c, t, v, little), little, r)
    ensures Same(t, v, r)
    decreases t
  {
    match t
    case IntTy(bits) =>
      OrderedTwice(BytesOf(c, v.v, v.pad, bits), little);
      IntBack(c, v.v, v.pad, bits, r.v);
    case PtrTy =>
      OrderedTwice(BytesOfPtr(c, v.p), little);
      LoadedPtr(c, v.p, r.p);
    case AggTy(fields) =>
      forall i | 0 <= i < |fields| && !fields[i].padding
        ensures Same(fields[i].ty, v.members[i], r.members[i])
      {
        StoreThenLoadField(c, t, v, little, r, i);
      }
  }

  lemma {:induction false} StoreThenLoadField(c: Layout, t: Type, v: Value, little: bool, r: Value, i: nat)
    requires c.Valid() && Fits(c, t, v) && Covered(c, t) && t.AggTy? && i < |t.fields| && !t.fields[i].padding
    requires AreBytes(c, Image(c, t, v, little)) && TypedReads(c, t, Image(c, t, v, little), little, r)
    ensures Same(t.fields[i].ty, v.members[i], r.members[i])
    decreases t, 0
  {
    ImageField(c, t, v, little, i, |t.fields|);
    var ty := t.fields[i].ty;
    assert FieldBytes(c, t, Image(c, t, v, little), i) == Image(c, ty, v.members[i], little);
    ImageBytes(c, ty, v.members[i], little);
    StoreThenLoad(c, ty, v.members[i], little, r.members[i]);
  }

  lemma IntBack(c: Layout, v: StateValue, pad: StateValue, bits: nat, r: StateValue)
    requires IsInt(c, v, bits) && IsPadding(c, pad, bits) && c.ints
    requires IntReads(c, BytesOf(c, v, pad, bits), bits, r)
    ensures r.np == v.np && (v.np == Zeros(|v.np|) || r.value == v.value)
  {
    hide BytesOf, Joined, NpBits;
    var bytes := BytesOf(c, v, pad, bits);
    EnoughBits(c, bytes, bits);
    var whole := StateValue(Joined(IntParts(c, bytes))[..bits], r.np);
    LoadedInt(c, v, pad, bits, whole);
    if v.np != Zeros(|v.np|) {
      assert r.value == whole.value;
    }
  }
}

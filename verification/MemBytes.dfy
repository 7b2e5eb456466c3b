/** The bytes of memory: one bit-vector holds either a slice of an integer with its poison
    bits, or a pointer and which of its bytes this is. */
module MemBytes {
  import opened Bits
  import opened Lanes

  /** What the byte layout depends on: the kinds of access in the program, the bits of a byte,
      the poison bits of a byte, the bits of a pointer in the program and in the encoding. */
  datatype Layout = Layout(ints: bool, ptrs: bool, byte: nat, poison: nat, program: nat, encoded: nat) {
    predicate Valid() {
      && byte >= 8 && 1 <= poison <= byte && encoded > 0
      && (ptrs ==> byte <= program <= 64 && program % byte == 0)
    }

    /** Bits for the index of a byte in its pointer. */
    function IndexBits(): nat {
      if byte < program then 3 else 0
    }

    function KindBits(): nat {
      if ints && ptrs then 1 else 0
    }

    function PtrBits(): nat {
      if ptrs then 1 + encoded + IndexBits() else 0
    }

    function IntBits(): nat {
      if ints then byte + poison else 0
    }

    function ByteBits(): nat {
      var n := KindBits() + if PtrBits() < IntBits() then IntBits() else PtrBits();
      if n < 1 then 1 else n
    }

    function PtrPadding(): nat
      requires ptrs
    {
      ByteBits() - (if ints then 1 else 0) - 1 - encoded - IndexBits()
    }

    function IntPadding(): nat
      requires ints
    {
      ByteBits() - (if ptrs then 1 else 0) - byte - poison
    }

    /** The number of bytes of a pointer. */
    function PtrBytes(): nat
      requires byte > 0
    {
      program / byte
    }
  }

  // ---- Making bytes ----

  /** Byte `i` of a pointer. */
  function PtrByte(c: Layout, value: Bits, np: bool, i: nat): (b: Bits)
    requires c.Valid() && |value| == c.encoded
    ensures |b| == c.ByteBits()
  {
    if !c.ptrs then Zeros(c.ByteBits())
    else Zeros(c.PtrPadding()) + FromNat(i, c.IndexBits()) + value + [np] + Fill(true, c.KindBits())
  }

  function IntByte(c: Layout, value: Bits, np: Bits): (b: Bits)
    requires c.Valid() && |value| == c.byte && |np| == c.poison
    ensures |b| == c.ByteBits()
  {
    if !c.ints then Zeros(c.ByteBits())
    else Zeros(c.IntPadding()) + value + np + Fill(false, c.KindBits())
  }

  function PoisonByte(c: Layout): (b: Bits)
    requires c.Valid()
    ensures |b| == c.ByteBits()
  {
    IntByte(c, Zeros(c.byte), Zeros(c.poison))
  }

  // ---- Reading bytes ----

  predicate IsByte(c: Layout, b: Bits) {
    c.Valid() && |b| == c.ByteBits()
  }

  predicate IsPtr(c: Layout, b: Bits)
    requires IsByte(c, b)
  {
    c.ptrs && (!c.ints || b[|b| - 1])
  }

  predicate PtrNonpoison(c: Layout, b: Bits)
    requires IsByte(c, b)
  {
    !c.ptrs || b[|b| - 1 - c.KindBits()]
  }

  function PtrValue(c: Layout, b: Bits): (r: Bits)
    requires IsByte(c, b)
    ensures |r| == c.encoded
  {
    if !c.ptrs then Zeros(c.encoded)
    else
      var start := c.IndexBits() + c.PtrPadding();
      b[start..start + c.encoded]
  }

  function PtrIndex(c: Layout, b: Bits): nat
    requires IsByte(c, b)
  {
    if !c.ptrs || c.IndexBits() == 0 then 0
    else ToNat(b[c.PtrPadding()..c.PtrPadding() + c.IndexBits()])
  }

  function IntNonpoison(c: Layout, b: Bits): (r: Bits)
    requires IsByte(c, b)
    ensures |r| == c.poison
  {
    if !c.ints then Zeros(c.poison)
    else
      var start := c.IntPadding() + c.byte;
      b[start..start + c.poison]
  }

  function IntValue(c: Layout, b: Bits): (r: Bits)
    requires IsByte(c, b)
    ensures |r| == c.byte
  {
    if !c.ints then Zeros(c.byte)
    else b[c.IntPadding()..c.IntPadding() + c.byte]
  }

  /** With one poison bit per byte, integers and pointers keep it in the same place. */
  predicate IsPoison(c: Layout, b: Bits)
    requires IsByte(c, b)
  {
    if c.ints && c.ptrs && c.poison == 1 then IntNonpoison(c, b) == Zeros(1)
    else if IsPtr(c, b) then !PtrNonpoison(c, b)
    else IntNonpoison(c, b) != Ones(c.poison)
  }

  lemma PoisonBitShared(c: Layout, b: Bits)
    requires IsByte(c, b)
    ensures IsPoison(c, b) == if IsPtr(c, b) then !PtrNonpoison(c, b) else IntNonpoison(c, b) != Ones(c.poison)
  {
    if c.ints && c.ptrs && c.poison == 1 {
      var np := IntNonpoison(c, b);
      var bit := b[|b| - 2];
      assert np == [bit] && Zeros(1) == [false] && Ones(1) == [true];
      assert (np == Zeros(1)) == !bit && (np != Ones(1)) == !bit;
      assert PtrNonpoison(c, b) == bit;
    }
  }

  /** Reading back what was put into the byte of a pointer. */
  lemma PtrFields(c: Layout, value: Bits, np: bool, i: nat)
    requires c.Valid() && c.ptrs && |value| == c.encoded && i < c.PtrBytes()
    ensures var b := PtrByte(c, value, np, i);
      && IsPtr(c, b) && PtrNonpoison(c, b) == np && PtrValue(c, b) == value && PtrIndex(c, b) == i
      && IsPoison(c, b) == !np
  {
    PtrIndexBack(c, value, np, i);
    PtrValueBack(c, value, np, i);
    var b := PtrByte(c, value, np, i);
    PoisonBitShared(c, b);
    hide FromNat, IsPoison, PtrValue, PtrIndex;
  }

  lemma PtrIndexBack(c: Layout, value: Bits, np: bool, i: nat)
    requires c.Valid() && c.ptrs && |value| == c.encoded && i < c.PtrBytes()
    ensures PtrIndex(c, PtrByte(c, value, np, i)) == i
  {
    IndexFits(c, i);
    ToFromNat(i, c.IndexBits());
    hide FromNat, ToNat, Pow2;
    var low, index, high := Zeros(c.PtrPadding()), FromNat(i, c.IndexBits()), value + [np] + Fill(true, c.KindBits());
    Field(low, index, high);
    assert PtrByte(c, value, np, i) == low + index + high;
    if c.IndexBits() == 0 {
      PowZero();
    }
  }

  lemma PowZero()
    ensures Pow2(0) == 1
  {
  }

  lemma PtrValueBack(c: Layout, value: Bits, np: bool, i: nat)
    requires c.Valid() && c.ptrs && |value| == c.encoded
    ensures PtrValue(c, PtrByte(c, value, np, i)) == value
  {
    hide FromNat;
    var low, high := Zeros(c.PtrPadding()) + FromNat(i, c.IndexBits()), [np] + Fill(true, c.KindBits());
    Field(low, value, high);
    assert PtrByte(c, value, np, i) == low + value + high;
  }

  lemma Field(low: Bits, x: Bits, high: Bits)
    ensures (low + x + high)[|low|..|low| + |x|] == x
  {
  }

  lemma IndexFits(c: Layout, i: nat)
    requires c.Valid() && c.ptrs && i < c.PtrBytes()
    ensures i < Pow2(c.IndexBits())
  {
    var q := c.PtrBytes();
    assert c.program == c.byte * q;
    assert Pow2(3) == 8 by { assert Pow2(1) == 2 && Pow2(2) == 4; }
    if c.byte < c.program {
      if q > 8 {
        MulMonotone(c.byte, 9, q);
      }
    } else {
      DivModUnique(c.program, c.byte, 1, 0);
    }
  }

  /** Reading back what was put into the byte of an integer. */
  lemma IntFields(c: Layout, value: Bits, np: Bits)
    requires c.Valid() && c.ints && |value| == c.byte && |np| == c.poison
    ensures var b := IntByte(c, value, np);
      && !IsPtr(c, b) && IntNonpoison(c, b) == np && IntValue(c, b) == value
      && IsPoison(c, b) == (np != Ones(c.poison))
  {
    var b := IntByte(c, value, np);
    PoisonBitShared(c, b);
    assert IntNonpoison(c, b) == np;
    assert IntValue(c, b) == value;
  }

  lemma PoisonFields(c: Layout)
    requires c.Valid()
    ensures IsPoison(c, PoisonByte(c)) && IntNonpoison(c, PoisonByte(c)) == Zeros(c.poison)
    ensures IsPtr(c, PoisonByte(c)) == (c.ptrs && !c.ints)
  {
    var b := PoisonByte(c);
    PoisonBitShared(c, b);
    if c.ints {
      IntFields(c, Zeros(c.byte), Zeros(c.poison));
      assert Zeros(c.poison)[0] != Ones(c.poison)[0];
    } else {
      assert Zeros(c.poison)[0] != Ones(c.poison)[0];
    }
  }

  // ---- Integers ----

  /** The parts one above the other, the first lowest. */
  function Joined(parts: seq<Bits>): Bits {
    if parts == [] then [] else Joined(parts[..|parts| - 1]) + parts[|parts| - 1]
  }

  /** Slice `i` of width `w`. */
  function Slice(v: Bits, w: nat, i: nat): (r: Bits)
    requires i * w + w <= |v|
    ensures |r| == w
  {
    v[i * w..i * w + w]
  }

  lemma SliceIn(w: nat, k: nat, i: nat)
    requires i < k
    ensures i * w + w <= k * w
  {
    LaneBounds(w, k, i);
  }

  function Slices(v: Bits, w: nat, k: nat): (r: seq<Bits>)
    requires k * w <= |v|
    ensures |r| == k
  {
    seq(k, i requires 0 <= i < k => SliceIn(w, k, i); Slice(v, w, i))
  }

  /** Cutting up and joining gives the bits back. */
  lemma {:induction false} JoinSlices(v: Bits, w: nat, k: nat)
    requires k * w <= |v|
    ensures Joined(Slices(v, w, k)) == v[..k * w]
    decreases k
  {
    if k == 0 {
      assert v[..0] == [];
    } else {
      assert k * w == (k - 1) * w + w;
      JoinSlices(v, w, k - 1);
      var parts := Slices(v, w, k);
      assert parts[..k - 1] == Slices(v, w, k - 1);
      assert parts[k - 1] == v[(k - 1) * w..k * w];
    }
  }

  /** The number of bytes of an integer. */
  function IntBytes(c: Layout, bits: nat): nat
    requires c.byte > 0
  {
    DivideUp(bits, c.byte)
  }

  lemma IntBytesCover(c: Layout, bits: nat)
    requires c.Valid()
    ensures bits <= IntBytes(c, bits) * c.byte < bits + c.byte
  {
    var n, d := bits + c.byte - 1, c.byte;
    var q := n / d;
    assert n == d * q + n % d && q * d == d * q;
  }

  function Padding(c: Layout, bits: nat): nat
    requires c.Valid()
  {
    IntBytesCover(c, bits);
    IntBytes(c, bits) * c.byte - bits
  }

  /** A value of `bits` bits with its poison bits. */
  predicate IsInt(c: Layout, v: StateValue, bits: nat) {
    c.Valid() && |v.value| == bits && |v.np| == NpBits(bits, c.poison, c.byte)
  }

  predicate IsPadding(c: Layout, pad: StateValue, bits: nat) {
    c.Valid() && |pad.value| == |pad.np| == Padding(c, bits)
  }

  /** The padding is as long for the poison bits as for the value, which suffices: every
      byte finds its poison bits, and reading takes no poison bit that was not stored. */
  lemma {:induction false} PoisonInRange(c: Layout, bits: nat)
    requires c.Valid()
    ensures var k, np := IntBytes(c, bits), NpBits(bits, c.poison, c.byte);
      np <= k * c.poison <= np + Padding(c, bits)
  {
    IntBytesCover(c, bits);
    var k, p, d := IntBytes(c, bits), c.poison, c.byte;
    var total := bits * p;
    var up := DivideUp(total, d);
    assert up * d >= total > up * d - d by {
      var n := total + d - 1;
      assert n == d * (n / d) + n % d && up * d == d * (n / d);
    }
    UpperBound(bits, p, d, k, up);
    LowerBound(bits, p, d, k, up);
    MulMonotone(k, p, d);
  }

  lemma UpperBound(bits: nat, p: nat, d: nat, k: nat, up: nat)
    requires d > 0 && bits <= k * d && up * d < bits * p + d
    ensures up <= k * p
  {
    MulMonotone(p, bits, k * d);
    assert p * (k * d) == (k * p) * d;
    var n := k * p;
    assert d * (n + 1) == n * d + d;
    if up > n {
      MulMonotone(d, n + 1, up);
    }
  }

  lemma LowerBound(bits: nat, p: nat, d: nat, k: nat, up: nat)
    requires 0 < d && p <= d && bits <= k * d && bits * p <= up * d
    ensures k * p <= up + (k * d - bits)
  {
    var extra := k * d - bits;
    MulMonotone(extra, p, d);
    assert extra * p == (k * d) * p - bits * p;
    assert (k * d) * p == (k * p) * d;
    assert (k * p) * d <= (up + extra) * d;
    var n := up + extra;
    assert d * (n + 1) == n * d + d;
    if k * p > n {
      MulMonotone(d, n + 1, k * p);
    }
  }

  /** The bytes of an integer, lowest first. */
  ghost function BytesOf(c: Layout, v: StateValue, pad: StateValue, bits: nat): (r: seq<Bits>)
    requires IsInt(c, v, bits) && IsPadding(c, pad, bits)
    ensures |r| == IntBytes(c, bits) && forall i :: 0 <= i < |r| ==> IsByte(c, r[i])
  {
    var k := IntBytes(c, bits);
    IntBytesCover(c, bits);
    PoisonInRange(c, bits);
    seq(k, i requires 0 <= i < k =>
      SliceIn(c.byte, k, i);
      SliceIn(c.poison, k, i);
      IntByte(c, Slice(v.value + pad.value, c.byte, i), Slice(v.np + pad.np, c.poison, i)))
  }

  /** Byte `i` of an integer holds the digits of its value, lowest first; below the padding these
      are the digits of the integer alone. */
  lemma {:induction false} ByteValue(c: Layout, v: StateValue, pad: StateValue, bits: nat, i: nat)
    requires c.ints && IsInt(c, v, bits) && IsPadding(c, pad, bits) && i < IntBytes(c, bits)
    ensures var b := BytesOf(c, v, pad, bits)[i];
      && !IsPtr(c, b) && ToNat(IntValue(c, b)) == Digit(ToNat(v.value + pad.value), i * c.byte, c.byte)
      && (i * c.byte + c.byte <= bits ==> ToNat(IntValue(c, b)) == Digit(ToNat(v.value), i * c.byte, c.byte))
  {
    hide ToNat, Pow2, Digit, IsPtr, IntValue, IntByte, NpBits, DivideUp;
    var k := IntBytes(c, bits);
    IntBytesCover(c, bits);
    PoisonInRange(c, bits);
    SliceIn(c.byte, k, i);
    SliceIn(c.poison, k, i);
    var all := v.value + pad.value;
    IntFields(c, Slice(all, c.byte, i), Slice(v.np + pad.np, c.poison, i));
    DigitOf(all, i * c.byte, c.byte);
    if i * c.byte + c.byte <= bits {
      DigitOf(v.value, i * c.byte, c.byte);
      assert Slice(v.value, c.byte, i) == Slice(all, c.byte, i);
    }
  }

  method IntToBytes(c: Layout, v: StateValue, pad: StateValue, bits: nat) returns (bytes: seq<Bits>)
    requires IsInt(c, v, bits) && IsPadding(c, pad, bits)
    ensures bytes == BytesOf(c, v, pad, bits)
  {
    hide DivideUp, NpBits;
    var k := IntBytes(c, bits);
    IntBytesCover(c, bits);
    PoisonInRange(c, bits);
    var value, np := v.value + pad.value, v.np + pad.np;
    bytes := [];
    var i := 0;
    while i < k
      invariant 0 <= i <= k && bytes == BytesOf(c, v, pad, bits)[..i]
    {
      SliceIn(c.byte, k, i);
      SliceIn(c.poison, k, i);
      bytes := bytes + [IntByte(c, Slice(value, c.byte, i), Slice(np, c.poison, i))];
      i := i + 1;
    }
  }

  predicate AreBytes(c: Layout, bytes: seq<Bits>) {
    c.Valid() && forall i :: 0 <= i < |bytes| ==> IsByte(c, bytes[i])
  }

  /** The poison bits of a byte read as an integer: all clear for a pointer. */
  function AsIntNonpoison(c: Layout, b: Bits): (r: Bits)
    requires IsByte(c, b)
    ensures |r| == c.poison
  {
    BitAnd(Fill(!IsPtr(c, b), c.poison), IntNonpoison(c, b))
  }

  ghost function IntParts(c: Layout, bytes: seq<Bits>): (r: seq<Bits>)
    requires AreBytes(c, bytes)
    ensures |r| == |bytes|
  {
    seq(|bytes|, i requires 0 <= i < |bytes| => IntValue(c, bytes[i]))
  }

  ghost function NpParts(c: Layout, bytes: seq<Bits>): (r: seq<Bits>)
    requires AreBytes(c, bytes)
    ensures |r| == |bytes|
  {
    seq(|bytes|, i requires 0 <= i < |bytes| => AsIntNonpoison(c, bytes[i]))
  }

  lemma {:induction false} JoinedSize(parts: seq<Bits>, w: nat)
    requires forall i :: 0 <= i < |parts| ==> |parts[i]| == w
    ensures |Joined(parts)| == |parts| * w
    decreases |parts|
  {
    if parts != [] {
      JoinedSize(parts[..|parts| - 1], w);
      assert |parts| * w == (|parts| - 1) * w + w;
    }
  }

  lemma {:induction false} JoinedStep(parts: seq<Bits>, i: nat)
    requires i < |parts|
    ensures Joined(parts[..i + 1]) == Joined(parts[..i]) + parts[i]
  {
    assert parts[..i + 1][..i] == parts[..i];
  }

  lemma EnoughBits(c: Layout, bytes: seq<Bits>, bits: nat)
    requires AreBytes(c, bytes) && |bytes| == IntBytes(c, bits)
    ensures bits <= |Joined(IntParts(c, bytes))| && NpBits(bits, c.poison, c.byte) <= |Joined(NpParts(c, bytes))|
  {
    hide Joined, NpBits, DivideUp;
    JoinedSize(IntParts(c, bytes), c.byte);
    JoinedSize(NpParts(c, bytes), c.poison);
    IntBytesCover(c, bits);
    PoisonInRange(c, bits);
  }

  /** Reading bytes as an integer. */
  method BytesToInt(c: Layout, bytes: seq<Bits>, bits: nat) returns (r: StateValue)
    requires AreBytes(c, bytes) && |bytes| == IntBytes(c, bits)
    ensures IsInt(c, r, bits)
    ensures r.value <= Joined(IntParts(c, bytes)) && r.np <= Joined(NpParts(c, bytes))
  {
    r := StateValue([], []);
    ghost var vs, ns := IntParts(c, bytes), NpParts(c, bytes);
    var i := 0;
    assert Joined(vs[..0]) == [] == Joined(ns[..0]);
    EnoughBits(c, bytes, bits);
    hide IntValue, AsIntNonpoison, Joined, NpBits, IntBytes;
    while i < |bytes|
      invariant 0 <= i <= |bytes| && r.value == Joined(vs[..i]) && r.np == Joined(ns[..i])
    {
      JoinedStep(vs, i);
      JoinedStep(ns, i);
      r := StateValue(r.value + IntValue(c, bytes[i]), r.np + AsIntNonpoison(c, bytes[i]));
      i := i + 1;
    }
    assert vs[..i] == vs && ns[..i] == ns;
    r := StateValue(r.value[..bits], r.np[..NpBits(bits, c.poison, c.byte)]);
  }

  /** Storing an integer and loading it gives it back, whatever the padding. */
  lemma {:induction false} LoadedInt(c: Layout, v: StateValue, pad: StateValue, bits: nat, r: StateValue)
    requires IsInt(c, v, bits) && IsPadding(c, pad, bits) && c.ints && IsInt(c, r, bits)
    requires var bytes := BytesOf(c, v, pad, bits);
      r.value <= Joined(IntParts(c, bytes)) && r.np <= Joined(NpParts(c, bytes))
    ensures r == v
  {
    var bytes, k := BytesOf(c, v, pad, bits), IntBytes(c, bits);
    IntBytesCover(c, bits);
    PoisonInRange(c, bits);
    var value, np := v.value + pad.value, v.np + pad.np;
    BytesReadBack(c, v, pad, bits);
    JoinSlices(value, c.byte, k);
    JoinSlices(np, c.poison, k);
    assert value[..bits] == v.value && np[..|v.np|] == v.np;
  }

  lemma {:induction false} BytesReadBack(c: Layout, v: StateValue, pad: StateValue, bits: nat)
    requires IsInt(c, v, bits) && IsPadding(c, pad, bits) && c.ints
    ensures var k := IntBytes(c, bits);
      && k * c.byte <= |v.value + pad.value| && k * c.poison <= |v.np + pad.np|
      && IntParts(c, BytesOf(c, v, pad, bits)) == Slices(v.value + pad.value, c.byte, k)
      && NpParts(c, BytesOf(c, v, pad, bits)) == Slices(v.np + pad.np, c.poison, k)
  {
    hide NpBits, DivideUp, IntValue, IntNonpoison, IntByte;
    var bytes, k := BytesOf(c, v, pad, bits), IntBytes(c, bits);
    IntBytesCover(c, bits);
    PoisonInRange(c, bits);
    forall i | 0 <= i < k
      ensures IntParts(c, bytes)[i] == Slices(v.value + pad.value, c.byte, k)[i]
      ensures NpParts(c, bytes)[i] == Slices(v.np + pad.np, c.poison, k)[i]
    {
      SliceIn(c.byte, k, i);
      SliceIn(c.poison, k, i);
      var x, y := Slice(v.value + pad.value, c.byte, i), Slice(v.np + pad.np, c.poison, i);
      IntFields(c, x, y);
      assert AsIntNonpoison(c, IntByte(c, x, y)) == y;
    }
  }

  /** An integer load sees no set poison bit in bytes that are poison integers or pointers. */
  lemma {:induction false} NoIntInPtrs(c: Layout, bytes: seq<Bits>, r: Bits)
    requires AreBytes(c, bytes) && r <= Joined(NpParts(c, bytes))
    requires forall i :: 0 <= i < |bytes| ==> IsPtr(c, bytes[i]) || IntNonpoison(c, bytes[i]) == Zeros(c.poison)
    ensures r == Zeros(|r|)
  {
    hide IntNonpoison, IsPtr;
    var ns := NpParts(c, bytes);
    forall i | 0 <= i < |bytes|
      ensures ns[i] == Zeros(c.poison)
    {
    }
    JoinedZeros(ns, c.poison);
  }

  lemma {:induction false} JoinedZeros(parts: seq<Bits>, w: nat)
    requires forall i :: 0 <= i < |parts| ==> parts[i] == Zeros(w)
    ensures Joined(parts) == Zeros(|Joined(parts)|)
    decreases |parts|
  {
    if parts != [] {
      JoinedZeros(parts[..|parts| - 1], w);
    }
  }

  // ---- Pointers ----

  datatype PtrLoad = PtrLoad(value: Bits, np: bool)

  /** The bytes of a pointer. */
  function BytesOfPtr(c: Layout, p: PtrLoad): (r: seq<Bits>)
    requires c.Valid() && |p.value| == c.encoded
    ensures |r| == c.PtrBytes() && AreBytes(c, r)
  {
    seq(c.PtrBytes(), i requires 0 <= i < c.PtrBytes() => PtrByte(c, p.value, p.np, i))
  }

  lemma PtrHasBytes(c: Layout)
    requires c.Valid() && c.ptrs
    ensures c.PtrBytes() > 0
  {
    assert c.program == c.byte * c.PtrBytes();
    assert c.byte * 0 == 0;
  }

  method PtrToBytes(c: Layout, p: PtrLoad) returns (bytes: seq<Bits>)
    requires c.Valid() && |p.value| == c.encoded
    ensures bytes == BytesOfPtr(c, p)
  {
    bytes := [];
    var i := 0;
    while i < c.PtrBytes()
      invariant 0 <= i <= c.PtrBytes() && bytes == BytesOfPtr(c, p)[..i]
    {
      bytes := bytes + [PtrByte(c, p.value, p.np, i)];
      i := i + 1;
    }
  }

  /** All bytes are of one pointer, in order. */
  ghost predicate OnePointer(c: Layout, bytes: seq<Bits>, value: Bits)
    requires AreBytes(c, bytes)
  {
    forall i :: 0 <= i < |bytes| ==>
      && IsPtr(c, bytes[i]) && !IsPoison(c, bytes[i])
      && PtrValue(c, bytes[i]) == value && PtrIndex(c, bytes[i]) == i
  }

  /** All bytes are integer zeros. */
  ghost predicate AllZero(c: Layout, bytes: seq<Bits>)
    requires AreBytes(c, bytes)
  {
    forall i :: 0 <= i < |bytes| ==>
      !IsPtr(c, bytes[i]) && !IsPoison(c, bytes[i]) && IntValue(c, bytes[i]) == Zeros(c.byte)
  }

  /** The bytes of a pointer read as that pointer, integer zeros as null, and anything else
      as poison. */
  ghost predicate ReadsAs(c: Layout, bytes: seq<Bits>, r: PtrLoad)
    requires AreBytes(c, bytes)
  {
    && |r.value| == c.encoded
    && (r.np <==> OnePointer(c, bytes, r.value) || AllZero(c, bytes))
    && (AllZero(c, bytes) ==> r.value == Zeros(c.encoded))
    && forall value :: OnePointer(c, bytes, value) ==> r.value == value
  }

  /** Whether the pointer lies within the bits of an integer. */
  predicate PtrInsideInt(c: Layout) {
    && c.ints && c.ptrs
    && var start := c.IndexBits() + c.PtrPadding();
      c.IntPadding() <= start && start + c.encoded <= c.IntPadding() + c.byte
  }

  lemma NullForFree(c: Layout, b: Bits)
    requires IsByte(c, b) && PtrInsideInt(c) && IntValue(c, b) == Zeros(c.byte)
    ensures PtrValue(c, b) == Zeros(c.encoded)
  {
    var v, p := IntValue(c, b), PtrValue(c, b);
    var d := c.IndexBits() + c.PtrPadding() - c.IntPadding();
    forall i | 0 <= i < c.encoded
      ensures p[i] == v[d + i]
    {
    }
  }

  /** An integer byte that holds zero and is not poison. */
  predicate IsZeroByte(c: Layout, b: Bits) {
    IsByte(c, b) && !IsPtr(c, b) && !IsPoison(c, b) && IntValue(c, b) == Zeros(c.byte)
  }

  /** Zero everywhere but where a zero byte need not be. */
  function LooseZero(c: Layout): (b: Bits)
    requires c.Valid() && c.ints
    ensures |b| == c.ByteBits()
  {
    Fill(true, c.IntPadding()) + Zeros(c.byte) + Fill(true, c.poison) + Fill(false, c.KindBits())
  }

  lemma {:induction false} LooseIsZero(c: Layout)
    requires c.Valid() && c.ints && c.ptrs
    ensures IsZeroByte(c, LooseZero(c))
    ensures !PtrInsideInt(c) ==> PtrValue(c, LooseZero(c)) != Zeros(c.encoded)
  {
    var b := LooseZero(c);
    assert IntNonpoison(c, b) == Fill(true, c.poison) == Ones(c.poison);
    assert c.poison == 1 ==> IntNonpoison(c, b)[0];
    assert IntValue(c, b) == Zeros(c.byte);
    if !PtrInsideInt(c) {
      var start := c.IndexBits() + c.PtrPadding();
      var q := if start < c.IntPadding() then start else start + c.encoded - 1;
      assert b[q] && PtrValue(c, b)[q - start];
    }
  }

  /** The bits of the pointer are a null pointer in every zero byte iff they lie within those of
      the integer. */
  lemma {:induction false} NullIffInside(c: Layout)
    requires c.Valid() && c.ints && c.ptrs
    ensures (forall b :: IsZeroByte(c, b) ==> PtrValue(c, b) == Zeros(c.encoded)) <==> PtrInsideInt(c)
  {
    hide IsPoison, IsPtr, IntValue, PtrValue;
    if PtrInsideInt(c) {
      forall b | IsZeroByte(c, b)
        ensures PtrValue(c, b) == Zeros(c.encoded)
      {
        NullForFree(c, b);
      }
    } else {
      LooseIsZero(c);
    }
  }

  /** Reading bytes as a pointer. `extracts` says that the first byte is not folded away, so
      that the bits of the pointer can be compared with those of the integer. */
  method BytesToPtr(c: Layout, bytes: seq<Bits>, extracts: bool) returns (r: PtrLoad)
    requires AreBytes(c, bytes) && c.ptrs && |bytes| == c.PtrBytes()
    ensures ReadsAs(c, bytes, r)
  {
    hide IsPtr, IsPoison, PtrIndex, PtrValue, IntValue;
    PtrHasBytes(c);
    var loaded, isPtr := PtrValue(c, bytes[0]), IsPtr(c, bytes[0]);
    r := PtrLoad(loaded, true);
    var np := true;
    var i := 0;
    while i < |bytes|
      invariant 0 <= i <= |bytes|
      invariant np <==> forall j :: 0 <= j < i ==> Agrees(c, bytes[j], j, isPtr, loaded)
    {
      var b := bytes[i];
      if i > 0 {
        np := np && isPtr == IsPtr(c, b);
      }
      np := np && if isPtr then PtrIndex(c, b) == i && PtrValue(c, b) == loaded else IntValue(c, b) == Zeros(c.byte);
      np := np && !IsPoison(c, b);
      i := i + 1;
    }
    if np {
      assert Agrees(c, bytes[0], 0, isPtr, loaded);
    }
    if extracts && PtrInsideInt(c) {
      r := PtrLoad(loaded, np);
      if AllZero(c, bytes) {
        NullForFree(c, bytes[0]);
      }
    } else {
      r := PtrLoad(if isPtr then loaded else Zeros(c.encoded), np);
    }
    forall value | OnePointer(c, bytes, value)
      ensures r.value == value
    {
      assert PtrValue(c, bytes[0]) == value && IsPtr(c, bytes[0]);
    }
    if OnePointer(c, bytes, r.value) || AllZero(c, bytes) {
      forall j | 0 <= j < |bytes|
        ensures Agrees(c, bytes[j], j, isPtr, loaded)
      {
      }
    }
  }

  predicate Agrees(c: Layout, b: Bits, i: nat, isPtr: bool, loaded: Bits)
    requires IsByte(c, b)
  {
    && IsPtr(c, b) == isPtr && !IsPoison(c, b)
    && if isPtr then PtrIndex(c, b) == i && PtrValue(c, b) == loaded else IntValue(c, b) == Zeros(c.byte)
  }

  /** Storing a pointer and loading it gives it back; poison stays poison. */
  lemma LoadedPtr(c: Layout, p: PtrLoad, r: PtrLoad)
    requires c.Valid() && c.ptrs && |p.value| == c.encoded
    requires ReadsAs(c, BytesOfPtr(c, p), r)
    ensures r.np == p.np && (p.np ==> r == p)
  {
    hide IsPtr, IsPoison, PtrIndex, PtrValue, IntValue, PtrByte;
    var bytes := BytesOfPtr(c, p);
    forall i | 0 <= i < |bytes|
      ensures var b := bytes[i];
        IsPtr(c, b) && PtrValue(c, b) == p.value && PtrIndex(c, b) == i && IsPoison(c, b) == !p.np
    {
      PtrFields(c, p.value, p.np, i);
    }
    PtrHasBytes(c);
    assert IsPtr(c, bytes[0]);
    if p.np {
      assert OnePointer(c, bytes, p.value);
    }
  }
}

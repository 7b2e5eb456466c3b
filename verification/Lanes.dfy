/** Vectors and aggregates packed into bit-vectors: a plane of values and a plane of
    poison bits, the first member in the highest bits. */
module Lanes {
  import opened Bits
  import opened BitLaws

  // ---- Widths ----

  function DivideUp(n: nat, d: nat): nat
    requires d > 0
  {
    (n + d - 1) / d
  }

  /** The number of poison bits of a type of `bits` bits. */
  function NpBits(bits: nat, poisonPerByte: nat, bitsByte: nat): nat
    requires bitsByte > 0
  {
    var n := DivideUp(bits * poisonPerByte, bitsByte);
    if bits < n then bits else n
  }

  /** A vector has as many poison bits as its lanes together, if those of a lane come out
      evenly. */
  lemma VectorNpBits(w: nat, n: nat, k: nat, poisonPerByte: nat, bitsByte: nat)
    requires bitsByte > 0 && w * poisonPerByte == k * bitsByte && k <= w
    ensures NpBits(w, poisonPerByte, bitsByte) == k && NpBits(n * w, poisonPerByte, bitsByte) == n * k
  {
    EvenDivision(k, bitsByte);
    calc {
      (n * w) * poisonPerByte;
      { MulAssociative(n, w, poisonPerByte); }
      n * (w * poisonPerByte);
      n * (k * bitsByte);
      { MulAssociative(n, k, bitsByte); }
      (n * k) * bitsByte;
    }
    EvenDivision(n * k, bitsByte);
    MulMonotone(n, k, w);
  }

  lemma EvenDivision(k: nat, d: nat)
    requires d > 0
    ensures DivideUp(k * d, d) == k
  {
    DivModUnique(k * d + d - 1, d, k, d - 1);
  }

  // ---- Lanes ----

  /** Bits `(n - 1 - i) * w` up to `(n - i) * w`. */
  function Low(w: nat, n: nat, i: nat): (r: nat)
    requires i < n
    ensures r + w <= n * w && r + i * w + w == n * w
  {
    LaneBounds(w, n, i);
    (n - 1 - i) * w
  }

  lemma LaneBounds(w: nat, n: nat, i: nat)
    requires i < n
    ensures (n - 1 - i) * w + i * w + w == n * w && (n - 1 - i) * w >= 0 && i * w >= 0
  {
    assert (n - 1 - i) * w + i * w + w == (n - 1 - i + i + 1) * w;
  }

  lemma LanesApart(w: nat, n: nat, i: nat, j: nat)
    requires i < j < n
    ensures Low(w, n, j) + w <= Low(w, n, i)
  {
    var d := (n - 1 - i) - (n - 1 - j);
    MulMonotone(w, 1, d);
    assert (n - 1 - i) * w == (n - 1 - j) * w + w * d;
  }

  function Lane(v: Bits, w: nat, n: nat, i: nat): (r: Bits)
    requires |v| == n * w && i < n
    ensures |r| == w
  {
    v[Low(w, n, i)..Low(w, n, i) + w]
  }

  function Resize(index: Bits, w: nat): (r: Bits)
    ensures |r| == w
  {
    if |index| < w then index + Zeros(w - |index|) else index[..w]
  }

  /** The shift that brings a lane to the top. */
  function Offset(index: Bits, w: nat, total: nat): nat {
    ToNat(Mul(Resize(index, total), FromNat(w, total)))
  }

  lemma {:induction false} BelowPow2(n: nat)
    ensures n < Pow2(n)
  {
    if n > 0 {
      BelowPow2(n - 1);
    }
  }

  lemma {:induction false} ResizeValue(index: Bits, w: nat)
    requires ToNat(index) < Pow2(w)
    ensures ToNat(Resize(index, w)) == ToNat(index)
  {
    hide ToNat, Pow2;
    if |index| < w {
      ToNatConcat(index, Zeros(w - |index|));
      ToNatFill(w - |index|);
      assert Pow2(|index|) * 0 == 0;
    } else {
      ToNatLow(index, w);
      DivModUnique(ToNat(index), Pow2(w), 0, ToNat(index));
    }
  }

  lemma {:induction false} OffsetIs(index: Bits, w: nat, n: nat)
    requires ToNat(index) < n && w > 0
    ensures Offset(index, w, n * w) == ToNat(index) * w
  {
    hide ToNat, Pow2, FromNat, Mod;
    var i, t := ToNat(index), n * w;
    MulMonotone(n, 1, w);
    MulMonotone(w, 1, n);
    BelowPow2(t);
    ResizeValue(index, t);
    ToFromNat(w, t);
    LaneBounds(w, n, i);
    ModSmall(i * w, Pow2(t));
    ToNatTruncate(i * w, t);
  }

  /** Extraction at an index known only at run time. */
  function ExtractLane(v: Bits, w: nat, n: nat, index: Bits): (r: Bits)
    requires |v| == n * w && n > 0
    ensures |r| == w
  {
    LaneBounds(w, n, 0);
    ShiftLeft(v, Offset(index, w, n * w))[Low(w, n, 0)..n * w]
  }

  lemma {:induction false} ExtractIsLane(v: Bits, w: nat, n: nat, index: Bits)
    requires |v| == n * w && ToNat(index) < n && w > 0
    ensures ExtractLane(v, w, n, index) == Lane(v, w, n, ToNat(index))
  {
    hide ToNat, Offset, Low, ShiftLeft;
    var i := ToNat(index);
    OffsetIs(index, w, n);
    var k, top, lo := i * w, Low(w, n, 0), Low(w, n, i);
    assert top - k == lo && n * w - k == lo + w;
    ShiftedSlice(v, k, top, n * w);
  }

  lemma ShiftedSlice(v: Bits, k: nat, lo: nat, hi: nat)
    requires k < |v| && k <= lo <= hi <= |v|
    ensures ShiftLeft(v, k)[lo..hi] == v[lo - k..hi - k]
  {
  }

  /** Replacing one lane at an index known only at run time. */
  function UpdateLane(v: Bits, w: nat, n: nat, x: Bits, index: Bits): (r: Bits)
    requires |v| == n * w && n > 0 && |x| == w
    ensures |r| == |v|
  {
    if n == 1 then x
    else
      LaneBounds(w, n, 0);
      var rest := Low(w, n, 0);
      var k := Offset(index, w, n * w);
      var mask := BitNot(ShiftRight(Zeros(rest) + Ones(w), k, false));
      BitOr(BitAnd(v, mask), ShiftRight(Zeros(rest) + x, k, false))
  }

  lemma {:induction false} UpdateBits(v: Bits, w: nat, n: nat, x: Bits, index: Bits, p: nat)
    requires |v| == n * w && ToNat(index) < n && w > 0 && |x| == w && p < |v|
    ensures var lo := Low(w, n, ToNat(index));
      UpdateLane(v, w, n, x, index)[p] == if lo <= p < lo + w then x[p - lo] else v[p]
  {
    hide ToNat, Offset;
    var i := ToNat(index);
    var lo, rest, k := Low(w, n, i), Low(w, n, 0), i * w;
    OffsetIs(index, w, n);
    assert k < n * w && lo + k == rest;
    if n > 1 {
      ShiftedBit(rest, Ones(w), k, p);
      ShiftedBit(rest, x, k, p);
    } else {
      assert i == 0 && lo == 0;
    }
  }

  /** A field above `rest` zeros, shifted down. */
  lemma ShiftedBit(rest: nat, x: Bits, k: nat, p: nat)
    requires k <= rest && p < rest + |x| && |x| > 0
    ensures ShiftRight(Zeros(rest) + x, k, false)[p] == (rest - k <= p < rest - k + |x| && x[p - (rest - k)])
  {
  }

  /** Reading a lane after writing one. */
  lemma {:induction false} UpdateThenLane(v: Bits, w: nat, n: nat, x: Bits, index: Bits, j: nat)
    requires |v| == n * w && ToNat(index) < n && w > 0 && |x| == w && j < n
    ensures Lane(UpdateLane(v, w, n, x, index), w, n, j) == if j == ToNat(index) then x else Lane(v, w, n, j)
  {
    hide ToNat, UpdateLane;
    var i := ToNat(index);
    var r := UpdateLane(v, w, n, x, index);
    var lo := Low(w, n, j);
    if i < j {
      LanesApart(w, n, i, j);
    } else if j < i {
      LanesApart(w, n, j, i);
    }
    forall p | 0 <= p < w
      ensures Lane(r, w, n, j)[p] == if j == i then x[p] else Lane(v, w, n, j)[p]
    {
      UpdateBits(v, w, n, x, index, lo + p);
    }
  }

  /** A lane is a digit of the number, the first lane the highest. */
  lemma {:induction false} LaneValue(v: Bits, w: nat, n: nat, i: nat)
    requires |v| == n * w && i < n
    ensures ToNat(Lane(v, w, n, i)) == Digit(ToNat(v), (n - 1 - i) * w, w)
  {
    hide ToNat, Digit;
    DigitOf(v, Low(w, n, i), w);
  }

  // ---- Aggregates ----

  datatype Child = Child(bits: nat, padding: bool)

  /** The first member is in the highest bits. */
  function Pack(members: seq<Bits>): Bits {
    if members == [] then [] else members[|members| - 1] + Pack(members[..|members| - 1])
  }

  function PackedBits(members: seq<Bits>): nat {
    if members == [] then 0 else PackedBits(members[..|members| - 1]) + |members[|members| - 1]|
  }

  lemma {:induction false} PackSize(members: seq<Bits>)
    ensures |Pack(members)| == PackedBits(members)
    decreases |members|
  {
    if members != [] {
      PackSize(members[..|members| - 1]);
    }
  }

  lemma {:induction false} PackedPrefix(members: seq<Bits>, k: nat)
    requires k <= |members|
    ensures PackedBits(members[..k]) <= PackedBits(members)
    ensures k < |members| ==> PackedBits(members[..k]) + |members[k]| <= PackedBits(members)
    decreases |members|
  {
    if k < |members| {
      var front := members[..|members| - 1];
      assert front[..k] == members[..k];
      PackedPrefix(front, k);
    } else {
      assert members[..k] == members;
    }
  }

  /** Where member `k` is. */
  function Member(v: Bits, members: seq<Bits>, k: nat): Bits
    requires k < |members| && |v| == PackedBits(members)
  {
    PackedPrefix(members, k);
    var high := |v| - PackedBits(members[..k]);
    v[high - |members[k]|..high]
  }

  /** Packing and extracting gives every member back. */
  lemma {:induction false} MemberOfPack(members: seq<Bits>, k: nat)
    requires k < |members|
    ensures |Pack(members)| == PackedBits(members) && Member(Pack(members), members, k) == members[k]
    decreases |members|
  {
    PackSize(members);
    var n := |members| - 1;
    var front, last := members[..n], members[n];
    PackSize(front);
    if k < n {
      MemberOfPack(front, k);
      assert front[..k] == members[..k];
      PackedPrefix(front, k);
      var high := |Pack(front)| - PackedBits(front[..k]);
      assert Pack(members) == last + Pack(front);
      assert (last + Pack(front))[|last| + high - |members[k]|..|last| + high] ==
        Pack(front)[high - |members[k]|..high];
    } else {
      assert members[..k] == front;
    }
  }

  /** The members packed first are above those packed after them. */
  lemma {:induction false} PackedAbove(a: seq<Bits>, b: seq<Bits>)
    ensures Pack(a + b) == Pack(b) + Pack(a)
    ensures ToNat(Pack(a + b)) == ToNat(Pack(b)) + Pow2(|Pack(b)|) * ToNat(Pack(a))
    decreases |b|
  {
    hide ToNat, Pow2;
    if b == [] {
      assert a + b == a;
    } else {
      var n := |b| - 1;
      PackedAbove(a, b[..n]);
      assert (a + b)[..|a + b| - 1] == a + b[..n];
    }
    ToNatConcat(Pack(b), Pack(a));
  }

  /** All members, padding filled with zeros. */
  function Members(children: seq<Child>, vals: seq<Bits>): (r: seq<Bits>)
    requires Fitting(children, vals)
    ensures |r| == |children|
  {
    if children == [] then []
    else
      var n := |children| - 1;
      if children[n].padding then Members(children[..n], vals) + [Zeros(children[n].bits)]
      else Members(children[..n], vals[..|vals| - 1]) + [vals[|vals| - 1]]
  }

  predicate Fitting(children: seq<Child>, vals: seq<Bits>) {
    if children == [] then vals == []
    else
      var n := |children| - 1;
      if children[n].padding then Fitting(children[..n], vals)
      else vals != [] && |vals[|vals| - 1]| == children[n].bits && Fitting(children[..n], vals[..|vals| - 1])
  }

  function CountValues(children: seq<Child>): nat {
    if children == [] then 0
    else CountValues(children[..|children| - 1]) + if children[|children| - 1].padding then 0 else 1
  }

  lemma {:induction false} FittingPrefix(children: seq<Child>, vals: seq<Bits>, k: nat)
    requires Fitting(children, vals) && k <= |children|
    ensures |vals| == CountValues(children) && CountValues(children[..k]) <= |vals|
    ensures Fitting(children[..k], vals[..CountValues(children[..k])])
    decreases |children|
  {
    if k == |children| {
      assert children[..k] == children;
      if children != [] {
        var n := |children| - 1;
        FittingPrefix(children[..n], if children[n].padding then vals else vals[..|vals| - 1], n);
        assert children[..n][..n] == children[..n];
      }
      assert vals[..|vals|] == vals;
    } else {
      var n := |children| - 1;
      var vals' := if children[n].padding then vals else vals[..|vals| - 1];
      FittingPrefix(children[..n], vals', k);
      assert children[..n][..k] == children[..k];
      assert vals'[..CountValues(children[..k])] == vals[..CountValues(children[..k])];
    }
  }

  /** Padding is zero, and the values go to the other members in order. */
  lemma {:induction false} MemberAt(children: seq<Child>, vals: seq<Bits>, k: nat)
    requires Fitting(children, vals) && k < |children|
    ensures !children[k].padding ==> CountValues(children[..k]) < |vals|
    ensures Members(children, vals)[k] ==
      if children[k].padding then Zeros(children[k].bits) else vals[CountValues(children[..k])]
    decreases |children|
  {
    var n := |children| - 1;
    FittingPrefix(children, vals, k + 1);
    FittingPrefix(children, vals, n);
    assert children[..k + 1][..k] == children[..k];
    if k < n {
      var vals' := if children[n].padding then vals else vals[..|vals| - 1];
      MemberAt(children[..n], vals', k);
      assert children[..n][..k] == children[..k];
    } else {
      assert children[..k + 1] == children;
    }
  }

  /** Concatenates the members, skipping those without bits and filling in padding. */
  method AggregateVals(children: seq<Child>, vals: seq<Bits>) returns (v: Bits)
    requires Fitting(children, vals) && forall i ::
      0 <= i < |children| && children[i].bits == 0 ==> !children[i].padding
    ensures v == Pack(Members(children, vals))
  {
    v := [];
    var valIdx := 0;
    var idx := 0;
    FittingPrefix(children, vals, 0);
    while idx < |children|
      invariant 0 <= idx <= |children| && valIdx == CountValues(children[..idx]) <= |vals|
      invariant Fitting(children[..idx], vals[..valIdx]) && v == Pack(Members(children[..idx], vals[..valIdx]))
    {
      FittingPrefix(children, vals, idx + 1);
      AggregateStep(children, vals, idx);
      if children[idx].bits == 0 {
        valIdx := valIdx + 1;
      } else {
        var vv;
        if children[idx].padding {
          vv := Zeros(children[idx].bits);
        } else {
          vv := vals[valIdx];
          valIdx := valIdx + 1;
        }
        v := vv + v;
      }
      idx := idx + 1;
    }
    FittingPrefix(children, vals, |children|);
    assert children[..idx] == children && vals[..valIdx] == vals;
  }

  lemma {:induction false} AggregateStep(children: seq<Child>, vals: seq<Bits>, idx: nat)
    requires idx < |children| && CountValues(children[..idx]) <= |vals| && CountValues(children[..idx + 1]) <= |vals|
    requires Fitting(children[..idx], vals[..CountValues(children[..idx])])
    requires Fitting(children[..idx + 1], vals[..CountValues(children[..idx + 1])])
    ensures CountValues(children[..idx + 1]) == CountValues(children[..idx]) + if children[idx].padding then 0 else 1
    ensures var k := CountValues(children[..idx]);
      var vv := if children[idx].padding then Zeros(children[idx].bits) else vals[k];
      && |vv| == children[idx].bits
      && Pack(Members(children[..idx + 1], vals[..CountValues(children[..idx + 1])])) ==
        vv + Pack(Members(children[..idx], vals[..k]))
  {
    var next := children[..idx + 1];
    assert next[..idx] == children[..idx] && next[idx] == children[idx];
    var k := CountValues(children[..idx]);
    if !children[idx].padding {
      assert vals[..k + 1][..k] == vals[..k];
    }
    var ms := Members(next, vals[..CountValues(next)]);
    assert ms[..|ms| - 1] == Members(children[..idx], vals[..k]);
  }

  // ---- Vectors as integers ----

  /** A vector: the values of its lanes and their poison bits. */
  datatype StateValue = StateValue(value: Bits, np: Bits)

  datatype Shape = Shape(lanes: nat, bits: nat, npBits: nat)

  predicate IsVector(v: StateValue, s: Shape) {
    |v.value| == s.lanes * s.bits && |v.np| == s.lanes * s.npBits
  }

  /** A lane is poison unless all of its poison bits are set. */
  function FromBV(np: Bits): bool {
    np == Ones(|np|)
  }

  /** Lane `i` of the plane `v` as an integer: in memory order, or as in the vector. */
  function IntLane(v: Bits, w: nat, n: nat, i: nat, little: bool): (r: Bits)
    requires |v| == n * w && i < n
    ensures |r| == w
  {
    if little then Lane(v, w, n, n - 1 - i) else Lane(v, w, n, i)
  }

  /** On a little-endian target lane 0 of an integer is the lowest digit, on others the highest. */
  lemma {:induction false} IntLaneValue(v: Bits, w: nat, n: nat, i: nat, little: bool)
    requires |v| == n * w && i < n
    ensures ToNat(IntLane(v, w, n, i, little)) == Digit(ToNat(v), (if little then i else n - 1 - i) * w, w)
  {
    hide ToNat, Digit, Lane;
    LaneValue(v, w, n, if little then n - 1 - i else i);
  }

  /** `r` holds the first `i` of the `lanes`, as integers. */
  ghost predicate IntPlane(r: Bits, w: nat, i: nat, little: bool, lanes: seq<Bits>) {
    |r| == i * w && i <= |lanes| && forall j :: 0 <= j < i ==> IntLane(r, w, i, j, little) == lanes[j]
  }

  ghost function ValueLanes(v: Bits, w: nat, n: nat): (r: seq<Bits>)
    requires |v| == n * w
    ensures |r| == n && forall i :: 0 <= i < n ==> r[i] == Lane(v, w, n, i)
  {
    seq(n, i requires 0 <= i < n => Lane(v, w, n, i))
  }

  /** The poison bits of a lane, all or none. */
  ghost function PoisonLanes(v: Bits, w: nat, n: nat): (r: seq<Bits>)
    requires |v| == n * w
    ensures |r| == n && forall i :: 0 <= i < n ==> r[i] == Fill(FromBV(Lane(v, w, n, i)), w)
  {
    seq(n, i requires 0 <= i < n => Fill(FromBV(Lane(v, w, n, i)), w))
  }

  lemma {:induction false} PlaneStep(r: Bits, w: nat, i: nat, little: bool, lanes: seq<Bits>, x: Bits)
    requires IntPlane(r, w, i, little, lanes) && i < |lanes| && x == lanes[i] && |x| == w
    ensures IntPlane(if little then r + x else x + r, w, i + 1, little, lanes)
  {
    hide IntLane;
    var r' := if little then r + x else x + r;
    AppendLane(r, w, i, x, i, little);
    forall j | 0 <= j < i + 1
      ensures IntLane(r', w, i + 1, j, little) == lanes[j]
    {
      AppendLane(r, w, i, x, j, little);
    }
  }

  /** The planes as integers: lane 0 lowest on a little-endian target. */
  method ToInt(v: StateValue, s: Shape, little: bool) returns (r: StateValue)
    requires IsVector(v, s)
    ensures IntPlane(r.value, s.bits, s.lanes, little, ValueLanes(v.value, s.bits, s.lanes))
    ensures IntPlane(r.np, s.npBits, s.lanes, little, PoisonLanes(v.np, s.npBits, s.lanes))
    ensures forall i :: 0 <= i < s.lanes ==>
      IntLane(r.np, s.npBits, s.lanes, i, little) ==
      if Lane(v.np, s.npBits, s.lanes, i) == Ones(s.npBits) then Ones(s.npBits) else Zeros(s.npBits)
  {
    r := StateValue([], []);
    ghost var xs, ys := ValueLanes(v.value, s.bits, s.lanes), PoisonLanes(v.np, s.npBits, s.lanes);
    hide IntLane, Lane, Low;
    var i := 0;
    while i < s.lanes
      invariant 0 <= i <= s.lanes && IntPlane(r.value, s.bits, i, little, xs) && IntPlane(r.np, s.npBits, i, little, ys)
    {
      var x := Lane(v.value, s.bits, s.lanes, i);
      var y := Fill(FromBV(Lane(v.np, s.npBits, s.lanes, i)), s.npBits);
      PlaneStep(r.value, s.bits, i, little, xs, x);
      PlaneStep(r.np, s.npBits, i, little, ys, y);
      r := if little then StateValue(r.value + x, r.np + y) else StateValue(x + r.value, y + r.np);
      i := i + 1;
    }
  }

  lemma {:induction false} AppendLane(v: Bits, w: nat, n: nat, x: Bits, j: nat, little: bool)
    requires |v| == n * w && |x| == w && j <= n
    ensures var r := if little then v + x else x + v;
      && |r| == (n + 1) * w
      && IntLane(r, w, n + 1, j, little) == if j == n then x else IntLane(v, w, n, j, little)
  {
    if little {
      AppendAbove(v, w, n, x, j);
    } else {
      AppendBelow(v, w, n, x, j);
    }
  }

  lemma {:induction false} AppendAbove(v: Bits, w: nat, n: nat, x: Bits, j: nat)
    requires |v| == n * w && |x| == w && j <= n
    ensures |v + x| == (n + 1) * w
    ensures Lane(v + x, w, n + 1, n - j) == if j == n then x else Lane(v, w, n, n - 1 - j)
  {
    assert (n + 1) * w == n * w + w;
    LowAt(w, n + 1, n - j);
    if j < n {
      LowAt(w, n, n - 1 - j);
    }
    hide Low;
  }

  lemma {:induction false} AppendBelow(v: Bits, w: nat, n: nat, x: Bits, j: nat)
    requires |v| == n * w && |x| == w && j <= n
    ensures |x + v| == (n + 1) * w
    ensures Lane(x + v, w, n + 1, j) == if j == n then x else Lane(v, w, n, j)
  {
    assert (n + 1) * w == n * w + w;
    LowAt(w, n + 1, j);
    if j < n {
      LowAt(w, n, j);
      assert (n - j) * w == (n - 1 - j) * w + w;
    }
    hide Low;
  }

  lemma LowAt(w: nat, n: nat, i: nat)
    requires i < n
    ensures Low(w, n, i) == (n - 1 - i) * w
  {
  }

  /** The lanes of an integer. */
  ghost function IntLanes(v: Bits, w: nat, n: nat, little: bool): (r: seq<Bits>)
    requires |v| == n * w
    ensures |r| == n && forall i :: 0 <= i < n ==> r[i] == IntLane(v, w, n, i, little)
  {
    seq(n, i requires 0 <= i < n => IntLane(v, w, n, i, little))
  }

  ghost function IntPoison(v: Bits, w: nat, n: nat, little: bool): (r: seq<Bits>)
    requires |v| == n * w
    ensures |r| == n && forall i :: 0 <= i < n ==> r[i] == Fill(FromBV(IntLane(v, w, n, i, little)), w)
  {
    seq(n, i requires 0 <= i < n => Fill(FromBV(IntLane(v, w, n, i, little)), w))
  }

  /** Back from an integer to a vector. */
  method FromInt(v: StateValue, s: Shape, little: bool) returns (r: StateValue)
    requires IsVector(v, s)
    ensures IntPlane(r.value, s.bits, s.lanes, false, IntLanes(v.value, s.bits, s.lanes, little))
    ensures IntPlane(r.np, s.npBits, s.lanes, false, IntPoison(v.np, s.npBits, s.lanes, little))
    ensures forall i :: 0 <= i < s.lanes ==>
      Lane(r.np, s.npBits, s.lanes, i) ==
      if IntLane(v.np, s.npBits, s.lanes, i, little) == Ones(s.npBits) then Ones(s.npBits) else Zeros(s.npBits)
  {
    r := StateValue([], []);
    ghost var xs, ys := IntLanes(v.value, s.bits, s.lanes, little), IntPoison(v.np, s.npBits, s.lanes, little);
    hide IntLane, Lane, Low;
    var i := 0;
    while i < s.lanes
      invariant 0 <= i <= s.lanes && IntPlane(r.value, s.bits, i, false, xs) && IntPlane(r.np, s.npBits, i, false, ys)
    {
      var x := IntLane(v.value, s.bits, s.lanes, i, little);
      var y := Fill(FromBV(IntLane(v.np, s.npBits, s.lanes, i, little)), s.npBits);
      PlaneStep(r.value, s.bits, i, false, xs, x);
      PlaneStep(r.np, s.npBits, i, false, ys, y);
      r := StateValue(x + r.value, y + r.np);
      i := i + 1;
    }
    PlaneLanes(r.np, s.npBits, s.lanes);
  }

  /** Every lane is wholly poison or not poison at all. */
  ghost predicate WholeLanes(v: StateValue, s: Shape)
    requires IsVector(v, s)
  {
    forall i :: 0 <= i < s.lanes ==>
      Lane(v.np, s.npBits, s.lanes, i) == Fill(FromBV(Lane(v.np, s.npBits, s.lanes, i)), s.npBits)
  }

  /** Planes with the same lanes are the same. */
  lemma {:induction false} SameLanes(a: Bits, b: Bits, w: nat, n: nat)
    requires |a| == |b| == n * w && forall i :: 0 <= i < n ==> Lane(a, w, n, i) == Lane(b, w, n, i)
    ensures a == b
  {
    forall p | 0 <= p < |a|
      ensures a[p] == b[p]
    {
      var q := p / w;
      assert p == w * q + p % w;
      QuotientBelow(p, w, n);
      var i := n - 1 - q;
      LowAt(w, n, i);
      assert Low(w, n, i) == q * w == w * q;
      assert Lane(a, w, n, i)[p % w] == Lane(b, w, n, i)[p % w];
      assert Lane(a, w, n, i)[p % w] == a[w * q + p % w];
      assert Lane(b, w, n, i)[p % w] == b[w * q + p % w];
    }
  }

  lemma QuotientBelow(p: nat, w: nat, n: nat)
    requires p < n * w
    ensures w > 0 && p / w < n
  {
    assert n * 0 == 0;
    var q := p / w;
    assert p == w * q + p % w && w * n == n * w;
    if q >= n {
      MulMonotone(w, n, q);
    }
  }

  /** Through an integer and back is the identity, on either kind of target, exactly for
      vectors whose lanes are wholly poison or not poison at all. */
  lemma {:induction false} IntRoundTrip(v: StateValue, t: StateValue, r: StateValue, s: Shape, little: bool)
    requires IsVector(v, s) && s.npBits > 0
    requires IntPlane(t.value, s.bits, s.lanes, little, ValueLanes(v.value, s.bits, s.lanes))
    requires IntPlane(t.np, s.npBits, s.lanes, little, PoisonLanes(v.np, s.npBits, s.lanes))
    requires IntPlane(r.value, s.bits, s.lanes, false, IntLanes(t.value, s.bits, s.lanes, little))
    requires IntPlane(r.np, s.npBits, s.lanes, false, IntPoison(t.np, s.npBits, s.lanes, little))
    ensures IsVector(r, s) && r.value == v.value && (r == v <==> WholeLanes(v, s))
    ensures forall i :: 0 <= i < s.lanes ==>
      FromBV(Lane(r.np, s.npBits, s.lanes, i)) == FromBV(Lane(v.np, s.npBits, s.lanes, i))
  {
    PlaneLanes(r.value, s.bits, s.lanes);
    PlaneLanes(r.np, s.npBits, s.lanes);
    hide IntLane, Lane, Low;
    SameLanes(r.value, v.value, s.bits, s.lanes);
    forall i | 0 <= i < s.lanes
      ensures Lane(r.np, s.npBits, s.lanes, i) == Fill(FromBV(Lane(v.np, s.npBits, s.lanes, i)), s.npBits)
      ensures FromBV(Lane(r.np, s.npBits, s.lanes, i)) == FromBV(Lane(v.np, s.npBits, s.lanes, i))
    {
      FillBack(FromBV(Lane(v.np, s.npBits, s.lanes, i)), s.npBits);
    }
    if WholeLanes(v, s) {
      SameLanes(r.np, v.np, s.npBits, s.lanes);
    }
  }

  lemma PlaneLanes(v: Bits, w: nat, n: nat)
    requires |v| == n * w
    ensures forall i :: 0 <= i < n ==> IntLane(v, w, n, i, false) == Lane(v, w, n, i)
  {
  }

  lemma FillBack(b: bool, n: nat)
    requires n > 0
    ensures FromBV(Fill(b, n)) == b
  {
    if !b {
      assert Fill(b, n)[0] != Ones(n)[0];
    }
  }
}

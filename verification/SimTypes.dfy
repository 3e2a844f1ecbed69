/** C types with sizes and layouts, after `sim_type.py`; sizes and offsets are in bytes. */
module SimTypes {
  import opened BitVec

  datatype Kind = Integer(signed: bool) | Float

  datatype SimType =
    | Scalar(kind: Kind, bytes: nat)
    | Struct(fields: seq<SimType>, packed: bool)
    | FixedArray(elem: SimType, length: nat)
    | Union(members: seq<SimType>)

  function Max(a: nat, b: nat): nat { if a < b then b else a }

  /** The next multiple of the alignment. */
  function AlignUp(offset: nat, align: nat): (r: nat)
    requires align > 0
    ensures offset <= r < offset + align
    ensures r % align == 0
  {
    if offset % align != 0 then RoundsUp(offset, align); offset + (align - offset % align) else offset
  }

  lemma {:induction false} RoundsUp(offset: nat, align: nat)
    requires align > 0 && offset % align != 0
    ensures (offset + (align - offset % align)) % align == 0
  {
    var q, r := offset / align, offset % align;
    var next := offset + (align - r);
    assert next == align * (q + 1);
    ModUnique(next, align, q + 1, 0);
  }

  /** Zero stands for `NotImplemented`, which the layout treats as one. */
  function Alignment(t: SimType): nat
  {
    match t
    case Scalar(_, bytes) => bytes
    case Struct(fields, _) => MaxAlignment(fields)
    case FixedArray(elem, _) => Alignment(elem)
    case Union(members) => MaxAlignment(members)
  }

  function MaxAlignment(ts: seq<SimType>): nat
  {
    if ts == [] then 0 else Max(Alignment(ts[0]), MaxAlignment(ts[1..]))
  }

  /** The sizes of the scalars a type is made of. */
  function ScalarSizes(t: SimType): set<nat>
  {
    match t
    case Scalar(_, bytes) => {bytes}
    case Struct(fields, _) => AllScalarSizes(fields)
    case FixedArray(elem, _) => ScalarSizes(elem)
    case Union(members) => AllScalarSizes(members)
  }

  function AllScalarSizes(ts: seq<SimType>): set<nat>
  {
    if ts == [] then {} else ScalarSizes(ts[0]) + AllScalarSizes(ts[1..])
  }

  /** The maximum of the sizes, or zero when there is none. */
  predicate Largest(n: nat, sizes: set<nat>)
  {
    (forall k :: k in sizes ==> k <= n) && if sizes == {} then n == 0 else n in sizes
  }

  /** A scalar is aligned to its size, and any type to the size of its largest scalar, packed or not. */
  lemma {:induction false} AlignedToLargest(t: SimType)
    ensures Largest(Alignment(t), ScalarSizes(t)) && (t.Scalar? ==> Alignment(t) == Size(t))
    decreases t, 0
  {
    match t
    case Scalar(_, _) =>
    case Struct(fields, _) => AllAlignedToLargest(fields);
    case FixedArray(elem, _) => AlignedToLargest(elem);
    case Union(members) => AllAlignedToLargest(members);
  }

  lemma {:induction false} AllAlignedToLargest(ts: seq<SimType>)
    ensures Largest(MaxAlignment(ts), AllScalarSizes(ts))
    decreases ts, 0
  {
    if ts != [] {
      AlignedToLargest(ts[0]);
      AllAlignedToLargest(ts[1..]);
    }
  }

  function EffectiveAlignment(t: SimType): (r: nat)
    ensures r > 0
  {
    Max(Alignment(t), 1)
  }

  /** Where a field goes when the fields before it end at `end`. */
  function Place(packed: bool, end: nat, t: SimType): (r: nat)
    ensures end <= r
  {
    if packed then end else AlignUp(end, EffectiveAlignment(t))
  }

  function Size(t: SimType): nat
  {
    match t
    case Scalar(_, bytes) => bytes
    case Struct(fields, packed) => EndOf(fields, packed, 0)
    case FixedArray(elem, length) => Size(elem) * length
    case Union(members) => MaxSize(members)
  }

  /** Where the fields end when the first may start at `from`. */
  function EndOf(fields: seq<SimType>, packed: bool, from: nat): nat
  {
    if fields == [] then from else EndOf(fields[1..], packed, Place(packed, from, fields[0]) + Size(fields[0]))
  }

  function MaxSize(ts: seq<SimType>): nat
  {
    if ts == [] then 0 else Max(Size(ts[0]), MaxSize(ts[1..]))
  }

  /** `offsets`, one per field. */
  function Offsets(fields: seq<SimType>, packed: bool, from: nat): (r: seq<nat>)
    ensures |r| == |fields|
  {
    if fields == [] then []
    else
      var at := Place(packed, from, fields[0]);
      [at] + Offsets(fields[1..], packed, at + Size(fields[0]))
  }

  /** The loop that computes `offsets`. */
  method OffsetsOf(fields: seq<SimType>, packed: bool) returns (offsets: seq<nat>)
    ensures offsets == Offsets(fields, packed, 0)
  {
    offsets := [];
    var soFar: nat := 0;
    for i := 0 to |fields|
      invariant offsets + Offsets(fields[i..], packed, soFar) == Offsets(fields, packed, 0)
    {
      assert fields[i..][1..] == fields[i + 1..];
      soFar := Advance(soFar, packed, fields[i]);
      offsets := offsets + [soFar];
      soFar := soFar + Size(fields[i]);
    }
  }

  method Advance(soFar: nat, packed: bool, t: SimType) returns (at: nat)
    ensures at == Place(packed, soFar, t)
  {
    at := soFar;
    if !packed {
      var align := EffectiveAlignment(t);
      if at % align != 0 { at := at + (align - at % align); }
    }
  }

  /** Fields one after the other, from `from` to at most `to`. */
  ghost predicate InOrder(fields: seq<SimType>, offs: seq<nat>, from: nat, to: nat)
    requires |fields| == |offs|
  {
    if fields == [] then from <= to
    else from <= offs[0] && InOrder(fields[1..], offs[1..], offs[0] + Size(fields[0]), to)
  }

  lemma {:induction false} OffsetsInOrder(fields: seq<SimType>, packed: bool, from: nat)
    ensures InOrder(fields, Offsets(fields, packed, from), from, EndOf(fields, packed, from))
    decreases |fields|
  {
    if fields != [] { OffsetsInOrder(fields[1..], packed, Place(packed, from, fields[0]) + Size(fields[0])); }
  }

  lemma {:induction false} InOrderEnds(fields: seq<SimType>, offs: seq<nat>, from: nat, to: nat)
    requires |fields| == |offs| && InOrder(fields, offs, from, to)
    ensures from <= to
    decreases |fields|
  {
    if fields != [] { InOrderEnds(fields[1..], offs[1..], offs[0] + Size(fields[0]), to); }
  }

  // --------------------------------------------------------------------------
  // The layout of a struct

  lemma {:induction false} OffsetsFrom(fields: seq<SimType>, packed: bool, from: nat, i: nat)
    requires i < |fields|
    ensures var offs := Offsets(fields, packed, from);
            from <= offs[i] && offs[i] + Size(fields[i]) <= EndOf(fields, packed, from)
    decreases |fields|
  {
    if i > 0 {
      OffsetsFrom(fields[1..], packed, Place(packed, from, fields[0]) + Size(fields[0]), i - 1);
    } else {
      EndGrows(fields[1..], packed, Place(packed, from, fields[0]) + Size(fields[0]));
    }
  }

  lemma {:induction false} EndGrows(fields: seq<SimType>, packed: bool, from: nat)
    ensures from <= EndOf(fields, packed, from)
    decreases |fields|
  {
    if fields != [] { EndGrows(fields[1..], packed, Place(packed, from, fields[0]) + Size(fields[0])); }
  }

  /** Fields come in order, inside the struct, aligned, without overlap and with less padding than their alignment. */
  lemma {:induction false} LayoutOf(fields: seq<SimType>, from: nat, i: nat)
    requires i < |fields|
    ensures var offs := Offsets(fields, false, from);
            var before := if i == 0 then from else offs[i - 1] + Size(fields[i - 1]);
            && offs[i] % EffectiveAlignment(fields[i]) == 0
            && before <= offs[i] < before + EffectiveAlignment(fields[i])
            && offs[i] + Size(fields[i]) <= EndOf(fields, false, from)
    decreases |fields|
  {
    OffsetsFrom(fields, false, from, i);
    if i > 0 {
      LayoutOf(fields[1..], Place(false, from, fields[0]) + Size(fields[0]), i - 1);
    }
  }

  /** Different fields share no byte. */
  lemma {:induction false} FieldsDisjoint(fields: seq<SimType>, packed: bool, from: nat, i: nat, j: nat)
    requires i < j < |fields|
    ensures var offs := Offsets(fields, packed, from); offs[i] + Size(fields[i]) <= offs[j]
    decreases |fields|
  {
    var next := Place(packed, from, fields[0]) + Size(fields[0]);
    if i > 0 {
      FieldsDisjoint(fields[1..], packed, next, i - 1, j - 1);
    } else {
      OffsetsFrom(fields[1..], packed, next, j - 1);
    }
  }

  /** Whether element i of an array of such elements is aligned. */
  predicate ElementAligned(i: nat, size: nat, align: nat)
    requires align > 0
  {
    (i * size) % align == 0
  }

  /** A struct's size has no padding at its end, so array elements are all aligned exactly when the size happens to
      be. */
  lemma {:induction false} ElementsAligned(elem: SimType, length: nat)
    ensures (forall i :: 0 <= i < length ==> ElementAligned(i, Size(elem), EffectiveAlignment(elem)))
       <==> length <= 1 || Size(elem) % EffectiveAlignment(elem) == 0
  {
    MultiplesAligned(Size(elem), EffectiveAlignment(elem), length);
  }

  lemma {:induction false} MultiplesAligned(size: nat, align: nat, length: nat)
    requires align > 0
    ensures (forall i :: 0 <= i < length ==> ElementAligned(i, size, align)) <==> length <= 1 || size % align == 0
  {
    ModUnique(0, align, 0, 0);
    assert ElementAligned(0, size, align);
    assert ElementAligned(1, size, align) <==> size % align == 0;
    if size % align == 0 {
      forall i: nat ensures ElementAligned(i, size, align) { MultipleAligned(i, size, align); }
    }
  }

  lemma {:induction false} MultipleAligned(i: nat, size: nat, align: nat)
    requires align > 0 && size % align == 0
    ensures ElementAligned(i, size, align)
  {
    var q := size / align;
    assert i * (align * q) == align * (i * q);
    ModUnique(i * size, align, i * q, 0);
  }
}

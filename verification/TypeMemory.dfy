/** Storing values of C types to memory and extracting them again. */
module TypeMemory {
  import opened Wrappers
  import opened BitVec
  import opened MachineState
  import opened SimTypes

  datatype Value = Int(v: int) | Many(vals: seq<Value>)

  /** Integers, structs and fixed arrays of them. */
  predicate Storable(t: SimType)
  {
    match t
    case Scalar(kind, bytes) => kind.Integer? && bytes > 0
    case Struct(fields, _) => AllStorable(fields)
    case FixedArray(elem, _) => Storable(elem)
    case Union(_) => false
  }

  predicate AllStorable(ts: seq<SimType>)
  {
    if ts == [] then true else Storable(ts[0]) && AllStorable(ts[1..])
  }

  /** What `store` accepts: a struct needs a value per field, but nothing counts the elements of an array. */
  predicate Shaped(t: SimType, value: Value)
    decreases t, 0
  {
    match t
    case Scalar(_, _) => value.Int?
    case Struct(fields, _) => value.Many? && |value.vals| == |fields| && AllShaped(fields, value.vals)
    case FixedArray(elem, _) => value.Many? && EachShaped(elem, value.vals)
    case Union(_) => false
  }

  predicate AllShaped(ts: seq<SimType>, vals: seq<Value>)
    requires |ts| == |vals|
  {
    if ts == [] then true else Shaped(ts[0], vals[0]) && AllShaped(ts[1..], vals[1..])
  }

  predicate EachShaped(t: SimType, vals: seq<Value>)
    decreases t, 1 + |vals|
  {
    if vals == [] then true else Shaped(t, vals[0]) && EachShaped(t, vals[1..])
  }

  /** The values are in range, and every array gets as many as it has elements. */
  predicate Fits(t: SimType, value: Value)
    requires Storable(t) && Shaped(t, value)
    decreases t, 0
  {
    match t
    case Scalar(kind, bytes) =>
      if kind.signed then 0 <= value.v + Pow2(8 * bytes - 1) < Pow2(8 * bytes) else 0 <= value.v < Pow2(8 * bytes)
    case Struct(fields, _) => AllFit(fields, value.vals)
    case FixedArray(elem, length) => |value.vals| == length && EachFits(elem, value.vals)
  }

  predicate AllFit(ts: seq<SimType>, vals: seq<Value>)
    requires |ts| == |vals| && AllStorable(ts) && AllShaped(ts, vals)
  {
    if ts == [] then true else Fits(ts[0], vals[0]) && AllFit(ts[1..], vals[1..])
  }

  predicate EachFits(t: SimType, vals: seq<Value>)
    requires Storable(t) && EachShaped(t, vals)
    decreases t, 1 + |vals|
  {
    if vals == [] then true else Fits(t, vals[0]) && EachFits(t, vals[1..])
  }

  // --------------------------------------------------------------------------
  // store and extract

  function Store(t: SimType, addr: int, value: Value, end: Endness, m: Memory): Memory
    requires Shaped(t, value)
    decreases t, 0
  {
    match t
    case Scalar(_, bytes) => StoreValue(m, addr, Wrap(value.v, 8 * bytes), bytes, end)
    case Struct(fields, packed) => StoreFields(fields, Offsets(fields, packed, 0), addr, value.vals, end, m)
    case FixedArray(elem, _) => StoreElements(elem, addr, value.vals, end, m)
  }

  function StoreFields(fields: seq<SimType>, offs: seq<nat>, addr: int, vals: seq<Value>, end: Endness,
                       m: Memory): Memory
    requires |fields| == |vals| == |offs| && AllShaped(fields, vals)
  {
    if fields == [] then m
    else StoreFields(fields[1..], offs[1..], addr, vals[1..], end, Store(fields[0], addr + offs[0], vals[0], end, m))
  }

  function StoreElements(t: SimType, addr: int, vals: seq<Value>, end: Endness, m: Memory): Memory
    requires EachShaped(t, vals)
    decreases t, 1 + |vals|
  {
    if vals == [] then m
    else StoreElements(t, addr + Size(t), vals[1..], end, Store(t, addr, vals[0], end, m))
  }

  function Extract(t: SimType, addr: int, end: Endness, m: Memory): Value
    requires Storable(t)
    decreases t, 0
  {
    match t
    case Scalar(kind, bytes) =>
      var n := LoadValue(m, addr, bytes, end);
      Int(if kind.signed && n >= Pow2(8 * bytes - 1) then n - Pow2(8 * bytes) else n)
    case Struct(fields, packed) => Many(ExtractFields(fields, Offsets(fields, packed, 0), addr, end, m))
    case FixedArray(elem, length) => Many(ExtractElements(elem, addr, length, end, m))
  }

  function ExtractFields(fields: seq<SimType>, offs: seq<nat>, addr: int, end: Endness, m: Memory): seq<Value>
    requires AllStorable(fields) && |fields| == |offs|
  {
    if fields == [] then []
    else [Extract(fields[0], addr + offs[0], end, m)] + ExtractFields(fields[1..], offs[1..], addr, end, m)
  }

  function ExtractElements(t: SimType, addr: int, n: nat, end: Endness, m: Memory): seq<Value>
    requires Storable(t)
    decreases t, 1 + n
  {
    if n == 0 then [] else [Extract(t, addr, end, m)] + ExtractElements(t, addr + Size(t), n - 1, end, m)
  }

  // --------------------------------------------------------------------------
  // Stores stay inside

  ghost predicate Agree(m: Memory, m': Memory, lo: int, hi: int) { forall k :: lo <= k < hi ==> At(m', k) == At(m, k) }

  /** Everything outside the range is as it was. */
  ghost predicate Within(m: Memory, m': Memory, lo: int, hi: int)
  {
    forall k :: !(lo <= k < hi) ==> At(m', k) == At(m, k)
  }

  /** No array gets more values than it has elements. */
  predicate NotLonger(t: SimType, value: Value)
    requires Shaped(t, value)
    decreases t, 0
  {
    match t
    case Scalar(_, _) => true
    case Struct(fields, _) => AllNotLonger(fields, value.vals)
    case FixedArray(elem, length) => |value.vals| <= length && EachNotLonger(elem, value.vals)
  }

  predicate AllNotLonger(ts: seq<SimType>, vals: seq<Value>)
    requires |ts| == |vals| && AllShaped(ts, vals)
  {
    if ts == [] then true else NotLonger(ts[0], vals[0]) && AllNotLonger(ts[1..], vals[1..])
  }

  predicate EachNotLonger(t: SimType, vals: seq<Value>)
    requires EachShaped(t, vals)
    decreases t, 1 + |vals|
  {
    if vals == [] then true else NotLonger(t, vals[0]) && EachNotLonger(t, vals[1..])
  }

  lemma {:induction false} ScalarStoreWithin(m: Memory, addr: int, v: nat, bytes: nat, end: Endness)
    ensures Within(m, StoreValue(m, addr, v, bytes, end), addr, addr + bytes)
  {
    forall k ensures At(StoreValue(m, addr, v, bytes, end), k) == At(m, k) || addr <= k < addr + bytes {
      WriteAt(m, addr, Ordered(Bytes(v, bytes), end), k);
    }
  }

  lemma {:induction false} StoreWithin(t: SimType, addr: int, value: Value, end: Endness, m: Memory)
    requires Shaped(t, value) && NotLonger(t, value)
    ensures Within(m, Store(t, addr, value, end, m), addr, addr + Size(t))
    decreases t, 0
  {
    match t
    case Scalar(_, bytes) => ScalarStoreWithin(m, addr, Wrap(value.v, 8 * bytes), bytes, end);
    case Struct(fields, packed) =>
      OffsetsInOrder(fields, packed, 0);
      StoreFieldsWithin(fields, Offsets(fields, packed, 0), 0, Size(t), addr, value.vals, end, m);
    case FixedArray(elem, length) =>
      StoreElementsWithin(elem, addr, value.vals, end, m);
      TimesIsProduct(|value.vals|, Size(elem));
      ProductAtLeast(length, Size(elem), |value.vals|);
  }

  lemma {:induction false} StoreFieldsWithin(fields: seq<SimType>, offs: seq<nat>, from: nat, to: nat, addr: int,
                                             vals: seq<Value>, end: Endness, m: Memory)
    requires |fields| == |vals| == |offs| && AllShaped(fields, vals)
    requires AllNotLonger(fields, vals) && InOrder(fields, offs, from, to)
    ensures Within(m, StoreFields(fields, offs, addr, vals, end, m), addr + from, addr + to)
  {
    if fields != [] {
      var next := offs[0] + Size(fields[0]);
      InOrderEnds(fields[1..], offs[1..], next, to);
      StoreWithin(fields[0], addr + offs[0], vals[0], end, m);
      StoreFieldsWithin(fields[1..], offs[1..], next, to, addr, vals[1..], end,
                        Store(fields[0], addr + offs[0], vals[0], end, m));
    }
  }

  lemma {:induction false} StoreElementsWithin(t: SimType, addr: int, vals: seq<Value>, end: Endness, m: Memory)
    requires EachShaped(t, vals) && EachNotLonger(t, vals)
    ensures Within(m, StoreElements(t, addr, vals, end, m), addr, addr + Times(|vals|, Size(t)))
    decreases t, 1 + |vals|
  {
    if vals != [] {
      StoreWithin(t, addr, vals[0], end, m);
      StoreElementsWithin(t, addr + Size(t), vals[1..], end, Store(t, addr, vals[0], end, m));
    }
  }

  lemma {:induction false} OneMore(n: nat, size: nat)
    ensures (n + 1) * size == size + n * size && n * size >= 0
  {
  }

  // --------------------------------------------------------------------------
  // What was stored is extracted

  lemma {:induction false} ExtractLocal(t: SimType, addr: int, end: Endness, m: Memory, m': Memory)
    requires Storable(t) && Agree(m, m', addr, addr + Size(t))
    ensures Extract(t, addr, end, m') == Extract(t, addr, end, m)
    decreases t, 0
  {
    match t
    case Scalar(_, bytes) => ReadAgrees(m, m', addr, bytes);
    case Struct(fields, packed) =>
      OffsetsInOrder(fields, packed, 0);
      ExtractFieldsLocal(fields, Offsets(fields, packed, 0), 0, Size(t), addr, end, m, m');
    case FixedArray(elem, length) =>
      TimesIsProduct(length, Size(elem));
      ExtractElementsLocal(elem, addr, length, addr + Size(t), end, m, m');
  }

  lemma {:induction false} ExtractFieldsLocal(fields: seq<SimType>, offs: seq<nat>, from: nat, to: nat, addr: int,
                                              end: Endness, m: Memory, m': Memory)
    requires AllStorable(fields) && |fields| == |offs|
    requires InOrder(fields, offs, from, to) && Agree(m, m', addr + from, addr + to)
    ensures ExtractFields(fields, offs, addr, end, m') == ExtractFields(fields, offs, addr, end, m)
  {
    if fields != [] {
      var next := offs[0] + Size(fields[0]);
      InOrderEnds(fields[1..], offs[1..], next, to);
      ExtractLocal(fields[0], addr + offs[0], end, m, m');
      ExtractFieldsLocal(fields[1..], offs[1..], next, to, addr, end, m, m');
    }
  }

  lemma {:induction false} ExtractElementsLocal(t: SimType, addr: int, n: nat, hi: int, end: Endness, m: Memory,
                                                m': Memory)
    requires Storable(t) && Agree(m, m', addr, hi) && addr + Times(n, Size(t)) <= hi
    ensures ExtractElements(t, addr, n, end, m') == ExtractElements(t, addr, n, end, m)
    decreases t, 1 + n
  {
    if n > 0 {
      ExtractLocal(t, addr, end, m, m');
      ExtractElementsLocal(t, addr + Size(t), n - 1, hi, end, m, m');
    }
  }

  /** A value in range is read back from its bit pattern. */
  lemma {:induction false} PatternRoundTrip(v: int, n: nat, signed: bool)
    requires n > 0 && if signed then 0 <= v + Pow2(n - 1) < Pow2(n) else 0 <= v < Pow2(n)
    ensures v == if signed && Wrap(v, n) >= Pow2(n - 1) then Wrap(v, n) - Pow2(n) else Wrap(v, n)
  {
    if v >= 0 {
      SmallMod(v, Pow2(n));
    } else {
      WrapPlusPow2(v + Pow2(n), n);
      SmallMod(v + Pow2(n), Pow2(n));
    }
  }

  lemma {:induction false} ScalarRoundTrip(t: SimType, addr: int, value: Value, end: Endness, m: Memory)
    requires t.Scalar? && Storable(t) && Shaped(t, value) && Fits(t, value)
    ensures Extract(t, addr, end, Store(t, addr, value, end, m)) == value
  {
    var m' := Store(t, addr, value, end, m);
    assert LoadValue(m', addr, t.bytes, end) == Wrap(value.v, 8 * t.bytes) by {
      LoadOfStore(m, addr, Wrap(value.v, 8 * t.bytes), t.bytes, end);
    }
    PatternRoundTrip(value.v, 8 * t.bytes, t.kind.signed);
  }

  /** For any nesting of structs, arrays and integers, extracting returns what was stored if and only if the
      values are in range and every array gets as many as it has elements. */
  lemma {:induction false} RoundTrip(t: SimType, addr: int, value: Value, end: Endness, m: Memory)
    requires Storable(t) && Shaped(t, value)
    ensures Extract(t, addr, end, Store(t, addr, value, end, m)) == value <==> Fits(t, value)
  {
    if Fits(t, value) { FittingRoundTrip(t, addr, value, end, m); }
    ExtractedFits(t, addr, end, Store(t, addr, value, end, m));
  }

  /** What is extracted always fits. */
  lemma {:induction false} ExtractedFits(t: SimType, addr: int, end: Endness, m: Memory)
    requires Storable(t)
    ensures Shaped(t, Extract(t, addr, end, m)) && Fits(t, Extract(t, addr, end, m))
    decreases t, 0
  {
    match t
    case Scalar(_, bytes) =>
      LoadInRange(m, addr, bytes, end);
      assert Pow2(8 * bytes) == 2 * Pow2(8 * bytes - 1);
    case Struct(fields, packed) => FieldsFit(fields, Offsets(fields, packed, 0), addr, end, m);
    case FixedArray(elem, length) => ElementsFit(elem, addr, length, end, m);
  }

  lemma {:induction false} FieldsFit(fields: seq<SimType>, offs: seq<nat>, addr: int, end: Endness, m: Memory)
    requires AllStorable(fields) && |fields| == |offs|
    ensures var vals := ExtractFields(fields, offs, addr, end, m);
            |vals| == |fields| && AllShaped(fields, vals) && AllFit(fields, vals)
  {
    if fields != [] {
      ExtractedFits(fields[0], addr + offs[0], end, m);
      FieldsFit(fields[1..], offs[1..], addr, end, m);
    }
  }

  lemma {:induction false} ElementsFit(t: SimType, addr: int, n: nat, end: Endness, m: Memory)
    requires Storable(t)
    ensures var vals := ExtractElements(t, addr, n, end, m); |vals| == n && EachShaped(t, vals) && EachFits(t, vals)
    decreases t, 1 + n
  {
    if n > 0 {
      ExtractedFits(t, addr, end, m);
      ElementsFit(t, addr + Size(t), n - 1, end, m);
    }
  }

  lemma {:induction false} FittingRoundTrip(t: SimType, addr: int, value: Value, end: Endness, m: Memory)
    requires Storable(t) && Shaped(t, value) && Fits(t, value)
    ensures Extract(t, addr, end, Store(t, addr, value, end, m)) == value
    decreases t, 0
  {
    match t
    case Scalar(_, _) => ScalarRoundTrip(t, addr, value, end, m);
    case Struct(fields, packed) =>
      OffsetsInOrder(fields, packed, 0);
      FieldsRoundTrip(fields, Offsets(fields, packed, 0), 0, Size(t), addr, value.vals, end, m);
    case FixedArray(elem, _) => ElementsRoundTrip(elem, addr, value.vals, end, m);
  }

  lemma {:induction false} FieldsRoundTrip(fields: seq<SimType>, offs: seq<nat>, from: nat, to: nat, addr: int,
                                           vals: seq<Value>, end: Endness, m: Memory)
    requires AllStorable(fields) && |fields| == |vals| == |offs| && AllShaped(fields, vals) && AllFit(fields, vals)
    requires InOrder(fields, offs, from, to)
    ensures ExtractFields(fields, offs, addr, end, StoreFields(fields, offs, addr, vals, end, m)) == vals
  {
    if fields != [] {
      var at, next := addr + offs[0], offs[0] + Size(fields[0]);
      InOrderEnds(fields[1..], offs[1..], next, to);
      var m1 := Store(fields[0], at, vals[0], end, m);
      var m2 := StoreFields(fields[1..], offs[1..], addr, vals[1..], end, m1);
      FittingRoundTrip(fields[0], at, vals[0], end, m);
      FieldsRoundTrip(fields[1..], offs[1..], next, to, addr, vals[1..], end, m1);
      AllFitNotLonger(fields[1..], vals[1..]);
      StoreFieldsWithin(fields[1..], offs[1..], next, to, addr, vals[1..], end, m1);
      ExtractLocal(fields[0], at, end, m1, m2);
    }
  }

  lemma {:induction false} ElementsRoundTrip(t: SimType, addr: int, vals: seq<Value>, end: Endness, m: Memory)
    requires Storable(t) && EachShaped(t, vals) && EachFits(t, vals)
    ensures ExtractElements(t, addr, |vals|, end, StoreElements(t, addr, vals, end, m)) == vals
    decreases t, 1 + |vals|
  {
    if vals != [] {
      var m1 := Store(t, addr, vals[0], end, m);
      var m2 := StoreElements(t, addr + Size(t), vals[1..], end, m1);
      FittingRoundTrip(t, addr, vals[0], end, m);
      ElementsRoundTrip(t, addr + Size(t), vals[1..], end, m1);
      EachFitsNotLonger(t, vals[1..]);
      StoreElementsWithin(t, addr + Size(t), vals[1..], end, m1);
      ExtractLocal(t, addr, end, m1, m2);
    }
  }

  lemma {:induction false} FitsNotLonger(t: SimType, value: Value)
    requires Storable(t) && Shaped(t, value) && Fits(t, value)
    ensures NotLonger(t, value)
    decreases t, 0
  {
    match t
    case Scalar(_, _) =>
    case Struct(fields, _) => AllFitNotLonger(fields, value.vals);
    case FixedArray(elem, _) => EachFitsNotLonger(elem, value.vals);
  }

  lemma {:induction false} AllFitNotLonger(ts: seq<SimType>, vals: seq<Value>)
    requires |ts| == |vals| && AllStorable(ts) && AllShaped(ts, vals) && AllFit(ts, vals)
    ensures AllNotLonger(ts, vals)
  {
    if ts != [] {
      FitsNotLonger(ts[0], vals[0]);
      AllFitNotLonger(ts[1..], vals[1..]);
    }
  }

  lemma {:induction false} EachFitsNotLonger(t: SimType, vals: seq<Value>)
    requires Storable(t) && EachShaped(t, vals) && EachFits(t, vals)
    ensures EachNotLonger(t, vals)
    decreases t, 1 + |vals|
  {
    if vals != [] {
      FitsNotLonger(t, vals[0]);
      EachFitsNotLonger(t, vals[1..]);
    }
  }

  // --------------------------------------------------------------------------
  // Where each scalar is

  /** A scalar of a value: where it lies, how long it is, and what it is. */
  datatype Leaf = Leaf(offset: nat, bytes: nat, v: int)

  /** The scalar at the end of a path of field and element numbers, if the path ends at one. */
  function LeafAt(t: SimType, value: Value, path: seq<nat>): Option<Leaf>
    requires Shaped(t, value)
    decreases path
  {
    match t
    case Scalar(_, bytes) => if path == [] then Some(Leaf(0, bytes, value.v)) else None
    case Struct(fields, packed) =>
      if path == [] || path[0] >= |fields| then None
      else
        ShapedField(fields, value.vals, path[0]);
        Moved(LeafAt(fields[path[0]], value.vals[path[0]], path[1..]), Offsets(fields, packed, 0)[path[0]])
    case FixedArray(elem, _) =>
      if path == [] || path[0] >= |value.vals| then None
      else
        ShapedElement(elem, value.vals, path[0]);
        Moved(LeafAt(elem, value.vals[path[0]], path[1..]), Times(path[0], Size(elem)))
  }

  function Moved(leaf: Option<Leaf>, offset: nat): Option<Leaf>
  {
    if leaf.Some? then Some(leaf.value.(offset := leaf.value.offset + offset)) else None
  }

  lemma {:induction false} ShapedField(ts: seq<SimType>, vals: seq<Value>, i: nat)
    requires |ts| == |vals| && AllShaped(ts, vals) && i < |ts|
    ensures Shaped(ts[i], vals[i])
  {
    if i > 0 { ShapedField(ts[1..], vals[1..], i - 1); }
  }

  lemma {:induction false} ShapedElement(t: SimType, vals: seq<Value>, i: nat)
    requires EachShaped(t, vals) && i < |vals|
    ensures Shaped(t, vals[i])
  {
    if i > 0 { ShapedElement(t, vals[1..], i - 1); }
  }

  /** The memory holds the scalar's bytes in the order of the endness. */
  ghost predicate Holds(m: Memory, addr: int, leaf: Leaf, end: Endness)
  {
    forall k :: 0 <= k < leaf.bytes ==>
      At(m, addr + leaf.offset + k) == StoredByte(Wrap(leaf.v, 8 * leaf.bytes), leaf.bytes, end, k)
  }

  lemma {:induction false} LeafInside(t: SimType, value: Value, path: seq<nat>)
    requires Shaped(t, value) && NotLonger(t, value) && LeafAt(t, value, path).Some?
    ensures LeafAt(t, value, path).value.offset + LeafAt(t, value, path).value.bytes <= Size(t)
    decreases path
  {
    match t
    case Scalar(_, _) =>
    case Struct(fields, packed) =>
      var i := path[0];
      ShapedField(fields, value.vals, i);
      NotLongerField(fields, value.vals, i);
      LeafInside(fields[i], value.vals[i], path[1..]);
      OffsetsInOrder(fields, packed, 0);
      FieldEnds(fields, Offsets(fields, packed, 0), 0, Size(t), i);
    case FixedArray(elem, length) =>
      var i := path[0];
      ShapedElement(elem, value.vals, i);
      NotLongerElement(elem, value.vals, i);
      LeafInside(elem, value.vals[i], path[1..]);
      TimesIsProduct(i, Size(elem));
      ProductAtLeast(length, Size(elem), i + 1);
      OneMore(i, Size(elem));
  }

  lemma {:induction false} NotLongerField(ts: seq<SimType>, vals: seq<Value>, i: nat)
    requires |ts| == |vals| && AllShaped(ts, vals) && AllNotLonger(ts, vals) && i < |ts|
    ensures Shaped(ts[i], vals[i]) && NotLonger(ts[i], vals[i])
  {
    if i > 0 { NotLongerField(ts[1..], vals[1..], i - 1); }
  }

  lemma {:induction false} NotLongerElement(t: SimType, vals: seq<Value>, i: nat)
    requires EachShaped(t, vals) && EachNotLonger(t, vals) && i < |vals|
    ensures Shaped(t, vals[i]) && NotLonger(t, vals[i])
  {
    if i > 0 { NotLongerElement(t, vals[1..], i - 1); }
  }

  lemma {:induction false} FieldEnds(fields: seq<SimType>, offs: seq<nat>, from: nat, to: nat, i: nat)
    requires |fields| == |offs| && InOrder(fields, offs, from, to) && i < |fields|
    ensures from <= offs[i] && offs[i] + Size(fields[i]) <= to
  {
    var next := offs[0] + Size(fields[0]);
    InOrderEnds(fields[1..], offs[1..], next, to);
    if i > 0 { FieldEnds(fields[1..], offs[1..], next, to, i - 1); }
  }

  /** After a store, every scalar's bytes are at its offset, in the order of the endness. */
  lemma {:induction false} LeavesStored(t: SimType, addr: int, value: Value, end: Endness, m: Memory, path: seq<nat>)
    requires Shaped(t, value) && NotLonger(t, value) && LeafAt(t, value, path).Some?
    ensures Holds(Store(t, addr, value, end, m), addr, LeafAt(t, value, path).value, end)
    decreases path, 1
  {
    match t
    case Scalar(_, bytes) => ScalarStored(addr, value.v, bytes, end, m);
    case Struct(_, _) => StructStored(t, addr, value, end, m, path);
    case FixedArray(_, _) => ArrayStored(t, addr, value, end, m, path);
  }

  lemma {:induction false} StructStored(t: SimType, addr: int, value: Value, end: Endness, m: Memory, path: seq<nat>)
    requires t.Struct? && Shaped(t, value) && NotLonger(t, value) && LeafAt(t, value, path).Some?
    ensures Holds(Store(t, addr, value, end, m), addr, LeafAt(t, value, path).value, end)
    decreases path, 0
  {
    var i, offs := path[0], Offsets(t.fields, t.packed, 0);
    ShapedField(t.fields, value.vals, i);
    OffsetsInOrder(t.fields, t.packed, 0);
    FieldStored(t.fields, offs, 0, Size(t), addr, value.vals, end, m, i, path[1..]);
    HoldsMoved(Store(t, addr, value, end, m), addr, LeafAt(t.fields[i], value.vals[i], path[1..]).value, offs[i], end);
  }

  lemma {:induction false} ArrayStored(t: SimType, addr: int, value: Value, end: Endness, m: Memory, path: seq<nat>)
    requires t.FixedArray? && Shaped(t, value) && NotLonger(t, value) && LeafAt(t, value, path).Some?
    ensures Holds(Store(t, addr, value, end, m), addr, LeafAt(t, value, path).value, end)
    decreases path, 0
  {
    var i := path[0];
    ShapedElement(t.elem, value.vals, i);
    ElementStored(t.elem, addr, value.vals, end, m, i, path[1..]);
    HoldsMoved(Store(t, addr, value, end, m), addr, LeafAt(t.elem, value.vals[i], path[1..]).value,
               Times(i, Size(t.elem)), end);
  }

  lemma {:induction false} ScalarStored(addr: int, v: int, bytes: nat, end: Endness, m: Memory)
    ensures Holds(StoreValue(m, addr, Wrap(v, 8 * bytes), bytes, end), addr, Leaf(0, bytes, v), end)
  {
    var n := Wrap(v, 8 * bytes);
    forall k | 0 <= k < bytes
      ensures At(StoreValue(m, addr, n, bytes, end), addr + 0 + k) == StoredByte(n, bytes, end, k)
    {
      StoreValueAt(m, addr, n, bytes, end, k);
    }
  }

  lemma {:induction false} HoldsMoved(m: Memory, addr: int, leaf: Leaf, offset: nat, end: Endness)
    requires Holds(m, addr + offset, leaf, end)
    ensures Holds(m, addr, leaf.(offset := leaf.offset + offset), end)
  {
    forall k | 0 <= k < leaf.bytes
      ensures At(m, addr + (leaf.offset + offset) + k) == StoredByte(Wrap(leaf.v, 8 * leaf.bytes), leaf.bytes, end, k)
    {
      assert addr + (leaf.offset + offset) + k == addr + offset + leaf.offset + k;
    }
  }

  lemma {:induction false} FieldStored(fields: seq<SimType>, offs: seq<nat>, from: nat, to: nat, addr: int,
                                       vals: seq<Value>, end: Endness, m: Memory, i: nat, path: seq<nat>)
    requires |fields| == |vals| == |offs| && AllShaped(fields, vals) && AllNotLonger(fields, vals)
    requires InOrder(fields, offs, from, to) && i < |fields|
    requires Shaped(fields[i], vals[i]) && LeafAt(fields[i], vals[i], path).Some?
    ensures Holds(StoreFields(fields, offs, addr, vals, end, m), addr + offs[i], LeafAt(fields[i], vals[i], path).value,
                  end)
    decreases path, 2 + i
  {
    var next := offs[0] + Size(fields[0]);
    InOrderEnds(fields[1..], offs[1..], next, to);
    var m1 := Store(fields[0], addr + offs[0], vals[0], end, m);
    if i > 0 {
      FieldStored(fields[1..], offs[1..], next, to, addr, vals[1..], end, m1, i - 1, path);
    } else {
      var m2 := StoreFields(fields[1..], offs[1..], addr, vals[1..], end, m1);
      LeavesStored(fields[0], addr + offs[0], vals[0], end, m, path);
      LeafInside(fields[0], vals[0], path);
      StoreFieldsWithin(fields[1..], offs[1..], next, to, addr, vals[1..], end, m1);
      StillHolds(m1, m2, addr + offs[0], LeafAt(fields[0], vals[0], path).value, end, addr + next, addr + to);
    }
  }

  lemma {:induction false} ElementStored(t: SimType, addr: int, vals: seq<Value>, end: Endness, m: Memory, i: nat,
                                         path: seq<nat>)
    requires EachShaped(t, vals) && EachNotLonger(t, vals) && i < |vals|
    requires Shaped(t, vals[i]) && LeafAt(t, vals[i], path).Some?
    ensures Holds(StoreElements(t, addr, vals, end, m), addr + Times(i, Size(t)), LeafAt(t, vals[i], path).value, end)
    decreases path, 2 + i
  {
    var m1 := Store(t, addr, vals[0], end, m);
    if i > 0 {
      ElementStored(t, addr + Size(t), vals[1..], end, m1, i - 1, path);
    } else {
      var m2 := StoreElements(t, addr + Size(t), vals[1..], end, m1);
      var hi := addr + Size(t) + Times(|vals[1..]|, Size(t));
      LeavesStored(t, addr, vals[0], end, m, path);
      LeafInside(t, vals[0], path);
      StoreElementsWithin(t, addr + Size(t), vals[1..], end, m1);
      StillHolds(m1, m2, addr, LeafAt(t, vals[0], path).value, end, addr + Size(t), hi);
    }
  }

  lemma {:induction false} StillHolds(m: Memory, m': Memory, addr: int, leaf: Leaf, end: Endness, lo: int, hi: int)
    requires Holds(m, addr, leaf, end) && Within(m, m', lo, hi) && addr + leaf.offset + leaf.bytes <= lo
    ensures Holds(m', addr, leaf, end)
  {
  }

  // --------------------------------------------------------------------------
  // What was extracted is stored

  /** Storing what was extracted changes no byte. */
  lemma {:induction false} StoreOfExtract(t: SimType, addr: int, end: Endness, m: Memory, m': Memory)
    requires Storable(t) && SameBytes(m', m)
    ensures Shaped(t, Extract(t, addr, end, m))
    ensures SameBytes(Store(t, addr, Extract(t, addr, end, m), end, m'), m)
    decreases t, 0
  {
    ExtractedFits(t, addr, end, m);
    match t
    case Scalar(kind, bytes) => ScalarStoreOfExtract(t, addr, end, m, m');
    case Struct(fields, packed) => FieldsStoreOfExtract(fields, Offsets(fields, packed, 0), addr, end, m, m');
    case FixedArray(elem, length) => ElementsStoreOfExtract(elem, addr, length, end, m, m');
  }

  lemma {:induction false} ScalarStoreOfExtract(t: SimType, addr: int, end: Endness, m: Memory, m': Memory)
    requires t.Scalar? && Storable(t) && SameBytes(m', m)
    ensures SameBytes(Store(t, addr, Extract(t, addr, end, m), end, m'), m)
  {
    var n := LoadValue(m, addr, t.bytes, end);
    LoadInRange(m, addr, t.bytes, end);
    SmallMod(n, Pow2(8 * t.bytes));
    WrapPlusPow2(n, 8 * t.bytes);
    WrapPlusPow2(n - Pow2(8 * t.bytes), 8 * t.bytes);
    assert Wrap(Extract(t, addr, end, m).v, 8 * t.bytes) == n;
    ReadAgrees(m, m', addr, t.bytes);
    StoreChangesNothing(m', addr, n, t.bytes, end);
  }

  lemma {:induction false} FieldsStoreOfExtract(fields: seq<SimType>, offs: seq<nat>, addr: int, end: Endness,
                                                m: Memory, m': Memory)
    requires AllStorable(fields) && |fields| == |offs| && SameBytes(m', m)
    ensures var vals := ExtractFields(fields, offs, addr, end, m);
            && |vals| == |fields| && AllShaped(fields, vals)
            && SameBytes(StoreFields(fields, offs, addr, vals, end, m'), m)
    decreases fields, 0
  {
    FieldsFit(fields, offs, addr, end, m);
    if fields != [] {
      var first := Extract(fields[0], addr + offs[0], end, m);
      StoreOfExtract(fields[0], addr + offs[0], end, m, m');
      FieldsStoreOfExtract(fields[1..], offs[1..], addr, end, m, Store(fields[0], addr + offs[0], first, end, m'));
    }
  }

  lemma {:induction false} ElementsStoreOfExtract(t: SimType, addr: int, n: nat, end: Endness, m: Memory, m': Memory)
    requires Storable(t) && SameBytes(m', m)
    ensures var vals := ExtractElements(t, addr, n, end, m);
            |vals| == n && EachShaped(t, vals) && SameBytes(StoreElements(t, addr, vals, end, m'), m)
    decreases t, 1 + n
  {
    ElementsFit(t, addr, n, end, m);
    if n > 0 {
      var first := Extract(t, addr, end, m);
      StoreOfExtract(t, addr, end, m, m');
      ElementsStoreOfExtract(t, addr + Size(t), n - 1, end, m, Store(t, addr, first, end, m'));
    }
  }

  // --------------------------------------------------------------------------
  // Storing in place

  class SimState {
    const end: Endness
    var memory: Memory

    constructor (end: Endness, memory: Memory)
      ensures this.end == end && this.memory == memory
    {
      this.end, this.memory := end, memory;
    }

    method StoreTyped(t: SimType, addr: int, value: Value)
      requires Shaped(t, value)
      modifies this`memory
      ensures memory == Store(t, addr, value, end, old(memory))
      decreases t, 0
    {
      match t
      case Scalar(_, bytes) => memory := StoreValue(memory, addr, Wrap(value.v, 8 * bytes), bytes, end);
      case Struct(fields, packed) =>
        var offsets := OffsetsOf(fields, packed);
        StoreStruct(fields, offsets, addr, value.vals);
      case FixedArray(elem, _) => StoreArray(elem, addr, value.vals);
    }

    method StoreStruct(fields: seq<SimType>, offsets: seq<nat>, addr: int, vals: seq<Value>)
      requires |fields| == |vals| == |offsets| && AllShaped(fields, vals)
      modifies this`memory
      ensures memory == StoreFields(fields, offsets, addr, vals, end, old(memory))
      decreases fields, 0
    {
      var i := 0;
      while i < |fields|
        invariant 0 <= i <= |fields| && AllShaped(fields[i..], vals[i..])
        invariant StoreFields(fields[i..], offsets[i..], addr, vals[i..], end, memory)
               == StoreFields(fields, offsets, addr, vals, end, old(memory))
      {
        assert fields[i..][1..] == fields[i + 1..];
        assert offsets[i..][1..] == offsets[i + 1..] && vals[i..][1..] == vals[i + 1..];
        StoreTyped(fields[i], addr + offsets[i], vals[i]);
        i := i + 1;
      }
    }

    method StoreArray(elem: SimType, addr: int, vals: seq<Value>)
      requires EachShaped(elem, vals)
      modifies this`memory
      ensures memory == StoreElements(elem, addr, vals, end, old(memory))
      decreases elem, 1
    {
      var i := 0;
      ghost var at := addr;
      while i < |vals|
        invariant 0 <= i <= |vals| && EachShaped(elem, vals[i..])
        invariant at == addr + i * Size(elem)
        invariant StoreElements(elem, at, vals[i..], end, memory) == StoreElements(elem, addr, vals, end, old(memory))
      {
        assert vals[i..][1..] == vals[i + 1..];
        StoreTyped(elem, addr + i * Size(elem), vals[i]);
        OneMore(i, Size(elem));
        at, i := at + Size(elem), i + 1;
      }
    }
  }
}

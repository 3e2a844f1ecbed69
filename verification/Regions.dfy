/** KeyedRegion (angr/keyed_region.py): a dictionary of disjoint intervals, sorted
    by start, that stands for a map from every offset to the objects covering it. */
module Regions {
  import opened Wrappers

  /** Objects are only compared, so a number names one. */
  type Obj = nat

  datatype Size = Known(bytes: nat) | UnknownSize

  datatype StoredObject = StoredObject(start: int, obj: Obj, size: Size)

  function Objects(stored: set<StoredObject>): set<Obj> { set so | so in stored :: so.obj }

  /** What `overwrite`, `merge_to_top` and `top` select. */
  datatype Mode = Strong | Weak | ToTop(top: Obj)
  {
    /** The effect of a store on the objects of one item, or of one byte. */
    function Update(stored: set<StoredObject>, so: StoredObject): set<StoredObject>
    {
      match this
      case Strong => {so}
      case Weak => stored + {so}
      case ToTop(top) =>
        if |{so.obj} + Objects(stored)| > 1 then {StoredObject(so.start, top, so.size)} else stored + {so}
    }
  }

  /** A RegionObject. */
  datatype Item = Item(start: int, size: nat, stored: set<StoredObject>)
  {
    function End(): int { start + size }
    predicate Includes(offset: int) { start <= offset < End() }
    function Split(at: int): (r: (Item, Item))
      requires Includes(at)
    {
      (Item(start, at - start, stored), Item(at, End() - at, stored))
    }
    function Updated(mode: Mode, so: StoredObject): Item { this.(stored := mode.Update(stored, so)) }
  }

  type Storage = map<int, Item>

  ghost predicate Keyed(storage: Storage)
  {
    forall k :: k in storage ==> storage[k].start == k && storage[k].size > 0
  }

  /** An item ends before any later one starts. */
  ghost predicate Before(storage: Storage, j: int, k: int)
  {
    j in storage && k in storage && j < k ==> storage[j].End() <= k
  }

  /** Items are keyed by their start, nonempty and disjoint. */
  ghost predicate Valid(storage: Storage)
  {
    Keyed(storage) && forall j, k :: Before(storage, j, k)
  }

  // --------------------------------------------------------------------------
  // Sorted dictionaries

  /** The keys of `irange(lo, hi)`. */
  function Irange(storage: Storage, lo: int, hi: int): set<int> { set k | k in storage && lo <= k <= hi }

  /** The first key of `irange(maximum=offset, reverse=True)`. */
  ghost predicate IsFloor(storage: Storage, offset: int, k: int)
  {
    k in storage && k <= offset && forall j :: j in storage && j <= offset ==> j <= k
  }

  /** The key that follows `key` in `irange(..., hi)`. */
  ghost predicate IsNext(storage: Storage, key: int, hi: int, k: int)
  {
    k in storage && key < k <= hi && forall j :: j in storage && key < j ==> k <= j
  }

  ghost function NextKey(storage: Storage, key: int, hi: int): (r: Option<int>)
    ensures r.Some? ==> IsNext(storage, key, hi, r.value)
  {
    if exists k :: IsNext(storage, key, hi, k) then var k :| IsNext(storage, key, hi, k); Some(k) else None
  }

  /** `_get_container`: the key of the item that includes the offset. */
  ghost function Container(storage: Storage, offset: int): (r: Option<int>)
    ensures r.Some? ==> IsFloor(storage, offset, r.value) && storage[r.value].Includes(offset)
  {
    if exists k :: IsFloor(storage, offset, k) && storage[k].Includes(offset) then
      var k :| IsFloor(storage, offset, k) && storage[k].Includes(offset);
      Some(k)
    else None
  }

  // --------------------------------------------------------------------------
  // What a store computes

  datatype Scan = Scan(update: Storage, lastEnd: int)

  /** One round of the loop over overlapping items. */
  function ScanItem(storage: Storage, key: int, so: StoredObject, end: int, mode: Mode, acc: Scan): Scan
    requires key in storage && storage[key].size > 0
    requires storage[key].start < so.start ==> storage[key].Includes(so.start)
    requires storage[key].start < end
  {
    var item := storage[key];
    if item.start < so.start then
      var (a, b) := item.Split(so.start);
      Scan(acc.update[a.start := a][b.start := b.Updated(mode, so)], b.End())
    else if item.start > acc.lastEnd then
      var gap := Item(acc.lastEnd, item.start - acc.lastEnd, {so});
      Scan(acc.update[gap.start := gap], gap.End())
    else if item.End() > end then
      var (a, b) := item.Split(end);
      Scan(acc.update[a.start := a.Updated(mode, so)][b.start := b], b.End())
    else
      Scan(acc.update[item.start := item.Updated(mode, so)], acc.lastEnd)
  }

  ghost predicate Scannable(storage: Storage, key: int, start: int)
  {
    && key in storage && storage[key].start == key
    && (key < start ==> storage[key].Includes(start))
    && forall k :: k in storage && k > key ==> k >= start && storage[k].start == k && storage[k].size > 0
  }

  /** The loop from `key` on, in key order. */
  ghost function ScanFrom(storage: Storage, key: int, so: StoredObject, end: int, mode: Mode, acc: Scan): Scan
    requires Scannable(storage, key, so.start) && storage[key].size > 0 && key < end
    decreases end - key
  {
    var acc' := ScanItem(storage, key, so, end, mode, acc);
    match NextKey(storage, key, end - 1)
    case None => acc'
    case Some(next) => ScanFrom(storage, next, so, end, mode, acc')
  }

  lemma {:induction false} FloorScannable(storage: Storage, floor: int, start: int)
    requires Keyed(storage) && Container(storage, start) == Some(floor)
    ensures Scannable(storage, floor, start)
  {
  }

  /** `to_update` after the slower path of `__store`. */
  ghost function ToUpdate(storage: Storage, so: StoredObject, n: nat, mode: Mode, floor: int): Storage
    requires n > 0 && floor <= so.start && Scannable(storage, floor, so.start) && storage[floor].size > 0
  {
    ScanFrom(storage, floor, so, so.start + n, mode, Scan(map[so.start := Item(so.start, n, {so})], so.start)).update
  }

  predicate PerfectOverlap(storage: Storage, floor: int, start: int, end: int)
    requires floor in storage
  {
    |Irange(storage, start, end - 1)| == 1 && storage[floor].start == start && storage[floor].End() == end
  }

  /** `__store` for an object of `n` bytes. */
  ghost function Store(storage: Storage, so: StoredObject, n: nat, mode: Mode): Storage
    requires Keyed(storage) && n > 0
  {
    match Container(storage, so.start)
    case None => storage[so.start := Item(so.start, n, {so})]
    case Some(floor) =>
      if PerfectOverlap(storage, floor, so.start, so.start + n)
      then storage[floor := storage[floor].Updated(mode, so)]
      else FloorScannable(storage, floor, so.start); storage + ToUpdate(storage, so, n, mode, floor)
  }

  // --------------------------------------------------------------------------
  // The class

  class KeyedRegion {
    var storage: Storage
    const canonicalSize: nat

    constructor (canonicalSize: nat := 8)
      ensures storage == map[] && this.canonicalSize == canonicalSize
    {
      storage, this.canonicalSize := map[], canonicalSize;
    }

    function CanonicalizeSize(size: Size): nat { if size.UnknownSize? then canonicalSize else size.bytes }

    method GetContainer(offset: int) returns (key: int, found: bool)
      ensures Container(storage, offset) == if found then Some(key) else None
      ensures !found ==> key == offset
    {
      var floor := Floor(offset);
      if floor.None? { return offset, false; }
      var base := floor.value;
      if storage[base].Includes(offset) { return base, true; }
      return offset, false;
    }

    /** A walk over the keys, standing for the library's `irange`. */
    method Floor(offset: int) returns (floor: Option<int>)
      ensures floor.None? <==> forall k :: k in storage ==> k > offset
      ensures floor.Some? ==> IsFloor(storage, offset, floor.value)
    {
      var rest := storage.Keys;
      floor := None;
      while rest != {}
        invariant rest <= storage.Keys
        invariant floor.None? ==> forall k :: k in storage && k !in rest ==> k > offset
        invariant floor.Some? ==> floor.value in storage && floor.value <= offset
        invariant floor.Some? ==> forall k :: k in storage && k !in rest && k <= offset ==> k <= floor.value
      {
        if forall k :: k in storage ==> k !in rest { assert false; }
        var k :| k in storage && k in rest;
        rest := rest - {k};
        if k <= offset && (floor.None? || k > floor.value) { floor := Some(k); }
      }
    }

    method Next(key: int, hi: int) returns (next: Option<int>)
      ensures next == NextKey(storage, key, hi)
    {
      var rest := Irange(storage, key + 1, hi);
      next := None;
      while rest != {}
        invariant rest <= storage.Keys
        invariant next.None? ==> forall k :: k in storage && key < k <= hi ==> k in rest
        invariant next.Some? ==> next.value in storage && key < next.value <= hi
        invariant next.Some? ==> forall k :: k in storage && key < k && k !in rest ==> next.value <= k
      {
        if forall k :: k in storage ==> k !in rest { assert false; }
        var k :| k in storage && k in rest;
        rest := rest - {k};
        if key < k <= hi && (next.None? || k < next.value) { next := Some(k); }
      }
      if next.Some? { assert IsNext(storage, key, hi, next.value); }
    }

    method GetObjectsByOffset(offset: int) returns (objs: set<Obj>)
      requires Valid(storage)
      ensures objs == Objects(At(storage, offset))
    {
      ContainerIsCover(storage, offset);
      var key, found := GetContainer(offset);
      if !found { return {}; }
      return Objects(storage[key].stored);
    }

    method StoreObject(so: StoredObject, mode: Mode)
      requires Keyed(storage) && CanonicalizeSize(so.size) > 0
      modifies this`storage
      ensures storage == Store(old(storage), so, CanonicalizeSize(so.size), mode)
    {
      var start, n := so.start, CanonicalizeSize(so.size);
      var end := start + n;
      var overlapping := Irange(storage, start, end - 1);
      var floor, found := GetContainer(start);
      if !found {
        storage := storage[start := Item(start, n, {so})];
        return;
      }
      var perfect := |overlapping| == 1 && storage[floor].start == start && storage[floor].End() == end;
      assert perfect == PerfectOverlap(storage, floor, start, end);
      if perfect {
        storage := storage[floor := storage[floor].Updated(mode, so)];
        return;
      }
      FloorScannable(storage, floor, start);
      var update := ScanLoop(floor, so, n, mode);
      storage := storage + update;
    }

    method ScanLoop(floor: int, so: StoredObject, n: nat, mode: Mode) returns (update: Storage)
      requires n > 0 && floor <= so.start && Scannable(storage, floor, so.start) && storage[floor].size > 0
      ensures update == ToUpdate(storage, so, n, mode, floor)
    {
      var start, end := so.start, so.start + n;
      update := map[start := Item(start, n, {so})];
      ghost var result := ScanFrom(storage, floor, so, end, mode, Scan(update, start));
      var lastEnd := start;
      var key := Some(floor);
      while key.Some?
        invariant key.None? ==> result == Scan(update, lastEnd)
        invariant key.Some? ==>
          && Scannable(storage, key.value, start) && storage[key.value].size > 0 && key.value < end
          && ScanFrom(storage, key.value, so, end, mode, Scan(update, lastEnd)) == result
        decreases if key.Some? then end - key.value else -1
      {
        update, lastEnd := ScanStep(key.value, so, end, mode, update, lastEnd);
        key := Next(key.value, end - 1);
      }
    }

    method ScanStep(key: int, so: StoredObject, end: int, mode: Mode, update: Storage, lastEnd: int)
      returns (update': Storage, lastEnd': int)
      requires Scannable(storage, key, so.start) && storage[key].size > 0 && key < end
      ensures Scan(update', lastEnd') == ScanItem(storage, key, so, end, mode, Scan(update, lastEnd))
    {
      var item := storage[key];
      update', lastEnd' := update, lastEnd;
      if item.start < so.start {
        var (a, b) := item.Split(so.start);
        b := b.Updated(mode, so);
        update' := update'[a.start := a];
        update' := update'[b.start := b];
        lastEnd' := b.End();
      } else if item.start > lastEnd {
        var gap := Item(lastEnd, item.start - lastEnd, {so});
        update' := update'[gap.start := gap];
        lastEnd' := gap.End();
      } else if item.End() > end {
        var (a, b) := item.Split(end);
        a := a.Updated(mode, so);
        update' := update'[a.start := a];
        update' := update'[b.start := b];
        lastEnd' := b.End();
      } else {
        update' := update'[item.start := item.Updated(mode, so)];
      }
    }
  }

  // --------------------------------------------------------------------------
  // The map from offsets to objects that a region stands for

  ghost predicate Covers(storage: Storage, key: int, offset: int)
  {
    key in storage && storage[key].Includes(offset)
  }

  ghost function At(storage: Storage, offset: int): set<StoredObject>
  {
    if exists k :: Covers(storage, k, offset) then
      var k :| Covers(storage, k, offset);
      storage[k].stored
    else {}
  }

  lemma {:induction false} CoverIsUnique(storage: Storage, offset: int, k: int)
    requires Valid(storage) && Covers(storage, k, offset)
    ensures At(storage, offset) == storage[k].stored
  {
    forall k' | Covers(storage, k', offset) ensures k' == k {
      assert Before(storage, k, k') && Before(storage, k', k);
    }
  }

  lemma {:induction false} CoverIsFloor(storage: Storage, offset: int, k: int)
    requires Valid(storage) && Covers(storage, k, offset)
    ensures IsFloor(storage, offset, k)
  {
    forall j | j in storage && j <= offset ensures j <= k { assert Before(storage, k, j); }
  }

  lemma {:induction false} ContainerIsCover(storage: Storage, offset: int)
    requires Valid(storage)
    ensures Container(storage, offset).Some? <==> exists k :: Covers(storage, k, offset)
    ensures Container(storage, offset).Some? ==> At(storage, offset) == storage[Container(storage, offset).value].stored
  {
    var container := Container(storage, offset);
    if container.Some? {
      assert Covers(storage, container.value, offset);
      CoverIsUnique(storage, offset, container.value);
    } else if k :| Covers(storage, k, offset) {
      CoverIsFloor(storage, offset, k);
    }
  }
}

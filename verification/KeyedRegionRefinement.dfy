/** When `KeyedRegion.__store` is an update of the map from offsets to objects, and when not. */
module KeyedRegionRefinement {
  import opened Wrappers
  import opened Regions

  /** What the objects at an offset should be after a store of `n` bytes. */
  ghost function Expected(storage: Storage, so: StoredObject, n: nat, mode: Mode, offset: int): set<StoredObject>
  {
    if so.start <= offset < so.start + n then mode.Update(At(storage, offset), so) else At(storage, offset)
  }

  /** The result is a region again, and stands for the updated map. */
  ghost predicate Refines(storage: Storage, so: StoredObject, n: nat, mode: Mode, post: Storage)
  {
    Valid(post) && forall offset :: At(post, offset) == Expected(storage, so, n, mode, offset)
  }

  /** The stores that `__store` gets right: into a gap, over an item or a prefix of it, over a suffix of an
      item, or over a suffix of an item and a prefix (or all) of the item right behind it. */
  ghost predicate GoodShape(storage: Storage, start: int, end: int)
  {
    match Container(storage, start)
    case None => forall k :: k in storage ==> !(start <= k < end)
    case Some(floor) =>
      var mid := storage[floor].End();
      if floor == start then mid >= end
      else mid == end || (mid < end && mid in storage && storage[mid].End() >= end)
  }

  ghost predicate SameCover(a: Storage, b: Storage, offset: int)
  {
    forall k :: (Covers(a, k, offset) || Covers(b, k, offset)) ==>
                  Covers(a, k, offset) && Covers(b, k, offset) && a[k].stored == b[k].stored
  }

  lemma {:induction false} SameCoverSameAt(a: Storage, b: Storage, offset: int)
    requires Valid(a) && Valid(b) && SameCover(a, b, offset)
    ensures At(a, offset) == At(b, offset)
  {
    if k :| Covers(a, k, offset) {
      CoverIsUnique(a, offset, k);
      CoverIsUnique(b, offset, k);
    }
  }

  lemma {:induction false} Uncovered(storage: Storage, offset: int)
    requires forall k :: !Covers(storage, k, offset)
    ensures At(storage, offset) == {}
  {
  }

  // --------------------------------------------------------------------------
  // The good shapes, one by one

  lemma {:induction false} GapExpected(storage: Storage, so: StoredObject, n: nat, mode: Mode, offset: int)
    requires Valid(storage) && n > 0
    requires forall k :: k in storage ==> storage[k].End() <= so.start || so.start + n <= k
    ensures var post := storage[so.start := Item(so.start, n, {so})];
            Valid(post) && At(post, offset) == Expected(storage, so, n, mode, offset)
  {
    var post := storage[so.start := Item(so.start, n, {so})];
    forall j, k ensures Before(post, j, k) { assert Before(storage, j, k); }
    if so.start <= offset < so.start + n {
      assert forall k :: !Covers(storage, k, offset);
      Uncovered(storage, offset);
      CoverIsUnique(post, offset, so.start);
      assert {so.obj} + Objects({}) == {so.obj};
    } else {
      SameCoverSameAt(storage, post, offset);
    }
  }

  lemma {:induction false} GapRefines(storage: Storage, so: StoredObject, n: nat, mode: Mode)
    requires Valid(storage) && n > 0
    requires Container(storage, so.start).None? && GoodShape(storage, so.start, so.start + n)
    ensures Refines(storage, so, n, mode, Store(storage, so, n, mode))
  {
    ContainerIsCover(storage, so.start);
    forall k | k in storage
      ensures storage[k].End() <= so.start || so.start + n <= k
    {
      assert !Covers(storage, k, so.start);
    }
    GapExpected(storage, so, n, mode, so.start);
    forall offset { GapExpected(storage, so, n, mode, offset); }
  }

  /** Cutting an item in two, and giving each part its objects. */
  function Cut(storage: Storage, key: int, at: int, head: set<StoredObject>, tail: set<StoredObject>): Storage
    requires key in storage && key < at < storage[key].End()
  {
    storage[key := Item(key, at - key, head)][at := Item(at, storage[key].End() - at, tail)]
  }

  lemma {:induction false} Apart(storage: Storage, key: int)
    requires Valid(storage) && key in storage
    ensures forall k :: k in storage && k != key ==> storage[k].End() <= key || storage[key].End() <= k
  {
    forall k | k in storage && k != key ensures storage[k].End() <= key || storage[key].End() <= k {
      assert Before(storage, k, key) && Before(storage, key, k);
    }
  }

  lemma {:induction false} CutIsValid(storage: Storage, key: int, at: int, head: set<StoredObject>,
                                      tail: set<StoredObject>)
    requires Valid(storage) && key in storage && key < at < storage[key].End()
    ensures Valid(Cut(storage, key, at, head, tail))
  {
    Apart(storage, key);
    var post := Cut(storage, key, at, head, tail);
    forall j, k ensures Before(post, j, k) { assert Before(storage, j, k); }
  }

  lemma {:induction false} CutAt(storage: Storage, key: int, at: int, head: set<StoredObject>, tail: set<StoredObject>,
                                 offset: int)
    requires Valid(storage) && key in storage && key < at < storage[key].End()
    ensures At(Cut(storage, key, at, head, tail), offset) ==
              if key <= offset < at then head
              else if at <= offset < storage[key].End() then tail
              else At(storage, offset)
  {
    var post := Cut(storage, key, at, head, tail);
    CutIsValid(storage, key, at, head, tail);
    if key <= offset < at {
      CoverIsUnique(post, offset, key);
    } else if at <= offset < storage[key].End() {
      CoverIsUnique(post, offset, at);
    } else {
      forall k
        ensures Covers(storage, k, offset) ==> Covers(post, k, offset) && storage[k] == post[k]
      {
        Apart(storage, key);
      }
      SameCoverSameAt(storage, post, offset);
    }
  }

  lemma {:induction false} ReplaceRefines(storage: Storage, key: int, stored: set<StoredObject>, offset: int)
    requires Valid(storage) && key in storage
    ensures var post := storage[key := storage[key].(stored := stored)];
            && Valid(post)
            && At(post, offset) == if storage[key].Includes(offset) then stored else At(storage, offset)
  {
    var post := storage[key := storage[key].(stored := stored)];
    forall j, k ensures Before(post, j, k) { assert Before(storage, j, k); }
    if storage[key].Includes(offset) {
      CoverIsUnique(post, offset, key);
    } else {
      SameCoverSameAt(storage, post, offset);
    }
  }

  lemma {:induction false} NoKeyBehind(storage: Storage, key: int, hi: int)
    requires Valid(storage) && key in storage && hi < storage[key].End()
    ensures NextKey(storage, key, hi).None?
  {
    if k :| IsNext(storage, key, hi, k) { assert Before(storage, key, k); }
  }

  lemma {:induction false} SlowPath(storage: Storage, so: StoredObject, n: nat, mode: Mode, floor: int)
    requires Keyed(storage) && n > 0 && Container(storage, so.start) == Some(floor)
    requires floor != so.start || storage[floor].End() != so.start + n
    ensures Scannable(storage, floor, so.start)
    ensures Store(storage, so, n, mode) == storage + ToUpdate(storage, so, n, mode, floor)
  {
    FloorScannable(storage, floor, so.start);
  }

  lemma {:induction false} PrefixStore(storage: Storage, so: StoredObject, n: nat, mode: Mode)
    requires Valid(storage) && n > 0 && Container(storage, so.start) == Some(so.start)
    requires storage[so.start].End() > so.start + n
    ensures Store(storage, so, n, mode) ==
              var stored := storage[so.start].stored;
              Cut(storage, so.start, so.start + n, mode.Update(stored, so), stored)
  {
    NoKeyBehind(storage, so.start, so.start + n - 1);
  }

  lemma {:induction false} PrefixRefines(storage: Storage, so: StoredObject, n: nat, mode: Mode)
    requires Valid(storage) && n > 0 && Container(storage, so.start) == Some(so.start)
    requires storage[so.start].End() > so.start + n
    ensures Refines(storage, so, n, mode, Store(storage, so, n, mode))
  {
    var start, end, item := so.start, so.start + n, storage[so.start];
    var head := mode.Update(item.stored, so);
    var post := Cut(storage, start, end, head, item.stored);
    assert Refines(storage, so, n, mode, post) by {
      CutIsValid(storage, start, end, head, item.stored);
      forall offset ensures At(post, offset) == Expected(storage, so, n, mode, offset) {
        CutAt(storage, start, end, head, item.stored, offset);
        if item.Includes(offset) { CoverIsUnique(storage, offset, start); }
      }
    }
    PrefixStore(storage, so, n, mode);
  }

  lemma {:induction false} WholeStore(storage: Storage, so: StoredObject, n: nat, mode: Mode)
    requires Valid(storage) && n > 0 && Container(storage, so.start) == Some(so.start)
    requires storage[so.start].End() == so.start + n
    ensures Store(storage, so, n, mode) == storage[so.start := storage[so.start].Updated(mode, so)]
  {
    NoKeyBehind(storage, so.start, so.start + n - 1);
  }

  lemma {:induction false} WholeRefines(storage: Storage, so: StoredObject, n: nat, mode: Mode)
    requires Valid(storage) && n > 0 && Container(storage, so.start) == Some(so.start)
    requires storage[so.start].End() == so.start + n
    ensures Refines(storage, so, n, mode, Store(storage, so, n, mode))
  {
    var start, item := so.start, storage[so.start];
    var stored := mode.Update(item.stored, so);
    WholeStore(storage, so, n, mode);
    ReplaceRefines(storage, start, stored, start);
    forall offset ensures At(Store(storage, so, n, mode), offset) == Expected(storage, so, n, mode, offset) {
      ReplaceRefines(storage, start, stored, offset);
      if item.Includes(offset) { CoverIsUnique(storage, offset, start); }
    }
  }

  lemma {:induction false} SuffixStore(storage: Storage, so: StoredObject, n: nat, mode: Mode, floor: int)
    requires Valid(storage) && n > 0 && Container(storage, so.start) == Some(floor) && floor < so.start
    requires storage[floor].End() >= so.start + n
    ensures Store(storage, so, n, mode) ==
              var stored := storage[floor].stored; Cut(storage, floor, so.start, stored, mode.Update(stored, so))
  {
    NoKeyBehind(storage, floor, so.start + n - 1);
  }

  lemma {:induction false} SuffixRefines(storage: Storage, so: StoredObject, n: nat, mode: Mode, floor: int)
    requires Valid(storage) && n > 0 && Container(storage, so.start) == Some(floor) && floor < so.start
    requires storage[floor].End() == so.start + n
    ensures Refines(storage, so, n, mode, Store(storage, so, n, mode))
  {
    var start, item := so.start, storage[floor];
    var tail := mode.Update(item.stored, so);
    var post := Cut(storage, floor, start, item.stored, tail);
    assert Refines(storage, so, n, mode, post) by {
      CutIsValid(storage, floor, start, item.stored, tail);
      forall offset ensures At(post, offset) == Expected(storage, so, n, mode, offset) {
        CutAt(storage, floor, start, item.stored, tail, offset);
        if item.Includes(offset) { CoverIsUnique(storage, offset, floor); }
      }
    }
    SuffixStore(storage, so, n, mode, floor);
  }

  lemma {:induction false} AcrossScan(storage: Storage, so: StoredObject, end: int, mode: Mode, floor: int, mid: int,
                                      acc: Scan)
    requires Valid(storage) && Container(storage, so.start) == Some(floor) && floor < so.start < mid < end
    requires mid == storage[floor].End() && mid in storage && storage[mid].End() >= end
    ensures Scannable(storage, floor, so.start)
    ensures var first := storage[floor].stored;
            ScanFrom(storage, floor, so, end, mode, acc) ==
            ScanItem(storage, mid, so, end, mode,
              Scan(acc.update[floor := Item(floor, so.start - floor, first)]
                             [so.start := Item(so.start, mid - so.start, mode.Update(first, so))], mid))
  {
    FloorScannable(storage, floor, so.start);
    Apart(storage, floor);
    assert IsNext(storage, floor, end - 1, mid);
    NoKeyBehind(storage, mid, end - 1);
  }

  function Across(storage: Storage, so: StoredObject, end: int, mode: Mode, floor: int, mid: int): Storage
    requires floor in storage && mid in storage && floor < so.start < mid < end && mid == storage[floor].End()
    requires storage[mid].End() >= end
  {
    var first, second := storage[floor].stored, storage[mid];
    var cut := Cut(storage, floor, so.start, first, mode.Update(first, so));
    if second.End() > end then Cut(cut, mid, end, mode.Update(second.stored, so), second.stored)
    else cut[mid := second.Updated(mode, so)]
  }

  /** `to_update` once both items have been handled. */
  function AcrossUpdate(storage: Storage, so: StoredObject, n: nat, mode: Mode, floor: int, mid: int): Storage
    requires floor in storage && mid in storage && floor < so.start < mid < so.start + n && mid == storage[floor].End()
    requires storage[mid].start == mid && storage[mid].size > 0
  {
    var first := storage[floor].stored;
    ScanItem(storage, mid, so, so.start + n, mode,
      Scan(map[so.start := Item(so.start, n, {so})]
              [floor := Item(floor, so.start - floor, first)]
              [so.start := Item(so.start, mid - so.start, mode.Update(first, so))], mid)).update
  }

  lemma {:induction false} AcrossMaps(storage: Storage, so: StoredObject, n: nat, mode: Mode, floor: int, mid: int)
    requires floor in storage && mid in storage && floor < so.start < mid < so.start + n && mid == storage[floor].End()
    requires storage[floor].start == floor && storage[mid].start == mid && storage[mid].End() >= so.start + n
    ensures storage + AcrossUpdate(storage, so, n, mode, floor, mid)
         == Across(storage, so, so.start + n, mode, floor, mid)
  {
  }

  lemma {:induction false} AcrossToUpdate(storage: Storage, so: StoredObject, n: nat, mode: Mode, floor: int, mid: int)
    requires Valid(storage) && Container(storage, so.start) == Some(floor) && floor < so.start < mid < so.start + n
    requires mid == storage[floor].End() && mid in storage && storage[mid].End() >= so.start + n
    ensures Scannable(storage, floor, so.start)
    ensures ToUpdate(storage, so, n, mode, floor) == AcrossUpdate(storage, so, n, mode, floor, mid)
  {
    AcrossScan(storage, so, so.start + n, mode, floor, mid, Scan(map[so.start := Item(so.start, n, {so})], so.start));
  }

  /** A store that starts inside one item and ends in the item right behind it. */
  lemma {:induction false} AcrossStore(storage: Storage, so: StoredObject, n: nat, mode: Mode, floor: int, mid: int)
    requires Valid(storage) && Container(storage, so.start) == Some(floor) && floor < so.start < mid < so.start + n
    requires mid == storage[floor].End() && mid in storage && storage[mid].End() >= so.start + n
    ensures Store(storage, so, n, mode) == Across(storage, so, so.start + n, mode, floor, mid)
  {
    SlowPath(storage, so, n, mode, floor);
    AcrossToUpdate(storage, so, n, mode, floor, mid);
    AcrossMaps(storage, so, n, mode, floor, mid);
  }

  lemma {:induction false} AcrossIsValid(storage: Storage, so: StoredObject, end: int, mode: Mode, floor: int,
                                         mid: int, offset: int)
    requires Valid(storage) && floor in storage && mid in storage
    requires floor < so.start < mid < end && mid == storage[floor].End()
    requires storage[mid].End() >= end
    ensures Valid(Across(storage, so, end, mode, floor, mid))
    ensures At(Across(storage, so, end, mode, floor, mid), offset) ==
              if so.start <= offset < mid then mode.Update(storage[floor].stored, so)
              else if mid <= offset < end then mode.Update(storage[mid].stored, so)
              else At(storage, offset)
  {
    var item, second := storage[floor], storage[mid];
    var tail, head := mode.Update(item.stored, so), mode.Update(second.stored, so);
    var cut := Cut(storage, floor, so.start, item.stored, tail);
    CutIsValid(storage, floor, so.start, item.stored, tail);
    CutAt(storage, floor, so.start, item.stored, tail, offset);
    if second.End() > end {
      CutIsValid(cut, mid, end, head, second.stored);
      CutAt(cut, mid, end, head, second.stored, offset);
    } else {
      ReplaceRefines(cut, mid, head, offset);
    }
    if item.Includes(offset) { CoverIsUnique(storage, offset, floor); }
    if second.Includes(offset) { CoverIsUnique(storage, offset, mid); }
  }

  lemma {:induction false} AcrossExpected(storage: Storage, so: StoredObject, n: nat, mode: Mode, floor: int, mid: int,
                                          offset: int)
    requires Valid(storage) && floor in storage && mid in storage && floor < so.start < mid < so.start + n
    requires mid == storage[floor].End() && storage[mid].End() >= so.start + n
    ensures At(Across(storage, so, so.start + n, mode, floor, mid), offset) == Expected(storage, so, n, mode, offset)
  {
    AcrossIsValid(storage, so, so.start + n, mode, floor, mid, offset);
    if so.start <= offset < mid { CoverIsUnique(storage, offset, floor); }
    if mid <= offset < so.start + n { CoverIsUnique(storage, offset, mid); }
  }

  lemma {:induction false} AcrossMapRefines(storage: Storage, so: StoredObject, n: nat, mode: Mode, floor: int,
                                            mid: int)
    requires Valid(storage) && floor in storage && mid in storage && floor < so.start < mid < so.start + n
    requires mid == storage[floor].End() && storage[mid].End() >= so.start + n
    ensures Refines(storage, so, n, mode, Across(storage, so, so.start + n, mode, floor, mid))
  {
    AcrossIsValid(storage, so, so.start + n, mode, floor, mid, floor);
    forall offset { AcrossExpected(storage, so, n, mode, floor, mid, offset); }
  }

  lemma {:induction false} AcrossRefines(storage: Storage, so: StoredObject, n: nat, mode: Mode, floor: int, mid: int)
    requires Valid(storage) && Container(storage, so.start) == Some(floor) && floor < so.start < mid < so.start + n
    requires mid == storage[floor].End() && mid in storage && storage[mid].End() >= so.start + n
    ensures Refines(storage, so, n, mode, Store(storage, so, n, mode))
  {
    AcrossMapRefines(storage, so, n, mode, floor, mid);
    AcrossStore(storage, so, n, mode, floor, mid);
  }

  /** On every good shape, in every mode, a store is the update of the map. */
  lemma {:induction false} StoreRefines(storage: Storage, so: StoredObject, n: nat, mode: Mode)
    requires Valid(storage) && n > 0 && GoodShape(storage, so.start, so.start + n)
    ensures Refines(storage, so, n, mode, Store(storage, so, n, mode))
  {
    match Container(storage, so.start)
    case None => GapRefines(storage, so, n, mode);
    case Some(floor) =>
      var end, mid := so.start + n, storage[floor].End();
      if floor == so.start {
        if mid == end { WholeRefines(storage, so, n, mode); } else { PrefixRefines(storage, so, n, mode); }
      } else {
        if mid == end {
          SuffixRefines(storage, so, n, mode, floor);
        } else {
          AcrossRefines(storage, so, n, mode, floor, mid);
        }
      }
  }

  // --------------------------------------------------------------------------
  // Every other shape goes wrong

  /** The object is new to the region, and the mode keeps it. */
  ghost predicate Fresh(storage: Storage, so: StoredObject, mode: Mode)
  {
    !mode.ToTop? && forall k :: k in storage ==> so !in storage[k].stored
  }

  /** After the update the item at `offset` is as before, or nothing covers `offset`. */
  ghost predicate Missed(storage: Storage, update: Storage, offset: int)
  {
    (offset in storage && offset !in update) || Unreached(storage, update, offset)
  }

  ghost predicate Unreached(storage: Storage, update: Storage, offset: int)
  {
    && (forall k :: k in storage && k !in update ==> !storage[k].Includes(offset))
    && (forall k :: k in update ==> !update[k].Includes(offset))
  }

  lemma {:induction false} MissedFails(storage: Storage, so: StoredObject, n: nat, mode: Mode, update: Storage,
                                       offset: int)
    requires Valid(storage) && Fresh(storage, so, mode) && so.start <= offset < so.start + n
    requires Missed(storage, update, offset)
    ensures !Refines(storage, so, n, mode, storage + update)
  {
    var post := storage + update;
    assert so in Expected(storage, so, n, mode, offset);
    if Unreached(storage, update, offset) {
      assert forall k :: !Covers(post, k, offset);
      Uncovered(post, offset);
    } else if Valid(post) {
      CoverIsUnique(post, offset, offset);
    }
  }

  /** Once the loop fills a gap before an item it never updates an item again. */
  lemma {:induction false} LastItemSkipped(storage: Storage, key: int, so: StoredObject, end: int, mode: Mode,
                                           acc: Scan)
    returns (last: int)
    requires Scannable(storage, key, so.start) && storage[key].size > 0 && so.start <= key < end
    requires key > acc.lastEnd && forall k :: k in acc.update ==> k < key
    ensures key <= last < end && last in storage
    ensures last !in ScanFrom(storage, key, so, end, mode, acc).update
    decreases end - key
  {
    var acc' := ScanItem(storage, key, so, end, mode, acc);
    match NextKey(storage, key, end - 1)
    case None => last := key;
    case Some(next) => last := LastItemSkipped(storage, next, so, end, mode, acc');
  }

  lemma {:induction false} NoNextKey(storage: Storage, key: int, hi: int)
    requires NextKey(storage, key, hi).None?
    ensures forall k :: k in storage && key < k ==> k > hi
  {
    if k :| k in storage && key < k <= hi { var _ := LeastKey(storage, key, hi, k); }
  }

  lemma {:induction false} LeastKey(storage: Storage, key: int, hi: int, k: int) returns (least: int)
    requires k in storage && key < k <= hi
    ensures IsNext(storage, key, hi, least)
    decreases k - key
  {
    if j :| j in storage && key < j < k { least := LeastKey(storage, key, hi, j); } else { least := k; }
  }

  lemma {:induction false} OverrunGapFails(storage: Storage, so: StoredObject, n: nat, mode: Mode)
    requires Valid(storage) && n > 0 && Container(storage, so.start).None?
    requires !GoodShape(storage, so.start, so.start + n)
    ensures !Refines(storage, so, n, mode, Store(storage, so, n, mode))
  {
    var k :| k in storage && so.start <= k < so.start + n;
    ContainerIsCover(storage, so.start);
    assert !Covers(storage, k, so.start);
    var post := Store(storage, so, n, mode);
    assert !Before(post, so.start, k);
  }

  /** The item at `key` is updated, and what follows it up to the end of the store is missed. */
  lemma {:induction false} PastItemMissed(storage: Storage, so: StoredObject, end: int, mode: Mode, key: int, acc: Scan)
    returns (offset: int)
    requires Valid(storage) && Scannable(storage, key, so.start)
    requires so.start <= key == acc.lastEnd && storage[key].size > 0 && storage[key].End() < end
    requires forall k :: k in acc.update && k != key ==> k < key && acc.update[k].End() <= key
    ensures key < offset < end && Missed(storage, ScanFrom(storage, key, so, end, mode, acc).update, offset)
  {
    var acc' := ScanItem(storage, key, so, end, mode, acc);
    match NextKey(storage, key, end - 1)
    case None =>
      NoNextKey(storage, key, end - 1);
      Apart(storage, key);
      offset := end - 1;
    case Some(next) =>
      offset := LastItemSkipped(storage, next, so, end, mode, acc');
  }

  lemma {:induction false} FromStartFails(storage: Storage, so: StoredObject, n: nat, mode: Mode)
    requires Valid(storage) && n > 0 && Container(storage, so.start) == Some(so.start)
    requires Fresh(storage, so, mode) && storage[so.start].End() < so.start + n
    ensures !Refines(storage, so, n, mode, Store(storage, so, n, mode))
  {
    SlowPath(storage, so, n, mode, so.start);
    var acc := Scan(map[so.start := Item(so.start, n, {so})], so.start);
    var offset := PastItemMissed(storage, so, so.start + n, mode, so.start, acc);
    MissedFails(storage, so, n, mode, ToUpdate(storage, so, n, mode, so.start), offset);
  }

  lemma {:induction false} InsideFails(storage: Storage, so: StoredObject, n: nat, mode: Mode, floor: int)
    requires Valid(storage) && n > 0 && Container(storage, so.start) == Some(floor) && floor < so.start
    requires Fresh(storage, so, mode) && storage[floor].End() > so.start + n
    ensures !Refines(storage, so, n, mode, Store(storage, so, n, mode))
  {
    var end, stored := so.start + n, storage[floor].stored;
    SuffixStore(storage, so, n, mode, floor);
    CutAt(storage, floor, so.start, stored, mode.Update(stored, so), end);
    CoverIsUnique(storage, end, floor);
    assert so in At(Store(storage, so, n, mode), end) && so !in Expected(storage, so, n, mode, end);
  }

  /** `to_update` and `last_end` once the first item has been cut. */
  function AfterCut(storage: Storage, so: StoredObject, n: nat, mode: Mode, floor: int): Scan
    requires floor in storage && floor < so.start < storage[floor].End()
  {
    var item := storage[floor];
    Scan(map[so.start := Item(so.start, n, {so})]
            [floor := Item(floor, so.start - floor, item.stored)]
            [so.start := Item(so.start, item.End() - so.start, mode.Update(item.stored, so))], item.End())
  }

  lemma {:induction false} CutScan(storage: Storage, so: StoredObject, n: nat, mode: Mode, floor: int)
    requires Keyed(storage) && n > 0 && Container(storage, so.start) == Some(floor) && floor < so.start
    ensures Scannable(storage, floor, so.start)
    ensures var acc := AfterCut(storage, so, n, mode, floor);
            ToUpdate(storage, so, n, mode, floor) ==
              match NextKey(storage, floor, so.start + n - 1)
              case None => acc.update
              case Some(next) => ScanFrom(storage, next, so, so.start + n, mode, acc).update
  {
    FloorScannable(storage, floor, so.start);
  }

  lemma {:induction false} BehindCutMissed(storage: Storage, so: StoredObject, n: nat, mode: Mode, floor: int,
                                           mid: int, next: int)
    returns (offset: int)
    requires Valid(storage) && floor in storage && floor < so.start < mid == storage[floor].End()
    requires IsNext(storage, floor, so.start + n - 1, next) && (next == mid ==> storage[mid].End() < so.start + n)
    ensures Scannable(storage, next, so.start) && so.start <= offset < so.start + n
    ensures var acc := AfterCut(storage, so, n, mode, floor);
            Missed(storage, ScanFrom(storage, next, so, so.start + n, mode, acc).update, offset)
  {
    var acc := AfterCut(storage, so, n, mode, floor);
    assert mid <= next by { assert Before(storage, floor, next); }
    if next == mid {
      offset := PastItemMissed(storage, so, so.start + n, mode, mid, acc);
    } else {
      offset := LastItemSkipped(storage, next, so, so.start + n, mode, acc);
    }
  }

  lemma {:induction false} FromInsideMissed(storage: Storage, so: StoredObject, n: nat, mode: Mode, floor: int,
                                            mid: int)
    returns (offset: int)
    requires Valid(storage) && n > 0 && Container(storage, so.start) == Some(floor) && floor < so.start
    requires mid == storage[floor].End() && mid < so.start + n && (mid !in storage || storage[mid].End() < so.start + n)
    ensures Scannable(storage, floor, so.start)
    ensures so.start <= offset < so.start + n && Missed(storage, ToUpdate(storage, so, n, mode, floor), offset)
  {
    CutScan(storage, so, n, mode, floor);
    match NextKey(storage, floor, so.start + n - 1)
    case None =>
      NoNextKey(storage, floor, so.start + n - 1);
      Apart(storage, floor);
      offset := so.start + n - 1;
    case Some(next) =>
      offset := BehindCutMissed(storage, so, n, mode, floor, mid, next);
  }

  lemma {:induction false} FromInsideFails(storage: Storage, so: StoredObject, n: nat, mode: Mode, floor: int, mid: int)
    requires Valid(storage) && n > 0 && Container(storage, so.start) == Some(floor) && floor < so.start
    requires Fresh(storage, so, mode) && mid == storage[floor].End() && mid < so.start + n
    requires mid !in storage || storage[mid].End() < so.start + n
    ensures !Refines(storage, so, n, mode, Store(storage, so, n, mode))
  {
    var offset := FromInsideMissed(storage, so, n, mode, floor, mid);
    SlowPath(storage, so, n, mode, floor);
    MissedFails(storage, so, n, mode, ToUpdate(storage, so, n, mode, floor), offset);
  }

  /** For an object the region does not hold yet, a strong or weak store is the update of the map if and
      only if its shape is good. */
  lemma {:induction false} StoreRefinesExactly(storage: Storage, so: StoredObject, n: nat, mode: Mode)
    requires Valid(storage) && n > 0 && Fresh(storage, so, mode)
    ensures Refines(storage, so, n, mode, Store(storage, so, n, mode)) <==> GoodShape(storage, so.start, so.start + n)
  {
    if GoodShape(storage, so.start, so.start + n) {
      StoreRefines(storage, so, n, mode);
    } else {
      match Container(storage, so.start)
      case None => OverrunGapFails(storage, so, n, mode);
      case Some(floor) =>
        var end, mid := so.start + n, storage[floor].End();
        if floor == so.start { FromStartFails(storage, so, n, mode); }
        else if mid > end { InsideFails(storage, so, n, mode, floor); }
        else { FromInsideFails(storage, so, n, mode, floor, mid); }
    }
  }

  /** What a store of a good shape leaves at an offset. A strong one leaves only the new object, a weak one adds it.
      Merging to top adds it where all the objects are the same one, and leaves only top elsewhere. Other offsets
      are as before. */
  lemma {:induction false} StoreLeaves(storage: Storage, so: StoredObject, n: nat, mode: Mode, offset: int)
    requires Valid(storage) && n > 0 && GoodShape(storage, so.start, so.start + n)
    ensures var (before, after) := (At(storage, offset), At(Store(storage, so, n, mode), offset));
            if so.start <= offset < so.start + n then
              && (mode.Strong? ==> after == {so})
              && (mode.Weak? ==> forall o :: o in after <==> o in before || o == so)
              && (mode.ToTop? && (forall o :: o in before ==> o.obj == so.obj) ==> after == before + {so})
              && (mode.ToTop? && !(forall o :: o in before ==> o.obj == so.obj) ==>
                    after == {StoredObject(so.start, mode.top, so.size)})
            else after == before
  {
    StoreRefines(storage, so, n, mode);
    OneObject(At(storage, offset), so);
  }

  lemma {:induction false} OneObject(stored: set<StoredObject>, so: StoredObject)
    ensures |{so.obj} + Objects(stored)| > 1 <==> exists o :: o in stored && o.obj != so.obj
  {
    var all := {so.obj} + Objects(stored);
    if o :| o in stored && o.obj != so.obj {
      assert o.obj in Objects(stored);
      assert {so.obj} < all;
      SmallerSubset({so.obj}, all);
    } else {
      assert all == {so.obj};
    }
  }

  lemma {:induction false} SmallerSubset(a: set<Obj>, b: set<Obj>)
    requires a < b
    ensures |a| < |b|
  {
    var rest := b - a;
    assert b == a + rest && rest != {};
  }

  /** A store over two items, from the start of the first: the second one is missed. */
  lemma {:induction false} TwoItemsWrong() returns (storage: Storage, so: StoredObject)
    ensures Valid(storage) && Fresh(storage, so, Strong)
    ensures !Refines(storage, so, 2, Strong, Store(storage, so, 2, Strong))
  {
    var a, b := StoredObject(0, 0, Known(1)), StoredObject(1, 1, Known(1));
    storage, so := map[0 := Item(0, 1, {a}), 1 := Item(1, 1, {b})], StoredObject(0, 2, Known(2));
    assert Covers(storage, 0, 0);
    ContainerIsCover(storage, 0);
    assert Container(storage, 0) == Some(0);
    StoreRefinesExactly(storage, so, 2, Strong);
  }

  /** What a weak store strictly inside an item does instead: it adds the object to the item's tail too. */
  lemma {:induction false} WeakInsideOverApproximates(storage: Storage, so: StoredObject, n: nat, floor: int,
                                                      offset: int)
    requires Valid(storage) && n > 0 && Container(storage, so.start) == Some(floor) && floor < so.start
    requires storage[floor].End() > so.start + n
    ensures Valid(Store(storage, so, n, Weak))
    ensures At(Store(storage, so, n, Weak), offset) ==
              if so.start <= offset < storage[floor].End() then At(storage, offset) + {so} else At(storage, offset)
    ensures Expected(storage, so, n, Weak, offset) <= At(Store(storage, so, n, Weak), offset)
  {
    var stored := storage[floor].stored;
    SuffixStore(storage, so, n, Weak, floor);
    CutIsValid(storage, floor, so.start, stored, stored + {so});
    CutAt(storage, floor, so.start, stored, stored + {so}, offset);
    if storage[floor].Includes(offset) { CoverIsUnique(storage, offset, floor); }
  }

  // --------------------------------------------------------------------------
  // Whole runs

  datatype Request = Request(so: StoredObject, n: nat, mode: Mode)

  ghost predicate GoodRun(storage: Storage, requests: seq<Request>)
    requires Valid(storage)
    decreases |requests|
  {
    requests == [] ||
    (&& requests[0].n > 0 && GoodShape(storage, requests[0].so.start, requests[0].so.start + requests[0].n)
     && var post := Store(storage, requests[0].so, requests[0].n, requests[0].mode);
        Valid(post) && GoodRun(post, requests[1..]))
  }

  ghost function StoreAll(storage: Storage, requests: seq<Request>): Storage
    requires Valid(storage) && GoodRun(storage, requests)
    decreases |requests|
  {
    if requests == [] then storage
    else StoreAll(Store(storage, requests[0].so, requests[0].n, requests[0].mode), requests[1..])
  }

  /** The requests applied to one byte. */
  function ByteAfter(stored: set<StoredObject>, requests: seq<Request>, offset: int): set<StoredObject>
    decreases |requests|
  {
    if requests == [] then stored
    else
      var r := requests[0];
      var stored' := if r.so.start <= offset < r.so.start + r.n then r.mode.Update(stored, r.so) else stored;
      ByteAfter(stored', requests[1..], offset)
  }

  /** Over any run of good stores, items stay disjoint and every lookup is the byte map's. */
  lemma {:induction false} RunRefines(storage: Storage, requests: seq<Request>, offset: int)
    requires Valid(storage) && GoodRun(storage, requests)
    ensures Valid(StoreAll(storage, requests))
    ensures At(StoreAll(storage, requests), offset) == ByteAfter(At(storage, offset), requests, offset)
    decreases |requests|
  {
    if requests != [] {
      var r := requests[0];
      StoreRefines(storage, r.so, r.n, r.mode);
      RunRefines(Store(storage, r.so, r.n, r.mode), requests[1..], offset);
    }
  }
}

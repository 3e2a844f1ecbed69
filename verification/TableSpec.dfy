/** Dumping a table of strings and pointers, as for argv and envp, below an address. */
module TableSpec {
  import opened BitVec
  import opened MachineState

  /** A string is kept with its terminating NUL. */
  datatype Item = Str(bytes: seq<Byte>) | Pointer(value: nat)

  datatype Arch = Arch(word: nat, end: Endness)

  function StringLength(item: Item): nat { if item.Str? then |item.bytes| else 0 }

  function StringBytes(items: seq<Item>): nat
  {
    if items == [] then 0 else StringLength(items[0]) + StringBytes(items[1..])
  }

  /** Where the string of entry i goes when strings start at s. */
  function StringAddress(items: seq<Item>, s: int, i: nat): int
    requires i < |items|
  {
    s + StringBytes(items[..i])
  }

  /** One entry: its word at p, and its string, if it has one, at s. */
  function DumpOne(arch: Arch, item: Item, p: int, s: nat, m: Memory): Memory
  {
    match item
    case Str(bytes) => Write(StoreValue(m, p, s, arch.word, arch.end), s, bytes)
    case Pointer(v) => StoreValue(m, p, v, arch.word, arch.end)
  }

  function DumpItems(arch: Arch, items: seq<Item>, p: int, s: nat, m: Memory): Memory
    decreases |items|
  {
    if items == [] then m
    else DumpItems(arch, items[1..], p + arch.word, s + StringLength(items[0]), DumpOne(arch, items[0], p, s, m))
  }

  // --------------------------------------------------------------------------
  // What is where afterwards

  /** Bytes in neither range are as they were. */
  ghost predicate Within(m: Memory, m': Memory, lo: int, hi: int, lo': int, hi': int)
  {
    forall k :: !(lo <= k < hi) && !(lo' <= k < hi') ==> At(m', k) == At(m, k)
  }

  lemma {:induction false} OneWithin(arch: Arch, item: Item, p: int, s: nat, m: Memory)
    ensures Within(m, DumpOne(arch, item, p, s, m), p, p + arch.word, s, s + StringLength(item))
  {
    StoreWithin(m, p, if item.Str? then s else item.value, arch);
    if item.Str? { WriteWithin(StoreValue(m, p, s, arch.word, arch.end), s, item.bytes); }
  }

  lemma {:induction false} DumpWithin(arch: Arch, items: seq<Item>, p: int, s: nat, m: Memory)
    ensures Within(m, DumpItems(arch, items, p, s, m), p, p + Times(|items|, arch.word), s, s + StringBytes(items))
    decreases |items|
  {
    if items != [] {
      OneWithin(arch, items[0], p, s, m);
      DumpWithin(arch, items[1..], p + arch.word, s + StringLength(items[0]), DumpOne(arch, items[0], p, s, m));
    }
  }

  lemma {:induction false} StoreWithin(m: Memory, p: int, v: nat, arch: Arch)
    ensures forall k :: !(p <= k < p + arch.word) ==> At(StoreValue(m, p, v, arch.word, arch.end), k) == At(m, k)
  {
    WriteWithin(m, p, Ordered(Bytes(v, arch.word), arch.end));
  }

  lemma {:induction false} WriteWithin(m: Memory, a: int, bytes: seq<Byte>)
    ensures forall k :: !(a <= k < a + |bytes|) ==> At(Write(m, a, bytes), k) == At(m, k)
  {
    forall k | !(a <= k < a + |bytes|) ensures At(Write(m, a, bytes), k) == At(m, k) { WriteAt(m, a, bytes, k); }
  }

  /** Pointers fit in a word. */
  predicate Fits(arch: Arch, items: seq<Item>)
  {
    forall i :: 0 <= i < |items| && items[i].Pointer? ==> items[i].value < Pow2(8 * arch.word)
  }

  /** An entry is in memory: its word at p is the pointer, or the address of its string. */
  ghost predicate Holds(arch: Arch, item: Item, p: int, s: int, m: Memory)
  {
    var w := LoadValue(m, p, arch.word, arch.end);
    match item
    case Pointer(v) => w == v
    case Str(bytes) => w == s && Read(m, s, |bytes|) == bytes
  }

  lemma {:induction false} OneHolds(arch: Arch, item: Item, p: int, s: nat, m: Memory)
    requires (item.Pointer? ==> item.value < Pow2(8 * arch.word)) && p + arch.word <= s && s < Pow2(8 * arch.word)
    ensures Holds(arch, item, p, s, DumpOne(arch, item, p, s, m))
  {
    var value := if item.Str? then s else item.value;
    var m1 := StoreValue(m, p, value, arch.word, arch.end);
    LoadOfStore(m, p, value, arch.word, arch.end);
    if item.Str? {
      ReadOfWrite(m1, s, item.bytes);
      ReadElsewhere(m1, s, item.bytes, p, arch.word);
    }
  }

  lemma {:induction false} HoldsKept(arch: Arch, item: Item, p: int, s: int, m: Memory, m': Memory, lo: int, hi: int,
                                     lo': int, hi': int)
    requires Holds(arch, item, p, s, m) && Within(m, m', lo, hi, lo', hi')
    requires p + arch.word <= lo && p + arch.word <= lo' && hi <= s && s + StringLength(item) <= lo'
    ensures Holds(arch, item, p, s, m')
  {
    ReadAgrees(m, m', p, arch.word);
    if item.Str? { ReadAgrees(m, m', s, |item.bytes|); }
  }

  lemma {:induction false} FirstEntry(arch: Arch, item: Item, rest: seq<Item>, p: int, s: nat, m: Memory)
    requires (item.Pointer? ==> item.value < Pow2(8 * arch.word)) && s < Pow2(8 * arch.word)
    requires p + arch.word + Times(|rest|, arch.word) <= s
    ensures Holds(arch, item, p, s,
                  DumpItems(arch, rest, p + arch.word, s + StringLength(item), DumpOne(arch, item, p, s, m)))
  {
    var m1, next := DumpOne(arch, item, p, s, m), s + StringLength(item);
    var m2 := DumpItems(arch, rest, p + arch.word, next, m1);
    OneHolds(arch, item, p, s, m);
    DumpWithin(arch, rest, p + arch.word, next, m1);
    HoldsKept(arch, item, p, s, m1, m2, p + arch.word, p + arch.word + Times(|rest|, arch.word), next,
              next + StringBytes(rest));
  }

  /** Every entry is in memory, words from p on and strings from s on. */
  ghost predicate Stored(arch: Arch, items: seq<Item>, p: int, s: int, m: Memory)
    decreases |items|
  {
    if items == [] then true
    else Holds(arch, items[0], p, s, m) && Stored(arch, items[1..], p + arch.word, s + StringLength(items[0]), m)
  }

  lemma {:induction false} DumpStores(arch: Arch, items: seq<Item>, p: int, s: nat, m: Memory)
    requires Fits(arch, items) && p + Times(|items|, arch.word) <= s && s + StringBytes(items) < Pow2(8 * arch.word)
    ensures Stored(arch, items, p, s, DumpItems(arch, items, p, s, m))
    decreases |items|
  {
    if items != [] {
      FirstEntry(arch, items[0], items[1..], p, s, m);
      DumpStores(arch, items[1..], p + arch.word, s + StringLength(items[0]), DumpOne(arch, items[0], p, s, m));
    }
  }

  /** What word i of the table must be: the pointer, or the address of the entry's string. */
  function Expected(items: seq<Item>, s: int, i: nat): int
    requires i < |items|
  {
    if items[i].Pointer? then items[i].value else StringAddress(items, s, i)
  }

  /** Word i read back is the i-th pointer, or the address of the i-th entry's bytes. */
  lemma {:induction false} EntryOf(arch: Arch, items: seq<Item>, p: int, s: int, m: Memory, i: nat)
    requires i < |items| && Stored(arch, items, p, s, m)
    ensures LoadValue(m, p + Times(i, arch.word), arch.word, arch.end) == Expected(items, s, i)
    ensures items[i].Str? ==> Read(m, StringAddress(items, s, i), |items[i].bytes|) == items[i].bytes
    decreases |items|
  {
    if i > 0 {
      EntryOf(arch, items[1..], p + arch.word, s + StringLength(items[0]), m, i - 1);
      LaterAddress(items, s, i);
    }
  }

  lemma {:induction false} LaterAddress(items: seq<Item>, s: int, i: nat)
    requires 0 < i < |items|
    ensures StringAddress(items, s, i) == StringAddress(items[1..], s + StringLength(items[0]), i - 1)
  {
    assert items[..i][1..] == items[1..][..i - 1] && items[..i][0] == items[0];
  }

  lemma {:induction false} StoredKept(arch: Arch, items: seq<Item>, p: int, s: int, m: Memory, m': Memory, hi: int)
    requires Stored(arch, items, p, s, m) && (forall k :: k < hi ==> At(m', k) == At(m, k))
    requires p + Times(|items|, arch.word) <= hi && s + StringBytes(items) <= hi
    ensures Stored(arch, items, p, s, m')
    decreases |items|
  {
    if items != [] {
      ReadAgrees(m, m', p, arch.word);
      if items[0].Str? { ReadAgrees(m, m', s, |items[0].bytes|); }
      StoredKept(arch, items[1..], p + arch.word, s + StringLength(items[0]), m, m', hi);
    }
  }

  // --------------------------------------------------------------------------
  // The whole table

  function Zeros(n: nat): (r: seq<Byte>)
    ensures |r| == n && forall i :: 0 <= i < n ==> r[i] == 0
  {
    seq(n, _ => 0)
  }

  datatype Layout = Layout(start: int, strings: int, fill: nat)

  function LayoutOf(arch: Arch, items: seq<Item>, end: int, align: nat): Layout
    requires align > 0
  {
    var size := StringBytes(items) + Times(|items|, arch.word);
    var fill := (end - size) % align;
    Layout(end - size - fill, end - size - fill + Times(|items|, arch.word), fill)
  }

  /** No address wraps around. */
  predicate Fitting(arch: Arch, items: seq<Item>, end: int)
  {
    Fits(arch, items) && StringBytes(items) + Times(|items|, arch.word) <= end < Pow2(8 * arch.word)
  }

  lemma {:induction false} LayoutTiles(arch: Arch, items: seq<Item>, end: int, align: nat)
    requires align > 0 && StringBytes(items) + Times(|items|, arch.word) <= end
    ensures var l := LayoutOf(arch, items, end, align);
            && 0 <= l.start && l.start % align == 0 && l.fill < align
            && l.strings == l.start + Times(|items|, arch.word) && l.strings + StringBytes(items) + l.fill == end
  {
    var x := end - (StringBytes(items) + Times(|items|, arch.word));
    RoundedDown(x, align);
  }

  lemma {:induction false} RoundedDown(x: nat, align: nat)
    requires align > 0
    ensures 0 <= x - x % align && (x - x % align) % align == 0
  {
    DivShrinks(x, align);
    ModUnique(x - x % align, align, x / align, 0);
  }

  function DumpTable(arch: Arch, items: seq<Item>, end: int, align: nat, m: Memory): Memory
    requires align > 0 && Fitting(arch, items, end)
  {
    var l := LayoutOf(arch, items, end, align);
    LayoutTiles(arch, items, end, align);
    var m1 := DumpItems(arch, items, l.start, l.strings, m);
    if l.fill != 0 then Write(m1, end - l.fill, Zeros(l.fill)) else m1
  }

  /** The table, the strings and the zeros tile [start, end); start is aligned; every entry reads back, and nothing
      else changed. */
  lemma {:induction false} TableDumped(arch: Arch, items: seq<Item>, end: int, align: nat, m: Memory)
    requires align > 0 && Fitting(arch, items, end)
    ensures var l, m' := LayoutOf(arch, items, end, align), DumpTable(arch, items, end, align, m);
            && l.start % align == 0
            && l.strings == l.start + Times(|items|, arch.word) && l.strings + StringBytes(items) + l.fill == end
            && Stored(arch, items, l.start, l.strings, m')
            && (forall k :: end - l.fill <= k < end ==> At(m', k) == 0)
            && (forall k :: !(l.start <= k < end) ==> At(m', k) == At(m, k))
  {
    var l := LayoutOf(arch, items, end, align);
    LayoutTiles(arch, items, end, align);
    var m1, m' := DumpItems(arch, items, l.start, l.strings, m), DumpTable(arch, items, end, align, m);
    DumpStores(arch, items, l.start, l.strings, m);
    DumpWithin(arch, items, l.start, l.strings, m);
    if l.fill != 0 {
      WriteWithin(m1, end - l.fill, Zeros(l.fill));
      forall k | end - l.fill <= k < end ensures At(m', k) == 0 { WriteAt(m1, end - l.fill, Zeros(l.fill), k); }
      StoredKept(arch, items, l.start, l.strings, m1, m', end - l.fill);
    }
  }

  // --------------------------------------------------------------------------
  // The table object

  lemma {:induction false} StringBytesOfSnoc(items: seq<Item>, item: Item)
    ensures StringBytes(items + [item]) == StringBytes(items) + StringLength(item)
  {
    if items == [] {
      assert items + [item] == [item] && [item][1..] == [];
    } else {
      assert (items + [item])[1..] == items[1..] + [item];
      StringBytesOfSnoc(items[1..], item);
    }
  }

  class StringTableSpec {
    var contents: seq<Item>
    var strLen: nat

    /** The length is kept up to date, and every string ends in a NUL. */
    ghost predicate Valid()
      reads this
    {
      && strLen == StringBytes(contents)
      && forall i :: 0 <= i < |contents| && contents[i].Str? ==>
           contents[i].bytes != [] && contents[i].bytes[|contents[i].bytes| - 1] == 0
    }

    constructor ()
      ensures Valid() && contents == []
    {
      contents, strLen := [], 0;
    }

    method AddString(bytes: seq<Byte>)
      requires Valid()
      modifies this
      ensures Valid() && contents == old(contents) + [Str(bytes + [0])]
    {
      StringBytesOfSnoc(contents, Str(bytes + [0]));
      contents := contents + [Str(bytes + [0])];
      strLen := strLen + |bytes| + 1;
    }

    method AddPointer(value: nat)
      requires Valid()
      modifies this
      ensures Valid() && contents == old(contents) + [Pointer(value)]
    {
      StringBytesOfSnoc(contents, Pointer(value));
      contents := contents + [Pointer(value)];
    }

    method DumpTo(arch: Arch, m: Memory, end: int, align: nat) returns (start: int, m': Memory)
      requires Valid() && align > 0 && Fitting(arch, contents, end)
      ensures start == LayoutOf(arch, contents, end, align).start && m' == DumpTable(arch, contents, end, align, m)
    {
      TimesIsProduct(|contents|, arch.word);
      LayoutTiles(arch, contents, end, align);
      var ptrSize := |contents| * arch.word;
      var size := strLen + ptrSize;
      start := end - size;
      var zeroFill := start % align;
      start := start - zeroFill;
      m' := DumpLoop(arch, m, start, start + ptrSize);
      if zeroFill != 0 { m' := Write(m', end - zeroFill, Zeros(zeroFill)); }
    }

    method DumpLoop(arch: Arch, m: Memory, start: int, strings: nat) returns (m': Memory)
      ensures m' == DumpItems(arch, contents, start, strings, m)
    {
      m' := m;
      var p, s := start, strings;
      for i := 0 to |contents|
        invariant DumpItems(arch, contents[i..], p, s, m') == DumpItems(arch, contents, start, strings, m)
      {
        assert contents[i..][1..] == contents[i + 1..];
        match contents[i] {
          case Str(bytes) =>
            m' := StoreValue(m', p, s, arch.word, arch.end);
            m' := Write(m', s, bytes);
            s := s + |bytes|;
          case Pointer(v) =>
            m' := StoreValue(m', p, v, arch.word, arch.end);
        }
        p := p + arch.word;
      }
    }
  }
}

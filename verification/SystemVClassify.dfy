/** Argument classification of the System V AMD64 calling convention, section 3.2.3 of the x86-64 psABI. */
module SystemVClassify {
  import BitVec
  import opened Wrappers
  import opened SimTypes

  datatype Class = NO_CLASS | SSEUP | SSE | INTEGER | MEMORY

  /** The order in which merging prefers classes. */
  function Rank(c: Class): nat
  {
    match c
    case NO_CLASS => 0
    case SSEUP => 1
    case SSE => 2
    case INTEGER => 3
    case MEMORY => 4
  }

  function Combine(a: Class, b: Class): (r: Class)
    ensures Rank(r) == Max(Rank(a), Rank(b))
  {
    if a == b then a
    else if a == NO_CLASS then b
    else if b == NO_CLASS then a
    else if a == MEMORY || b == MEMORY then MEMORY
    else if a == INTEGER || b == INTEGER then INTEGER
    else SSE
  }

  // --------------------------------------------------------------------------
  // Flattening

  datatype Leaf = Leaf(offset: nat, float: bool, bytes: nat)

  /** Scalars take space. */
  predicate Sized(t: SimType)
  {
    match t
    case Scalar(_, bytes) => bytes > 0
    case Struct(fields, _) => AllSized(fields)
    case FixedArray(elem, _) => Sized(elem)
    case Union(members) => AllSized(members)
  }

  predicate AllSized(ts: seq<SimType>) { if ts == [] then true else Sized(ts[0]) && AllSized(ts[1..]) }

  predicate HasPacked(t: SimType)
  {
    match t
    case Scalar(_, _) => false
    case Struct(fields, packed) => packed || AnyPacked(fields)
    case FixedArray(elem, _) => HasPacked(elem)
    case Union(members) => AnyPacked(members)
  }

  predicate AnyPacked(ts: seq<SimType>) { if ts == [] then false else HasPacked(ts[0]) || AnyPacked(ts[1..]) }

  /** The scalars of a type placed at an offset. */
  function Leaves(t: SimType, at: nat): seq<Leaf>
    decreases t, 0
  {
    match t
    case Scalar(kind, bytes) => [Leaf(at, kind.Float?, bytes)]
    case Struct(fields, packed) => LeavesOfFields(fields, Offsets(fields, packed, 0), at)
    case FixedArray(elem, length) => LeavesOfElements(elem, at, length)
    case Union(members) => LeavesOfMembers(members, at)
  }

  function LeavesOfFields(fields: seq<SimType>, offs: seq<nat>, at: nat): seq<Leaf>
    requires |fields| == |offs|
    decreases fields, 0
  {
    if fields == [] then [] else Leaves(fields[0], at + offs[0]) + LeavesOfFields(fields[1..], offs[1..], at)
  }

  function LeavesOfElements(t: SimType, at: nat, n: nat): seq<Leaf>
    decreases t, 1 + n
  {
    if n == 0 then [] else Leaves(t, at) + LeavesOfElements(t, at + Size(t), n - 1)
  }

  function LeavesOfMembers(members: seq<SimType>, at: nat): seq<Leaf>
    decreases members, 0
  {
    if members == [] then [] else Leaves(members[0], at) + LeavesOfMembers(members[1..], at)
  }

  function Flatten(t: SimType): Option<seq<Leaf>> { if HasPacked(t) then None else Some(Leaves(t, 0)) }

  predicate Inside(leaves: seq<Leaf>, lo: nat, hi: nat)
  {
    forall i :: 0 <= i < |leaves| ==>
      lo <= leaves[i].offset && leaves[i].bytes > 0 && leaves[i].offset + leaves[i].bytes <= hi
  }

  lemma {:induction false} LeavesInside(t: SimType, at: nat)
    requires Sized(t)
    ensures Inside(Leaves(t, at), at, at + Size(t))
    decreases t, 0
  {
    match t
    case Scalar(_, _) =>
    case Struct(fields, packed) =>
      OffsetsInOrder(fields, packed, 0);
      FieldLeavesInside(fields, Offsets(fields, packed, 0), 0, Size(t), at);
    case FixedArray(elem, length) => ElementLeavesInside(elem, at, length);
    case Union(members) => MemberLeavesInside(members, at);
  }

  lemma {:induction false} FieldLeavesInside(fields: seq<SimType>, offs: seq<nat>, from: nat, to: nat, at: nat)
    requires |fields| == |offs| && AllSized(fields) && InOrder(fields, offs, from, to)
    ensures Inside(LeavesOfFields(fields, offs, at), at + from, at + to)
    decreases fields, 0
  {
    if fields != [] {
      LeavesInside(fields[0], at + offs[0]);
      InOrderEnds(fields[1..], offs[1..], offs[0] + Size(fields[0]), to);
      FieldLeavesInside(fields[1..], offs[1..], offs[0] + Size(fields[0]), to, at);
    }
  }

  lemma {:induction false} ElementLeavesInside(t: SimType, at: nat, n: nat)
    requires Sized(t)
    ensures Inside(LeavesOfElements(t, at, n), at, at + Size(t) * n)
    decreases t, 1 + n
  {
    if n > 0 {
      LeavesInside(t, at);
      ElementLeavesInside(t, at + Size(t), n - 1);
      assert Size(t) * n == Size(t) + Size(t) * (n - 1);
    }
  }

  lemma {:induction false} MemberLeavesInside(members: seq<SimType>, at: nat)
    requires AllSized(members)
    ensures Inside(LeavesOfMembers(members, at), at, at + MaxSize(members))
    decreases members, 0
  {
    if members != [] {
      LeavesInside(members[0], at);
      MemberLeavesInside(members[1..], at);
    }
  }

  // --------------------------------------------------------------------------
  // Merging

  function FirstChunk(l: Leaf): nat { l.offset / 8 }

  function LastChunk(l: Leaf): nat
    requires l.bytes > 0
  {
    (l.offset + l.bytes - 1) / 8
  }

  predicate Covers(l: Leaf, idx: nat)
    requires l.bytes > 0
  {
    FirstChunk(l) <= idx <= LastChunk(l)
  }

  /** The class a leaf contributes to an eightbyte it covers. */
  function LeafClass(l: Leaf, idx: nat): Class
  {
    if !l.float then INTEGER else if idx == FirstChunk(l) then SSE else SSEUP
  }

  /** Whether reading the leaf's classes in steps of eight stays in range. */
  predicate Readable(l: Leaf)
    requires l.bytes > 0
  {
    8 * (LastChunk(l) - FirstChunk(l)) < l.bytes
  }

  predicate PowerSize(n: nat) { n in {1, 2, 4, 8, 16} }

  predicate NaturalLeaf(l: Leaf) { PowerSize(l.bytes) && l.offset % l.bytes == 0 }

  /** Naturally aligned scalars are readable. */
  lemma {:induction false} NaturallyAligned(l: Leaf)
    requires NaturalLeaf(l)
    ensures Readable(l)
  {
    var q, r := l.offset / 8, l.offset % 8;
    assert l.offset == 8 * q + r;
    if l.bytes == 16 {
      SixteenAligned(l.offset);
      BitVec.DivUnique(l.offset + 15, 8, q + 1, 7);
    } else {
      assert r + l.bytes <= 8 by { FitsInChunk(l.offset, l.bytes); }
      BitVec.DivUnique(l.offset + l.bytes - 1, 8, q, r + l.bytes - 1);
    }
  }

  lemma {:induction false} SixteenAligned(offset: nat)
    requires offset % 16 == 0
    ensures offset % 8 == 0
  {
    BitVec.ModUnique(offset, 8, 2 * (offset / 16), 0);
  }

  lemma {:induction false} FitsInChunk(offset: nat, n: nat)
    requires n in {1, 2, 4, 8} && offset % n == 0
    ensures offset % 8 + n <= 8
  {
    if n == 4 { assert offset % 8 in {0, 4}; }
    if n == 2 { assert offset % 8 in {0, 2, 4, 6}; }
  }

  predicate AllPositive(leaves: seq<Leaf>) { forall i :: 0 <= i < |leaves| ==> leaves[i].bytes > 0 }

  predicate AllReadable(leaves: seq<Leaf>)
    requires AllPositive(leaves)
  {
    forall i :: 0 <= i < |leaves| ==> Readable(leaves[i])
  }

  /** The class of an eightbyte, merged leaf by leaf. */
  function MergedClass(leaves: seq<Leaf>, idx: nat): Class
    requires AllPositive(leaves)
  {
    if leaves == [] then NO_CLASS
    else
      var before, last := MergedClass(leaves[..|leaves| - 1], idx), leaves[|leaves| - 1];
      if Covers(last, idx) then Combine(before, LeafClass(last, idx)) else before
  }

  function Merged(leaves: seq<Leaf>, n: nat): (r: seq<Class>)
    requires AllPositive(leaves)
    ensures |r| == n
  {
    seq(n, idx requires 0 <= idx => MergedClass(leaves, idx))
  }

  ghost predicate Attained(leaves: seq<Leaf>, idx: nat, c: Class)
    requires AllPositive(leaves)
  {
    exists i :: 0 <= i < |leaves| && Covers(leaves[i], idx) && LeafClass(leaves[i], idx) == c
  }

  /** The highest class among the leaves that cover the eightbyte, or no class when none does. */
  ghost predicate IsMaximum(leaves: seq<Leaf>, idx: nat, c: Class)
    requires AllPositive(leaves)
  {
    && (forall i :: 0 <= i < |leaves| && Covers(leaves[i], idx) ==> Rank(LeafClass(leaves[i], idx)) <= Rank(c))
    && (c == NO_CLASS || Attained(leaves, idx, c))
  }

  /** Each eightbyte's merged class is the maximum over its leaves. */
  lemma {:induction false} MergedIsMaximum(leaves: seq<Leaf>, idx: nat)
    requires AllPositive(leaves)
    ensures IsMaximum(leaves, idx, MergedClass(leaves, idx))
  {
    if leaves != [] {
      var k := |leaves| - 1;
      var before, c := MergedClass(leaves[..k], idx), MergedClass(leaves, idx);
      MergedIsMaximum(leaves[..k], idx);
      if c != NO_CLASS {
        if c == before {
          var i :| 0 <= i < k && Covers(leaves[..k][i], idx) && LeafClass(leaves[..k][i], idx) == c;
          assert Covers(leaves[i], idx) && LeafClass(leaves[i], idx) == c;
        } else {
          assert Covers(leaves[k], idx) && LeafClass(leaves[k], idx) == c;
        }
      }
      forall i | 0 <= i < |leaves| && Covers(leaves[i], idx) ensures Rank(LeafClass(leaves[i], idx)) <= Rank(c) {
        if i < k { assert leaves[..k][i] == leaves[i]; }
      }
    }
  }

  /** The result does not depend on the order in which the leaves are merged, nor on repetitions. */
  lemma {:induction false} OrderIndependent(leaves: seq<Leaf>, others: seq<Leaf>, idx: nat)
    requires AllPositive(leaves) && AllPositive(others) && forall l :: l in leaves <==> l in others
    ensures MergedClass(leaves, idx) == MergedClass(others, idx)
  {
    var c, d := MergedClass(leaves, idx), MergedClass(others, idx);
    MergedIsMaximum(leaves, idx);
    MergedIsMaximum(others, idx);
    Bounded(leaves, others, idx, c, d);
    Bounded(others, leaves, idx, d, c);
  }

  lemma {:induction false} Bounded(leaves: seq<Leaf>, others: seq<Leaf>, idx: nat, c: Class, d: Class)
    requires AllPositive(leaves) && AllPositive(others) && forall l :: l in leaves ==> l in others
    requires IsMaximum(leaves, idx, c) && IsMaximum(others, idx, d)
    ensures Rank(c) <= Rank(d)
  {
    if c != NO_CLASS {
      var i :| 0 <= i < |leaves| && Covers(leaves[i], idx) && LeafClass(leaves[i], idx) == c;
      assert leaves[i] in others;
      var j :| 0 <= j < |others| && others[j] == leaves[i];
    }
  }

  // --------------------------------------------------------------------------
  // The classification

  function Eightbytes(t: SimType): nat { (Size(t) + 7) / 8 }

  function Always(c: Class, n: nat): (r: seq<Class>)
    ensures |r| == n && forall i :: 0 <= i < n ==> r[i] == c
  {
    seq(n, _ => c)
  }

  predicate OnlySseUp(cs: seq<Class>) { forall i :: 0 <= i < |cs| ==> cs[i] == SSEUP }

  predicate ToMemory(merged: seq<Class>)
  {
    MEMORY in merged || (|merged| > 2 && (merged[0] != SSE || !OnlySseUp(merged[1..])))
  }

  /** An SSEUP that follows neither SSE nor SSEUP stands for SSE. */
  function Fixed(merged: seq<Class>, i: nat): Class
    requires i < |merged|
  {
    if i > 0 && merged[i] == SSEUP && merged[i - 1] != SSE && merged[i - 1] != SSEUP then SSE else merged[i]
  }

  function Finished(merged: seq<Class>): (r: seq<Class>)
    ensures |r| == |merged|
  {
    if ToMemory(merged) then Always(MEMORY, |merged|)
    else seq(|merged|, i requires 0 <= i < |merged| => Fixed(merged, i))
  }

  function ScalarClasses(float: bool, n: nat): (r: seq<Class>)
    ensures float && n > 0 ==> |r| == n
    ensures !float ==> |r| == n
  {
    if float then [SSE] + Always(SSEUP, if n > 0 then n - 1 else 0) else Always(INTEGER, n)
  }

  /** None where a leaf that straddles eightbytes makes the classification raise. */
  function Classified(t: SimType): Option<seq<Class>>
    requires Sized(t)
  {
    var n := Eightbytes(t);
    if t.Scalar? then Some(ScalarClasses(t.kind.Float?, n))
    else if 8 * Size(t) > 512 || Flatten(t).None? then Some(Always(MEMORY, n))
    else
      var leaves := Flatten(t).value;
      LeavesInside(t, 0);
      if AllReadable(leaves) then Some(Finished(Merged(leaves, n))) else None
  }

  /** The eightbytes are one SSE register: SSE, and then only SSEUP. */
  predicate OneSseRegister(leaves: seq<Leaf>, n: nat)
    requires AllPositive(leaves)
  {
    MergedClass(leaves, 0) == SSE && forall i :: 0 < i < n ==> MergedClass(leaves, i) == SSEUP
  }

  /** When an aggregate is passed in memory: when it is longer than 64 bytes, or has a packed part, or has more than
      two eightbytes that are not one SSE register. One of at most two eightbytes without a packed part never is. */
  lemma {:induction false} MemoryExactly(t: SimType)
    requires Sized(t) && !t.Scalar? && Classified(t).Some? && Eightbytes(t) > 0
    ensures |Classified(t).value| == Eightbytes(t) && AllPositive(Leaves(t, 0))
    ensures MEMORY in Classified(t).value
       <==> || Size(t) > 64 || HasPacked(t)
            || (Eightbytes(t) > 2 && !OneSseRegister(Leaves(t, 0), Eightbytes(t)))
    ensures MEMORY in Classified(t).value ==> forall c :: c in Classified(t).value ==> c == MEMORY
  {
    LeavesInside(t, 0);
    var (leaves, n) := (Leaves(t, 0), Eightbytes(t));
    if Size(t) > 64 || HasPacked(t) {
      assert Always(MEMORY, n)[0] == MEMORY;
    } else {
      var merged := Merged(leaves, n);
      NeverMemory(leaves, n);
      assert forall i :: 0 < i < n ==> merged[1..][i - 1] == merged[i];
      assert n > 2 ==> (ToMemory(merged) <==> !OneSseRegister(leaves, n)) by {
        if OnlySseUp(merged[1..]) {
          forall i | 0 < i < n ensures MergedClass(leaves, i) == SSEUP { assert merged[1..][i - 1] == SSEUP; }
        }
      }
      if ToMemory(merged) {
        assert Always(MEMORY, n)[0] == MEMORY;
      } else {
        assert forall i :: 0 <= i < n ==> Finished(merged)[i] == Fixed(merged, i) && merged[i] != MEMORY;
      }
    }
  }

  /** No scalar is of class MEMORY itself. */
  lemma {:induction false} NeverMemory(leaves: seq<Leaf>, n: nat)
    requires AllPositive(leaves)
    ensures MEMORY !in Merged(leaves, n)
  {
    forall i | 0 <= i < n ensures Merged(leaves, n)[i] != MEMORY { MergedIsMaximum(leaves, i); }
  }

  // --------------------------------------------------------------------------
  // Types that are always classified

  /** Scalars of usual sizes, no packed structs, and arrays whose elements are all aligned. */
  predicate Natural(t: SimType)
  {
    match t
    case Scalar(_, bytes) => PowerSize(bytes)
    case Struct(fields, packed) => !packed && AllNatural(fields)
    case FixedArray(elem, _) => Natural(elem) && Size(elem) % EffectiveAlignment(elem) == 0
    case Union(members) => AllNatural(members)
  }

  predicate AllNatural(ts: seq<SimType>) { if ts == [] then true else Natural(ts[0]) && AllNatural(ts[1..]) }

  lemma {:induction false} NaturalIsSized(t: SimType)
    requires Natural(t)
    ensures Sized(t) && (Alignment(t) == 0 || PowerSize(Alignment(t)))
    decreases t, 0
  {
    match t
    case Scalar(_, _) =>
    case Struct(fields, _) => AllNaturalAreSized(fields);
    case FixedArray(elem, _) => NaturalIsSized(elem);
    case Union(members) => AllNaturalAreSized(members);
  }

  lemma {:induction false} AllNaturalAreSized(ts: seq<SimType>)
    requires AllNatural(ts)
    ensures AllSized(ts) && (MaxAlignment(ts) == 0 || PowerSize(MaxAlignment(ts)))
    decreases ts, 0
  {
    if ts != [] {
      NaturalIsSized(ts[0]);
      AllNaturalAreSized(ts[1..]);
    }
  }

  lemma {:induction false} SmallerDivides(x: nat, big: nat, small: nat)
    requires PowerSize(big) && PowerSize(small) && small <= big && x % big == 0
    ensures x % small == 0
  {
    if small < big {
      HalfDivides(x, big / 2);
      SmallerDivides(x, big / 2, small);
    }
  }

  lemma {:induction false} HalfDivides(x: int, n: int)
    requires n > 0 && x % (2 * n) == 0
    ensures x % n == 0
  {
    var q := x / (2 * n);
    assert x == (2 * n) * q;
    assert x == n * (2 * q);
    BitVec.ModUnique(x, n, 2 * q, 0);
  }

  lemma {:induction false} SumDivides(x: nat, y: nat, n: nat)
    requires PowerSize(n) && x % n == 0 && y % n == 0
    ensures (x + y) % n == 0
  {
  }

  predicate NaturalLeaves(leaves: seq<Leaf>) { forall i :: 0 <= i < |leaves| ==> NaturalLeaf(leaves[i]) }

  /** From an aligned address on, all leaves of such a type are naturally aligned. */
  lemma {:induction false} LeavesNatural(t: SimType, at: nat)
    requires Natural(t) && at % EffectiveAlignment(t) == 0
    ensures NaturalLeaves(Leaves(t, at))
    decreases t, 0
  {
    match t
    case Scalar(_, _) =>
    case Struct(fields, _) =>
      AllNaturalAreSized(fields);
      FieldLeavesNatural(fields, 0, at, EffectiveAlignment(t));
    case FixedArray(elem, length) =>
      NaturalIsSized(elem);
      ElementLeavesNatural(elem, at, length);
    case Union(members) =>
      AllNaturalAreSized(members);
      MemberLeavesNatural(members, at, EffectiveAlignment(t));
  }

  lemma {:induction false} FieldLeavesNatural(fields: seq<SimType>, from: nat, at: nat, align: nat)
    requires AllNatural(fields) && PowerSize(align) && MaxAlignment(fields) <= align && at % align == 0
    ensures NaturalLeaves(LeavesOfFields(fields, Offsets(fields, false, from), at))
    decreases fields, 0
  {
    if fields != [] {
      var first, place := fields[0], Place(false, from, fields[0]);
      NaturalIsSized(first);
      SmallerDivides(at, align, EffectiveAlignment(first));
      SumDivides(at, place, EffectiveAlignment(first));
      LeavesNatural(first, at + place);
      FieldLeavesNatural(fields[1..], place + Size(first), at, align);
      assert Offsets(fields, false, from)[1..] == Offsets(fields[1..], false, place + Size(first));
    }
  }

  lemma {:induction false} ElementLeavesNatural(t: SimType, at: nat, n: nat)
    requires Natural(t) && at % EffectiveAlignment(t) == 0 && Size(t) % EffectiveAlignment(t) == 0
    ensures NaturalLeaves(LeavesOfElements(t, at, n))
    decreases t, 1 + n
  {
    if n > 0 {
      NaturalIsSized(t);
      LeavesNatural(t, at);
      SumDivides(at, Size(t), EffectiveAlignment(t));
      ElementLeavesNatural(t, at + Size(t), n - 1);
    }
  }

  lemma {:induction false} MemberLeavesNatural(members: seq<SimType>, at: nat, align: nat)
    requires AllNatural(members) && PowerSize(align) && MaxAlignment(members) <= align && at % align == 0
    ensures NaturalLeaves(LeavesOfMembers(members, at))
    decreases members, 0
  {
    if members != [] {
      NaturalIsSized(members[0]);
      SmallerDivides(at, align, EffectiveAlignment(members[0]));
      LeavesNatural(members[0], at);
      MemberLeavesNatural(members[1..], at, align);
    }
  }

  /** The classification of such a type never raises. */
  lemma {:induction false} NaturalIsClassified(t: SimType)
    requires Natural(t)
    ensures Sized(t) && Classified(t).Some?
  {
    NaturalIsSized(t);
    LeavesNatural(t, 0);
    LeavesInside(t, 0);
    forall i | 0 <= i < |Leaves(t, 0)| ensures Readable(Leaves(t, 0)[i]) { NaturallyAligned(Leaves(t, 0)[i]); }
  }

  /** A struct that holds an array of structs without padding at their end can have such a leaf: the
      classification then raises. */
  lemma {:induction false} StraddlingRaises() returns (t: SimType)
    ensures Sized(t) && Classified(t) == None
  {
    var elem := Struct([INT4, CHAR1], false);
    var pair := FixedArray(elem, 2);
    t := Struct([pair], false);
    SampleStruct(0);
    SampleStruct(5);
    TwoElements(elem, 0);
    var first, second := Leaves(elem, 0), Leaves(elem, 0 + Size(elem));
    WrappedArray(pair);
    assert Leaves(t, 0) == first + second && |first| == 2 && second[0] == Leaf(5, false, 4);
    var leaf := second[0];
    assert leaf.offset == 5 && leaf.bytes == 4 && FirstChunk(leaf) == 0 && LastChunk(leaf) == 1;
    assert !Readable(leaf);
    assert (first + second)[|first|] == leaf;
    assert Leaves(t, 0)[2] == leaf;
    LeavesInside(t, 0);
    NonePacked();
  }

  lemma {:induction false} WrappedArray(pair: SimType)
    requires Sized(pair)
    ensures var t := Struct([pair], false);
            Leaves(t, 0) == Leaves(pair, 0) && Size(t) == Size(pair) && Sized(t) && (HasPacked(t) <==> HasPacked(pair))
  {
    assert [pair][1..] == [];
    assert EndOf([pair], false, 0) == EndOf([], false, 0 + Size(pair));
    assert Offsets([pair], false, 0) == [0] + Offsets([], false, Size(pair));
    assert LeavesOfFields([pair], [0], 0) == Leaves(pair, 0 + 0) + LeavesOfFields([], [], 0);
    assert AnyPacked([pair]) <==> HasPacked(pair) || AnyPacked([]);
  }

  lemma {:induction false} NonePacked()
    ensures !HasPacked(Struct([INT4, CHAR1], false))
  {
    var fields, rest := [INT4, CHAR1], [CHAR1];
    assert fields[1..] == rest && rest[1..] == [];
    assert !AnyPacked(rest[1..]) && !HasPacked(CHAR1);
    assert !AnyPacked(rest) && !HasPacked(INT4);
    assert !AnyPacked(fields);
  }

  lemma {:induction false} TwoElements(elem: SimType, at: nat)
    ensures Leaves(FixedArray(elem, 2), at) == Leaves(elem, at) + Leaves(elem, at + Size(elem))
  {
    var size := Size(elem);
    assert LeavesOfElements(elem, at + size, 1)
        == Leaves(elem, at + size) + LeavesOfElements(elem, at + size + size, 0);
    assert LeavesOfElements(elem, at, 2) == Leaves(elem, at) + LeavesOfElements(elem, at + size, 1);
  }

  const INT4 := Scalar(Integer(true), 4)
  const CHAR1 := Scalar(Integer(true), 1)

  lemma {:induction false} SampleStruct(at: nat)
    ensures var t := Struct([INT4, CHAR1], false);
            Sized(t) && Size(t) == 5 && Leaves(t, at) == [Leaf(at, false, 4), Leaf(at + 4, false, 1)]
  {
    var fields, rest := [INT4, CHAR1], [CHAR1];
    assert fields[1..] == rest && rest[1..] == [];
    assert Place(false, 0, INT4) == 0 && Place(false, 4, CHAR1) == 4;
    assert EndOf(rest, false, 4) == EndOf([], false, 5);
    assert Offsets(rest, false, 4) == [4] + Offsets([], false, 5) && Offsets(fields, false, 0) == [0, 4];
    assert [0, 4][1..] == [4];
    assert LeavesOfFields(rest, [4], at) == Leaves(CHAR1, at + 4) + LeavesOfFields([], [], at);
    assert LeavesOfFields(fields, [0, 4], at) == Leaves(INT4, at) + LeavesOfFields(rest, [4], at);
    assert AllSized(rest[1..]) && Sized(CHAR1) && AllSized(rest);
  }

  predicate AllMemory(cs: seq<Class>) { forall i :: 0 <= i < |cs| ==> cs[i] == MEMORY }

  /** One class per eightbyte, all of them MEMORY or none. */
  lemma {:induction false} AllOrNoMemory(t: SimType)
    requires Sized(t) && Classified(t).Some?
    ensures var cs := Classified(t).value; |cs| == Eightbytes(t) && (AllMemory(cs) || MEMORY !in cs)
  {
  }

  /** What an aggregate passed in registers is classified as: the maximum over its leaves, with a stray SSEUP read
      as SSE. */
  lemma {:induction false} AggregateClasses(t: SimType, idx: nat)
    requires Sized(t) && !t.Scalar? && Classified(t).Some? && MEMORY !in Classified(t).value && idx < Eightbytes(t)
    ensures !HasPacked(t) && AllPositive(Leaves(t, 0))
    ensures var c, merged := Classified(t).value[idx], MergedClass(Leaves(t, 0), idx);
            IsMaximum(Leaves(t, 0), idx, merged) && (c == merged || (c == SSE && merged == SSEUP))
  {
    LeavesInside(t, 0);
    MergedIsMaximum(Leaves(t, 0), idx);
    assert Classified(t).value[idx] != MEMORY;
  }

  // --------------------------------------------------------------------------
  // The loops of `_classify`

  method MergeLeaf(classes: seq<Class>, l: Leaf) returns (r: Option<seq<Class>>)
    requires l.bytes > 0 && LastChunk(l) < |classes|
    ensures r.Some? <==> Readable(l)
    ensures r.Some? ==> |r.value| == |classes|
    ensures r.Some? ==> forall i :: 0 <= i < |classes| ==>
              r.value[i] == if Covers(l, i) then Combine(classes[i], LeafClass(l, i)) else classes[i]
  {
    var result := classes;
    var start, end := l.offset / 8, (l.offset + l.bytes - 1) / 8;
    var subresult := ScalarClasses(l.float, l.bytes);
    var i := 0;
    while start + i <= end
      invariant 0 <= i <= end + 1 - start && |result| == |classes|
      invariant i > 0 ==> 8 * (i - 1) < l.bytes
      invariant forall j :: 0 <= j < |classes| ==>
                  result[j] == if start <= j < start + i then Combine(classes[j], LeafClass(l, j)) else classes[j]
    {
      if 8 * i >= |subresult| { return None; }
      result := result[start + i := Combine(result[start + i], subresult[8 * i])];
      i := i + 1;
    }
    r := Some(result);
  }

  method FixStraySseUp(merged: seq<Class>) returns (r: seq<Class>)
    ensures |r| == |merged| && forall i :: 0 <= i < |merged| ==> r[i] == Fixed(merged, i)
  {
    r := merged;
    var i := 1;
    while i < |merged|
      invariant 1 <= i && |r| == |merged|
      invariant forall j :: 0 <= j < |merged| ==> r[j] == if j < i then Fixed(merged, j) else merged[j]
    {
      if r[i] == SSEUP && r[i - 1] != SSE && r[i - 1] != SSEUP { r := r[i := SSE]; }
      i := i + 1;
    }
  }

  method MergeAll(leaves: seq<Leaf>, n: nat) returns (r: Option<seq<Class>>)
    requires AllPositive(leaves) && forall k :: 0 <= k < |leaves| ==> LastChunk(leaves[k]) < n
    ensures r == if AllReadable(leaves) then Some(Merged(leaves, n)) else None
  {
    var result := Always(NO_CLASS, n);
    for k := 0 to |leaves|
      invariant |result| == n && AllReadable(leaves[..k])
      invariant forall i :: 0 <= i < n ==> result[i] == MergedClass(leaves[..k], i)
    {
      var merged := MergeLeaf(result, leaves[k]);
      assert leaves[..k + 1][..k] == leaves[..k] && leaves[..k + 1][k] == leaves[k];
      if merged.None? { return None; }
      result := merged.value;
    }
    assert leaves[..|leaves|] == leaves;
    assert result == Merged(leaves, n);
    r := Some(result);
  }

  method Classify(t: SimType) returns (r: Option<seq<Class>>)
    requires Sized(t)
    ensures r == Classified(t)
  {
    var n := Eightbytes(t);
    if t.Scalar? { return Some(ScalarClasses(t.kind.Float?, n)); }
    if 8 * Size(t) > 512 { return Some(Always(MEMORY, n)); }
    var flattened := Flatten(t);
    if flattened.None? { return Some(Always(MEMORY, n)); }
    LeavesInside(t, 0);
    var merged := MergeAll(flattened.value, n);
    if merged.None? { return None; }
    if ToMemory(merged.value) { return Some(Always(MEMORY, n)); }
    var fixed := FixStraySseUp(merged.value);
    assert fixed == Finished(merged.value);
    r := Some(fixed);
  }
}

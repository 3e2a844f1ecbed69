/** Argument allocation of the System V AMD64 calling convention: registers, stack slots and rollback. */
module SystemVAlloc {
  import opened Wrappers
  import opened Sessions
  import opened SystemVClassify
  import opened SimTypes

  const INT_REGS := 6   // rdi, rsi, rdx, rcx, r8, r9
  const FP_REGS := 8    // xmm0 to xmm7
  const WORD := 8
  const FIRST_STACK_OFFSET := 8

  /** A word: a register's low eight bytes, or a stack slot. */
  datatype Loc = IntReg(i: nat) | FpReg(i: nat) | Stack(offset: nat)

  /** No SSEUP or missing classes, and all MEMORY or none. */
  predicate Plain(classes: seq<Class>)
  {
    && (forall i :: 0 <= i < |classes| ==> classes[i] != SSEUP && classes[i] != NO_CLASS)
    && (AllMemory(classes) || MEMORY !in classes)
  }

  predicate Valid(s: Session) { s.ints <= INT_REGS && s.fp <= FP_REGS && s.both % WORD == 0 }

  // --------------------------------------------------------------------------
  // What is allocated

  /** None when the iterator is exhausted. */
  function Take(c: Class, s: Session): Option<(Loc, Session)>
  {
    match c
    case INTEGER => if s.ints < INT_REGS then Some((IntReg(s.ints), s.(ints := s.ints + 1))) else None
    case SSE => if s.fp < FP_REGS then Some((FpReg(s.fp), s.(fp := s.fp + 1))) else None
    case _ => Some((Stack(s.both), s.(both := s.both + WORD)))
  }

  function TakeAll(classes: seq<Class>, s: Session): Option<(seq<Loc>, Session)>
  {
    if classes == [] then Some(([], s))
    else
      match Take(classes[0], s)
      case None => None
      case Some((loc, s1)) =>
        match TakeAll(classes[1..], s1)
        case None => None
        case Some((locs, s2)) => Some(([loc] + locs, s2))
  }

  function OnStack(n: nat, s: Session): (seq<Loc>, Session)
    decreases n
  {
    if n == 0 then ([], s)
    else
      var (locs, s') := OnStack(n - 1, s.(both := s.both + WORD));
      ([Stack(s.both)] + locs, s')
  }

  /** One argument: its classes one by one, or, when some register runs out, the stack for all of it. */
  function NextArg(classes: seq<Class>, s: Session): (seq<Loc>, Session)
  {
    match TakeAll(classes, s)
    case Some(r) => r
    case None => OnStack(|classes|, s)
  }

  function ArgLocs(args: seq<seq<Class>>, s: Session): (r: seq<seq<Loc>>)
    ensures |r| == |args|
    decreases |args|
  {
    if args == [] then [] else [NextArg(args[0], s).0] + ArgLocs(args[1..], NextArg(args[0], s).1)
  }

  // --------------------------------------------------------------------------
  // Registers or stack, and nothing consumed for a spilled argument

  function Count(classes: seq<Class>, c: Class): nat
  {
    if classes == [] then 0 else (if classes[0] == c then 1 else 0) + Count(classes[1..], c)
  }

  predicate Between(loc: Loc, s: Session, s': Session)
  {
    match loc
    case IntReg(i) => s.ints <= i < s'.ints
    case FpReg(i) => s.fp <= i < s'.fp
    case Stack(o) => s.both <= o < s'.both && (o - s.both) % WORD == 0
  }

  ghost predicate AllBetween(locs: seq<Loc>, s: Session, s': Session)
  {
    forall i :: 0 <= i < |locs| ==> Between(locs[i], s, s')
  }

  ghost predicate Distinct(locs: seq<Loc>) { forall i, j :: 0 <= i < j < |locs| ==> locs[i] != locs[j] }

  predicate AllStack(locs: seq<Loc>) { forall i :: 0 <= i < |locs| ==> locs[i].Stack? }

  predicate NoStack(locs: seq<Loc>) { forall i :: 0 <= i < |locs| ==> !locs[i].Stack? }

  predicate Follows(s: Session, s': Session)
  {
    s.fp <= s'.fp && s.ints <= s'.ints && s.both <= s'.both && (s'.both - s.both) % WORD == 0
  }

  predicate Simple(classes: seq<Class>)
  {
    forall i :: 0 <= i < |classes| ==> classes[i] != SSEUP && classes[i] != NO_CLASS
  }

  /** Taking succeeds exactly when there are registers enough, and takes one word per class. */
  lemma {:induction false} TakeAllCounts(classes: seq<Class>, s: Session)
    requires Valid(s) && Simple(classes)
    ensures TakeAll(classes, s).Some?
       <==> s.ints + Count(classes, INTEGER) <= INT_REGS && s.fp + Count(classes, SSE) <= FP_REGS
    ensures TakeAll(classes, s).Some? ==>
              TakeAll(classes, s).value.1 == Session(s.fp + Count(classes, SSE), s.ints + Count(classes, INTEGER),
                                                     s.both + WORD * Count(classes, MEMORY))
  {
    if classes != [] {
      var next := Take(classes[0], s);
      if next.Some? { TakeAllCounts(classes[1..], next.value.1); }
    }
  }

  lemma {:induction false} TakeAllUses(classes: seq<Class>, s: Session)
    requires Valid(s) && Simple(classes) && TakeAll(classes, s).Some?
    ensures var (locs, s') := TakeAll(classes, s).value;
            && |locs| == |classes| && Follows(s, s') && AllBetween(locs, s, s') && Distinct(locs)
            && (forall i :: 0 <= i < |classes| ==> (locs[i].Stack? <==> classes[i] == MEMORY))
  {
    if classes != [] { TakeAllUses(classes[1..], Take(classes[0], s).value.1); }
  }

  lemma {:induction false} OnStackUses(n: nat, s: Session)
    ensures var (locs, s') := OnStack(n, s);
            && |locs| == n && AllStack(locs) && Follows(s, s') && AllBetween(locs, s, s') && Distinct(locs)
            && s' == s.(both := s.both + WORD * n)
    decreases n
  {
    if n > 0 { OnStackUses(n - 1, s.(both := s.both + WORD)); }
  }

  predicate FitsInRegisters(classes: seq<Class>, s: Session)
  {
    MEMORY !in classes && s.ints + Count(classes, INTEGER) <= INT_REGS && s.fp + Count(classes, SSE) <= FP_REGS
  }

  /** An argument is wholly in registers, exactly when enough are left, or wholly on the stack, and then takes no
      register. */
  lemma {:induction false} WhollyPlaced(classes: seq<Class>, s: Session)
    requires Valid(s) && Plain(classes)
    ensures var (locs, s') := NextArg(classes, s);
            && |locs| == |classes| && Valid(s') && Follows(s, s') && AllBetween(locs, s, s') && Distinct(locs)
            && (FitsInRegisters(classes, s) ==>
                  NoStack(locs) && s' == Session(s.fp + Count(classes, SSE), s.ints + Count(classes, INTEGER), s.both))
            && (!FitsInRegisters(classes, s) ==> AllStack(locs) && s' == s.(both := s.both + WORD * |classes|))
  {
    TakeAllCounts(classes, s);
    if TakeAll(classes, s).Some? { TakeAllUses(classes, s); } else { OnStackUses(|classes|, s); }
    if MEMORY in classes {
      AllCounted(classes);
    } else {
      NoneCounted(classes, MEMORY);
    }
  }

  /** Word by word: in registers, an INTEGER word takes the next integer register and an SSE word the next vector
      register, in the order of the words; on the stack, each takes the next slot. */
  lemma {:induction false} PlacedInOrder(classes: seq<Class>, s: Session, i: nat)
    requires Valid(s) && Plain(classes) && i < |classes|
    ensures |NextArg(classes, s).0| == |classes|
    ensures NextArg(classes, s).0[i]
         == if !FitsInRegisters(classes, s) then Stack(s.both + WORD * i)
            else if classes[i] == INTEGER then IntReg(s.ints + Count(classes[..i], INTEGER))
            else FpReg(s.fp + Count(classes[..i], SSE))
  {
    TakeAllCounts(classes, s);
    if MEMORY in classes {
      AllCounted(classes);
      AllCounted(classes[..i]);
    }
    if TakeAll(classes, s).Some? {
      TakenInOrder(classes, s, i);
    } else {
      StackedInOrder(|classes|, s, i);
    }
  }

  lemma {:induction false} TakenInOrder(classes: seq<Class>, s: Session, i: nat)
    requires Valid(s) && Simple(classes) && TakeAll(classes, s).Some? && i < |classes|
    ensures |TakeAll(classes, s).value.0| == |classes|
    ensures TakeAll(classes, s).value.0[i]
         == if classes[i] == INTEGER then IntReg(s.ints + Count(classes[..i], INTEGER))
            else if classes[i] == SSE then FpReg(s.fp + Count(classes[..i], SSE))
            else Stack(s.both + WORD * Count(classes[..i], MEMORY))
  {
    TakeAllUses(classes, s);
    if i > 0 {
      assert classes[..i][1..] == classes[1..][..i - 1];
      TakenInOrder(classes[1..], Take(classes[0], s).value.1, i - 1);
    }
  }

  lemma {:induction false} StackedInOrder(n: nat, s: Session, i: nat)
    requires i < n
    ensures |OnStack(n, s).0| == n && OnStack(n, s).0[i] == Stack(s.both + WORD * i)
  {
    OnStackUses(n, s);
    if i > 0 { StackedInOrder(n - 1, s.(both := s.both + WORD), i - 1); }
  }

  lemma {:induction false} AllCounted(classes: seq<Class>)
    requires AllMemory(classes)
    ensures Count(classes, MEMORY) == |classes| && Count(classes, INTEGER) == 0 && Count(classes, SSE) == 0
  {
    if classes != [] { AllCounted(classes[1..]); }
  }

  lemma {:induction false} NoneCounted(classes: seq<Class>, c: Class)
    requires c !in classes
    ensures Count(classes, c) == 0
  {
    if classes != [] { NoneCounted(classes[1..], c); }
  }

  // --------------------------------------------------------------------------
  // Footprints

  datatype Byte = RegisterByte(fp: bool, i: nat, k: nat) | StackByte(addr: nat)

  function ByteOf(loc: Loc, k: nat): Byte
  {
    match loc
    case IntReg(i) => RegisterByte(false, i, k)
    case FpReg(i) => RegisterByte(true, i, k)
    case Stack(o) => StackByte(o + k)
  }

  /** Where byte p of an argument with these words lies. */
  function Where(locs: seq<Loc>, p: nat): Byte
    requires p < WORD * |locs|
  {
    ByteOf(locs[p / WORD], p % WORD)
  }

  predicate Aligned(locs: seq<Loc>) { forall i :: 0 <= i < |locs| ==> (locs[i].Stack? ==> locs[i].offset % WORD == 0) }

  lemma {:induction false} BytesDiffer(a: Loc, j: nat, b: Loc, k: nat)
    requires j < WORD && k < WORD && (a.Stack? ==> a.offset % WORD == 0) && (b.Stack? ==> b.offset % WORD == 0)
    requires a != b || j != k
    ensures ByteOf(a, j) != ByteOf(b, k)
  {
  }

  lemma {:induction false} AlignedBetween(locs: seq<Loc>, s: Session, s': Session)
    requires Valid(s) && AllBetween(locs, s, s')
    ensures Aligned(locs)
  {
    forall i | 0 <= i < |locs| ensures locs[i].Stack? ==> locs[i].offset % WORD == 0 { assert Between(locs[i], s, s'); }
  }

  /** Different bytes of one argument lie in different places. */
  lemma {:induction false} OwnBytesDiffer(classes: seq<Class>, s: Session, p: nat, q: nat)
    requires Valid(s) && Plain(classes) && p < q < WORD * |classes|
    ensures |NextArg(classes, s).0| == |classes|
    ensures Where(NextArg(classes, s).0, p) != Where(NextArg(classes, s).0, q)
  {
    WhollyPlaced(classes, s);
    var (locs, s') := NextArg(classes, s);
    AlignedBetween(locs, s, s');
    BytesDiffer(locs[p / WORD], p % WORD, locs[q / WORD], q % WORD);
  }

  lemma {:induction false} LaterLocs(args: seq<seq<Class>>, s: Session, j: nat)
    requires Valid(s) && (forall i :: 0 <= i < |args| ==> Plain(args[i])) && j < |args|
    ensures var locs := ArgLocs(args, s)[j];
            && |locs| == |args[j]| && Aligned(locs)
            && forall i :: 0 <= i < |locs| ==>
                 match locs[i] case IntReg(r) => s.ints <= r case FpReg(r) => s.fp <= r case Stack(o) => s.both <= o
    decreases |args|
  {
    WhollyPlaced(args[0], s);
    var (first, s') := NextArg(args[0], s);
    if j > 0 {
      LaterLocs(args[1..], s', j - 1);
    } else {
      AlignedBetween(first, s, s');
      forall i | 0 <= i < |first|
        ensures match first[i] case IntReg(r) => s.ints <= r case FpReg(r) => s.fp <= r case Stack(o) => s.both <= o
      {
        assert Between(first[i], s, s');
      }
    }
  }

  /** Different arguments of one call share no byte. */
  lemma {:induction false} FootprintsDisjoint(args: seq<seq<Class>>, s: Session, i: nat, j: nat, p: nat, q: nat)
    requires Valid(s) && (forall k :: 0 <= k < |args| ==> Plain(args[k]))
    requires i < j < |args| && p < WORD * |args[i]| && q < WORD * |args[j]|
    ensures |ArgLocs(args, s)[i]| == |args[i]| && |ArgLocs(args, s)[j]| == |args[j]|
    ensures Where(ArgLocs(args, s)[i], p) != Where(ArgLocs(args, s)[j], q)
    decreases |args|
  {
    WhollyPlaced(args[0], s);
    var (first, s') := NextArg(args[0], s);
    if i > 0 {
      FootprintsDisjoint(args[1..], s', i - 1, j - 1, p, q);
    } else {
      LaterLocs(args[1..], s', j - 1);
      AlignedBetween(first, s, s');
      var mine, other := first[p / WORD], ArgLocs(args[1..], s')[j - 1][q / WORD];
      assert Between(mine, s, s');
      assert mine != other;
      BytesDiffer(mine, p % WORD, other, q % WORD);
    }
  }

  /** The classes of a type are fit for allocation, one word for every eight of its bytes. */
  lemma {:induction false} ClassesArePlain(t: SimType)
    requires Sized(t) && Classified(t).Some? && Simple(Classified(t).value)
    ensures Plain(Classified(t).value) && Size(t) <= WORD * |Classified(t).value|
  {
    AllOrNoMemory(t);
  }

  // --------------------------------------------------------------------------
  // Tiling a scalar over words

  datatype Piece = Piece(loc: Loc, offset: nat, size: nat)

  function PieceBytes(p: Piece): (r: seq<Byte>)
    ensures |r| == p.size
  {
    seq(p.size, k requires 0 <= k => ByteOf(p.loc, p.offset + k))
  }

  function BytesOf(pieces: seq<Piece>): seq<Byte>
  {
    if pieces == [] then [] else BytesOf(pieces[..|pieces| - 1]) + PieceBytes(pieces[|pieces| - 1])
  }

  /** The places of n consecutive bytes of an argument. */
  function Stretch(locs: seq<Loc>, offset: nat, n: nat): (r: seq<Byte>)
    requires offset + n <= WORD * |locs|
    ensures |r| == n
  {
    seq(n, b requires 0 <= b < n => Where(locs, offset + b))
  }

  lemma {:induction false} StretchGrows(locs: seq<Loc>, offset: nat, n: nat, piece: Piece)
    requires offset + n + piece.size <= WORD * |locs| && (offset + n) % WORD + piece.size <= WORD && piece.size > 0
    requires piece.loc == locs[(offset + n) / WORD] && piece.offset == (offset + n) % WORD
    ensures Stretch(locs, offset, n) + PieceBytes(piece) == Stretch(locs, offset, n + piece.size)
  {
    var whole := Stretch(locs, offset, n + piece.size);
    forall k | 0 <= k < piece.size ensures whole[n + k] == PieceBytes(piece)[k] {
      var at := offset + (n + k);
      assert at / WORD == (offset + n) / WORD && at % WORD == (offset + n) % WORD + k;
      assert whole[n + k] == Where(locs, at);
    }
  }

  /** The pieces cover the scalar's bytes in order, each within one word. */
  method RefineScalar(locs: seq<Loc>, bytes: nat, offset: nat) returns (pieces: seq<Piece>)
    requires offset + bytes <= WORD * |locs|
    ensures BytesOf(pieces) == Stretch(locs, offset, bytes)
    ensures forall i :: 0 <= i < |pieces| ==>
              0 < pieces[i].size && pieces[i].offset + pieces[i].size <= WORD && pieces[i].loc in locs
  {
    pieces := [];
    var seen := 0;
    while seen < bytes
      invariant 0 <= seen <= bytes
      invariant BytesOf(pieces) == Stretch(locs, offset, seen)
      invariant forall i :: 0 <= i < |pieces| ==>
                0 < pieces[i].size && pieces[i].offset + pieces[i].size <= WORD && pieces[i].loc in locs
    {
      var start := offset + seen;
      var chunk, within := start / WORD, start % WORD;
      var remaining, wanted := WORD - within, bytes - seen;
      var piece := Piece(locs[chunk], within, if remaining < wanted then remaining else wanted);
      StretchGrows(locs, offset, seen, piece);
      assert (pieces + [piece])[..|pieces|] == pieces;
      pieces := pieces + [piece];
      seen := seen + piece.size;
    }
  }

  // --------------------------------------------------------------------------
  // Tiling any type

  /** The scalars that are given places: those of a union are those of its first member of full size. */
  function TiledLeaves(t: SimType, at: nat): seq<Leaf>
    decreases t, 0
  {
    match t
    case Scalar(kind, bytes) => [Leaf(at, kind.Float?, bytes)]
    case Struct(fields, packed) => TiledFields(fields, Offsets(fields, packed, 0), at)
    case FixedArray(elem, length) => TiledElements(elem, at, length)
    case Union(members) => TiledLongest(members, MaxSize(members), at)
  }

  function TiledFields(fields: seq<SimType>, offs: seq<nat>, at: nat): seq<Leaf>
    requires |fields| == |offs|
    decreases fields, 0
  {
    if fields == [] then [] else TiledLeaves(fields[0], at + offs[0]) + TiledFields(fields[1..], offs[1..], at)
  }

  function TiledElements(t: SimType, at: nat, n: nat): seq<Leaf>
    decreases t, 1 + n
  {
    if n == 0 then [] else TiledLeaves(t, at) + TiledElements(t, at + Size(t), n - 1)
  }

  function TiledLongest(members: seq<SimType>, size: nat, at: nat): seq<Leaf>
    decreases members, 0
  {
    if members == [] then []
    else if Size(members[0]) == size then TiledLeaves(members[0], at)
    else TiledLongest(members[1..], size, at)
  }

  /** Each leaf's pieces are the stretch of bytes at its offset. */
  ghost predicate Tiles(tiles: seq<seq<Piece>>, leaves: seq<Leaf>, locs: seq<Loc>)
  {
    && |tiles| == |leaves|
    && forall i :: 0 <= i < |leaves| ==> TilesLeaf(tiles[i], leaves[i], locs)
  }

  ghost predicate TilesLeaf(pieces: seq<Piece>, l: Leaf, locs: seq<Loc>)
  {
    l.offset + l.bytes <= WORD * |locs| && BytesOf(pieces) == Stretch(locs, l.offset, l.bytes)
  }

  /** `refine_locs_with_struct_type`: every scalar in the type gets the places of its own bytes. */
  method RefineLocs(locs: seq<Loc>, t: SimType, offset: nat) returns (tiles: seq<seq<Piece>>)
    requires Sized(t) && offset + Size(t) <= WORD * |locs|
    ensures Tiles(tiles, TiledLeaves(t, offset), locs)
    decreases t, 0
  {
    match t
    case Scalar(_, bytes) =>
      var pieces := RefineScalar(locs, bytes, offset);
      tiles := [pieces];
    case Struct(fields, packed) =>
      OffsetsInOrder(fields, packed, 0);
      tiles := RefineFields(locs, fields, Offsets(fields, packed, 0), 0, Size(t), offset);
    case FixedArray(elem, length) =>
      tiles := RefineElements(locs, elem, offset, length);
    case Union(members) =>
      tiles := RefineLongest(locs, members, MaxSize(members), offset);
  }

  method RefineFields(locs: seq<Loc>, fields: seq<SimType>, offs: seq<nat>, ghost from: nat, ghost to: nat, offset: nat)
    returns (tiles: seq<seq<Piece>>)
    requires |fields| == |offs| && AllSized(fields) && InOrder(fields, offs, from, to) && offset + to <= WORD * |locs|
    ensures Tiles(tiles, TiledFields(fields, offs, offset), locs)
    decreases fields, 0
  {
    if fields == [] { return []; }
    InOrderEnds(fields[1..], offs[1..], offs[0] + Size(fields[0]), to);
    var first := RefineLocs(locs, fields[0], offset + offs[0]);
    var rest := RefineFields(locs, fields[1..], offs[1..], offs[0] + Size(fields[0]), to, offset);
    tiles := first + rest;
  }

  method RefineElements(locs: seq<Loc>, t: SimType, offset: nat, n: nat) returns (tiles: seq<seq<Piece>>)
    requires Sized(t) && offset + Size(t) * n <= WORD * |locs|
    ensures Tiles(tiles, TiledElements(t, offset, n), locs)
    decreases t, 1 + n
  {
    if n == 0 { return []; }
    assert Size(t) * n == Size(t) + Size(t) * (n - 1) && Size(t) * (n - 1) >= 0;
    var first := RefineLocs(locs, t, offset);
    var rest := RefineElements(locs, t, offset + Size(t), n - 1);
    tiles := first + rest;
  }

  /** The loop over the members, which ends at the first of full size. */
  method RefineLongest(locs: seq<Loc>, members: seq<SimType>, size: nat, offset: nat) returns (tiles: seq<seq<Piece>>)
    requires AllSized(members) && offset + size <= WORD * |locs|
    ensures Tiles(tiles, TiledLongest(members, size, offset), locs)
    decreases members, 0
  {
    if members == [] { return []; }
    if Size(members[0]) == size {
      tiles := RefineLocs(locs, members[0], offset);
    } else {
      tiles := RefineLongest(locs, members[1..], size, offset);
    }
  }

  /** A union with members has one of full size, so the search for it never runs out. */
  lemma {:induction false} LongestFound(members: seq<SimType>)
    requires members != []
    ensures exists i :: 0 <= i < |members| && Size(members[i]) == MaxSize(members)
  {
    if MaxSize(members) != Size(members[0]) {
      assert MaxSize(members[1..]) > 0 == MaxSize([]);
      LongestFound(members[1..]);
      var i :| 0 <= i < |members[1..]| && Size(members[1..][i]) == MaxSize(members[1..]);
      assert Size(members[i + 1]) == MaxSize(members);
    }
  }

  /** Without unions, the tiled scalars are the ones that are classified. */
  predicate NoUnion(t: SimType)
  {
    match t
    case Scalar(_, _) => true
    case Struct(fields, _) => NoUnions(fields)
    case FixedArray(elem, _) => NoUnion(elem)
    case Union(_) => false
  }

  predicate NoUnions(ts: seq<SimType>) { if ts == [] then true else NoUnion(ts[0]) && NoUnions(ts[1..]) }

  lemma {:induction false} TiledIsClassified(t: SimType, at: nat)
    requires NoUnion(t)
    ensures TiledLeaves(t, at) == Leaves(t, at)
    decreases t, 0
  {
    match t
    case Scalar(_, _) =>
    case Struct(fields, packed) => TiledFieldsAreClassified(fields, Offsets(fields, packed, 0), at);
    case FixedArray(elem, length) => TiledElementsAreClassified(elem, at, length);
  }

  lemma {:induction false} TiledFieldsAreClassified(fields: seq<SimType>, offs: seq<nat>, at: nat)
    requires |fields| == |offs| && NoUnions(fields)
    ensures TiledFields(fields, offs, at) == LeavesOfFields(fields, offs, at)
    decreases fields, 0
  {
    if fields != [] {
      TiledIsClassified(fields[0], at + offs[0]);
      TiledFieldsAreClassified(fields[1..], offs[1..], at);
    }
  }

  lemma {:induction false} TiledElementsAreClassified(t: SimType, at: nat, n: nat)
    requires NoUnion(t)
    ensures TiledElements(t, at, n) == LeavesOfElements(t, at, n)
    decreases t, 1 + n
  {
    if n > 0 {
      TiledIsClassified(t, at);
      TiledElementsAreClassified(t, at + Size(t), n - 1);
    }
  }

  // --------------------------------------------------------------------------
  // The session

  class ArgSession {
    var fp: nat
    var ints: nat
    var both: nat

    constructor ()
      ensures State() == Session(0, 0, FIRST_STACK_OFFSET) && Valid(State())
    {
      fp, ints, both := 0, 0, FIRST_STACK_OFFSET;
    }

    function State(): Session
      reads this
    {
      Session(fp, ints, both)
    }

    method SetState(s: Session)
      modifies this
      ensures State() == s
    {
      fp, ints, both := s.fp, s.ints, s.both;
    }

    /** The next location for a class; none when its registers are used up. */
    method Next(c: Class) returns (loc: Option<Loc>)
      modifies this
      ensures match Take(c, old(State()))
              case Some(r) => loc == Some(r.0) && State() == r.1
              case None => loc == None && State() == old(State())
    {
      match c
      case INTEGER =>
        if ints >= INT_REGS { return None; }
        loc := Some(IntReg(ints));
        ints := ints + 1;
      case SSE =>
        if fp >= FP_REGS { return None; }
        loc := Some(FpReg(fp));
        fp := fp + 1;
      case _ =>
        loc := Some(Stack(both));
        both := both + WORD;
    }

    /** Where an argument of these classes goes; none where SSEUP or a missing class raises. */
    method AllocateArg(classes: seq<Class>) returns (r: Option<seq<Loc>>)
      modifies this
      ensures r.None? ==> !Simple(classes)
      ensures Simple(classes) ==>
                r == Some(NextArg(classes, old(State())).0) && State() == NextArg(classes, old(State())).1
    {
      var state := State();
      var mapped: seq<Loc> := [];
      PrependNothing(TakeAll(classes, state));
      for i := 0 to |classes|
        invariant Simple(classes) ==> TakeAll(classes, state) == Prepend(mapped, TakeAll(classes[i..], State()))
      {
        assert classes[i..] != [] && classes[i..][0] == classes[i];
        if classes[i] == SSEUP || classes[i] == NO_CLASS { return None; }
        assert classes[i..][1..] == classes[i + 1..];
        var loc := Next(classes[i]);
        if loc.None? {
          SetState(state);
          var locs := FillStack(|classes|);
          return Some(locs);
        }
        PrependMore(mapped, loc.value, TakeAll(classes[i + 1..], State()));
        mapped := mapped + [loc.value];
      }
      assert mapped + [] == mapped;
      r := Some(mapped);
    }

    method FillStack(n: nat) returns (locs: seq<Loc>)
      modifies this
      ensures locs == OnStack(n, old(State())).0 && State() == OnStack(n, old(State())).1
    {
      locs := [];
      PrependNothing(Some(OnStack(n, State())));
      for i := 0 to n
        invariant Some(OnStack(n, old(State()))) == Prepend(locs, Some(OnStack(n - i, State())))
      {
        PrependMore(locs, Stack(both), Some(OnStack(n - i - 1, State().(both := both + WORD))));
        locs := locs + [Stack(both)];
        both := both + WORD;
      }
      assert locs + [] == locs;
    }
  }

  function Prepend(locs: seq<Loc>, rest: Option<(seq<Loc>, Session)>): Option<(seq<Loc>, Session)>
  {
    match rest
    case None => None
    case Some((more, s)) => Some((locs + more, s))
  }

  lemma {:induction false} PrependNothing(rest: Option<(seq<Loc>, Session)>)
    ensures Prepend([], rest) == rest
  {
    if rest.Some? { assert [] + rest.value.0 == rest.value.0; }
  }

  lemma {:induction false} PrependMore(locs: seq<Loc>, loc: Loc, rest: Option<(seq<Loc>, Session)>)
    ensures Prepend(locs + [loc], rest) == Prepend(locs, Prepend([loc], rest))
  {
    if rest.Some? { assert locs + [loc] + rest.value.0 == locs + ([loc] + rest.value.0); }
  }
}

/** Setting up a call: where arguments go, where the data they point to goes, and what the callee then reads. */
module Callsite {
  import opened BitVec
  import opened MachineState
  import opened Sessions

  /** The constants of a calling convention. */
  datatype Convention = Convention(
    intRegs: nat,
    fpRegs: nat,
    word: nat,           // bytes in a word
    spDiff: nat,         // STACKARG_SP_DIFF: room for the return address
    spBuff: nat,         // STACKARG_SP_BUFF
    alignment: nat,      // STACK_ALIGNMENT
    returnOnStack: bool) // RETURN_ADDR is the slot at the stack pointer, or the link register

  predicate Sound(cc: Convention) { cc.word > 0 && cc.alignment > 0 && (cc.returnOnStack ==> cc.word <= cc.spDiff) }

  datatype RegName = IntArg(i: nat) | FpArg(i: nat) | LinkReg

  datatype Loc = Reg(name: RegName, size: nat) | Stack(offset: nat, size: nat)

  /** A word-or-smaller number, or a pointer to a list of arguments of one size. */
  datatype Arg = Num(value: nat, size: nat, fp: bool) | Ref(contents: seq<Arg>)

  function ArgSize(cc: Convention, a: Arg): nat { if a.Num? then a.size else cc.word }

  predicate Formed(cc: Convention, a: Arg)
  {
    match a
    case Num(v, size, _) => 0 < size <= cc.word && v < Pow2(8 * size)
    case Ref(contents) => AllFormed(cc, contents) && SameSizes(cc, contents)
  }

  predicate AllFormed(cc: Convention, args: seq<Arg>)
  {
    if args == [] then true else Formed(cc, args[0]) && AllFormed(cc, args[1..])
  }

  predicate SameSizes(cc: Convention, args: seq<Arg>)
  {
    forall i :: 0 <= i < |args| ==> ArgSize(cc, args[i]) == ArgSize(cc, args[0])
  }

  // --------------------------------------------------------------------------
  // Argument locations

  function Start(cc: Convention): Session { Session(0, 0, cc.spBuff + cc.spDiff) }

  function NextArg(cc: Convention, s: Session, size: nat, fp: bool): (Loc, Session)
  {
    if fp && s.fp < cc.fpRegs then (Reg(FpArg(s.fp), size), s.(fp := s.fp + 1))
    else if !fp && s.ints < cc.intRegs then (Reg(IntArg(s.ints), size), s.(ints := s.ints + 1))
    else (Stack(s.both, size), s.(both := s.both + cc.word))
  }

  function ArgLocs(cc: Convention, args: seq<Arg>, s: Session): (r: seq<Loc>)
    ensures |r| == |args|
    decreases |args|
  {
    if args == [] then []
    else
      var (loc, s') := NextArg(cc, s, ArgSize(cc, args[0]), args[0].Num? && args[0].fp);
      [loc] + ArgLocs(cc, args[1..], s')
  }

  function StackEnd(cc: Convention, locs: seq<Loc>): nat
  {
    if locs == [] then cc.spDiff
    else
      var before, last := StackEnd(cc, locs[..|locs| - 1]), locs[|locs| - 1];
      if last.Stack? && before < last.offset + cc.word then last.offset + cc.word else before
  }

  function StackSpace(cc: Convention, locs: seq<Loc>): nat { StackEnd(cc, locs) + cc.spBuff }

  method ComputeStackSpace(cc: Convention, locs: seq<Loc>) returns (out: nat)
    ensures out == StackSpace(cc, locs)
  {
    out := cc.spDiff;
    for i := 0 to |locs|
      invariant out == StackEnd(cc, locs[..i])
    {
      assert locs[..i + 1][..i] == locs[..i];
      if locs[i].Stack? && out < locs[i].offset + cc.word { out := locs[i].offset + cc.word; }
    }
    assert locs[..|locs|] == locs;
    out := out + cc.spBuff;
  }

  /** Two locations that do not share a register or a stack byte. */
  predicate Apart(a: Loc, b: Loc)
  {
    match (a, b)
    case (Reg(r, _), Reg(q, _)) => r != q
    case (Stack(o, n), Stack(p, m)) => o + n <= p || p + m <= o
    case _ => true
  }

  /** A location at or after a session's position. */
  predicate After(cc: Convention, loc: Loc, s: Session)
  {
    match loc
    case Reg(IntArg(i), size) => s.ints <= i && size <= cc.word
    case Reg(FpArg(i), size) => s.fp <= i && size <= cc.word
    case Reg(LinkReg, _) => false
    case Stack(o, size) => s.both <= o && size <= cc.word
  }

  lemma {:induction false} LocsAfter(cc: Convention, args: seq<Arg>, s: Session, i: nat)
    requires AllFormed(cc, args) && cc.word > 0 && i < |args|
    ensures var loc := ArgLocs(cc, args, s)[i]; After(cc, loc, s) && loc.size == ArgSize(cc, args[i])
    decreases |args|
  {
    if i > 0 {
      var (_, s') := NextArg(cc, s, ArgSize(cc, args[0]), args[0].Num? && args[0].fp);
      LocsAfter(cc, args[1..], s', i - 1);
    }
  }

  lemma {:induction false} LocsApart(cc: Convention, args: seq<Arg>, s: Session, i: nat, j: nat)
    requires AllFormed(cc, args) && cc.word > 0 && i < j < |args|
    ensures Apart(ArgLocs(cc, args, s)[i], ArgLocs(cc, args, s)[j])
    decreases |args|
  {
    var (first, s') := NextArg(cc, s, ArgSize(cc, args[0]), args[0].Num? && args[0].fp);
    if i > 0 {
      LocsApart(cc, args[1..], s', i - 1, j - 1);
    } else {
      LocsAfter(cc, args[1..], s', j - 1);
    }
  }

  predicate IsFp(a: Arg) { a.Num? && a.fp }

  /** How many of the first n arguments are floating-point numbers, or are not. */
  function OfKind(args: seq<Arg>, fp: bool, n: nat): nat
    requires n <= |args|
  {
    if n == 0 then 0 else OfKind(args, fp, n - 1) + if IsFp(args[n - 1]) == fp then 1 else 0
  }

  function RegsOf(cc: Convention, fp: bool): nat { if fp then cc.fpRegs else cc.intRegs }

  /** A register of its kind is left for the argument. */
  predicate FindsRegister(cc: Convention, args: seq<Arg>, i: nat)
    requires i < |args|
  {
    OfKind(args, IsFp(args[i]), i) < RegsOf(cc, IsFp(args[i]))
  }

  /** How many of the first n arguments find no register. */
  function WithoutRegister(cc: Convention, args: seq<Arg>, n: nat): nat
    requires n <= |args|
  {
    if n == 0 then 0 else WithoutRegister(cc, args, n - 1) + if FindsRegister(cc, args, n - 1) then 0 else 1
  }

  /** An argument is in the register of its kind that as many earlier arguments of that kind have left to it, or else
      on the stack, one word after another in the order of the arguments that find no register. */
  lemma {:induction false} LocsByCount(cc: Convention, args: seq<Arg>, i: nat)
    requires i < |args|
    ensures var (fp, size) := (IsFp(args[i]), ArgSize(cc, args[i]));
            var nth := OfKind(args, fp, i);
            ArgLocs(cc, args, Start(cc))[i]
            == if nth < RegsOf(cc, fp) then Reg(if fp then FpArg(nth) else IntArg(nth), size)
               else Stack(cc.spBuff + cc.spDiff + cc.word * WithoutRegister(cc, args, i), size)
  {
    assert args[0..] == args && cc.word * 0 == 0 && SessionAfter(cc, args, 0) == Start(cc);
    LocsFrom(cc, args, 0, i);
  }

  function Least(n: nat, m: nat): nat { if n < m then n else m }

  /** Where a session is after n arguments. */
  function SessionAfter(cc: Convention, args: seq<Arg>, n: nat): Session
    requires n <= |args|
  {
    Session(Least(OfKind(args, true, n), cc.fpRegs), Least(OfKind(args, false, n), cc.intRegs),
            cc.spBuff + cc.spDiff + cc.word * WithoutRegister(cc, args, n))
  }

  lemma {:induction false} NextByCount(cc: Convention, args: seq<Arg>, n: nat)
    requires n < |args|
    ensures NextArg(cc, SessionAfter(cc, args, n), ArgSize(cc, args[n]), IsFp(args[n])).1
         == SessionAfter(cc, args, n + 1)
  {
    var stacked := WithoutRegister(cc, args, n);
    assert cc.word * (stacked + 1) == cc.word * stacked + cc.word;
    assert WithoutRegister(cc, args, n + 1) == stacked + if FindsRegister(cc, args, n) then 0 else 1;
    assert OfKind(args, true, n + 1) == OfKind(args, true, n) + if IsFp(args[n]) then 1 else 0;
    assert OfKind(args, false, n + 1) == OfKind(args, false, n) + if IsFp(args[n]) then 0 else 1;
  }

  lemma {:induction false} LocsFrom(cc: Convention, args: seq<Arg>, n: nat, i: nat)
    requires n <= i < |args|
    ensures ArgLocs(cc, args[n..], SessionAfter(cc, args, n))[i - n]
         == NextArg(cc, SessionAfter(cc, args, i), ArgSize(cc, args[i]), IsFp(args[i])).0
    decreases i - n
  {
    assert args[n..][0] == args[n];
    if n < i {
      NextByCount(cc, args, n);
      assert args[n..][1..] == args[n + 1..];
      LocsFrom(cc, args, n + 1, i);
    }
  }

  lemma {:induction false} StackEndBounds(cc: Convention, locs: seq<Loc>, i: nat)
    requires i < |locs|
    ensures cc.spDiff <= StackEnd(cc, locs) && (locs[i].Stack? ==> locs[i].offset + cc.word <= StackEnd(cc, locs))
    decreases |locs|
  {
    var before := locs[..|locs| - 1];
    if i < |locs| - 1 {
      StackEndBounds(cc, before, i);
    } else if before != [] {
      StackEndBounds(cc, before, 0);
    }
  }

  // --------------------------------------------------------------------------
  // Laying out the data that arguments point to

  /** A serialized value: a number, or a pointer relative to the start of the auxiliary data. */
  datatype Val = Bits(value: nat, size: nat) | Ptr(offset: nat)

  datatype Dump = Dump(offset: nat, vals: seq<Val>)

  datatype Alloc = Alloc(ptr: nat, stores: seq<Dump>)

  function Width(cc: Convention, v: Val): nat { if v.Bits? then v.size else cc.word }

  /** Lists are laid out with the stride of their first element. */
  function Stride(cc: Convention, vals: seq<Val>): nat { if vals == [] then 0 else Width(cc, vals[0]) }

  function ListSize(cc: Convention, vals: seq<Val>): nat { Times(|vals|, Stride(cc, vals)) }

  function Serialize(cc: Convention, arg: Arg, a: Alloc): (Val, Alloc)
    decreases arg, 0
  {
    match arg
    case Num(v, size, _) => (Bits(v, size), a)
    case Ref(contents) =>
      var (vals, a1) := SerializeAll(cc, contents, a);
      (Ptr(a1.ptr), Alloc(a1.ptr + ListSize(cc, vals), a1.stores + [Dump(a1.ptr, vals)]))
  }

  function SerializeAll(cc: Convention, args: seq<Arg>, a: Alloc): (seq<Val>, Alloc)
    decreases args, 0
  {
    if args == [] then ([], a)
    else
      var (v, a1) := Serialize(cc, args[0], a);
      var (vs, a2) := SerializeAll(cc, args[1..], a1);
      ([v] + vs, a2)
  }

  /** Dumps lie one after the other, below the allocation pointer. */
  predicate Stacked(cc: Convention, a: Alloc)
  {
    && (forall i :: 0 <= i < |a.stores| ==> a.stores[i].offset + ListSize(cc, a.stores[i].vals) <= a.ptr)
    && (forall i, j :: 0 <= i < j < |a.stores| ==> Below(cc, a.stores[i], a.stores[j]))
  }

  predicate Below(cc: Convention, d: Dump, e: Dump) { d.offset + ListSize(cc, d.vals) <= e.offset }

  /** The value stands for the argument, as far as the dumps say. */
  ghost predicate Represents(cc: Convention, stores: seq<Dump>, v: Val, arg: Arg)
    decreases arg, 0
  {
    match arg
    case Num(value, size, _) => v == Bits(value, size)
    case Ref(contents) => v.Ptr? && exists d :: DumpRepresents(cc, stores, d, v.offset, contents)
  }

  ghost predicate DumpRepresents(cc: Convention, stores: seq<Dump>, d: Dump, offset: nat, contents: seq<Arg>)
    decreases contents, 1
  {
    d in stores && d.offset == offset && |d.vals| == |contents| && AllRepresent(cc, stores, d.vals, contents)
  }

  ghost predicate AllRepresent(cc: Convention, stores: seq<Dump>, vals: seq<Val>, args: seq<Arg>)
    requires |vals| == |args|
    decreases args, 0
  {
    if args == [] then true
    else Represents(cc, stores, vals[0], args[0]) && AllRepresent(cc, stores, vals[1..], args[1..])
  }

  lemma {:induction false} RepresentsMore(cc: Convention, stores: seq<Dump>, more: seq<Dump>, v: Val, arg: Arg)
    requires Represents(cc, stores, v, arg) && forall d :: d in stores ==> d in more
    ensures Represents(cc, more, v, arg)
    decreases arg, 0
  {
    if arg.Ref? {
      var d :| DumpRepresents(cc, stores, d, v.offset, arg.contents);
      AllRepresentMore(cc, stores, more, d.vals, arg.contents);
      assert DumpRepresents(cc, more, d, v.offset, arg.contents);
    }
  }

  lemma {:induction false} AllRepresentMore(cc: Convention, stores: seq<Dump>, more: seq<Dump>, vals: seq<Val>,
                                            args: seq<Arg>)
    requires |vals| == |args| && AllRepresent(cc, stores, vals, args) && forall d :: d in stores ==> d in more
    ensures AllRepresent(cc, more, vals, args)
    decreases args, 0
  {
    if args != [] {
      RepresentsMore(cc, stores, more, vals[0], args[0]);
      AllRepresentMore(cc, stores, more, vals[1..], args[1..]);
    }
  }

  /** Serializing grows the allocation, keeps it stacked, and yields a value that stands for the argument. */
  lemma {:induction false} SerializeKeeps(cc: Convention, arg: Arg, a: Alloc)
    requires Stacked(cc, a) && cc.word > 0 && Formed(cc, arg)
    ensures var (v, a') := Serialize(cc, arg, a);
            && Stacked(cc, a') && a.ptr <= a'.ptr && a.stores <= a'.stores
            && Represents(cc, a'.stores, v, arg) && Width(cc, v) == ArgSize(cc, arg)
    decreases arg, 0
  {
    if arg.Ref? {
      var (vals, a1) := SerializeAll(cc, arg.contents, a);
      SerializeAllKeeps(cc, arg.contents, a);
      var (v, a') := Serialize(cc, arg, a);
      var d := Dump(a1.ptr, vals);
      assert d == a'.stores[|a1.stores|];
      assert forall e :: e in a1.stores ==> e in a'.stores;
      AllRepresentMore(cc, a1.stores, a'.stores, vals, arg.contents);
      assert DumpRepresents(cc, a'.stores, d, v.offset, arg.contents);
    }
  }

  lemma {:induction false} SerializeAllKeeps(cc: Convention, args: seq<Arg>, a: Alloc)
    requires Stacked(cc, a) && cc.word > 0 && AllFormed(cc, args)
    ensures var (vs, a') := SerializeAll(cc, args, a);
            && |vs| == |args| && Stacked(cc, a') && a.ptr <= a'.ptr && a.stores <= a'.stores
            && AllRepresent(cc, a'.stores, vs, args)
            && forall i :: 0 <= i < |args| ==> Width(cc, vs[i]) == ArgSize(cc, args[i])
    decreases args, 0
  {
    if args != [] {
      var (v, a1) := Serialize(cc, args[0], a);
      SerializeKeeps(cc, args[0], a);
      SerializeAllKeeps(cc, args[1..], a1);
      var (vs, a2) := SerializeAll(cc, args[1..], a1);
      RepresentsMore(cc, a1.stores, a2.stores, v, args[0]);
    }
  }

  // --------------------------------------------------------------------------
  // Values fit their places

  predicate ValFits(cc: Convention, v: Val, limit: nat)
  {
    match v
    case Bits(value, size) => 0 < size <= cc.word && value < Pow2(8 * size)
    case Ptr(offset) => offset <= limit
  }

  predicate AllFit(cc: Convention, vals: seq<Val>, limit: nat)
  {
    forall i :: 0 <= i < |vals| ==> ValFits(cc, vals[i], limit)
  }

  predicate Uniform(cc: Convention, vals: seq<Val>)
  {
    forall i :: 0 <= i < |vals| ==> Width(cc, vals[i]) == Stride(cc, vals)
  }

  predicate DumpsFit(cc: Convention, stores: seq<Dump>, limit: nat)
  {
    forall k :: 0 <= k < |stores| ==> AllFit(cc, stores[k].vals, limit) && Uniform(cc, stores[k].vals)
  }

  lemma {:induction false} SerializeFits(cc: Convention, arg: Arg, a: Alloc)
    requires Stacked(cc, a) && cc.word > 0 && Formed(cc, arg) && DumpsFit(cc, a.stores, a.ptr)
    ensures var (v, a') := Serialize(cc, arg, a); ValFits(cc, v, a'.ptr) && DumpsFit(cc, a'.stores, a'.ptr)
    decreases arg, 0
  {
    if arg.Ref? {
      SerializeAllFits(cc, arg.contents, a);
      SerializeAllKeeps(cc, arg.contents, a);
      var (vals, a1) := SerializeAll(cc, arg.contents, a);
      FitMore(cc, a1.stores, vals, a1.ptr, a1.ptr + ListSize(cc, vals));
    }
  }

  lemma {:induction false} SerializeAllFits(cc: Convention, args: seq<Arg>, a: Alloc)
    requires Stacked(cc, a) && cc.word > 0 && AllFormed(cc, args) && DumpsFit(cc, a.stores, a.ptr)
    ensures var (vs, a') := SerializeAll(cc, args, a); AllFit(cc, vs, a'.ptr) && DumpsFit(cc, a'.stores, a'.ptr)
    decreases args, 0
  {
    if args != [] {
      var (v, a1) := Serialize(cc, args[0], a);
      SerializeFits(cc, args[0], a);
      SerializeKeeps(cc, args[0], a);
      SerializeAllFits(cc, args[1..], a1);
      SerializeAllKeeps(cc, args[1..], a1);
    }
  }

  lemma {:induction false} FitMore(cc: Convention, stores: seq<Dump>, vals: seq<Val>, limit: nat, more: nat)
    requires limit <= more && DumpsFit(cc, stores, limit) && AllFit(cc, vals, limit)
    ensures DumpsFit(cc, stores, more) && AllFit(cc, vals, more)
  {
  }

  // --------------------------------------------------------------------------
  // Writing the auxiliary data

  function Translate(v: Val, base: nat): nat { if v.Bits? then v.value else base + v.offset }

  function WriteVals(cc: Convention, vals: seq<Val>, stride: nat, addr: int, base: nat, m: Memory): Memory
    decreases |vals|
  {
    if vals == [] then m
    else WriteVals(cc, vals[1..], stride, addr + stride, base,
                   StoreValue(m, addr, Translate(vals[0], base), Width(cc, vals[0]), LE))
  }

  function Apply(cc: Convention, stores: seq<Dump>, base: nat, m: Memory): Memory
  {
    if stores == [] then m
    else
      var before, d := Apply(cc, stores[..|stores| - 1], base, m), stores[|stores| - 1];
      WriteVals(cc, d.vals, Stride(cc, d.vals), base + d.offset, base, before)
  }

  ghost predicate Stored(cc: Convention, vals: seq<Val>, stride: nat, addr: int, base: nat, m: Memory)
    decreases |vals|
  {
    if vals == [] then true
    else
      && LoadValue(m, addr, Width(cc, vals[0]), LE) == Translate(vals[0], base)
      && Stored(cc, vals[1..], stride, addr + stride, base, m)
  }

  ghost predicate AgreeOn(m: Memory, m': Memory, lo: int, hi: int)
  {
    forall k :: lo <= k < hi ==> At(m', k) == At(m, k)
  }

  lemma {:induction false} StoreAgrees(m: Memory, a: int, v: nat, n: nat, lo: int, hi: int)
    requires hi <= a || a + n <= lo
    ensures AgreeOn(m, StoreValue(m, a, v, n, LE), lo, hi)
  {
    forall k | lo <= k < hi ensures At(StoreValue(m, a, v, n, LE), k) == At(m, k) { WriteAt(m, a, Bytes(v, n), k); }
  }

  lemma {:induction false} LoadAgrees(m: Memory, m': Memory, a: int, n: nat, lo: int, hi: int)
    requires AgreeOn(m, m', lo, hi) && lo <= a && a + n <= hi
    ensures LoadValue(m', a, n, LE) == LoadValue(m, a, n, LE)
  {
    ReadAgrees(m, m', a, n);
  }

  lemma {:induction false} WriteValsAgrees(cc: Convention, vals: seq<Val>, stride: nat, addr: int, base: nat,
                                           m: Memory, lo: int, hi: int)
    requires forall i :: 0 <= i < |vals| ==> Width(cc, vals[i]) <= stride
    requires hi <= addr || addr + Times(|vals|, stride) <= lo
    ensures AgreeOn(m, WriteVals(cc, vals, stride, addr, base, m), lo, hi)
    decreases |vals|
  {
    if vals != [] {
      var m1 := StoreValue(m, addr, Translate(vals[0], base), Width(cc, vals[0]), LE);
      StoreAgrees(m, addr, Translate(vals[0], base), Width(cc, vals[0]), lo, hi);
      WriteValsAgrees(cc, vals[1..], stride, addr + stride, base, m1, lo, hi);
    }
  }

  lemma {:induction false} StoredAgrees(cc: Convention, vals: seq<Val>, stride: nat, addr: int, base: nat, m: Memory,
                                        m': Memory, hi: int)
    requires forall i :: 0 <= i < |vals| ==> Width(cc, vals[i]) <= stride
    requires Stored(cc, vals, stride, addr, base, m) && AgreeOn(m, m', addr, hi) && addr + Times(|vals|, stride) <= hi
    ensures Stored(cc, vals, stride, addr, base, m')
    decreases |vals|
  {
    if vals != [] {
      LoadAgrees(m, m', addr, Width(cc, vals[0]), addr, hi);
      StoredAgrees(cc, vals[1..], stride, addr + stride, base, m, m', hi);
    }
  }

  predicate TranslatesFit(cc: Convention, vals: seq<Val>, base: nat)
  {
    forall i :: 0 <= i < |vals| ==> Translate(vals[i], base) < Pow2(8 * Width(cc, vals[i]))
  }

  lemma {:induction false} WriteValsStores(cc: Convention, vals: seq<Val>, stride: nat, addr: int, base: nat, m: Memory)
    requires (forall i :: 0 <= i < |vals| ==> Width(cc, vals[i]) <= stride) && TranslatesFit(cc, vals, base)
    ensures Stored(cc, vals, stride, addr, base, WriteVals(cc, vals, stride, addr, base, m))
    decreases |vals|
  {
    if vals != [] {
      var m1 := StoreValue(m, addr, Translate(vals[0], base), Width(cc, vals[0]), LE);
      var m2 := WriteVals(cc, vals[1..], stride, addr + stride, base, m1);
      LoadOfStore(m, addr, Translate(vals[0], base), Width(cc, vals[0]), LE);
      WriteValsAgrees(cc, vals[1..], stride, addr + stride, base, m1, addr, addr + stride);
      LoadAgrees(m1, m2, addr, Width(cc, vals[0]), addr, addr + stride);
      WriteValsStores(cc, vals[1..], stride, addr + stride, base, m1);
    }
  }

  ghost predicate DumpStored(cc: Convention, d: Dump, base: nat, m: Memory)
  {
    Stored(cc, d.vals, Stride(cc, d.vals), base + d.offset, base, m)
  }

  function WriteDump(cc: Convention, d: Dump, base: nat, m: Memory): Memory
  {
    WriteVals(cc, d.vals, Stride(cc, d.vals), base + d.offset, base, m)
  }

  lemma {:induction false} DumpSurvives(cc: Convention, e: Dump, d: Dump, base: nat, m: Memory)
    requires Uniform(cc, d.vals) && Uniform(cc, e.vals) && Below(cc, e, d) && DumpStored(cc, e, base, m)
    ensures DumpStored(cc, e, base, WriteDump(cc, d, base, m))
  {
    WriteValsAgrees(cc, d.vals, Stride(cc, d.vals), base + d.offset, base, m, base + e.offset, base + d.offset);
    StoredAgrees(cc, e.vals, Stride(cc, e.vals), base + e.offset, base, m, WriteDump(cc, d, base, m), base + d.offset);
  }

  lemma {:induction false} DumpWritten(cc: Convention, d: Dump, limit: nat, base: nat, m: Memory)
    requires Uniform(cc, d.vals) && AllFit(cc, d.vals, limit) && base + limit < Pow2(8 * cc.word)
    ensures DumpStored(cc, d, base, WriteDump(cc, d, base, m))
  {
    forall i | 0 <= i < |d.vals| ensures Translate(d.vals[i], base) < Pow2(8 * Width(cc, d.vals[i])) {
      assert ValFits(cc, d.vals[i], limit);
    }
    WriteValsStores(cc, d.vals, Stride(cc, d.vals), base + d.offset, base, m);
  }

  /** No dump overwrites another, so in the end all of them are in memory. */
  lemma {:induction false} ApplyStores(cc: Convention, a: Alloc, n: nat, base: nat, m: Memory, k: nat)
    requires k < n <= |a.stores| && Stacked(cc, a) && DumpsFit(cc, a.stores, a.ptr) && base + a.ptr < Pow2(8 * cc.word)
    ensures DumpStored(cc, a.stores[k], base, Apply(cc, a.stores[..n], base, m))
    decreases n
  {
    var before, d := Apply(cc, a.stores[..n - 1], base, m), a.stores[n - 1];
    assert a.stores[..n][..n - 1] == a.stores[..n - 1];
    assert Apply(cc, a.stores[..n], base, m) == WriteDump(cc, d, base, before);
    assert Uniform(cc, d.vals) && AllFit(cc, d.vals, a.ptr);
    if k < n - 1 {
      ApplyStores(cc, a, n - 1, base, m, k);
      assert Below(cc, a.stores[k], d) && Uniform(cc, a.stores[k].vals);
      DumpSurvives(cc, a.stores[k], d, base, before);
    } else {
      DumpWritten(cc, d, a.ptr, base, before);
    }
  }

  /** All dumps lie below the end of the allocation. */
  lemma {:induction false} ApplyAgrees(cc: Convention, a: Alloc, n: nat, base: nat, m: Memory, hi: int)
    requires n <= |a.stores| && Stacked(cc, a) && DumpsFit(cc, a.stores, a.ptr)
    ensures AgreeOn(m, Apply(cc, a.stores[..n], base, m), base + a.ptr, hi)
    decreases n
  {
    if n > 0 {
      var before, d := Apply(cc, a.stores[..n - 1], base, m), a.stores[n - 1];
      assert a.stores[..n][..n - 1] == a.stores[..n - 1];
      assert Uniform(cc, d.vals);
      ApplyAgrees(cc, a, n - 1, base, m, hi);
      WriteValsAgrees(cc, d.vals, Stride(cc, d.vals), base + d.offset, base, before, base + a.ptr, hi);
    }
  }

  // --------------------------------------------------------------------------
  // Reading back

  /** The value shows the argument: the number itself, or the address of a list that does. */
  ghost predicate Shows(cc: Convention, v: nat, arg: Arg, m: Memory)
    decreases arg, 0
  {
    match arg
    case Num(value, _, _) => v == value
    case Ref(contents) => ListShows(cc, v, contents, m)
  }

  ghost predicate ListShows(cc: Convention, addr: int, contents: seq<Arg>, m: Memory)
    decreases contents, 0
  {
    if contents == [] then true
    else
      var size := ArgSize(cc, contents[0]);
      Shows(cc, LoadValue(m, addr, size, LE), contents[0], m) && ListShows(cc, addr + size, contents[1..], m)
  }

  ghost predicate AllStored(cc: Convention, stores: seq<Dump>, base: nat, m: Memory)
  {
    forall d :: d in stores ==> DumpStored(cc, d, base, m)
  }

  lemma {:induction false} RepresentedIsShown(cc: Convention, stores: seq<Dump>, v: Val, arg: Arg, base: nat, m: Memory)
    requires Represents(cc, stores, v, arg) && AllStored(cc, stores, base, m) && DumpsUniform(cc, stores)
    ensures Shows(cc, Translate(v, base), arg, m)
    decreases arg, 0
  {
    if arg.Ref? {
      var d :| DumpRepresents(cc, stores, d, v.offset, arg.contents);
      assert DumpStored(cc, d, base, m) && Uniform(cc, d.vals);
      ListIsShown(cc, stores, d.vals, Stride(cc, d.vals), arg.contents, base + d.offset, base, m);
    }
  }

  ghost predicate DumpsUniform(cc: Convention, stores: seq<Dump>) { forall d :: d in stores ==> Uniform(cc, d.vals) }

  lemma {:induction false} ListIsShown(cc: Convention, stores: seq<Dump>, vals: seq<Val>, stride: nat,
                                       contents: seq<Arg>, addr: int, base: nat, m: Memory)
    requires |vals| == |contents| && AllRepresent(cc, stores, vals, contents)
    requires AllStored(cc, stores, base, m) && DumpsUniform(cc, stores)
    requires Stored(cc, vals, stride, addr, base, m) && forall i :: 0 <= i < |vals| ==> Width(cc, vals[i]) == stride
    ensures ListShows(cc, addr, contents, m)
    decreases contents, 0
  {
    if contents != [] {
      RepresentedIsShown(cc, stores, vals[0], contents[0], base, m);
      assert Width(cc, vals[0]) == ArgSize(cc, contents[0]);
      ListIsShown(cc, stores, vals[1..], stride, contents[1..], addr + stride, base, m);
    }
  }

  // --------------------------------------------------------------------------
  // Storing arguments and the return address

  datatype CallState = CallState(sp: int, regs: map<RegName, nat>, mem: Memory)

  /** A register is cleared before its low bytes are stored. */
  function SetLoc(st: CallState, loc: Loc, v: nat): CallState
  {
    match loc
    case Reg(r, _) => st.(regs := st.regs[r := v])
    case Stack(o, size) => st.(mem := StoreValue(st.mem, st.sp + o, v, size, LE))
  }

  function GetLoc(st: CallState, loc: Loc): nat
  {
    match loc
    case Reg(r, size) => Wrap(if r in st.regs then st.regs[r] else 0, 8 * size)
    case Stack(o, size) => LoadValue(st.mem, st.sp + o, size, LE)
  }

  function SetAll(st: CallState, locs: seq<Loc>, vals: seq<Val>, base: nat): CallState
    requires |locs| == |vals|
    decreases |locs|
  {
    if locs == [] then st else SetAll(SetLoc(st, locs[0], Translate(vals[0], base)), locs[1..], vals[1..], base)
  }

  lemma {:induction false} GetOfSet(st: CallState, loc: Loc, v: nat)
    requires v < Pow2(8 * loc.size)
    ensures GetLoc(SetLoc(st, loc, v), loc) == v
  {
    match loc
    case Reg(_, size) => WrapInRange(v, 8 * size);
    case Stack(o, size) => LoadOfStore(st.mem, st.sp + o, v, size, LE);
  }

  lemma {:induction false} GetElsewhere(st: CallState, loc: Loc, v: nat, other: Loc)
    requires Apart(loc, other)
    ensures GetLoc(SetLoc(st, loc, v), other) == GetLoc(st, other)
  {
    if loc.Stack? && other.Stack? {
      LoadElsewhere(st.mem, st.sp + loc.offset, v, loc.size, st.sp + other.offset, other.size, LE);
    }
  }

  ghost predicate AllApart(locs: seq<Loc>) { forall i, j :: 0 <= i < j < |locs| ==> Apart(locs[i], locs[j]) }

  lemma {:induction false} GetAfterAll(st: CallState, locs: seq<Loc>, vals: seq<Val>, base: nat, other: Loc)
    requires |locs| == |vals| && forall i :: 0 <= i < |locs| ==> Apart(locs[i], other)
    ensures GetLoc(SetAll(st, locs, vals, base), other) == GetLoc(st, other)
    decreases |locs|
  {
    if locs != [] {
      assert Apart(locs[0], other);
      GetElsewhere(st, locs[0], Translate(vals[0], base), other);
      GetAfterAll(SetLoc(st, locs[0], Translate(vals[0], base)), locs[1..], vals[1..], base, other);
    }
  }

  /** Locations that are apart keep what was put in them. */
  lemma {:induction false} GetAll(st: CallState, locs: seq<Loc>, vals: seq<Val>, base: nat, k: nat)
    requires |locs| == |vals| && k < |locs| && AllApart(locs) && Translate(vals[k], base) < Pow2(8 * locs[k].size)
    ensures GetLoc(SetAll(st, locs, vals, base), locs[k]) == Translate(vals[k], base)
    decreases |locs|
  {
    var st1 := SetLoc(st, locs[0], Translate(vals[0], base));
    if k > 0 {
      GetAll(st1, locs[1..], vals[1..], base, k - 1);
    } else {
      GetOfSet(st, locs[0], Translate(vals[0], base));
      forall i | 0 <= i < |locs[1..]| ensures Apart(locs[1..][i], locs[0]) { assert Apart(locs[0], locs[i + 1]); }
      GetAfterAll(st1, locs[1..], vals[1..], base, locs[0]);
    }
  }

  lemma {:induction false} SetAllAgrees(st: CallState, locs: seq<Loc>, vals: seq<Val>, base: nat, top: int, hi: int)
    requires |locs| == |vals|
    requires forall i :: 0 <= i < |locs| ==> (locs[i].Stack? ==> st.sp + locs[i].offset + locs[i].size <= top)
    ensures SetAll(st, locs, vals, base).sp == st.sp && AgreeOn(st.mem, SetAll(st, locs, vals, base).mem, top, hi)
    decreases |locs|
  {
    if locs != [] {
      if locs[0].Stack? {
        StoreAgrees(st.mem, st.sp + locs[0].offset, Translate(vals[0], base), locs[0].size, top, hi);
      }
      SetAllAgrees(SetLoc(st, locs[0], Translate(vals[0], base)), locs[1..], vals[1..], base, top, hi);
    }
  }

  // --------------------------------------------------------------------------
  // The whole call site

  function ReturnLoc(cc: Convention): Loc { if cc.returnOnStack then Stack(0, cc.word) else Reg(LinkReg, cc.word) }

  const NO_DATA := Alloc(0, [])

  function AlignDown(sp: int, cc: Convention): int
    requires cc.alignment > 0
  {
    sp - (sp + cc.spDiff) % cc.alignment
  }

  /** The stack pointer the call starts with. */
  function CalleeSp(cc: Convention, args: seq<Arg>, sp: int): int
    requires cc.alignment > 0
  {
    AlignDown(sp - SerializeAll(cc, args, NO_DATA).1.ptr - StackSpace(cc, ArgLocs(cc, args, Start(cc))), cc)
  }

  /** The addresses the call uses do not wrap around: data, arguments and alignment fit below the stack pointer. */
  predicate NoWrap(cc: Convention, args: seq<Arg>, st: CallState)
    requires cc.alignment > 0
  {
    0 <= CalleeSp(cc, args, st.sp) && st.sp < Pow2(8 * cc.word)
  }

  function Setup(cc: Convention, args: seq<Arg>, ret: nat, st: CallState): CallState
    requires Sound(cc) && AllFormed(cc, args) && NoWrap(cc, args, st)
  {
    var p := PlanOf(cc, args, st);
    PlanIsGood(cc, args, st);
    SetAll(p.st, ArgLocs(cc, args, Start(cc)) + [ReturnLoc(cc)], p.vals + [Bits(ret, cc.word)], p.base)
  }

  lemma {:induction false} AlignedDown(sp: int, cc: Convention)
    requires cc.alignment > 0
    ensures AlignDown(sp, cc) <= sp && (AlignDown(sp, cc) + cc.spDiff) % cc.alignment == 0
  {
    var x := sp + cc.spDiff;
    ModUnique(x - x % cc.alignment, cc.alignment, x / cc.alignment, 0);
  }

  lemma {:induction false} AllLocsApart(cc: Convention, args: seq<Arg>)
    requires Sound(cc) && AllFormed(cc, args)
    ensures AllApart(ArgLocs(cc, args, Start(cc)) + [ReturnLoc(cc)])
  {
    var locs := ArgLocs(cc, args, Start(cc));
    var all := locs + [ReturnLoc(cc)];
    forall i, j | 0 <= i < j < |all| ensures Apart(all[i], all[j]) {
      if j < |locs| {
        LocsApart(cc, args, Start(cc), i, j);
      } else {
        LocsAfter(cc, args, Start(cc), i);
      }
    }
  }

  lemma {:induction false} LocsBelowBase(cc: Convention, args: seq<Arg>, base: int, sp: int)
    requires Sound(cc) && AllFormed(cc, args) && sp + StackSpace(cc, ArgLocs(cc, args, Start(cc))) <= base
    ensures var all := ArgLocs(cc, args, Start(cc)) + [ReturnLoc(cc)];
            forall i :: 0 <= i < |all| ==> (all[i].Stack? ==> sp + all[i].offset + all[i].size <= base)
  {
    var locs := ArgLocs(cc, args, Start(cc));
    var all := locs + [ReturnLoc(cc)];
    forall i | 0 <= i < |all| && all[i].Stack? ensures sp + all[i].offset + all[i].size <= base {
      if i < |locs| {
        StackEndBounds(cc, locs, i);
        LocsAfter(cc, args, Start(cc), i);
      } else if locs != [] {
        StackEndBounds(cc, locs, 0);
      }
    }
  }

  /** Dumps are still there when everything below the base has been written. */
  lemma {:induction false} AllStillStored(cc: Convention, a: Alloc, base: nat, m: Memory, m': Memory)
    requires Stacked(cc, a) && DumpsFit(cc, a.stores, a.ptr) && base + a.ptr < Pow2(8 * cc.word)
    requires AgreeOn(Apply(cc, a.stores, base, m), m', base, base + a.ptr)
    ensures AllStored(cc, a.stores, base, m') && DumpsUniform(cc, a.stores)
  {
    forall d | d in a.stores ensures DumpStored(cc, d, base, m') && Uniform(cc, d.vals) {
      var k :| 0 <= k < |a.stores| && a.stores[k] == d;
      StillStored(cc, a, base, m, m', k);
    }
  }

  lemma {:induction false} StillStored(cc: Convention, a: Alloc, base: nat, m: Memory, m': Memory, k: nat)
    requires Stacked(cc, a) && DumpsFit(cc, a.stores, a.ptr) && base + a.ptr < Pow2(8 * cc.word) && k < |a.stores|
    requires AgreeOn(Apply(cc, a.stores, base, m), m', base, base + a.ptr)
    ensures DumpStored(cc, a.stores[k], base, m') && Uniform(cc, a.stores[k].vals)
  {
    assert a.stores[..|a.stores|] == a.stores;
    ApplyStores(cc, a, |a.stores|, base, m, k);
    var d := a.stores[k];
    assert Uniform(cc, d.vals);
    StoredAgrees(cc, d.vals, Stride(cc, d.vals), base + d.offset, base, Apply(cc, a.stores, base, m), m', base + a.ptr);
  }

  /** The state the arguments are stored into, with what is stored. */
  datatype Plan = Plan(st: CallState, a: Alloc, vals: seq<Val>, base: nat)

  function PlanOf(cc: Convention, args: seq<Arg>, st: CallState): Plan
    requires Sound(cc) && AllFormed(cc, args) && NoWrap(cc, args, st)
  {
    var (vals, a) := SerializeAll(cc, args, NO_DATA);
    AlignedDown(st.sp - a.ptr - StackSpace(cc, ArgLocs(cc, args, Start(cc))), cc);
    var base := st.sp - a.ptr;
    var sp := AlignDown(base - StackSpace(cc, ArgLocs(cc, args, Start(cc))), cc);
    Plan(CallState(sp, st.regs, Apply(cc, a.stores, base, st.mem)), a, vals, base)
  }

  ghost predicate GoodPlan(cc: Convention, args: seq<Arg>, p: Plan)
    requires cc.alignment > 0
  {
    && |p.vals| == |args| && AllRepresent(cc, p.a.stores, p.vals, args) && AllFit(cc, p.vals, p.a.ptr)
    && (forall i :: 0 <= i < |args| ==> Width(cc, p.vals[i]) == ArgSize(cc, args[i]))
    && Stacked(cc, p.a) && DumpsFit(cc, p.a.stores, p.a.ptr) && p.base + p.a.ptr < Pow2(8 * cc.word)
    && p.st.sp + StackSpace(cc, ArgLocs(cc, args, Start(cc))) <= p.base && (p.st.sp + cc.spDiff) % cc.alignment == 0
  }

  lemma {:induction false} PlanIsGood(cc: Convention, args: seq<Arg>, st: CallState)
    requires Sound(cc) && AllFormed(cc, args) && NoWrap(cc, args, st)
    ensures GoodPlan(cc, args, PlanOf(cc, args, st)) && PlanOf(cc, args, st).st.sp == CalleeSp(cc, args, st.sp)
  {
    var p := PlanOf(cc, args, st);
    DataIsGood(cc, args, p);
    AlignedDown(p.base - StackSpace(cc, ArgLocs(cc, args, Start(cc))), cc);
  }

  lemma {:induction false} DataIsGood(cc: Convention, args: seq<Arg>, p: Plan)
    requires cc.word > 0 && AllFormed(cc, args) && (p.vals, p.a) == SerializeAll(cc, args, NO_DATA)
    ensures |p.vals| == |args| && AllRepresent(cc, p.a.stores, p.vals, args) && AllFit(cc, p.vals, p.a.ptr)
    ensures forall i :: 0 <= i < |args| ==> Width(cc, p.vals[i]) == ArgSize(cc, args[i])
    ensures Stacked(cc, p.a) && DumpsFit(cc, p.a.stores, p.a.ptr)
  {
    SerializeAllKeeps(cc, args, NO_DATA);
    SerializeAllFits(cc, args, NO_DATA);
  }

  /** What follows from a plan. */
  lemma {:induction false} PlanWorks(cc: Convention, args: seq<Arg>, ret: nat, p: Plan, m: Memory, hi: int)
    requires Sound(cc) && AllFormed(cc, args) && GoodPlan(cc, args, p) && ret < Pow2(8 * cc.word)
    requires p.st.mem == Apply(cc, p.a.stores, p.base, m)
    ensures var st' := SetAll(p.st, ArgLocs(cc, args, Start(cc)) + [ReturnLoc(cc)], p.vals + [Bits(ret, cc.word)],
                              p.base);
            && AllStored(cc, p.a.stores, p.base, st'.mem) && DumpsUniform(cc, p.a.stores)
            && GetLoc(st', ReturnLoc(cc)) == ret && st'.sp == p.st.sp && AgreeOn(m, st'.mem, p.base + p.a.ptr, hi)
  {
    var locs := ArgLocs(cc, args, Start(cc));
    var (allLocs, allVals) := (locs + [ReturnLoc(cc)], p.vals + [Bits(ret, cc.word)]);
    var st' := SetAll(p.st, allLocs, allVals, p.base);
    LocsBelowBase(cc, args, p.base, p.st.sp);
    SetAllAgrees(p.st, allLocs, allVals, p.base, p.base, p.base + p.a.ptr);
    SetAllAgrees(p.st, allLocs, allVals, p.base, p.base, hi);
    assert p.a.stores[..|p.a.stores|] == p.a.stores;
    ApplyAgrees(cc, p.a, |p.a.stores|, p.base, m, hi);
    AllStillStored(cc, p.a, p.base, m, st'.mem);
    AllLocsApart(cc, args);
    GetAll(p.st, allLocs, allVals, p.base, |locs|);
  }

  lemma {:induction false} PlanShows(cc: Convention, args: seq<Arg>, ret: nat, p: Plan, i: nat)
    requires Sound(cc) && AllFormed(cc, args) && GoodPlan(cc, args, p) && i < |args|
    ensures var st' := SetAll(p.st, ArgLocs(cc, args, Start(cc)) + [ReturnLoc(cc)], p.vals + [Bits(ret, cc.word)],
                              p.base);
            GetLoc(st', ArgLocs(cc, args, Start(cc))[i]) == Translate(p.vals[i], p.base)
  {
    AllLocsApart(cc, args);
    LocsAfter(cc, args, Start(cc), i);
    assert ValFits(cc, p.vals[i], p.a.ptr);
    GetAll(p.st, ArgLocs(cc, args, Start(cc)) + [ReturnLoc(cc)], p.vals + [Bits(ret, cc.word)], p.base, i);
  }

  /** The callee reads every argument as it was passed, through pointers too; the stack is aligned, the return
      address is in its place, and nothing at or above the old stack pointer has changed. */
  lemma {:induction false} CallRoundTrip(cc: Convention, args: seq<Arg>, ret: nat, st: CallState, hi: int)
    requires Sound(cc) && AllFormed(cc, args) && NoWrap(cc, args, st) && ret < Pow2(8 * cc.word)
    ensures var st' := Setup(cc, args, ret, st);
            && (forall i :: 0 <= i < |args| ==>
                  Shows(cc, GetLoc(st', ArgLocs(cc, args, Start(cc))[i]), args[i], st'.mem))
            && GetLoc(st', ReturnLoc(cc)) == ret
            && (st'.sp + cc.spDiff) % cc.alignment == 0 && 0 <= st'.sp <= st.sp
            && AgreeOn(st.mem, st'.mem, st.sp, hi)
  {
    var p := PlanOf(cc, args, st);
    PlanIsGood(cc, args, st);
    PlanWorks(cc, args, ret, p, st.mem, hi);
    forall i | 0 <= i < |args|
      ensures Shows(cc, GetLoc(Setup(cc, args, ret, st), ArgLocs(cc, args, Start(cc))[i]), args[i],
                    Setup(cc, args, ret, st).mem)
    {
      PlanShows(cc, args, ret, p, i);
      ArgumentShown(cc, args, p.a, p.vals, i, p.base, Setup(cc, args, ret, st).mem);
    }
  }

  lemma {:induction false} ArgumentShown(cc: Convention, args: seq<Arg>, a: Alloc, vals: seq<Val>, i: nat, base: nat,
                                         m: Memory)
    requires i < |args| == |vals| && AllRepresent(cc, a.stores, vals, args)
    requires AllStored(cc, a.stores, base, m) && DumpsUniform(cc, a.stores)
    ensures Shows(cc, Translate(vals[i], base), args[i], m)
  {
    RepresentsAt(cc, a.stores, vals, args, i);
    RepresentedIsShown(cc, a.stores, vals[i], args[i], base, m);
  }

  lemma {:induction false} RepresentsAt(cc: Convention, stores: seq<Dump>, vals: seq<Val>, args: seq<Arg>, i: nat)
    requires i < |args| == |vals| && AllRepresent(cc, stores, vals, args)
    ensures Represents(cc, stores, vals[i], args[i])
    decreases |args|
  {
    if i > 0 { RepresentsAt(cc, stores, vals[1..], args[1..], i - 1); }
  }

  // --------------------------------------------------------------------------
  // In place

  class AllocHelper {
    var ptr: nat
    var stores: seq<Dump>

    constructor ()
      ensures State() == NO_DATA
    {
      ptr, stores := 0, [];
    }

    function State(): Alloc
      reads this
    {
      Alloc(ptr, stores)
    }

    method Reserve(size: nat) returns (out: nat)
      modifies this`ptr
      ensures out == old(ptr) && ptr == old(ptr) + size
    {
      out := ptr;
      ptr := ptr + size;
    }

    method DumpList(cc: Convention, vals: seq<Val>) returns (v: Val)
      modifies this
      ensures v == Ptr(old(ptr))
      ensures State() == Alloc(old(ptr) + ListSize(cc, vals), old(stores) + [Dump(old(ptr), vals)])
    {
      stores := stores + [Dump(ptr, vals)];
      var out := Reserve(ListSize(cc, vals));
      v := Ptr(out);
    }

    method StandardizeValue(cc: Convention, arg: Arg) returns (v: Val)
      modifies this
      ensures (v, State()) == Serialize(cc, arg, old(State()))
      decreases arg, 0
    {
      match arg
      case Num(value, size, _) => v := Bits(value, size);
      case Ref(contents) =>
        var vals := StandardizeAll(cc, contents);
        v := DumpList(cc, vals);
    }

    method StandardizeAll(cc: Convention, args: seq<Arg>) returns (vals: seq<Val>)
      modifies this
      ensures (vals, State()) == SerializeAll(cc, args, old(State()))
      decreases args, 0
    {
      if args == [] { return []; }
      var v := StandardizeValue(cc, args[0]);
      var rest := StandardizeAll(cc, args[1..]);
      vals := [v] + rest;
    }

    method ApplyTo(cc: Convention, base: nat, m: Memory) returns (m': Memory)
      ensures m' == Apply(cc, stores, base, m)
    {
      m' := m;
      for i := 0 to |stores|
        invariant m' == Apply(cc, stores[..i], base, m)
      {
        assert stores[..i + 1][..i] == stores[..i];
        m' := WriteDump(cc, stores[i], base, m');
      }
      assert stores[..|stores|] == stores;
    }
  }

  class SimState {
    var sp: int
    var regs: map<RegName, nat>
    var mem: Memory

    function State(): CallState
      reads this
    {
      CallState(sp, regs, mem)
    }

    constructor (st: CallState)
      ensures State() == st
    {
      sp, regs, mem := st.sp, st.regs, st.mem;
    }

    method SetValue(loc: Loc, v: nat)
      modifies this
      ensures State() == SetLoc(old(State()), loc, v)
    {
      match loc
      case Reg(r, _) => regs := regs[r := v];
      case Stack(o, size) => mem := StoreValue(mem, sp + o, v, size, LE);
    }

    method SetupCallsite(cc: Convention, args: seq<Arg>, ret: nat)
      requires Sound(cc) && AllFormed(cc, args) && NoWrap(cc, args, State())
      modifies this
      ensures State() == Setup(cc, args, ret, old(State()))
    {
      var allocator := new AllocHelper();
      var vals := allocator.StandardizeAll(cc, args);
      var locs := ArgLocs(cc, args, Start(cc));
      var base := DecideStack(cc, locs, allocator.ptr);
      mem := allocator.ApplyTo(cc, base, mem);
      assert State() == PlanOf(cc, args, old(State())).st;
      PlanIsGood(cc, args, old(State()));
      StoreAll(locs + [ReturnLoc(cc)], vals + [Bits(ret, cc.word)], base);
    }

    method DecideStack(cc: Convention, locs: seq<Loc>, size: nat) returns (base: int)
      requires cc.alignment > 0
      modifies this`sp
      ensures base == old(sp) - size && sp == AlignDown(base - StackSpace(cc, locs), cc)
    {
      sp := sp - size;
      base := sp;
      var space := ComputeStackSpace(cc, locs);
      sp := sp - space;
      sp := sp - (sp + cc.spDiff) % cc.alignment;
    }

    method StoreAll(locs: seq<Loc>, vals: seq<Val>, base: nat)
      requires |locs| == |vals|
      modifies this
      ensures State() == SetAll(old(State()), locs, vals, base)
    {
      for i := 0 to |locs|
        invariant SetAll(State(), locs[i..], vals[i..], base) == SetAll(old(State()), locs, vals, base)
      {
        assert locs[i..][1..] == locs[i + 1..] && vals[i..][1..] == vals[i + 1..];
        SetValue(locs[i], Translate(vals[i], base));
      }
    }
  }
}

/** The p-code to AIL converter, which renames every write of a unique to a temp of its own. */
module PcodeToAil {
  import opened Wrappers
  import opened BitVec
  import opened MachineState
  import opened Pcode
  import Ail

  datatype Arch = Arch(end: Endness, bits: nat)

  /** `_unique_tracker`: unique offset to the temp that holds it, and its size. */
  type Tracker = map<nat, (nat, nat)>

  datatype Conversion = Conversion(statements: seq<Ail.Stmt>, tracker: Tracker, counter: nat)

  // --------------------------------------------------------------------------
  // What the converter computes

  /** The nearest tracked offset k to seven bytes below. */
  function TrackedBelow(tracker: Tracker, offset: nat, k: nat): (r: Option<nat>)
    requires 0 < k <= 8
    ensures r.Some? <==> exists o :: o in tracker && o + k <= offset <= o + 7
    ensures r.Some? ==> r.value in tracker && r.value + k <= offset <= r.value + 7
    ensures r.Some? ==> forall o :: o in tracker && o + k <= offset ==> o <= r.value
    decreases 8 - k
  {
    if k == 8 || offset < k then None
    else if offset - k in tracker then Some(offset - k)
    else TrackedBelow(tracker, offset, k + 1)
  }

  /** A read that starts inside a tracked unique: a shift of the temp that has the offset itself as its number. */
  function PartOf(u: nat, size: nat, v: Varnode): Ail.Expr
  {
    var whole := Ail.Tmp(None, u, 8 * size);
    var shift := v.offset + v.size - (u + size);
    var amount := Ail.Const(None, Wrap(8 * shift, 8), 8);
    var part := if shift == 0 then whole else Ail.BinaryOp(None, Ail.Shr, whole, amount, false, 8 * size);
    Ail.Convert(None, 8 * size, 8 * v.size, false, part)
  }

  /** None for a unique without a tracked offset at it or in the seven bytes below. */
  function GetValue(arch: Arch, v: Varnode, tracker: Tracker): Option<Ail.Expr>
  {
    match v.space
    case ConstSpace => Some(Ail.Const(None, v.offset, 8 * v.size))
    case RegisterSpace => Some(Ail.Register(None, v.offset, 8 * v.size))
    case UniqueSpace =>
      if v.offset in tracker then Some(Ail.Tmp(None, tracker[v.offset].0, 8 * v.size))
      else
        (match TrackedBelow(tracker, v.offset, 1)
         case Some(u) => Some(PartOf(u, tracker[u].1, v))
         case None => None)
    case RamSpace => Some(Ail.Load(None, Ail.Const(None, v.offset, arch.bits), v.size, arch.end))
  }

  function SetValue(arch: Arch, v: Varnode, value: Ail.Expr, c: Conversion): Conversion
    requires v.space != ConstSpace
  {
    match v.space
    case RegisterSpace => Append(c, Ail.Assignment(Ail.Register(None, v.offset, 8 * v.size), value))
    case UniqueSpace =>
      Append(c, Ail.Assignment(Ail.Tmp(None, c.counter, 8 * v.size), value)).(
        tracker := c.tracker[v.offset := (c.counter, v.size)],
        counter := c.counter + 1)
    case RamSpace => Append(c, Ail.Store(Ail.Const(None, v.offset, arch.bits), value, v.size, arch.end))
  }

  function Append(c: Conversion, stmt: Ail.Stmt): Conversion { c.(statements := c.statements + [stmt]) }

  function GenericName(opcode: Opcode): Ail.BinOp
  {
    match opcode
    case INT_ADD => Ail.Add
    case INT_SUB => Ail.Sub
    case INT_MULT => Ail.Mul
    case INT_DIV => Ail.Div
    case INT_AND => Ail.And
    case INT_OR => Ail.Or
    case INT_XOR => Ail.Xor
    case INT_LEFT => Ail.Shl
    case INT_RIGHT => Ail.Shr
    case INT_EQUAL => Ail.CmpEQ
    case INT_NOTEQUAL => Ail.CmpNE
    case INT_LESS => Ail.CmpLT
    case INT_LESSEQUAL => Ail.CmpLE
  }

  function BinaryExpr(opcode: Opcode, outSize: nat, x: Ail.Expr, y: Ail.Expr): Ail.Expr
  {
    if Compares(opcode) then
      Ail.Convert(None, 1, 8 * outSize, false, Ail.BinaryOp(None, GenericName(opcode), x, y, false, 1))
    else Ail.BinaryOp(None, GenericName(opcode), x, y, false, Ail.Bits(x))
  }

  /** The value an op assigns, and where to; none where a unique cannot be read. */
  function Result(arch: Arch, op: Op, tracker: Tracker): Option<(Varnode, Ail.Expr)>
    requires !op.IMARK? && !(op.STORE? && op.space != RegisterSpace)
  {
    match op
    case COPY(out, inp) =>
      (match GetValue(arch, inp, tracker)
       case Some(x) => Some((out, x))
       case None => None)
    case INT_ZEXT(out, inp) =>
      (match GetValue(arch, inp, tracker)
       case Some(x) => Some((out, Ail.Convert(None, 8 * inp.size, 8 * out.size, false, x)))
       case None => None)
    case INT_SEXT(out, inp) =>  // unsigned here too
      (match GetValue(arch, inp, tracker)
       case Some(x) => Some((out, Ail.Convert(None, 8 * inp.size, 8 * out.size, false, x)))
       case None => None)
    case LOAD(space, out, addr) =>
      (match GetValue(arch, addr, tracker)
       case Some(x) => Some((out, if space == RegisterSpace then x else Ail.Load(None, x, out.size, arch.end)))
       case None => None)
    case STORE(_, addr, data) =>
      (match GetValue(arch, addr, tracker)
       case Some(x) => Some((data, x))
       case None => None)
    case BINARY(opcode, out, in0, in1) =>
      (match (GetValue(arch, in0, tracker), GetValue(arch, in1, tracker))
       case (Some(x), Some(y)) => Some((out, BinaryExpr(opcode, out.size, x, y)))
       case _ => None)
  }

  function ConvertOp(arch: Arch, op: Op, c: Conversion): Option<Conversion>
  {
    if op.IMARK? then Some(c)
    else if op.STORE? && op.space != RegisterSpace then
      match (GetValue(arch, op.addr, c.tracker), GetValue(arch, op.data, c.tracker))
      case (Some(x), Some(y)) => Some(Append(c, Ail.Store(x, y, op.data.size, arch.end)))
      case _ => None
    else
      match Result(arch, op, c.tracker)
      case Some((out, x)) =>
        if out.space != ConstSpace then Some(SetValue(arch, out, x, c))
        else if op.BINARY? then None   // NotImplementedError
        else Some(c)                   // the same, but caught: the op is dropped
      case None => None
  }

  function ConvertOps(arch: Arch, ops: seq<Op>, c: Conversion): Option<Conversion>
    decreases |ops|
  {
    if ops == [] then Some(c)
    else
      match ConvertOp(arch, ops[0], c)
      case Some(c') => ConvertOps(arch, ops[1..], c')
      case None => None
  }

  // --------------------------------------------------------------------------
  // What an op looks up and tracks

  /** A register-space store looks up its address only, and assigns to its data. */
  function LookedUp(op: Op): set<Varnode> { if op.STORE? && op.space == RegisterSpace then {op.addr} else Inputs(op) }

  function Assigned(op: Op): set<Varnode> { if op.STORE? && op.space == RegisterSpace then {op.data} else Outputs(op) }

  function UniqueOffsets(vs: set<Varnode>): set<nat> { set v | v in vs && v.space == UniqueSpace :: v.offset }

  predicate LooksUpTracked(op: Op, tracked: set<nat>) { UniqueOffsets(LookedUp(op)) <= tracked }

  /** Every unique is written, at its own offset, before it is read. */
  predicate WrittenFirst(ops: seq<Op>, written: set<nat>)
  {
    ops == [] ||
    (LooksUpTracked(ops[0], written) && WrittenFirst(ops[1..], written + UniqueOffsets(Assigned(ops[0]))))
  }

  /** An op adds the uniques it writes to the tracker. */
  lemma {:induction false} OpTracks(arch: Arch, op: Op, c: Conversion)
    requires ConvertOp(arch, op, c).Some?
    ensures ConvertOp(arch, op, c).value.tracker.Keys == c.tracker.Keys + UniqueOffsets(Assigned(op))
  {
    var c' := ConvertOp(arch, op, c).value;
    if op.IMARK? || (op.STORE? && op.space != RegisterSpace) {
      assert c'.tracker == c.tracker && Assigned(op) == {};
    } else {
      var out := if op.STORE? then op.data else op.out;
      assert Assigned(op) == {out};
      assert UniqueOffsets({out}) == if out.space == UniqueSpace then {out.offset} else {};
    }
  }

  lemma {:induction false} TrackedIsLookedUp(op: Op, v: Varnode, tracked: set<nat>)
    requires LooksUpTracked(op, tracked) && v in LookedUp(op)
    ensures v.space == UniqueSpace ==> v.offset in tracked
  {
    if v.space == UniqueSpace { assert v.offset in UniqueOffsets(LookedUp(op)); }
  }

  // --------------------------------------------------------------------------
  // Write-once temps

  function AssignedTemp(stmt: Ail.Stmt): Option<nat>
  {
    if stmt.Assignment? && stmt.dst.Tmp? then Some(stmt.dst.tmp) else None
  }

  function TempsRead(e: Ail.Expr): set<nat>
  {
    match e
    case Tmp(_, t, _) => {t}
    case UnaryOp(_, _, x, _) => TempsRead(x)
    case Convert(_, _, _, _, x) => TempsRead(x)
    case BinaryOp(_, _, x, y, _, _) => TempsRead(x) + TempsRead(y)
    case Load(_, a, _, _) => TempsRead(a)
    case ITE(_, c, f, t) => TempsRead(c) + TempsRead(f) + TempsRead(t)
    case _ => {}
  }

  function StmtReads(stmt: Ail.Stmt): set<nat>
  {
    match stmt
    case Assignment(_, src) => TempsRead(src)
    case Store(addr, data, _, _) => TempsRead(addr) + TempsRead(data)
    case _ => {}
  }

  ghost predicate AssignedIn(stmts: seq<Ail.Stmt>, t: nat)
  {
    exists j :: 0 <= j < |stmts| && AssignedTemp(stmts[j]) == Some(t)
  }

  /** Temps are assigned in increasing order, so at most once. */
  ghost predicate AssignedOnce(stmts: seq<Ail.Stmt>, counter: nat)
  {
    && (forall j :: 0 <= j < |stmts| && AssignedTemp(stmts[j]).Some? ==> AssignedTemp(stmts[j]).value < counter)
    && (forall j, k :: 0 <= j < k < |stmts| && AssignedTemp(stmts[j]).Some? && AssignedTemp(stmts[k]).Some? ==>
          AssignedTemp(stmts[j]).value < AssignedTemp(stmts[k]).value)
  }

  /** And they are read only after that. */
  ghost predicate WriteOnce(stmts: seq<Ail.Stmt>, counter: nat)
  {
    && AssignedOnce(stmts, counter)
    && (forall k, t :: 0 <= k < |stmts| && t in StmtReads(stmts[k]) ==> AssignedIn(stmts[..k], t))
  }

  ghost predicate TrackerAssigned(c: Conversion)
  {
    forall o :: o in c.tracker ==> AssignedIn(c.statements, c.tracker[o].0)
  }

  lemma {:induction false} WriteOnceGrows(stmts: seq<Ail.Stmt>, counter: nat, stmt: Ail.Stmt, counter': nat)
    requires WriteOnce(stmts, counter) && (forall t :: t in StmtReads(stmt) ==> AssignedIn(stmts, t))
    requires match AssignedTemp(stmt) case Some(t) => counter <= t < counter' case None => counter <= counter'
    ensures WriteOnce(stmts + [stmt], counter')
  {
    var all := stmts + [stmt];
    forall k, t | 0 <= k < |all| && t in StmtReads(all[k]) ensures AssignedIn(all[..k], t) {
      if k < |stmts| { assert all[..k] == stmts[..k]; } else { assert all[..k] == stmts; }
    }
  }

  lemma {:induction false} AssignedGrows(stmts: seq<Ail.Stmt>, stmt: Ail.Stmt, t: nat)
    requires AssignedIn(stmts, t) || AssignedTemp(stmt) == Some(t)
    ensures AssignedIn(stmts + [stmt], t)
  {
    if AssignedIn(stmts, t) {
      var j :| 0 <= j < |stmts| && AssignedTemp(stmts[j]) == Some(t);
      assert (stmts + [stmt])[j] == stmts[j];
    } else {
      assert (stmts + [stmt])[|stmts|] == stmt;
    }
  }

  lemma {:induction false} AppendKeeps(c: Conversion, stmt: Ail.Stmt, c': Conversion)
    requires WriteOnce(c.statements, c.counter) && TrackerAssigned(c) && c'.statements == c.statements + [stmt]
    requires forall t :: t in StmtReads(stmt) ==> AssignedIn(c.statements, t)
    requires match AssignedTemp(stmt) case Some(t) => c.counter <= t < c'.counter case None => c.counter <= c'.counter
    requires forall o :: o in c'.tracker ==>
              (o in c.tracker && c'.tracker[o] == c.tracker[o]) || AssignedTemp(stmt) == Some(c'.tracker[o].0)
    ensures WriteOnce(c'.statements, c'.counter) && TrackerAssigned(c')
  {
    WriteOnceGrows(c.statements, c.counter, stmt, c'.counter);
    forall o | o in c'.tracker ensures AssignedIn(c'.statements, c'.tracker[o].0) {
      AssignedGrows(c.statements, stmt, c'.tracker[o].0);
    }
  }

  lemma {:induction false} ValueReads(arch: Arch, v: Varnode, c: Conversion)
    requires TrackerAssigned(c) && (v.space == UniqueSpace ==> v.offset in c.tracker)
    ensures GetValue(arch, v, c.tracker).Some?
    ensures forall t :: t in TempsRead(GetValue(arch, v, c.tracker).value) ==> AssignedIn(c.statements, t)
  {
  }

  lemma {:induction false} ResultReads(arch: Arch, op: Op, c: Conversion)
    requires TrackerAssigned(c) && !op.IMARK? && !(op.STORE? && op.space != RegisterSpace)
    requires LooksUpTracked(op, c.tracker.Keys) && Result(arch, op, c.tracker).Some?
    ensures forall t :: t in TempsRead(Result(arch, op, c.tracker).value.1) ==> AssignedIn(c.statements, t)
  {
    forall v | v in LookedUp(op) ensures v.space == UniqueSpace ==> v.offset in c.tracker {
      TrackedIsLookedUp(op, v, c.tracker.Keys);
    }
    match op
    case COPY(_, inp) => ValueReads(arch, inp, c);
    case INT_ZEXT(_, inp) => ValueReads(arch, inp, c);
    case INT_SEXT(_, inp) => ValueReads(arch, inp, c);
    case LOAD(_, _, addr) => ValueReads(arch, addr, c);
    case STORE(_, addr, _) => ValueReads(arch, addr, c);
    case BINARY(opcode, out, in0, in1) =>
      ValueReads(arch, in0, c);
      ValueReads(arch, in1, c);
      var x, y := GetValue(arch, in0, c.tracker).value, GetValue(arch, in1, c.tracker).value;
      assert TempsRead(BinaryExpr(opcode, out.size, x, y)) == TempsRead(x) + TempsRead(y);
  }

  lemma {:induction false} OpKeepsWriteOnce(arch: Arch, op: Op, c: Conversion)
    requires WriteOnce(c.statements, c.counter) && TrackerAssigned(c) && ConvertOp(arch, op, c).Some?
    requires LooksUpTracked(op, c.tracker.Keys)
    ensures var c' := ConvertOp(arch, op, c).value; WriteOnce(c'.statements, c'.counter) && TrackerAssigned(c')
  {
    var c' := ConvertOp(arch, op, c).value;
    if |c'.statements| > |c.statements| {
      if op.STORE? && op.space != RegisterSpace {
        TrackedIsLookedUp(op, op.addr, c.tracker.Keys);
        TrackedIsLookedUp(op, op.data, c.tracker.Keys);
        ValueReads(arch, op.addr, c);
        ValueReads(arch, op.data, c);
      } else {
        ResultReads(arch, op, c);
      }
      AppendKeeps(c, c'.statements[|c.statements|], c');
    }
  }

  lemma {:induction false} OpAssignsOnce(arch: Arch, op: Op, c: Conversion)
    requires AssignedOnce(c.statements, c.counter) && ConvertOp(arch, op, c).Some?
    ensures var c' := ConvertOp(arch, op, c).value; AssignedOnce(c'.statements, c'.counter)
  {
  }

  /** Every conversion assigns each temp at most once. */
  lemma {:induction false} TempsAssignedOnce(arch: Arch, ops: seq<Op>, c: Conversion)
    requires AssignedOnce(c.statements, c.counter) && ConvertOps(arch, ops, c).Some?
    ensures var c' := ConvertOps(arch, ops, c).value; AssignedOnce(c'.statements, c'.counter)
    decreases |ops|
  {
    if ops != [] {
      OpAssignsOnce(arch, ops[0], c);
      TempsAssignedOnce(arch, ops[1..], ConvertOp(arch, ops[0], c).value);
    }
  }

  /** A partial read names a temp by its unique offset, so one that nothing has assigned, unless the offset is small. */
  lemma {:induction false} PartialRead(arch: Arch, v: Varnode, c: Conversion) returns (u: nat)
    requires v.space == UniqueSpace && v.offset !in c.tracker && GetValue(arch, v, c.tracker).Some?
    requires AssignedOnce(c.statements, c.counter)
    ensures Some(u) == TrackedBelow(c.tracker, v.offset, 1) && u in c.tracker && u < v.offset <= u + 7
    ensures TempsRead(GetValue(arch, v, c.tracker).value) == {u}
    ensures u >= c.counter ==> !AssignedIn(c.statements, u)
  {
    u := TrackedBelow(c.tracker, v.offset, 1).value;
    var part := PartOf(u, c.tracker[u].1, v).operand;
    assert TempsRead(part) == {u} by { assert TempsRead(Ail.Tmp(None, u, 8 * c.tracker[u].1)) == {u}; }
  }

  lemma {:induction false} RunAssigns(stmts: seq<Ail.Stmt>, st: State, t: nat)
    requires Ail.Run(stmts, st).Fell? && t in Ail.Run(stmts, st).state.temps && t !in st.temps
    ensures AssignedIn(stmts, t)
    decreases |stmts|
  {
    var o := Ail.Exec(stmts[0], st);
    if t in o.state.temps {
      assert AssignedTemp(stmts[0]) == Some(t);
    } else {
      RunAssigns(stmts[1..], o.state, t);
      var j :| 0 <= j < |stmts[1..]| && AssignedTemp(stmts[1..][j]) == Some(t);
      assert AssignedTemp(stmts[j + 1]) == Some(t);
    }
  }

  /** A partial read of a temp that is not set yields zero, so it is right exactly when what is read is zero. */
  lemma {:induction false} PartialReadValue(arch: Arch, v: Varnode, c: Conversion, p: PState, a: State)
    requires v.space == UniqueSpace && v.offset !in c.tracker && GetValue(arch, v, c.tracker).Some?
    requires TrackedBelow(c.tracker, v.offset, 1).value !in a.temps
    ensures Ail.Eval(GetValue(arch, v, c.tracker).value, a) == Some(Fetch(v, arch.end, p))
       <==> Fetch(v, arch.end, p) == 0
  {
    var u := TrackedBelow(c.tracker, v.offset, 1).value;
    var size := c.tracker[u].1;
    var e := PartOf(u, size, v);
    assert Ail.Eval(Ail.Tmp(None, u, 8 * size), a) == Some(0);
    if e.operand.BinaryOp? {
      Ail.EvalBinary(e.operand, 0, e.operand.right.value, a);
      ZeroShifted(e.operand.right.value);
    }
    assert Ail.Eval(e.operand, a) == Some(0);
    WrapInRange(0, 8 * size);
    WrapInRange(0, 8 * v.size);
  }

  lemma {:induction false} ZeroShifted(k: nat)
    ensures ShiftRight(0, k) == 0
  {
    DivUnique(0, Pow2(k), 0, 0);
  }

  /** So it is after any converted block that started without temps, unless the unique offset is below the counter. */
  lemma {:induction false} PartialReadExactly(arch: Arch, v: Varnode, c: Conversion, p: PState, start: State, a: State)
    requires v.space == UniqueSpace && v.offset !in c.tracker && GetValue(arch, v, c.tracker).Some?
    requires AssignedOnce(c.statements, c.counter) && start.temps == map[] && Ail.Run(c.statements, start) == Fell(a)
    requires c.counter <= TrackedBelow(c.tracker, v.offset, 1).value
    ensures Ail.Eval(GetValue(arch, v, c.tracker).value, a) == Some(Fetch(v, arch.end, p))
       <==> Fetch(v, arch.end, p) == 0
  {
    var u := PartialRead(arch, v, c);
    assert u == TrackedBelow(c.tracker, v.offset, 1).value;
    if u in a.temps { RunAssigns(c.statements, start, u); }
    PartialReadValue(arch, v, c, p, a);
  }

  /** A block that writes every unique before it reads it has each temp assigned at most once, before it is read. */
  lemma {:induction false} UniquesAreWriteOnce(arch: Arch, ops: seq<Op>, c: Conversion)
    requires WriteOnce(c.statements, c.counter) && TrackerAssigned(c) && ConvertOps(arch, ops, c).Some?
    requires WrittenFirst(ops, c.tracker.Keys)
    ensures var c' := ConvertOps(arch, ops, c).value; WriteOnce(c'.statements, c'.counter)
    decreases |ops|
  {
    if ops != [] {
      OpKeepsWriteOnce(arch, ops[0], c);
      OpTracks(arch, ops[0], c);
      UniquesAreWriteOnce(arch, ops[1..], ConvertOp(arch, ops[0], c).value);
    }
  }

  // --------------------------------------------------------------------------
  // The converted block does what the ops do

  /** Two accesses of the unique space are the same or share no byte. */
  ghost predicate NoPartialOverlap(uniques: set<Varnode>)
  {
    forall u, v :: u in uniques && v in uniques && u != v ==>
      u.offset + u.size <= v.offset || v.offset + v.size <= u.offset
  }

  predicate UniquesIn(op: Op, uniques: set<Varnode>)
  {
    forall v :: v in Inputs(op) + Outputs(op) && v.space == UniqueSpace ==> v in uniques
  }

  /** Loads and stores go to memory, and nothing is sign-extended. */
  predicate Supported(op: Op) { !op.INT_SEXT? && ((op.LOAD? || op.STORE?) ==> op.space == RamSpace) }

  predicate Straight(ops: seq<Op>, uniques: set<Varnode>)
  {
    forall i :: 0 <= i < |ops| ==> Formed(ops[i]) && Supported(ops[i]) && UniquesIn(ops[i], uniques)
  }

  /** Registers and memory agree, and every tracked unique is held by its temp. */
  ghost predicate Simulates(c: Conversion, p: PState, a: State)
  {
    && a.regs == p.regs && a.mem == p.mem
    && forall o :: o in c.tracker ==> LoadValue(p.uniques, o, c.tracker[o].1, LE) == a.Temp(c.tracker[o].0)
  }

  ghost predicate TrackerFits(c: Conversion, uniques: set<Varnode>)
  {
    && NoPartialOverlap(uniques) && (forall v :: v in uniques ==> v.space == UniqueSpace && v.size > 0)
    && forall o :: o in c.tracker ==> Varnode(UniqueSpace, o, c.tracker[o].1) in uniques && c.tracker[o].0 < c.counter
  }

  /** A read names the latest write. */
  lemma {:induction false} ValuePreserved(arch: Arch, v: Varnode, c: Conversion, uniques: set<Varnode>, p: PState,
                                          a: State)
    requires TrackerFits(c, uniques) && Simulates(c, p, a)
    requires (v.space == UniqueSpace ==> v in uniques && v.offset in c.tracker)
    ensures GetValue(arch, v, c.tracker).Some?
    ensures var e := GetValue(arch, v, c.tracker).value;
            Ail.Eval(e, a) == Some(Fetch(v, arch.end, p)) && Ail.Bits(e) == 8 * v.size
  {
    match v.space
    case UniqueSpace =>
      var u := Varnode(UniqueSpace, v.offset, c.tracker[v.offset].1);
      assert u in uniques && v in uniques;
    case RegisterSpace => BytesOfBits(v.size);
    case _ =>
  }

  lemma {:induction false} TempWritten(v: Varnode, val: nat, e: Ail.Expr, arch: Arch, c: Conversion,
                                       uniques: set<Varnode>, p: PState, a: State)
    requires TrackerFits(c, uniques) && Simulates(c, p, a) && v in uniques && val < Pow2(8 * v.size)
    ensures var c', p', a' := SetValue(arch, v, e, c), Put(v, val, arch.end, p), a.(temps := a.temps[c.counter := val]);
            TrackerFits(c', uniques) && Simulates(c', p', a')
  {
    var (c', p', a') := (SetValue(arch, v, e, c), Put(v, val, arch.end, p), a.(temps := a.temps[c.counter := val]));
    forall o | o in c'.tracker ensures LoadValue(p'.uniques, o, c'.tracker[o].1, LE) == a'.Temp(c'.tracker[o].0) {
      if o == v.offset {
        LoadOfStore(p.uniques, v.offset, val, v.size, LE);
      } else {
        assert Varnode(UniqueSpace, o, c.tracker[o].1) in uniques;
        LoadElsewhere(p.uniques, v.offset, val, v.size, o, c.tracker[o].1, LE);
      }
    }
  }

  lemma {:induction false} AssignRegister(v: Varnode, e: Ail.Expr, val: nat, a: State)
    requires Ail.Eval(e, a) == Some(val)
    ensures Ail.Exec(Ail.Assignment(Ail.Register(None, v.offset, 8 * v.size), e), a)
         == Fell(a.(regs := StoreValue(a.regs, v.offset, val, v.size, LE)))
  {
    BytesOfBits(v.size);
  }

  lemma {:induction false} OtherSpaces(c: Conversion, stmt: Ail.Stmt, uniques: set<Varnode>, p: PState, a: State,
                                       p': PState, a': State)
    requires TrackerFits(c, uniques) && Simulates(c, p, a)
    requires p'.uniques == p.uniques && a'.temps == a.temps && a'.regs == p'.regs && a'.mem == p'.mem
    ensures TrackerFits(Append(c, stmt), uniques) && Simulates(Append(c, stmt), p', a')
  {
  }

  lemma {:induction false} SetPreserved(arch: Arch, v: Varnode, e: Ail.Expr, val: nat, c: Conversion,
                                        uniques: set<Varnode>, p: PState, a: State)
    requires TrackerFits(c, uniques) && Simulates(c, p, a)
    requires v.space != ConstSpace && (v.space == UniqueSpace ==> v in uniques)
    requires Ail.Eval(e, a) == Some(val) && val < Pow2(8 * v.size)
    ensures var c' := SetValue(arch, v, e, c);
            var o := Ail.Exec(c'.statements[|c.statements|], a);
            o.Fell? && TrackerFits(c', uniques) && Simulates(c', Put(v, val, arch.end, p), o.state)
  {
    var stmt := SetValue(arch, v, e, c).statements[|c.statements|];
    if v.space == UniqueSpace {
      TempWritten(v, val, e, arch, c, uniques, p, a);
    } else {
      if v.space == RegisterSpace { AssignRegister(v, e, val, a); }
      OtherSpaces(c, stmt, uniques, p, a, Put(v, val, arch.end, p), Ail.Exec(stmt, a).state);
    }
  }

  lemma {:induction false} OperationPreserved(opcode: Opcode, bits: nat, a: nat, b: nat, n: nat)
    requires !Compares(opcode) && a < Pow2(bits)
    ensures Ail.Binary(GenericName(opcode), false, bits, a, bits, b, n) == Calculate(opcode, bits, a, b)
  {
    if opcode == INT_DIV && b != 0 {
      UnsignedDivision(a, b);
      DivShrinks(a, b);
      WrapInRange(FloorDiv(a, b), bits);
    }
  }

  /** A one-bit truth value, zero-extended. */
  lemma {:induction false} ComparePreserved(opcode: Opcode, outSize: nat, x: Ail.Expr, y: Ail.Expr, bits: nat, a: nat,
                                            b: nat, st: State)
    requires Compares(opcode) && Ail.Eval(x, st) == Some(a) && Ail.Eval(y, st) == Some(b) && outSize > 0
    ensures Ail.Eval(BinaryExpr(opcode, outSize, x, y), st) == Calculate(opcode, bits, a, b)
  {
    var e, v := BinaryExpr(opcode, outSize, x, y), Calculate(opcode, bits, a, b).value;
    Ail.EvalBinary(e.operand, a, b, st);
    OneBitResult(opcode, bits, a, Ail.Bits(x), b, Ail.Bits(y));
    EvalZeroExtended(e, v, st);
  }

  lemma {:induction false} OneBitResult(opcode: Opcode, bits: nat, a: nat, m: nat, b: nat, n: nat)
    requires Compares(opcode)
    ensures Ail.Binary(GenericName(opcode), false, 1, a, m, b, n) == Calculate(opcode, bits, a, b)
    ensures Calculate(opcode, bits, a, b).value < Pow2(1)
  {
    assert Pow2(1) == 2;
  }

  lemma {:induction false} EvalZeroExtended(e: Ail.Expr, v: nat, st: State)
    requires e.Convert? && !e.signed && e.fromBits <= e.toBits
    requires v < Pow2(e.fromBits) && Ail.Eval(e.operand, st) == Some(v)
    ensures Ail.Eval(e, st) == Some(v)
  {
    ZeroExtended(v, e.fromBits, e.toBits);
  }

  lemma {:induction false} ZeroExtended(v: nat, from: nat, to: nat)
    requires v < Pow2(from) && from <= to
    ensures Ail.Converted(v, from, to, false) == v
  {
    Pow2Grows(from, to);
    WrapInRange(v, from);
    WrapInRange(v, to);
  }

  lemma {:induction false} BinaryExprPreserved(opcode: Opcode, outSize: nat, x: Ail.Expr, y: Ail.Expr, size: nat,
                                               a: nat, b: nat, st: State)
    requires Ail.Eval(x, st) == Some(a) && Ail.Eval(y, st) == Some(b) && Ail.Bits(x) == 8 * size && a < Pow2(8 * size)
    requires outSize > 0
    ensures Ail.Eval(BinaryExpr(opcode, outSize, x, y), st) == Calculate(opcode, 8 * size, a, b)
  {
    if Compares(opcode) {
      ComparePreserved(opcode, outSize, x, y, 8 * size, a, b, st);
    } else {
      Ail.EvalBinary(BinaryExpr(opcode, outSize, x, y), a, b, st);
      OperationPreserved(opcode, 8 * size, a, b, Ail.Bits(y));
    }
  }

  lemma {:induction false} ZextPreserved(arch: Arch, op: Op, c: Conversion, uniques: set<Varnode>, p: PState, a: State)
    requires op.INT_ZEXT? && Formed(op) && UniquesIn(op, uniques) && TrackerFits(c, uniques) && Simulates(c, p, a)
    requires LooksUpTracked(op, c.tracker.Keys) && Result(arch, op, c.tracker).Some?
    ensures Ail.Eval(Result(arch, op, c.tracker).value.1, a) == OpValue(op, arch.end, p)
  {
    TrackedIsLookedUp(op, op.inp, c.tracker.Keys);
    ValuePreserved(arch, op.inp, c, uniques, p, a);
    FetchInRange(op.inp, arch.end, p);
    assert op.inp in Inputs(op) + Outputs(op);
    EvalZeroExtended(Result(arch, op, c.tracker).value.1, Fetch(op.inp, arch.end, p), a);
  }

  lemma {:induction false} BinaryPreserved(arch: Arch, op: Op, c: Conversion, uniques: set<Varnode>, p: PState,
                                           a: State)
    requires op.BINARY? && Formed(op) && UniquesIn(op, uniques) && TrackerFits(c, uniques) && Simulates(c, p, a)
    requires LooksUpTracked(op, c.tracker.Keys) && Result(arch, op, c.tracker).Some?
    ensures Ail.Eval(Result(arch, op, c.tracker).value.1, a) == OpValue(op, arch.end, p)
  {
    TrackedIsLookedUp(op, op.in0, c.tracker.Keys);
    ValuePreserved(arch, op.in0, c, uniques, p, a);
    TrackedIsLookedUp(op, op.in1, c.tracker.Keys);
    ValuePreserved(arch, op.in1, c, uniques, p, a);
    FetchInRange(op.in0, arch.end, p);
    var x, y := GetValue(arch, op.in0, c.tracker).value, GetValue(arch, op.in1, c.tracker).value;
    BinaryExprPreserved(op.opcode, op.out.size, x, y, op.in0.size, Fetch(op.in0, arch.end, p),
                        Fetch(op.in1, arch.end, p), a);
  }

  lemma {:induction false} LoadPreserved(arch: Arch, op: Op, c: Conversion, uniques: set<Varnode>, p: PState, a: State)
    requires op.LOAD? && op.space == RamSpace && UniquesIn(op, uniques) && TrackerFits(c, uniques) && Simulates(c, p, a)
    requires LooksUpTracked(op, c.tracker.Keys) && Result(arch, op, c.tracker).Some?
    ensures Ail.Eval(Result(arch, op, c.tracker).value.1, a) == OpValue(op, arch.end, p)
  {
    assert op.addr in Inputs(op) + Outputs(op);
    TrackedIsLookedUp(op, op.addr, c.tracker.Keys);
    ValuePreserved(arch, op.addr, c, uniques, p, a);
  }

  lemma {:induction false} ResultPreserved(arch: Arch, op: Op, c: Conversion, uniques: set<Varnode>, p: PState,
                                           a: State)
    requires Formed(op) && Supported(op) && UniquesIn(op, uniques) && !op.IMARK? && !op.STORE?
    requires TrackerFits(c, uniques) && Simulates(c, p, a)
    requires LooksUpTracked(op, c.tracker.Keys) && Result(arch, op, c.tracker).Some?
    ensures Ail.Eval(Result(arch, op, c.tracker).value.1, a) == OpValue(op, arch.end, p)
  {
    match op
    case COPY(_, inp) =>
      assert inp in Inputs(op) + Outputs(op);
      TrackedIsLookedUp(op, inp, c.tracker.Keys);
      ValuePreserved(arch, inp, c, uniques, p, a);
    case INT_ZEXT(_, _) => ZextPreserved(arch, op, c, uniques, p, a);
    case LOAD(_, _, _) => LoadPreserved(arch, op, c, uniques, p, a);
    case BINARY(_, _, _, _) => BinaryPreserved(arch, op, c, uniques, p, a);
  }

  /** What the statement added for an op must do. */
  ghost predicate StepPreserved(arch: Arch, op: Op, c: Conversion, c': Conversion, uniques: set<Varnode>, p: PState,
                                a: State)
  {
    && |c'.statements| == |c.statements| + 1 && c'.statements == c.statements + [c'.statements[|c.statements|]]
    && var o := Ail.Exec(c'.statements[|c.statements|], a);
       match Exec(op, arch.end, p)
       case Some(p') => o.Fell? && Simulates(c', p', o.state) && TrackerFits(c', uniques)
       case None => o == Fault
  }

  lemma {:induction false} StorePreserved(arch: Arch, op: Op, c: Conversion, uniques: set<Varnode>, p: PState, a: State)
    requires op.STORE? && Supported(op) && UniquesIn(op, uniques)
    requires TrackerFits(c, uniques) && Simulates(c, p, a)
    requires LooksUpTracked(op, c.tracker.Keys) && ConvertOp(arch, op, c).Some?
    ensures StepPreserved(arch, op, c, ConvertOp(arch, op, c).value, uniques, p, a)
  {
    assert op.addr in Inputs(op) + Outputs(op) && op.data in Inputs(op) + Outputs(op);
    TrackedIsLookedUp(op, op.addr, c.tracker.Keys);
    ValuePreserved(arch, op.addr, c, uniques, p, a);
    TrackedIsLookedUp(op, op.data, c.tracker.Keys);
    ValuePreserved(arch, op.data, c, uniques, p, a);
  }

  /** One op: the statement it adds faults when it does, and otherwise keeps the two sides together. */
  lemma {:induction false} OpPreserved(arch: Arch, op: Op, c: Conversion, uniques: set<Varnode>, p: PState, a: State)
    requires Formed(op) && Supported(op) && UniquesIn(op, uniques) && !op.IMARK?
    requires TrackerFits(c, uniques) && Simulates(c, p, a)
    requires LooksUpTracked(op, c.tracker.Keys) && ConvertOp(arch, op, c).Some?
    ensures StepPreserved(arch, op, c, ConvertOp(arch, op, c).value, uniques, p, a)
  {
    if op.STORE? {
      StorePreserved(arch, op, c, uniques, p, a);
    } else {
      assert op.out in Inputs(op) + Outputs(op);
      var x, v := Result(arch, op, c.tracker).value.1, OpValue(op, arch.end, p);
      ResultPreserved(arch, op, c, uniques, p, a);
      assert ConvertOp(arch, op, c).value == SetValue(arch, op.out, x, c);
      if v.Some? {
        OpValueInRange(op, arch.end, p);
        SetPreserved(arch, op.out, x, v.value, c, uniques, p, a);
      }
    }
  }

  lemma {:induction false} ConvertOpsAppends(arch: Arch, ops: seq<Op>, c: Conversion)
    requires ConvertOps(arch, ops, c).Some?
    ensures c.statements <= ConvertOps(arch, ops, c).value.statements
    decreases |ops|
  {
    if ops != [] { ConvertOpsAppends(arch, ops[1..], ConvertOp(arch, ops[0], c).value); }
  }

  lemma {:induction false} FaultStays(a: seq<Ail.Stmt>, b: seq<Ail.Stmt>, st: State)
    requires a <= b && Ail.Run(a, st) == Fault
    ensures Ail.Run(b, st) == Fault
  {
    Ail.RunConcat(a, b[|a|..], st);
    assert a + b[|a|..] == b;
  }

  /** From related states, the converted block and the ops end related, or both fault. */
  lemma {:induction false} ConversionPreserved(arch: Arch, ops: seq<Op>, c: Conversion, uniques: set<Varnode>,
                                               p: PState, a: State, start: State)
    requires Straight(ops, uniques) && TrackerFits(c, uniques)
    requires Simulates(c, p, a) && Ail.Run(c.statements, start) == Fell(a)
    requires WrittenFirst(ops, c.tracker.Keys) && ConvertOps(arch, ops, c).Some?
    ensures var c' := ConvertOps(arch, ops, c).value;
            var o := Ail.Run(c'.statements, start);
            match Run(ops, arch.end, p)
            case Some(p') => o.Fell? && Simulates(c', p', o.state)
            case None => o == Fault
    decreases |ops|
  {
    if ops != [] {
      var (op, rest, c1) := (ops[0], ops[1..], ConvertOp(arch, ops[0], c).value);
      OpTracks(arch, op, c);
      if op.IMARK? {
        ConversionPreserved(arch, rest, c, uniques, p, a, start);
      } else {
        OpPreserved(arch, op, c, uniques, p, a);
        var stmt := c1.statements[|c.statements|];
        Ail.RunConcat(c.statements, [stmt], start);
        assert [stmt][1..] == [];
        assert Ail.Run([stmt], a) == Ail.Exec(stmt, a);
        var p' := Exec(op, arch.end, p);
        if p'.Some? {
          ConversionPreserved(arch, rest, c1, uniques, p'.value, Ail.Exec(stmt, a).state, start);
        } else {
          ConvertOpsAppends(arch, rest, c1);
          FaultStays(c1.statements, ConvertOps(arch, rest, c1).value.statements, start);
        }
      }
    }
  }

  // --------------------------------------------------------------------------
  // When the conversion succeeds

  /** A unique can be looked up at its offset or in the seven bytes below. */
  ghost predicate Findable(offset: nat, tracked: set<nat>)
  {
    offset in tracked || exists o :: o in tracked && o < offset <= o + 7
  }

  ghost predicate LooksUpFindable(op: Op, tracked: set<nat>)
  {
    forall v :: v in LookedUp(op) && v.space == UniqueSpace ==> Findable(v.offset, tracked)
  }

  ghost predicate Resolvable(ops: seq<Op>, written: set<nat>)
  {
    ops == [] ||
    (LooksUpFindable(ops[0], written) && Resolvable(ops[1..], written + UniqueOffsets(Assigned(ops[0]))))
  }

  ghost predicate AllFormed(ops: seq<Op>) { forall i :: 0 <= i < |ops| ==> Formed(ops[i]) }

  /** The conversion raises exactly when a read unique was not written, nor anything in the seven bytes below. */
  lemma {:induction false} ConversionSucceeds(arch: Arch, ops: seq<Op>, c: Conversion)
    requires AllFormed(ops)
    ensures ConvertOps(arch, ops, c).Some? <==> Resolvable(ops, c.tracker.Keys)
    decreases |ops|
  {
    if ops != [] {
      OpSucceeds(arch, ops[0], c);
      if ConvertOp(arch, ops[0], c).Some? {
        OpTracks(arch, ops[0], c);
        ConversionSucceeds(arch, ops[1..], ConvertOp(arch, ops[0], c).value);
      }
    }
  }

  lemma {:induction false} ValueFound(arch: Arch, v: Varnode, tracker: Tracker)
    ensures GetValue(arch, v, tracker).Some? <==> (v.space == UniqueSpace ==> Findable(v.offset, tracker.Keys))
  {
  }

  lemma {:induction false} OpSucceeds(arch: Arch, op: Op, c: Conversion)
    requires Formed(op)
    ensures ConvertOp(arch, op, c).Some? <==> LooksUpFindable(op, c.tracker.Keys)
  {
    match op
    case STORE(_, addr, data) =>
      ValueFound(arch, addr, c.tracker);
      ValueFound(arch, data, c.tracker);
      assert addr in LookedUp(op) && (op.space != RegisterSpace ==> data in LookedUp(op));
    case BINARY(_, _, in0, in1) =>
      ValueFound(arch, in0, c.tracker);
      ValueFound(arch, in1, c.tracker);
      assert in0 in LookedUp(op) && in1 in LookedUp(op);
    case LOAD(_, _, addr) => ValueFound(arch, addr, c.tracker); assert addr in LookedUp(op);
    case COPY(_, inp) => ValueFound(arch, inp, c.tracker); assert inp in LookedUp(op);
    case INT_ZEXT(_, inp) => ValueFound(arch, inp, c.tracker); assert inp in LookedUp(op);
    case INT_SEXT(_, inp) => ValueFound(arch, inp, c.tracker); assert inp in LookedUp(op);
    case IMARK =>
  }

  lemma {:induction false} WrittenIsResolvable(ops: seq<Op>, written: set<nat>)
    requires WrittenFirst(ops, written)
    ensures Resolvable(ops, written)
    decreases |ops|
  {
    if ops != [] {
      forall v | v in LookedUp(ops[0]) && v.space == UniqueSpace ensures Findable(v.offset, written) {
        TrackedIsLookedUp(ops[0], v, written);
      }
      WrittenIsResolvable(ops[1..], written + UniqueOffsets(Assigned(ops[0])));
    }
  }

  const NOTHING := Conversion([], map[], 0)

  /** Renaming the uniques of a block is a correct conversion to write-once temps. */
  lemma {:induction false} BlockConverted(arch: Arch, ops: seq<Op>, uniques: set<Varnode>, p: PState, a: State)
    requires Straight(ops, uniques) && NoPartialOverlap(uniques)
    requires (forall v :: v in uniques ==> v.space == UniqueSpace && v.size > 0)
    requires a.regs == p.regs && a.mem == p.mem
    ensures ConvertOps(arch, ops, NOTHING).Some? <==> Resolvable(ops, {})
    ensures WrittenFirst(ops, {}) ==> ConvertOps(arch, ops, NOTHING).Some?
    ensures WrittenFirst(ops, {}) ==>
              var stmts := ConvertOps(arch, ops, NOTHING).value.statements;
              && WriteOnce(stmts, ConvertOps(arch, ops, NOTHING).value.counter)
              && match Run(ops, arch.end, p)
                 case Some(p') =>
                   && Ail.Run(stmts, a).Fell? && Ail.Run(stmts, a).state.regs == p'.regs
                   && Ail.Run(stmts, a).state.mem == p'.mem
                 case None => Ail.Run(stmts, a) == Fault
  {
    ConversionSucceeds(arch, ops, NOTHING);
    assert NOTHING.tracker.Keys == {};
    if WrittenFirst(ops, {}) {
      WrittenIsResolvable(ops, {});
      UniquesAreWriteOnce(arch, ops, NOTHING);
      ConversionPreserved(arch, ops, NOTHING, uniques, p, a, a);
    }
  }

  lemma {:induction false} ExtensionsAgree(v: nat, n: nat, to: nat)
    requires 0 < n <= to && v < Pow2(n)
    ensures Wrap(Signed(v, n), to) == v <==> n == to || v < Pow2(n - 1)
  {
    Pow2Grows(n, to);
    if n == to {
      SignedRoundTrip(v, n);
    } else if v < Pow2(n - 1) {
      WrapInRange(v, to);
    } else {
      Pow2Grows(n + 1, to);
      assert Signed(v, n) == v - Pow2(n);
      var w := v - Pow2(n) + Pow2(to);
      WrapPlusPow2(w, to);
      WrapInRange(w, to);
    }
  }

  /** A sign extension is converted as a zero extension: right exactly when nothing is extended or the sign bit is
      clear. */
  lemma {:induction false} SignExtension(arch: Arch, op: Op, c: Conversion, uniques: set<Varnode>, p: PState, a: State)
    requires op.INT_SEXT? && Formed(op) && UniquesIn(op, uniques) && TrackerFits(c, uniques) && Simulates(c, p, a)
    requires LooksUpTracked(op, c.tracker.Keys) && Result(arch, op, c.tracker).Some?
    ensures Ail.Eval(Result(arch, op, c.tracker).value.1, a) == OpValue(op, arch.end, p)
       <==> op.inp.size == op.out.size || Fetch(op.inp, arch.end, p) < Pow2(8 * op.inp.size - 1)
  {
    assert op.inp in Inputs(op) + Outputs(op);
    TrackedIsLookedUp(op, op.inp, c.tracker.Keys);
    ValuePreserved(arch, op.inp, c, uniques, p, a);
    FetchInRange(op.inp, arch.end, p);
    EvalZeroExtended(Result(arch, op, c.tracker).value.1, Fetch(op.inp, arch.end, p), a);
    ExtensionsAgree(Fetch(op.inp, arch.end, p), 8 * op.inp.size, 8 * op.out.size);
  }

  /** Registers, memory and tracked uniques agree, byte for byte. */
  ghost predicate Alike(c: Conversion, p: PState, a: State)
  {
    && SameBytes(a.regs, p.regs) && SameBytes(a.mem, p.mem)
    && forall o :: o in c.tracker ==> LoadValue(p.uniques, o, c.tracker[o].1, LE) == a.Temp(c.tracker[o].0)
  }

  /** What a varnode holds after an address has been assigned to it. */
  function Taken(out: Varnode, k: nat): nat { if out.space == UniqueSpace then k else Wrap(k, 8 * out.size) }

  lemma {:induction false} TwoValues(m: Memory, at: int, k: nat, v: nat, n: nat, end: Endness)
    requires v < Pow2(8 * n)
    ensures SameBytes(StoreValue(m, at, k, n, end), StoreValue(m, at, v, n, end)) <==> v == Wrap(k, 8 * n)
  {
    StoresAgree(m, at, k, at, v, n, end);
    LoadOfStored(m, at, k, n, end);
    LoadOfStored(m, at, v, n, end);
    WrapInRange(v, 8 * n);
  }

  lemma {:induction false} UniqueLoaded(arch: Arch, x: Ail.Expr, out: Varnode, k: nat, v: nat, c: Conversion,
                                        uniques: set<Varnode>, p: PState, a: State)
    requires TrackerFits(c, uniques) && Simulates(c, p, a) && out.space == UniqueSpace && out in uniques
    requires v < Pow2(8 * out.size)
    ensures Alike(SetValue(arch, out, x, c), Put(out, v, arch.end, p), a.(temps := a.temps[c.counter := k])) <==> v == k
  {
    var (c', a', p') := (SetValue(arch, out, x, c), a.(temps := a.temps[c.counter := k]), Put(out, v, arch.end, p));
    assert c'.tracker[out.offset] == (c.counter, out.size) && a'.Temp(c.counter) == k;
    LoadOfStore(p.uniques, out.offset, v, out.size, LE);
    forall o | o in c.tracker && o != out.offset
      ensures LoadValue(p'.uniques, o, c'.tracker[o].1, LE) == a'.Temp(c'.tracker[o].0)
    {
      assert Varnode(UniqueSpace, o, c.tracker[o].1) in uniques && c.tracker[o].0 < c.counter;
      LoadElsewhere(p.uniques, out.offset, v, out.size, o, c.tracker[o].1, LE);
    }
  }

  /** A load from the register space assigns its address: right exactly when the register at the address holds it,
      as far as it fits the output. */
  lemma {:induction false} RegisterLoad(arch: Arch, op: Op, c: Conversion, uniques: set<Varnode>, p: PState, a: State)
    requires op.LOAD? && op.space == RegisterSpace && Formed(op) && UniquesIn(op, uniques)
    requires TrackerFits(c, uniques) && Simulates(c, p, a) && LooksUpTracked(op, c.tracker.Keys)
    ensures ConvertOp(arch, op, c).Some? && |ConvertOp(arch, op, c).value.statements| == |c.statements| + 1
    ensures var c' := ConvertOp(arch, op, c).value;
            var o := Ail.Exec(c'.statements[|c.statements|], a);
            var k := Fetch(op.addr, arch.end, p);
            && o.Fell?
            && (Alike(c', Exec(op, arch.end, p).value, o.state)
                <==> LoadValue(p.regs, k, op.out.size, LE) == Taken(op.out, k))
  {
    var (k, out, n) := (Fetch(op.addr, arch.end, p), op.out, op.out.size);
    var v, p' := LoadValue(p.regs, k, n, LE), Exec(op, arch.end, p).value;
    assert op.addr in Inputs(op) + Outputs(op) && out in Inputs(op) + Outputs(op);
    TrackedIsLookedUp(op, op.addr, c.tracker.Keys);
    ValuePreserved(arch, op.addr, c, uniques, p, a);
    var x := GetValue(arch, op.addr, c.tracker).value;
    assert ConvertOp(arch, op, c) == Some(SetValue(arch, out, x, c));
    LoadInRange(p.regs, k, n, LE);
    match out.space
    case RegisterSpace =>
      AssignRegister(out, x, k, a);
      TwoValues(p.regs, out.offset, k, v, n, LE);
      OtherTracked(c, SetValue(arch, out, x, c), p, p', a, a.(regs := StoreValue(a.regs, out.offset, k, n, LE)));
    case UniqueSpace => UniqueLoaded(arch, x, out, k, v, c, uniques, p, a);
    case RamSpace =>
      TwoValues(p.mem, out.offset, k, v, n, arch.end);
      OtherTracked(c, SetValue(arch, out, x, c), p, p', a, a.(mem := StoreValue(a.mem, out.offset, k, n, arch.end)));
  }

  /** Registers that are not the same and share a byte. */
  predicate Partly(k: nat, d: nat, n: nat) { k != d && k < d + n && d < k + n }

  /** When a converted register-space store is right. For data in another register, or anywhere else: the data and
      the register at the address both hold the address. For data in a register that shares a byte with the one at
      the address: each of the two stores would find its value after the other. */
  predicate StoresRight(data: Varnode, k: nat, v: nat, regs: Memory)
  {
    var d, n := data.offset, data.size;
    if data.space == RegisterSpace && Partly(k, d, n) then
      && LoadValue(StoreValue(regs, d, k, n, LE), k, n, LE) == v
      && LoadValue(StoreValue(regs, k, v, n, LE), d, n, LE) == Wrap(k, 8 * n)
    else LoadValue(regs, k, n, LE) == v == Taken(data, k)
  }

  lemma {:induction false} RegisterDataStored(data: Varnode, k: nat, p: PState, a: State)
    requires a.regs == p.regs && data.space == RegisterSpace
    ensures var d, n := data.offset, data.size;
            var v := LoadValue(p.regs, d, n, LE);
            SameBytes(StoreValue(a.regs, d, k, n, LE), StoreValue(p.regs, k, v, n, LE))
            <==> StoresRight(data, k, v, p.regs)
  {
    var d, n := data.offset, data.size;
    var v := LoadValue(p.regs, d, n, LE);
    LoadInRange(p.regs, d, n, LE);
    WrapInRange(v, 8 * n);
    if Partly(k, d, n) {
      StoresAgree(p.regs, d, k, k, v, n, LE);
    } else if k == d {
      TwoValues(p.regs, d, k, v, n, LE);
    } else {
      StoresApart(p.regs, d, k, k, v, n, LE);
    }
  }

  lemma {:induction false} UniqueDataStored(arch: Arch, x: Ail.Expr, data: Varnode, k: nat, c: Conversion,
                                            uniques: set<Varnode>, p: PState, p': PState, a: State)
    requires TrackerFits(c, uniques) && Simulates(c, p, a) && data.space == UniqueSpace && data in uniques
    requires p'.uniques == p.uniques && p'.mem == p.mem
    ensures Alike(SetValue(arch, data, x, c), p', a.(temps := a.temps[c.counter := k]))
       <==> SameBytes(a.regs, p'.regs) && LoadValue(p.uniques, data.offset, data.size, LE) == k
  {
    var (c', a') := (SetValue(arch, data, x, c), a.(temps := a.temps[c.counter := k]));
    assert c'.tracker[data.offset] == (c.counter, data.size) && a'.Temp(c.counter) == k;
    forall o | o in c.tracker && o != data.offset
      ensures LoadValue(p'.uniques, o, c'.tracker[o].1, LE) == a'.Temp(c'.tracker[o].0)
    {
      assert c.tracker[o].0 < c.counter;
    }
  }

  /** A store to the register space assigns its address to its data. */
  lemma {:induction false} RegisterStore(arch: Arch, op: Op, c: Conversion, uniques: set<Varnode>, p: PState, a: State)
    requires op.STORE? && op.space == RegisterSpace && Formed(op) && op.data.space != ConstSpace
    requires UniquesIn(op, uniques) && TrackerFits(c, uniques)
    requires Simulates(c, p, a) && LooksUpTracked(op, c.tracker.Keys)
    ensures ConvertOp(arch, op, c).Some? && |ConvertOp(arch, op, c).value.statements| == |c.statements| + 1
    ensures var c' := ConvertOp(arch, op, c).value;
            var o := Ail.Exec(c'.statements[|c.statements|], a);
            && o.Fell?
            && (Alike(c', Exec(op, arch.end, p).value, o.state)
                <==> StoresRight(op.data, Fetch(op.addr, arch.end, p), Fetch(op.data, arch.end, p), p.regs))
  {
    var (k, data, n) := (Fetch(op.addr, arch.end, p), op.data, op.data.size);
    assert op.addr in Inputs(op) + Outputs(op) && data in Inputs(op) + Outputs(op);
    TrackedIsLookedUp(op, op.addr, c.tracker.Keys);
    ValuePreserved(arch, op.addr, c, uniques, p, a);
    var x, p' := GetValue(arch, op.addr, c.tracker).value, Exec(op, arch.end, p).value;
    assert ConvertOp(arch, op, c) == Some(SetValue(arch, data, x, c));
    FetchInRange(data, arch.end, p);
    WrapInRange(Fetch(data, arch.end, p), 8 * n);
    StoreChangesNothing(p.regs, k, Fetch(data, arch.end, p), n, LE);
    match data.space
    case RegisterSpace =>
      AssignRegister(data, x, k, a);
      RegisterDataStored(data, k, p, a);
      OtherTracked(c, SetValue(arch, data, x, c), p, p', a, a.(regs := StoreValue(a.regs, data.offset, k, n, LE)));
    case UniqueSpace => UniqueDataStored(arch, x, data, k, c, uniques, p, p', a);
    case RamSpace =>
      StoreChangesNothing(p.mem, data.offset, k, n, arch.end);
      OtherTracked(c, SetValue(arch, data, x, c), p, p', a, a.(mem := StoreValue(a.mem, data.offset, k, n, arch.end)));
  }

  /** A constant is not stored at all: right exactly when the register at the address holds it already. */
  lemma {:induction false} ConstantStore(arch: Arch, op: Op, c: Conversion, uniques: set<Varnode>, p: PState, a: State)
    requires op.STORE? && op.space == RegisterSpace && Formed(op) && op.data.space == ConstSpace
    requires UniquesIn(op, uniques) && TrackerFits(c, uniques)
    requires Simulates(c, p, a) && LooksUpTracked(op, c.tracker.Keys)
    ensures ConvertOp(arch, op, c) == Some(c)
    ensures Alike(c, Exec(op, arch.end, p).value, a)
       <==> LoadValue(p.regs, Fetch(op.addr, arch.end, p), op.data.size, LE) == op.data.offset
  {
    assert op.addr in Inputs(op) + Outputs(op) && op.data in Inputs(op);
    TrackedIsLookedUp(op, op.addr, c.tracker.Keys);
    ValuePreserved(arch, op.addr, c, uniques, p, a);
    var k, v, n := Fetch(op.addr, arch.end, p), op.data.offset, op.data.size;
    StoreChangesNothing(p.regs, k, v, n, LE);
    WrapInRange(v, 8 * n);
    OtherTracked(c, c, p, Exec(op, arch.end, p).value, a, a);
  }

  lemma {:induction false} OtherTracked(c: Conversion, c': Conversion, p: PState, p': PState, a: State, a': State)
    requires Simulates(c, p, a) && c'.tracker == c.tracker && p'.uniques == p.uniques && a'.temps == a.temps
    ensures Alike(c', p', a') <==> SameBytes(a'.regs, p'.regs) && SameBytes(a'.mem, p'.mem)
  {
  }

  // --------------------------------------------------------------------------
  // Inputs on which the conversion is wrong

  const BLANK := PState(map[], map[], map[])

  const BLANK_AIL := State(map[], map[], map[])

  lemma {:induction false} SignLost() returns (arch: Arch, op: Op)
    ensures op.INT_SEXT? && Formed(op) && Result(arch, op, map[]).Some?
    ensures Ail.Eval(Result(arch, op, map[]).value.1, BLANK_AIL) != OpValue(op, arch.end, BLANK)
  {
    arch, op := Arch(LE, 64), INT_SEXT(Varnode(RegisterSpace, 0, 2), Varnode(ConstSpace, 128, 1));
    assert Pow2(7) == 128 && Pow2(8) == 256 by { Pow2Of8(); }
    SignExtension(arch, op, NOTHING, {}, BLANK, BLANK_AIL);
  }

  lemma {:induction false} RegisterLoadWrong() returns (arch: Arch, op: Op)
    ensures op.LOAD? && op.space == RegisterSpace && Formed(op) && ConvertOp(arch, op, NOTHING).Some?
    ensures var c := ConvertOp(arch, op, NOTHING).value;
            |c.statements| == 1 && Ail.Exec(c.statements[0], BLANK_AIL).Fell? &&
            !Alike(c, Exec(op, arch.end, BLANK).value, Ail.Exec(c.statements[0], BLANK_AIL).state)
  {
    arch, op := Arch(LE, 64), LOAD(RegisterSpace, Varnode(RegisterSpace, 0, 1), Varnode(ConstSpace, 16, 1));
    Pow2Of8();
    BlankLoad(16);
    WrapInRange(16, 8);
    RegisterLoad(arch, op, NOTHING, {}, BLANK, BLANK_AIL);
  }

  lemma {:induction false} BlankLoad(k: nat)
    ensures LoadValue(BLANK.regs, k, 1, LE) == 0
  {
    assert Read(BLANK.regs, k, 1) == [0] && [0][1..] == [];
    assert Value([0]) == 0 + 256 * Value([]);
  }

  lemma {:induction false} RegisterStoreWrong() returns (arch: Arch, op: Op)
    ensures op.STORE? && op.space == RegisterSpace && Formed(op) && ConvertOp(arch, op, NOTHING).Some?
    ensures var c := ConvertOp(arch, op, NOTHING).value;
            |c.statements| == 1 && Ail.Exec(c.statements[0], BLANK_AIL).Fell? &&
            !Alike(c, Exec(op, arch.end, BLANK).value, Ail.Exec(c.statements[0], BLANK_AIL).state)
  {
    arch, op := Arch(LE, 64), STORE(RegisterSpace, Varnode(ConstSpace, 16, 1), Varnode(RegisterSpace, 0, 1));
    Pow2Of8();
    BlankLoad(0);
    WrapInRange(16, 8);
    RegisterStore(arch, op, NOTHING, {}, BLANK, BLANK_AIL);
  }

  /** Reading the second byte of a unique reads a temp that nothing assigns. */
  lemma {:induction false} PartialReadWrong() returns (arch: Arch, ops: seq<Op>)
    ensures AllFormed(ops) && ConvertOps(arch, ops, NOTHING).Some? && !WrittenFirst(ops, {})
    ensures var o := Ail.Run(ConvertOps(arch, ops, NOTHING).value.statements, BLANK_AIL);
            var p := Run(ops, arch.end, BLANK);
            p.Some? && o.Fell? && LoadValue(o.state.regs, 0, 1, LE) == 0 && LoadValue(p.value.regs, 0, 1, LE) == 1
  {
    arch := Arch(LE, 64);
    var write := COPY(Varnode(UniqueSpace, 16, 2), Varnode(ConstSpace, 256, 2));
    var read := COPY(Varnode(RegisterSpace, 0, 1), Varnode(UniqueSpace, 17, 1));
    ops := [write, read];
    PartialReadFormed(write, read);
    PartialReadConverts(arch, write, read);
    PartialReadFetches(write, read);
  }

  lemma {:induction false} PartialReadFormed(write: Op, read: Op)
    requires write == COPY(Varnode(UniqueSpace, 16, 2), Varnode(ConstSpace, 256, 2))
    requires read == COPY(Varnode(RegisterSpace, 0, 1), Varnode(UniqueSpace, 17, 1))
    ensures AllFormed([write, read]) && !WrittenFirst([write, read], {})
  {
    Pow2Of8();
    Pow2Doubled(8, 0x100);
    assert Formed(write) && Formed(read);
    assert [write, read][1..] == [read];
    assert 17 in UniqueOffsets(LookedUp(read)) by { assert read.inp in LookedUp(read); }
    assert UniqueOffsets(Assigned(write)) == {16};
    assert !WrittenFirst([read], {16});
  }

  lemma {:induction false} PartialReadConverts(arch: Arch, write: Op, read: Op)
    requires write == COPY(Varnode(UniqueSpace, 16, 2), Varnode(ConstSpace, 256, 2))
    requires read == COPY(Varnode(RegisterSpace, 0, 1), Varnode(UniqueSpace, 17, 1))
    ensures var c := ConvertOps(arch, [write, read], NOTHING);
            && c.Some?
            && var o := Ail.Run(c.value.statements, BLANK_AIL); o.Fell? && LoadValue(o.state.regs, 0, 1, LE) == 0
  {
    var first := Ail.Assignment(Ail.Tmp(None, 0, 16), Ail.Const(None, 256, 16));
    var c1 := Conversion([first], map[16 := (0, 2)], 1);
    assert NOTHING.statements + [first] == c1.statements && NOTHING.tracker[16 := (0, 2)] == c1.tracker;
    assert SetValue(arch, write.out, Ail.Const(None, 256, 16), NOTHING) == c1;
    var x := Ail.Convert(None, 16, 8, false, Ail.Tmp(None, 16, 16));
    var second := Ail.Assignment(Ail.Register(None, 0, 8), x);
    assert GetValue(arch, read.inp, c1.tracker) == Some(x);
    var c2 := Append(c1, second);
    TwoOps(arch, write, read, NOTHING, c1, c2);
    assert c2.statements == [first, second];
    UnassignedRead(first, second, x);
  }

  lemma {:induction false} TwoOps(arch: Arch, op: Op, op': Op, c: Conversion, c1: Conversion, c2: Conversion)
    requires ConvertOp(arch, op, c) == Some(c1) && ConvertOp(arch, op', c1) == Some(c2)
    ensures ConvertOps(arch, [op, op'], c) == Some(c2)
  {
    assert [op, op'][1..] == [op'] && [op'][1..] == [];
    assert ConvertOps(arch, [op'], c1) == Some(c2);
  }

  lemma {:induction false} UnassignedRead(first: Ail.Stmt, second: Ail.Stmt, x: Ail.Expr)
    requires first == Ail.Assignment(Ail.Tmp(None, 0, 16), Ail.Const(None, 256, 16))
    requires x == Ail.Convert(None, 16, 8, false, Ail.Tmp(None, 16, 16))
    requires second == Ail.Assignment(Ail.Register(None, 0, 8), x)
    ensures var o := Ail.Run([first, second], BLANK_AIL); o.Fell? && LoadValue(o.state.regs, 0, 1, LE) == 0
  {
    var st := BLANK_AIL.(temps := BLANK_AIL.temps[0 := 256]);
    assert Ail.Exec(first, BLANK_AIL) == Fell(st);
    WrapInRange(0, 16);
    WrapInRange(0, 8);
    assert Ail.Eval(x.operand, st) == Some(0);
    assert Ail.Eval(x, st) == Some(0);
    LoadOfStore(st.regs, 0, 0, 1, LE);
    assert [first, second][1..] == [second] && [second][1..] == [];
    assert Ail.Run([second], st) == Ail.Exec(second, st);
  }

  lemma {:induction false} PartialReadFetches(write: Op, read: Op)
    requires write == COPY(Varnode(UniqueSpace, 16, 2), Varnode(ConstSpace, 256, 2))
    requires read == COPY(Varnode(RegisterSpace, 0, 1), Varnode(UniqueSpace, 17, 1))
    ensures var p := Run([write, read], LE, BLANK); p.Some? && LoadValue(p.value.regs, 0, 1, LE) == 1
  {
    var p1 := Put(write.out, 256, LE, BLANK);
    assert Bytes(256, 2) == [0, 1] by { assert Bytes(1, 1) == [1]; }
    WriteAt(BLANK.uniques, 16, [0, 1], 17);
    assert Read(p1.uniques, 17, 1) == [1] && [1][1..] == [];
    assert Value([1]) == 1 + 256 * Value([]);
    assert Fetch(read.inp, LE, p1) == 1;
    Pow2Of8();
    LoadOfStore(p1.regs, 0, 1, 1, LE);
    assert [write, read][1..] == [read] && [read][1..] == [];
    assert Run([read], LE, p1) == Exec(read, LE, p1);
  }

  // --------------------------------------------------------------------------
  // The converter

  class PCodeIRSBConverter {
    const arch: Arch
    var statements: seq<Ail.Stmt>
    var uniqueTracker: Tracker
    var uniqueCounter: nat

    function State(): Conversion
      reads this
    {
      Conversion(statements, uniqueTracker, uniqueCounter)
    }

    constructor (arch: Arch)
      ensures this.arch == arch && State() == NOTHING
    {
      this.arch, statements, uniqueTracker, uniqueCounter := arch, [], map[], 0;
    }

    method RemapTemp(offset: nat, size: nat, isWrite: bool) returns (r: Option<nat>)
      modifies this`uniqueTracker, this`uniqueCounter
      ensures isWrite ==>
                && r == Some(old(uniqueCounter)) && uniqueCounter == old(uniqueCounter) + 1
                && uniqueTracker == old(uniqueTracker)[offset := (old(uniqueCounter), size)]
      ensures !isWrite ==>
                && r == (if offset in uniqueTracker then Some(uniqueTracker[offset].0) else None)
                && uniqueTracker == old(uniqueTracker) && uniqueCounter == old(uniqueCounter)
    {
      if isWrite {
        uniqueTracker := uniqueTracker[offset := (uniqueCounter, size)];
        uniqueCounter := uniqueCounter + 1;
        return Some(uniqueTracker[offset].0);
      }
      r := if offset in uniqueTracker then Some(uniqueTracker[offset].0) else None;
    }

    method ReadVarnode(v: Varnode) returns (e: Option<Ail.Expr>)
      modifies this`uniqueTracker, this`uniqueCounter
      ensures e == GetValue(arch, v, old(uniqueTracker))
      ensures uniqueTracker == old(uniqueTracker) && uniqueCounter == old(uniqueCounter)
    {
      match v.space
      case ConstSpace => e := Some(Ail.Const(None, v.offset, 8 * v.size));
      case RegisterSpace => e := Some(Ail.Register(None, v.offset, 8 * v.size));
      case UniqueSpace =>
        var t := RemapTemp(v.offset, v.size, false);
        if t.Some? { return Some(Ail.Tmp(None, t.value, 8 * v.size)); }
        e := None;
        for delta := 1 to 8
          invariant e.None? && TrackedBelow(uniqueTracker, v.offset, 1) == TrackedBelow(uniqueTracker, v.offset, delta)
        {
          if delta <= v.offset && v.offset - delta in uniqueTracker {
            return Some(PartOf(v.offset - delta, uniqueTracker[v.offset - delta].1, v));
          }
        }
      case RamSpace => e := Some(Ail.Load(None, Ail.Const(None, v.offset, arch.bits), v.size, arch.end));
    }

    /** Assigns a value that has already been converted, so a unique is renamed only after the inputs were read. */
    method StoreValueTo(v: Varnode, value: Ail.Expr)
      requires v.space != ConstSpace
      modifies this
      ensures State() == SetValue(arch, v, value, old(State()))
    {
      match v.space
      case RegisterSpace =>
        statements := statements + [Ail.Assignment(Ail.Register(None, v.offset, 8 * v.size), value)];
      case UniqueSpace =>
        var t := RemapTemp(v.offset, v.size, true);
        statements := statements + [Ail.Assignment(Ail.Tmp(None, t.value, 8 * v.size), value)];
      case RamSpace =>
        statements := statements + [Ail.Store(Ail.Const(None, v.offset, arch.bits), value, v.size, arch.end)];
    }

    method Operands(op: Op) returns (x: Option<Ail.Expr>, y: Option<Ail.Expr>)
      requires op.BINARY? || op.STORE?
      modifies this`uniqueTracker, this`uniqueCounter
      ensures x == GetValue(arch, if op.BINARY? then op.in0 else op.addr, old(uniqueTracker))
      ensures y == GetValue(arch, if op.BINARY? then op.in1 else op.data, old(uniqueTracker))
      ensures uniqueTracker == old(uniqueTracker) && uniqueCounter == old(uniqueCounter)
    {
      x := ReadVarnode(if op.BINARY? then op.in0 else op.addr);
      y := ReadVarnode(if op.BINARY? then op.in1 else op.data);
    }

    /** False where the conversion raises. */
    method ConvertCurrentOp(op: Op) returns (ok: bool)
      modifies this
      ensures ok == ConvertOp(arch, op, old(State())).Some?
      ensures ok ==> State() == ConvertOp(arch, op, old(State())).value
    {
      match op
      case IMARK => ok := true;
      case COPY(out, inp) =>
        var x := ReadVarnode(inp);
        ok := Finish(op, out, x);
      case INT_ZEXT(out, inp) =>
        var x := ReadVarnode(inp);
        ok := Finish(op, out,
                     if x.Some? then Some(Ail.Convert(None, 8 * inp.size, 8 * out.size, false, x.value)) else None);
      case INT_SEXT(out, inp) =>
        var x := ReadVarnode(inp);
        ok := Finish(op, out,
                     if x.Some? then Some(Ail.Convert(None, 8 * inp.size, 8 * out.size, false, x.value)) else None);
      case LOAD(space, out, addr) =>
        var x := ReadVarnode(addr);
        if x.Some? && space != RegisterSpace { x := Some(Ail.Load(None, x.value, out.size, arch.end)); }
        ok := Finish(op, out, x);
      case STORE(space, addr, data) =>
        if space == RegisterSpace {
          var x := ReadVarnode(addr);
          ok := Finish(op, data, x);
        } else {
          var x, y := Operands(op);
          ok := x.Some? && y.Some?;
          if ok { statements := statements + [Ail.Store(x.value, y.value, data.size, arch.end)]; }
        }
      case BINARY(opcode, out, _, _) =>
        var x, y := Operands(op);
        ok := Finish(op, out,
                     if x.Some? && y.Some? then Some(BinaryExpr(opcode, out.size, x.value, y.value)) else None);
    }

    method Finish(op: Op, out: Varnode, value: Option<Ail.Expr>) returns (ok: bool)
      requires !op.IMARK? && !(op.STORE? && op.space != RegisterSpace)
      requires Result(arch, op, uniqueTracker) == if value.Some? then Some((out, value.value)) else None
      modifies this
      ensures ok == ConvertOp(arch, op, old(State())).Some?
      ensures ok ==> State() == ConvertOp(arch, op, old(State())).value
    {
      if value.None? { return false; }
      if out.space == ConstSpace { return !op.BINARY?; }
      StoreValueTo(out, value.value);
      ok := true;
    }

    method Convert(ops: seq<Op>) returns (ok: bool)
      modifies this
      ensures ok == ConvertOps(arch, ops, old(State())).Some?
      ensures ok ==> State() == ConvertOps(arch, ops, old(State())).value
    {
      for i := 0 to |ops|
        invariant ConvertOps(arch, ops, old(State())) == ConvertOps(arch, ops[i..], State())
      {
        ok := ConvertCurrentOp(ops[i]);
        assert ops[i..][1..] == ops[i + 1..];
        if !ok { return; }
      }
      ok := true;
    }
  }
}

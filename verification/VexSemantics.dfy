/** What scalar integer VEX means, after angr's own operation handlers. */
module VexSemantics {
  import opened Wrappers
  import opened BitVec
  import opened MachineState
  import opened Vex

  function Truth(b: bool): nat { if b then 1 else 0 }

  function Extended(v: nat, from: nat, to: nat, signed: bool): nat
  {
    if signed && from > 0 then Wrap(Signed(v, from), to) else v
  }

  function Unary(op: IrOp, v: nat, n: nat): nat
  {
    if op.name == Not then Wrap(-1 - v, n)
    else if op.side == HI then ShiftRight(v, n / 2)
    else if op.toBits < op.fromBits then Wrap(v, op.toBits)
    else Extended(v, n, op.toBits, op.signed)
  }

  function Order(op: IrOp, v: nat, n: nat): int { if op.signed && n > 0 then Signed(v, n) else v }

  function BothDivided(op: IrOp, a: nat, b: nat, n: nat): Option<nat>
  {
    var m := op.fromBits;
    var y := Extended(b, n, m, op.signed);
    if y == 0 || (op.signed && m == 0) then None
    else
      var (q, r) := Divided(op.signed, a, y, m);
      Some(ShiftLeft(Wrap(r, op.toBits), op.toBits) + Wrap(q, op.toBits))
  }

  /** Quotient and remainder of m-bit numbers. */
  function Divided(signed: bool, a: nat, y: nat, m: nat): (nat, nat)
    requires y != 0 && (signed ==> m > 0)
  {
    if signed && Signed(y, m) != 0 then
      (Wrap(TruncDiv(Signed(a, m), Signed(y, m)), m), Wrap(TruncMod(Signed(a, m), Signed(y, m)), m))
    else (FloorDiv(a, y), a % y)
  }

  function Binary(op: IrOp, a: nat, m: nat, b: nat, n: nat): Option<nat>
  {
    match op.name
    case Add => Some(Wrap(a + b, op.outBits))
    case Sub => Some(Wrap(a - b, op.outBits))
    case Mul => Some(Wrap(a * b, op.outBits))
    case Mull => Some(Wrap(Extended(a, m, op.outBits, op.signed) * Extended(b, n, op.outBits, op.signed), op.outBits))
    case Div => if b == 0 || m == 0 then None else Some(Divided(op.signed, a, b, m).0)
    case DivMod => BothDivided(op, a, b, n)
    case And => Some(OnAllBits(AndBits, a, b))
    case Or => Some(OnAllBits(OrBits, a, b))
    case Xor => Some(OnAllBits(XorBits, a, b))
    case Shl => Some(Wrap(ShiftLeft(a, b), op.outBits))
    case Shr => Some(ShiftRight(a, b))
    case Sar => Some(Wrap(ShiftRight(if m > 0 then Signed(a, m) else a, b), op.outBits))
    case CmpEQ => Some(Truth(a == b))
    case CmpNE => Some(Truth(a != b))
    case CmpLT => Some(Truth(Order(op, a, m) < Order(op, b, n)))
    case CmpLE => Some(Truth(Order(op, a, m) <= Order(op, b, n)))
    case _ => Some(ShiftLeft(a, n) + b)
  }

  /** The value of an expression; none when it divides by zero. */
  function Eval(e: Expr, tyenv: TyEnv, st: State): Option<nat>
    requires Scalar(e)
  {
    match e
    case RdTmp(t) => Some(st.Temp(t))
    case Get(offset, bits) => Some(LoadValue(st.regs, offset, bits / 8, LE))
    case Const(v, _) => Some(v)
    case Load(addr, bytes, end) =>
      (match Eval(addr, tyenv, st)
       case Some(a) => Some(LoadValue(st.mem, a, bytes, end))
       case None => None)
    case Unop(op, x) =>
      (match Eval(x, tyenv, st)
       case Some(v) => Some(Unary(op, v, Bits(x, tyenv)))
       case None => None)
    case Binop(op, x, y) =>
      (match (Eval(x, tyenv, st), Eval(y, tyenv, st))
       case (Some(a), Some(b)) => Binary(op, a, Bits(x, tyenv), b, Bits(y, tyenv))
       case _ => None)
    case ITE(c, t, f) =>
      (match (Eval(c, tyenv, st), Eval(f, tyenv, st), Eval(t, tyenv, st))
       case (Some(v), Some(x), Some(y)) => Some(if v != 0 then y else x)
       case _ => None)
  }

  /** No helper calls. */
  predicate Scalar(e: Expr)
  {
    match e
    case Load(a, _, _) => Scalar(a)
    case Unop(_, x) => Scalar(x)
    case Binop(_, x, y) => Scalar(x) && Scalar(y)
    case ITE(c, t, f) => Scalar(c) && Scalar(t) && Scalar(f)
    case CCall(_, _, _) => false
    case _ => true
  }

  // --------------------------------------------------------------------------
  // VEX's typing rules

  predicate UnopTyped(op: IrOp, n: nat)
  {
    && n > 0
    && match op.name
       case Unnamed =>
         && op.fromBits == n && op.outBits == op.toBits > 0
         && (match op.side
             case Whole => op.fromBits != op.toBits
             case HI => op.fromBits == 2 * op.toBits
             case HL => false)
       case Not => op.outBits == n
       case _ => false
  }

  predicate BinopTyped(op: IrOp, m: nat, n: nat)
  {
    && m > 0 && n > 0
    && match op.name
       case Unnamed => op.side == HL && m == n == op.fromBits && op.outBits == op.toBits == 2 * n
       case Mull => m == n && op.outBits == 2 * m
       case DivMod => op.fromBits == m && op.toBits == n && op.outBits == 2 * n && (m == n || m == 2 * n)
       case Shl => m == op.outBits
       case Shr => m == op.outBits
       case Sar => m == op.outBits
       case CmpEQ => m == n && op.outBits == 1
       case CmpNE => m == n && op.outBits == 1
       case CmpLT => m == n && op.outBits == 1
       case CmpLE => m == n && op.outBits == 1
       case Not => false
       case _ => m == n == op.outBits
  }

  predicate Typed(e: Expr, tyenv: TyEnv)
  {
    match e
    case RdTmp(t) => t in tyenv && tyenv[t] > 0
    case Get(_, bits) => bits > 0 && bits % 8 == 0
    case Const(v, bits) => bits > 0 && v < Pow2(bits)
    case Load(a, bytes, _) => bytes > 0 && Typed(a, tyenv)
    case Unop(op, x) => Typed(x, tyenv) && UnopTyped(op, Bits(x, tyenv))
    case Binop(op, x, y) => Typed(x, tyenv) && Typed(y, tyenv) && BinopTyped(op, Bits(x, tyenv), Bits(y, tyenv))
    case ITE(c, t, f) => Typed(c, tyenv) && Typed(t, tyenv) && Typed(f, tyenv) && Bits(t, tyenv) == Bits(f, tyenv)
    case CCall(_, _, _) => false
  }

  ghost predicate StateTyped(st: State, tyenv: TyEnv) { forall t :: t in tyenv ==> st.Temp(t) < Pow2(tyenv[t]) }

  lemma {:induction false} TypedIsScalar(e: Expr, tyenv: TyEnv)
    requires Typed(e, tyenv)
    ensures Scalar(e) && Bits(e, tyenv) > 0
  {
    match e
    case Load(a, _, _) => TypedIsScalar(a, tyenv);
    case Unop(_, x) => TypedIsScalar(x, tyenv);
    case Binop(_, x, y) => TypedIsScalar(x, tyenv); TypedIsScalar(y, tyenv);
    case ITE(c, t, f) => TypedIsScalar(c, tyenv); TypedIsScalar(t, tyenv); TypedIsScalar(f, tyenv);
    case _ =>
  }

  lemma {:induction false} UnaryInRange(op: IrOp, v: nat, n: nat)
    requires UnopTyped(op, n) && v < Pow2(n)
    ensures Unary(op, v, n) < Pow2(op.outBits)
  {
    if op.side == HI && op.name != Not {
      ShiftRightBounds(v, op.toBits, n / 2);
    } else if op.name != Not && op.toBits > n {
      Pow2Grows(n, op.toBits);
    }
  }

  lemma {:induction false} DividedInRange(signed: bool, a: nat, y: nat, m: nat)
    requires y != 0 && m > 0 && a < Pow2(m)
    ensures Divided(signed, a, y, m).0 < Pow2(m) && Divided(signed, a, y, m).1 < Pow2(m)
  {
    DivShrinks(a, y);
  }

  lemma {:induction false} BinaryInRange(op: IrOp, a: nat, m: nat, b: nat, n: nat)
    requires BinopTyped(op, m, n) && a < Pow2(m) && b < Pow2(n)
    ensures var r := Binary(op, a, m, b, n); r.Some? ==> r.value < Pow2(op.outBits)
  {
    match op.name
    case Unnamed => ConcatBounds(a, m, b, n);
    case Div => if b != 0 { DividedInRange(op.signed, a, b, m); }
    case DivMod => DivModInRange(op, a, m, b, n);
    case And => OnAllBitsInRange(AndBits, a, b, m);
    case Or => OnAllBitsInRange(OrBits, a, b, m);
    case Xor => OnAllBitsInRange(XorBits, a, b, m);
    case Shr => DivShrinks(a, Pow2(b));
    case _ =>
  }

  lemma {:induction false} DivModInRange(op: IrOp, a: nat, m: nat, b: nat, n: nat)
    requires op.name == DivMod && BinopTyped(op, m, n)
    ensures var r := BothDivided(op, a, b, n); r.Some? ==> r.value < Pow2(op.outBits)
  {
    var y := Extended(b, n, m, op.signed);
    if y != 0 {
      var (q, r) := Divided(op.signed, a, y, m);
      ConcatBounds(Wrap(r, n), n, Wrap(q, n), n);
    }
  }

  /** A typed expression has a value of its width, unless it divides by zero. */
  lemma {:induction false} EvalInRange(e: Expr, tyenv: TyEnv, st: State)
    requires Typed(e, tyenv) && StateTyped(st, tyenv) && Scalar(e)
    ensures var r := Eval(e, tyenv, st); r.Some? ==> r.value < Pow2(Bits(e, tyenv))
  {
    match e
    case RdTmp(_) =>
    case Const(_, _) =>
    case Get(offset, bits) => LoadInRange(st.regs, offset, bits / 8, LE);
    case Load(x, bytes, end) =>
      var a := Eval(x, tyenv, st);
      if a.Some? { LoadInRange(st.mem, a.value, bytes, end); }
    case Unop(op, x) =>
      EvalInRange(x, tyenv, st);
      var v := Eval(x, tyenv, st);
      if v.Some? { UnaryInRange(op, v.value, Bits(x, tyenv)); }
    case Binop(op, x, y) =>
      EvalInRange(x, tyenv, st);
      EvalInRange(y, tyenv, st);
      var a, b := Eval(x, tyenv, st), Eval(y, tyenv, st);
      if a.Some? && b.Some? { BinaryInRange(op, a.value, Bits(x, tyenv), b.value, Bits(y, tyenv)); }
    case ITE(_, t, f) =>
      EvalInRange(t, tyenv, st);
      EvalInRange(f, tyenv, st);
  }

  // --------------------------------------------------------------------------
  // Running a block

  /** The exits the AIL converter skips. */
  predicate IsTrap(kind: Jumpkind)
  {
    kind in {EmWarn, NoDecode, MapFail, NoRedir, SigTRAP, SigSEGV, ClientReq, IntDiv}
  }

  predicate IsTrapExit(stmt: Stmt) { stmt.Exit? && IsTrap(stmt.jumpkind) }

  predicate StmtTyped(stmt: Stmt, tyenv: TyEnv)
  {
    match stmt
    case IMark(_, _) => true
    case AbiHint => true
    case WrTmp(t, data) => Typed(data, tyenv) && t in tyenv && tyenv[t] == Bits(data, tyenv)
    case Put(_, data) => Typed(data, tyenv) && Bits(data, tyenv) % 8 == 0
    case Store(addr, data, _) => Typed(addr, tyenv) && Typed(data, tyenv) && Bits(data, tyenv) % 8 == 0
    case Exit(guard, _, _) => Typed(guard, tyenv)
    case LoadG(_, _, _, _) => false
  }

  predicate StmtsTyped(stmts: seq<Stmt>, tyenv: TyEnv)
  {
    forall i :: 0 <= i < |stmts| ==> StmtTyped(stmts[i], tyenv)
  }

  predicate BlockTyped(b: Irsb) { StmtsTyped(b.stmts, b.tyenv) && Typed(b.next, b.tyenv) }

  /** One statement. A side exit's jumpkind is observed only when it is a trap. */
  function Exec(stmt: Stmt, tyenv: TyEnv, st: State): Outcome
    requires StmtTyped(stmt, tyenv)
  {
    match stmt
    case WrTmp(t, data) =>
      TypedIsScalar(data, tyenv);
      (match Eval(data, tyenv, st)
       case Some(v) => Fell(st.(temps := st.temps[t := v]))
       case None => Fault)
    case Put(offset, data) =>
      TypedIsScalar(data, tyenv);
      (match Eval(data, tyenv, st)
       case Some(v) => Fell(st.(regs := StoreValue(st.regs, offset, v, Bits(data, tyenv) / 8, LE)))
       case None => Fault)
    case Store(addr, data, end) =>
      TypedIsScalar(addr, tyenv);
      TypedIsScalar(data, tyenv);
      (match (Eval(addr, tyenv, st), Eval(data, tyenv, st))
       case (Some(a), Some(v)) => Fell(st.(mem := StoreValue(st.mem, a, v, Bits(data, tyenv) / 8, end)))
       case _ => Fault)
    case Exit(guard, target, kind) =>
      TypedIsScalar(guard, tyenv);
      (match Eval(guard, tyenv, st)
       case None => Fault
       case Some(v) => if v == 0 then Fell(st) else if IsTrap(kind) then Trapped(st) else Jumped(st, target))
    case _ => Fell(st)
  }

  function RunStmts(stmts: seq<Stmt>, tyenv: TyEnv, st: State): Outcome
    requires StmtsTyped(stmts, tyenv)
    decreases |stmts|
  {
    if stmts == [] then Fell(st)
    else
      match Exec(stmts[0], tyenv, st)
      case Fell(st') => RunStmts(stmts[1..], tyenv, st')
      case o => o
  }

  /** Leaving through the end of the block; a return does not tell where to. */
  function Leave(b: Irsb, st: State): Outcome
    requires Typed(b.next, b.tyenv)
  {
    if b.jumpkind == Ret then Returned(st)
    else
      TypedIsScalar(b.next, b.tyenv);
      match Eval(b.next, b.tyenv, st)
      case None => Fault
      case Some(a) => if b.jumpkind == Call then Called(st, a) else Jumped(st, a)
  }

  function Run(b: Irsb, st: State): Outcome
    requires BlockTyped(b)
  {
    match RunStmts(b.stmts, b.tyenv, st)
    case Fell(st') => Leave(b, st')
    case o => o
  }

  lemma {:induction false} ExecKeepsTyped(stmt: Stmt, tyenv: TyEnv, st: State)
    requires StmtTyped(stmt, tyenv) && StateTyped(st, tyenv) && Exec(stmt, tyenv, st).Fell?
    ensures StateTyped(Exec(stmt, tyenv, st).state, tyenv)
  {
    if stmt.WrTmp? {
      TypedIsScalar(stmt.data, tyenv);
      EvalInRange(stmt.data, tyenv, st);
    }
  }
}

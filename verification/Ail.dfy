/** AIL, the intermediate language of angr's decompiler: its scalar integer
    fragment, and what that fragment means. */
module Ail {
  import opened Wrappers
  import opened BitVec
  import opened MachineState

  datatype UnOp = Not | BitwiseNeg

  datatype BinOp =
    | Add | Sub | Mul | Mull | Div | Mod
    | And | Or | Xor | Shl | Shr | Sar
    | CmpEQ | CmpNE | CmpLT | CmpLE
    | Concat

  /** Every expression carries the `idx` that its manager numbered it with. */
  datatype Expr =
    | Const(idx: Option<nat>, value: nat, bits: nat)
    | Tmp(idx: Option<nat>, tmp: nat, bits: nat)
    | Register(idx: Option<nat>, offset: nat, bits: nat)
    | UnaryOp(idx: Option<nat>, uop: UnOp, operand: Expr, bits: nat)
    | Convert(idx: Option<nat>, fromBits: nat, toBits: nat, signed: bool, operand: Expr)
    | BinaryOp(idx: Option<nat>, op: BinOp, left: Expr, right: Expr, signed: bool, bits: nat)
    | Load(idx: Option<nat>, addr: Expr, size: nat, end: Endness)
    | ITE(idx: Option<nat>, cond: Expr, iffalse: Expr, iftrue: Expr)

  datatype Stmt =
    | Assignment(dst: Expr, src: Expr)
    | Store(addr: Expr, data: Expr, size: nat, end: Endness)
    | ConditionalJump(cond: Expr, trueTarget: Expr, falseTarget: Option<Expr>)
    | Jump(target: Expr)
    | Call(target: Expr)
    | Return

  datatype Block = Block(addr: nat, stmts: seq<Stmt>)

  function Bits(e: Expr): nat
  {
    match e
    case Convert(_, _, to, _, _) => to
    case Load(_, _, size, _) => 8 * size
    case ITE(_, _, _, t) => Bits(t)
    case _ => e.bits
  }

  /** `Convert` takes the low `from` bits and widens or narrows them. */
  function Converted(v: nat, from: nat, to: nat, signed: bool): nat
  {
    if signed && from > 0 then Wrap(Signed(Wrap(v, from), from), to) else Wrap(Wrap(v, from), to)
  }

  function Truth(b: bool): nat { if b then 1 else 0 }

  /** How an operand with the given width is read. */
  function Read(v: nat, bits: nat, signed: bool): int { if signed && bits > 0 then Signed(v, bits) else v }

  function Unary(op: UnOp, v: nat, bits: nat): nat
  {
    match op
    case Not => Truth(v == 0)
    case BitwiseNeg => Wrap(-1 - v, bits)
  }

  function Binary(op: BinOp, signed: bool, bits: nat, a: nat, m: nat, b: nat, n: nat): Option<nat>
  {
    var x, y := Read(a, m, signed), Read(b, n, signed);
    match op
    case Add => Some(Wrap(a + b, bits))
    case Sub => Some(Wrap(a - b, bits))
    case Mul => Some(Wrap(a * b, bits))
    case Mull => Some(Wrap(x * y, bits))
    case Div => if y == 0 then None else Some(Wrap(TruncDiv(x, y), bits))
    case Mod => if y == 0 then None else Some(Wrap(TruncMod(x, y), bits))
    case And => Some(OnAllBits(AndBits, a, b))
    case Or => Some(OnAllBits(OrBits, a, b))
    case Xor => Some(OnAllBits(XorBits, a, b))
    case Shl => Some(Wrap(ShiftLeft(a, b), bits))
    case Shr => Some(ShiftRight(a, b))
    case Sar => Some(Wrap(ShiftRight(Read(a, m, true), b), bits))
    case CmpEQ => Some(Truth(a == b))
    case CmpNE => Some(Truth(a != b))
    case CmpLT => Some(Truth(x < y))
    case CmpLE => Some(Truth(x <= y))
    case Concat => Some(ShiftLeft(a, n) + b)
  }

  /** The value of an expression; none when it divides by zero. */
  function Eval(e: Expr, st: State): Option<nat>
  {
    match e
    case Const(_, v, _) => Some(v)
    case Tmp(_, t, _) => Some(st.Temp(t))
    case Register(_, offset, bits) => Some(LoadValue(st.regs, offset, bits / 8, LE))
    case UnaryOp(_, op, x, bits) =>
      (match Eval(x, st)
       case Some(v) => Some(Unary(op, v, bits))
       case None => None)
    case Convert(_, from, to, signed, x) =>
      (match Eval(x, st)
       case Some(v) => Some(Converted(v, from, to, signed))
       case None => None)
    case BinaryOp(_, op, x, y, signed, bits) =>
      (match (Eval(x, st), Eval(y, st))
       case (Some(a), Some(b)) => Binary(op, signed, bits, a, Bits(x), b, Bits(y))
       case _ => None)
    case Load(_, addr, size, end) =>
      (match Eval(addr, st)
       case Some(a) => Some(LoadValue(st.mem, a, size, end))
       case None => None)
    case ITE(_, c, f, t) =>
      (match (Eval(c, st), Eval(f, st), Eval(t, st))
       case (Some(v), Some(x), Some(y)) => Some(if v != 0 then y else x)
       case _ => None)
  }

  /** A binary operation, from the values of its operands. */
  lemma {:induction false} EvalBinary(e: Expr, a: nat, b: nat, st: State)
    requires e.BinaryOp? && Eval(e.left, st) == Some(a) && Eval(e.right, st) == Some(b)
    ensures Eval(e, st) == Binary(e.op, e.signed, e.bits, a, Bits(e.left), b, Bits(e.right))
  {
  }

  function Assign(st: State, dst: Expr, v: nat): State
  {
    match dst
    case Tmp(_, t, _) => st.(temps := st.temps[t := v])
    case Register(_, offset, bits) => st.(regs := StoreValue(st.regs, offset, v, bits / 8, LE))
    case _ => st
  }

  function JumpTo(target: Expr, st: State): Outcome
  {
    match Eval(target, st)
    case Some(a) => Jumped(st, a)
    case None => Fault
  }

  function Exec(stmt: Stmt, st: State): Outcome
  {
    match stmt
    case Assignment(dst, src) =>
      (match Eval(src, st)
       case Some(v) => Fell(Assign(st, dst, v))
       case None => Fault)
    case Store(addr, data, size, end) =>
      (match (Eval(addr, st), Eval(data, st))
       case (Some(a), Some(v)) => Fell(st.(mem := StoreValue(st.mem, a, v, size, end)))
       case _ => Fault)
    case ConditionalJump(cond, t, f) =>
      (match Eval(cond, st)
       case None => Fault
       case Some(v) =>
         if v != 0 then JumpTo(t, st)
         else match f case None => Fell(st) case Some(f') => JumpTo(f', st))
    case Jump(target) => JumpTo(target, st)
    case Call(target) =>
      (match Eval(target, st)
       case Some(a) => Called(st, a)
       case None => Fault)
    case Return => Returned(st)
  }

  function Run(stmts: seq<Stmt>, st: State): Outcome
    decreases |stmts|
  {
    if stmts == [] then Fell(st)
    else
      match Exec(stmts[0], st)
      case Fell(st') => Run(stmts[1..], st')
      case o => o
  }

  /** A run of two pieces is a run of the first, then of the second. */
  lemma {:induction false} RunConcat(a: seq<Stmt>, b: seq<Stmt>, st: State)
    ensures Run(a + b, st) == match Run(a, st) case Fell(st') => Run(b, st') case o => o
    decreases |a|
  {
    if a == [] {
      assert a + b == b;
    } else {
      assert (a + b)[1..] == a[1..] + b;
      var o := Exec(a[0], st);
      if o.Fell? { RunConcat(a[1..], b, o.state); }
    }
  }
}

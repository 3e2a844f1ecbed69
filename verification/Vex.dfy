/** The part of VEX, the intermediate representation angr lifts machine code to,
    that the slicer and the AIL converter work on: scalar integer code. */
module Vex {
  import opened MachineState

  /** The generic part of a VEX operation's name (`_generic_name` of a `SimIROp`). */
  datatype Generic =
    | Unnamed // pure conversions
    | Add | Sub | Mul | Mull | Div | DivMod
    | And | Or | Xor | Shl | Shr | Sar | Not
    | CmpEQ | CmpNE | CmpLT | CmpLE

  /** `_from_side` of a conversion: high half, or a high and a low operand. */
  datatype Side = Whole | HI | HL

  /** The attributes of a `SimIROp` that the converter reads. */
  datatype IrOp = IrOp(
    name: Generic,
    side: Side,
    signed: bool,    // _from_signed == "S"
    fromBits: nat,   // _from_size
    toBits: nat,     // _to_size
    outBits: nat)    // _output_size_bits

  datatype Expr =
    | RdTmp(tmp: nat)
    | Get(offset: nat, bits: nat)
    | Const(value: nat, bits: nat)
    | Load(addr: Expr, bytes: nat, end: Endness)
    | Unop(op1: IrOp, arg: Expr)
    | Binop(op2: IrOp, arg0: Expr, arg1: Expr)
    | CCall(callee: string, args: seq<Expr>, bits: nat)
    | ITE(cond: Expr, iftrue: Expr, iffalse: Expr)

  datatype Jumpkind =
    | Boring | Call | Ret
    | EmWarn | NoDecode | MapFail | NoRedir | SigTRAP | SigSEGV | ClientReq | IntDiv

  datatype Stmt =
    | IMark(addr: nat, delta: nat)
    | AbiHint
    | WrTmp(tmp: nat, data: Expr)
    | Put(offset: nat, data: Expr)
    | Store(saddr: Expr, data: Expr, end: Endness)
    | LoadG(dst: nat, laddr: Expr, guard: Expr, alt: Expr)
    | Exit(guard: Expr, target: nat, jumpkind: Jumpkind)

  /** The type environment: the width of every temp. */
  type TyEnv = map<nat, nat>

  /** `result_size`: the width of an expression's value. */
  function Bits(e: Expr, tyenv: TyEnv): nat
  {
    match e
    case RdTmp(t) => if t in tyenv then tyenv[t] else 0
    case Get(_, bits) => bits
    case Const(_, bits) => bits
    case Load(_, bytes, _) => 8 * bytes
    case Unop(op, _) => op.outBits
    case Binop(op, _, _) => op.outBits
    case CCall(_, _, bits) => bits
    case ITE(_, t, _) => Bits(t, tyenv)
  }

  /** A lifted block. */
  datatype Irsb = Irsb(addr: nat, stmts: seq<Stmt>, next: Expr, jumpkind: Jumpkind, tyenv: TyEnv, wordBits: nat)

  predicate IsAtom(e: Expr) { e.RdTmp? || e.Const? }
}

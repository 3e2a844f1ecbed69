/** The VEX to AIL converter, and that it preserves what a block does. */
module VexToAil {
  import opened Wrappers
  import opened BitVec
  import opened MachineState
  import opened Vex
  import opened VexSemantics
  import Ail

  // --------------------------------------------------------------------------
  // Expressions

  function Named(name: Generic): Ail.BinOp
    requires name != DivMod && name != Not
  {
    match name
    case Unnamed => Ail.Concat
    case Add => Ail.Add
    case Sub => Ail.Sub
    case Mul => Ail.Mul
    case Mull => Ail.Mull
    case Div => Ail.Div
    case And => Ail.And
    case Or => Ail.Or
    case Xor => Ail.Xor
    case Shl => Ail.Shl
    case Shr => Ail.Shr
    case Sar => Ail.Sar
    case CmpEQ => Ail.CmpEQ
    case CmpNE => Ail.CmpNE
    case CmpLT => Ail.CmpLT
    case CmpLE => Ail.CmpLE
  }

  function ConvertUnop(op: IrOp, inner: Ail.Expr): Ail.Expr
  {
    if op.name == Unnamed then
      if op.side == HI then
        var shifted := Ail.BinaryOp(None, Ail.Shr, inner, Ail.Const(None, op.toBits, 8), false, Ail.Bits(inner));
        Ail.Convert(None, op.fromBits, op.toBits, op.signed, shifted)
      else Ail.Convert(None, op.fromBits, op.toBits, op.signed, inner)
    else Ail.UnaryOp(None, if op.outBits != 1 then Ail.BitwiseNeg else Ail.Not, inner, op.outBits)
  }

  /** An addition of a constant whose sign bit is set. */
  predicate AddsNegative(op: IrOp, y: Ail.Expr)
  {
    op.name == Add && y.Const? && y.bits > 0 && ShiftRight(y.value, y.bits - 1) == 1
  }

  lemma {:induction false} NegativeBounds(v: nat, n: nat)
    requires n > 0 && ShiftRight(v, n - 1) == 1
    ensures v <= Pow2(n)
  {
    QuotientOne(v, Pow2(n - 1));
  }

  function Subtraction(op: IrOp, x: Ail.Expr, y: Ail.Expr): Ail.Expr
    requires AddsNegative(op, y)
  {
    NegativeBounds(y.value, y.bits);
    Ail.BinaryOp(None, Ail.Sub, x, Ail.Const(y.idx, Pow2(y.bits) - y.value, y.bits), false, op.outBits)
  }

  function Renamed(op: IrOp, x: Ail.Expr, y: Ail.Expr): Ail.Expr
    requires op.name != Not && op.name != DivMod
  {
    var signed := op.name in {CmpLE, CmpLT, Div, Mul, Mull} && op.signed;
    Ail.BinaryOp(None, Named(op.name), x, y, signed, op.outBits)
  }

  function Divisor(op: IrOp, y: Ail.Expr): Ail.Expr
  {
    if op.toBits < op.fromBits then Ail.Convert(None, op.toBits, op.fromBits, op.signed, y) else y
  }

  /** The quotient or the remainder, truncated to half the result. */
  function Half(op: IrOp, part: Ail.BinOp, x: Ail.Expr, divisor: Ail.Expr): Ail.Expr
  {
    Ail.Convert(None, op.fromBits, op.outBits / 2, op.signed,
                Ail.BinaryOp(None, part, x, divisor, op.signed, op.fromBits))
  }

  function ConvertDivMod(op: IrOp, x: Ail.Expr, y: Ail.Expr): Ail.Expr
  {
    var divisor := Divisor(op, y);
    Ail.BinaryOp(None, Ail.Concat, Half(op, Ail.Mod, x, divisor), Half(op, Ail.Div, x, divisor), false, op.outBits)
  }

  function ConvertBinop(op: IrOp, x: Ail.Expr, y: Ail.Expr): Ail.Expr
    requires op.name != Not
  {
    if op.name == DivMod then ConvertDivMod(op, x, y)
    else if AddsNegative(op, y) then Subtraction(op, x, y)
    else Renamed(op, x, y)
  }

  function ConvertExpr(e: Expr, tyenv: TyEnv): Ail.Expr
    requires Typed(e, tyenv)
  {
    match e
    case RdTmp(t) => Ail.Tmp(None, t, Bits(e, tyenv))
    case Get(offset, bits) => Ail.Register(None, offset, bits)
    case Const(v, bits) => Ail.Const(None, v, bits)
    case Load(addr, bytes, end) => Ail.Load(None, ConvertExpr(addr, tyenv), Bits(e, tyenv) / 8, end)
    case Unop(op, x) => ConvertUnop(op, ConvertExpr(x, tyenv))
    case Binop(op, x, y) => ConvertBinop(op, ConvertExpr(x, tyenv), ConvertExpr(y, tyenv))
    case ITE(c, t, f) => Ail.ITE(None, ConvertExpr(c, tyenv), ConvertExpr(f, tyenv), ConvertExpr(t, tyenv))
  }

  // --------------------------------------------------------------------------
  // Each rewriting, on values

  /** Adding a constant with its sign bit set is subtracting its negation. */
  lemma {:induction false} AddIsSub(a: nat, v: nat, n: nat)
    requires v <= Pow2(n)
    ensures Wrap(a - (Pow2(n) - v), n) == Wrap(a + v, n)
  {
    WrapPlusPow2(a + v, n);
  }

  lemma {:induction false} ConvertIsExtension(v: nat, from: nat, to: nat, signed: bool)
    requires 0 < from <= to && v < Pow2(from)
    ensures Ail.Converted(v, from, to, signed) == Extended(v, from, to, signed)
  {
    WrapInRange(v, from);
    Pow2Grows(from, to);
    WrapInRange(v, to);
  }

  lemma {:induction false} ConvertIsTruncation(v: nat, from: nat, to: nat, signed: bool)
    requires 0 < from && to <= from
    ensures Ail.Converted(v, from, to, signed) == Wrap(v, to)
  {
    WrapNarrower(v, from, to);
    SignedNarrower(Wrap(v, from), from, to);
  }

  lemma {:induction false} HighHalf(v: nat, half: nat, signed: bool)
    requires half > 0 && v < Pow2(half + half)
    ensures Ail.Converted(ShiftRight(v, half), half + half, half, signed) == ShiftRight(v, half)
  {
    ConvertIsTruncation(ShiftRight(v, half), half + half, half, signed);
    ShiftRightBounds(v, half, half);
    WrapInRange(ShiftRight(v, half), half);
  }

  lemma {:induction false} OneBitNot(v: nat)
    requires v < Pow2(1)
    ensures Wrap(-1 - v, 1) == Ail.Truth(v == 0)
  {
    assert Pow2(1) == 2;
  }

  lemma {:induction false} HighHalfPreserved(op: IrOp, inner: Ail.Expr, v: nat, st: State)
    requires op.name == Unnamed && op.side == HI && op.fromBits == op.toBits + op.toBits > 0 && v < Pow2(op.fromBits)
    requires Ail.Eval(inner, st) == Some(v)
    ensures Ail.Eval(ConvertUnop(op, inner), st) == Some(ShiftRight(v, op.toBits))
  {
    var shifted := ConvertUnop(op, inner).operand;
    assert Ail.Eval(shifted, st) == Some(ShiftRight(v, op.toBits));
    HighHalf(v, op.toBits, op.signed);
  }

  lemma {:induction false} NotPreserved(op: IrOp, inner: Ail.Expr, v: nat, n: nat, st: State)
    requires op.name == Not && op.outBits == n > 0 && v < Pow2(n) && Ail.Eval(inner, st) == Some(v)
    ensures Ail.Eval(ConvertUnop(op, inner), st) == Some(Unary(op, v, n))
  {
    if n == 1 { OneBitNot(v); }
  }

  lemma {:induction false} ConversionPreserved(op: IrOp, inner: Ail.Expr, v: nat, n: nat, st: State)
    requires op.name == Unnamed && op.side == Whole && UnopTyped(op, n) && v < Pow2(n) && Ail.Eval(inner, st) == Some(v)
    ensures Ail.Eval(ConvertUnop(op, inner), st) == Some(Unary(op, v, n))
  {
    assert Ail.Eval(ConvertUnop(op, inner), st) == Some(Ail.Converted(v, n, op.toBits, op.signed));
    if op.toBits < n {
      ConvertIsTruncation(v, n, op.toBits, op.signed);
    } else {
      ConvertIsExtension(v, n, op.toBits, op.signed);
    }
  }

  lemma {:induction false} UnaryPreserved(op: IrOp, inner: Ail.Expr, v: nat, n: nat, st: State)
    requires UnopTyped(op, n) && v < Pow2(n) && Ail.Eval(inner, st) == Some(v)
    ensures Ail.Eval(ConvertUnop(op, inner), st) == Some(Unary(op, v, n))
  {
    if op.name == Not {
      NotPreserved(op, inner, v, n, st);
    } else if op.side == HI {
      HighHalfPreserved(op, inner, v, st);
    } else {
      ConversionPreserved(op, inner, v, n, st);
    }
  }

  lemma {:induction false} UnopBits(op: IrOp, inner: Ail.Expr)
    ensures Ail.Bits(ConvertUnop(op, inner)) == if op.name == Unnamed then op.toBits else op.outBits
  {
  }

  lemma {:induction false} DividedPreserved(signed: bool, a: nat, y: nat, m: nat)
    requires 0 < y < Pow2(m) && m > 0 && a < Pow2(m)
    ensures var (x', y') := (Ail.Read(a, m, signed), Ail.Read(y, m, signed));
            && y' != 0
            && Divided(signed, a, y, m) == (Wrap(TruncDiv(x', y'), m), Wrap(TruncMod(x', y'), m))
  {
    if !signed {
      UnsignedDivision(a, y);
      DivShrinks(a, y);
      WrapInRange(a / y, m);
      WrapInRange(a % y, m);
    }
  }

  lemma {:induction false} DivisorPreserved(op: IrOp, y: Ail.Expr, b: nat, n: nat, st: State)
    requires op.toBits == n && (op.fromBits == n || op.fromBits == 2 * n) && n > 0 && b < Pow2(n)
    requires Ail.Bits(y) == n && Ail.Eval(y, st) == Some(b)
    ensures Ail.Eval(Divisor(op, y), st) == Some(Extended(b, n, op.fromBits, op.signed))
    ensures Ail.Bits(Divisor(op, y)) == op.fromBits
    ensures Extended(b, n, op.fromBits, op.signed) < Pow2(op.fromBits)
  {
    if n < op.fromBits {
      ConvertIsExtension(b, n, op.fromBits, op.signed);
      Pow2Grows(n, op.fromBits);
    } else {
      SignedRoundTrip(b, n);
    }
  }

  lemma {:induction false} EvalTruncated(e: Ail.Expr, v: nat, st: State)
    requires e.Convert? && 0 < e.fromBits && e.toBits <= e.fromBits && Ail.Eval(e.operand, st) == Some(v)
    ensures Ail.Eval(e, st) == Some(Wrap(v, e.toBits))
  {
    ConvertIsTruncation(v, e.fromBits, e.toBits, e.signed);
  }

  lemma {:induction false} HalfPreserved(op: IrOp, part: Ail.BinOp, x: Ail.Expr, y: Ail.Expr, a: nat, d: nat, m: nat,
                                         n: nat, st: State)
    requires part in {Ail.Div, Ail.Mod} && op.fromBits == m > 0
    requires op.outBits == 2 * n && n <= m && a < Pow2(m) && d < Pow2(m)
    requires Ail.Bits(x) == m && Ail.Eval(x, st) == Some(a) && Ail.Bits(y) == m && Ail.Eval(y, st) == Some(d)
    ensures if d == 0 then Ail.Eval(Half(op, part, x, y), st) == None else
              var (q, r) := Divided(op.signed, a, d, m);
              Ail.Eval(Half(op, part, x, y), st) == Some(Wrap(if part == Ail.Div then q else r, n))
  {
    var whole := Half(op, part, x, y).operand;
    Ail.EvalBinary(whole, a, d, st);
    if d == 0 {
      assert Ail.Eval(whole, st) == None;
    } else {
      DividedPreserved(op.signed, a, d, m);
      var (q, r) := Divided(op.signed, a, d, m);
      EvalTruncated(Half(op, part, x, y), if part == Ail.Div then q else r, st);
    }
  }

  lemma {:induction false} ZeroDivisor(op: IrOp, x: Ail.Expr, y: Ail.Expr, a: nat, m: nat, b: nat, n: nat, st: State)
    requires op.name == DivMod && BinopTyped(op, m, n) && a < Pow2(m)
    requires b < Pow2(n) && Extended(b, n, m, op.signed) == 0
    requires Ail.Bits(x) == m && Ail.Bits(y) == n && Ail.Eval(x, st) == Some(a) && Ail.Eval(y, st) == Some(b)
    ensures Ail.Eval(ConvertDivMod(op, x, y), st) == None
  {
    DivisorPreserved(op, y, b, n, st);
    HalfPreserved(op, Ail.Mod, x, Divisor(op, y), a, 0, m, n, st);
    NoneLeft(ConvertDivMod(op, x, y), st);
  }

  lemma {:induction false} NonzeroDivisor(op: IrOp, x: Ail.Expr, y: Ail.Expr, a: nat, m: nat, d: nat, n: nat, st: State)
    requires op.name == DivMod && BinopTyped(op, m, n) && a < Pow2(m) && 0 < d < Pow2(m)
    requires Ail.Bits(x) == m && Ail.Eval(x, st) == Some(a)
    requires Ail.Bits(Divisor(op, y)) == m && Ail.Eval(Divisor(op, y), st) == Some(d)
    ensures var (q, r) := Divided(op.signed, a, d, m);
            Ail.Eval(ConvertDivMod(op, x, y), st) == Some(ShiftLeft(Wrap(r, n), n) + Wrap(q, n))
  {
    var (q, r) := Divided(op.signed, a, d, m);
    HalfPreserved(op, Ail.Mod, x, Divisor(op, y), a, d, m, n, st);
    HalfPreserved(op, Ail.Div, x, Divisor(op, y), a, d, m, n, st);
    ConcatEval(ConvertDivMod(op, x, y), Wrap(r, n), Wrap(q, n), n, st);
  }

  /** One division and one remainder, concatenated, are a DivMod. */
  lemma {:induction false} DivModPreserved(op: IrOp, x: Ail.Expr, y: Ail.Expr, a: nat, m: nat, b: nat, n: nat,
                                           st: State)
    requires op.name == DivMod && BinopTyped(op, m, n) && a < Pow2(m) && b < Pow2(n)
    requires Ail.Bits(x) == m && Ail.Bits(y) == n && Ail.Eval(x, st) == Some(a) && Ail.Eval(y, st) == Some(b)
    ensures Ail.Eval(ConvertDivMod(op, x, y), st) == BothDivided(op, a, b, n)
  {
    var d := Extended(b, n, m, op.signed);
    if d == 0 {
      ZeroDivisor(op, x, y, a, m, b, n, st);
    } else {
      DivisorPreserved(op, y, b, n, st);
      NonzeroDivisor(op, x, y, a, m, d, n, st);
    }
  }

  lemma {:induction false} NoneLeft(e: Ail.Expr, st: State)
    requires e.BinaryOp? && Ail.Eval(e.left, st) == None
    ensures Ail.Eval(e, st) == None
  {
  }

  lemma {:induction false} ConcatEval(e: Ail.Expr, high: nat, low: nat, n: nat, st: State)
    requires e.BinaryOp? && e.op == Ail.Concat && Ail.Bits(e.right) == n
    requires Ail.Eval(e.left, st) == Some(high) && Ail.Eval(e.right, st) == Some(low)
    ensures Ail.Eval(e, st) == Some(ShiftLeft(high, n) + low)
  {
  }

  lemma {:induction false} MullPreserved(signed: bool, a: nat, m: nat, b: nat, n: nat, out: nat)
    requires m > 0 && n > 0
    ensures Ail.Binary(Ail.Mull, signed, out, a, m, b, n)
         == Some(Wrap(Extended(a, m, out, signed) * Extended(b, n, out, signed), out))
  {
    if signed { WrapProduct(Signed(a, m), Signed(b, n), out); }
  }

  lemma {:induction false} DivPreserved(signed: bool, a: nat, b: nat, n: nat)
    requires n > 0 && a < Pow2(n) && b < Pow2(n)
    ensures Ail.Binary(Ail.Div, signed, n, a, n, b, n) == if b == 0 then None else Some(Divided(signed, a, b, n).0)
  {
    if b != 0 { DividedPreserved(signed, a, b, n); }
  }

  /** The operations that only change their name. */
  lemma {:induction false} SameOperation(op: IrOp, a: nat, m: nat, b: nat, n: nat)
    requires BinopTyped(op, m, n) && op.name != DivMod && a < Pow2(m) && b < Pow2(n)
    ensures var signed := op.name in {CmpLE, CmpLT, Div, Mul, Mull} && op.signed;
            Ail.Binary(Named(op.name), signed, op.outBits, a, m, b, n) == Binary(op, a, m, b, n)
  {
    if op.name == Mull {
      MullPreserved(op.signed, a, m, b, n, op.outBits);
    } else if op.name == Div {
      DivPreserved(op.signed, a, b, n);
    }
  }

  lemma {:induction false} RenamedPreserved(op: IrOp, x: Ail.Expr, y: Ail.Expr, a: nat, m: nat, b: nat, n: nat,
                                            st: State)
    requires BinopTyped(op, m, n) && op.name != DivMod && a < Pow2(m) && b < Pow2(n)
    requires Ail.Bits(x) == m && Ail.Bits(y) == n && Ail.Eval(x, st) == Some(a) && Ail.Eval(y, st) == Some(b)
    ensures Ail.Eval(Renamed(op, x, y), st) == Binary(op, a, m, b, n)
  {
    Ail.EvalBinary(Renamed(op, x, y), a, b, st);
    SameOperation(op, a, m, b, n);
  }

  lemma {:induction false} SubtractionPreserved(op: IrOp, x: Ail.Expr, y: Ail.Expr, a: nat, st: State)
    requires AddsNegative(op, y) && y.bits == op.outBits && Ail.Eval(x, st) == Some(a)
    ensures Ail.Eval(Subtraction(op, x, y), st) == Some(Wrap(a + y.value, op.outBits))
  {
    NegativeBounds(y.value, y.bits);
    Ail.EvalBinary(Subtraction(op, x, y), a, Pow2(y.bits) - y.value, st);
    AddIsSub(a, y.value, op.outBits);
  }

  lemma {:induction false} BinaryPreserved(op: IrOp, x: Ail.Expr, y: Ail.Expr, a: nat, m: nat, b: nat, n: nat,
                                           st: State)
    requires BinopTyped(op, m, n) && a < Pow2(m) && b < Pow2(n)
    requires Ail.Bits(x) == m && Ail.Bits(y) == n && Ail.Eval(x, st) == Some(a) && Ail.Eval(y, st) == Some(b)
    ensures Ail.Eval(ConvertBinop(op, x, y), st) == Binary(op, a, m, b, n)
  {
    if op.name == DivMod {
      DivModPreserved(op, x, y, a, m, b, n, st);
    } else if AddsNegative(op, y) {
      SubtractionPreserved(op, x, y, a, st);
    } else {
      RenamedPreserved(op, x, y, a, m, b, n, st);
    }
  }

  lemma {:induction false} BinopBits(op: IrOp, x: Ail.Expr, y: Ail.Expr)
    requires op.name != Not
    ensures Ail.Bits(ConvertBinop(op, x, y)) == op.outBits
  {
  }

  lemma {:induction false} BitsPreserved(e: Expr, tyenv: TyEnv)
    requires Typed(e, tyenv)
    ensures Ail.Bits(ConvertExpr(e, tyenv)) == Bits(e, tyenv)
  {
    match e
    case Unop(op, x) => UnopBits(op, ConvertExpr(x, tyenv));
    case Binop(op, x, y) => BinopBits(op, ConvertExpr(x, tyenv), ConvertExpr(y, tyenv));
    case ITE(_, t, _) => BitsPreserved(t, tyenv);
    case _ =>
  }

  ghost predicate Preserved(e: Expr, tyenv: TyEnv, st: State)
    requires Typed(e, tyenv)
  {
    Scalar(e) && Ail.Eval(ConvertExpr(e, tyenv), st) == Eval(e, tyenv, st)
  }

  /** The converted expression has the value of the original, and faults when it does. */
  lemma {:induction false} ExprPreserved(e: Expr, tyenv: TyEnv, st: State)
    requires Typed(e, tyenv) && StateTyped(st, tyenv)
    ensures Preserved(e, tyenv, st)
  {
    match e
    case Load(x, _, _) =>
      ExprPreserved(x, tyenv, st);
      LoadPreserved(e, tyenv, st);
    case Unop(_, x) =>
      ExprPreserved(x, tyenv, st);
      UnopPreserved(e, tyenv, st);
    case Binop(_, x, y) =>
      ExprPreserved(x, tyenv, st);
      ExprPreserved(y, tyenv, st);
      BinopPreserved(e, tyenv, st);
    case ITE(c, t, f) =>
      ExprPreserved(c, tyenv, st);
      ExprPreserved(t, tyenv, st);
      ExprPreserved(f, tyenv, st);
      ItePreserved(e, tyenv, st);
    case _ =>
  }

  lemma {:induction false} LoadPreserved(e: Expr, tyenv: TyEnv, st: State)
    requires e.Load? && Typed(e, tyenv) && Preserved(e.addr, tyenv, st)
    ensures Preserved(e, tyenv, st)
  {
    assert ConvertExpr(e, tyenv) == Ail.Load(None, ConvertExpr(e.addr, tyenv), e.bytes,
                                             e.end) by { BytesOfBits(e.bytes); }
  }

  lemma {:induction false} ItePreserved(e: Expr, tyenv: TyEnv, st: State)
    requires e.ITE? && Typed(e, tyenv)
    requires Preserved(e.cond, tyenv, st) && Preserved(e.iftrue, tyenv, st) && Preserved(e.iffalse, tyenv, st)
    ensures Preserved(e, tyenv, st)
  {
  }

  lemma {:induction false} UnopPreserved(e: Expr, tyenv: TyEnv, st: State)
    requires e.Unop? && Typed(e, tyenv) && StateTyped(st, tyenv) && Preserved(e.arg, tyenv, st)
    ensures Preserved(e, tyenv, st)
  {
    EvalInRange(e.arg, tyenv, st);
    var inner, v := ConvertExpr(e.arg, tyenv), Eval(e.arg, tyenv, st);
    if v.Some? {
      UnaryPreserved(e.op1, inner, v.value, Bits(e.arg, tyenv), st);
    } else {
      UnopOfNone(e.op1, inner, st);
    }
  }

  lemma {:induction false} UnopOfNone(op: IrOp, inner: Ail.Expr, st: State)
    requires Ail.Eval(inner, st) == None
    ensures Ail.Eval(ConvertUnop(op, inner), st) == None
  {
    if op.name == Unnamed && op.side == HI { NoneLeft(ConvertUnop(op, inner).operand, st); }
  }

  lemma {:induction false} BinopPreserved(e: Expr, tyenv: TyEnv, st: State)
    requires e.Binop? && Typed(e, tyenv) && StateTyped(st, tyenv)
    requires Preserved(e.arg0, tyenv, st) && Preserved(e.arg1, tyenv, st)
    ensures Preserved(e, tyenv, st)
  {
    var (op, x, y) := (e.op2, e.arg0, e.arg1);
    EvalInRange(x, tyenv, st);
    EvalInRange(y, tyenv, st);
    BitsPreserved(x, tyenv);
    BitsPreserved(y, tyenv);
    var a, b := Eval(x, tyenv, st), Eval(y, tyenv, st);
    if a.Some? && b.Some? {
      BinaryPreserved(op, ConvertExpr(x, tyenv), ConvertExpr(y, tyenv), a.value, Bits(x, tyenv), b.value,
                      Bits(y, tyenv), st);
    } else {
      BinopOfNone(op, ConvertExpr(x, tyenv), ConvertExpr(y, tyenv), st);
    }
  }

  lemma {:induction false} BinopOfNone(op: IrOp, x: Ail.Expr, y: Ail.Expr, st: State)
    requires op.name != Not && (Ail.Eval(x, st) == None || Ail.Eval(y, st) == None)
    ensures Ail.Eval(ConvertBinop(op, x, y), st) == None
  {
    if op.name == DivMod {
      var mod := Half(op, Ail.Mod, x, Divisor(op, y));
      assert Ail.Eval(y, st) == None ==> Ail.Eval(Divisor(op, y), st) == None;
      assert Ail.Eval(mod.operand, st) == None;
      NoneLeft(ConvertDivMod(op, x, y), st);
    }
  }
}

/** The straight-line p-code that the AIL converter renames uniques in, and what it means. */
module Pcode {
  import opened Wrappers
  import opened BitVec
  import opened MachineState

  datatype Space = ConstSpace | RegisterSpace | UniqueSpace | RamSpace

  datatype Varnode = Varnode(space: Space, offset: nat, size: nat)

  /** The unsigned binary operations. */
  datatype Opcode =
    | INT_ADD | INT_SUB | INT_MULT | INT_DIV
    | INT_AND | INT_OR | INT_XOR | INT_LEFT | INT_RIGHT
    | INT_EQUAL | INT_NOTEQUAL | INT_LESS | INT_LESSEQUAL

  datatype Op =
    | IMARK
    | COPY(out: Varnode, inp: Varnode)
    | INT_ZEXT(out: Varnode, inp: Varnode)
    | INT_SEXT(out: Varnode, inp: Varnode)
    | LOAD(space: Space, out: Varnode, addr: Varnode)
    | STORE(space: Space, addr: Varnode, data: Varnode)
    | BINARY(opcode: Opcode, out: Varnode, in0: Varnode, in1: Varnode)

  predicate Compares(opcode: Opcode) { opcode in {INT_EQUAL, INT_NOTEQUAL, INT_LESS, INT_LESSEQUAL} }

  function Inputs(op: Op): set<Varnode>
  {
    match op
    case IMARK => {}
    case COPY(_, inp) => {inp}
    case INT_ZEXT(_, inp) => {inp}
    case INT_SEXT(_, inp) => {inp}
    case LOAD(_, _, addr) => {addr}
    case STORE(_, addr, data) => {addr, data}
    case BINARY(_, _, in0, in1) => {in0, in1}
  }

  function Outputs(op: Op): set<Varnode>
  {
    match op
    case IMARK => {}
    case STORE(_, _, _) => {}
    case _ => {op.out}
  }

  /** What p-code requires of its varnodes' sizes, and of where a result may go. */
  predicate Formed(op: Op)
  {
    && (forall v :: v in Inputs(op) ==> v.size > 0 && (v.space == ConstSpace ==> v.offset < Pow2(8 * v.size)))
    && (forall v :: v in Outputs(op) ==> v.size > 0 && v.space != ConstSpace)
    && match op
       case COPY(out, inp) => out.size == inp.size
       case INT_ZEXT(out, inp) => inp.size <= out.size
       case INT_SEXT(out, inp) => inp.size <= out.size
       case BINARY(opcode, out, in0, in1) =>
         if Compares(opcode) then in0.size == in1.size
         else out.size == in0.size && (in0.size == in1.size || opcode in {INT_LEFT, INT_RIGHT})
       case _ => true
  }

  // --------------------------------------------------------------------------
  // Meaning

  datatype PState = PState(uniques: Memory, regs: Memory, mem: Memory)

  function Fetch(v: Varnode, end: Endness, st: PState): nat
  {
    match v.space
    case ConstSpace => v.offset
    case RegisterSpace => LoadValue(st.regs, v.offset, v.size, LE)
    case UniqueSpace => LoadValue(st.uniques, v.offset, v.size, LE)
    case RamSpace => LoadValue(st.mem, v.offset, v.size, end)
  }

  function Put(v: Varnode, value: nat, end: Endness, st: PState): PState
  {
    match v.space
    case ConstSpace => st
    case RegisterSpace => st.(regs := StoreValue(st.regs, v.offset, value, v.size, LE))
    case UniqueSpace => st.(uniques := StoreValue(st.uniques, v.offset, value, v.size, LE))
    case RamSpace => st.(mem := StoreValue(st.mem, v.offset, value, v.size, end))
  }

  function Truth(b: bool): nat { if b then 1 else 0 }

  function Calculate(opcode: Opcode, bits: nat, a: nat, b: nat): Option<nat>
  {
    match opcode
    case INT_ADD => Some(Wrap(a + b, bits))
    case INT_SUB => Some(Wrap(a - b, bits))
    case INT_MULT => Some(Wrap(a * b, bits))
    case INT_DIV => if b == 0 then None else Some(FloorDiv(a, b))
    case INT_AND => Some(OnAllBits(AndBits, a, b))
    case INT_OR => Some(OnAllBits(OrBits, a, b))
    case INT_XOR => Some(OnAllBits(XorBits, a, b))
    case INT_LEFT => Some(Wrap(ShiftLeft(a, b), bits))
    case INT_RIGHT => Some(ShiftRight(a, b))
    case INT_EQUAL => Some(Truth(a == b))
    case INT_NOTEQUAL => Some(Truth(a != b))
    case INT_LESS => Some(Truth(a < b))
    case INT_LESSEQUAL => Some(Truth(a <= b))
  }

  /** The value an op assigns; none when it divides by zero. */
  function OpValue(op: Op, end: Endness, st: PState): Option<nat>
    requires !op.IMARK? && !op.STORE?
  {
    match op
    case COPY(_, inp) => Some(Fetch(inp, end, st))
    case INT_ZEXT(_, inp) => Some(Fetch(inp, end, st))
    case INT_SEXT(out, inp) =>
      Some(if inp.size == 0 then 0 else Wrap(Signed(Fetch(inp, end, st), 8 * inp.size), 8 * out.size))
    case LOAD(space, out, addr) =>
      var a := Fetch(addr, end, st);
      Some(if space == RegisterSpace then LoadValue(st.regs, a, out.size, LE) else LoadValue(st.mem, a, out.size, end))
    case BINARY(opcode, _, in0, in1) => Calculate(opcode, 8 * in0.size, Fetch(in0, end, st), Fetch(in1, end, st))
  }

  function Exec(op: Op, end: Endness, st: PState): Option<PState>
  {
    match op
    case IMARK => Some(st)
    case STORE(space, addr, data) =>
      var a, v := Fetch(addr, end, st), Fetch(data, end, st);
      Some(if space == RegisterSpace then st.(regs := StoreValue(st.regs, a, v, data.size, LE))
           else st.(mem := StoreValue(st.mem, a, v, data.size, end)))
    case _ =>
      match OpValue(op, end, st)
      case Some(v) => Some(Put(op.out, v, end, st))
      case None => None
  }

  function Run(ops: seq<Op>, end: Endness, st: PState): Option<PState>
    decreases |ops|
  {
    if ops == [] then Some(st)
    else
      match Exec(ops[0], end, st)
      case Some(st') => Run(ops[1..], end, st')
      case None => None
  }

  lemma {:induction false} FetchInRange(v: Varnode, end: Endness, st: PState)
    requires v.size > 0 && (v.space == ConstSpace ==> v.offset < Pow2(8 * v.size))
    ensures Fetch(v, end, st) < Pow2(8 * v.size)
  {
    LoadInRange(st.regs, v.offset, v.size, LE);
    LoadInRange(st.uniques, v.offset, v.size, LE);
    LoadInRange(st.mem, v.offset, v.size, end);
  }

  lemma {:induction false} CalculateInRange(opcode: Opcode, bits: nat, a: nat, b: nat)
    requires a < Pow2(bits) && (b < Pow2(bits) || opcode in {INT_LEFT, INT_RIGHT}) && bits > 0
    ensures var r := Calculate(opcode, bits, a, b); r.Some? ==> r.value < Pow2(bits)
  {
    match opcode
    case INT_DIV => if b != 0 { DivShrinks(a, b); }
    case INT_AND => OnAllBitsInRange(AndBits, a, b, bits);
    case INT_OR => OnAllBitsInRange(OrBits, a, b, bits);
    case INT_XOR => OnAllBitsInRange(XorBits, a, b, bits);
    case INT_RIGHT => DivShrinks(a, Pow2(b));
    case _ =>
  }

  lemma {:induction false} OpValueInRange(op: Op, end: Endness, st: PState)
    requires Formed(op) && !op.IMARK? && !op.STORE?
    ensures var r := OpValue(op, end, st); r.Some? ==> r.value < Pow2(8 * op.out.size)
  {
    match op
    case COPY(_, inp) => FetchInRange(inp, end, st);
    case INT_ZEXT(out, inp) => FetchInRange(inp, end, st); Pow2Grows(8 * inp.size, 8 * out.size);
    case INT_SEXT(_, _) =>
    case LOAD(_, out, addr) =>
      LoadInRange(st.regs, Fetch(addr, end, st), out.size, LE);
      LoadInRange(st.mem, Fetch(addr, end, st), out.size, end);
    case BINARY(opcode, out, in0, in1) =>
      FetchInRange(in0, end, st);
      FetchInRange(in1, end, st);
      if Compares(opcode) {
        assert Pow2(1) == 2;
        Pow2Grows(1, 8 * out.size);
      } else {
        CalculateInRange(opcode, 8 * in0.size, Fetch(in0, end, st), Fetch(in1, end, st));
      }
  }
}

/** SimSlicer (angr/slicer.py): a forward pass that propagates a mocked stack
    pointer into temps, and a backward liveness pass that decides which
    statements of a block the targets depend on. */
module Slicer {
  import opened Wrappers
  import opened Vex

  /** What the slicer asks of the architecture. `bases` is `get_base_register`. */
  datatype Arch = Arch(bits: nat, spOffset: nat, bpOffset: nat, initialSp: nat, bases: map<nat, nat>)
  {
    function Base(reg: nat): nat { if reg in bases then bases[reg] else reg }

    predicate Valid() {
      Base(spOffset) == spOffset && Base(bpOffset) == bpOffset && spOffset != bpOffset
    }

    predicate IsMocked(reg: nat) { reg == spOffset || reg == bpOffset }

    function Mock(reg: nat): nat { if reg == spOffset then initialSp else initialSp + 0x2000 }
  }

  type Aliases = map<nat, int>

  // --------------------------------------------------------------------------
  // What the handlers compute

  function ForwardBinop(op: IrOp, a: int, b: int): Option<int>
  {
    if op.name == Add && op.fromBits == 64 then Some((a + b) % 0x1_0000_0000_0000_0000)
    else if op.name == Add && op.fromBits == 32 then Some((a + b) % 0x1_0000_0000)
    else None
  }

  /** `_forward_handler_expr`. */
  function ForwardExpr(arch: Arch, e: Expr, temps: Aliases): Option<int>
  {
    match e
    case Get(reg, _) => if arch.IsMocked(reg) then Some(arch.Mock(reg)) else None
    case RdTmp(t) => if t in temps then Some(temps[t]) else None
    case Const(v, _) => Some(v)
    case Binop(op, x, y) =>
      var a, b := ForwardExpr(arch, x, temps), ForwardExpr(arch, y, temps);
      if a.Some? && b.Some? then ForwardBinop(op, a.value, b.value) else None
    case _ => None
  }

  /** The aliases known after the first `n` statements. */
  function AliasesAfter(arch: Arch, stmts: seq<Stmt>, n: nat): Aliases
    requires n <= |stmts|
  {
    if n == 0 then map[] else ForwardStmt(arch, stmts[n - 1], AliasesAfter(arch, stmts, n - 1))
  }

  function ForwardStmt(arch: Arch, stmt: Stmt, temps: Aliases): Aliases
  {
    if stmt.WrTmp? && ForwardExpr(arch, stmt.data, temps).Some?
    then temps[stmt.tmp := ForwardExpr(arch, stmt.data, temps).value]
    else temps
  }

  /** The three sets of a `SimLightState` on the way back. */
  datatype Live = Live(temps: set<nat>, regs: set<nat>, cells: set<int>)
  {
    predicate IsEmpty() { temps == {} && regs == {} && cells == {} }
  }

  datatype Context = Context(arch: Arch, aliases: Aliases, includeImarks: bool)

  function BackwardAtom(e: Expr, live: Live): Live
  {
    if e.RdTmp? then live.(temps := live.temps + {e.tmp}) else live
  }

  function BackwardAtoms(es: seq<Expr>, live: Live): Live
  {
    if es == [] then live else BackwardAtoms(es[1..], BackwardAtom(es[0], live))
  }

  /** `_backward_handler_expr`. */
  function BackwardExpr(c: Context, e: Expr, live: Live): Live
  {
    match e
    case RdTmp(_) => BackwardAtom(e, live)
    case Get(reg, _) => live.(regs := live.regs + {c.arch.Base(reg)})
    case Load(addr, _, _) =>
      if addr.RdTmp? then
        var l := BackwardAtom(addr, live);
        if addr.tmp in c.aliases then l.(cells := l.cells + {c.aliases[addr.tmp]}) else l
      else live
    case Unop(_, x) => BackwardAtom(x, live)
    case Binop(_, x, y) => BackwardAtom(y, BackwardAtom(x, live))
    case CCall(_, args, _) => BackwardAtoms(args, live)
    case ITE(cond, t, f) => BackwardExpr(c, f, BackwardExpr(c, t, BackwardExpr(c, cond, live)))
    case Const(_, _) => live
  }

  /** `_backward_handler_stmt`: whether the statement is kept, and what is live before it. */
  function BackwardStmt(c: Context, stmt: Stmt, live: Live): (bool, Live)
  {
    match stmt
    case IMark(_, _) => (c.includeImarks, live)
    case WrTmp(t, data) =>
      if t in live.temps then (true, BackwardExpr(c, data, live.(temps := live.temps - {t})))
      else (false, live)
    case Put(offset, data) =>
      var reg := c.arch.Base(offset);
      if reg in live.regs then (true, BackwardExpr(c, data, live.(regs := live.regs - {reg})))
      else (false, live)
    case Store(addr, data, _) =>
      if addr.RdTmp? && addr.tmp in c.aliases && c.aliases[addr.tmp] in live.cells then
        var l := live.(cells := live.cells - {c.aliases[addr.tmp]});
        (true, BackwardExpr(c, data, BackwardExpr(c, addr, l)))
      else (false, live)
    case LoadG(dst, addr, guard, alt) =>
      if dst in live.temps then
        var l := live.(temps := live.temps - {dst});
        (true, BackwardExpr(c, alt, BackwardExpr(c, addr, BackwardExpr(c, guard, l))))
      else (false, live)
    case _ => (false, live)
  }

  /** The backward pass over the first `n` statements: the indices kept, in order, and the residue. */
  function SliceOf(c: Context, stmts: seq<Stmt>, n: nat, live: Live): (r: (seq<nat>, Live))
    requires n <= |stmts|
    ensures forall i :: i in r.0 ==> i < n
  {
    if n == 0 then ([], live)
    else
      var (keep, l) := BackwardStmt(c, stmts[n - 1], live);
      var here := if keep then [n - 1] else [];
      if l.IsEmpty() then (here, l)
      else
        var (kept, residue) := SliceOf(c, stmts, n - 1, l);
        (kept + here, residue)
  }

  /** What the pass still has to do, together with the indices it has kept so far. */
  function Remaining(c: Context, stmts: seq<Stmt>, n: nat, live: Live, kept: seq<nat>): (seq<nat>, Live)
    requires n <= |stmts|
  {
    var (before, residue) := SliceOf(c, stmts, n, live);
    (before + kept, residue)
  }

  lemma {:induction false} RemainingStep(c: Context, stmts: seq<Stmt>, n: nat, live: Live, kept: seq<nat>)
    requires n < |stmts|
    ensures var (keep, l) := BackwardStmt(c, stmts[n], live);
            var kept' := if keep then [n] + kept else kept;
            Remaining(c, stmts, n + 1, live, kept)
            == if l.IsEmpty() then (kept', l) else Remaining(c, stmts, n, l, kept')
  {
    var (keep, l) := BackwardStmt(c, stmts[n], live);
    var here, before := if keep then [n] else [], SliceOf(c, stmts, n, l).0;
    assert before + here + kept == before + (here + kept) && [] + kept == kept;
  }

  function Pick(stmts: seq<Stmt>, kept: seq<nat>): (r: seq<Stmt>)
    requires forall i :: i in kept ==> i < |stmts|
  {
    seq(|kept|, k requires 0 <= k < |kept| => assert kept[k] in kept; stmts[kept[k]])
  }

  lemma {:induction false} PickMore(stmts: seq<Stmt>, n: nat, kept: seq<nat>)
    requires n < |stmts| && forall i :: i in kept ==> i < |stmts|
    ensures (forall i :: i in [n] + kept ==> i < |stmts|) && Pick(stmts, [n] + kept) == [stmts[n]] + Pick(stmts, kept)
  {
  }

  // --------------------------------------------------------------------------
  // The classes of the source

  class SimLightState {
    var temps: set<nat>
    var regs: set<nat>
    var stackOffsets: set<int>

    constructor (temps: set<nat>, regs: set<nat>, stackOffsets: set<int>)
      ensures View() == Live(temps, regs, stackOffsets)
    {
      this.temps, this.regs, this.stackOffsets := temps, regs, stackOffsets;
    }

    function View(): Live
      reads this
    {
      Live(temps, regs, stackOffsets)
    }
  }

  class SimSlicer {
    const arch: Arch
    const statements: seq<Stmt>
    const includeImarks: bool
    const targets: Live
    var aliases: Aliases
    var stmts: seq<Stmt>
    var stmtIndices: seq<nat>
    var finalRegs: set<nat>
    var finalStackOffsets: set<int>

    /** `__init__` once the check on the targets has passed. */
    constructor (arch: Arch, statements: seq<Stmt>, tmps: set<nat>, regs: set<nat>, stackOffsets: set<int>,
                 includeImarks: bool)
      ensures this.arch == arch && this.statements == statements && this.includeImarks == includeImarks
      ensures targets == Live(tmps, set r | r in regs :: arch.Base(r), stackOffsets)
      ensures Sliced()
    {
      this.arch, this.statements, this.includeImarks := arch, statements, includeImarks;
      targets := Live(tmps, set r | r in regs :: arch.Base(r), stackOffsets);
      aliases, stmts, stmtIndices, finalRegs, finalStackOffsets := map[], [], [], {}, {};
      new;
      AliasAnalysis();
      Slice();
    }

    /** The attributes callers read agree with the two passes. */
    ghost predicate Sliced()
      reads this
    {
      && aliases == AliasesAfter(arch, statements, |statements|)
      && var (kept, residue) := SliceOf(Context(arch, aliases, includeImarks), statements, |statements|, targets);
         && stmtIndices == kept
         && stmts == Pick(statements, kept)
         && finalRegs == residue.regs
         && finalStackOffsets == residue.cells
    }

    method AliasAnalysis()
      modifies this`aliases
      ensures aliases == AliasesAfter(arch, statements, |statements|)
    {
      aliases := map[];
      var temps: Aliases := map[];
      for i := 0 to |statements|
        invariant temps == aliases == AliasesAfter(arch, statements, i)
      {
        var stmt := statements[i];
        if stmt.WrTmp? {
          var val := ForwardExpr(arch, stmt.data, temps);
          if val.Some? {
            temps := temps[stmt.tmp := val.value];
            aliases := aliases[stmt.tmp := val.value];
          }
        }
      }
    }

    method Slice()
      modifies this`stmts, this`stmtIndices, this`finalRegs, this`finalStackOffsets
      requires aliases == AliasesAfter(arch, statements, |statements|)
      ensures Sliced()
    {
      var state := new SimLightState(targets.temps, targets.regs, targets.cells);
      stmts, stmtIndices := [], [];
      ghost var c := Context(arch, aliases, includeImarks);
      ghost var whole := SliceOf(c, statements, |statements|, targets);
      assert whole.0 + [] == whole.0;
      var n := |statements|;
      while n > 0
        modifies state, this`stmts, this`stmtIndices
        invariant 0 <= n <= |statements|
        invariant forall k :: k in stmtIndices ==> k < |statements|
        invariant stmts == Pick(statements, stmtIndices)
        invariant whole == Remaining(c, statements, n, state.View(), stmtIndices)
      {
        n := n - 1;
        RemainingStep(c, statements, n, state.View(), stmtIndices);
        var inSlice := BackwardHandlerStmt(statements[n], state);
        if inSlice {
          PickMore(statements, n, stmtIndices);
          stmts := [statements[n]] + stmts;
          stmtIndices := [n] + stmtIndices;
        }
        if state.temps == {} && state.regs == {} && state.stackOffsets == {} {
          assert whole == (stmtIndices, state.View());
          break;
        }
      }
      assert [] + stmtIndices == stmtIndices;
      assert whole == (stmtIndices, state.View());
      finalRegs, finalStackOffsets := state.regs, state.stackOffsets;
    }

    method BackwardHandlerStmt(stmt: Stmt, state: SimLightState) returns (inSlice: bool)
      modifies state
      ensures (inSlice, state.View()) == BackwardStmt(Context(arch, aliases, includeImarks), stmt, old(state.View()))
    {
      inSlice := false;
      match stmt
      case IMark(_, _) => inSlice := includeImarks;
      case WrTmp(t, data) =>
        if t in state.temps {
          state.temps := state.temps - {t};
          BackwardHandlerExpr(data, state);
          inSlice := true;
        }
      case Put(offset, data) =>
        var reg := arch.Base(offset);
        if reg in state.regs {
          state.regs := state.regs - {reg};
          BackwardHandlerExpr(data, state);
          inSlice := true;
        }
      case Store(addr, data, _) =>
        if addr.RdTmp? && addr.tmp in aliases {
          var concrete := aliases[addr.tmp];
          if concrete in state.stackOffsets {
            state.stackOffsets := state.stackOffsets - {concrete};
            BackwardHandlerExpr(addr, state);
            BackwardHandlerExpr(data, state);
            inSlice := true;
          }
        }
      case LoadG(dst, addr, guard, alt) =>
        if dst in state.temps {
          state.temps := state.temps - {dst};
          BackwardHandlerExpr(guard, state);
          BackwardHandlerExpr(addr, state);
          BackwardHandlerExpr(alt, state);
          inSlice := true;
        }
      case _ =>
    }

    method BackwardHandlerExpr(e: Expr, state: SimLightState)
      modifies state
      ensures state.View() == BackwardExpr(Context(arch, aliases, includeImarks), e, old(state.View()))
      decreases e
    {
      match e
      case RdTmp(t) => state.temps := state.temps + {t};
      case Get(reg, _) => state.regs := state.regs + {arch.Base(reg)};
      case Load(addr, _, _) =>
        if addr.RdTmp? {
          BackwardHandlerExpr(addr, state);
          if addr.tmp in aliases {
            state.stackOffsets := state.stackOffsets + {aliases[addr.tmp]};
          }
        }
      case Unop(_, x) => if x.RdTmp? { BackwardHandlerExpr(x, state); }
      case Binop(_, x, y) =>
        if x.RdTmp? { BackwardHandlerExpr(x, state); }
        if y.RdTmp? { BackwardHandlerExpr(y, state); }
      case CCall(_, args, _) =>
        ghost var before := state.View();
        for i := 0 to |args|
          invariant BackwardAtoms(args[i..], state.View()) == BackwardAtoms(args, before)
        {
          if args[i].RdTmp? { BackwardHandlerExpr(args[i], state); }
          assert args[i..][1..] == args[i + 1..];
        }
      case ITE(cond, t, f) =>
        BackwardHandlerExpr(cond, state);
        BackwardHandlerExpr(t, state);
        BackwardHandlerExpr(f, state);
      case Const(_, _) =>
    }
  }

  /** `SimSlicer(...)`: a `SimSlicerError` when no target is given. */
  method MakeSlicer(arch: Arch, statements: seq<Stmt>, tmps: set<nat>, regs: set<nat>, stackOffsets: set<int>,
                    includeImarks: bool)
    returns (slicer: SimSlicer?)
    ensures slicer == null <==> tmps == {} && regs == {} && stackOffsets == {}
    ensures slicer != null ==>
      && slicer.Sliced() && slicer.arch == arch && slicer.statements == statements
      && slicer.includeImarks == includeImarks
      && slicer.targets == Live(tmps, set r | r in regs :: arch.Base(r), stackOffsets)
  {
    if tmps == {} && regs == {} && stackOffsets == {} { return null; }
    slicer := new SimSlicer(arch, statements, tmps, regs, stackOffsets, includeImarks);
  }
}

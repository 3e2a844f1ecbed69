/** Non-interference of SimSlicer: running only the kept statements leaves the
    targets as the whole block does. */
module SliceSoundness {
  import MachineState
  import Wrappers
  import opened Vex
  import opened BitVec
  import opened Slicer

  /** A meaning for the operations the slicer does not interpret; the theorems hold for all of them. */
  datatype Sem = Sem(
    unop: (IrOp, int) -> int,
    binop: (IrOp, int, int) -> int,
    ccall: (string, seq<int>) -> int,
    sub: (nat, nat, int) -> int,          // offset, width, base register: a partial read
    merge: (nat, nat, int, int) -> int)   // offset, width, base register, new part: a partial write

  datatype Machine = Machine(temps: map<nat, int>, regs: map<nat, int>, cells: map<int, int>)
  {
    function Temp(t: nat): int { if t in temps then temps[t] else 0 }
    function Reg(r: nat): int { if r in regs then regs[r] else 0 }
    function Cell(a: int): int { if a in cells then cells[a] else 0 }

    /** Temps are local to a block. */
    function Entering(): Machine { this.(temps := map[]) }
  }

  datatype Target = Target(sem: Sem, arch: Arch, tyenv: TyEnv)

  predicate FullWidth(arch: Arch, offset: nat, bits: nat) { arch.Base(offset) == offset && bits == arch.bits }

  function Eval(x: Target, e: Expr, m: Machine): int
  {
    match e
    case RdTmp(t) => m.Temp(t)
    case Const(v, _) => v
    case Get(r, bits) =>
      var base := m.Reg(x.arch.Base(r));
      if FullWidth(x.arch, r, bits) then base else x.sem.sub(r, bits, base)
    case Load(addr, _, _) => m.Cell(Eval(x, addr, m))
    case Unop(op, a) => x.sem.unop(op, Eval(x, a, m))
    case Binop(op, a, b) =>
      var u, v := Eval(x, a, m), Eval(x, b, m);
      if op.name == Add then (u + v) % Pow2(op.fromBits) else x.sem.binop(op, u, v)
    case CCall(f, args, _) => x.sem.ccall(f, EvalAll(x, args, m))
    case ITE(c, t, f) => if Eval(x, c, m) != 0 then Eval(x, t, m) else Eval(x, f, m)
  }

  function EvalAll(x: Target, es: seq<Expr>, m: Machine): seq<int>
  {
    if es == [] then [] else [Eval(x, es[0], m)] + EvalAll(x, es[1..], m)
  }

  /** One statement on the path that falls through every exit. */
  function Exec(x: Target, stmt: Stmt, m: Machine): Machine
  {
    match stmt
    case WrTmp(t, data) => m.(temps := m.temps[t := Eval(x, data, m)])
    case Put(r, data) =>
      var base, v, bits := x.arch.Base(r), Eval(x, data, m), Bits(data, x.tyenv);
      m.(regs := m.regs[base := if FullWidth(x.arch, r, bits) then v else x.sem.merge(r, bits, m.Reg(base), v)])
    case Store(addr, data, _) => m.(cells := m.cells[Eval(x, addr, m) := Eval(x, data, m)])
    case LoadG(dst, addr, guard, alt) =>
      m.(temps := m.temps[dst := if Eval(x, guard, m) != 0 then m.Cell(Eval(x, addr, m)) else Eval(x, alt, m)])
    case _ => m
  }

  function Run(x: Target, stmts: seq<Stmt>, m: Machine): Machine
  {
    if stmts == [] then m else Exec(x, stmts[|stmts| - 1], Run(x, stmts[..|stmts| - 1], m))
  }

  predicate Agree(live: Live, a: Machine, b: Machine)
  {
    && (forall t :: t in live.temps ==> a.Temp(t) == b.Temp(t))
    && (forall r :: r in live.regs ==> a.Reg(r) == b.Reg(r))
    && (forall k :: k in live.cells ==> a.Cell(k) == b.Cell(k))
  }

  // --------------------------------------------------------------------------
  // What the slicer needs of the block

  function TempsRead(e: Expr): set<nat>
  {
    match e
    case RdTmp(t) => {t}
    case Load(a, _, _) => TempsRead(a)
    case Unop(_, a) => TempsRead(a)
    case Binop(_, a, b) => TempsRead(a) + TempsRead(b)
    case CCall(_, args, _) => TempsReadAll(args)
    case ITE(c, t, f) => TempsRead(c) + TempsRead(t) + TempsRead(f)
    case _ => {}
  }

  function TempsReadAll(es: seq<Expr>): set<nat>
  {
    if es == [] then {} else TempsRead(es[0]) + TempsReadAll(es[1..])
  }

  function Reads(stmt: Stmt): set<nat>
  {
    match stmt
    case WrTmp(_, data) => TempsRead(data)
    case Put(_, data) => TempsRead(data)
    case Store(addr, data, _) => TempsRead(addr) + TempsRead(data)
    case LoadG(_, addr, guard, alt) => TempsRead(addr) + TempsRead(guard) + TempsRead(alt)
    case Exit(guard, _, _) => TempsRead(guard)
    case _ => {}
  }

  predicate Assigns(stmt: Stmt, t: nat) { (stmt.WrTmp? && stmt.tmp == t) || (stmt.LoadG? && stmt.dst == t) }

  /** VEX temps: assigned once, and never read at or before their assignment. */
  ghost predicate SingleAssignment(stmts: seq<Stmt>)
  {
    forall i, j, t :: 0 <= i < |stmts| && 0 <= j < |stmts| && Assigns(stmts[i], t) ==>
      && (Assigns(stmts[j], t) ==> i == j)
      && (t in Reads(stmts[j]) ==> i < j)
  }

  /** Reads of sp and bp that the forward pass follows are of the whole register. */
  predicate WholeMocks(arch: Arch, e: Expr)
  {
    match e
    case Get(r, bits) => arch.IsMocked(r) ==> bits == arch.bits
    case Binop(_, a, b) => WholeMocks(arch, a) && WholeMocks(arch, b)
    case _ => true
  }

  /** The forward pass never sees sp or bp change, so they must not. */
  ghost predicate MocksKept(arch: Arch, stmts: seq<Stmt>)
  {
    forall i :: 0 <= i < |stmts| ==>
      && (stmts[i].Put? ==> !arch.IsMocked(arch.Base(stmts[i].offset)))
      && (stmts[i].WrTmp? ==> WholeMocks(arch, stmts[i].data))
  }

  /** The backward handler sees every dependence of the expression, when these cells are live anyway. */
  predicate Tracked(aliases: Aliases, cells: set<int>, e: Expr)
  {
    match e
    case Load(a, _, _) => (a.RdTmp? && a.tmp in aliases) || (a.Const? && a.value in cells)
    case Unop(_, a) => IsAtom(a)
    case Binop(_, a, b) => IsAtom(a) && IsAtom(b)
    case CCall(_, args, _) => forall i :: 0 <= i < |args| ==> IsAtom(args[i])
    case ITE(c, t, f) => Tracked(aliases, cells, c) && Tracked(aliases, cells, t) && Tracked(aliases, cells, f)
    case _ => true
  }

  lemma {:induction false} TrackedMore(aliases: Aliases, cells: set<int>, cells': set<int>, e: Expr)
    requires Tracked(aliases, cells, e) && cells <= cells'
    ensures Tracked(aliases, cells', e)
  {
    if e.ITE? {
      TrackedMore(aliases, cells, cells', e.cond);
      TrackedMore(aliases, cells, cells', e.iftrue);
      TrackedMore(aliases, cells, cells', e.iffalse);
    }
  }

  /** What the forward pass knows of an atom's value. */
  function Known(aliases: Aliases, e: Expr): Wrappers.Option<int>
  {
    if e.Const? then Wrappers.Some(e.value)
    else if e.RdTmp? && e.tmp in aliases then Wrappers.Some(aliases[e.tmp])
    else Wrappers.None
  }

  /** A guarded load is never done, or loads a cell that is live anyway. */
  predicate LoadTracked(aliases: Aliases, cells: set<int>, addr: Expr, guard: Expr, alt: Expr)
  {
    && IsAtom(addr) && IsAtom(guard) && IsAtom(alt)
    && (Known(aliases,
              guard) == Wrappers.Some(0) || (Known(aliases, addr).Some? && Known(aliases, addr).value in cells))
  }

  /** What a statement must satisfy given what is live after it. A kept register write is of a whole
      base register; while a cell is live, a store is to another constant address or through an aliased temp;
      a kept guarded load is never done or of a live cell. */
  predicate StmtTracked(c: Context, tyenv: TyEnv, stmt: Stmt, live: Live)
  {
    match stmt
    case WrTmp(t, data) => t in live.temps ==> Tracked(c.aliases, live.cells, data)
    case Put(r, data) =>
      c.arch.Base(r) in live.regs ==> FullWidth(c.arch, r, Bits(data, tyenv)) && Tracked(c.aliases, live.cells, data)
    case Store(addr, data, _) =>
      live.cells != {} ==>
        || (addr.Const? && addr.value !in live.cells)
        || (&& addr.RdTmp? && addr.tmp in c.aliases
            && (c.aliases[addr.tmp] in live.cells ==>
                  Tracked(c.aliases, live.cells - {c.aliases[addr.tmp]}, data)))
    case LoadG(dst, addr, guard, alt) => dst in live.temps ==> LoadTracked(c.aliases, live.cells, addr, guard, alt)
    case _ => true
  }

  /** `StmtTracked` at every statement the backward pass visits. */
  predicate AllTracked(c: Context, tyenv: TyEnv, stmts: seq<Stmt>, n: nat, live: Live)
    requires n <= |stmts|
  {
    n == 0 ||
    (&& StmtTracked(c, tyenv, stmts[n - 1], live)
     && var l := BackwardStmt(c, stmts[n - 1], live).1;
        l.IsEmpty() || AllTracked(c, tyenv, stmts, n - 1, l))
  }

  // --------------------------------------------------------------------------
  // The forward pass finds concrete values

  predicate Mocked(arch: Arch, m: Machine)
  {
    m.Reg(arch.spOffset) == arch.initialSp && m.Reg(arch.bpOffset) == arch.initialSp + 0x2000
  }

  predicate Holds(aliases: Aliases, m: Machine)
  {
    forall t :: t in aliases ==> m.Temp(t) == aliases[t]
  }

  lemma {:induction false} ForwardExprIsValue(x: Target, e: Expr, temps: Aliases, m: Machine)
    requires x.arch.Valid() && Mocked(x.arch, m) && Holds(temps, m) && WholeMocks(x.arch, e)
    requires ForwardExpr(x.arch, e, temps).Some?
    ensures Eval(x, e, m) == ForwardExpr(x.arch, e, temps).value
  {
    if e.Binop? {
      ForwardExprIsValue(x, e.arg0, temps, m);
      ForwardExprIsValue(x, e.arg1, temps, m);
      Pow2WordSizes();
    }
  }

  /** Every alias is the value its temp has, at every point of the block. */
  lemma {:induction false} AliasesHold(x: Target, stmts: seq<Stmt>, n: nat, m: Machine)
    requires n <= |stmts| && x.arch.Valid() && Mocked(x.arch, m)
    requires SingleAssignment(stmts) && MocksKept(x.arch, stmts)
    ensures Mocked(x.arch, Run(x, stmts[..n], m.Entering()))
    ensures Holds(AliasesAfter(x.arch, stmts, n), Run(x, stmts[..n], m.Entering()))
    ensures forall t :: t in AliasesAfter(x.arch, stmts, n) ==> exists i :: 0 <= i < n && Assigns(stmts[i], t)
  {
    if n > 0 {
      AliasesHold(x, stmts, n - 1, m);
      assert stmts[..n][..n - 1] == stmts[..n - 1];
      var stmt, before, temps := stmts[n - 1], Run(x, stmts[..n - 1], m.Entering()), AliasesAfter(x.arch, stmts, n - 1);
      if stmt.WrTmp? && ForwardExpr(x.arch, stmt.data, temps).Some? {
        ForwardExprIsValue(x, stmt.data, temps, before);
        assert Assigns(stmts[n - 1], stmt.tmp);
      }
    }
  }

  lemma {:induction false} AliasesGrow(arch: Arch, stmts: seq<Stmt>, n: nat, t: nat)
    requires n <= |stmts| && SingleAssignment(stmts)
    requires t in AliasesAfter(arch, stmts, |stmts|)
    requires forall i :: n <= i < |stmts| ==> !Assigns(stmts[i], t)
    ensures t in AliasesAfter(arch, stmts, n)
    ensures AliasesAfter(arch, stmts, n)[t] == AliasesAfter(arch, stmts, |stmts|)[t]
    decreases |stmts| - n
  {
    if n < |stmts| { AliasesGrow(arch, stmts, n + 1, t); }
  }

  /** The final aliases are right for every temp a statement reads. */
  lemma {:induction false} AliasesHoldAt(x: Target, stmts: seq<Stmt>, n: nat, m: Machine)
    requires n < |stmts| && x.arch.Valid() && Mocked(x.arch, m)
    requires SingleAssignment(stmts) && MocksKept(x.arch, stmts)
    ensures forall t :: t in Reads(stmts[n]) && t in AliasesAfter(x.arch, stmts, |stmts|) ==>
              Run(x, stmts[..n], m.Entering()).Temp(t) == AliasesAfter(x.arch, stmts, |stmts|)[t]
  {
    AliasesHold(x, stmts, n, m);
    forall t | t in Reads(stmts[n]) && t in AliasesAfter(x.arch, stmts, |stmts|)
      ensures Run(x, stmts[..n], m.Entering()).Temp(t) == AliasesAfter(x.arch, stmts, |stmts|)[t]
    {
      AliasesGrow(x.arch, stmts, n, t);
    }
  }

  // --------------------------------------------------------------------------
  // The backward pass is non-interfering

  predicate Subset(a: Live, b: Live) { a.temps <= b.temps && a.regs <= b.regs && a.cells <= b.cells }

  lemma {:induction false} BackwardAtomsGrow(es: seq<Expr>, live: Live)
    ensures Subset(live, BackwardAtoms(es, live))
    ensures forall i :: 0 <= i < |es| && es[i].RdTmp? ==> es[i].tmp in BackwardAtoms(es, live).temps
  {
    if es != [] { BackwardAtomsGrow(es[1..], BackwardAtom(es[0], live)); }
  }

  lemma {:induction false} BackwardExprGrows(c: Context, e: Expr, live: Live)
    ensures Subset(live, BackwardExpr(c, e, live))
  {
    match e
    case CCall(_, args, _) => BackwardAtomsGrow(args, live);
    case ITE(cond, t, f) =>
      BackwardExprGrows(c, cond, live);
      BackwardExprGrows(c, t, BackwardExpr(c, cond, live));
      BackwardExprGrows(c, f, BackwardExpr(c, t, BackwardExpr(c, cond, live)));
    case _ =>
  }

  lemma {:induction false} EvalAllAtomsAgree(x: Target, es: seq<Expr>, a: Machine, b: Machine)
    requires forall i :: 0 <= i < |es| ==> IsAtom(es[i]) && (es[i].RdTmp? ==> a.Temp(es[i].tmp) == b.Temp(es[i].tmp))
    ensures EvalAll(x, es, a) == EvalAll(x, es, b)
  {
    if es != [] { EvalAllAtomsAgree(x, es[1..], a, b); }
  }

  /** Machines that agree on what the handler marks live evaluate the expression alike. */
  lemma {:induction false} EvalAgrees(x: Target, c: Context, e: Expr, live: Live, a: Machine, b: Machine)
    requires c.arch == x.arch && Tracked(c.aliases, live.cells, e)
    requires forall t :: t in TempsRead(e) && t in c.aliases ==> a.Temp(t) == c.aliases[t]
    requires Agree(BackwardExpr(c, e, live), a, b)
    ensures Eval(x, e, a) == Eval(x, e, b)
  {
    match e
    case CCall(_, args, _) =>
      BackwardAtomsGrow(args, live);
      EvalAllAtomsAgree(x, args, a, b);
    case ITE(cond, t, f) =>
      var l1 := BackwardExpr(c, cond, live);
      var l2 := BackwardExpr(c, t, l1);
      BackwardExprGrows(c, cond, live);
      BackwardExprGrows(c, t, l1);
      BackwardExprGrows(c, f, l2);
      TrackedMore(c.aliases, live.cells, l1.cells, t);
      TrackedMore(c.aliases, live.cells, l2.cells, f);
      EvalAgrees(x, c, cond, live, a, b);
      EvalAgrees(x, c, t, l1, a, b);
      EvalAgrees(x, c, f, l2, a, b);
    case Load(addr, _, _) =>
      if addr.RdTmp? && addr.tmp in c.aliases {
        assert addr.tmp in TempsRead(e);
        assert c.aliases[addr.tmp] in BackwardExpr(c, e, live).cells;
      } else {
        assert addr.value in BackwardExpr(c, e, live).cells;
      }
    case Binop(_, p, q) =>
      assert Eval(x, p, a) == Eval(x, p, b) && Eval(x, q, a) == Eval(x, q, b);
    case _ =>
  }

  lemma {:induction false} WrTmpAgrees(x: Target, c: Context, t: nat, data: Expr, live: Live, a: Machine, b: Machine)
    requires c.arch == x.arch && t in live.temps && Tracked(c.aliases, live.cells, data)
    requires forall u :: u in TempsRead(data) && u in c.aliases ==> a.Temp(u) == c.aliases[u]
    requires Agree(BackwardExpr(c, data, live.(temps := live.temps - {t})), a, b)
    ensures Agree(live, Exec(x, WrTmp(t, data), a), Exec(x, WrTmp(t, data), b))
  {
    var l := live.(temps := live.temps - {t});
    BackwardExprGrows(c, data, l);
    EvalAgrees(x, c, data, l, a, b);
    assert forall u :: u in live.temps ==> u == t || u in l.temps;
  }

  lemma {:induction false} PutAgrees(x: Target, c: Context, r: nat, data: Expr, live: Live, a: Machine, b: Machine)
    requires c.arch == x.arch && c.arch.Base(r) in live.regs && Tracked(c.aliases, live.cells, data)
    requires FullWidth(c.arch, r, Bits(data, x.tyenv))
    requires forall u :: u in TempsRead(data) && u in c.aliases ==> a.Temp(u) == c.aliases[u]
    requires Agree(BackwardExpr(c, data, live.(regs := live.regs - {c.arch.Base(r)})), a, b)
    ensures Agree(live, Exec(x, Put(r, data), a), Exec(x, Put(r, data), b))
  {
    var l := live.(regs := live.regs - {c.arch.Base(r)});
    BackwardExprGrows(c, data, l);
    EvalAgrees(x, c, data, l, a, b);
    assert forall u :: u in live.regs ==> u == c.arch.Base(r) || u in l.regs;
  }

  lemma {:induction false} StoreAgrees(x: Target, c: Context, addr: Expr, data: Expr, end: MachineState.Endness,
                                       live: Live, a: Machine, b: Machine)
    requires c.arch == x.arch && addr.RdTmp? && addr.tmp in c.aliases
    requires Tracked(c.aliases, live.cells - {c.aliases[addr.tmp]}, data)
    requires a.Temp(addr.tmp) == c.aliases[addr.tmp] && c.aliases[addr.tmp] in live.cells
    requires forall u :: u in TempsRead(data) && u in c.aliases ==> a.Temp(u) == c.aliases[u]
    requires var l := live.(cells := live.cells - {c.aliases[addr.tmp]});
             Agree(BackwardExpr(c, data, BackwardExpr(c, addr, l)), a, b)
    ensures Agree(live, Exec(x, Store(addr, data, end), a), Exec(x, Store(addr, data, end), b))
  {
    var l := live.(cells := live.cells - {c.aliases[addr.tmp]});
    var l' := BackwardAtom(addr, l);
    assert BackwardExpr(c, addr, l) == l' && l'.cells == l.cells;
    BackwardExprGrows(c, data, l');
    EvalAgrees(x, c, data, BackwardExpr(c, addr, l), a, b);
    assert forall u :: u in live.cells ==> u == c.aliases[addr.tmp] || u in l.cells;
  }

  lemma {:induction false} AtomAgrees(x: Target, e: Expr, live: Live, a: Machine, b: Machine)
    requires IsAtom(e) && (e.RdTmp? ==> e.tmp in live.temps) && Agree(live, a, b)
    ensures Eval(x, e, a) == Eval(x, e, b)
  {
  }

  lemma {:induction false} GuardedLoadAgrees(x: Target, c: Context, stmt: Stmt, live: Live, a: Machine, b: Machine)
    requires c.arch == x.arch && stmt.LoadG? && stmt.dst in live.temps
    requires LoadTracked(c.aliases, live.cells, stmt.laddr, stmt.guard, stmt.alt)
    requires forall u :: u in Reads(stmt) && u in c.aliases ==> a.Temp(u) == c.aliases[u]
    requires Agree(BackwardStmt(c, stmt, live).1, a, b)
    ensures Agree(live, Exec(x, stmt, a), Exec(x, stmt, b))
  {
    var l := live.(temps := live.temps - {stmt.dst});
    var before := BackwardAtom(stmt.alt, BackwardAtom(stmt.laddr, BackwardAtom(stmt.guard, l)));
    assert BackwardStmt(c, stmt, live).1 == before;
    LoadedAgrees(x, c.aliases, stmt, before, a, b);
    TempAgrees(live, stmt.dst, Loaded(x, stmt, a), a, b);
  }

  function Loaded(x: Target, stmt: Stmt, m: Machine): int
    requires stmt.LoadG?
  {
    if Eval(x, stmt.guard, m) != 0 then m.Cell(Eval(x, stmt.laddr, m)) else Eval(x, stmt.alt, m)
  }

  lemma {:induction false} LoadedAgrees(x: Target, aliases: Aliases, stmt: Stmt, live: Live, a: Machine, b: Machine)
    requires stmt.LoadG? && LoadTracked(aliases, live.cells, stmt.laddr, stmt.guard, stmt.alt) && Agree(live, a, b)
    requires forall u :: u in Reads(stmt) ==> u in live.temps && (u in aliases ==> a.Temp(u) == aliases[u])
    ensures Loaded(x, stmt, a) == Loaded(x, stmt, b)
  {
    AtomAgrees(x, stmt.guard, live, a, b);
    AtomAgrees(x, stmt.laddr, live, a, b);
    AtomAgrees(x, stmt.alt, live, a, b);
  }

  lemma {:induction false} TempAgrees(live: Live, t: nat, v: int, a: Machine, b: Machine)
    requires Agree(live.(temps := live.temps - {t}), a, b)
    ensures Agree(live, a.(temps := a.temps[t := v]), b.(temps := b.temps[t := v]))
  {
    assert forall u :: u in live.temps ==> u == t || u in live.temps - {t};
  }

  lemma {:induction false} StepAgrees(x: Target, c: Context, stmt: Stmt, live: Live, a: Machine, b: Machine)
    requires c.arch == x.arch && StmtTracked(c, x.tyenv, stmt, live)
    requires forall t :: t in Reads(stmt) && t in c.aliases ==> a.Temp(t) == c.aliases[t]
    requires Agree(BackwardStmt(c, stmt, live).1, a, b)
    ensures Agree(live, Exec(x, stmt, a), if BackwardStmt(c, stmt, live).0 then Exec(x, stmt, b) else b)
  {
    if BackwardStmt(c, stmt, live).0 {
      match stmt
      case WrTmp(t, data) => WrTmpAgrees(x, c, t, data, live, a, b);
      case Put(r, data) => PutAgrees(x, c, r, data, live, a, b);
      case Store(addr, data, end) => StoreAgrees(x, c, addr, data, end, live, a, b);
      case LoadG(_, _, _, _) => GuardedLoadAgrees(x, c, stmt, live, a, b);
      case IMark(_, _) =>
    }
  }

  lemma {:induction false} PrefixAgrees(x: Target, c: Context, stmts: seq<Stmt>, n: nat, live: Live, m: Machine,
                                        b: Machine)
    requires n <= |stmts| && x.arch.Valid() && Mocked(x.arch, m)
    requires SingleAssignment(stmts) && MocksKept(x.arch, stmts)
    requires c.arch == x.arch && c.aliases == AliasesAfter(x.arch, stmts, |stmts|)
    requires AllTracked(c, x.tyenv, stmts, n, live)
    requires Agree(SliceOf(c, stmts, n, live).1, m.Entering(), b)
    ensures Agree(live, Run(x, stmts[..n], m.Entering()), Run(x, Pick(stmts, SliceOf(c, stmts, n, live).0), b))
  {
    if n > 0 {
      var stmt := stmts[n - 1];
      var (keep, l) := BackwardStmt(c, stmt, live);
      var here := if keep then [n - 1] else [];
      var before := Run(x, stmts[..n - 1], m.Entering());
      assert stmts[..n][..n - 1] == stmts[..n - 1];
      var kept := if l.IsEmpty() then [] else SliceOf(c, stmts, n - 1, l).0;
      if !l.IsEmpty() { PrefixAgrees(x, c, stmts, n - 1, l, m, b); }
      var b' := Run(x, Pick(stmts, kept), b);
      assert Agree(l, before, b');
      AliasesHoldAt(x, stmts, n - 1, m);
      StepAgrees(x, c, stmt, live, before, b');
      assert kept + here == SliceOf(c, stmts, n, live).0;
      if keep {
        var picked := Pick(stmts, kept + here);
        assert picked[..|picked| - 1] == Pick(stmts, kept);
      } else {
        assert kept + here == kept;
      }
    }
  }

  function ContextOf(x: Target, stmts: seq<Stmt>, imarks: bool): Context
  {
    Context(x.arch, AliasesAfter(x.arch, stmts, |stmts|), imarks)
  }

  /** The two start machines agree on `final_regs` and `final_stack_offsets`. */
  predicate ResidueAgrees(x: Target, stmts: seq<Stmt>, imarks: bool, targets: Live, m1: Machine, m2: Machine)
  {
    var residue := SliceOf(ContextOf(x, stmts, imarks), stmts, |stmts|, targets).1;
    Agree(Live({}, residue.regs, residue.cells), m1, m2)
  }

  /** The whole block and the kept statements alone leave the targets equal. */
  predicate TargetsAgree(x: Target, stmts: seq<Stmt>, imarks: bool, targets: Live, m1: Machine, m2: Machine)
  {
    var kept := SliceOf(ContextOf(x, stmts, imarks), stmts, |stmts|, targets).0;
    Agree(targets, Run(x, stmts, m1.Entering()), Run(x, Pick(stmts, kept), m2.Entering()))
  }

  /** Slice soundness. From two machines that agree on `final_regs` and `final_stack_offsets`, the first
      with sp and bp at the mocked values, the whole block and the kept statements alone leave every
      target temp, register and stack cell equal. */
  lemma {:induction false} SliceSound(x: Target, stmts: seq<Stmt>, imarks: bool, targets: Live, m1: Machine,
                                      m2: Machine)
    requires x.arch.Valid() && Mocked(x.arch, m1)
    requires SingleAssignment(stmts) && MocksKept(x.arch, stmts)
    requires AllTracked(ContextOf(x, stmts, imarks), x.tyenv, stmts, |stmts|, targets)
    requires ResidueAgrees(x, stmts, imarks, targets, m1, m2)
    ensures TargetsAgree(x, stmts, imarks, targets, m1, m2)
  {
    assert stmts[..|stmts|] == stmts;
    PrefixAgrees(x, ContextOf(x, stmts, imarks), stmts, |stmts|, targets, m1, m2.Entering());
  }

  /** The same, for what a slicer object holds once it is constructed. */
  lemma {:induction false} SlicerSound(x: Target, slicer: SimSlicer, m1: Machine, m2: Machine)
    requires slicer.Sliced() && slicer.arch == x.arch && x.arch.Valid() && Mocked(x.arch, m1)
    requires SingleAssignment(slicer.statements) && MocksKept(x.arch, slicer.statements)
    requires AllTracked(ContextOf(x, slicer.statements, slicer.includeImarks), x.tyenv, slicer.statements,
                        |slicer.statements|, slicer.targets)
    requires Agree(Live({}, slicer.finalRegs, slicer.finalStackOffsets), m1, m2)
    ensures Agree(slicer.targets, Run(x, slicer.statements, m1.Entering()), Run(x, slicer.stmts, m2.Entering()))
  {
    SliceSound(x, slicer.statements, slicer.includeImarks, slicer.targets, m1, m2);
  }

  // --------------------------------------------------------------------------
  // Paths of blocks

  ghost predicate BlockFit(x: Target, stmts: seq<Stmt>, imarks: bool, targets: Live)
  {
    && SingleAssignment(stmts) && MocksKept(x.arch, stmts)
    && AllTracked(ContextOf(x, stmts, imarks), x.tyenv, stmts, |stmts|, targets)
  }

  /** What is looked for before a path of blocks: what each block leaves is sliced for in the one before it. */
  function Residue(x: Target, path: seq<seq<Stmt>>, imarks: bool, targets: Live): Live
  {
    if path == [] then targets
    else
      var after := Residue(x, path[1..], imarks, targets);
      var residue := SliceOf(ContextOf(x, path[0], imarks), path[0], |path[0]|, after).1;
      Live({}, residue.regs, residue.cells)
  }

  /** The kept statements of every block. */
  function SlicedPath(x: Target, path: seq<seq<Stmt>>, imarks: bool, targets: Live): seq<seq<Stmt>>
  {
    if path == [] then []
    else
      var after := Residue(x, path[1..], imarks, targets);
      var kept := SliceOf(ContextOf(x, path[0], imarks), path[0], |path[0]|, after).0;
      [Pick(path[0], kept)] + SlicedPath(x, path[1..], imarks, targets)
  }

  function RunPath(x: Target, path: seq<seq<Stmt>>, m: Machine): Machine
    decreases |path|
  {
    if path == [] then m else RunPath(x, path[1..], Run(x, path[0], m.Entering()))
  }

  ghost predicate PathFit(x: Target, path: seq<seq<Stmt>>, imarks: bool, targets: Live)
  {
    path == [] ||
    (&& BlockFit(x, path[0], imarks, Residue(x, path[1..], imarks, targets))
     && PathFit(x, path[1..], imarks, targets))
  }

  /** Along a path of blocks, each sliced for what the next one leaves, the kept statements alone leave the targets
      of the last block equal. */
  lemma {:induction false} PathSound(x: Target, path: seq<seq<Stmt>>, imarks: bool, targets: Live, m1: Machine,
                                     m2: Machine)
    requires x.arch.Valid() && Mocked(x.arch, m1) && PathFit(x, path, imarks, targets)
    requires Agree(Residue(x, path, imarks, targets), m1, m2)
    ensures Agree(targets, RunPath(x, path, m1), RunPath(x, SlicedPath(x, path, imarks, targets), m2))
    decreases |path|
  {
    if path != [] {
      var stmts, after := path[0], Residue(x, path[1..], imarks, targets);
      var sliced := SlicedPath(x, path, imarks, targets);
      SliceSound(x, stmts, imarks, after, m1, m2);
      AliasesHold(x, stmts, |stmts|, m1);
      assert stmts[..|stmts|] == stmts;
      assert sliced[1..] == SlicedPath(x, path[1..], imarks, targets);
      PathSound(x, path[1..], imarks, targets, Run(x, stmts, m1.Entering()), Run(x, sliced[0], m2.Entering()));
    }
  }

  // --------------------------------------------------------------------------
  // The condition on one statement is exact

  predicate FlatExpr(e: Expr)
  {
    match e
    case Load(a, _, _) => IsAtom(a)
    case Unop(_, a) => IsAtom(a)
    case Binop(_, a, b) => IsAtom(a) && IsAtom(b)
    case CCall(_, args, _) => forall i :: 0 <= i < |args| ==> IsAtom(args[i])
    case ITE(c, t, f) => IsAtom(c) && IsAtom(t) && IsAtom(f)
    case _ => true
  }

  /** The statements VEX hands out: operands are atoms, except that a temp is assigned one operation. */
  predicate FlatStmt(stmt: Stmt)
  {
    match stmt
    case WrTmp(_, data) => FlatExpr(data)
    case Put(_, data) => IsAtom(data)
    case Store(addr, data, _) => IsAtom(addr) && IsAtom(data)
    case LoadG(_, addr, guard, alt) => IsAtom(addr) && IsAtom(guard) && IsAtom(alt)
    case _ => true
  }

  /** Two machines that a step may start from: they agree on what is live before it, and the first one on aliases. */
  ghost predicate Starts(c: Context, stmt: Stmt, live: Live, a: Machine, b: Machine)
  {
    && (forall t :: t in Reads(stmt) && t in c.aliases ==> a.Temp(t) == c.aliases[t])
    && Agree(BackwardStmt(c, stmt, live).1, a, b)
  }

  ghost predicate Ends(x: Target, c: Context, stmt: Stmt, live: Live, a: Machine, b: Machine)
  {
    Agree(live, Exec(x, stmt, a), if BackwardStmt(c, stmt, live).0 then Exec(x, stmt, b) else b)
  }

  /** The step keeps agreement for every meaning and all machines. */
  ghost predicate StepRight(c: Context, tyenv: TyEnv, stmt: Stmt, live: Live)
  {
    forall sem, a, b :: Starts(c, stmt, live, a, b) ==> Ends(Target(sem, c.arch, tyenv), c, stmt, live, a, b)
  }

  lemma {:induction false} Outside(cells: set<int>) returns (k: int)
    ensures k > 0 && forall c :: c in cells ==> c < k
  {
    if c :| c in cells {
      var k' := Outside(cells - {c});
      k := if c < k' then k' else c + 1;
      assert forall d :: d in cells ==> d == c || d in cells - {c};
    } else {
      k := 1;
    }
  }

  lemma {:induction false} Member(cells: set<int>) returns (k: int)
    requires cells != {}
    ensures k in cells
  {
    if forall c :: c !in cells { assert false; }
    k :| k in cells;
  }

  /** The sample meaning, in which a partial write keeps the base register. */
  const KEEPS := Sem((_, _) => 0, (_, _, _) => 0, (_, _) => 0, (_, _, v) => v, (_, _, old_, v) => old_)

  /** A machine in which every aliased temp holds its alias. */
  function Aliased(aliases: Aliases): Machine { Machine(aliases, map[], map[]) }

  lemma {:induction false} FlatTracked(aliases: Aliases, cells: set<int>, e: Expr)
    requires FlatExpr(e) && !e.Load?
    ensures Tracked(aliases, cells, e)
  {
    if e.ITE? {
      assert Tracked(aliases, cells, e.cond) && Tracked(aliases, cells, e.iftrue) && Tracked(aliases, cells, e.iffalse);
    }
  }

  lemma {:induction false} LoadDiffers(c: Context, tyenv: TyEnv, stmt: Stmt, live: Live)
    returns (a: Machine, b: Machine)
    requires stmt.WrTmp? && FlatStmt(stmt) && !StmtTracked(c, tyenv, stmt, live)
    ensures Starts(c, stmt, live, a, b) && !Ends(Target(KEEPS, c.arch, tyenv), c, stmt, live, a, b)
  {
    if !stmt.data.Load? { FlatTracked(c.aliases, live.cells, stmt.data); assert false; }
    var addr := stmt.data.addr;
    var k := Outside(live.cells);
    if addr.Const? { k := addr.value; }
    assert k !in live.cells;
    var x := Target(KEEPS, c.arch, tyenv);
    var temps: map<nat, int> := if addr.RdTmp? then map[addr.tmp := k] else map[];
    a, b := Machine(temps, map[], map[k := 1]), Machine(temps, map[], map[]);
    OneCellAgrees(BackwardStmt(c, stmt, live).1, k, a, b);
    assert Reads(stmt) == TempsRead(addr) == if addr.RdTmp? then {addr.tmp} else {};
    assert Eval(x, addr, a) == k && Eval(x, addr, b) == k;
    assert Eval(x, stmt.data, a) == a.Cell(k) == 1 && Eval(x, stmt.data, b) == b.Cell(k) == 0;
    assert stmt.tmp in live.temps;
    assert Exec(x, stmt, a).Temp(stmt.tmp) == 1 && Exec(x, stmt, b).Temp(stmt.tmp) == 0;
  }

  lemma {:induction false} OneCellAgrees(live: Live, k: int, a: Machine, b: Machine)
    requires k !in live.cells && a.temps == b.temps && a.regs == b.regs && forall q :: q != k ==> a.Cell(q) == b.Cell(q)
    ensures Agree(live, a, b)
  {
  }

  lemma {:induction false} PutDiffers(c: Context, tyenv: TyEnv, stmt: Stmt, live: Live) returns (a: Machine, b: Machine)
    requires stmt.Put? && FlatStmt(stmt) && !StmtTracked(c, tyenv, stmt, live)
    ensures Starts(c, stmt, live, a, b) && !Ends(Target(KEEPS, c.arch, tyenv), c, stmt, live, a, b)
  {
    var base := c.arch.Base(stmt.offset);
    b := Aliased(c.aliases);
    a := b.(regs := map[base := 1]);
    assert BackwardStmt(c, stmt, live).1.regs == live.regs - {base};
    assert base in live.regs;
  }

  lemma {:induction false} StoreDiffers(c: Context, tyenv: TyEnv, stmt: Stmt, live: Live)
    returns (a: Machine, b: Machine)
    requires stmt.Store? && FlatStmt(stmt) && !StmtTracked(c, tyenv, stmt, live)
    ensures Starts(c, stmt, live, a, b) && !Ends(Target(KEEPS, c.arch, tyenv), c, stmt, live, a, b)
  {
    var x := Target(KEEPS, c.arch, tyenv);
    var k := Member(live.cells);
    if stmt.saddr.Const? { k := stmt.saddr.value; }
    a := Aliased(if stmt.saddr.RdTmp? then c.aliases[stmt.saddr.tmp := k] else c.aliases);
    a := a.(cells := map[k := Eval(x, stmt.data, a) + 1]);
    b := a;
    assert Exec(x, stmt, a).Cell(k) == Eval(x, stmt.data, a) && b.Cell(k) == Eval(x, stmt.data, a) + 1;
  }

  lemma {:induction false} GuardedLoadDiffers(c: Context, tyenv: TyEnv, stmt: Stmt, live: Live)
    returns (a: Machine, b: Machine)
    requires stmt.LoadG? && FlatStmt(stmt) && !StmtTracked(c, tyenv, stmt, live)
    ensures Starts(c, stmt, live, a, b) && !Ends(Target(KEEPS, c.arch, tyenv), c, stmt, live, a, b)
  {
    var x := Target(KEEPS, c.arch, tyenv);
    var k := Outside(live.cells);
    var temps := c.aliases;
    if stmt.guard.RdTmp? && stmt.guard.tmp !in c.aliases { temps := temps[stmt.guard.tmp := 1]; }
    if stmt.laddr.RdTmp? && stmt.laddr.tmp !in c.aliases { temps := temps[stmt.laddr.tmp := k]; }
    if Known(c.aliases, stmt.laddr).Some? { k := Known(c.aliases, stmt.laddr).value; }
    b := Aliased(temps);
    a := b.(cells := map[k := 1]);
    assert BackwardStmt(c, stmt, live).1.cells == live.cells;
    assert Eval(x, stmt.laddr, a) == Eval(x, stmt.laddr, b) == k;
    assert Eval(x, stmt.guard, a) == Eval(x, stmt.guard, b) != 0;
    assert Exec(x, stmt, a).Temp(stmt.dst) == 1 && Exec(x, stmt, b).Temp(stmt.dst) == 0;
    assert stmt.dst in live.temps;
  }

  /** For flat statements, what soundness asks of a statement is exactly that the step keeps agreement. */
  lemma {:induction false} StepExact(c: Context, tyenv: TyEnv, stmt: Stmt, live: Live)
    requires FlatStmt(stmt)
    ensures StepRight(c, tyenv, stmt, live) <==> StmtTracked(c, tyenv, stmt, live)
  {
    if StmtTracked(c, tyenv, stmt, live) {
      forall sem, a, b | Starts(c, stmt, live, a, b) ensures Ends(Target(sem, c.arch, tyenv), c, stmt, live, a, b) {
        StepAgrees(Target(sem, c.arch, tyenv), c, stmt, live, a, b);
      }
    } else {
      var a, b;
      match stmt {
        case WrTmp(_, _) => a, b := LoadDiffers(c, tyenv, stmt, live);
        case Put(_, _) => a, b := PutDiffers(c, tyenv, stmt, live);
        case Store(_, _, _) => a, b := StoreDiffers(c, tyenv, stmt, live);
        case LoadG(_, _, _, _) => a, b := GuardedLoadDiffers(c, tyenv, stmt, live);
      }
      assert !Ends(Target(KEEPS, c.arch, tyenv), c, stmt, live, a, b);
    }
  }

  // --------------------------------------------------------------------------
  // Each condition is needed

  function SampleTarget(): Target
  {
    Target(Sem((_, _) => 0, (_, _, _) => 0, (_, _) => 0, (_, _, v) => v, (_, _, old_, v) => old_ + v),
           Arch(64, 48, 56, 0x1000, map[17 := 16]),
           map[])
  }

  function SampleMachine(reg16: int): Machine
  {
    Machine(map[], map[48 := 0x1000, 56 := 0x3000, 16 := reg16], map[])
  }

  /** A kept partial write hides an earlier full write of the same base register. */
  lemma {:induction false} PartialPutUnsound()
    returns (x: Target, stmts: seq<Stmt>, targets: Live, m1: Machine, m2: Machine)
    ensures x.arch.Valid() && Mocked(x.arch, m1) && SingleAssignment(stmts) && MocksKept(x.arch, stmts)
    ensures ResidueAgrees(x, stmts, true, targets, m1, m2) && !TargetsAgree(x, stmts, true, targets, m1, m2)
  {
    x, stmts := SampleTarget(), [Put(16, Const(5, 64)), Put(17, Const(1, 8))];
    targets, m1, m2 := Live({}, {16}, {}), SampleMachine(0), SampleMachine(0);
    var c := ContextOf(x, stmts, true);
    assert SliceOf(c, stmts, 2, targets) == ([1], Live({}, {}, {}));
    assert Pick(stmts, [1]) == [stmts[1]];
    assert stmts[..1] == [stmts[0]];
    assert Run(x, stmts, m1.Entering()).Reg(16) == 6;
    assert Run(x, [stmts[1]], m2.Entering()).Reg(16) == 1;
  }

  const GuardedLoad := [WrTmp(0, Get(48, 64)), LoadG(1, RdTmp(0), Const(1, 1), Const(0, 64))]

  lemma {:induction false} GuardedLoadSlice(c: Context)
    requires c.arch == SampleTarget().arch
    ensures SliceOf(c, GuardedLoad, 2, Live({1}, {}, {})) == ([0, 1], Live({}, {48}, {}))
  {
    var targets, l := Live({1}, {}, {}), Live({0}, {}, {});
    assert BackwardStmt(c, GuardedLoad[0], l) == (true, Live({}, {48}, {})) by {
      assert l.temps - {0} == {} && {} + {48} == {48};
    }
    assert SliceOf(c, GuardedLoad, 1, l) == ([] + [0], Live({}, {48}, {}));
    assert BackwardStmt(c, GuardedLoad[1], targets) == (true, l) by { assert targets.temps - {1} + {0} == {0}; }
    assert SliceOf(c, GuardedLoad, 2, targets) == ([] + [0] + [1], Live({}, {48}, {}));
    assert [] + [0] + [1] == [0, 1];
  }

  lemma {:induction false} GuardedLoadRun(m: Machine)
    requires m.Reg(48) == 0x1000
    ensures Run(SampleTarget(), GuardedLoad, m.Entering()).Temp(1) == m.Cell(0x1000)
  {
    assert GuardedLoad[..1] == [GuardedLoad[0]];
    assert Run(SampleTarget(), [GuardedLoad[0]], m.Entering()) == m.(temps := map[0 := 0x1000]);
  }

  /** The handler of a guarded load marks its address live but not the cell it reads. */
  lemma {:induction false} GuardedLoadUnsound()
    returns (x: Target, stmts: seq<Stmt>, targets: Live, m1: Machine, m2: Machine)
    ensures x.arch.Valid() && Mocked(x.arch, m1) && SingleAssignment(stmts) && MocksKept(x.arch, stmts)
    ensures ResidueAgrees(x, stmts, true, targets, m1, m2) && !TargetsAgree(x, stmts, true, targets, m1, m2)
  {
    x, stmts, targets := SampleTarget(), GuardedLoad, Live({1}, {}, {});
    m1, m2 := SampleMachine(0).(cells := map[0x1000 := 7]), SampleMachine(0);
    GuardedLoadSlice(ContextOf(x, stmts, true));
    GuardedLoadRun(m1);
    GuardedLoadRun(m2);
    assert Pick(stmts, [0, 1]) == stmts && 1 in targets.temps;
  }

  /** A store through an address the forward pass does not know is dropped although it hits a live cell. */
  lemma {:induction false} UnknownStoreUnsound()
    returns (x: Target, stmts: seq<Stmt>, targets: Live, m1: Machine, m2: Machine)
    ensures x.arch.Valid() && Mocked(x.arch, m1) && SingleAssignment(stmts) && MocksKept(x.arch, stmts)
    ensures ResidueAgrees(x, stmts, true, targets, m1, m2) && !TargetsAgree(x, stmts, true, targets, m1, m2)
  {
    x, stmts := SampleTarget(), [WrTmp(0, Get(16, 64)), Store(RdTmp(0), Const(7, 64), MachineState.LE)];
    targets, m1, m2 := Live({}, {}, {0x1000}), SampleMachine(0x1000), SampleMachine(0x1000);
    var c := ContextOf(x, stmts, true);
    assert c.aliases == map[] by { assert AliasesAfter(x.arch, stmts, 1) == map[]; }
    assert !targets.IsEmpty() by { assert 0x1000 in targets.cells; }
    assert SliceOf(c, stmts, 1, targets) == ([] + [], targets);
    assert SliceOf(c, stmts, 2, targets) == ([] + [] + [], targets);
    assert stmts[..1] == [stmts[0]];
    assert Run(x, stmts, m1.Entering()).Cell(0x1000) == 7;
    assert Run(x, [], m2.Entering()).Cell(0x1000) == 0;
  }

  /** A write to sp is invisible to the forward pass, so a later store is credited to the wrong cell. */
  lemma {:induction false} MovedStackPointerUnsound()
    returns (x: Target, stmts: seq<Stmt>, targets: Live, m1: Machine, m2: Machine)
    ensures x.arch.Valid() && Mocked(x.arch, m1) && SingleAssignment(stmts)
    ensures AllTracked(ContextOf(x, stmts, true), x.tyenv, stmts, |stmts|, targets)
    ensures ResidueAgrees(x, stmts, true, targets, m1, m2) && !TargetsAgree(x, stmts, true, targets, m1, m2)
  {
    x, stmts := SampleTarget(), [Put(48, Const(0x800, 64)), WrTmp(0, Get(48, 64)),
                                 Store(RdTmp(0), Const(7, 64), MachineState.LE)];
    targets, m1, m2 := Live({}, {}, {0x800}), SampleMachine(0), SampleMachine(0);
    var c := ContextOf(x, stmts, true);
    assert AliasesAfter(x.arch, stmts, 2) == map[0 := 0x1000] by { assert AliasesAfter(x.arch, stmts, 1) == map[]; }
    assert c.aliases == map[0 := 0x1000];
    assert !targets.IsEmpty() by { assert 0x800 in targets.cells; }
    assert SliceOf(c, stmts, 1, targets) == ([] + [], targets);
    assert SliceOf(c, stmts, 2, targets) == ([] + [] + [], targets);
    assert SliceOf(c, stmts, 3, targets) == ([] + [] + [] + [], targets);
    assert stmts[..2][..1] == [stmts[0]];
    assert Run(x, [stmts[0]], m1.Entering()).Reg(48) == 0x800;
    assert Run(x, stmts[..2], m1.Entering()).Temp(0) == 0x800;
    assert Run(x, stmts, m1.Entering()).Cell(0x800) == 7;
    assert Run(x, [], m2.Entering()).Cell(0x800) == 0;
  }
}

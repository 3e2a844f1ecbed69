/** What the slicer keeps, index by index: exactly the statements that write something still needed. */
module SliceMinimality {
  import opened Vex
  import opened Slicer

  /** A temp, a base register or a stack cell. */
  datatype Place = TempPlace(t: nat) | RegPlace(r: nat) | CellPlace(a: int)

  predicate In(live: Live, p: Place)
  {
    match p
    case TempPlace(t) => t in live.temps
    case RegPlace(r) => r in live.regs
    case CellPlace(a) => a in live.cells
  }

  /** What a statement writes; a store writes a cell when its address is an aliased temp. */
  function Written(c: Context, stmt: Stmt): set<Place>
  {
    match stmt
    case WrTmp(t, _) => {TempPlace(t)}
    case Put(r, _) => {RegPlace(c.arch.Base(r))}
    case Store(addr, _, _) => if addr.RdTmp? && addr.tmp in c.aliases then {CellPlace(c.aliases[addr.tmp])} else {}
    case LoadG(dst, _, _, _) => {TempPlace(dst)}
    case _ => {}
  }

  function AtomPlaces(e: Expr): set<Place> { if e.RdTmp? then {TempPlace(e.tmp)} else {} }

  /** What an expression needs: the temps among the operands of an operation, registers, and aliased cells. */
  function Needed(c: Context, e: Expr): set<Place>
  {
    match e
    case RdTmp(t) => {TempPlace(t)}
    case Get(r, _) => {RegPlace(c.arch.Base(r))}
    case Load(addr, _, _) =>
      AtomPlaces(addr) + if addr.RdTmp? && addr.tmp in c.aliases then {CellPlace(c.aliases[addr.tmp])} else {}
    case Unop(_, x) => AtomPlaces(x)
    case Binop(_, x, y) => AtomPlaces(x) + AtomPlaces(y)
    case CCall(_, args, _) => set i | 0 <= i < |args| && args[i].RdTmp? :: TempPlace(args[i].tmp)
    case ITE(cond, t, f) => Needed(c, cond) + Needed(c, t) + Needed(c, f)
    case Const(_, _) => {}
  }

  function NeededBy(c: Context, stmt: Stmt): set<Place>
  {
    match stmt
    case WrTmp(_, data) => Needed(c, data)
    case Put(_, data) => Needed(c, data)
    case Store(addr, data, _) => Needed(c, addr) + Needed(c, data)
    case LoadG(_, addr, guard, alt) => Needed(c, guard) + Needed(c, addr) + Needed(c, alt)
    case _ => {}
  }

  /** No statement from m up to n writes the place. */
  ghost predicate Unwritten(c: Context, stmts: seq<Stmt>, m: nat, n: nat, p: Place)
    requires n <= |stmts|
  {
    forall k :: m <= k < n ==> p !in Written(c, stmts[k])
  }

  /** A kept statement j needs what the place holds before statement m. */
  ghost predicate NeededAt(c: Context, stmts: seq<Stmt>, kept: seq<nat>, m: nat, p: Place, j: nat)
  {
    j in kept && m <= j < |stmts| && p in NeededBy(c, stmts[j]) && Unwritten(c, stmts, m, j, p)
  }

  /** What the place holds before statement m is still needed: it is a target that is not written from there on, or a
      kept statement needs it before it is written. */
  ghost predicate LiveAt(c: Context, stmts: seq<Stmt>, kept: seq<nat>, targets: Live, m: nat, p: Place)
  {
    || (In(targets, p) && Unwritten(c, stmts, m, |stmts|, p))
    || exists j :: NeededAt(c, stmts, kept, m, p, j)
  }

  ghost predicate AnyLive(c: Context, stmts: seq<Stmt>, kept: seq<nat>, targets: Live, m: nat)
  {
    exists p :: LiveAt(c, stmts, kept, targets, m, p)
  }

  ghost predicate WritesLive(c: Context, stmts: seq<Stmt>, kept: seq<nat>, targets: Live, i: nat, p: Place)
    requires i < |stmts|
  {
    p in Written(c, stmts[i]) && LiveAt(c, stmts, kept, targets, i + 1, p)
  }

  /** A mark belongs to the slice when marks are wanted and something is still needed after each later statement's
      turn; any other statement when it writes something that is needed after it. */
  ghost predicate Belongs(c: Context, stmts: seq<Stmt>, kept: seq<nat>, targets: Live, i: nat)
    requires i < |stmts|
  {
    if stmts[i].IMark? then c.includeImarks && forall m :: i < m < |stmts| ==> AnyLive(c, stmts, kept, targets, m)
    else exists p :: WritesLive(c, stmts, kept, targets, i, p)
  }

  // --------------------------------------------------------------------------
  // The backward handlers on places

  lemma {:induction false} AtomsNeed(es: seq<Expr>, live: Live, p: Place)
    ensures In(BackwardAtoms(es, live), p)
       <==> In(live, p) || p in set i | 0 <= i < |es| && es[i].RdTmp? :: TempPlace(es[i].tmp)
  {
    if es != [] {
      AtomsNeed(es[1..], BackwardAtom(es[0], live), p);
      if i :| 0 <= i < |es| && es[i].RdTmp? && p == TempPlace(es[i].tmp) {
        assert i > 0 ==> es[1..][i - 1] == es[i];
      }
      if i :| 0 <= i < |es[1..]| && es[1..][i].RdTmp? && p == TempPlace(es[1..][i].tmp) {
        assert es[i + 1] == es[1..][i];
      }
    }
  }

  lemma {:induction false} ExprNeeds(c: Context, e: Expr, live: Live, p: Place)
    ensures In(BackwardExpr(c, e, live), p) <==> In(live, p) || p in Needed(c, e)
  {
    match e
    case CCall(_, args, _) => AtomsNeed(args, live, p);
    case ITE(cond, t, f) =>
      ExprNeeds(c, cond, live, p);
      ExprNeeds(c, t, BackwardExpr(c, cond, live), p);
      ExprNeeds(c, f, BackwardExpr(c, t, BackwardExpr(c, cond, live)), p);
    case _ =>
  }

  /** Without what it writes. */
  function Minus(c: Context, stmt: Stmt, live: Live): Live
  {
    match stmt
    case WrTmp(t, _) => live.(temps := live.temps - {t})
    case Put(r, _) => live.(regs := live.regs - {c.arch.Base(r)})
    case Store(addr, _, _) =>
      if addr.RdTmp? && addr.tmp in c.aliases then live.(cells := live.cells - {c.aliases[addr.tmp]}) else live
    case LoadG(dst, _, _, _) => live.(temps := live.temps - {dst})
    case _ => live
  }

  lemma {:induction false} MinusIn(c: Context, stmt: Stmt, live: Live, p: Place)
    ensures In(Minus(c, stmt, live), p) <==> In(live, p) && p !in Written(c, stmt)
  {
  }

  /** A statement other than a mark is kept exactly when it writes something live. */
  lemma {:induction false} KeptIfWritten(c: Context, stmt: Stmt, live: Live)
    requires !stmt.IMark?
    ensures BackwardStmt(c, stmt, live).0 <==> exists p :: p in Written(c, stmt) && In(live, p)
  {
    match stmt
    case WrTmp(t, _) => assert TempPlace(t) in Written(c, stmt);
    case Put(r, _) => assert RegPlace(c.arch.Base(r)) in Written(c, stmt);
    case Store(addr, _, _) =>
      if addr.RdTmp? && addr.tmp in c.aliases { assert CellPlace(c.aliases[addr.tmp]) in Written(c, stmt); }
    case LoadG(dst, _, _, _) => assert TempPlace(dst) in Written(c, stmt);
    case _ =>
  }

  /** What is live before a statement: what it needs, if it is kept, and what is live after it and not written. */
  lemma {:induction false} StmtNeeds(c: Context, stmt: Stmt, live: Live, p: Place)
    ensures var (keep, l) := BackwardStmt(c, stmt, live);
            In(l, p) <==> (keep && p in NeededBy(c, stmt)) || (p !in Written(c, stmt) && In(live, p))
  {
    MinusIn(c, stmt, live, p);
    if BackwardStmt(c, stmt, live).0 {
      KeptNeeds(c, stmt, live, p);
    } else if !stmt.IMark? {
      KeptIfWritten(c, stmt, live);
    }
  }

  lemma {:induction false} KeptNeeds(c: Context, stmt: Stmt, live: Live, p: Place)
    requires BackwardStmt(c, stmt, live).0
    ensures In(BackwardStmt(c, stmt, live).1, p) <==> p in NeededBy(c, stmt) || In(Minus(c, stmt, live), p)
  {
    var less := Minus(c, stmt, live);
    match stmt
    case WrTmp(_, data) => ExprNeeds(c, data, less, p);
    case Put(_, data) => ExprNeeds(c, data, less, p);
    case Store(addr, data, _) =>
      ExprNeeds(c, addr, less, p);
      ExprNeeds(c, data, BackwardExpr(c, addr, less), p);
    case LoadG(_, addr, guard, alt) =>
      ExprNeeds(c, guard, less, p);
      ExprNeeds(c, addr, BackwardExpr(c, guard, less), p);
      ExprNeeds(c, alt, BackwardExpr(c, addr, BackwardExpr(c, guard, less)), p);
    case IMark(_, _) =>
  }

  // --------------------------------------------------------------------------
  // From one statement to the one before it

  ghost predicate SameFrom(a: seq<nat>, b: seq<nat>, m: nat) { forall j :: m <= j ==> (j in a <==> j in b) }

  lemma {:induction false} LiveFrom(c: Context, stmts: seq<Stmt>, a: seq<nat>, b: seq<nat>, targets: Live, m: nat,
                                    p: Place)
    requires SameFrom(a, b, m)
    ensures LiveAt(c, stmts, a, targets, m, p) <==> LiveAt(c, stmts, b, targets, m, p)
  {
    if j: nat :| NeededAt(c, stmts, a, m, p, j) { assert NeededAt(c, stmts, b, m, p, j); }
    if j: nat :| NeededAt(c, stmts, b, m, p, j) { assert NeededAt(c, stmts, a, m, p, j); }
  }

  lemma {:induction false} AnyLiveFrom(c: Context, stmts: seq<Stmt>, a: seq<nat>, b: seq<nat>, targets: Live, m: nat)
    requires SameFrom(a, b, m)
    ensures AnyLive(c, stmts, a, targets, m) <==> AnyLive(c, stmts, b, targets, m)
  {
    if p :| LiveAt(c, stmts, a, targets, m, p) { LiveFrom(c, stmts, a, b, targets, m, p); }
    if p :| LiveAt(c, stmts, b, targets, m, p) { LiveFrom(c, stmts, a, b, targets, m, p); }
  }

  lemma {:induction false} BelongsFrom(c: Context, stmts: seq<Stmt>, a: seq<nat>, b: seq<nat>, targets: Live, i: nat)
    requires i < |stmts| && SameFrom(a, b, i + 1)
    ensures Belongs(c, stmts, a, targets, i) <==> Belongs(c, stmts, b, targets, i)
  {
    forall m: nat | i < m < |stmts| { AnyLiveFrom(c, stmts, a, b, targets, m); }
    var next: nat := i + 1;
    forall p ensures LiveAt(c, stmts, a, targets, next, p) <==> LiveAt(c, stmts, b, targets, next, p) {
      LiveFrom(c, stmts, a, b, targets, next, p);
    }
    if p :| WritesLive(c, stmts, a, targets, i, p) { assert WritesLive(c, stmts, b, targets, i, p); }
    if p :| WritesLive(c, stmts, b, targets, i, p) { assert WritesLive(c, stmts, a, targets, i, p); }
  }

  lemma {:induction false} LiveStep(c: Context, stmts: seq<Stmt>, kept: seq<nat>, targets: Live, i: nat, p: Place)
    requires i < |stmts|
    ensures LiveAt(c, stmts, kept, targets, i, p)
       <==> || (i in kept && p in NeededBy(c, stmts[i]))
            || (p !in Written(c, stmts[i]) && LiveAt(c, stmts, kept, targets, i + 1, p))
  {
    if i in kept && p in NeededBy(c, stmts[i]) { assert NeededAt(c, stmts, kept, i, p, i); }
    var next: nat := i + 1;
    if j: nat :| NeededAt(c, stmts, kept, i, p, j) && j > i { assert NeededAt(c, stmts, kept, next, p, j); }
    if j: nat :| NeededAt(c, stmts, kept, next, p, j) && p !in Written(c, stmts[i]) {
      assert NeededAt(c, stmts, kept, i, p, j);
    }
  }

  /** What is live earlier, with nothing kept in between, is live later. */
  lemma {:induction false} LiveLater(c: Context, stmts: seq<Stmt>, kept: seq<nat>, targets: Live, m: nat, n: nat,
                                     p: Place)
    requires m <= n && LiveAt(c, stmts, kept, targets, m, p) && forall j :: m <= j < n ==> j !in kept
    ensures LiveAt(c, stmts, kept, targets, n, p)
  {
    if j: nat :| NeededAt(c, stmts, kept, m, p, j) { assert NeededAt(c, stmts, kept, n, p, j); }
  }

  /** What the pass knows once it has been through the statements from n on. */
  ghost predicate Found(c: Context, stmts: seq<Stmt>, targets: Live, n: nat, live: Live, later: seq<nat>)
    requires n <= |stmts|
  {
    && (forall j :: j in later ==> n <= j < |stmts|)
    && (forall p :: In(live, p) <==> LiveAt(c, stmts, later, targets, n, p))
    && (forall i :: n <= i < |stmts| ==> (i in later <==> Belongs(c, stmts, later, targets, i)))
    && (forall m :: n < m < |stmts| ==> AnyLive(c, stmts, later, targets, m))
  }

  /** What it knows when it goes on from there. */
  ghost predicate Progress(c: Context, stmts: seq<Stmt>, targets: Live, n: nat, live: Live, later: seq<nat>)
    requires n <= |stmts|
  {
    Found(c, stmts, targets, n, live, later) && (n < |stmts| ==> AnyLive(c, stmts, later, targets, n))
  }

  /** The kept statements and what is left to find are as they should be. */
  ghost predicate SlicedRight(c: Context, stmts: seq<Stmt>, targets: Live, sliced: (seq<nat>, Live))
  {
    && (forall i :: 0 <= i < |stmts| ==> (i in sliced.0 <==> Belongs(c, stmts, sliced.0, targets, i)))
    && (forall p :: In(sliced.1, p) <==> LiveAt(c, stmts, sliced.0, targets, 0, p))
  }

  lemma {:induction false} KeepsRight(c: Context, stmts: seq<Stmt>, targets: Live, n: nat, live: Live, later: seq<nat>)
    requires 0 < n <= |stmts| && Progress(c, stmts, targets, n, live, later)
    ensures BackwardStmt(c, stmts[n - 1], live).0 <==> Belongs(c, stmts, later, targets, n - 1)
  {
    var i := n - 1;
    if !stmts[i].IMark? {
      KeptIfWritten(c, stmts[i], live);
      if p :| p in Written(c, stmts[i]) && In(live, p) { assert WritesLive(c, stmts, later, targets, i, p); }
    }
  }

  /** One statement further back, whether the pass then stops or not. */
  lemma {:induction false} OneBack(c: Context, stmts: seq<Stmt>, targets: Live, n: nat, live: Live, later: seq<nat>)
    requires 0 < n <= |stmts| && Progress(c, stmts, targets, n, live, later)
    ensures var (keep, l) := BackwardStmt(c, stmts[n - 1], live);
            Found(c, stmts, targets, n - 1, l, if keep then [n - 1] + later else later)
  {
    var (keep, l) := BackwardStmt(c, stmts[n - 1], live);
    var now := if keep then [n - 1] + later else later;
    assert SameFrom(later, now, n);
    forall p ensures In(l, p) <==> LiveAt(c, stmts, now, targets, n - 1, p) {
      StmtNeeds(c, stmts[n - 1], live, p);
      LiveFrom(c, stmts, later, now, targets, n, p);
      LiveStep(c, stmts, now, targets, n - 1, p);
    }
    KeepsRight(c, stmts, targets, n, live, later);
    forall i | n - 1 <= i < |stmts| ensures i in now <==> Belongs(c, stmts, now, targets, i) {
      BelongsFrom(c, stmts, later, now, targets, i);
    }
    forall m | n <= m < |stmts| ensures AnyLive(c, stmts, now, targets, m) {
      AnyLiveFrom(c, stmts, later, now, targets, m);
    }
  }

  lemma {:induction false} SomeCell(cells: set<int>) returns (a: int)
    requires cells != {}
    ensures a in cells
  {
    if forall b :: b !in cells { assert false; }
    a :| a in cells;
  }

  lemma {:induction false} SomePlace(live: Live) returns (p: Place)
    requires !live.IsEmpty()
    ensures In(live, p)
  {
    if live.temps != {} {
      var t :| t in live.temps;
      p := TempPlace(t);
    } else if live.regs != {} {
      var r :| r in live.regs;
      p := RegPlace(r);
    } else {
      var a := SomeCell(live.cells);
      p := CellPlace(a);
    }
  }

  lemma {:induction false} StillLive(c: Context, stmts: seq<Stmt>, targets: Live, n: nat, live: Live, kept: seq<nat>)
    requires n < |stmts| && !live.IsEmpty() && Found(c, stmts, targets, n, live, kept)
    ensures Progress(c, stmts, targets, n, live, kept)
  {
    var p := SomePlace(live);
  }

  /** When nothing is live the pass stops, and rightly so. */
  lemma {:induction false} StopsRight(c: Context, stmts: seq<Stmt>, targets: Live, n: nat, live: Live, kept: seq<nat>)
    requires n < |stmts| && live.IsEmpty() && Found(c, stmts, targets, n, live, kept)
    ensures SlicedRight(c, stmts, targets, (kept, live))
  {
    forall m: nat, p | m <= n ensures !LiveAt(c, stmts, kept, targets, m, p) {
      if LiveAt(c, stmts, kept, targets, m, p) { LiveLater(c, stmts, kept, targets, m, n, p); }
    }
    forall i | 0 <= i < n ensures !Belongs(c, stmts, kept, targets, i) {
      assert !AnyLive(c, stmts, kept, targets, n);
    }
  }

  lemma {:induction false} EndsRight(c: Context, stmts: seq<Stmt>, targets: Live, live: Live, kept: seq<nat>)
    requires Found(c, stmts, targets, 0, live, kept)
    ensures SlicedRight(c, stmts, targets, (kept, live))
  {
  }

  lemma {:induction false} TurnFinds(c: Context, stmts: seq<Stmt>, targets: Live, n: nat, live: Live, later: seq<nat>)
    returns (l: Live, now: seq<nat>)
    requires 0 < n <= |stmts| && Progress(c, stmts, targets, n, live, later)
    ensures Found(c, stmts, targets, n - 1, l, now)
    ensures Remaining(c, stmts, n, live, later)
         == if l.IsEmpty() then (now, l) else Remaining(c, stmts, n - 1, l, now)
  {
    l := BackwardStmt(c, stmts[n - 1], live).1;
    now := if BackwardStmt(c, stmts[n - 1], live).0 then [n - 1] + later else later;
    OneBack(c, stmts, targets, n, live, later);
    RemainingStep(c, stmts, n - 1, live, later);
  }

  /** One turn of the pass: it stops and is right, or goes on with what it knows. */
  lemma {:induction false} OneTurn(c: Context, stmts: seq<Stmt>, targets: Live, n: nat, live: Live, later: seq<nat>)
    returns (stop: bool, l: Live, now: seq<nat>)
    requires 0 < n <= |stmts| && Progress(c, stmts, targets, n, live, later)
    ensures Remaining(c, stmts, n, live, later) == if stop then (now, l) else Remaining(c, stmts, n - 1, l, now)
    ensures if stop then SlicedRight(c, stmts, targets, (now, l)) else Progress(c, stmts, targets, n - 1, l, now)
  {
    l, now := TurnFinds(c, stmts, targets, n, live, later);
    stop := l.IsEmpty();
    if stop {
      StopsRight(c, stmts, targets, n - 1, l, now);
    } else {
      StillLive(c, stmts, targets, n - 1, l, now);
    }
  }

  lemma {:induction false} RestIsRight(c: Context, stmts: seq<Stmt>, targets: Live, n: nat, live: Live, later: seq<nat>)
    requires n <= |stmts| && Progress(c, stmts, targets, n, live, later)
    ensures SlicedRight(c, stmts, targets, Remaining(c, stmts, n, live, later))
  {
    if n == 0 {
      assert [] + later == later && Remaining(c, stmts, 0, live, later) == (later, live);
      EndsRight(c, stmts, targets, live, later);
    } else {
      var stop, l, now := OneTurn(c, stmts, targets, n, live, later);
      if !stop {
        RestIsRight(c, stmts, targets, n - 1, l, now);
      }
    }
  }

  /** The slice holds exactly the statements that belong to it, and what is left is exactly what is live at the
      start of the block. */
  lemma {:induction false} KeptExactly(c: Context, stmts: seq<Stmt>, targets: Live)
    ensures SlicedRight(c, stmts, targets, SliceOf(c, stmts, |stmts|, targets))
  {
    RestIsRight(c, stmts, targets, |stmts|, targets, []);
    var kept := SliceOf(c, stmts, |stmts|, targets).0;
    assert kept + [] == kept && Remaining(c, stmts, |stmts|, targets, []) == SliceOf(c, stmts, |stmts|, targets);
  }

  /** The same for what a constructed slicer holds, in the order of the block. */
  lemma {:induction false} SlicerKeeps(slicer: SimSlicer)
    requires slicer.Sliced()
    ensures var c := Context(slicer.arch, slicer.aliases, slicer.includeImarks);
            var (stmts, kept, targets) := (slicer.statements, slicer.stmtIndices, slicer.targets);
            && (forall i :: 0 <= i < |stmts| ==> (i in kept <==> Belongs(c, stmts, kept, targets, i)))
            && (forall r :: r in slicer.finalRegs <==> LiveAt(c, stmts, kept, targets, 0, RegPlace(r)))
            && (forall a :: a in slicer.finalStackOffsets <==> LiveAt(c, stmts, kept, targets, 0, CellPlace(a)))
            && |slicer.stmts| == |kept| && InOrder(kept)
            && (forall k :: 0 <= k < |kept| ==> kept[k] < |stmts| && slicer.stmts[k] == stmts[kept[k]])
  {
    var c := Context(slicer.arch, slicer.aliases, slicer.includeImarks);
    var stmts, targets := slicer.statements, slicer.targets;
    KeptExactly(c, stmts, targets);
    KeptInOrder(c, stmts, |stmts|, targets);
    var residue := SliceOf(c, stmts, |stmts|, targets).1;
    forall r ensures r in slicer.finalRegs <==> LiveAt(c, stmts, slicer.stmtIndices, targets, 0, RegPlace(r)) {
      assert In(residue, RegPlace(r)) <==> r in residue.regs;
    }
    forall a ensures a in slicer.finalStackOffsets <==> LiveAt(c, stmts, slicer.stmtIndices, targets, 0, CellPlace(a)) {
      assert In(residue, CellPlace(a)) <==> a in residue.cells;
    }
    forall k | 0 <= k < |slicer.stmtIndices| ensures slicer.stmtIndices[k] < |stmts| {
      assert slicer.stmtIndices[k] in slicer.stmtIndices;
    }
  }

  lemma {:induction false} KeptInOrder(c: Context, stmts: seq<Stmt>, n: nat, live: Live)
    requires n <= |stmts|
    ensures InOrder(SliceOf(c, stmts, n, live).0)
  {
    if n > 0 {
      var (keep, l) := BackwardStmt(c, stmts[n - 1], live);
      if !l.IsEmpty() {
        KeptInOrder(c, stmts, n - 1, l);
        var before := SliceOf(c, stmts, n - 1, l).0;
        var here := if keep then [n - 1] else [];
        assert SliceOf(c, stmts, n, live).0 == before + here;
        forall k | 0 <= k < |before| ensures before[k] < n - 1 { assert before[k] in before; }
      }
    }
  }

  predicate InOrder(kept: seq<nat>) { forall k, l :: 0 <= k < l < |kept| ==> kept[k] < kept[l] }

  // --------------------------------------------------------------------------
  // Which temps have an alias

  /** The value is a sum of constants, of the stack and base pointers, and of temps written such values before. */
  ghost predicate Traceable(arch: Arch, stmts: seq<Stmt>, i: nat, e: Expr)
    requires i <= |stmts|
    decreases i, e
  {
    match e
    case Get(reg, _) => reg == arch.spOffset || reg == arch.bpOffset
    case Const(_, _) => true
    case RdTmp(t) =>
      exists j :: 0 <= j < i && stmts[j].WrTmp? && stmts[j].tmp == t && Traceable(arch, stmts, j, stmts[j].data)
    case Binop(op, x, y) =>
      op.name == Add && op.fromBits in {32, 64} && Traceable(arch, stmts, i, x) && Traceable(arch, stmts, i, y)
    case _ => false
  }

  /** Some statement before writes such a value to the temp. */
  ghost predicate Aliased(arch: Arch, stmts: seq<Stmt>, n: nat, t: nat)
    requires n <= |stmts|
  {
    exists j :: 0 <= j < n && stmts[j].WrTmp? && stmts[j].tmp == t && Traceable(arch, stmts, j, stmts[j].data)
  }

  /** Exactly these temps have an alias. */
  lemma {:induction false} AliasedExactly(arch: Arch, stmts: seq<Stmt>, n: nat, t: nat)
    requires n <= |stmts|
    ensures t in AliasesAfter(arch, stmts, n) <==> Aliased(arch, stmts, n, t)
    decreases n, 0
  {
    if n > 0 {
      var i := n - 1;
      AliasedExactly(arch, stmts, i, t);
      if stmts[i].WrTmp? && stmts[i].tmp == t { TracedExactly(arch, stmts, i, stmts[i].data); }
      if Aliased(arch, stmts, i, t) {
        var j :| 0 <= j < i && stmts[j].WrTmp? && stmts[j].tmp == t && Traceable(arch, stmts, j, stmts[j].data);
      }
    }
  }

  lemma {:induction false} TracedExactly(arch: Arch, stmts: seq<Stmt>, i: nat, e: Expr)
    requires i <= |stmts|
    ensures ForwardExpr(arch, e, AliasesAfter(arch, stmts, i)).Some? <==> Traceable(arch, stmts, i, e)
    decreases i, 1, e
  {
    match e
    case RdTmp(t) => AliasedExactly(arch, stmts, i, t);
    case Binop(_, x, y) => TracedExactly(arch, stmts, i, x); TracedExactly(arch, stmts, i, y);
    case _ =>
  }
}

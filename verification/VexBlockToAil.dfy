/** The block part of the VEX to AIL converter: statements, side exits and the end of a block. */
module VexBlockToAil {
  import opened Wrappers
  import opened MachineState
  import opened Vex
  import opened VexSemantics
  import opened VexToAil
  import Ail

  /** None for a statement that gives no AIL statement. */
  function ConvertStmt(stmt: Stmt, tyenv: TyEnv, wordBits: nat): Option<Ail.Stmt>
    requires StmtTyped(stmt, tyenv)
  {
    match stmt
    case IMark(_, _) => None
    case AbiHint => None
    case WrTmp(t, data) => Some(Ail.Assignment(Ail.Tmp(None, t, Bits(data, tyenv)), ConvertExpr(data, tyenv)))
    case Put(offset, data) =>
      var data' := ConvertExpr(data, tyenv);
      Some(Ail.Assignment(Ail.Register(None, offset, Ail.Bits(data')), data'))
    case Store(addr, data, end) =>
      Some(Ail.Store(ConvertExpr(addr, tyenv), ConvertExpr(data, tyenv), Bits(data, tyenv) / 8, end))
    case Exit(guard, target, kind) =>
      if IsTrap(kind) then None
      else Some(Ail.ConditionalJump(ConvertExpr(guard, tyenv), Ail.Const(None, target, wordBits), None))
  }

  function ConvertStmts(stmts: seq<Stmt>, tyenv: TyEnv, wordBits: nat): seq<Ail.Stmt>
    requires StmtsTyped(stmts, tyenv)
  {
    if stmts == [] then []
    else
      var rest := ConvertStmts(stmts[1..], tyenv, wordBits);
      match ConvertStmt(stmts[0], tyenv, wordBits)
      case Some(s) => [s] + rest
      case None => rest
  }

  predicate HasJump(stmts: seq<Ail.Stmt>) { exists i :: 0 <= i < |stmts| && stmts[i].ConditionalJump? }

  /** The last conditional jump gets the place where the block goes on. */
  function Patched(stmts: seq<Ail.Stmt>, next: Ail.Expr): seq<Ail.Stmt>
  {
    if stmts == [] then []
    else if stmts[0].ConditionalJump? && !HasJump(stmts[1..]) then [stmts[0].(falseTarget := Some(next))] + stmts[1..]
    else [stmts[0]] + Patched(stmts[1..], next)
  }

  /** The statement that leaves the block, for the jumpkinds the converter supports. */
  function EndStmt(b: Irsb): Option<Ail.Stmt>
    requires Typed(b.next, b.tyenv)
  {
    match b.jumpkind
    case Call => Some(Ail.Call(ConvertExpr(b.next, b.tyenv)))
    case Boring => Some(Ail.Jump(ConvertExpr(b.next, b.tyenv)))
    case Ret => Some(Ail.Return)
    case _ => None
  }

  /** The whole conversion; none where the converter raises for the jumpkind. */
  function Converted(b: Irsb): Option<Ail.Block>
    requires BlockTyped(b)
  {
    var stmts := ConvertStmts(b.stmts, b.tyenv, b.wordBits);
    match EndStmt(b)
    case None => None
    case Some(end) =>
      var stmts' := if b.jumpkind == Boring && HasJump(stmts) then Patched(stmts,
          ConvertExpr(b.next, b.tyenv)) else stmts + [end];
      Some(Ail.Block(BlockAddr(b.stmts, b.addr), stmts'))
  }

  /** The address of the first instruction mark, if there is one. */
  function BlockAddr(stmts: seq<Stmt>, addr: nat): nat
  {
    if stmts == [] then addr
    else if stmts[0].IMark? then stmts[0].addr + stmts[0].delta
    else BlockAddr(stmts[1..], addr)
  }

  /** Exactly blocks that go on, call or return are converted, to a block at the address of the first mark, or at the
      block's own when there is none. */
  lemma {:induction false} ConvertedWhere(b: Irsb)
    requires BlockTyped(b)
    ensures Converted(b).Some? <==> b.jumpkind in {Boring, Call, Ret}
    ensures Converted(b).Some? && (forall i :: 0 <= i < |b.stmts| ==> !b.stmts[i].IMark?) ==>
              Converted(b).value.addr == b.addr
    ensures Converted(b).Some? ==> forall i :: FirstMark(b.stmts, i) ==>
              Converted(b).value.addr == b.stmts[i].addr + b.stmts[i].delta
  {
    if forall i :: 0 <= i < |b.stmts| ==> !b.stmts[i].IMark? { NoMark(b.stmts, b.addr); }
    forall i | FirstMark(b.stmts, i) ensures BlockAddr(b.stmts, b.addr) == b.stmts[i].addr + b.stmts[i].delta {
      FirstMarkIsAddr(b.stmts, b.addr, i);
    }
  }

  predicate FirstMark(stmts: seq<Stmt>, i: int)
  {
    0 <= i < |stmts| && stmts[i].IMark? && forall j :: 0 <= j < i ==> !stmts[j].IMark?
  }

  lemma {:induction false} NoMark(stmts: seq<Stmt>, addr: nat)
    requires forall i :: 0 <= i < |stmts| ==> !stmts[i].IMark?
    ensures BlockAddr(stmts, addr) == addr
  {
    if stmts != [] { NoMark(stmts[1..], addr); }
  }

  lemma {:induction false} FirstMarkIsAddr(stmts: seq<Stmt>, addr: nat, i: nat)
    requires FirstMark(stmts, i)
    ensures BlockAddr(stmts, addr) == stmts[i].addr + stmts[i].delta
  {
    if i > 0 {
      assert !stmts[0].IMark? && stmts[1..][i - 1] == stmts[i];
      FirstMarkIsAddr(stmts[1..], addr, i - 1);
    }
  }

  // --------------------------------------------------------------------------
  // What the converted block does

  lemma {:induction false} AssignmentPreserved(dst: Ail.Expr, data: Expr, tyenv: TyEnv, st: State)
    requires Typed(data, tyenv) && StateTyped(st, tyenv) && Scalar(data)
    ensures Ail.Exec(Ail.Assignment(dst, ConvertExpr(data, tyenv)), st)
         == match Eval(data, tyenv, st) case Some(v) => Fell(Ail.Assign(st, dst, v)) case None => Fault
  {
    ExprPreserved(data, tyenv, st);
  }

  lemma {:induction false} StorePreserved(stmt: Stmt, tyenv: TyEnv, wordBits: nat, st: State)
    requires stmt.Store? && StmtTyped(stmt, tyenv) && StateTyped(st, tyenv)
    ensures Ail.Exec(ConvertStmt(stmt, tyenv, wordBits).value, st) == Exec(stmt, tyenv, st)
  {
    ExprPreserved(stmt.saddr, tyenv, st);
    ExprPreserved(stmt.data, tyenv, st);
  }

  lemma {:induction false} ExitPreserved(stmt: Stmt, tyenv: TyEnv, wordBits: nat, st: State)
    requires stmt.Exit? && !IsTrapExit(stmt) && StmtTyped(stmt, tyenv) && StateTyped(st, tyenv)
    ensures Ail.Exec(ConvertStmt(stmt, tyenv, wordBits).value, st) == Exec(stmt, tyenv, st)
  {
    ExprPreserved(stmt.guard, tyenv, st);
  }

  lemma {:induction false} StmtPreserved(stmt: Stmt, tyenv: TyEnv, wordBits: nat, st: State)
    requires StmtTyped(stmt, tyenv) && StateTyped(st, tyenv) && !IsTrapExit(stmt)
    ensures match ConvertStmt(stmt, tyenv, wordBits)
            case Some(s) => Ail.Exec(s, st) == Exec(stmt, tyenv, st)
            case None => Exec(stmt, tyenv, st) == Fell(st)
  {
    match stmt
    case WrTmp(t, data) =>
      TypedIsScalar(data, tyenv);
      AssignmentPreserved(Ail.Tmp(None, t, Bits(data, tyenv)), data, tyenv, st);
    case Put(offset, data) =>
      TypedIsScalar(data, tyenv);
      BitsPreserved(data, tyenv);
      AssignmentPreserved(Ail.Register(None, offset, Bits(data, tyenv)), data, tyenv, st);
    case Store(_, _, _) => StorePreserved(stmt, tyenv, wordBits, st);
    case Exit(_, _, _) => ExitPreserved(stmt, tyenv, wordBits, st);
    case _ =>
  }

  function NoTraps(stmts: seq<Stmt>): seq<Stmt>
  {
    if stmts == [] then []
    else if IsTrapExit(stmts[0]) then NoTraps(stmts[1..])
    else [stmts[0]] + NoTraps(stmts[1..])
  }

  predicate HasExit(stmts: seq<Stmt>) { exists i :: 0 <= i < |stmts| && stmts[i].Exit? && !IsTrapExit(stmts[i]) }

  /** The statements up to the last kept exit. */
  function UpToLastExit(stmts: seq<Stmt>): (r: seq<Stmt>)
    ensures r <= stmts
  {
    if stmts == [] then []
    else if stmts[0].Exit? && !HasExit(stmts[1..]) then [stmts[0]]
    else [stmts[0]] + UpToLastExit(stmts[1..])
  }

  /** The part of a block that its conversion represents. */
  function Represented(b: Irsb): Irsb
  {
    var stmts := NoTraps(b.stmts);
    b.(stmts := if b.jumpkind == Boring && HasExit(stmts) then UpToLastExit(stmts) else stmts)
  }

  lemma {:induction false} NoTrapsTyped(stmts: seq<Stmt>, tyenv: TyEnv)
    requires StmtsTyped(stmts, tyenv)
    ensures StmtsTyped(NoTraps(stmts), tyenv)
    ensures forall i :: 0 <= i < |NoTraps(stmts)| ==> !IsTrapExit(NoTraps(stmts)[i])
  {
    if stmts != [] { NoTrapsTyped(stmts[1..], tyenv); }
  }

  lemma {:induction false} NoTrapsConvert(stmts: seq<Stmt>, tyenv: TyEnv, wordBits: nat)
    requires StmtsTyped(stmts, tyenv)
    ensures StmtsTyped(NoTraps(stmts), tyenv)
    ensures ConvertStmts(NoTraps(stmts), tyenv, wordBits) == ConvertStmts(stmts, tyenv, wordBits)
  {
    NoTrapsTyped(stmts, tyenv);
    if stmts != [] {
      NoTrapsConvert(stmts[1..], tyenv, wordBits);
      if !IsTrapExit(stmts[0]) { assert NoTraps(stmts)[1..] == NoTraps(stmts[1..]); }
    }
  }

  predicate TrapFree(stmts: seq<Stmt>) { forall i :: 0 <= i < |stmts| ==> !IsTrapExit(stmts[i]) }

  lemma {:induction false} StmtsPreserved(stmts: seq<Stmt>, tyenv: TyEnv, wordBits: nat, st: State)
    requires StmtsTyped(stmts, tyenv) && TrapFree(stmts) && StateTyped(st, tyenv)
    ensures Ail.Run(ConvertStmts(stmts, tyenv, wordBits), st) == RunStmts(stmts, tyenv, st)
    decreases |stmts|
  {
    if stmts != [] {
      StmtPreserved(stmts[0], tyenv, wordBits, st);
      var o := Exec(stmts[0], tyenv, st);
      if o.Fell? {
        ExecKeepsTyped(stmts[0], tyenv, st);
        StmtsPreserved(stmts[1..], tyenv, wordBits, o.state);
      }
    }
  }

  lemma {:induction false} JumpsAreExits(stmts: seq<Stmt>, tyenv: TyEnv, wordBits: nat)
    requires StmtsTyped(stmts, tyenv)
    ensures HasJump(ConvertStmts(stmts, tyenv, wordBits)) <==> HasExit(stmts)
  {
    if stmts != [] {
      JumpsAreExits(stmts[1..], tyenv, wordBits);
      HasExitOfRest(stmts);
      HasJumpOfRest(ConvertStmts(stmts, tyenv, wordBits));
    }
  }

  lemma {:induction false} HasExitOfRest(stmts: seq<Stmt>)
    requires stmts != []
    ensures HasExit(stmts) <==> (stmts[0].Exit? && !IsTrapExit(stmts[0])) || HasExit(stmts[1..])
  {
    assert forall i :: 0 < i < |stmts| ==> stmts[i] == stmts[1..][i - 1];
  }

  lemma {:induction false} HasJumpOfRest(stmts: seq<Ail.Stmt>)
    ensures stmts != [] ==> (HasJump(stmts) <==> stmts[0].ConditionalJump? || HasJump(stmts[1..]))
  {
    if stmts != [] { assert forall i :: 0 < i < |stmts| ==> stmts[i] == stmts[1..][i - 1]; }
  }

  /** The patched conversion stops at the last exit, and nowhere else. */
  lemma {:induction false} PatchedPreserved(b: Irsb, stmts: seq<Stmt>, st: State)
    requires StmtsTyped(stmts, b.tyenv) && TrapFree(stmts) && HasExit(stmts) && StateTyped(st, b.tyenv)
    requires Typed(b.next, b.tyenv) && b.jumpkind == Boring
    ensures StmtsTyped(UpToLastExit(stmts), b.tyenv)
    ensures Ail.Run(Patched(ConvertStmts(stmts, b.tyenv, b.wordBits), ConvertExpr(b.next, b.tyenv)), st)
         == match RunStmts(UpToLastExit(stmts), b.tyenv, st) case Fell(st') => Leave(b, st') case o => o
    decreases |stmts|
  {
    var (first, rest) := (stmts[0], stmts[1..]);
    var next, tail := ConvertExpr(b.next, b.tyenv), ConvertStmts(rest, b.tyenv, b.wordBits);
    UpToLastExitTyped(stmts, b.tyenv);
    UpToLastExitTyped(rest, b.tyenv);
    HasExitOfRest(stmts);
    JumpsAreExits(rest, b.tyenv, b.wordBits);
    StmtPreserved(first, b.tyenv, b.wordBits, st);
    if HasExit(rest) {
      var o := Exec(first, b.tyenv, st);
      if o.Fell? {
        ExecKeepsTyped(first, b.tyenv, st);
        PatchedPreserved(b, rest, o.state);
      }
      UpToLastExitStep(stmts, b.tyenv, st);
      if ConvertStmt(first, b.tyenv, b.wordBits).Some? {
        assert ConvertStmts(stmts, b.tyenv, b.wordBits)[1..] == tail;
        PatchedStep(ConvertStmts(stmts, b.tyenv, b.wordBits), next, st);
      }
    } else {
      LastExitPreserved(b, first, tail, st);
    }
  }

  lemma {:induction false} UpToLastExitTyped(stmts: seq<Stmt>, tyenv: TyEnv)
    requires StmtsTyped(stmts, tyenv)
    ensures StmtsTyped(UpToLastExit(stmts), tyenv)
  {
    if stmts != [] { UpToLastExitTyped(stmts[1..], tyenv); }
  }

  /** Before the last exit both sides run the first statement and go on. */
  lemma {:induction false} UpToLastExitStep(stmts: seq<Stmt>, tyenv: TyEnv, st: State)
    requires StmtsTyped(stmts, tyenv) && stmts != [] && HasExit(stmts[1..])
    requires StmtsTyped(UpToLastExit(stmts), tyenv) && StmtsTyped(UpToLastExit(stmts[1..]), tyenv)
    ensures RunStmts(UpToLastExit(stmts), tyenv, st)
         == match Exec(stmts[0], tyenv, st)
            case Fell(st') => RunStmts(UpToLastExit(stmts[1..]), tyenv, st')
            case o => o
  {
    assert UpToLastExit(stmts)[1..] == UpToLastExit(stmts[1..]);
  }

  lemma {:induction false} PatchedStep(all: seq<Ail.Stmt>, next: Ail.Expr, st: State)
    requires all != [] && HasJump(all[1..])
    ensures Ail.Run(Patched(all, next), st)
         == match Ail.Exec(all[0], st) case Fell(st') => Ail.Run(Patched(all[1..], next), st') case o => o
  {
    assert Patched(all, next)[1..] == Patched(all[1..], next);
  }

  lemma {:induction false} LastExitPreserved(b: Irsb, exit: Stmt, tail: seq<Ail.Stmt>, st: State)
    requires StmtTyped(exit, b.tyenv) && exit.Exit? && !IsTrapExit(exit) && !HasJump(tail) && StateTyped(st, b.tyenv)
    requires Typed(b.next, b.tyenv) && b.jumpkind == Boring
    ensures Ail.Run(Patched([ConvertStmt(exit, b.tyenv, b.wordBits).value] + tail, ConvertExpr(b.next, b.tyenv)), st)
         == match RunStmts([exit], b.tyenv, st) case Fell(st') => Leave(b, st') case o => o
  {
    ExitPreserved(exit, b.tyenv, b.wordBits, st);
    ExprPreserved(b.next, b.tyenv, st);
    var jump := ConvertStmt(exit, b.tyenv, b.wordBits).value;
    var patched := Patched([jump] + tail, ConvertExpr(b.next, b.tyenv));
    assert ([jump] + tail)[1..] == tail;
    assert !Ail.Exec(patched[0], st).Fell?;
  }

  lemma {:induction false} RepresentedTyped(b: Irsb)
    requires BlockTyped(b)
    ensures BlockTyped(Represented(b))
  {
    NoTrapsTyped(b.stmts, b.tyenv);
    UpToLastExitTyped(NoTraps(b.stmts), b.tyenv);
  }

  /** The converted block does exactly what the represented part of the original does, from every state. */
  lemma {:induction false} ConversionExact(b: Irsb, st: State)
    requires BlockTyped(b) && StateTyped(st, b.tyenv) && Converted(b).Some?
    ensures BlockTyped(Represented(b))
    ensures Ail.Run(Converted(b).value.stmts, st) == Run(Represented(b), st)
  {
    RepresentedTyped(b);
    NoTrapsTyped(b.stmts, b.tyenv);
    NoTrapsConvert(b.stmts, b.tyenv, b.wordBits);
    JumpsAreExits(NoTraps(b.stmts), b.tyenv, b.wordBits);
    if b.jumpkind == Boring && HasExit(NoTraps(b.stmts)) {
      PatchedPreserved(b, NoTraps(b.stmts), st);
    } else {
      StmtsPreserved(NoTraps(b.stmts), b.tyenv, b.wordBits, st);
      RunKeepsTyped(NoTraps(b.stmts), b.tyenv, st);
      Ail.RunConcat(ConvertStmts(b.stmts, b.tyenv, b.wordBits), [EndStmt(b).value], st);
      var o := RunStmts(NoTraps(b.stmts), b.tyenv, st);
      if o.Fell? { EndPreserved(b, o.state); }
    }
  }

  lemma {:induction false} RunKeepsTyped(stmts: seq<Stmt>, tyenv: TyEnv, st: State)
    requires StmtsTyped(stmts, tyenv) && StateTyped(st, tyenv)
    ensures var o := RunStmts(stmts, tyenv, st); o.Fell? ==> StateTyped(o.state, tyenv)
    decreases |stmts|
  {
    if stmts != [] {
      var o := Exec(stmts[0], tyenv, st);
      if o.Fell? {
        ExecKeepsTyped(stmts[0], tyenv, st);
        RunKeepsTyped(stmts[1..], tyenv, o.state);
      }
    }
  }

  lemma {:induction false} EndPreserved(b: Irsb, st: State)
    requires Typed(b.next, b.tyenv) && StateTyped(st, b.tyenv) && EndStmt(b).Some?
    ensures Ail.Run([EndStmt(b).value], st) == Leave(b, st)
  {
    ExprPreserved(b.next, b.tyenv, st);
  }

  // --------------------------------------------------------------------------
  // When nothing of the block is lost

  /** Nothing happens after the last kept exit. */
  predicate ExitLast(stmts: seq<Stmt>)
  {
    if stmts == [] then true
    else if HasExit(stmts[1..]) then ExitLast(stmts[1..])
    else if stmts[0].Exit? && !IsTrapExit(stmts[0]) then Quiet(stmts[1..])
    else true
  }

  predicate Quiet(stmts: seq<Stmt>)
  {
    forall i :: 0 <= i < |stmts| ==> stmts[i].IMark? || stmts[i].AbiHint? || IsTrapExit(stmts[i])
  }

  /** Exit guards are atoms, as in every block VEX hands out. */
  predicate FlatTraps(stmts: seq<Stmt>)
  {
    forall i :: 0 <= i < |stmts| && IsTrapExit(stmts[i]) ==> IsAtom(stmts[i].guard)
  }

  lemma {:induction false} WithoutTraps(stmts: seq<Stmt>, tyenv: TyEnv, st: State)
    requires StmtsTyped(stmts, tyenv) && FlatTraps(stmts)
    ensures StmtsTyped(NoTraps(stmts), tyenv)
    ensures !RunStmts(NoTraps(stmts), tyenv, st).Trapped?
    ensures !RunStmts(stmts, tyenv, st).Trapped? ==> RunStmts(NoTraps(stmts), tyenv, st) == RunStmts(stmts, tyenv, st)
    decreases |stmts|
  {
    NoTrapsTyped(stmts, tyenv);
    if stmts != [] {
      var o := Exec(stmts[0], tyenv, st);
      if o.Fell? { WithoutTraps(stmts[1..], tyenv, o.state); }
      if IsTrapExit(stmts[0]) {
        WithoutTraps(stmts[1..], tyenv, st);
      } else {
        assert NoTraps(stmts)[1..] == NoTraps(stmts[1..]);
      }
    }
  }

  /** Marks and hints after the last exit change nothing. */
  lemma {:induction false} UpToLastExitRuns(stmts: seq<Stmt>, tyenv: TyEnv, st: State)
    requires StmtsTyped(stmts, tyenv) && TrapFree(stmts) && HasExit(stmts) && ExitLast(stmts)
    ensures StmtsTyped(UpToLastExit(stmts), tyenv)
    ensures RunStmts(UpToLastExit(stmts), tyenv, st) == RunStmts(stmts, tyenv, st)
    decreases |stmts|
  {
    UpToLastExitTyped(stmts, tyenv);
    UpToLastExitTyped(stmts[1..], tyenv);
    HasExitOfRest(stmts);
    var o := Exec(stmts[0], tyenv, st);
    if HasExit(stmts[1..]) {
      if o.Fell? { UpToLastExitRuns(stmts[1..], tyenv, o.state); }
      UpToLastExitStep(stmts, tyenv, st);
    } else if o.Fell? {
      QuietRuns(stmts[1..], tyenv, o.state);
    }
  }

  lemma {:induction false} QuietRuns(stmts: seq<Stmt>, tyenv: TyEnv, st: State)
    requires StmtsTyped(stmts, tyenv) && TrapFree(stmts) && Quiet(stmts)
    ensures RunStmts(stmts, tyenv, st) == Fell(st)
    decreases |stmts|
  {
    if stmts != [] { QuietRuns(stmts[1..], tyenv, st); }
  }

  lemma {:induction false} HasExitWithoutTraps(stmts: seq<Stmt>)
    ensures HasExit(NoTraps(stmts)) <==> HasExit(stmts)
    ensures Quiet(stmts) ==> Quiet(NoTraps(stmts))
  {
    if stmts != [] {
      HasExitWithoutTraps(stmts[1..]);
      HasExitOfRest(stmts);
      if !IsTrapExit(stmts[0]) {
        HasExitOfRest(NoTraps(stmts));
        assert NoTraps(stmts)[1..] == NoTraps(stmts[1..]);
      }
    }
  }

  lemma {:induction false} ExitLastWithoutTraps(stmts: seq<Stmt>)
    requires ExitLast(stmts)
    ensures ExitLast(NoTraps(stmts))
  {
    HasExitWithoutTraps(stmts);
    if stmts != [] {
      HasExitWithoutTraps(stmts[1..]);
      if HasExit(stmts[1..]) {
        ExitLastWithoutTraps(stmts[1..]);
      } else {
        NoExitIsLast(NoTraps(stmts[1..]));
      }
      if !IsTrapExit(stmts[0]) { assert NoTraps(stmts)[1..] == NoTraps(stmts[1..]); }
    }
  }

  lemma {:induction false} NoExitIsLast(stmts: seq<Stmt>)
    requires !HasExit(stmts)
    ensures ExitLast(stmts)
  {
    if stmts != [] { HasExitOfRest(stmts); }
  }

  /** A block with nothing after its last kept exit is preserved on exactly the runs that take no skipped exit. */
  lemma {:induction false} BlockPreserved(b: Irsb, st: State)
    requires BlockTyped(b) && StateTyped(st, b.tyenv) && Converted(b).Some? && FlatTraps(b.stmts)
    requires b.jumpkind == Boring ==> ExitLast(b.stmts)
    ensures Ail.Run(Converted(b).value.stmts, st) == Run(b, st) <==> !Run(b, st).Trapped?
  {
    ConversionExact(b, st);
    RepresentedTyped(b);
    WithoutTraps(b.stmts, b.tyenv, st);
    if b.jumpkind == Boring && HasExit(NoTraps(b.stmts)) {
      NoTrapsTyped(b.stmts, b.tyenv);
      ExitLastWithoutTraps(b.stmts);
      UpToLastExitRuns(NoTraps(b.stmts), b.tyenv, st);
    }
  }

  // --------------------------------------------------------------------------
  // Exactly which runs are preserved

  /** What the conversion of a block that goes on elsewhere drops. */
  function AfterLastExit(stmts: seq<Stmt>): seq<Stmt> { stmts[|UpToLastExit(stmts)|..] }

  /** In this run, what follows the last kept exit is not reached or changes nothing. */
  predicate TailChangesNothing(stmts: seq<Stmt>, tyenv: TyEnv, st: State)
    requires StmtsTyped(stmts, tyenv)
  {
    match RunStmts(UpToLastExit(stmts), tyenv, st)
    case Fell(st') => RunStmts(AfterLastExit(stmts), tyenv, st') == Fell(st')
    case _ => true
  }

  predicate NothingLost(b: Irsb, st: State)
    requires BlockTyped(b)
  {
    NoTrapsTyped(b.stmts, b.tyenv);
    b.jumpkind == Boring && HasExit(b.stmts) ==> TailChangesNothing(NoTraps(b.stmts), b.tyenv, st)
  }

  lemma {:induction false} RunStmtsConcat(s: seq<Stmt>, t: seq<Stmt>, tyenv: TyEnv, st: State)
    requires StmtsTyped(s, tyenv) && StmtsTyped(t, tyenv)
    ensures StmtsTyped(s + t, tyenv)
    ensures RunStmts(s + t, tyenv, st)
         == match RunStmts(s, tyenv, st) case Fell(st') => RunStmts(t, tyenv, st') case o => o
    decreases |s|
  {
    if s == [] {
      assert s + t == t;
    } else {
      assert (s + t)[1..] == s[1..] + t;
      var o := Exec(s[0], tyenv, st);
      if o.Fell? { RunStmtsConcat(s[1..], t, tyenv, o.state); }
    }
  }

  lemma {:induction false} NoExitAfterLast(stmts: seq<Stmt>)
    requires TrapFree(stmts)
    ensures !HasExit(AfterLastExit(stmts)) && TrapFree(AfterLastExit(stmts))
  {
    if stmts != [] && HasExit(stmts[1..]) {
      NoExitAfterLast(stmts[1..]);
      assert AfterLastExit(stmts) == AfterLastExit(stmts[1..]);
    } else if stmts != [] {
      HasExitOfRest(stmts);
      if stmts[0].Exit? {
        assert AfterLastExit(stmts) == stmts[1..];
      } else {
        NoExitAfterLast(stmts[1..]);
        assert AfterLastExit(stmts) == AfterLastExit(stmts[1..]);
      }
    }
  }

  lemma {:induction false} WithoutExits(stmts: seq<Stmt>, tyenv: TyEnv, st: State)
    requires StmtsTyped(stmts, tyenv) && TrapFree(stmts) && !HasExit(stmts)
    ensures var o := RunStmts(stmts, tyenv, st); o.Fell? || o == Fault
    decreases |stmts|
  {
    if stmts != [] {
      HasExitOfRest(stmts);
      var o := Exec(stmts[0], tyenv, st);
      if o.Fell? { WithoutExits(stmts[1..], tyenv, o.state); }
    }
  }

  /** How a block ends whose statements end so. */
  function Finish(b: Irsb, o: Outcome): Outcome
    requires Typed(b.next, b.tyenv)
  {
    match o case Fell(st') => Leave(b, st') case _ => o
  }

  lemma {:induction false} TailDecides(b: Irsb, stmts: seq<Stmt>, st: State)
    requires StmtsTyped(stmts, b.tyenv) && TrapFree(stmts)
    requires Typed(b.next, b.tyenv) && IsAtom(b.next) && b.jumpkind == Boring
    ensures Finish(b, RunStmts(UpToLastExit(stmts), b.tyenv, st)) == Finish(b, RunStmts(stmts, b.tyenv, st))
       <==> TailChangesNothing(stmts, b.tyenv, st)
  {
    var upTo, after := UpToLastExit(stmts), AfterLastExit(stmts);
    RunStmtsConcat(upTo, after, b.tyenv, st);
    assert upTo + after == stmts;
    NoExitAfterLast(stmts);
    var o := RunStmts(upTo, b.tyenv, st);
    if o.Fell? { WithoutExits(after, b.tyenv, o.state); }
  }

  /** Statements without traps never trap, and neither does a part of them. */
  lemma {:induction false} NoTrapsNeverTrap(stmts: seq<Stmt>, tyenv: TyEnv, st: State)
    requires StmtsTyped(stmts, tyenv) && TrapFree(stmts)
    ensures !RunStmts(stmts, tyenv, st).Trapped?
    decreases |stmts|
  {
    if stmts != [] {
      var o := Exec(stmts[0], tyenv, st);
      if o.Fell? { NoTrapsNeverTrap(stmts[1..], tyenv, o.state); }
    }
  }

  /** A run of a flat block is preserved if and only if it takes no skipped exit and nothing it does after the
      last kept exit changes the state. */
  lemma {:induction false} RunPreserved(b: Irsb, st: State)
    requires BlockTyped(b) && StateTyped(st, b.tyenv) && Converted(b).Some? && FlatTraps(b.stmts) && IsAtom(b.next)
    ensures Ail.Run(Converted(b).value.stmts, st) == Run(b, st) <==> !Run(b, st).Trapped? && NothingLost(b, st)
  {
    var stmts := NoTraps(b.stmts);
    ConversionExact(b, st);
    RepresentedTyped(b);
    NoTrapsTyped(b.stmts, b.tyenv);
    WithoutTraps(b.stmts, b.tyenv, st);
    HasExitWithoutTraps(b.stmts);
    if b.jumpkind == Boring && HasExit(stmts) {
      TailDecides(b, stmts, st);
      NoTrapsNeverTrap(UpToLastExit(stmts), b.tyenv, st);
    }
  }

  /** The condition on the last exit is needed: what a statement after it changes is lost. */
  lemma {:induction false} TrailingStatementLost(b: Irsb, exit: Stmt, last: Stmt, st: State)
    requires BlockTyped(b) && StateTyped(st, b.tyenv) && b.jumpkind == Boring
    requires IsAtom(b.next) && b.stmts == [exit, last]
    requires StmtTyped(exit, b.tyenv) && StmtTyped(last, b.tyenv)
    requires exit.Exit? && exit.jumpkind == Boring && Exec(exit, b.tyenv, st) == Fell(st)
    requires last.WrTmp? && Exec(last, b.tyenv, st).Fell? && Exec(last, b.tyenv, st).state != st
    ensures !Run(b, st).Trapped? && Ail.Run(Converted(b).value.stmts, st) != Run(b, st)
  {
    OnlyExitRepresented(b, exit, last);
    TwoStatements(exit, last, b.tyenv, st);
    RunPreserved(b, st);
  }

  /** A run that takes an exit which the conversion skips. */
  lemma {:induction false} SkippedExitTaken() returns (b: Irsb, st: State)
    ensures BlockTyped(b) && StateTyped(st, b.tyenv) && FlatTraps(b.stmts) && Converted(b).Some?
    ensures Run(b, st).Trapped? && Ail.Run(Converted(b).value.stmts, st) != Run(b, st)
  {
    b := Irsb(0, [Exit(RdTmp(0), 64, SigSEGV)], RdTmp(0), Boring, map[0 := 1], 64);
    st := State(map[0 := 1], map[], map[]);
    RunPreserved(b, st);
  }

  lemma {:induction false} SampleLost() returns (b: Irsb, st: State)
    ensures BlockTyped(b) && StateTyped(st, b.tyenv) && FlatTraps(b.stmts) && Converted(b).Some?
    ensures !Run(b, st).Trapped? && Ail.Run(Converted(b).value.stmts, st) != Run(b, st)
  {
    var exit, copy := Exit(RdTmp(0), 64, Boring), WrTmp(1, RdTmp(0));
    b := Irsb(0, [exit, copy], RdTmp(0), Boring, map[0 := 1, 1 := 1], 64);
    st := State(map[0 := 0], map[], map[]);
    assert 1 !in st.temps && 1 in st.temps[1 := 0];
    TrailingStatementLost(b, exit, copy, st);
  }

  lemma {:induction false} OnlyExitRepresented(b: Irsb, exit: Stmt, copy: Stmt)
    requires b.stmts == [exit, copy] && exit.Exit? && exit.jumpkind == Boring && copy.WrTmp? && b.jumpkind == Boring
    ensures NoTraps(b.stmts) == b.stmts && UpToLastExit(b.stmts) == [exit]
    ensures AfterLastExit(b.stmts) == [copy] && HasExit(b.stmts)
  {
    assert [exit, copy][1..] == [copy] && [copy][1..] == [];
    assert NoTraps([copy]) == [copy] + NoTraps([copy][1..]);
    assert NoTraps(b.stmts) == [exit] + NoTraps(b.stmts[1..]);
    assert NoTraps(b.stmts) == [exit, copy];
    assert [exit, copy][0] == exit && HasExit([exit, copy]) && !HasExit([copy]);
  }

  lemma {:induction false} TwoStatements(s: Stmt, t: Stmt, tyenv: TyEnv, st: State)
    requires StmtTyped(s, tyenv) && StmtTyped(t, tyenv) && Exec(s, tyenv, st) == Fell(st)
    ensures StmtsTyped([s, t], tyenv) && RunStmts([s, t], tyenv, st) == Exec(t, tyenv, st)
    ensures StmtsTyped([s], tyenv) && RunStmts([s], tyenv, st) == Fell(st)
    ensures RunStmts([t], tyenv, st) == Exec(t, tyenv, st)
  {
    assert [s, t][1..] == [t] && [t][1..] == [] && [s][1..] == [];
    assert RunStmts([t], tyenv, st) == Exec(t, tyenv, st);
  }

  // --------------------------------------------------------------------------
  // The converter's loop

  lemma {:induction false} ConvertConcat(a: seq<Stmt>, b: seq<Stmt>, tyenv: TyEnv, wordBits: nat)
    requires StmtsTyped(a, tyenv) && StmtsTyped(b, tyenv)
    ensures StmtsTyped(a + b, tyenv)
    ensures ConvertStmts(a + b, tyenv, wordBits) == ConvertStmts(a, tyenv, wordBits) + ConvertStmts(b, tyenv, wordBits)
  {
    if a == [] {
      assert a + b == b;
    } else {
      assert (a + b)[1..] == a[1..] + b;
      ConvertConcat(a[1..], b, tyenv, wordBits);
    }
  }

  /** The index of the last conditional jump. */
  predicate IsLastJump(stmts: seq<Ail.Stmt>, j: Option<nat>)
  {
    match j
    case None => !HasJump(stmts)
    case Some(i) =>
      i < |stmts| && stmts[i].ConditionalJump? && forall k :: i < k < |stmts| ==> !stmts[k].ConditionalJump?
  }

  lemma {:induction false} LastJumpGrows(stmts: seq<Ail.Stmt>, j: Option<nat>, s: Ail.Stmt)
    requires IsLastJump(stmts, j)
    ensures IsLastJump(stmts + [s], if s.ConditionalJump? then Some(|stmts|) else j)
  {
  }

  lemma {:induction false} PatchedAtIndex(stmts: seq<Ail.Stmt>, next: Ail.Expr, j: nat)
    requires IsLastJump(stmts, Some(j))
    ensures HasJump(stmts) && Patched(stmts, next) == stmts[j := stmts[j].(falseTarget := Some(next))]
  {
    HasJumpOfRest(stmts);
    if j > 0 {
      PatchedAtIndex(stmts[1..], next, j - 1);
    } else {
      assert !HasJump(stmts[1..]);
    }
  }

  method ConvertBlock(b: Irsb) returns (r: Option<Ail.Block>)
    requires BlockTyped(b)
    ensures r == Converted(b)
  {
    var statements: seq<Ail.Stmt> := [];
    var addr, firstMark := b.addr, true;
    var lastJump: Option<nat> := None;
    for i := 0 to |b.stmts|
      invariant StmtsTyped(b.stmts[..i], b.tyenv) && statements == ConvertStmts(b.stmts[..i], b.tyenv, b.wordBits)
      invariant IsLastJump(statements, lastJump)
      invariant firstMark ==> addr == b.addr && BlockAddr(b.stmts, b.addr) == BlockAddr(b.stmts[i..], b.addr)
      invariant !firstMark ==> addr == BlockAddr(b.stmts, b.addr)
    {
      var stmt := b.stmts[i];
      ConvertConcat(b.stmts[..i], [stmt], b.tyenv, b.wordBits);
      assert b.stmts[..i] + [stmt] == b.stmts[..i + 1];
      assert b.stmts[i..][1..] == b.stmts[i + 1..];
      if stmt.IMark? && firstMark { addr, firstMark := stmt.addr + stmt.delta, false; }
      var converted := ConvertStmt(stmt, b.tyenv, b.wordBits);
      OneStmt(stmt, b.tyenv, b.wordBits);
      if converted.Some? {
        LastJumpGrows(statements, lastJump, converted.value);
        if converted.value.ConditionalJump? { lastJump := Some(|statements|); }
        statements := statements + [converted.value];
      }
    }
    assert b.stmts[..|b.stmts|] == b.stmts;
    var next := ConvertExpr(b.next, b.tyenv);
    match b.jumpkind
    case Call => r := Some(Ail.Block(addr, statements + [Ail.Call(next)]));
    case Boring =>
      if lastJump.Some? {
        PatchedAtIndex(statements, next, lastJump.value);
        statements := statements[lastJump.value := statements[lastJump.value].(falseTarget := Some(next))];
      } else {
        statements := statements + [Ail.Jump(next)];
      }
      r := Some(Ail.Block(addr, statements));
    case Ret => r := Some(Ail.Block(addr, statements + [Ail.Return]));
    case _ => r := None;
  }

  lemma {:induction false} OneStmt(stmt: Stmt, tyenv: TyEnv, wordBits: nat)
    requires StmtTyped(stmt, tyenv)
    ensures StmtsTyped([stmt], tyenv)
    ensures ConvertStmts([stmt], tyenv, wordBits)
         == match ConvertStmt(stmt, tyenv, wordBits) case Some(s) => [s] case None => []
  {
    assert [stmt][1..] == [];
  }
}

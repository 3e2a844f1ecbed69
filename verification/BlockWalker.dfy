/** The AIL block walker with a handler that rewrites temps, as used to propagate known values. */
module BlockWalker {
  import opened Wrappers
  import opened MachineState
  import opened Ail

  /** What `_handle_Tmp` puts in place of a temp; other temps are left alone. */
  type Rewrites = map<nat, Expr>

  /** How many temps are still to be rewritten. */
  function Pending(e: Expr, rewrites: Rewrites): nat
  {
    match e
    case Tmp(_, t, _) => if t in rewrites then 1 else 0
    case UnaryOp(_, _, x, _) => Pending(x, rewrites)
    case Convert(_, _, _, _, x) => Pending(x, rewrites)
    case BinaryOp(_, _, x, y, _, _) => Pending(x, rewrites) + Pending(y, rewrites)
    case Load(_, x, _, _) => Pending(x, rewrites)
    case ITE(_, c, f, t) => Pending(c, rewrites) + Pending(f, rewrites) + Pending(t, rewrites)
    case _ => 0
  }

  // --------------------------------------------------------------------------
  // When handling ends

  /** At most n rewrites are nested in handling the expression. */
  ghost predicate Within(e: Expr, rewrites: Rewrites, n: nat)
    decreases n, e
  {
    match e
    case Tmp(_, t, _) => t in rewrites ==> n > 0 && Within(rewrites[t], rewrites, n - 1)
    case UnaryOp(_, _, x, _) => Within(x, rewrites, n)
    case Convert(_, _, _, _, x) => Within(x, rewrites, n)
    case BinaryOp(_, _, x, y, _, _) => Within(x, rewrites, n) && Within(y, rewrites, n)
    case Load(_, x, _, _) => Within(x, rewrites, n)
    case ITE(_, c, f, t) => Within(c, rewrites, n) && Within(f, rewrites, n) && Within(t, rewrites, n)
    case _ => true
  }

  /** There is a bound on nested rewrites. */
  ghost predicate Ends(e: Expr, rewrites: Rewrites) { exists n: nat :: Within(e, rewrites, n) }

  lemma {:induction false} WithinMore(e: Expr, rewrites: Rewrites, n: nat, m: nat)
    requires Within(e, rewrites, n) && n <= m
    ensures Within(e, rewrites, m)
    decreases n, e
  {
    match e
    case Tmp(_, t, _) => if t in rewrites { WithinMore(rewrites[t], rewrites, n - 1, m - 1); }
    case UnaryOp(_, _, x, _) => WithinMore(x, rewrites, n, m);
    case Convert(_, _, _, _, x) => WithinMore(x, rewrites, n, m);
    case BinaryOp(_, _, x, y, _, _) => WithinMore(x, rewrites, n, m); WithinMore(y, rewrites, n, m);
    case Load(_, x, _, _) => WithinMore(x, rewrites, n, m);
    case ITE(_, c, f, t) =>
      WithinMore(c, rewrites, n, m);
      WithinMore(f, rewrites, n, m);
      WithinMore(t, rewrites, n, m);
    case _ =>
  }

  lemma {:induction false} NoLess(e: Expr, rewrites: Rewrites, n: nat)
    requires n == 0 || !Within(e, rewrites, n - 1)
    ensures forall m: nat :: Within(e, rewrites, m) ==> n <= m
  {
    forall m: nat | Within(e, rewrites, m) ensures n <= m {
      if m < n { WithinMore(e, rewrites, m, n - 1); }
    }
  }

  ghost function Least(e: Expr, rewrites: Rewrites, n: nat): (h: nat)
    requires Within(e, rewrites, n)
    ensures Within(e, rewrites, h) && forall m: nat :: Within(e, rewrites, m) ==> h <= m
  {
    if n > 0 && Within(e, rewrites, n - 1) then Least(e, rewrites, n - 1)
    else
      NoLess(e, rewrites, n);
      n
  }

  /** The least bound on nested rewrites. */
  ghost function Height(e: Expr, rewrites: Rewrites): (h: nat)
    requires Ends(e, rewrites)
    ensures Within(e, rewrites, h) && forall m: nat :: Within(e, rewrites, m) ==> h <= m
  {
    var n :| Within(e, rewrites, n);
    Least(e, rewrites, n)
  }

  lemma {:induction false} WithinZero(e: Expr, rewrites: Rewrites)
    ensures Within(e, rewrites, 0) <==> Pending(e, rewrites) == 0
  {
    match e
    case UnaryOp(_, _, x, _) => WithinZero(x, rewrites);
    case Convert(_, _, _, _, x) => WithinZero(x, rewrites);
    case BinaryOp(_, _, x, y, _, _) => WithinZero(x, rewrites); WithinZero(y, rewrites);
    case Load(_, x, _, _) => WithinZero(x, rewrites);
    case ITE(_, c, f, t) => WithinZero(c, rewrites); WithinZero(f, rewrites); WithinZero(t, rewrites);
    case _ =>
  }

  ghost predicate EndsBy(e: Expr, rewrites: Rewrites, h: int) { Ends(e, rewrites) && Height(e, rewrites) <= h }

  lemma {:induction false} WithinEnds(e: Expr, rewrites: Rewrites, n: nat)
    requires Within(e, rewrites, n)
    ensures EndsBy(e, rewrites, n)
  {
  }

  /** The parts of an expression end no later, and what replaces a temp ends earlier. */
  lemma {:induction false} Parts(e: Expr, rewrites: Rewrites)
    requires Ends(e, rewrites)
    ensures var h := Height(e, rewrites);
            match e
            case Tmp(_, t, _) => t in rewrites ==> EndsBy(rewrites[t], rewrites, h - 1)
            case UnaryOp(_, _, x, _) => EndsBy(x, rewrites, h)
            case Convert(_, _, _, _, x) => EndsBy(x, rewrites, h)
            case BinaryOp(_, _, x, y, _, _) => EndsBy(x, rewrites, h) && EndsBy(y, rewrites, h)
            case Load(_, x, _, _) => EndsBy(x, rewrites, h)
            case ITE(_, c, f, t) => EndsBy(c, rewrites, h) && EndsBy(f, rewrites, h) && EndsBy(t, rewrites, h)
            case _ => true
  {
    var h := Height(e, rewrites);
    match e
    case Tmp(_, t, _) => if t in rewrites { WithinEnds(rewrites[t], rewrites, h - 1); }
    case UnaryOp(_, _, x, _) => WithinEnds(x, rewrites, h);
    case Convert(_, _, _, _, x) => WithinEnds(x, rewrites, h);
    case BinaryOp(_, _, x, y, _, _) => WithinEnds(x, rewrites, h); WithinEnds(y, rewrites, h);
    case Load(_, x, _, _) => WithinEnds(x, rewrites, h);
    case ITE(_, c, f, t) => WithinEnds(c, rewrites, h); WithinEnds(f, rewrites, h); WithinEnds(t, rewrites, h);
    case _ =>
  }

  /** What a handler returns is closer to the end. */
  lemma {:induction false} NextIsLower(e: Expr, e': Expr, rewrites: Rewrites)
    requires Ends(e, rewrites) && Pending(e, rewrites) > 0
    requires if e.Tmp? then e.tmp in rewrites && e' == rewrites[e.tmp] else Pending(e', rewrites) == 0
    ensures Ends(e', rewrites) && Height(e', rewrites) < Height(e, rewrites)
  {
    WithinZero(e, rewrites);
    WithinZero(e', rewrites);
    if e.Tmp? { Parts(e, rewrites); } else { WithinEnds(e', rewrites, 0); }
  }

  function OrSelf(r: Option<Expr>, e: Expr): Expr { if r.Some? then r.value else e }

  /** `_handle_expr`: what a handler rebuilt is handled once more. */
  function HandleExpr(e: Expr, rewrites: Rewrites): (r: Option<Expr>)
    requires Ends(e, rewrites)
    ensures r.Some? <==> Pending(e, rewrites) > 0
    ensures r.Some? ==> Pending(r.value, rewrites) == 0
    decreases Height(e, rewrites), e, 2
  {
    match Handler(e, rewrites)
    case None => None
    case Some(e') =>
      NextIsLower(e, e', rewrites);
      Some(OrSelf(HandleExpr(e', rewrites), e'))
  }

  /** The handler for the type of the expression; none when nothing changed. */
  function Handler(e: Expr, rewrites: Rewrites): (r: Option<Expr>)
    requires Ends(e, rewrites)
    ensures r.Some? <==> Pending(e, rewrites) > 0
    ensures r.Some? ==>
              if e.Tmp? then e.tmp in rewrites && r.value == rewrites[e.tmp] else Pending(r.value, rewrites) == 0
    decreases Height(e, rewrites), e, 1
  {
    Parts(e, rewrites);
    match e
    case Tmp(_, t, _) => if t in rewrites then Some(rewrites[t]) else None
    case UnaryOp(i, op, x, n) =>
      (match HandleExpr(x, rewrites)
       case Some(x') => Some(UnaryOp(i, op, x', n))
       case None => None)
    case Convert(i, from, to, s, x) =>
      (match HandleExpr(x, rewrites)
       case Some(x') => Some(Convert(i, from, to, s, x'))
       case None => None)
    case BinaryOp(i, op, x, y, s, n) =>
      var (x', y') := (HandleExpr(x, rewrites), HandleExpr(y, rewrites));
      if x'.None? && y'.None? then None else Some(BinaryOp(i, op, OrSelf(x', x), OrSelf(y', y), s, n))
    case Load(i, x, n, end) =>
      (match HandleExpr(x, rewrites)
       case Some(x') => Some(Load(i, x', n, end))
       case None => None)
    case ITE(_, _, _, _) => HandleITE(e, rewrites)
    case _ => None
  }

  function HandleITE(e: Expr, rewrites: Rewrites): (r: Option<Expr>)
    requires Ends(e, rewrites) && e.ITE?
    ensures r.Some? <==> Pending(e, rewrites) > 0
    ensures r.Some? ==> Pending(r.value, rewrites) == 0
    decreases Height(e, rewrites), e, 0
  {
    Parts(e, rewrites);
    var c', t' := HandleExpr(e.cond, rewrites), HandleExpr(e.iftrue, rewrites);
    var f' := HandleExpr(e.iffalse, rewrites);
    if c'.None? && t'.None? && f'.None? then None
    else Some(ITE(e.idx, OrSelf(c', e.cond), OrSelf(f', e.iffalse), OrSelf(t', e.iftrue)))
  }

  // --------------------------------------------------------------------------
  // Handling with a bound on nested rewrites, and cycles

  /** `_handle_expr` with room for n nested rewrites; none when that is too little. */
  function HandleWithin(e: Expr, rewrites: Rewrites, n: nat): (r: Option<Option<Expr>>)
    ensures r.Some? && r.value.Some? ==> Pending(e, rewrites) > 0 && Pending(r.value.value, rewrites) == 0
    ensures r.Some? && r.value.None? ==> Pending(e, rewrites) == 0
    decreases n, Pending(e, rewrites), e, 1
  {
    match HandlerWithin(e, rewrites, n)
    case None => None
    case Some(None) => Some(None)
    case Some(Some(e')) =>
      (match HandleWithin(e', rewrites, if e.Tmp? then n - 1 else n)
       case None => None
       case Some(r) => Some(Some(OrSelf(r, e'))))
  }

  function HandlerWithin(e: Expr, rewrites: Rewrites, n: nat): (r: Option<Option<Expr>>)
    ensures r.Some? && r.value.None? ==> Pending(e, rewrites) == 0
    ensures r.Some? && r.value.Some? ==> Pending(e, rewrites) > 0
    ensures r.Some? && r.value.Some? ==>
              if e.Tmp? then n > 0 && e.tmp in rewrites && r.value.value == rewrites[e.tmp]
              else Pending(r.value.value, rewrites) == 0
    decreases n, Pending(e, rewrites), e, 0
  {
    match e
    case Tmp(_, t, _) =>
      if t !in rewrites then Some(None) else if n == 0 then None else Some(Some(rewrites[t]))
    case UnaryOp(_, _, x, _) => RebuiltOne(e, HandleWithin(x, rewrites, n))
    case Convert(_, _, _, _, x) => RebuiltOne(e, HandleWithin(x, rewrites, n))
    case BinaryOp(_, _, x, y, _, _) =>
      RebuiltBinary(e, HandleWithin(x, rewrites, n), HandleWithin(y, rewrites, n), rewrites)
    case Load(_, x, _, _) => RebuiltOne(e, HandleWithin(x, rewrites, n))
    case ITE(_, c, f, t) =>
      RebuiltITE(e, HandleWithin(c, rewrites, n), HandleWithin(t, rewrites, n), HandleWithin(f, rewrites, n), rewrites)
    case _ => Some(None)
  }

  ghost predicate Answers(r: Option<Option<Expr>>, e: Expr, rewrites: Rewrites)
  {
    r.Some? ==>
      if r.value.None? then Pending(e, rewrites) == 0
      else Pending(e, rewrites) > 0 && Pending(r.value.value, rewrites) == 0
  }

  function RebuiltBinary(e: Expr, x': Option<Option<Expr>>, y': Option<Option<Expr>>, ghost rewrites: Rewrites)
    : (r: Option<Option<Expr>>)
    requires e.BinaryOp? && Answers(x', e.left, rewrites) && Answers(y', e.right, rewrites)
    ensures Answers(r, e, rewrites)
  {
    if x'.None? || y'.None? then None
    else if x'.value.None? && y'.value.None? then Some(None)
    else Some(Some(BinaryOp(e.idx, e.op, OrSelf(x'.value, e.left), OrSelf(y'.value, e.right), e.signed, e.bits)))
  }

  function RebuiltITE(e: Expr, c': Option<Option<Expr>>, t': Option<Option<Expr>>, f': Option<Option<Expr>>,
                      ghost rewrites: Rewrites): (r: Option<Option<Expr>>)
    requires e.ITE? && Answers(c', e.cond, rewrites)
    requires Answers(t', e.iftrue, rewrites) && Answers(f', e.iffalse, rewrites)
    ensures Answers(r, e, rewrites)
  {
    if c'.None? || t'.None? || f'.None? then None
    else if c'.value.None? && t'.value.None? && f'.value.None? then Some(None)
    else Some(Some(ITE(e.idx, OrSelf(c'.value, e.cond), OrSelf(f'.value, e.iffalse), OrSelf(t'.value, e.iftrue))))
  }

  function RebuiltOne(e: Expr, r: Option<Option<Expr>>): Option<Option<Expr>>
    requires e.UnaryOp? || e.Convert? || e.Load?
  {
    match r
    case None => None
    case Some(None) => Some(None)
    case Some(Some(x)) => Some(Some(if e.Load? then e.(addr := x) else e.(operand := x)))
  }

  /** The bound is enough exactly when no more rewrites are nested, and then it makes no difference. */
  lemma {:induction false} BoundIsEnough(e: Expr, rewrites: Rewrites, n: nat)
    ensures HandleWithin(e, rewrites, n).Some? <==> Within(e, rewrites, n)
    ensures Within(e, rewrites, n) ==> HandleWithin(e, rewrites, n) == Some(HandleExpr(e, rewrites))
    decreases n, e, 1
  {
    HandlerBound(e, rewrites, n);
    var r := HandlerWithin(e, rewrites, n);
    if r.Some? && r.value.Some? {
      if e.Tmp? {
        BoundIsEnough(rewrites[e.tmp], rewrites, n - 1);
      } else {
        NothingLeft(r.value.value, rewrites, n);
      }
    }
  }

  lemma {:induction false} NothingLeft(e: Expr, rewrites: Rewrites, n: nat)
    requires Pending(e, rewrites) == 0
    ensures Within(e, rewrites, 0) && HandleExpr(e, rewrites) == None
    ensures HandleWithin(e, rewrites, n) == Some(None)
  {
    WithinZero(e, rewrites);
    WithinMore(e, rewrites, 0, n);
    NoneIsNone(e, rewrites, n);
  }

  lemma {:induction false} NoneIsNone(e: Expr, rewrites: Rewrites, n: nat)
    requires Pending(e, rewrites) == 0
    ensures HandlerWithin(e, rewrites, n) == Some(None)
  {
    match e
    case UnaryOp(_, _, x, _) => NoneIsNone(x, rewrites, n);
    case Convert(_, _, _, _, x) => NoneIsNone(x, rewrites, n);
    case BinaryOp(_, _, x, y, _, _) => NoneIsNone(x, rewrites, n); NoneIsNone(y, rewrites, n);
    case Load(_, x, _, _) => NoneIsNone(x, rewrites, n);
    case ITE(_, c, f, t) => NoneIsNone(c, rewrites, n); NoneIsNone(f, rewrites, n); NoneIsNone(t, rewrites, n);
    case _ =>
  }

  lemma {:induction false} HandlerBound(e: Expr, rewrites: Rewrites, n: nat)
    ensures Within(e, rewrites, n) ==> HandlerWithin(e, rewrites, n) == Some(Handler(e, rewrites))
    ensures !e.Tmp? ==> (HandlerWithin(e, rewrites, n).Some? <==> Within(e, rewrites, n))
    ensures !Within(e, rewrites, n) && HandlerWithin(e, rewrites, n).Some? ==> e.Tmp? && n > 0
    decreases n, e, 0
  {
    match e
    case UnaryOp(_, _, x, _) => BoundIsEnough(x, rewrites, n);
    case Convert(_, _, _, _, x) => BoundIsEnough(x, rewrites, n);
    case BinaryOp(_, _, x, y, _, _) => BoundIsEnough(x, rewrites, n); BoundIsEnough(y, rewrites, n);
    case Load(_, x, _, _) => BoundIsEnough(x, rewrites, n);
    case ITE(_, c, f, t) =>
      BoundIsEnough(c, rewrites, n);
      BoundIsEnough(f, rewrites, n);
      BoundIsEnough(t, rewrites, n);
      assert Within(e, rewrites, n) ==> Handler(e, rewrites) == HandleITE(e, rewrites);
    case _ =>
  }

  /** The rewritten temps an expression mentions. */
  function Mentioned(e: Expr, rewrites: Rewrites): set<nat>
  {
    match e
    case Tmp(_, t, _) => if t in rewrites then {t} else {}
    case UnaryOp(_, _, x, _) => Mentioned(x, rewrites)
    case Convert(_, _, _, _, x) => Mentioned(x, rewrites)
    case BinaryOp(_, _, x, y, _, _) => Mentioned(x, rewrites) + Mentioned(y, rewrites)
    case Load(_, x, _, _) => Mentioned(x, rewrites)
    case ITE(_, c, f, t) => Mentioned(c, rewrites) + Mentioned(f, rewrites) + Mentioned(t, rewrites)
    case _ => {}
  }

  /** Rewritten temps, the first mentioned in the expression and each other in what replaces the one before. */
  ghost predicate Chain(e: Expr, rewrites: Rewrites, chain: seq<nat>)
    decreases |chain|
  {
    chain == [] ||
    (chain[0] in rewrites && chain[0] in Mentioned(e, rewrites) && Chain(rewrites[chain[0]], rewrites, chain[1..]))
  }

  /** A chain that comes to the same temp twice. */
  ghost predicate Cycle(e: Expr, rewrites: Rewrites, chain: seq<nat>, i: nat, j: nat)
  {
    Chain(e, rewrites, chain) && i < j < |chain| && chain[i] == chain[j]
  }

  /** A temp that the expression leads to is rewritten, through others, to what mentions it. */
  ghost predicate ReachesCycle(e: Expr, rewrites: Rewrites) { exists chain, i, j :: Cycle(e, rewrites, chain, i, j) }

  lemma {:induction false} MentionedNests(e: Expr, rewrites: Rewrites, t: nat, n: nat)
    requires t in rewrites && t in Mentioned(e, rewrites) && Within(e, rewrites, n)
    ensures n > 0 && Within(rewrites[t], rewrites, n - 1)
  {
    match e
    case Tmp(_, _, _) =>
    case UnaryOp(_, _, x, _) => MentionedNests(x, rewrites, t, n);
    case Convert(_, _, _, _, x) => MentionedNests(x, rewrites, t, n);
    case BinaryOp(_, _, x, y, _, _) =>
      if t in Mentioned(x, rewrites) { MentionedNests(x, rewrites, t, n); } else { MentionedNests(y, rewrites, t, n); }
    case Load(_, x, _, _) => MentionedNests(x, rewrites, t, n);
    case ITE(_, c, f, y) =>
      if t in Mentioned(c, rewrites) { MentionedNests(c, rewrites, t, n); }
      else if t in Mentioned(f, rewrites) { MentionedNests(f, rewrites, t, n); }
      else { MentionedNests(y, rewrites, t, n); }
  }

  lemma {:induction false} ChainNests(e: Expr, rewrites: Rewrites, chain: seq<nat>, n: nat)
    requires Chain(e, rewrites, chain) && Within(e, rewrites, n)
    ensures |chain| <= n
    decreases |chain|
  {
    if chain != [] {
      MentionedNests(e, rewrites, chain[0], n);
      ChainNests(rewrites[chain[0]], rewrites, chain[1..], n - 1);
    }
  }

  lemma {:induction false} DeeperMention(e: Expr, rewrites: Rewrites, n: nat) returns (t: nat)
    requires !Within(e, rewrites, n)
    ensures t in rewrites && t in Mentioned(e, rewrites) && (n > 0 ==> !Within(rewrites[t], rewrites, n - 1))
  {
    match e
    case Tmp(_, u, _) => t := u;
    case UnaryOp(_, _, x, _) => t := DeeperMention(x, rewrites, n);
    case Convert(_, _, _, _, x) => t := DeeperMention(x, rewrites, n);
    case BinaryOp(_, _, x, y, _, _) =>
      if !Within(x, rewrites, n) { t := DeeperMention(x, rewrites, n); } else { t := DeeperMention(y, rewrites, n); }
    case Load(_, x, _, _) => t := DeeperMention(x, rewrites, n);
    case ITE(_, c, f, y) =>
      if !Within(c, rewrites, n) { t := DeeperMention(c, rewrites, n); }
      else if !Within(f, rewrites, n) { t := DeeperMention(f, rewrites, n); }
      else { t := DeeperMention(y, rewrites, n); }
  }

  lemma {:induction false} LongChain(e: Expr, rewrites: Rewrites, n: nat) returns (chain: seq<nat>)
    requires !Within(e, rewrites, n)
    ensures Chain(e, rewrites, chain) && |chain| == n + 1
    decreases n
  {
    var t := DeeperMention(e, rewrites, n);
    var rest := [];
    if n > 0 { rest := LongChain(rewrites[t], rewrites, n - 1); }
    chain := [t] + rest;
    assert chain[1..] == rest;
  }

  lemma {:induction false} ChainMember(e: Expr, rewrites: Rewrites, chain: seq<nat>, i: nat)
    requires Chain(e, rewrites, chain) && i < |chain|
    ensures chain[i] in rewrites && Chain(rewrites[chain[i]], rewrites, chain[i + 1..])
    decreases |chain|
  {
    if i > 0 {
      ChainMember(rewrites[chain[0]], rewrites, chain[1..], i - 1);
      assert chain[1..][i..] == chain[i + 1..];
    }
  }

  lemma {:induction false} Repeats(chain: seq<nat>, temps: set<nat>) returns (i: nat, j: nat)
    requires |chain| > |temps| && forall k :: 0 <= k < |chain| ==> chain[k] in temps
    ensures i < j < |chain| && chain[i] == chain[j]
    decreases |chain|
  {
    var init, last := chain[..|chain| - 1], chain[|chain| - 1];
    if last in init {
      i :| 0 <= i < |init| && init[i] == last;
      j := |chain| - 1;
    } else {
      i, j := Repeats(init, temps - {last});
    }
  }

  /** Joining the tail after a member to an earlier occurrence of it. */
  lemma {:induction false} ChainJoin(e: Expr, rewrites: Rewrites, chain: seq<nat>, j: nat, tail: seq<nat>)
    requires Chain(e, rewrites, chain) && j < |chain| && chain[j] in rewrites
    requires Chain(rewrites[chain[j]], rewrites, tail)
    ensures Chain(e, rewrites, chain[..j + 1] + tail)
    decreases j
  {
    var whole := chain[..j + 1] + tail;
    if j > 0 {
      ChainJoin(rewrites[chain[0]], rewrites, chain[1..], j - 1, tail);
      assert whole[1..] == chain[1..][..j] + tail;
    } else {
      assert whole[1..] == tail;
    }
  }

  lemma {:induction false} CycleGrows(e: Expr, rewrites: Rewrites, chain: seq<nat>, i: nat, j: nat, n: nat)
    returns (longer: seq<nat>)
    requires Cycle(e, rewrites, chain, i, j)
    ensures Chain(e, rewrites, longer) && |longer| > n
    decreases if n > j then n - j else 0
  {
    if n <= j {
      longer := chain;
    } else {
      ChainMember(e, rewrites, chain, i);
      ChainMember(e, rewrites, chain, j);
      ChainJoin(e, rewrites, chain, j, chain[i + 1..]);
      var more := chain[..j + 1] + chain[i + 1..];
      assert chain[i + 1..][j - i - 1] == chain[j];
      assert more[j] == chain[j] && more[j + 1 + (j - i - 1)] == chain[j];
      longer := CycleGrows(e, rewrites, more, j, j + (j - i), n);
    }
  }

  /** Handling comes back, for some bound on nested rewrites, if and only if the expression leads to no cycle; and
      then as many nested rewrites as there are temps to rewrite are enough. */
  lemma {:induction false} EndsWithoutCycle(e: Expr, rewrites: Rewrites)
    ensures (exists n: nat :: HandleWithin(e, rewrites, n).Some?) <==> !ReachesCycle(e, rewrites)
    ensures Ends(e, rewrites) <==> !ReachesCycle(e, rewrites)
    ensures Ends(e, rewrites) ==> HandleWithin(e, rewrites, |rewrites|) == Some(HandleExpr(e, rewrites))
  {
    forall n: nat { BoundIsEnough(e, rewrites, n); }
    if ReachesCycle(e, rewrites) {
      var chain, i, j :| Cycle(e, rewrites, chain, i, j);
      forall n: nat ensures !Within(e, rewrites, n) {
        var longer := CycleGrows(e, rewrites, chain, i, j, n);
        if Within(e, rewrites, n) { ChainNests(e, rewrites, longer, n); }
      }
    } else if !Within(e, rewrites, |rewrites|) {
      var chain := LongChain(e, rewrites, |rewrites|);
      forall k | 0 <= k < |chain| ensures chain[k] in rewrites.Keys { ChainMember(e, rewrites, chain, k); }
      var i, j := Repeats(chain, rewrites.Keys);
      assert Cycle(e, rewrites, chain, i, j);
    } else {
      assert HandleWithin(e, rewrites, |rewrites|).Some?;
    }
  }

  /** Two temps that are rewritten to each other: handling one never comes back, and handling another does at once. */
  lemma {:induction false} TwoTempCycle() returns (rewrites: Rewrites, e: Expr, other: Expr)
    ensures ReachesCycle(e, rewrites) && forall n: nat :: HandleWithin(e, rewrites, n) == None
    ensures Ends(other, rewrites) && HandleExpr(other, rewrites) == None
  {
    var one, two := Tmp(None, 1, 8), Tmp(None, 2, 8);
    rewrites, e, other := map[1 := two, 2 := one], one, Tmp(None, 3, 8);
    assert [1, 2, 1][1..] == [2, 1] && [2, 1][1..] == [1] && [1][1..] == [];
    assert Chain(two, rewrites, [2, 1]) by { assert Chain(one, rewrites, [1]) by { assert Chain(two, rewrites, []); } }
    assert Cycle(e, rewrites, [1, 2, 1], 0, 2);
    EndsWithoutCycle(e, rewrites);
    WithinZero(other, rewrites);
  }

  // --------------------------------------------------------------------------
  // What a pass computes

  /** Simultaneous substitution. */
  function Subst(e: Expr, rewrites: Rewrites): Expr
  {
    match e
    case Tmp(_, t, _) => if t in rewrites then rewrites[t] else e
    case UnaryOp(i, op, x, n) => UnaryOp(i, op, Subst(x, rewrites), n)
    case Convert(i, from, to, s, x) => Convert(i, from, to, s, Subst(x, rewrites))
    case BinaryOp(i, op, x, y, s, n) => BinaryOp(i, op, Subst(x, rewrites), Subst(y, rewrites), s, n)
    case Load(i, x, n, end) => Load(i, Subst(x, rewrites), n, end)
    case ITE(i, c, f, t) => ITE(i, Subst(c, rewrites), Subst(f, rewrites), Subst(t, rewrites))
    case _ => e
  }

  lemma {:induction false} SubstOfSettled(e: Expr, rewrites: Rewrites)
    requires Pending(e, rewrites) == 0
    ensures Subst(e, rewrites) == e
  {
    match e
    case UnaryOp(_, _, x, _) => SubstOfSettled(x, rewrites);
    case Convert(_, _, _, _, x) => SubstOfSettled(x, rewrites);
    case BinaryOp(_, _, x, y, _, _) => SubstOfSettled(x, rewrites); SubstOfSettled(y, rewrites);
    case Load(_, x, _, _) => SubstOfSettled(x, rewrites);
    case ITE(_, c, f, t) => SubstOfSettled(c, rewrites); SubstOfSettled(f, rewrites); SubstOfSettled(t, rewrites);
    case _ =>
  }

  /** Substitution until no rewritten temp is left. */
  function Closure(e: Expr, rewrites: Rewrites): Expr
    requires Ends(e, rewrites)
    decreases Height(e, rewrites), e
  {
    Parts(e, rewrites);
    match e
    case Tmp(_, t, _) => if t in rewrites then Closure(rewrites[t], rewrites) else e
    case UnaryOp(i, op, x, n) => UnaryOp(i, op, Closure(x, rewrites), n)
    case Convert(i, from, to, s, x) => Convert(i, from, to, s, Closure(x, rewrites))
    case BinaryOp(i, op, x, y, s, n) => BinaryOp(i, op, Closure(x, rewrites), Closure(y, rewrites), s, n)
    case Load(i, x, n, end) => Load(i, Closure(x, rewrites), n, end)
    case ITE(i, c, f, t) => ITE(i, Closure(c, rewrites), Closure(f, rewrites), Closure(t, rewrites))
    case _ => e
  }

  /** Handling and re-handling every rebuilt node comes to substitution until nothing is left to rewrite; no
      change is reported when there is none. */
  lemma {:induction false} HandleIsClosure(e: Expr, rewrites: Rewrites)
    requires Ends(e, rewrites)
    ensures OrSelf(HandleExpr(e, rewrites), e) == Closure(e, rewrites)
    decreases Height(e, rewrites), e
  {
    Parts(e, rewrites);
    match e
    case Tmp(_, t, _) => if t in rewrites { HandleIsClosure(rewrites[t], rewrites); }
    case UnaryOp(_, _, x, _) => HandleIsClosure(x, rewrites);
    case Convert(_, _, _, _, x) => HandleIsClosure(x, rewrites);
    case BinaryOp(_, _, x, y, _, _) => HandleIsClosure(x, rewrites); HandleIsClosure(y, rewrites);
    case Load(_, x, _, _) => HandleIsClosure(x, rewrites);
    case ITE(_, c, f, t) =>
      HandleIsClosure(c, rewrites);
      HandleIsClosure(f, rewrites);
      HandleIsClosure(t, rewrites);
      assert HandleExpr(e, rewrites) == HandleITE(e, rewrites);
    case _ =>
  }

  /** The replacements mention no temp that is rewritten itself. */
  ghost predicate Settled(rewrites: Rewrites) { forall t :: t in rewrites ==> Pending(rewrites[t], rewrites) == 0 }

  lemma {:induction false} SettledEnds(e: Expr, rewrites: Rewrites)
    requires Settled(rewrites)
    ensures Within(e, rewrites, 1)
  {
    match e
    case Tmp(_, t, _) => if t in rewrites { WithinZero(rewrites[t], rewrites); }
    case UnaryOp(_, _, x, _) => SettledEnds(x, rewrites);
    case Convert(_, _, _, _, x) => SettledEnds(x, rewrites);
    case BinaryOp(_, _, x, y, _, _) => SettledEnds(x, rewrites); SettledEnds(y, rewrites);
    case Load(_, x, _, _) => SettledEnds(x, rewrites);
    case ITE(_, c, f, t) => SettledEnds(c, rewrites); SettledEnds(f, rewrites); SettledEnds(t, rewrites);
    case _ =>
  }

  /** When the replacements mention no rewritten temp, that is one simultaneous substitution. */
  lemma {:induction false} HandleIsSubst(e: Expr, rewrites: Rewrites)
    requires Settled(rewrites)
    ensures Ends(e, rewrites) && OrSelf(HandleExpr(e, rewrites), e) == Subst(e, rewrites)
  {
    SettledEnds(e, rewrites);
    match e
    case UnaryOp(_, _, x, _) => HandleIsSubst(x, rewrites);
    case Convert(_, _, _, _, x) => HandleIsSubst(x, rewrites);
    case BinaryOp(_, _, x, y, _, _) => HandleIsSubst(x, rewrites); HandleIsSubst(y, rewrites);
    case Load(_, x, _, _) => HandleIsSubst(x, rewrites);
    case ITE(_, c, f, t) =>
      HandleIsSubst(c, rewrites);
      HandleIsSubst(f, rewrites);
      HandleIsSubst(t, rewrites);
      assert HandleExpr(e, rewrites) == HandleITE(e, rewrites);
    case _ =>
  }

  // --------------------------------------------------------------------------
  // Meaning

  /** Each occurrence of a rewritten temp has the width of what replaces it. */
  predicate WidthsMatch(e: Expr, rewrites: Rewrites)
  {
    match e
    case Tmp(_, t, n) => t in rewrites ==> Bits(rewrites[t]) == n
    case UnaryOp(_, _, x, _) => WidthsMatch(x, rewrites)
    case Convert(_, _, _, _, x) => WidthsMatch(x, rewrites)
    case BinaryOp(_, _, x, y, _, _) => WidthsMatch(x, rewrites) && WidthsMatch(y, rewrites)
    case Load(_, x, _, _) => WidthsMatch(x, rewrites)
    case ITE(_, c, f, t) => WidthsMatch(c, rewrites) && WidthsMatch(f, rewrites) && WidthsMatch(t, rewrites)
    case _ => true
  }

  ghost predicate ValuesMatch(rewrites: Rewrites, st: State)
  {
    forall t :: t in rewrites ==> Eval(rewrites[t], st) == Some(st.Temp(t))
  }

  /** The replacements have the widths of what they replace in each other, too. */
  ghost predicate AllWidthsMatch(rewrites: Rewrites)
  {
    forall t :: t in rewrites ==> WidthsMatch(rewrites[t], rewrites)
  }

  lemma {:induction false} ClosureBits(e: Expr, rewrites: Rewrites)
    requires Ends(e, rewrites) && WidthsMatch(e, rewrites) && AllWidthsMatch(rewrites)
    ensures Bits(Closure(e, rewrites)) == Bits(e)
    decreases Height(e, rewrites), e
  {
    Parts(e, rewrites);
    if e.ITE? { ClosureBits(e.iftrue, rewrites); }
    if e.Tmp? && e.tmp in rewrites { ClosureBits(rewrites[e.tmp], rewrites); }
  }

  lemma {:induction false} ClosurePreserves(e: Expr, rewrites: Rewrites, st: State)
    requires Ends(e, rewrites) && WidthsMatch(e, rewrites) && AllWidthsMatch(rewrites) && ValuesMatch(rewrites, st)
    ensures Eval(Closure(e, rewrites), st) == Eval(e, st)
    decreases Height(e, rewrites), e
  {
    Parts(e, rewrites);
    match e
    case Tmp(_, t, _) => if t in rewrites { ClosurePreserves(rewrites[t], rewrites, st); }
    case UnaryOp(_, _, x, _) => ClosurePreserves(x, rewrites, st);
    case Convert(_, _, _, _, x) => ClosurePreserves(x, rewrites, st);
    case BinaryOp(_, _, x, y, _, _) =>
      ClosurePreserves(x, rewrites, st);
      ClosurePreserves(y, rewrites, st);
      ClosureBits(x, rewrites);
      ClosureBits(y, rewrites);
    case Load(_, x, _, _) => ClosurePreserves(x, rewrites, st);
    case ITE(_, c, f, t) =>
      ClosurePreserves(c, rewrites, st);
      ClosurePreserves(f, rewrites, st);
      ClosurePreserves(t, rewrites, st);
    case _ =>
  }

  /** Rewriting temps to expressions of equal value and width preserves every expression's value. */
  lemma {:induction false} HandlePreserves(e: Expr, rewrites: Rewrites, st: State)
    requires Ends(e, rewrites) && WidthsMatch(e, rewrites) && AllWidthsMatch(rewrites) && ValuesMatch(rewrites, st)
    ensures Eval(OrSelf(HandleExpr(e, rewrites), e), st) == Eval(e, st)
  {
    HandleIsClosure(e, rewrites);
    ClosurePreserves(e, rewrites, st);
  }

  // --------------------------------------------------------------------------
  // Statements and blocks

  function OrStmt(r: Option<Stmt>, s: Stmt): Stmt { if r.Some? then r.value else s }

  /** No expression of the statement leads to a cycle. */
  ghost predicate StmtEnds(s: Stmt, rewrites: Rewrites)
  {
    match s
    case Assignment(dst, src) => Ends(dst, rewrites) && Ends(src, rewrites)
    case Store(addr, data, _, _) => Ends(addr, rewrites) && Ends(data, rewrites)
    case ConditionalJump(cond, t, f) =>
      Ends(cond, rewrites) && Ends(t, rewrites) && (f.Some? ==> Ends(f.value, rewrites))
    case Jump(target) => Ends(target, rewrites)
    case Call(target) => Ends(target, rewrites)
    case Return => true
  }

  ghost predicate BlockEnds(stmts: seq<Stmt>, rewrites: Rewrites)
  {
    forall i :: 0 <= i < |stmts| ==> StmtEnds(stmts[i], rewrites)
  }

  /** `_handle_stmt`: the rebuilt statement, or none when no expression in it changed. */
  function HandleStmt(s: Stmt, rewrites: Rewrites): Option<Stmt>
    requires StmtEnds(s, rewrites)
  {
    match s
    case Assignment(dst, src) =>
      var (dst', src') := (HandleExpr(dst, rewrites), HandleExpr(src, rewrites));
      if dst'.None? && src'.None? then None else Some(Assignment(OrSelf(dst', dst), OrSelf(src', src)))
    case Store(addr, data, size, end) =>
      var (addr', data') := (HandleExpr(addr, rewrites), HandleExpr(data, rewrites));
      if addr'.None? && data'.None? then None else Some(Store(OrSelf(addr', addr), OrSelf(data', data), size, end))
    case ConditionalJump(cond, t, f) =>
      var (cond', t') := (HandleExpr(cond, rewrites), HandleExpr(t, rewrites));
      var f' := if f.Some? then HandleExpr(f.value, rewrites) else None;
      if cond'.None? && t'.None? && f'.None? then None
      else Some(ConditionalJump(OrSelf(cond', cond), OrSelf(t', t), if f'.Some? then f' else f))
    case Jump(target) =>
      (match HandleExpr(target, rewrites)
       case Some(target') => Some(Jump(target'))
       case None => None)
    case Call(target) =>
      (match HandleExpr(target, rewrites)
       case Some(target') => Some(Call(target'))
       case None => None)
    case Return => None
  }

  function Walked(stmts: seq<Stmt>, rewrites: Rewrites): (r: seq<Stmt>)
    requires BlockEnds(stmts, rewrites)
    ensures |r| == |stmts|
  {
    seq(|stmts|, i requires 0 <= i < |stmts| && StmtEnds(stmts[i], rewrites) =>
       OrStmt(HandleStmt(stmts[i], rewrites), stmts[i]))
  }

  predicate Unchanged(stmts: seq<Stmt>, rewrites: Rewrites)
    requires BlockEnds(stmts, rewrites)
  {
    forall i :: 0 <= i < |stmts| ==> HandleStmt(stmts[i], rewrites) == None
  }

  /** The statement with the closure of each of its expressions in place of it. */
  function ClosureStmt(s: Stmt, rewrites: Rewrites): Stmt
    requires StmtEnds(s, rewrites)
  {
    match s
    case Assignment(dst, src) => Assignment(Closure(dst, rewrites), Closure(src, rewrites))
    case Store(addr, data, size, end) => Store(Closure(addr, rewrites), Closure(data, rewrites), size, end)
    case ConditionalJump(cond, t, f) =>
      ConditionalJump(Closure(cond, rewrites), Closure(t, rewrites),
                      if f.Some? then Some(Closure(f.value, rewrites)) else None)
    case Jump(target) => Jump(Closure(target, rewrites))
    case Call(target) => Call(Closure(target, rewrites))
    case Return => Return
  }

  function StmtExprs(s: Stmt): set<Expr>
  {
    match s
    case Assignment(dst, src) => {dst, src}
    case Store(addr, data, _, _) => {addr, data}
    case ConditionalJump(cond, t, f) => {cond, t} + if f.Some? then {f.value} else {}
    case Jump(target) => {target}
    case Call(target) => {target}
    case Return => {}
  }

  /** A temp to be rewritten is left in some expression of the statement. */
  ghost predicate StmtPending(s: Stmt, rewrites: Rewrites)
  {
    exists e :: e in StmtExprs(s) && Pending(e, rewrites) > 0
  }

  /** A statement is rebuilt exactly when a temp in it is to be rewritten, with the closure of every expression, and
      nothing is left to rewrite in it then. */
  lemma {:induction false} HandleStmtIsClosure(s: Stmt, rewrites: Rewrites)
    requires StmtEnds(s, rewrites)
    ensures HandleStmt(s, rewrites) == if StmtPending(s, rewrites) then Some(ClosureStmt(s, rewrites)) else None
    ensures OrStmt(HandleStmt(s, rewrites), s) == ClosureStmt(s, rewrites)
    ensures !StmtPending(ClosureStmt(s, rewrites), rewrites)
  {
    RebuiltAsClosure(s, rewrites);
    RebuiltIfPending(s, rewrites);
    NothingPending(s, rewrites);
  }

  lemma {:induction false} RebuiltAsClosure(s: Stmt, rewrites: Rewrites)
    requires StmtEnds(s, rewrites)
    ensures OrStmt(HandleStmt(s, rewrites), s) == ClosureStmt(s, rewrites)
  {
    match s
    case Assignment(dst, src) => HandleIsClosure(dst, rewrites); HandleIsClosure(src, rewrites);
    case Store(addr, data, _, _) => HandleIsClosure(addr, rewrites); HandleIsClosure(data, rewrites);
    case ConditionalJump(cond, t, f) =>
      HandleIsClosure(cond, rewrites);
      HandleIsClosure(t, rewrites);
      if f.Some? { HandleIsClosure(f.value, rewrites); }
    case Jump(target) => HandleIsClosure(target, rewrites);
    case Call(target) => HandleIsClosure(target, rewrites);
    case Return =>
  }

  lemma {:induction false} RebuiltIfPending(s: Stmt, rewrites: Rewrites)
    requires StmtEnds(s, rewrites)
    ensures HandleStmt(s, rewrites).Some? <==> StmtPending(s, rewrites)
  {
    match s
    case Assignment(dst, src) => assert dst in StmtExprs(s) && src in StmtExprs(s);
    case Store(addr, data, _, _) => assert addr in StmtExprs(s) && data in StmtExprs(s);
    case ConditionalJump(cond, t, f) =>
      assert cond in StmtExprs(s) && t in StmtExprs(s) && (f.Some? ==> f.value in StmtExprs(s));
    case Jump(target) => assert target in StmtExprs(s);
    case Call(target) => assert target in StmtExprs(s);
    case Return =>
  }

  lemma {:induction false} NothingPending(s: Stmt, rewrites: Rewrites)
    requires StmtEnds(s, rewrites)
    ensures !StmtPending(ClosureStmt(s, rewrites), rewrites)
  {
    match s
    case Assignment(dst, src) => ClosureIsNormal(dst, rewrites); ClosureIsNormal(src, rewrites);
    case Store(addr, data, _, _) => ClosureIsNormal(addr, rewrites); ClosureIsNormal(data, rewrites);
    case ConditionalJump(cond, t, f) =>
      ClosureIsNormal(cond, rewrites);
      ClosureIsNormal(t, rewrites);
      if f.Some? { ClosureIsNormal(f.value, rewrites); }
    case Jump(target) => ClosureIsNormal(target, rewrites);
    case Call(target) => ClosureIsNormal(target, rewrites);
    case Return =>
  }

  lemma {:induction false} ClosureIsNormal(e: Expr, rewrites: Rewrites)
    requires Ends(e, rewrites)
    ensures Pending(Closure(e, rewrites), rewrites) == 0
  {
    HandleIsClosure(e, rewrites);
  }

  /** A walked block holds the closure of every statement, nothing is left to rewrite in it, and it counts as
      unchanged exactly when there was nothing to rewrite. */
  lemma {:induction false} WalkedIsClosure(stmts: seq<Stmt>, rewrites: Rewrites)
    requires BlockEnds(stmts, rewrites)
    ensures forall i :: 0 <= i < |stmts| ==>
              && Walked(stmts, rewrites)[i] == ClosureStmt(stmts[i], rewrites)
              && !StmtPending(Walked(stmts, rewrites)[i], rewrites)
    ensures Unchanged(stmts, rewrites) <==> forall i :: 0 <= i < |stmts| ==> !StmtPending(stmts[i], rewrites)
  {
    forall i | 0 <= i < |stmts|
      ensures Walked(stmts, rewrites)[i] == ClosureStmt(stmts[i], rewrites)
      ensures !StmtPending(Walked(stmts, rewrites)[i], rewrites)
      ensures HandleStmt(stmts[i], rewrites) == None <==> !StmtPending(stmts[i], rewrites)
    {
      HandleStmtIsClosure(stmts[i], rewrites);
    }
  }

  /** A walked block is a normal form: a second pass ends and changes no statement. */
  lemma {:induction false} WalkedIsNormal(stmts: seq<Stmt>, rewrites: Rewrites)
    requires BlockEnds(stmts, rewrites)
    ensures BlockEnds(Walked(stmts, rewrites), rewrites) && Unchanged(Walked(stmts, rewrites), rewrites)
    ensures Unchanged(stmts, rewrites) ==> Walked(stmts, rewrites) == stmts
  {
    var walked := Walked(stmts, rewrites);
    forall i | 0 <= i < |stmts| ensures StmtEnds(walked[i], rewrites) && HandleStmt(walked[i], rewrites) == None {
      HandledIsNormal(stmts[i], rewrites);
    }
  }

  lemma {:induction false} HandledIsNormal(s: Stmt, rewrites: Rewrites)
    requires StmtEnds(s, rewrites)
    ensures var s' := OrStmt(HandleStmt(s, rewrites), s); StmtEnds(s', rewrites) && HandleStmt(s', rewrites) == None
  {
    match s
    case Assignment(dst, src) => HandledExpr(dst, rewrites); HandledExpr(src, rewrites);
    case Store(addr, data, _, _) => HandledExpr(addr, rewrites); HandledExpr(data, rewrites);
    case ConditionalJump(cond, t, f) =>
      HandledExpr(cond, rewrites);
      HandledExpr(t, rewrites);
      if f.Some? { HandledExpr(f.value, rewrites); }
    case Jump(target) => HandledExpr(target, rewrites);
    case Call(target) => HandledExpr(target, rewrites);
    case Return =>
  }

  lemma {:induction false} HandledExpr(e: Expr, rewrites: Rewrites)
    requires Ends(e, rewrites)
    ensures var e' := OrSelf(HandleExpr(e, rewrites), e); Ends(e', rewrites) && HandleExpr(e', rewrites) == None
  {
    WithinZero(OrSelf(HandleExpr(e, rewrites), e), rewrites);
  }

  /** What a block may change: temps, and perhaps registers and memory. */
  datatype Frame = Frame(temps: set<nat>, regs: bool, mem: bool)

  /** The value depends on nothing that may change. */
  predicate Steady(e: Expr, frame: Frame)
  {
    match e
    case Tmp(_, t, _) => t !in frame.temps
    case Register(_, _, _) => !frame.regs
    case Load(_, x, _, _) => !frame.mem && Steady(x, frame)
    case UnaryOp(_, _, x, _) => Steady(x, frame)
    case Convert(_, _, _, _, x) => Steady(x, frame)
    case BinaryOp(_, _, x, y, _, _) => Steady(x, frame) && Steady(y, frame)
    case ITE(_, c, f, t) => Steady(c, frame) && Steady(f, frame) && Steady(t, frame)
    case _ => true
  }

  predicate InFrame(s: Stmt, frame: Frame)
  {
    match s
    case Assignment(dst, _) => (dst.Tmp? ==> dst.tmp in frame.temps) && (dst.Register? ==> frame.regs)
    case Store(_, _, _, _) => frame.mem
    case _ => true
  }

  /** Rewrites that stay right while the block runs: neither the temps nor what they are rewritten to change. */
  ghost predicate Stable(stmts: seq<Stmt>, rewrites: Rewrites, frame: Frame)
  {
    && (forall i :: 0 <= i < |stmts| ==> InFrame(stmts[i], frame) && StmtStable(stmts[i], rewrites))
    && (forall t :: t in rewrites ==> Steady(rewrites[t], frame)) && AllWidthsMatch(rewrites)
  }

  predicate StmtStable(s: Stmt, rewrites: Rewrites)
  {
    match s
    case Assignment(dst, src) => (dst.Register? || (dst.Tmp? && dst.tmp !in rewrites)) && WidthsMatch(src, rewrites)
    case Store(addr, data, _, _) => WidthsMatch(addr, rewrites) && WidthsMatch(data, rewrites)
    case ConditionalJump(cond, t, f) =>
      WidthsMatch(cond, rewrites) && WidthsMatch(t, rewrites) && (f.Some? ==> WidthsMatch(f.value, rewrites))
    case Jump(target) => WidthsMatch(target, rewrites)
    case Call(target) => WidthsMatch(target, rewrites)
    case Return => true
  }

  lemma {:induction false} StmtPreserved(s: Stmt, rewrites: Rewrites, st: State)
    requires StmtEnds(s, rewrites) && AllWidthsMatch(rewrites) && StmtStable(s, rewrites) && ValuesMatch(rewrites, st)
    ensures Exec(OrStmt(HandleStmt(s, rewrites), s), st) == Exec(s, st)
  {
    match s
    case Assignment(_, src) => HandlePreserves(src, rewrites, st);
    case Store(addr, data, _, _) => HandlePreserves(addr, rewrites, st); HandlePreserves(data, rewrites, st);
    case ConditionalJump(_, _, _) => ConditionalJumpPreserved(s, rewrites, st);
    case Jump(target) => HandlePreserves(target, rewrites, st);
    case Call(target) => HandlePreserves(target, rewrites, st);
    case Return =>
  }

  lemma {:induction false} ConditionalJumpPreserved(s: Stmt, rewrites: Rewrites, st: State)
    requires s.ConditionalJump? && StmtEnds(s, rewrites) && AllWidthsMatch(rewrites) && StmtStable(s, rewrites)
    requires ValuesMatch(rewrites, st)
    ensures Exec(OrStmt(HandleStmt(s, rewrites), s), st) == Exec(s, st)
  {
    HandlePreserves(s.cond, rewrites, st);
    HandlePreserves(s.trueTarget, rewrites, st);
    if s.falseTarget.Some? { HandlePreserves(s.falseTarget.value, rewrites, st); }
  }

  /** The rewritten block runs as the original does. */
  lemma {:induction false} WalkPreserves(stmts: seq<Stmt>, rewrites: Rewrites, frame: Frame, st: State)
    requires BlockEnds(stmts, rewrites) && Stable(stmts, rewrites, frame) && ValuesMatch(rewrites, st)
    ensures Run(Walked(stmts, rewrites), st) == Run(stmts, st)
    decreases |stmts|
  {
    if stmts != [] {
      assert Walked(stmts, rewrites)[1..] == Walked(stmts[1..], rewrites);
      assert StmtStable(stmts[0], rewrites) && StmtEnds(stmts[0], rewrites);
      StmtPreserved(stmts[0], rewrites, st);
      var o := Exec(stmts[0], st);
      if o.Fell? {
        ExecKeepsValues(stmts[0], rewrites, frame, st);
        WalkPreserves(stmts[1..], rewrites, frame, o.state);
      }
    }
  }

  /** The two states differ in what the frame allows only. */
  ghost predicate Framed(frame: Frame, st: State, st': State)
  {
    && (forall t :: t !in frame.temps ==> st'.Temp(t) == st.Temp(t))
    && (!frame.regs ==> st'.regs == st.regs) && (!frame.mem ==> st'.mem == st.mem)
  }

  lemma {:induction false} SteadyValue(e: Expr, frame: Frame, st: State, st': State)
    requires Steady(e, frame) && Framed(frame, st, st')
    ensures Eval(e, st') == Eval(e, st)
  {
    match e
    case UnaryOp(_, _, x, _) => SteadyValue(x, frame, st, st');
    case Convert(_, _, _, _, x) => SteadyValue(x, frame, st, st');
    case BinaryOp(_, _, x, y, _, _) => SteadyValue(x, frame, st, st'); SteadyValue(y, frame, st, st');
    case Load(_, x, _, _) => SteadyValue(x, frame, st, st');
    case ITE(_, c, f, t) =>
      SteadyValue(c, frame, st, st');
      SteadyValue(f, frame, st, st');
      SteadyValue(t, frame, st, st');
    case _ =>
  }

  lemma {:induction false} ExecKeepsValues(s: Stmt, rewrites: Rewrites, frame: Frame, st: State)
    requires StmtStable(s, rewrites) && InFrame(s, frame) && ValuesMatch(rewrites, st) && Exec(s, st).Fell?
    requires forall t :: t in rewrites ==> Steady(rewrites[t], frame)
    ensures ValuesMatch(rewrites, Exec(s, st).state)
  {
    var st' := Exec(s, st).state;
    assert Framed(frame, st, st');
    forall t | t in rewrites ensures Eval(rewrites[t], st') == Some(st'.Temp(t)) {
      assert Eval(rewrites[t], st) == Some(st.Temp(t));
      SteadyValue(rewrites[t], frame, st, st');
    }
  }

  // --------------------------------------------------------------------------
  // The walker

  /** The statements when the walk has come to index i. */
  function WalkedTo(stmts: seq<Stmt>, i: nat, rewrites: Rewrites): (r: seq<Stmt>)
    requires BlockEnds(stmts, rewrites) && i <= |stmts|
    ensures |r| == |stmts| && (i < |stmts| ==> r[i] == stmts[i])
  {
    Walked(stmts[..i], rewrites) + stmts[i..]
  }

  lemma {:induction false} WalkStep(stmts: seq<Stmt>, i: nat, rewrites: Rewrites)
    requires BlockEnds(stmts, rewrites) && i < |stmts|
    ensures var s := OrStmt(HandleStmt(stmts[i], rewrites), stmts[i]);
            && Walked(stmts[..i + 1], rewrites) == Walked(stmts[..i], rewrites) + [s]
            && WalkedTo(stmts, i + 1, rewrites) == WalkedTo(stmts, i, rewrites)[i := s]
    ensures Unchanged(stmts[..i + 1], rewrites)
       <==> Unchanged(stmts[..i], rewrites) && HandleStmt(stmts[i], rewrites) == None
    ensures Unchanged(stmts[..i], rewrites) ==> Walked(stmts[..i], rewrites) == stmts[..i]
  {
    assert stmts[..i + 1] == stmts[..i] + [stmts[i]];
    assert stmts[..i + 1][i] == stmts[i];
  }

  lemma {:induction false} WalkEnds(stmts: seq<Stmt>, rewrites: Rewrites)
    requires BlockEnds(stmts, rewrites)
    ensures WalkedTo(stmts, 0, rewrites) == stmts && WalkedTo(stmts, |stmts|, rewrites) == Walked(stmts, rewrites)
    ensures stmts[..|stmts|] == stmts
  {
    assert stmts[..|stmts|] == stmts && Walked(stmts[..0], rewrites) == [];
  }

  class AilBlock {
    var statements: seq<Stmt>

    constructor (statements: seq<Stmt>)
      ensures this.statements == statements
    {
      this.statements := statements;
    }
  }

  class AILBlockWalker {
    const rewrites: Rewrites
    const updateBlock: bool

    constructor (rewrites: Rewrites, updateBlock: bool)
      ensures this.rewrites == rewrites && this.updateBlock == updateBlock
    {
      this.rewrites, this.updateBlock := rewrites, updateBlock;
    }

    /** In place, the block gets the walked statements; otherwise it is left alone and a changed block is a new one. */
    method Walk(block: AilBlock) returns (newBlock: AilBlock?)
      requires BlockEnds(block.statements, rewrites)
      modifies block
      ensures updateBlock ==> newBlock == null && block.statements == Walked(old(block.statements), rewrites)
      ensures !updateBlock ==>
                && block.statements == old(block.statements)
                && (newBlock == null <==> Unchanged(block.statements, rewrites))
                && (newBlock != null ==> fresh(newBlock) && newBlock.statements == Walked(block.statements, rewrites))
    {
      ghost var stmts := block.statements;
      WalkEnds(stmts, rewrites);
      newBlock := null;
      var i := 0;
      while i < |block.statements|
        invariant 0 <= i <= |block.statements| == |stmts|
        invariant updateBlock ==> newBlock == null && block.statements == WalkedTo(stmts, i, rewrites)
        invariant !updateBlock ==> block.statements == stmts && (newBlock == null <==> Unchanged(stmts[..i], rewrites))
        invariant newBlock != null ==> fresh(newBlock) && newBlock.statements == Walked(stmts[..i], rewrites)
        decreases |stmts| - i
      {
        WalkStep(stmts, i, rewrites);
        if updateBlock {
          UpdateStep(block, i, stmts);
        } else {
          newBlock := CopyStep(block, i, newBlock);
        }
        i := i + 1;
      }
    }

    /** One statement, in place. */
    method UpdateStep(block: AilBlock, i: nat, ghost stmts: seq<Stmt>)
      requires BlockEnds(stmts, rewrites) && i < |stmts| && block.statements == WalkedTo(stmts, i, rewrites)
      modifies block
      ensures block.statements == WalkedTo(stmts, i + 1, rewrites)
    {
      WalkStep(stmts, i, rewrites);
      var newStmt := HandleStmt(block.statements[i], rewrites);
      if newStmt.Some? { block.statements := block.statements[i := newStmt.value]; }
    }

    /** One statement, into a copy that is made when the first one changes. */
    method CopyStep(block: AilBlock, i: nat, copy: AilBlock?) returns (copy': AilBlock?)
      requires BlockEnds(block.statements, rewrites) && i < |block.statements| && copy != block
      requires copy == null ==> Unchanged(block.statements[..i], rewrites)
      requires copy != null ==> copy.statements == Walked(block.statements[..i], rewrites)
      modifies if copy == null then {} else {copy}
      ensures copy' == null <==> copy == null && HandleStmt(block.statements[i], rewrites) == None
      ensures copy != null ==> copy' == copy
      ensures copy == null && copy' != null ==> fresh(copy')
      ensures copy' != null ==> copy'.statements == Walked(block.statements[..i + 1], rewrites)
    {
      WalkStep(block.statements, i, rewrites);
      copy' := copy;
      var stmt := block.statements[i];
      var newStmt := HandleStmt(stmt, rewrites);
      if newStmt.Some? && copy' == null { copy' := new AilBlock(block.statements[..i]); }
      if copy' != null { copy'.statements := copy'.statements + [OrStmt(newStmt, stmt)]; }
    }
  }
}

/** Likeness, equality and substitution of AIL expressions. */
module AilReplace {
  import opened Wrappers
  import opened BitVec
  import opened MachineState
  import opened Ail

  /** `likes`: the same up to `idx`, except that the branches of an ITE must be equal. */
  predicate Likes(a: Expr, b: Expr)
  {
    match a
    case Const(_, v, n) => b.Const? && v == b.value && n == b.bits
    case Tmp(_, t, n) => b.Tmp? && t == b.tmp && n == b.bits
    case Register(_, o, n) => b.Register? && o == b.offset && n == b.bits
    case UnaryOp(_, op, x, n) => b.UnaryOp? && op == b.uop && n == b.bits && Likes(x, b.operand)
    case Convert(_, from, to, s, x) =>
      b.Convert? && from == b.fromBits && to == b.toBits && s == b.signed && Likes(x, b.operand)
    case BinaryOp(_, op, x, y, s, n) =>
      b.BinaryOp? && op == b.op && n == b.bits && s == b.signed && Likes(x, b.left) && Likes(y, b.right)
    case Load(_, x, n, end) => b.Load? && n == b.size && end == b.end && Likes(x, b.addr)
    case ITE(_, c, f, t) =>
      && b.ITE? && Likes(c, b.cond)
      && Likes(f, b.iffalse) && f.idx == b.iffalse.idx
      && Likes(t, b.iftrue) && t.idx == b.iftrue.idx
  }

  /** `__eq__`. */
  predicate Equal(a: Expr, b: Expr) { Likes(a, b) && a.idx == b.idx }

  lemma {:induction false} LikesItself(e: Expr)
    ensures Likes(e, e)
  {
    match e
    case UnaryOp(_, _, x, _) => LikesItself(x);
    case Convert(_, _, _, _, x) => LikesItself(x);
    case BinaryOp(_, _, x, y, _, _) => LikesItself(x); LikesItself(y);
    case Load(_, x, _, _) => LikesItself(x);
    case ITE(_, c, f, t) => LikesItself(c); LikesItself(f); LikesItself(t);
    case _ =>
  }

  lemma {:induction false} LikesBits(a: Expr, b: Expr)
    requires Likes(a, b)
    ensures Bits(a) == Bits(b)
  {
    if a.ITE? { LikesBits(a.iftrue, b.iftrue); }
  }

  /** Alike expressions have the same value in every state. */
  lemma {:induction false} LikesMeansEqualValue(a: Expr, b: Expr, st: State)
    requires Likes(a, b)
    ensures Eval(a, st) == Eval(b, st) && Bits(a) == Bits(b)
  {
    LikesBits(a, b);
    match a
    case UnaryOp(_, _, x, _) => LikesMeansEqualValue(x, b.operand, st);
    case Convert(_, _, _, _, x) => LikesMeansEqualValue(x, b.operand, st);
    case BinaryOp(_, _, x, y, _, _) => LikesMeansEqualValue(x, b.left, st); LikesMeansEqualValue(y, b.right, st);
    case Load(_, x, _, _) => LikesMeansEqualValue(x, b.addr, st);
    case ITE(_, c, f, t) =>
      LikesMeansEqualValue(c, b.cond, st);
      LikesMeansEqualValue(f, b.iffalse, st);
      LikesMeansEqualValue(t, b.iftrue, st);
    case _ =>
  }

  // --------------------------------------------------------------------------
  // replace

  /** An operand of the expression being rewritten. */
  function ReplaceOperand(x: Expr, old': Expr, new': Expr): (bool, Expr)
    decreases x, 1
  {
    if Equal(x, old') then (true, new') else Replace(x, old', new')
  }

  function Replace(e: Expr, old': Expr, new': Expr): (bool, Expr)
    decreases e, 0
  {
    match e
    case UnaryOp(i, op, x, n) =>
      var (r, x') := ReplaceOperand(x, old', new');
      if r then (true, UnaryOp(i, op, x', n)) else (false, e)
    case Convert(i, from, to, s, x) =>
      var (r, x') := ReplaceOperand(x, old', new');
      if r then (true, Convert(i, from, to, s, x')) else (false, e)
    case BinaryOp(i, op, x, y, s, n) =>
      var (r0, x') := ReplaceOperand(x, old', new');
      var (r1, y') := ReplaceOperand(y, old', new');
      if r0 || r1 then (true, BinaryOp(i, op, if r0 then x' else x, if r1 then y' else y, s, n)) else (false, e)
    case Load(i, x, n, end) =>
      var (r, x') := ReplaceOperand(x, old', new');
      if r then (true, Load(i, x', n, end)) else (false, e)
    case ITE(i, c, f, t) =>
      var (rc, c') := ReplaceOperand(c, old', new');
      var (rf, f') := ReplaceOperand(f, old', new');
      var (rt, t') := ReplaceOperand(t, old', new');
      if rc || rt || rf then (true, ITE(i, c', f', t')) else (false, e)
    case _ => (false, e)
  }

  function StrictSubexpressions(e: Expr): set<Expr>
  {
    match e
    case UnaryOp(_, _, x, _) => {x} + StrictSubexpressions(x)
    case Convert(_, _, _, _, x) => {x} + StrictSubexpressions(x)
    case BinaryOp(_, _, x, y, _, _) => {x, y} + StrictSubexpressions(x) + StrictSubexpressions(y)
    case Load(_, x, _, _) => {x} + StrictSubexpressions(x)
    case ITE(_, c, f, t) => {c, f, t} + StrictSubexpressions(c) + StrictSubexpressions(f) + StrictSubexpressions(t)
    case _ => {}
  }

  predicate Occurs(e: Expr, old': Expr) { exists s :: s in StrictSubexpressions(e) && Equal(s, old') }

  /** The same, following the shape of the expression. */
  predicate Found(e: Expr, old': Expr)
  {
    match e
    case UnaryOp(_, _, x, _) => Equal(x, old') || Found(x, old')
    case Convert(_, _, _, _, x) => Equal(x, old') || Found(x, old')
    case BinaryOp(_, _, x, y, _, _) => Equal(x, old') || Found(x, old') || Equal(y, old') || Found(y, old')
    case Load(_, x, _, _) => Equal(x, old') || Found(x, old')
    case ITE(_, c, f, t) =>
      Equal(c, old') || Found(c, old') || Equal(f, old') || Found(f, old') || Equal(t, old') || Found(t, old')
    case _ => false
  }

  lemma {:induction false} FoundIsOccurs(e: Expr, old': Expr)
    ensures Found(e, old') <==> Occurs(e, old')
  {
    match e
    case UnaryOp(_, _, x, _) => FoundIsOccurs(x, old');
    case Convert(_, _, _, _, x) => FoundIsOccurs(x, old');
    case BinaryOp(_, _, x, y, _, _) => FoundIsOccurs(x, old'); FoundIsOccurs(y, old');
    case Load(_, x, _, _) => FoundIsOccurs(x, old');
    case ITE(_, c, f, t) => FoundIsOccurs(c, old'); FoundIsOccurs(f, old'); FoundIsOccurs(t, old');
    case _ =>
  }

  ghost predicate Finds(x: Expr, old': Expr, new': Expr)
  {
    var (r, x') := ReplaceOperand(x, old', new');
    r == (Equal(x, old') || Found(x, old')) && (!r ==> x' == x)
  }

  lemma {:induction false} OperandFinds(x: Expr, old': Expr, new': Expr)
    ensures Finds(x, old', new')
    decreases x, 1
  {
    if !Equal(x, old') { ReplaceFinds(x, old', new'); }
  }

  lemma {:induction false} ReplaceFinds(e: Expr, old': Expr, new': Expr)
    ensures Replace(e, old', new').0 == Found(e, old')
    ensures !Replace(e, old', new').0 ==> Replace(e, old', new').1 == e
    decreases e, 0
  {
    match e
    case UnaryOp(_, _, x, _) => OperandFinds(x, old', new'); OneFinds(e, old', new');
    case Convert(_, _, _, _, x) => OperandFinds(x, old', new'); OneFinds(e, old', new');
    case BinaryOp(_, _, x, y, _, _) =>
      OperandFinds(x, old', new'); OperandFinds(y, old', new'); BinaryFinds(e, old', new');
    case Load(_, x, _, _) => OperandFinds(x, old', new'); OneFinds(e, old', new');
    case ITE(_, c, f, t) =>
      OperandFinds(c, old', new');
      OperandFinds(f, old', new');
      OperandFinds(t, old', new');
      IteFinds(e, old', new');
    case _ =>
  }

  lemma {:induction false} OneFinds(e: Expr, old': Expr, new': Expr)
    requires e.UnaryOp? || e.Convert? || e.Load?
    requires Finds(if e.Load? then e.addr else e.operand, old', new')
    ensures Replace(e, old', new').0 == Found(e, old')
    ensures !Replace(e, old', new').0 ==> Replace(e, old', new').1 == e
  {
  }

  lemma {:induction false} BinaryFinds(e: Expr, old': Expr, new': Expr)
    requires e.BinaryOp? && Finds(e.left, old', new') && Finds(e.right, old', new')
    ensures Replace(e, old', new').0 == Found(e, old')
    ensures !Replace(e, old', new').0 ==> Replace(e, old', new').1 == e
  {
  }

  lemma {:induction false} IteFinds(e: Expr, old': Expr, new': Expr)
    requires e.ITE? && Finds(e.cond, old', new') && Finds(e.iffalse, old', new') && Finds(e.iftrue, old', new')
    ensures Replace(e, old', new').0 == Found(e, old')
    ensures !Replace(e, old', new').0 ==> Replace(e, old', new').1 == e
  {
  }

  /** Something is replaced exactly when a strict subexpression equals the old one; otherwise the expression is kept. */
  lemma {:induction false} ReplaceChanges(e: Expr, old': Expr, new': Expr)
    ensures Replace(e, old', new').0 <==> Occurs(e, old')
    ensures !Replace(e, old', new').0 ==> Replace(e, old', new').1 == e
  {
    ReplaceFinds(e, old', new');
    FoundIsOccurs(e, old');
  }

  /** Substitution for the outermost occurrences at once: what is put in is not looked into. */
  function Subst(e: Expr, old': Expr, new': Expr): Expr
    decreases e, 1
  {
    if Equal(e, old') then new' else SubstBelow(e, old', new')
  }

  function SubstBelow(e: Expr, old': Expr, new': Expr): Expr
    decreases e, 0
  {
    match e
    case UnaryOp(i, op, x, n) => UnaryOp(i, op, Subst(x, old', new'), n)
    case Convert(i, from, to, s, x) => Convert(i, from, to, s, Subst(x, old', new'))
    case BinaryOp(i, op, x, y, s, n) => BinaryOp(i, op, Subst(x, old', new'), Subst(y, old', new'), s, n)
    case Load(i, x, n, end) => Load(i, Subst(x, old', new'), n, end)
    case ITE(i, c, f, t) => ITE(i, Subst(c, old', new'), Subst(f, old', new'), Subst(t, old', new'))
    case _ => e
  }

  /** The result is the expression with every outermost occurrence strictly inside it replaced. */
  lemma {:induction false} ReplaceIsSubst(e: Expr, old': Expr, new': Expr)
    ensures Replace(e, old', new').1 == SubstBelow(e, old', new')
    decreases e, 0
  {
    match e
    case UnaryOp(_, _, x, _) => OperandIsSubst(x, old', new');
    case Convert(_, _, _, _, x) => OperandIsSubst(x, old', new');
    case BinaryOp(_, _, x, y, _, _) =>
      OperandIsSubst(x, old', new');
      OperandIsSubst(y, old', new');
      BinaryIsSubst(e, old', new');
    case Load(_, x, _, _) => OperandIsSubst(x, old', new');
    case ITE(_, c, f, t) =>
      OperandIsSubst(c, old', new');
      OperandIsSubst(f, old', new');
      OperandIsSubst(t, old', new');
      IteIsSubst(e, old', new');
    case _ =>
  }

  ghost predicate Substituted(x: Expr, old': Expr, new': Expr)
  {
    var (r, x') := ReplaceOperand(x, old', new');
    x' == Subst(x, old', new') && (!r ==> x' == x)
  }

  lemma {:induction false} BinaryIsSubst(e: Expr, old': Expr, new': Expr)
    requires e.BinaryOp? && Substituted(e.left, old', new') && Substituted(e.right, old', new')
    ensures Replace(e, old', new').1 == SubstBelow(e, old', new')
  {
  }

  lemma {:induction false} IteIsSubst(e: Expr, old': Expr, new': Expr)
    requires e.ITE? && Substituted(e.cond, old', new')
    requires Substituted(e.iffalse, old', new') && Substituted(e.iftrue, old', new')
    ensures Replace(e, old', new').1 == SubstBelow(e, old', new')
  {
  }

  lemma {:induction false} OperandIsSubst(x: Expr, old': Expr, new': Expr)
    ensures Substituted(x, old', new')
    decreases x, 1
  {
    OperandFinds(x, old', new');
    if !Equal(x, old') { ReplaceIsSubst(x, old', new'); }
  }

  ghost predicate SameValue(a: Expr, b: Expr, st: State) { Eval(a, st) == Eval(b, st) && Bits(a) == Bits(b) }

  /** Operations on operands of equal value and width. */
  lemma {:induction false} OneOperand(a: Expr, b: Expr, st: State)
    requires (a.UnaryOp? && b.UnaryOp?) || (a.Convert? && b.Convert?)
    requires b == a.(operand := b.operand) && SameValue(a.operand, b.operand, st)
    ensures SameValue(a, b, st)
  {
  }

  lemma {:induction false} BinaryReplaced(e: Expr, old': Expr, new': Expr, st: State)
    requires e.BinaryOp? && Replace(e, old', new').0
    requires SameValue(ReplaceOperand(e.left, old', new').1, e.left, st)
    requires SameValue(ReplaceOperand(e.right, old', new').1, e.right, st)
    ensures SameValue(Replace(e, old', new').1, e, st)
  {
    var e' := Replace(e, old', new').1;
    assert SameValue(e'.left, e.left, st) && SameValue(e'.right, e.right, st);
  }

  lemma {:induction false} IteReplaced(e: Expr, old': Expr, new': Expr, st: State)
    requires e.ITE? && Replace(e, old', new').0 && SameValue(ReplaceOperand(e.cond, old', new').1, e.cond, st)
    requires SameValue(ReplaceOperand(e.iffalse, old', new').1, e.iffalse, st)
    requires SameValue(ReplaceOperand(e.iftrue, old', new').1, e.iftrue, st)
    ensures SameValue(Replace(e, old', new').1, e, st)
  {
  }

  lemma {:induction false} OneAddress(a: Expr, b: Expr, st: State)
    requires a.Load? && b.Load? && b == a.(addr := b.addr) && SameValue(a.addr, b.addr, st)
    ensures SameValue(a, b, st)
  {
  }

  /** Replacing an expression by one of equal value and width keeps the value and the width. */
  lemma {:induction false} ReplacePreserves(e: Expr, old': Expr, new': Expr, st: State)
    requires SameValue(old', new', st)
    ensures SameValue(Replace(e, old', new').1, e, st)
    decreases e, 0
  {
    var (r, e') := Replace(e, old', new');
    if r {
      match e
      case UnaryOp(_, _, x, _) => OperandPreserved(x, old', new', st); OneOperand(e, e', st);
      case Convert(_, _, _, _, x) => OperandPreserved(x, old', new', st); OneOperand(e, e', st);
      case BinaryOp(_, _, x, y, _, _) =>
        OperandPreserved(x, old', new', st);
        OperandPreserved(y, old', new', st);
        BinaryReplaced(e, old', new', st);
      case Load(_, x, _, _) => OperandPreserved(x, old', new', st); OneAddress(e, e', st);
      case ITE(_, c, f, t) =>
        OperandPreserved(c, old', new', st);
        OperandPreserved(f, old', new', st);
        OperandPreserved(t, old', new', st);
        IteReplaced(e, old', new', st);
      case _ =>
    } else {
      ReplaceFinds(e, old', new');
    }
  }

  lemma {:induction false} OperandPreserved(x: Expr, old': Expr, new': Expr, st: State)
    requires SameValue(old', new', st)
    ensures SameValue(ReplaceOperand(x, old', new').1, x, st)
    decreases x, 1
  {
    if Equal(x, old') { LikesMeansEqualValue(x, old', st); } else { ReplacePreserves(x, old', new', st); }
  }

  /** Equal values are not enough: with different widths there is an expression whose value changes. */
  lemma {:induction false} WidthMatters(old': Expr, new': Expr, st: State) returns (e: Expr)
    requires Eval(old', st).Some? && Eval(old', st) == Eval(new', st) && Bits(old') != Bits(new')
    ensures Eval(Replace(e, old', new').1, st) != Eval(e, st)
  {
    var k := Const(None, 1, 8);
    if Equal(k, old') { k := Const(None, 2, 8); }
    var n := 8 + Bits(old');
    e := BinaryOp(None, Concat, k, old', false, n);
    ReplaceRight(k, old', new', n);
    var v := Eval(old', st).value;
    EvalBinary(e, k.value, v, st);
    EvalBinary(BinaryOp(None, Concat, k, new', false, n), k.value, v, st);
    Pow2Differ(Bits(old'), Bits(new'));
  }

  lemma {:induction false} ReplaceRight(k: Expr, old': Expr, new': Expr, n: nat)
    requires k.Const? && !Equal(k, old')
    ensures Replace(BinaryOp(None, Concat, k, old', false, n), old', new').1
         == BinaryOp(None, Concat, k, new', false, n)
  {
    LikesItself(old');
    assert ReplaceOperand(old', old', new') == (true, new');
    assert ReplaceOperand(k, old', new') == (false, k);
  }

  lemma {:induction false} Pow2Differ(m: nat, n: nat)
    requires m != n
    ensures Pow2(m) != Pow2(n)
  {
    if m < n { Pow2Grows(m, n - 1); } else { Pow2Grows(n, m - 1); }
  }
}

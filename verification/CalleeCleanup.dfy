/** The search for a function's return instruction: a FIFO worklist whose entries may be queued and expanded
    repeatedly. */
module CalleeCleanup {
  import opened Wrappers

  /** A statement of a returning block, as far as the search looks at it. */
  datatype Stmt = IMark | AddConst(value: int) | Other

  datatype Block =
    | Ret(stmts: seq<Stmt>)
    | Call(size: nat)
    | Jump(targets: set<nat>)   // every other jumpkind, with its constant targets

  /** The blocks of a program, by address. */
  type Program = nat -> Block

  function Successors(p: Program, a: nat): set<nat>
  {
    match p(a)
    case Ret(_) => {}
    case Call(size) => {a + size}
    case Jump(targets) => targets
  }

  /** The constant added last, if no instruction mark comes after it. */
  function LastAdded(stmts: seq<Stmt>): Option<int>
  {
    if stmts == [] then None
    else
      match stmts[|stmts| - 1]
      case IMark => None
      case AddConst(v) => Some(v)
      case Other => LastAdded(stmts[..|stmts| - 1])
  }

  function Cleanup(p: Program, word: int, a: nat): Option<int>
  {
    if p(a).Ret? && LastAdded(p(a).stmts).Some? then Some(LastAdded(p(a).stmts).value - word) else None
  }

  /** The i-th statement adds the constant, and after it come neither additions nor instruction marks. */
  predicate AddedAt(stmts: seq<Stmt>, i: nat, v: int)
  {
    i < |stmts| && stmts[i] == AddConst(v) && forall j :: i < j < |stmts| ==> stmts[j] == Other
  }

  /** What a block cleans up, by index: there is at most one such addition, and its constant counts, less a word. */
  lemma {:induction false} CleanupByIndex(p: Program, word: int, a: nat, v: int)
    ensures Cleanup(p, word, a) == Some(v - word) <==> p(a).Ret? && exists i: nat :: AddedAt(p(a).stmts, i, v)
  {
    if p(a).Ret? { LastAddedAt(p(a).stmts, v); }
  }

  lemma {:induction false} LastAddedAt(stmts: seq<Stmt>, v: int)
    ensures LastAdded(stmts) == Some(v) <==> exists i: nat :: AddedAt(stmts, i, v)
    decreases |stmts|
  {
    if stmts != [] {
      var n: nat := |stmts| - 1;
      if stmts[n].AddConst? {
        if stmts[n].value == v { assert AddedAt(stmts, n, v); }
      } else if stmts[n].Other? {
        LastAddedAt(stmts[..n], v);
        if i: nat :| AddedAt(stmts[..n], i, v) { assert AddedAt(stmts, i, v); }
        if i: nat :| AddedAt(stmts, i, v) { assert AddedAt(stmts[..n], i, v); }
      }
    }
  }

  // --------------------------------------------------------------------------
  // Reachability

  ghost predicate IsPath(p: Program, path: seq<nat>)
  {
    && path != []
    && forall i :: 0 < i < |path| ==> Step(p, path[i - 1], path[i])
  }

  predicate Step(p: Program, a: nat, b: nat) { b in Successors(p, a) }

  ghost predicate Reaches(p: Program, start: nat, a: nat)
  {
    exists path :: IsPath(p, path) && path[0] == start && path[|path| - 1] == a
  }

  ghost predicate Closed(p: Program, s: set<nat>) { forall a, b :: a in s && Step(p, a, b) ==> b in s }

  lemma {:induction false} ClosedHoldsPath(p: Program, s: set<nat>, path: seq<nat>)
    requires Closed(p, s) && IsPath(p, path) && path[0] in s
    ensures path[|path| - 1] in s
    decreases |path|
  {
    if |path| > 1 {
      var n := |path| - 1;
      assert IsPath(p, path[..n]);
      ClosedHoldsPath(p, s, path[..n]);
      assert Step(p, path[n - 1], path[n]);
    }
  }

  lemma {:induction false} ReachesItself(p: Program, start: nat)
    ensures Reaches(p, start, start)
  {
    assert IsPath(p, [start]) && [start][0] == start && [start][|[start]| - 1] == start;
  }

  lemma {:induction false} ReachesNext(p: Program, start: nat, a: nat, b: nat)
    requires Reaches(p, start, a) && Step(p, a, b)
    ensures Reaches(p, start, b)
  {
    var path :| IsPath(p, path) && path[0] == start && path[|path| - 1] == a;
    var longer := path + [b];
    forall i | 0 < i < |longer| ensures Step(p, longer[i - 1], longer[i]) {
      if i < |path| { assert Step(p, path[i - 1], path[i]); }
    }
    assert IsPath(p, longer) && longer[0] == start && longer[|longer| - 1] == b;
  }

  // --------------------------------------------------------------------------
  // The worklist

  /** How far the first unseen entry is from the front; the length when there is none. */
  function UntilUnseen(todo: seq<nat>, seen: set<nat>): nat
  {
    if todo == [] || todo[0] !in seen then 0 else 1 + UntilUnseen(todo[1..], seen)
  }

  lemma {:induction false} UntilUnseenOfMore(todo: seq<nat>, more: seq<nat>, seen: set<nat>)
    requires forall i :: 0 <= i < |more| ==> more[i] !in seen
    ensures UntilUnseen(todo + more, seen) == UntilUnseen(todo, seen)
  {
    if todo == [] {
      assert todo + more == more;
    } else if todo[0] in seen {
      assert (todo + more)[1..] == todo[1..] + more;
      UntilUnseenOfMore(todo[1..], more, seen);
    }
  }

  /** Everything a seen block leads to has been seen or is queued. */
  ghost predicate Covered(p: Program, seen: set<nat>, todo: seq<nat>)
  {
    forall a, b :: a in seen && Step(p, a, b) ==> b in seen || b in todo
  }

  method Listed(s: set<nat>) returns (r: seq<nat>)
    ensures forall x :: x in r <==> x in s
  {
    r := [];
    var left := s;
    while left != {}
      invariant forall x :: x in s <==> x in r || x in left
      decreases |left|
    {
      if forall x :: x !in left { assert false; }
      var x :| x in left;
      r, left := r + [x], left - {x};
    }
  }

  method ScanReturn(stmts: seq<Stmt>) returns (r: Option<int>)
    ensures r == LastAdded(stmts)
  {
    var i := |stmts|;
    assert stmts[..i] == stmts;
    while i > 0
      invariant 0 <= i <= |stmts| && LastAdded(stmts[..i]) == LastAdded(stmts)
    {
      i := i - 1;
      assert stmts[..i + 1][..i] == stmts[..i];
      match stmts[i]
      case IMark => return None;
      case AddConst(v) => return Some(v);
      case Other =>
    }
    r := None;
  }

  ghost predicate Invariant(p: Program, word: int, start: nat, blocks: set<nat>, seen: set<nat>, todo: seq<nat>)
  {
    && seen <= blocks && (forall a :: a in todo ==> a in blocks)
    && (start in seen || start in todo)
    && (forall a :: a in seen || a in todo ==> Reaches(p, start, a))
    && Covered(p, seen, todo)
    && (forall a :: a in seen ==> Cleanup(p, word, a) == None)
  }

  /** The queue after the front block has been expanded. */
  lemma {:induction false} StepKeeps(p: Program, word: int, start: nat, blocks: set<nat>, seen: set<nat>,
                                     todo: seq<nat>, more: seq<nat>)
    requires Closed(p, blocks) && todo != [] && Invariant(p, word, start, blocks, seen, todo)
    requires Cleanup(p, word, todo[0]) == None
    requires forall x :: x in more <==> x in Successors(p, todo[0]) && x !in seen + {todo[0]}
    ensures Invariant(p, word, start, blocks, seen + {todo[0]}, todo[1..] + more)
  {
    var addr, rest := todo[0], todo[1..];
    assert forall x :: x in todo <==> x == addr || x in rest;
    forall x | x in more ensures x in blocks && Reaches(p, start, x) {
      assert Step(p, addr, x);
      ReachesNext(p, start, addr, x);
    }
    forall a, b | a in seen + {addr} && Step(p, a, b) ensures b in seen + {addr} || b in rest + more {
      if a in seen { assert b in seen || b in todo; }
    }
  }

  /** Expanding an unseen block leaves fewer unseen; expanding a seen one again brings the first unseen entry closer. */
  lemma {:induction false} StepDecreases(blocks: set<nat>, seen: set<nat>, todo: seq<nat>, more: seq<nat>)
    requires todo != [] && todo[0] in blocks && forall x :: x in more ==> x !in seen + {todo[0]}
    ensures todo[0] !in seen ==> |blocks - (seen + {todo[0]})| < |blocks - seen|
    ensures todo[0] in seen ==>
              seen + {todo[0]} == seen && UntilUnseen(todo[1..] + more, seen) < UntilUnseen(todo, seen)
  {
    if todo[0] !in seen {
      assert blocks - (seen + {todo[0]}) == (blocks - seen) - {todo[0]};
    } else {
      assert seen + {todo[0]} == seen;
      UntilUnseenOfMore(todo[1..], more, seen);
    }
  }

  // --------------------------------------------------------------------------
  // First in, first out: nearer blocks are examined first

  ghost predicate ReachesIn(p: Program, start: nat, a: nat, n: nat)
  {
    exists path :: IsPath(p, path) && |path| == n + 1 && path[0] == start && path[n] == a
  }

  ghost predicate Queued(todo: seq<nat>, depths: seq<nat>, b: nat, k: nat)
    requires |depths| == |todo|
  {
    exists i :: 0 <= i < |todo| && todo[i] == b && depths[i] <= k
  }

  /** The queue with the number of steps each entry was reached in, and the seen blocks with theirs. */
  ghost predicate ByDistance(p: Program, start: nat, seen: map<nat, nat>, todo: seq<nat>, depths: seq<nat>)
  {
    && |depths| == |todo| && Ascending(depths)
    && EntriesReached(p, start, todo, depths)
    && (forall a :: a in seen && todo != [] ==> seen[a] <= depths[0])
    && LeadsOn(p, seen, todo, depths)
    && ((start in seen && seen[start] == 0) || Queued(todo, depths, start, 0))
  }

  ghost predicate EntriesReached(p: Program, start: nat, todo: seq<nat>, depths: seq<nat>)
    requires |depths| == |todo|
  {
    forall i :: 0 <= i < |todo| ==> ReachesIn(p, start, todo[i], depths[i])
  }

  lemma {:induction false} EntriesKept(p: Program, start: nat, todo: seq<nat>, depths: seq<nat>, more: seq<nat>)
    requires |depths| == |todo| > 0 && EntriesReached(p, start, todo, depths)
    requires forall x :: x in more ==> Step(p, todo[0], x)
    ensures EntriesReached(p, start, todo[1..] + more, depths[1..] + Repeat(|more|, depths[0] + 1))
  {
    var (todo', depths') := (todo[1..] + more, depths[1..] + Repeat(|more|, depths[0] + 1));
    forall i | 0 <= i < |todo'| ensures ReachesIn(p, start, todo'[i], depths'[i]) {
      if i >= |todo| - 1 {
        assert todo'[i] in more;
        ReachesInNext(p, start, todo[0], todo'[i], depths[0]);
      } else {
        assert ReachesIn(p, start, todo[i + 1], depths[i + 1]);
      }
    }
  }

  ghost predicate Ascending(depths: seq<nat>)
  {
    forall i, j :: 0 <= i <= j < |depths| ==> depths[i] <= depths[j] <= depths[0] + 1
  }

  /** A seen block's successors are seen, or queued, at most one step further. */
  ghost predicate LeadsOn(p: Program, seen: map<nat, nat>, todo: seq<nat>, depths: seq<nat>)
    requires |depths| == |todo|
  {
    forall a, b :: a in seen && Step(p, a, b) ==>
      (b in seen && seen[b] <= seen[a] + 1) || Queued(todo, depths, b, seen[a] + 1)
  }

  lemma {:induction false} AscendingKept(depths: seq<nat>, n: nat)
    requires depths != [] && Ascending(depths)
    ensures Ascending(depths[1..] + Repeat(n, depths[0] + 1))
  {
  }

  lemma {:induction false} LeadsOnKept(p: Program, seen: map<nat, nat>, todo: seq<nat>, depths: seq<nat>,
                                       more: seq<nat>)
    requires |depths| == |todo| > 0 && LeadsOn(p, seen, todo, depths) && forall a :: a in seen ==> seen[a] <= depths[0]
    requires forall x :: x in more <==> x in Successors(p, todo[0]) && x !in seen && x != todo[0]
    ensures LeadsOn(p, Labelled(seen, todo[0], depths[0]), todo[1..] + more,
                    depths[1..] + Repeat(|more|, depths[0] + 1))
  {
    var addr, d, added := todo[0], depths[0], Repeat(|more|, depths[0] + 1);
    var (seen', todo', depths') := (Labelled(seen, addr, d), todo[1..] + more, depths[1..] + added);
    forall a, b | a in seen' && Step(p, a, b)
      ensures (b in seen' && seen'[b] <= seen'[a] + 1) || Queued(todo', depths', b, seen'[a] + 1)
    {
      if a in seen {
        if Queued(todo, depths, b, seen[a] + 1) { StillQueued(todo, depths, more, added, b, seen[a] + 1); }
      } else if b !in seen' {
        NewlyQueued(todo[1..], depths[1..], more, d + 1, b);
      }
    }
  }

  /** Everything nearer than the front of the queue has been seen. */
  lemma {:induction false} NearerSeen(p: Program, start: nat, seen: map<nat, nat>, todo: seq<nat>, depths: seq<nat>,
                                      path: seq<nat>, k: nat)
    requires ByDistance(p, start, seen, todo, depths) && todo != []
    requires IsPath(p, path) && path[0] == start && k < |path| && k < depths[0]
    ensures path[k] in seen && seen[path[k]] <= k
    decreases k
  {
    if k > 0 {
      NearerSeen(p, start, seen, todo, depths, path, k - 1);
      assert Step(p, path[k - 1], path[k]);
    }
  }

  function Labelled(seen: map<nat, nat>, a: nat, d: nat): map<nat, nat> { if a in seen then seen else seen[a := d] }

  function Repeat(n: nat, d: nat): (r: seq<nat>)
    ensures |r| == n && forall i :: 0 <= i < n ==> r[i] == d
  {
    seq(n, _ => d)
  }

  lemma {:induction false} ReachesInNext(p: Program, start: nat, a: nat, b: nat, n: nat)
    requires ReachesIn(p, start, a, n) && Step(p, a, b)
    ensures ReachesIn(p, start, b, n + 1)
  {
    var path :| IsPath(p, path) && |path| == n + 1 && path[0] == start && path[n] == a;
    var longer := path + [b];
    forall i | 0 < i < |longer| ensures Step(p, longer[i - 1], longer[i]) {
      if i < |path| { assert Step(p, path[i - 1], path[i]); }
    }
    assert IsPath(p, longer) && |longer| == n + 2 && longer[0] == start && longer[n + 1] == b;
  }

  lemma {:induction false} StillQueued(todo: seq<nat>, depths: seq<nat>, more: seq<nat>, added: seq<nat>, b: nat,
                                       k: nat)
    requires |depths| == |todo| > 0 && |more| == |added| && Queued(todo, depths, b, k)
    ensures (todo[0] == b && depths[0] <= k) || Queued(todo[1..] + more, depths[1..] + added, b, k)
  {
    var i :| 0 <= i < |todo| && todo[i] == b && depths[i] <= k;
    if i > 0 { assert (todo[1..] + more)[i - 1] == b && (depths[1..] + added)[i - 1] <= k; }
  }

  lemma {:induction false} NewlyQueued(todo: seq<nat>, depths: seq<nat>, more: seq<nat>, d: nat, b: nat)
    requires |depths| == |todo| && b in more
    ensures Queued(todo + more, depths + Repeat(|more|, d), b, d)
  {
    var i :| 0 <= i < |more| && more[i] == b;
    assert (todo + more)[|todo| + i] == b && (depths + Repeat(|more|, d))[|todo| + i] <= d;
  }

  lemma {:induction false} DistanceKept(p: Program, start: nat, seen: map<nat, nat>, todo: seq<nat>, depths: seq<nat>,
                                        more: seq<nat>)
    requires todo != [] && ByDistance(p, start, seen, todo, depths)
    requires forall x :: x in more <==> x in Successors(p, todo[0]) && x !in seen && x != todo[0]
    ensures ByDistance(p, start, Labelled(seen, todo[0], depths[0]), todo[1..] + more,
                       depths[1..] + Repeat(|more|, depths[0] + 1))
  {
    var addr, d, added := todo[0], depths[0], Repeat(|more|, depths[0] + 1);
    var (seen', todo', depths') := (Labelled(seen, addr, d), todo[1..] + more, depths[1..] + added);
    EntriesKept(p, start, todo, depths, more);
    AscendingKept(depths, |more|);
    LeadsOnKept(p, seen, todo, depths, more);
    assert depths' != [] ==> d <= depths'[0];
    if Queued(todo, depths, start, 0) { StillQueued(todo, depths, more, added, start, 0); }
  }

  // --------------------------------------------------------------------------
  // The search

  method Expand(p: Program, addr: nat, seen: set<nat>) returns (more: seq<nat>)
    ensures forall x :: x in more <==> x in Successors(p, addr) && x !in seen
  {
    match p(addr)
    case Ret(_) => more := [];
    case Call(size) => more := if addr + size !in seen then [addr + size] else [];
    case Jump(targets) => more := Listed(targets - seen);
  }

  ghost predicate NearestCleanup(p: Program, word: int, start: nat, a: nat, n: nat)
  {
    && ReachesIn(p, start, a, n)
    && forall b: nat, m: nat :: ReachesIn(p, start, b, m) && m < n ==> Cleanup(p, word, b) == None
  }

  lemma {:induction false} FrontIsNearest(p: Program, word: int, start: nat, seen: map<nat, nat>, todo: seq<nat>,
                                          depths: seq<nat>)
    requires todo != [] && ByDistance(p, start, seen, todo, depths)
    requires forall a :: a in seen ==> Cleanup(p, word, a) == None
    ensures NearestCleanup(p, word, start, todo[0], depths[0])
  {
    assert ReachesIn(p, start, todo[0], depths[0]);
    forall b: nat, m: nat | ReachesIn(p, start, b, m) && m < depths[0] ensures Cleanup(p, word, b) == None {
      var path :| IsPath(p, path) && |path| == m + 1 && path[0] == start && path[m] == b;
      NearerSeen(p, start, seen, todo, depths, path, m);
    }
  }

  /** What holds whenever the loop comes around. */
  ghost predicate Searching(p: Program, word: int, start: nat, blocks: set<nat>, seen: set<nat>, todo: seq<nat>,
                            labels: map<nat, nat>, depths: seq<nat>)
  {
    Invariant(p, word, start, blocks, seen, todo) && ByDistance(p, start, labels, todo, depths) && labels.Keys == seen
  }

  lemma {:induction false} SearchStarts(p: Program, word: int, start: nat, blocks: set<nat>)
    requires start in blocks
    ensures Searching(p, word, start, blocks, {}, [start], map[], [0])
  {
    ReachesItself(p, start);
    assert IsPath(p, [start]) && |[start]| == 0 + 1 && [start][0] == start;
    assert ReachesIn(p, start, start, 0);
    assert [start][0] == start && [0][0] <= 0;
  }

  lemma {:induction false} SearchGoesOn(p: Program, word: int, start: nat, blocks: set<nat>, seen: set<nat>,
                                        todo: seq<nat>, more: seq<nat>,
                                        labels: map<nat, nat>, depths: seq<nat>)
    requires Closed(p, blocks) && todo != [] && Searching(p, word, start, blocks, seen, todo, labels, depths)
    requires Cleanup(p, word, todo[0]) == None
    requires forall x :: x in more <==> x in Successors(p, todo[0]) && x !in seen + {todo[0]}
    ensures Searching(p, word, start, blocks, seen + {todo[0]}, todo[1..] + more,
                      Labelled(labels, todo[0], depths[0]), depths[1..] + Repeat(|more|, depths[0] + 1))
  {
    StepKeeps(p, word, start, blocks, seen, todo, more);
    DistanceKept(p, start, labels, todo, depths, more);
  }

  lemma {:induction false} SearchEnds(p: Program, word: int, start: nat, blocks: set<nat>, seen: set<nat>)
    requires Invariant(p, word, start, blocks, seen, [])
    ensures forall a :: Reaches(p, start, a) ==> Cleanup(p, word, a) == None
  {
    forall a | Reaches(p, start, a) ensures Cleanup(p, word, a) == None {
      var path :| IsPath(p, path) && path[0] == start && path[|path| - 1] == a;
      ClosedHoldsPath(p, seen, path);
    }
  }

  method Examine(p: Program, word: int, addr: nat) returns (r: Option<int>)
    ensures r == Cleanup(p, word, addr)
  {
    r := None;
    if p(addr).Ret? {
      var added := ScanReturn(p(addr).stmts);
      if added.Some? { r := Some(added.value - word); }
    }
  }

  /** Terminates on every program with finitely many reachable blocks, returns the cleanup of a nearest block that
      has one, and gives up only when no reachable block does. */
  method Analyze(p: Program, word: int, start: nat, ghost blocks: set<nat>)
    returns (r: Option<int>, ghost found: nat, ghost distance: nat)
    requires start in blocks && Closed(p, blocks)
    ensures r.Some? ==> Cleanup(p, word, found) == r && NearestCleanup(p, word, start, found, distance)
    ensures r.None? ==> forall a :: Reaches(p, start, a) ==> Cleanup(p, word, a) == None
  {
    var seen: set<nat> := {};
    var todo: seq<nat> := [start];
    ghost var depths: seq<nat>, labels: map<nat, nat> := [0], map[];
    SearchStarts(p, word, start, blocks);
    while todo != []
      invariant Searching(p, word, start, blocks, seen, todo, labels, depths)
      decreases |blocks - seen|, UntilUnseen(todo, seen)
    {
      var addr := todo[0];
      r := Examine(p, word, addr);
      if r.Some? {
        FrontIsNearest(p, word, start, labels, todo, depths);
        return r, addr, depths[0];
      }
      var more := Expand(p, addr, seen + {addr});
      SearchGoesOn(p, word, start, blocks, seen, todo, more, labels, depths);
      StepDecreases(blocks, seen, todo, more);
      labels, depths := Labelled(labels, addr, depths[0]), depths[1..] + Repeat(|more|, depths[0] + 1);
      seen, todo := seen + {addr}, todo[1..] + more;
    }
    SearchEnds(p, word, start, blocks, seen);
    r, found, distance := None, start, 0;
  }
}

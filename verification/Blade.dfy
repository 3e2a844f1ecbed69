/** Blade: slicing backward over blocks, from one statement to the blocks that lead to it. */
module Blade {
  import opened Wrappers

  type Addr = nat

  /** A statement of a block, or its default exit. */
  datatype Node = Node(addr: Addr, stmt: Option<nat>)

  datatype Targets = Targets(temps: set<nat>, regs: set<nat>, cells: set<int>)

  predicate NoTargets(t: Targets) { t.temps == {} && t.regs == {} && t.cells == {} }

  /** What a SimSlicer reports: the kept statements in the order of its callback, and what is left to find. */
  datatype Sliced = Sliced(kept: seq<nat>, regs: set<nat>, cells: set<int>)

  datatype Exit = Exit(stmt: nat, guard: Option<nat>)

  /** A lifted block: the temp its `next` reads, and its Boring exits. */
  datatype Block = Block(next: Option<nat>, exits: seq<Exit>)

  datatype Edge = Edge(pred: Addr, callOrReturn: bool, exit: Option<nat>)

  datatype World = World(
    block: Addr -> Option<Block>,          // none when lifting fails
    slicer: (Addr, Targets) -> Sliced,
    inEdges: Addr -> seq<Edge>,
    hooked: Addr -> bool,
    maxLevel: int,
    maxPredecessors: nat,
    controlDependence: bool,
    stopAtCalls: bool,
    ignoredPointers: set<nat>,             // sp and bp, when they are to be ignored
    ignored: set<nat>)                     // registers ignored after the destination block only

  // --------------------------------------------------------------------------
  // Paths

  type Edges = set<(Node, Node)>

  ghost predicate IsPath(edges: Edges, path: seq<Node>)
  {
    path != [] && forall i :: 0 < i < |path| ==> Link(edges, path[i - 1], path[i])
  }

  predicate Link(edges: Edges, a: Node, b: Node) { (a, b) in edges }

  ghost predicate Leads(edges: Edges, n: Node, dst: Node)
  {
    exists path :: IsPath(edges, path) && path[0] == n && path[|path| - 1] == dst
  }

  lemma {:induction false} LeadsItself(edges: Edges, n: Node)
    ensures Leads(edges, n, n)
  {
    assert IsPath(edges, [n]) && [n][0] == n && [n][|[n]| - 1] == n;
  }

  lemma {:induction false} LeadsMore(edges: Edges, more: Edges, n: Node, dst: Node)
    requires edges <= more && Leads(edges, n, dst)
    ensures Leads(more, n, dst)
  {
    var path :| IsPath(edges, path) && path[0] == n && path[|path| - 1] == dst;
    forall i | 0 < i < |path| ensures Link(more, path[i - 1], path[i]) { assert Link(edges, path[i - 1], path[i]); }
    assert IsPath(more, path);
  }

  lemma {:induction false} LeadsFrom(edges: Edges, n: Node, next: Node, dst: Node)
    requires Link(edges, n, next) && Leads(edges, next, dst)
    ensures Leads(edges, n, dst)
  {
    var path :| IsPath(edges, path) && path[0] == next && path[|path| - 1] == dst;
    var longer := [n] + path;
    forall i | 0 < i < |longer| ensures Link(edges, longer[i - 1], longer[i]) {
      if i > 1 { assert Link(edges, path[i - 2], path[i - 1]); }
    }
    assert IsPath(edges, longer) && longer[0] == n && longer[|longer| - 1] == dst;
  }

  /** Calls and returns may be skipped, and hooked code always is. */
  predicate Follows(w: World, e: Edge) { !(w.stopAtCalls && e.callOrReturn) && !w.hooked(e.pred) }

  /** How many edges into a block are looked at. */
  function Considered(w: World, a: Addr): (n: nat)
    ensures n <= |w.inEdges(a)| && n <= w.maxPredecessors && (n == |w.inEdges(a)| || n == w.maxPredecessors)
  {
    if |w.inEdges(a)| > w.maxPredecessors then w.maxPredecessors else |w.inEdges(a)|
  }

  /** At most k followed control-flow edges behind a block. */
  ghost predicate Behind(w: World, a: Addr, dst: Addr, k: nat)
    decreases k
  {
    a == dst || (k > 0 && exists b :: Flows(w, a, b) && Behind(w, b, dst, k - 1))
  }

  predicate Flows(w: World, a: Addr, b: Addr)
  {
    exists i :: 0 <= i < Considered(w, b) && w.inEdges(b)[i].pred == a && Follows(w, w.inEdges(b)[i])
  }

  lemma {:induction false} BehindMore(w: World, a: Addr, dst: Addr, k: nat, n: nat)
    requires Behind(w, a, dst, k) && k <= n
    ensures Behind(w, a, dst, n)
    decreases k
  {
    if a != dst {
      var b :| Flows(w, a, b) && Behind(w, b, dst, k - 1);
      BehindMore(w, b, dst, k - 1, n - 1);
    }
  }

  /** Every node of the slice leads to the destination, and lies less than `max_level` followed edges behind it. */
  ghost predicate GraphShaped(w: World, dst: Node, nodes: set<Node>, edges: Edges)
  {
    && (forall n :: n in nodes ==> Leads(edges, n, dst) && Near(w, n.addr, dst.addr))
    && (forall a, b :: Link(edges, a, b) ==> a in nodes && b in nodes)
  }

  /** The destination block is always sliced, whatever the level. */
  function Reach(w: World): nat { if w.maxLevel > 0 then w.maxLevel - 1 else 0 }

  ghost predicate Near(w: World, a: Addr, dst: Addr) { Behind(w, a, dst, Reach(w)) }

  /** Statements of one block, each linked to the one before it. */
  function Chain(addr: Addr, stmts: seq<nat>, prev: Node): Edges
  {
    if stmts == [] then {}
    else
      var init, last := stmts[..|stmts| - 1], stmts[|stmts| - 1];
      Chain(addr, init, prev) + {(Node(addr, Some(last)), LastOf(addr, init, prev))}
  }

  function LastOf(addr: Addr, stmts: seq<nat>, prev: Node): Node
  {
    if stmts == [] then prev else Node(addr, Some(stmts[|stmts| - 1]))
  }

  function ExitStmts(exits: seq<Exit>): (r: seq<nat>)
    ensures |r| == |exits|
  {
    seq(|exits|, i requires 0 <= i < |exits| => exits[i].stmt)
  }

  function Guards(exits: seq<Exit>): set<nat>
  {
    set i | 0 <= i < |exits| && exits[i].guard.Some? :: exits[i].guard.value
  }

  /** What the slice gets from a block other than the destination: its default exit, its conditional exits, the
      kept statements. */
  function BlockEdges(w: World, run: Addr, b: Block, regs: set<nat>, cells: set<int>, prev: Node,
                      exit: Option<nat>): Edges
  {
    var default := Node(run, None);
    var (exits, temps) := (ExitsOf(w, b), TempsOf(w, b, exit));
    var kept := w.slicer(run, Targets(temps, regs, cells)).kept;
    var before := LastOf(run, exits, default);
    {(default, prev)} + Chain(run, exits, default) + Chain(run, if kept == [] then [0] else kept, before)
  }

  function ExitsOf(w: World, b: Block): seq<nat> { if w.controlDependence then ExitStmts(b.exits) else [] }

  /** The temps whose values decide where the block goes. */
  function TempsOf(w: World, b: Block, exit: Option<nat>): set<nat>
  {
    if !w.controlDependence then {}
    else (if exit.None? && b.next.Some? then {b.next.value} else {}) + Guards(b.exits)
  }

  lemma {:induction false} OneMoreExit(exits: seq<Exit>, i: nat)
    requires i < |exits|
    ensures ExitStmts(exits[..i + 1]) == ExitStmts(exits[..i]) + [exits[i].stmt]
    ensures ExitStmts(exits[..i + 1])[..i] == ExitStmts(exits[..i])
    ensures Guards(exits[..i + 1])
         == Guards(exits[..i]) + if exits[i].guard.Some? then {exits[i].guard.value} else {}
  {
    forall t | t in Guards(exits[..i + 1])
      ensures t in Guards(exits[..i]) || (exits[i].guard.Some? && t == exits[i].guard.value)
    {
      var j :| 0 <= j < |exits[..i + 1]| && exits[..i + 1][j].guard.Some? && exits[..i + 1][j].guard.value == t;
      if j < i { assert exits[..i][j] == exits[..i + 1][j]; }
    }
    forall t | t in Guards(exits[..i]) ensures t in Guards(exits[..i + 1]) {
      var j :| 0 <= j < |exits[..i]| && exits[..i][j].guard.Some? && exits[..i][j].guard.value == t;
      assert exits[..i + 1][j] == exits[..i][j];
    }
    assert exits[..i + 1][i] == exits[i];
  }

  lemma {:induction false} GraphGrows(w: World, dst: Node, nodes: set<Node>, edges: Edges, n: Node, prev: Node)
    requires GraphShaped(w, dst, nodes, edges) && Leads(edges, prev, dst)
    requires Near(w, n.addr, dst.addr) && Near(w, prev.addr, dst.addr)
    ensures GraphShaped(w, dst, nodes + {n, prev}, edges + {(n, prev)})
    ensures Leads(edges + {(n, prev)}, n, dst)
    ensures forall m :: Leads(edges, m, dst) ==> Leads(edges + {(n, prev)}, m, dst)
  {
    var more := edges + {(n, prev)};
    forall a, b | Link(more, a, b) ensures a in nodes + {n, prev} && b in nodes + {n, prev} {
      assert Link(edges, a, b) || (a, b) == (n, prev);
    }
    forall m | Leads(edges, m, dst) ensures Leads(more, m, dst) { LeadsMore(edges, more, m, dst); }
    assert Link(more, n, prev);
    LeadsFrom(more, n, prev, dst);
  }

  lemma {:induction false} PredecessorNear(w: World, b: Addr, dst: Addr, i: nat, k: nat)
    requires Behind(w, b, dst, k) && i < Considered(w, b) && Follows(w, w.inEdges(b)[i])
    ensures Behind(w, w.inEdges(b)[i].pred, dst, k + 1)
  {
    assert Flows(w, w.inEdges(b)[i].pred, b);
  }

  /** What a block hands to its predecessors once it has been sliced. */
  datatype Visit = Visit(level: int, regs: set<nat>, cells: set<int>, prev: Node)

  predicate SomethingLeft(v: Visit) { v.regs != {} || v.cells != {} }

  /** What is handed on is what the slicer leaves, without the ignored pointers. */
  function VisitOf(w: World, level: int, run: Addr, b: Block, regs: set<nat>, cells: set<int>, exit: Option<nat>): Visit
  {
    var sliced := w.slicer(run, Targets(TempsOf(w, b, exit), regs, cells));
    var before := LastOf(run, ExitsOf(w, b), Node(run, None));
    Visit(level, sliced.regs - w.ignoredPointers, sliced.cells,
          LastOf(run, if sliced.kept == [] then [0] else sliced.kept, before))
  }

  /** The i-th edge into a block has been dealt with: unless it is skipped, or nothing is left to look for, or the
      level is used up, or its block cannot be lifted, that block has been traced and is in the slice. */
  ghost predicate DealtWith(w: World, edges: Edges, traced: set<Addr>, run: Addr, v: Visit, i: nat)
    requires i < |w.inEdges(run)|
  {
    var e := w.inEdges(run)[i];
    Follows(w, e) && SomethingLeft(v) && v.level > 0 && w.block(e.pred).Some? ==>
      e.pred in traced && BlockEdges(w, e.pred, w.block(e.pred).value, v.regs, v.cells, v.prev, e.exit) <= edges
  }

  ghost predicate Complete(w: World, edges: Edges, traced: set<Addr>, run: Addr, v: Visit)
  {
    forall i :: 0 <= i < Considered(w, run) ==> DealtWith(w, edges, traced, run, v, i)
  }

  /** What has been put into the slice, what has been traced, and what each traced block handed on. */
  datatype Record = Record(edges: Edges, traced: set<Addr>, visits: map<Addr, Visit>)

  predicate Larger(before: Record, after: Record)
  {
    && before.edges <= after.edges && before.traced <= after.traced
    && (forall run :: run in before.visits ==> run in after.visits && after.visits[run] == before.visits[run])
  }

  /** An edge of a block that was entered with something to look for. */
  ghost predicate OfBlock(w: World, a: Node, b: Node)
  {
    exists run, regs, cells, prev, exit :: OfBlockWith(w, a, b, run, regs, cells, prev, exit)
  }

  ghost predicate OfBlockWith(w: World, a: Node, b: Node, run: Addr, regs: set<nat>, cells: set<int>, prev: Node,
                              exit: Option<nat>)
  {
    && (regs != {} || cells != {}) && w.block(run).Some?
    && (a, b) in BlockEdges(w, run, w.block(run).value, regs, cells, prev, exit)
  }

  ghost predicate OnlyBlocksAdded(w: World, edges: Edges, more: Edges)
  {
    forall a, b :: Link(more, a, b) && !Link(edges, a, b) ==> OfBlock(w, a, b)
  }

  lemma {:induction false} BlockAdded(w: World, edges: Edges, run: Addr, b: Block, regs: set<nat>, cells: set<int>,
                                      prev: Node, exit: Option<nat>)
    requires (regs != {} || cells != {}) && w.block(run) == Some(b)
    ensures OnlyBlocksAdded(w, edges, edges + BlockEdges(w, run, b, regs, cells, prev, exit))
  {
    var more := edges + BlockEdges(w, run, b, regs, cells, prev, exit);
    forall x, y | Link(more, x, y) && !Link(edges, x, y) ensures OfBlock(w, x, y) {
      assert OfBlockWith(w, x, y, run, regs, cells, prev, exit);
    }
  }

  /** Nothing recorded is forgotten, only edges of entered blocks are added, and every block traced in between is
      complete. */
  ghost predicate Extends(w: World, before: Record, after: Record)
  {
    && Larger(before, after) && OnlyBlocksAdded(w, before.edges, after.edges)
    && (forall run :: run in after.visits && run !in before.visits ==>
          Complete(w, after.edges, after.traced, run, after.visits[run]))
  }

  lemma {:induction false} CompleteMore(w: World, before: Record, after: Record, run: Addr, v: Visit)
    requires Complete(w, before.edges, before.traced, run, v) && Larger(before, after)
    ensures Complete(w, after.edges, after.traced, run, v)
  {
    forall i | 0 <= i < Considered(w, run) ensures DealtWith(w, after.edges, after.traced, run, v, i) {
      assert DealtWith(w, before.edges, before.traced, run, v, i);
    }
  }

  lemma {:induction false} ExtendsTransitive(w: World, a: Record, b: Record, c: Record)
    requires Extends(w, a, b) && Extends(w, b, c)
    ensures Extends(w, a, c)
  {
    forall run | run in c.visits && run !in a.visits ensures Complete(w, c.edges, c.traced, run, c.visits[run]) {
      if run in b.visits { CompleteMore(w, b, c, run, b.visits[run]); }
    }
  }

  /** A block is traced, and then its predecessors. */
  lemma {:induction false} ExtendsByBlock(w: World, a: Record, edges: Edges, run: Addr, v: Visit, c: Record)
    requires a.edges <= edges && run !in a.visits && OnlyBlocksAdded(w, a.edges, edges)
    requires Extends(w, Record(edges, a.traced + {run}, a.visits[run := v]), c)
    requires Complete(w, c.edges, c.traced, run, v)
    ensures Extends(w, a, c)
  {
    var b := Record(edges, a.traced + {run}, a.visits[run := v]);
    assert run in b.visits && b.visits[run] == v && c.visits[run] == v;
    forall other | other in a.visits ensures other in c.visits && c.visits[other] == a.visits[other] {
      assert other in b.visits && b.visits[other] == a.visits[other];
    }
  }

  ghost predicate FirstDealtWith(w: World, edges: Edges, traced: set<Addr>, run: Addr, v: Visit, n: nat)
    requires n <= |w.inEdges(run)|
  {
    forall i :: 0 <= i < n ==> DealtWith(w, edges, traced, run, v, i)
  }

  lemma {:induction false} OneMoreDealtWith(w: World, before: Record, after: Record, run: Addr, v: Visit, n: nat)
    requires n < |w.inEdges(run)| && FirstDealtWith(w, before.edges, before.traced, run, v, n)
    requires Larger(before, after) && DealtWith(w, after.edges, after.traced, run, v, n)
    ensures FirstDealtWith(w, after.edges, after.traced, run, v, n + 1)
  {
    forall i | 0 <= i < n ensures DealtWith(w, after.edges, after.traced, run, v, i) {
      assert DealtWith(w, before.edges, before.traced, run, v, i);
    }
  }

  /** A block was entered, at some level and with something to look for, and that is what it hands on. */
  ghost predicate Entered(w: World, edges: Edges, run: Addr, v: Visit)
  {
    exists regs, cells, prev, exit :: EnteredWith(w, edges, run, v, regs, cells, prev, exit)
  }

  ghost predicate EnteredWith(w: World, edges: Edges, run: Addr, v: Visit, regs: set<nat>, cells: set<int>, prev: Node,
                              exit: Option<nat>)
  {
    && v.level >= 0 && (regs != {} || cells != {}) && w.block(run).Some?
    && BlockEdges(w, run, w.block(run).value, regs, cells, prev, exit) <= edges
    && v == VisitOf(w, v.level, run, w.block(run).value, regs, cells, exit)
  }

  ghost predicate AllEntered(w: World, edges: Edges, visits: map<Addr, Visit>)
  {
    forall run :: run in visits ==> Entered(w, edges, run, visits[run])
  }

  lemma {:induction false} AllEnteredMore(w: World, edges: Edges, more: Edges, visits: map<Addr, Visit>)
    requires AllEntered(w, edges, visits) && edges <= more
    ensures AllEntered(w, more, visits)
  {
    forall run | run in visits ensures Entered(w, more, run, visits[run]) {
      EnteredMore(w, edges, more, run, visits[run]);
    }
  }

  lemma {:induction false} AllEnteredAlso(w: World, edges: Edges, visits: map<Addr, Visit>, run: Addr, v: Visit,
                                          regs: set<nat>, cells: set<int>, prev: Node, exit: Option<nat>)
    requires AllEntered(w, edges, visits) && EnteredWith(w, edges, run, v, regs, cells, prev, exit)
    ensures AllEntered(w, edges, visits[run := v])
  {
  }

  lemma {:induction false} EnteredMore(w: World, edges: Edges, more: Edges, run: Addr, v: Visit)
    requires Entered(w, edges, run, v) && edges <= more
    ensures Entered(w, more, run, v)
  {
    var regs, cells, prev, exit :| EnteredWith(w, edges, run, v, regs, cells, prev, exit);
    assert EnteredWith(w, more, run, v, regs, cells, prev, exit);
  }

  // --------------------------------------------------------------------------
  // The blade

  class Blade {
    const world: World
    const dst: Node
    var nodes: set<Node>
    var edges: Edges
    var traced: set<Addr>
    ghost var visits: map<Addr, Visit>     // what each traced block handed on when it was first traced

    constructor (world: World, dst: Node)
      ensures this.world == world && this.dst == dst && nodes == {} && edges == {} && traced == {} && visits == map[]
      ensures Shaped() && Recorded()
    {
      this.world, this.dst := world, dst;
      nodes, edges, traced := {}, {}, {};
      visits := map[];
    }

    ghost predicate Shaped()
      reads this
    {
      GraphShaped(world, dst, nodes, edges)
    }

    ghost predicate Recorded()
      reads this
    {
      traced == visits.Keys && AllEntered(world, edges, visits)
    }

    ghost function Now(): Record
      reads this
    {
      Record(edges, traced, visits)
    }

    /** A node that may be linked to: it leads to the destination and is near enough. */
    ghost predicate Anchored(n: Node)
      reads this
    {
      Leads(edges, n, dst) && Near(world, n.addr, dst.addr)
    }

    /** `_inslice_callback` with a previous node. */
    method AddToSlice(n: Node, prev: Node)
      requires Shaped() && Anchored(prev) && Near(world, n.addr, dst.addr)
      modifies this`nodes, this`edges
      ensures Shaped() && Anchored(n)
      ensures nodes == old(nodes) + {n, prev} && edges == old(edges) + {(n, prev)}
    {
      GraphGrows(world, dst, nodes, edges, n, prev);
      nodes, edges := nodes + {n, prev}, edges + {(n, prev)};
    }

    /** Adds statements of one block, each linked to the one before it. */
    method AddChain(addr: Addr, stmts: seq<nat>, prev: Node) returns (last: Node)
      requires Shaped() && Anchored(prev) && Near(world, addr, dst.addr)
      modifies this`nodes, this`edges
      ensures Shaped() && Anchored(last) && last == LastOf(addr, stmts, prev)
      ensures edges == old(edges) + Chain(addr, stmts, prev)
    {
      last := prev;
      for i := 0 to |stmts|
        invariant Shaped() && Anchored(last) && last == LastOf(addr, stmts[..i], prev)
        invariant edges == old(edges) + Chain(addr, stmts[..i], prev)
      {
        assert stmts[..i + 1][..i] == stmts[..i];
        AddToSlice(Node(addr, Some(stmts[i])), last);
        last := Node(addr, Some(stmts[i]));
      }
      assert stmts[..|stmts|] == stmts;
    }

    /** Runs a slicer on a block. Never called without targets, on which SimSlicer raises. */
    method RunSlicer(addr: Addr, targets: Targets, prev: Node) returns (sliced: Sliced, last: Node)
      requires !NoTargets(targets)
      requires Shaped() && Anchored(prev) && Near(world, addr, dst.addr)
      modifies this`nodes, this`edges
      ensures Shaped() && Anchored(last) && sliced == world.slicer(addr, targets)
      ensures last == LastOf(addr, sliced.kept, prev)
      ensures edges == old(edges) + Chain(addr, sliced.kept, prev)
    {
      sliced := world.slicer(addr, targets);
      last := AddChain(addr, sliced.kept, prev);
    }

    /** A block of which no statement is kept is in the slice by its first one. */
    method SliceStatements(addr: Addr, targets: Targets, prev: Node) returns (sliced: Sliced, last: Node)
      requires !NoTargets(targets)
      requires Shaped() && Anchored(prev) && Near(world, addr, dst.addr)
      modifies this`nodes, this`edges
      ensures Shaped() && Anchored(last) && sliced == world.slicer(addr, targets)
      ensures last == LastOf(addr, if sliced.kept == [] then [0] else sliced.kept, prev)
      ensures edges == old(edges) + Chain(addr, if sliced.kept == [] then [0] else sliced.kept, prev)
    {
      sliced, last := RunSlicer(addr, targets, prev);
      if sliced.kept == [] {
        last := AddChain(addr, [0], last);
      }
    }

    /** One block on the way back, with something left to look for. */
    method SliceBlock(run: Addr, b: Block, regs: set<nat>, cells: set<int>, prev: Node, exit: Option<nat>)
      returns (sliced: Sliced, last: Node)
      requires regs != {} || cells != {}
      requires Shaped() && Anchored(prev) && Near(world, run, dst.addr)
      modifies this`nodes, this`edges
      ensures Shaped() && Anchored(last) && edges == old(edges) + BlockEdges(world, run, b, regs, cells, prev, exit)
      ensures sliced == world.slicer(run, Targets(TempsOf(world, b, exit), regs, cells))
      ensures last == VisitOf(world, 0, run, b, regs, cells, exit).prev
    {
      var temps;
      AddToSlice(Node(run, None), prev);
      temps, last := AddControl(run, b, Node(run, None), exit);
      sliced, last := SliceStatements(run, Targets(temps, regs, cells), last);
    }

    /** What decides where the block goes, when control dependence is asked for. */
    method AddControl(run: Addr, b: Block, prev: Node, exit: Option<nat>) returns (temps: set<nat>, last: Node)
      requires Shaped() && Anchored(prev) && Near(world, run, dst.addr)
      modifies this`nodes, this`edges
      ensures Shaped() && Anchored(last) && temps == TempsOf(world, b, exit)
      ensures last == LastOf(run, ExitsOf(world, b), prev)
      ensures edges == old(edges) + Chain(run, ExitsOf(world, b), prev)
    {
      temps, last := {}, prev;
      if !world.controlDependence { return; }
      if exit.None? && b.next.Some? { temps := {b.next.value}; }
      var guards;
      guards, last := AddExits(run, b.exits, last);
      temps := temps + guards;
    }

    /** Conditional exits are always in the slice, and the temps that guard them are looked for. */
    method AddExits(run: Addr, exits: seq<Exit>, prev: Node) returns (guards: set<nat>, last: Node)
      requires Shaped() && Anchored(prev) && Near(world, run, dst.addr)
      modifies this`nodes, this`edges
      ensures Shaped() && Anchored(last) && guards == Guards(exits) && last == LastOf(run, ExitStmts(exits), prev)
      ensures edges == old(edges) + Chain(run, ExitStmts(exits), prev)
    {
      guards, last := {}, prev;
      for i := 0 to |exits|
        invariant Shaped() && Anchored(last) && guards == Guards(exits[..i])
        invariant last == LastOf(run, ExitStmts(exits[..i]), prev)
        invariant edges == old(edges) + Chain(run, ExitStmts(exits[..i]), prev)
      {
        OneMoreExit(exits, i);
        if exits[i].guard.Some? { guards := guards + {exits[i].guard.value}; }
        AddToSlice(Node(run, Some(exits[i].stmt)), last);
        last := Node(run, Some(exits[i].stmt));
      }
      assert exits[..|exits|] == exits;
    }

    /** A block is sliced; the first time, it is recorded as traced, together with what it hands on. */
    method EnterBlock(level: int, run: Addr, regs: set<nat>, cells: set<int>, prev: Node, exit: Option<nat>)
      returns (first: bool, left: set<nat>, leftCells: set<int>, last: Node)
      requires level >= 0 && world.block(run).Some? && (regs != {} || cells != {})
      requires Shaped() && Recorded() && Anchored(prev) && Near(world, run, dst.addr)
      modifies this
      ensures Shaped() && Recorded() && Anchored(last) && first == (run !in old(traced))
      ensures edges == old(edges) + BlockEdges(world, run, world.block(run).value, regs, cells, prev, exit)
      ensures Visit(level, left, leftCells, last)
              == VisitOf(world, level, run, world.block(run).value, regs, cells, exit)
      ensures OnlyBlocksAdded(world, old(edges), edges)
      ensures run in traced && traced == if first then old(traced) + {run} else old(traced)
      ensures visits == if first then old(visits)[run := Visit(level, left, leftCells, last)] else old(visits)
    {
      var sliced;
      sliced, last := SliceBlock(run, world.block(run).value, regs, cells, prev, exit);
      left, leftCells := sliced.regs - world.ignoredPointers, sliced.cells;
      BlockAdded(world, old(edges), run, world.block(run).value, regs, cells, prev, exit);
      AllEnteredMore(world, old(edges), edges, visits);
      first := run !in traced;
      if first {
        ghost var visit := Visit(level, left, leftCells, last);
        AllEnteredAlso(world, edges, visits, run, visit, regs, cells, prev, exit);
        traced, visits := traced + {run}, visits[run := visit];
      }
    }

    /** The recursion has a bound on its depth, and is entered only with something left to look for. */
    method BackwardSliceRecursive(level: int, run: Addr, regs: set<nat>, cells: set<int>, prev: Node,
                                  exit: Option<nat>, ghost k: nat)
      requires regs != {} || cells != {}
      requires Shaped() && Recorded() && Anchored(prev)
      requires Behind(world, run, dst.addr, k) && k + level == world.maxLevel
      modifies this
      ensures Shaped() && Recorded() && Extends(world, old(Now()), Now())
      ensures level > 0 && world.block(run).Some? ==>
                && run in traced && BlockEdges(world, run, world.block(run).value, regs, cells, prev, exit) <= edges
                && (run !in old(traced) ==>
                      visits[run] == VisitOf(world, level - 1, run, world.block(run).value, regs, cells, exit))
      ensures level <= 0 || world.block(run).None? ==> edges == old(edges) && traced == old(traced)
      decreases if level > 0 then level else 0, 0
    {
      if level <= 0 || world.block(run).None? { return; }
      BehindMore(world, run, dst.addr, k, world.maxLevel - 1);
      var first, left, leftCells, last := EnterBlock(level - 1, run, regs, cells, prev, exit);
      if !first { return; }
      ghost var entered := Now();
      FollowPredecessors(level - 1, run, left, leftCells, last, k);
      ExtendsByBlock(world, old(Now()), entered.edges, run, Visit(level - 1, left, leftCells, last), Now());
    }

    method FollowPredecessors(level: int, run: Addr, regs: set<nat>, cells: set<int>, prev: Node, ghost k: nat)
      requires Shaped() && Recorded() && Anchored(prev)
      requires Behind(world, run, dst.addr, k) && k + 1 + level == world.maxLevel
      modifies this
      ensures Shaped() && Recorded() && Extends(world, old(Now()), Now())
      ensures Complete(world, edges, traced, run, Visit(level, regs, cells, prev))
      ensures regs == {} && cells == {} ==> edges == old(edges)
      decreases if level > 0 then level else 0, 1
    {
      if regs == {} && cells == {} { return; }
      var inEdges := world.inEdges(run);
      ghost var visit := Visit(level, regs, cells, prev);
      var n := if |inEdges| > world.maxPredecessors then world.maxPredecessors else |inEdges|;
      for i := 0 to n
        invariant Shaped() && Recorded() && Anchored(prev) && Extends(world, old(Now()), Now())
        invariant FirstDealtWith(world, edges, traced, run, visit, i)
      {
        var e := inEdges[i];
        ghost var before := Now();
        if !(world.stopAtCalls && e.callOrReturn) && !world.hooked(e.pred) {
          PredecessorNear(world, run, dst.addr, i, k);
          BackwardSliceRecursive(level, e.pred, regs, cells, prev, e.exit, k + 1);
          LeadsMore(before.edges, edges, prev, dst);
          ExtendsTransitive(world, old(Now()), before, Now());
        }
        OneMoreDealtWith(world, before, Now(), run, visit, i);
      }
    }

    /** Slicing from the temps or registers that the destination uses; nothing is sliced when it uses none. */
    method BackwardSlice(temps: set<nat>, regs: set<nat>)
      requires Shaped() && Recorded() && nodes == {} && edges == {} && traced == {}
      modifies this
      ensures Shaped() && Recorded()
      ensures if temps == {} && regs == {} then edges == {}
              else
                var sliced := world.slicer(dst.addr, Targets(temps, regs, {}));
                var left := Visit(world.maxLevel - 1, sliced.regs - world.ignoredPointers - world.ignored, sliced.cells,
                                  LastOf(dst.addr, sliced.kept, dst));
                var own := Chain(dst.addr, sliced.kept, dst);
                && own <= edges && OnlyBlocksAdded(world, own, edges) && Complete(world, edges, traced, dst.addr, left)
      ensures forall run :: run in traced ==> Complete(world, edges, traced, run, visits[run])
    {
      if temps == {} && regs == {} { return; }
      LeadsItself(edges, dst);
      var sliced, last := RunSlicer(dst.addr, Targets(temps, regs, {}), dst);
      FollowPredecessors(world.maxLevel - 1, dst.addr, sliced.regs - world.ignoredPointers - world.ignored,
                         sliced.cells, last, 0);
    }
  }
}

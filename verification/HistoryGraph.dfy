/** StateHierarchy (angr/state_hierarchy.py): the directed acyclic graph of state
    histories, its contraction, and the search for the states worth merging. */
module HistoryGraph {
  import opened Wrappers

  /** A reference to a history; only identity matters. */
  type Node = nat

  datatype Graph = Graph(nodes: set<Node>, edges: set<(Node, Node)>)
  {
    ghost predicate Valid() { forall e :: e in edges ==> e.0 in nodes && e.1 in nodes }

    function Predecessors(h: Node): set<Node> { set e | e in edges && e.1 == h :: e.0 }

    function Successors(h: Node): set<Node> { set e | e in edges && e.0 == h :: e.1 }

    /** `_remove_history`: connect every predecessor to every successor, then drop the node. A node
        that is not in the graph is ignored. */
    function Contract(h: Node): Graph
    {
      if h !in nodes then this
      else Graph(nodes - {h},
                 (set e | e in edges && e.0 != h && e.1 != h) +
                 (set p, s | p in Predecessors(h) && s in Successors(h) && p != h && s != h :: (p, s)))
    }
  }

  // --------------------------------------------------------------------------
  // Ancestry

  ghost predicate IsPath(g: Graph, p: seq<Node>)
  {
    |p| > 0 && forall i :: 0 <= i < |p| - 1 ==> (p[i], p[i + 1]) in g.edges
  }

  ghost predicate Connects(g: Graph, p: seq<Node>, a: Node, b: Node)
  {
    IsPath(g, p) && |p| > 1 && p[0] == a && p[|p| - 1] == b
  }

  /** `a` is a proper ancestor of `b`. */
  ghost predicate Ancestor(g: Graph, a: Node, b: Node) { exists p :: Connects(g, p, a, b) }

  ghost predicate Acyclic(g: Graph) { forall n :: !Ancestor(g, n, n) }

  /** Every history has at most one parent. */
  ghost predicate Forest(g: Graph)
  {
    forall a, b, n :: (a, n) in g.edges && (b, n) in g.edges ==> a == b
  }

  function Without(p: seq<Node>, h: Node): seq<Node>
  {
    if p == [] then [] else (if p[0] == h then [] else [p[0]]) + Without(p[1..], h)
  }

  lemma {:induction false} PathCons(g: Graph, x: Node, p: seq<Node>)
    requires IsPath(g, p) && (x, p[0]) in g.edges
    ensures IsPath(g, [x] + p)
  {
    var q := [x] + p;
    forall i | 0 <= i < |q| - 1 ensures (q[i], q[i + 1]) in g.edges {
      if i > 0 { assert q[i] == p[i - 1] && q[i + 1] == p[i]; }
    }
  }

  lemma {:induction false} PathJoin(g: Graph, p: seq<Node>, q: seq<Node>)
    requires IsPath(g, p) && IsPath(g, q) && p[|p| - 1] == q[0]
    ensures IsPath(g, p + q[1..]) && (p + q[1..])[|p + q[1..]| - 1] == q[|q| - 1]
  {
    var r := p + q[1..];
    forall i | 0 <= i < |r| - 1 ensures (r[i], r[i + 1]) in g.edges {
      if i >= |p| - 1 { assert r[i + 1] == q[i + 1 - (|p| - 1)]; assert r[i] == q[i - (|p| - 1)]; }
    }
  }

  lemma {:induction false} AncestorTransitive(g: Graph, a: Node, b: Node, c: Node)
    requires Ancestor(g, a, b) && Ancestor(g, b, c)
    ensures Ancestor(g, a, c)
  {
    var p :| Connects(g, p, a, b);
    var q :| Connects(g, q, b, c);
    PathJoin(g, p, q);
    assert Connects(g, p + q[1..], a, c);
  }

  lemma {:induction false} EdgeIsAncestor(g: Graph, a: Node, b: Node)
    requires (a, b) in g.edges
    ensures Ancestor(g, a, b)
  {
    assert Connects(g, [a, b], a, b);
  }

  // --------------------------------------------------------------------------
  // Contraction keeps ancestry

  /** Dropping the removed node from a path leaves a path; `x` stands before a path that starts with it. */
  lemma {:induction false} PathContracts(g: Graph, h: Node, p: seq<Node>)
    requires h in g.nodes && IsPath(g, p) && p[0] != h && p[|p| - 1] != h
    ensures var q := Without(p, h); IsPath(g.Contract(h), q) && q[0] == p[0] && q[|q| - 1] == p[|p| - 1]
    ensures |p| > 1 ==> |Without(p, h)| > 1
    decreases |p|, 1
  {
    if |p| > 1 {
      assert (p[0], p[1]) in g.edges;
      if p[1] != h {
        PathContracts(g, h, p[1..]);
        PathCons(g.Contract(h), p[0], Without(p[1..], h));
      } else {
        PathContractsAfter(g, h, p[0], p[1..]);
      }
    }
  }

  lemma {:induction false} PathContractsAfter(g: Graph, h: Node, x: Node, p: seq<Node>)
    requires h in g.nodes && IsPath(g, p) && p[0] == h && p[|p| - 1] != h && x != h && (x, h) in g.edges
    ensures var q := [x] + Without(p, h); IsPath(g.Contract(h), q) && |q| > 1 && q[|q| - 1] == p[|p| - 1]
    decreases |p|, 0
  {
    assert (p[0], p[1]) in g.edges;
    if p[1] == h {
      PathContractsAfter(g, h, x, p[1..]);
      assert Without(p, h) == Without(p[1..], h);
    } else {
      PathContracts(g, h, p[1..]);
      assert x in g.Predecessors(h) && p[1] in g.Successors(h);
      PathCons(g.Contract(h), x, Without(p[1..], h));
    }
  }

  /** Every edge the contraction adds was a detour through the removed node. */
  lemma {:induction false} PathExpands(g: Graph, h: Node, p: seq<Node>) returns (q: seq<Node>)
    requires h in g.nodes && IsPath(g.Contract(h), p)
    ensures IsPath(g, q) && q[0] == p[0] && q[|q| - 1] == p[|p| - 1] && |q| >= |p|
  {
    if |p| == 1 { return p; }
    q := PathExpands(g, h, p[1..]);
    assert (p[0], p[1]) in g.Contract(h).edges;
    if (p[0], p[1]) in g.edges {
      PathCons(g, p[0], q);
      q := [p[0]] + q;
    } else {
      PathCons(g, h, q);
      PathCons(g, p[0], [h] + q);
      q := [p[0]] + ([h] + q);
    }
  }

  /** Ancestry among the other nodes is exactly what it was. */
  lemma {:induction false} ContractKeepsAncestry(g: Graph, h: Node, a: Node, b: Node)
    requires a != h && b != h
    ensures Ancestor(g, a, b) <==> Ancestor(g.Contract(h), a, b)
  {
    if h in g.nodes {
      if p :| Connects(g, p, a, b) {
        PathContracts(g, h, p);
        assert Connects(g.Contract(h), Without(p, h), a, b);
      }
      if p :| Connects(g.Contract(h), p, a, b) {
        var q := PathExpands(g, h, p);
        assert Connects(g, q, a, b);
      }
    }
  }

  lemma {:induction false} ContractKeepsValid(g: Graph, h: Node)
    requires g.Valid()
    ensures g.Contract(h).Valid()
  {
  }

  lemma {:induction false} AncestorsAreNodes(g: Graph, a: Node, b: Node)
    requires g.Valid() && Ancestor(g, a, b)
    ensures a in g.nodes && b in g.nodes
  {
    var p :| Connects(g, p, a, b);
    assert (p[0], p[1]) in g.edges && (p[|p| - 2], p[|p| - 2 + 1]) in g.edges;
  }

  lemma {:induction false} ContractKeepsAcyclic(g: Graph, h: Node)
    requires g.Valid() && Acyclic(g)
    ensures Acyclic(g.Contract(h))
  {
    forall n ensures !Ancestor(g.Contract(h), n, n) {
      if n != h { ContractKeepsAncestry(g, h, n, n); }
      else if Ancestor(g.Contract(h), h, h) { ContractKeepsValid(g, h); AncestorsAreNodes(g.Contract(h), h, h); }
    }
  }

  lemma {:induction false} ContractKeepsForest(g: Graph, h: Node)
    requires Forest(g)
    ensures Forest(g.Contract(h))
  {
  }

  function ContractAll(g: Graph, hs: seq<Node>): Graph
    decreases |hs|
  {
    if hs == [] then g else ContractAll(g.Contract(hs[0]), hs[1..])
  }

  /** Contracting any sequence of nodes keeps the graph acyclic and ancestry among the survivors. */
  lemma {:induction false} ContractAllKeepsAncestry(g: Graph, hs: seq<Node>, a: Node, b: Node)
    requires g.Valid() && Acyclic(g) && a !in hs && b !in hs
    ensures ContractAll(g, hs).Valid() && Acyclic(ContractAll(g, hs))
    ensures Ancestor(g, a, b) <==> Ancestor(ContractAll(g, hs), a, b)
    decreases |hs|
  {
    if hs != [] {
      ContractKeepsValid(g, hs[0]);
      ContractKeepsAcyclic(g, hs[0]);
      ContractKeepsAncestry(g, hs[0], a, b);
      ContractAllKeepsAncestry(g.Contract(hs[0]), hs[1..], a, b);
    }
  }

  /** `add_history` of a new history below `parent`. */
  function Extend(g: Graph, h: Node, parent: Node): Graph
  {
    Graph(g.nodes + {h, parent}, g.edges + {(parent, h)})
  }

  /** A history nothing descends from ends every path it is on. */
  lemma {:induction false} PathAvoidsLeaf(g: Graph, h: Node, parent: Node, p: seq<Node>)
    requires g.Valid() && h !in g.nodes && parent != h && IsPath(Extend(g, h, parent), p)
    ensures |p| == 1 || (p[0] != h && IsPath(g, p[..|p| - 1]))
  {
    var g' := Extend(g, h, parent);
    assert forall n :: (h, n) !in g'.edges;
    forall i | 0 <= i < |p| - 1 ensures p[i] != h { assert (p[i], p[i + 1]) in g'.edges; }
    if |p| > 1 {
      var q := p[..|p| - 1];
      forall i | 0 <= i < |q| - 1 ensures (q[i], q[i + 1]) in g.edges { assert (p[i], p[i + 1]) in g'.edges; }
    }
  }

  lemma {:induction false} ExtendAddsNoCycle(g: Graph, h: Node, parent: Node, n: Node)
    requires g.Valid() && h !in g.nodes && parent != h && Ancestor(Extend(g, h, parent), n, n)
    ensures Ancestor(g, n, n)
  {
    var g' := Extend(g, h, parent);
    var p :| Connects(g', p, n, n);
    PathAvoidsLeaf(g, h, parent, p);
    assert (p[|p| - 2], p[|p| - 2 + 1]) in g'.edges;
    forall i | 0 <= i < |p| - 1 ensures (p[i], p[i + 1]) in g.edges { assert (p[i], p[i + 1]) in g'.edges; }
    assert Connects(g, p, n, n);
  }

  lemma {:induction false} ExtendKeepsAcyclic(g: Graph, h: Node, parent: Node)
    requires g.Valid() && Acyclic(g) && h !in g.nodes && parent != h
    ensures Extend(g, h, parent).Valid() && Acyclic(Extend(g, h, parent))
  {
    forall n ensures !Ancestor(Extend(g, h, parent), n, n) {
      if Ancestor(Extend(g, h, parent), n, n) { ExtendAddsNoCycle(g, h, parent, n); }
    }
  }

  // --------------------------------------------------------------------------
  // Lineage

  ghost function Ancestors(g: Graph, h: Node): set<Node> { set a | a in g.nodes && Ancestor(g, a, h) }

  lemma {:induction false} ParentHasFewerAncestors(g: Graph, p: Node, h: Node)
    requires g.Valid() && Acyclic(g) && (p, h) in g.edges
    ensures Ancestors(g, p) < Ancestors(g, h) && |Ancestors(g, p)| < |Ancestors(g, h)|
  {
    EdgeIsAncestor(g, p, h);
    forall a | a in Ancestors(g, p) ensures a in Ancestors(g, h) { AncestorTransitive(g, a, p, h); }
    assert p in Ancestors(g, h) && p !in Ancestors(g, p);
    SubsetIsSmaller(Ancestors(g, p), Ancestors(g, h));
  }

  lemma {:induction false} SubsetIsSmaller(a: set<Node>, b: set<Node>)
    requires a < b
    ensures |a| < |b|
  {
    var rest := b - a;
    assert b == a + rest && a !! rest;
    assert |b| == |a| + |rest|;
    assert |rest| == 0 ==> b <= a;
  }

  /** The histories leading up to `h`, oldest first. */
  ghost function LineageOf(g: Graph, h: Node): seq<Node>
    requires g.Valid() && Acyclic(g)
    decreases |Ancestors(g, h)|
  {
    if p :| (p, h) in g.edges then
      ParentHasFewerAncestors(g, p, h);
      LineageOf(g, p) + [p]
    else []
  }

  lemma {:induction false} WithoutAppend(p: seq<Node>, q: seq<Node>, h: Node)
    ensures Without(p + q, h) == Without(p, h) + Without(q, h)
  {
    if p == [] {
      assert p + q == q;
    } else {
      assert (p + q)[1..] == p[1..] + q;
      WithoutAppend(p[1..], q, h);
    }
  }

  lemma {:induction false} LineageUnfolds(g: Graph, p: Node, h: Node)
    requires g.Valid() && Acyclic(g) && Forest(g) && (p, h) in g.edges
    ensures LineageOf(g, h) == LineageOf(g, p) + [p]
  {
  }

  lemma {:induction false} NoParentNoLineage(g: Graph, h: Node)
    requires g.Valid() && Acyclic(g) && forall p :: (p, h) !in g.edges
    ensures LineageOf(g, h) == []
  {
  }

  lemma {:induction false} LineageIsInGraph(g: Graph, x: Node, h: Node)
    requires g.Valid() && Acyclic(g) && h !in g.nodes
    ensures Without(LineageOf(g, x), h) == LineageOf(g, x)
    decreases |Ancestors(g, x)|
  {
    if p :| (p, x) in g.edges && LineageOf(g, x) == LineageOf(g, p) + [p] {
      ParentHasFewerAncestors(g, p, x);
      LineageIsInGraph(g, p, h);
      WithoutAppend(LineageOf(g, p), [p], h);
      assert Without([p], h) == [p];
    }
  }

  /** In a forest, contraction filters the removed history out of every lineage. */
  lemma {:induction false} ContractFiltersLineage(g: Graph, h: Node, x: Node)
    requires g.Valid() && Acyclic(g) && Forest(g) && x != h
    ensures g.Contract(h).Valid() && Acyclic(g.Contract(h)) && Forest(g.Contract(h))
    ensures LineageOf(g.Contract(h), x) == Without(LineageOf(g, x), h)
  {
    if h in g.nodes { ContractFilters(g, h, x); } else { LineageIsInGraph(g, x, h); }
  }

  lemma {:induction false} ContractFilters(g: Graph, h: Node, x: Node)
    requires g.Valid() && Acyclic(g) && Forest(g) && h in g.nodes && x != h
    ensures g.Contract(h).Valid() && Acyclic(g.Contract(h)) && Forest(g.Contract(h))
    ensures LineageOf(g.Contract(h), x) == Without(LineageOf(g, x), h)
    decreases |Ancestors(g, x)|
  {
    var g' := g.Contract(h);
    ContractKeepsValid(g, h);
    ContractKeepsAcyclic(g, h);
    ContractKeepsForest(g, h);
    if p :| (p, x) in g.edges {
      LineageUnfolds(g, p, x);
      WithoutAppend(LineageOf(g, p), [p], h);
      ParentHasFewerAncestors(g, p, x);
      if p != h {
        LineageUnfolds(g', p, x);
        ContractFilters(g, h, p);
        assert Without([p], h) == [p];
      } else {
        ContractFiltersChild(g, h, x);
      }
    } else {
      NoParentNoLineage(g, x);
      assert forall q :: (q, x) !in g'.edges;
      NoParentNoLineage(g', x);
    }
  }

  lemma {:induction false} ContractFiltersChild(g: Graph, h: Node, x: Node)
    requires g.Valid() && Acyclic(g) && Forest(g) && h in g.nodes && (h, x) in g.edges && x != h
    requires g.Contract(h).Valid() && Acyclic(g.Contract(h)) && Forest(g.Contract(h))
    ensures LineageOf(g.Contract(h), x) == Without(LineageOf(g, x), h)
    decreases |Ancestors(g, x)|, 0
  {
    var g' := g.Contract(h);
    LineageUnfolds(g, h, x);
    WithoutAppend(LineageOf(g, h), [h], h);
    ParentHasFewerAncestors(g, h, x);
    assert Without([h], h) == [];
    if q :| (q, h) in g.edges {
      EdgeIsAncestor(g, q, h);
      ParentHasFewerAncestors(g, q, h);
      assert q in g.Predecessors(h) && x in g.Successors(h) && q != h;
      LineageUnfolds(g', q, x);
      LineageUnfolds(g, q, h);
      WithoutAppend(LineageOf(g, q), [q], h);
      assert Without([q], h) == [q];
      ContractFilters(g, h, q);
    } else {
      NoParentNoLineage(g, h);
      assert forall q :: (q, x) !in g'.edges;
      NoParentNoLineage(g', x);
    }
  }

  function WithoutAll(p: seq<Node>, hs: seq<Node>): seq<Node>
    decreases |hs|
  {
    if hs == [] then p else WithoutAll(Without(p, hs[0]), hs[1..])
  }

  lemma {:induction false} ContractAllFiltersLineage(g: Graph, hs: seq<Node>, x: Node)
    requires g.Valid() && Acyclic(g) && Forest(g) && x !in hs
    ensures ContractAll(g, hs).Valid() && Acyclic(ContractAll(g, hs))
    ensures LineageOf(ContractAll(g, hs), x) == WithoutAll(LineageOf(g, x), hs)
    decreases |hs|
  {
    if hs != [] {
      ContractFiltersLineage(g, hs[0], x);
      ContractAllFiltersLineage(g.Contract(hs[0]), hs[1..], x);
    }
  }

  // --------------------------------------------------------------------------
  // States, and which of them to merge first

  /** A state, or the result of merging some; either has a history of its own. */
  datatype State = Fresh(id: nat, history: Node) | Merged(parts: seq<State>, history: Node)

  function Histories(states: seq<State>): set<Node> { set s | s in states :: s.history }

  function Within(states: seq<State>, nodes: set<Node>): seq<State>
  {
    if states == [] then []
    else (if states[0].history in nodes then [states[0]] else []) + Within(states[1..], nodes)
  }

  function Outside(states: seq<State>, nodes: set<Node>): seq<State>
  {
    if states == [] then []
    else (if states[0].history in nodes then [] else [states[0]]) + Outside(states[1..], nodes)
  }

  /** What the graph library answers: `all_successors`, and the nodes in depth-first postorder. */
  datatype Library = Library(successors: (Graph, Node) -> set<Node>, postorder: Graph -> seq<Node>)

  ghost predicate IsPostorder(g: Graph, order: seq<Node>)
  {
    && (forall n :: n in g.nodes ==> n in order)
    && (forall i, s :: 0 <= i < |order| && (order[i], s) in g.edges ==> s in order[..i])
  }

  ghost predicate Lawful(lib: Library)
  {
    forall g: Graph :: g.Valid() && Acyclic(g) ==>
      && IsPostorder(g, lib.postorder(g))
      && forall n, m :: m in lib.successors(g, n) <==> Ancestor(g, n, m)
  }

  // --------------------------------------------------------------------------
  // There is such a library

  ghost function Descendants(g: Graph, n: Node): set<Node> { set m | m in g.nodes && Ancestor(g, n, m) }

  lemma {:induction false} DescendantInNodes(g: Graph, n: Node, m: Node)
    requires g.Valid() && Ancestor(g, n, m)
    ensures m in g.nodes
  {
    var p :| Connects(g, p, n, m);
    assert (p[|p| - 2], p[|p| - 1]) in g.edges;
  }

  lemma {:induction false} FewerDescendants(g: Graph, n: Node, s: Node)
    requires g.Valid() && Acyclic(g) && (n, s) in g.edges
    ensures Descendants(g, s) < Descendants(g, n)
  {
    EdgeIsAncestor(g, n, s);
    forall m | m in Descendants(g, s) ensures m in Descendants(g, n) { AncestorTransitive(g, n, s, m); }
    assert s in Descendants(g, n) && s !in Descendants(g, s);
  }

  /** Below any node that is still to come there is one whose successors have all come. */
  lemma {:induction false} ReadyNode(g: Graph, order: seq<Node>, n: Node) returns (ready: Node)
    requires g.Valid() && Acyclic(g) && n in g.nodes && n !in order
    ensures ready in g.nodes && ready !in order && forall s :: (ready, s) in g.edges ==> s in order
    decreases Descendants(g, n)
  {
    if exists s :: (n, s) in g.edges && s !in order {
      var s :| (n, s) in g.edges && s !in order;
      FewerDescendants(g, n, s);
      ready := ReadyNode(g, order, s);
    } else {
      ready := n;
    }
  }

  lemma {:induction false} OrderFrom(g: Graph, order: seq<Node>) returns (whole: seq<Node>)
    requires g.Valid() && Acyclic(g)
    requires forall i, s :: 0 <= i < |order| && (order[i], s) in g.edges ==> s in order[..i]
    ensures IsPostorder(g, whole)
    decreases g.nodes - set n | n in order
  {
    whole := order;
    if n :| n in g.nodes && n !in order {
      var ready := ReadyNode(g, order, n);
      var more := order + [ready];
      forall i, s | 0 <= i < |more| && (more[i], s) in g.edges ensures s in more[..i] {
        assert i < |order| ==> more[..i] == order[..i];
        assert i == |order| ==> more[..i] == order;
      }
      assert ready in more && ready in g.nodes - set n | n in order;
      whole := OrderFrom(g, more);
    }
  }

  ghost function PostorderOf(g: Graph): (order: seq<Node>)
    requires g.Valid() && Acyclic(g)
    ensures IsPostorder(g, order)
  {
    PostorderExists(g);
    var order :| IsPostorder(g, order);
    order
  }

  lemma {:induction false} PostorderExists(g: Graph)
    requires g.Valid() && Acyclic(g)
    ensures exists order :: IsPostorder(g, order)
  {
    var order := OrderFrom(g, []);
  }

  lemma {:induction false} LawfulExists() returns (lib: Library)
    ensures Lawful(lib)
  {
    lib := Library((g: Graph, n: Node) => Descendants(g, n),
                   (g: Graph) => if g.Valid() && Acyclic(g) then PostorderOf(g) else []);
    forall g: Graph, n, m | g.Valid() && Acyclic(g) ensures m in lib.successors(g, n) <==> Ancestor(g, n, m) {
      if Ancestor(g, n, m) { DescendantInNodes(g, n, m); }
    }
  }

  /** The histories of the states strictly below a node. */
  function HistoriesBelow(lib: Library, g: Graph, states: seq<State>, n: Node): set<Node>
  {
    Histories(states) * lib.successors(g, n)
  }

  lemma {:induction false} DescendantIsEarlier(g: Graph, order: seq<Node>, p: seq<Node>, i: nat)
    requires IsPostorder(g, order) && IsPath(g, p) && |p| > 1 && i < |order| && order[i] == p[0]
    ensures p[|p| - 1] in order[..i]
    decreases |p|
  {
    assert (order[i], p[1]) in g.edges;
    var k :| 0 <= k < i && order[k] == p[1];
    if |p| > 2 {
      DescendantIsEarlier(g, order, p[1..], k);
      assert order[..k] <= order[..i];
    }
  }

  lemma {:induction false} WithinOutsidePartition(states: seq<State>, nodes: set<Node>)
    ensures multiset(Within(states, nodes)) + multiset(Outside(states, nodes)) == multiset(states)
    ensures forall s :: s in Within(states, nodes) <==> s in states && s.history in nodes
  {
    if states != [] {
      WithinOutsidePartition(states[1..], nodes);
      assert states == [states[0]] + states[1..];
    }
  }

  lemma {:induction false} HistoriesAreFewer(states: seq<State>)
    ensures |Histories(states)| <= |states|
  {
    if states == [] {
      assert Histories(states) == {};
    } else {
      HistoriesAreFewer(states[1..]);
      assert Histories(states) == {states[0].history} + Histories(states[1..]) by {
        assert states == [states[0]] + states[1..];
      }
    }
  }

  lemma {:induction false} TwoHistoriesTwoStates(states: seq<State>, nodes: set<Node>)
    requires |Histories(states) * nodes| > 1
    ensures |Within(states, nodes)| > 1
  {
    WithinOutsidePartition(states, nodes);
    HistoriesAreFewer(Within(states, nodes));
    assert Histories(states) * nodes == Histories(Within(states, nodes));
  }

  // --------------------------------------------------------------------------
  // The class

  function Reversed(p: seq<Node>): seq<Node> { if p == [] then [] else Reversed(p[1..]) + [p[0]] }

  lemma {:induction false} ReversedAppend(p: seq<Node>, x: Node)
    ensures Reversed(p + [x]) == [x] + Reversed(p)
  {
    if p != [] {
      assert (p + [x])[1..] == p[1..] + [x];
      ReversedAppend(p[1..], x);
    }
  }

  /** Along a lineage, once a history is unreachable all later ones are; `k` is the first such. */
  ghost predicate FirstUnreachable(lineage: seq<Node>, reachable: Node -> bool, k: int)
  {
    0 <= k < |lineage| && forall i :: 0 <= i < |lineage| ==> (reachable(lineage[i]) <==> i < k)
  }

  class StateHierarchy {
    var graph: Graph
    var leaves: set<Node>
    var twigs: set<Node>

    constructor ()
      ensures graph == Graph({}, {}) && leaves == {} && twigs == {}
    {
      graph, leaves, twigs := Graph({}, {}), {}, {};
    }

    method RemoveHistory(h: Node)
      modifies this
      ensures graph == old(graph).Contract(h)
      ensures leaves == old(leaves) - {h} && twigs == old(twigs) - {h}
    {
      if h in graph.nodes {
        var product := set p, s | p in graph.Predecessors(h) && s in graph.Successors(h) :: (p, s);
        var edges, todo := graph.edges, product;
        while todo != {}
          invariant todo <= product && edges == graph.edges + (product - todo)
        {
          var e :| e in todo;
          edges := edges + {e};
          todo := todo - {e};
        }
        graph := Graph(graph.nodes - {h}, set e | e in edges && e.0 != h && e.1 != h);
        assert graph.edges == old(graph).Contract(h).edges;
      }
      leaves := leaves - {h};
      twigs := twigs - {h};
    }

    method AddHistory(h: Node, parent: Option<Node>)
      modifies this
      ensures graph == if parent.None? then Graph(old(graph).nodes + {h}, old(graph).edges)
                       else Graph(old(graph).nodes + {h, parent.value}, old(graph).edges + {(parent.value, h)})
      ensures leaves == (if parent.None? then old(leaves) else old(leaves) - {parent.value}) + {h}
      ensures twigs == if parent.None? then old(twigs)
                       else if |graph.Successors(parent.value)| == 1 then old(twigs) + {parent.value}
                       else old(twigs) - {parent.value}
    {
      graph := Graph(graph.nodes + {h}, graph.edges);
      if parent.Some? {
        var prev := parent.value;
        graph := Graph(graph.nodes + {prev, h}, graph.edges + {(prev, h)});
        leaves := leaves - {prev};
        if |graph.Successors(prev)| == 1 { twigs := twigs + {prev}; } else { twigs := twigs - {prev}; }
      }
      leaves := leaves + {h};
    }

    /** Contracts every twig, in some order. */
    method Simplify()
      modifies this
      ensures twigs == {} && leaves == old(leaves) - old(twigs)
      ensures exists order :: (forall n :: n in order <==> n in old(twigs)) && graph == ContractAll(old(graph), order)
    {
      var tw := twigs;
      twigs := {};
      ghost var order: seq<Node> := [];
      while tw != {}
        invariant tw <= old(twigs) && twigs == {} && leaves == old(leaves) - (old(twigs) - tw)
        invariant forall n :: n in order <==> n in old(twigs) && n !in tw
        invariant graph == ContractAll(old(graph), order)
      {
        if forall n :: n !in tw { assert false; }
        var h :| h in tw;
        RemoveHistory(h);
        tw := tw - {h};
        ContractAllAppend(old(graph), order, h);
        order := order + [h];
      }
    }

    method Lineage(h: Node) returns (r: Option<seq<Node>>)
      requires graph.Valid() && Acyclic(graph)
      ensures r.None? <==> h !in graph.nodes
      ensures r.Some? ==> IsPath(graph, r.value + [h]) && forall p :: (p, (r.value + [h])[0]) !in graph.edges
      ensures r.Some? && Forest(graph) ==> r.value == LineageOf(graph, h)
    {
      if h !in graph.nodes { return None; }
      var lineage: seq<Node> := [];
      var cur := h;
      while graph.Predecessors(cur) != {}
        invariant IsPath(graph, Reversed(lineage) + [h]) && (Reversed(lineage) + [h])[0] == cur
        invariant Forest(graph) ==> LineageOf(graph, h) == LineageOf(graph, cur) + Reversed(lineage)
        decreases |Ancestors(graph, cur)|
      {
        if forall p :: p !in graph.Predecessors(cur) { assert false; }
        var p :| p in graph.Predecessors(cur);
        ParentHasFewerAncestors(graph, p, cur);
        PathCons(graph, p, Reversed(lineage) + [h]);
        ReversedAppend(lineage, p);
        assert [p] + (Reversed(lineage) + [h]) == Reversed(lineage + [p]) + [h];
        if Forest(graph) {
          LineageUnfolds(graph, p, cur);
          assert (LineageOf(graph, p) + [p]) + Reversed(lineage) == LineageOf(graph, p) + Reversed(lineage + [p]);
        }
        lineage := lineage + [p];
        cur := p;
      }
      assert forall p :: (p, cur) in graph.edges ==> p in graph.Predecessors(cur);
      NoParentNoLineage(graph, cur);
      return Some(Reversed(lineage));
    }

    /** The binary search of `_find_root_unreachable`. It never looks at the oldest history of a longer
        lineage: when that one is unreachable, its child is returned. */
    method FindRootUnreachable(lineage: seq<Node>, h: Node, reachable: Node -> bool) returns (root: Node)
      ensures lineage == [] || reachable(lineage[|lineage| - 1]) ==> root == h
      ensures forall k :: FirstUnreachable(lineage, reachable, k) ==>
                root == lineage[if k == 0 && |lineage| > 1 then 1 else k]
    {
      if |lineage| == 0 || reachable(lineage[|lineage| - 1]) { return h; }
      var good, bad := 0, |lineage| - 1;
      while true
        invariant 0 <= good <= bad < |lineage| && !reachable(lineage[bad])
        invariant good == 0 || (good < bad && reachable(lineage[good]))
        invariant |lineage| > 1 ==> good < bad
        decreases bad - good
      {
        var cur := (bad + good) / 2;
        if cur == good || cur == bad {
          if reachable(lineage[bad]) { bad := bad + 1; }
          return lineage[bad];
        }
        if reachable(lineage[cur]) { good := cur; } else { bad := cur; }
      }
    }

    /** The first node, descendants first, with two of the states' histories strictly below it. */
    method MostMergeable(lib: Library, states: seq<State>)
      returns (merge: seq<State>, ancestor: Option<Node>, rest: seq<State>)
      requires graph.Valid() && Acyclic(graph) && Lawful(lib)
      ensures ancestor.None? ==>
        && merge == [] && rest == states
        && forall n :: n in graph.nodes ==> |HistoriesBelow(lib, graph, states, n)| <= 1
      ensures ancestor.Some? ==>
        && |merge| > 1 && |HistoriesBelow(lib, graph, states, ancestor.value)| > 1
        && merge == Within(states, HistoriesBelow(lib, graph, states, ancestor.value))
        && rest == Outside(states, HistoriesBelow(lib, graph, states, ancestor.value))
        && (forall s :: s in merge <==> s in states && Ancestor(graph, ancestor.value, s.history))
        && (forall m :: Ancestor(graph, ancestor.value, m) ==> |HistoriesBelow(lib, graph, states, m)| <= 1)
      ensures multiset(merge) + multiset(rest) == multiset(states)
    {
      var order := lib.postorder(graph);
      for i := 0 to |order|
        invariant forall k :: 0 <= k < i ==> |HistoriesBelow(lib, graph, states, order[k])| <= 1
      {
        var n := order[i];
        var below := HistoriesBelow(lib, graph, states, n);
        if |below| > 1 {
          merge, rest := Within(states, below), Outside(states, below);
          WithinOutsidePartition(states, below);
          assert Histories(states) * below == below;
          TwoHistoriesTwoStates(states, below);
          forall m | Ancestor(graph, n, m) ensures |HistoriesBelow(lib, graph, states, m)| <= 1 {
            var p :| Connects(graph, p, n, m);
            DescendantIsEarlier(graph, order, p, i);
          }
          return merge, Some(n), rest;
        }
      }
      return [], None, states;
    }
  }

  lemma {:induction false} ContractAllAppend(g: Graph, hs: seq<Node>, h: Node)
    ensures ContractAll(g, hs + [h]) == ContractAll(g, hs).Contract(h)
    decreases |hs|
  {
    if hs == [] {
      assert hs + [h] == [h];
    } else {
      assert (hs + [h])[1..] == hs[1..] + [h];
      ContractAllAppend(g.Contract(hs[0]), hs[1..], h);
    }
  }

  /** Of two unreachable histories the second is returned as the root. */
  method OldestOverlooked() returns (lineage: seq<Node>, root: Node)
    ensures FirstUnreachable(lineage, n => false, 0) && root in lineage && root != lineage[0]
  {
    var hierarchy := new StateHierarchy();
    lineage := [0, 1];
    root := hierarchy.FindRootUnreachable(lineage, 2, n => false);
    assert FirstUnreachable(lineage, n => false, 0);
  }
}

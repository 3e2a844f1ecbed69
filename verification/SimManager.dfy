/** SimulationManager (angr/sim_manager.py): the stash machine. Stepping, moving and
    merging account for every state; one that leaves no trace went to a stash that is
    dropped automatically. */
module SimManager {
  import opened Wrappers
  import opened HistoryGraph

  /** Stash names: those the manager itself uses, and any other. */
  datatype Name = Deadended | Unsat | Unconstrained | Pruned | Interrupted | Drop | Other(name: string)

  type Stashes = map<Name, seq<State>>

  function Stash(stashes: Stashes, name: Name): seq<State> { if name in stashes then stashes[name] else [] }

  /** What stepping a state can come to. */
  datatype Outcome =
    | Stepped(flat: seq<State>, unsat: seq<State>, unconstrained: seq<State>)
    | Unsatisfiable(lazySolves: bool)
    | SolverInterrupt
    | Errored

  /** The answer of `filter`: a stash, if any, and the state it may have replaced. */
  datatype Verdict = Verdict(goto: Option<Name>, state: State)

  /** The functions a caller or an exploration technique supplies. */
  datatype Hooks = Hooks(filter: State -> Verdict, selector: State -> bool, successors: State -> Outcome)

  datatype Request = Request(stash: Name, target: Name, saveUnsat: bool)

  // --------------------------------------------------------------------------
  // Where a state goes in one step

  predicate Diverted(r: Request, v: Verdict) { v.goto.Some? && v.goto.value != r.stash }

  predicate Fails(outcome: Outcome) { outcome.Errored? || (outcome.Unsatisfiable? && !outcome.lazySolves) }

  /** The states a state adds to the list of errors. */
  function ErrorsOf(hooks: Hooks, r: Request, s: State): seq<State>
  {
    var v := hooks.filter(s);
    if !Diverted(r, v) && hooks.selector(v.state) && Fails(hooks.successors(v.state)) then [v.state] else []
  }

  /** The list of stash `t` after `states` have been put in stash `name`. */
  function Add(list: seq<State>, t: Name, name: Name, states: seq<State>): seq<State>
  {
    if t == name then list + states else list
  }

  /** The list of stash `t` after a state has been handled. The filter may divert it, the selector may
      hold it back, else its successors replace it. Unsatisfiable successors are dropped when there are
      others and they are not to be saved; without any successor the state itself is deadended. */
  function Handled(hooks: Hooks, r: Request, s: State, t: Name, list: seq<State>): seq<State>
  {
    var v := hooks.filter(s);
    if Diverted(r, v) then Add(list, t, v.goto.value, [v.state])
    else if !hooks.selector(v.state) then Add(list, t, r.stash, [v.state])
    else Placed(r, v.state, hooks.successors(v.state), t, list)
  }

  function Placed(r: Request, s: State, outcome: Outcome, t: Name, list: seq<State>): seq<State>
  {
    match outcome
    case Errored => list
    case Unsatisfiable(lazySolves) => if lazySolves then Add(list, t, Pruned, [s]) else list
    case SolverInterrupt => Add(list, t, Interrupted, [s])
    case Stepped(flat, unsat, unconstrained) =>
      if flat == [] && unsat == [] && unconstrained == [] then Add(list, t, Deadended, [s])
      else if r.saveUnsat || (flat == [] && unconstrained == []) then
        Add(Add(Add(list, t, r.target, flat), t, Unsat, unsat), t, Unconstrained, unconstrained)
      else
        Add(Add(list, t, r.target, flat), t, Unconstrained, unconstrained)
  }

  function HandledAll(hooks: Hooks, r: Request, states: seq<State>, t: Name): seq<State>
  {
    if states == [] then []
    else Handled(hooks, r, states[|states| - 1], t, HandledAll(hooks, r, states[..|states| - 1], t))
  }

  function ErrorsOfAll(hooks: Hooks, r: Request, states: seq<State>): seq<State>
  {
    if states == [] then []
    else ErrorsOfAll(hooks, r, states[..|states| - 1]) + ErrorsOf(hooks, r, states[|states| - 1])
  }

  /** Handling a state only appends. */
  lemma {:induction false} HandledAppends(hooks: Hooks, r: Request, s: State, t: Name, list: seq<State>)
    ensures list <= Handled(hooks, r, s, t, list)
  {
  }

  /** What a state adds to stash `t`. */
  function Share(hooks: Hooks, r: Request, s: State, t: Name): seq<State> { Handled(hooks, r, s, t, []) }

  /** Every stepped state adds to some bucket, or is listed as an error. */
  lemma {:induction false} NothingVanishes(hooks: Hooks, r: Request, s: State) returns (t: Name)
    ensures ErrorsOf(hooks, r, s) != [] || Share(hooks, r, s, t) != []
  {
    var v := hooks.filter(s);
    t := r.stash;
    if Diverted(r, v) { t := v.goto.value; }
    else if hooks.selector(v.state) {
      match hooks.successors(v.state)
      case Errored =>
      case Unsatisfiable(_) => t := Pruned;
      case SolverInterrupt => t := Interrupted;
      case Stepped(flat, unsat, unconstrained) =>
        t := if flat != [] then r.target else if unconstrained != [] then Unconstrained
             else if unsat != [] then Unsat else Deadended;
    }
  }

  // --------------------------------------------------------------------------
  // What is left of a state after a step

  /** Stash `t` after a step: buckets of stashes that are dropped automatically are not stored. */
  function StashAfter(autoDrop: set<Name>, hooks: Hooks, r: Request, stashes: Stashes, t: Name): seq<State>
  {
    (if t == r.stash then [] else Stash(stashes, t))
    + (if t in autoDrop then [] else HandledAll(hooks, r, Stash(stashes, r.stash), t))
  }

  /** The state is listed as an error, or adds to a stash that is not dropped. */
  ghost predicate Traced(autoDrop: set<Name>, hooks: Hooks, r: Request, s: State)
  {
    ErrorsOf(hooks, r, s) != [] || exists t :: t !in autoDrop && Share(hooks, r, s, t) != []
  }

  lemma {:induction false} HandledIsShare(hooks: Hooks, r: Request, s: State, t: Name, list: seq<State>)
    ensures Handled(hooks, r, s, t, list) == list + Share(hooks, r, s, t)
  {
    var v := hooks.filter(s);
    if !Diverted(r, v) && hooks.selector(v.state) && hooks.successors(v.state).Stepped? {
      AddsAssociate(list, t, r, v.state, hooks.successors(v.state));
    }
  }

  lemma {:induction false} AddsAssociate(list: seq<State>, t: Name, r: Request, s: State, outcome: Outcome)
    requires outcome.Stepped?
    ensures Placed(r, s, outcome, t, list) == list + Placed(r, s, outcome, t, [])
  {
    var (flat, unsat, unconstrained) := (outcome.flat, outcome.unsat, outcome.unconstrained);
    AddIsConcat(list, t, r.target, flat);
    AddIsConcat(Add(list, t, r.target, flat), t, Unsat, unsat);
    AddIsConcat(Add(Add(list, t, r.target, flat), t, Unsat, unsat), t, Unconstrained, unconstrained);
    AddIsConcat(Add(list, t, r.target, flat), t, Unconstrained, unconstrained);
    AddIsConcat([], t, r.target, flat);
    AddIsConcat(Add([], t, r.target, flat), t, Unsat, unsat);
    AddIsConcat(Add(Add([], t, r.target, flat), t, Unsat, unsat), t, Unconstrained, unconstrained);
    AddIsConcat(Add([], t, r.target, flat), t, Unconstrained, unconstrained);
  }

  lemma {:induction false} AddIsConcat(list: seq<State>, t: Name, name: Name, states: seq<State>)
    ensures Add(list, t, name, states) == list + (if t == name then states else [])
  {
  }

  lemma {:induction false} HandledAllConcat(hooks: Hooks, r: Request, a: seq<State>, b: seq<State>, t: Name)
    ensures HandledAll(hooks, r, a + b, t) == HandledAll(hooks, r, a, t) + HandledAll(hooks, r, b, t)
    decreases |b|
  {
    if b == [] {
      assert a + b == a;
    } else {
      var init, last := b[..|b| - 1], b[|b| - 1];
      assert (a + b)[..|a + b| - 1] == a + init;
      HandledAllConcat(hooks, r, a, init, t);
      HandledIsShare(hooks, r, last, t, HandledAll(hooks, r, a + init, t));
      HandledIsShare(hooks, r, last, t, HandledAll(hooks, r, init, t));
      Associates(HandledAll(hooks, r, a, t), HandledAll(hooks, r, init, t), Share(hooks, r, last, t));
    }
  }

  lemma {:induction false} Associates(a: seq<State>, b: seq<State>, c: seq<State>)
    ensures (a + b) + c == a + (b + c)
  {
  }

  lemma {:induction false} ErrorsConcat(hooks: Hooks, r: Request, a: seq<State>, b: seq<State>)
    ensures ErrorsOfAll(hooks, r, a + b) == ErrorsOfAll(hooks, r, a) + ErrorsOfAll(hooks, r, b)
    decreases |b|
  {
    if b == [] {
      assert a + b == a;
    } else {
      assert (a + b)[..|a + b| - 1] == a + b[..|b| - 1];
      ErrorsConcat(hooks, r, a, b[..|b| - 1]);
    }
  }

  lemma {:induction false} OneHandled(hooks: Hooks, r: Request, s: State, t: Name)
    ensures HandledAll(hooks, r, [s], t) == Share(hooks, r, s, t) && ErrorsOfAll(hooks, r, [s]) == ErrorsOf(hooks, r, s)
  {
    assert [s][..0] == [];
  }

  lemma {:induction false} ShareInside(hooks: Hooks, r: Request, before: seq<State>, s: State, after: seq<State>,
                                       t: Name)
    ensures HandledAll(hooks, r, before + [s] + after, t)
         == HandledAll(hooks, r, before, t) + Share(hooks, r, s, t) + HandledAll(hooks, r, after, t)
    ensures HandledAll(hooks, r, before + after, t) == HandledAll(hooks, r, before, t) + HandledAll(hooks, r, after, t)
    ensures ErrorsOfAll(hooks, r, before + [s] + after)
         == ErrorsOfAll(hooks, r, before) + ErrorsOf(hooks, r, s) + ErrorsOfAll(hooks, r, after)
    ensures ErrorsOfAll(hooks, r, before + after) == ErrorsOfAll(hooks, r, before) + ErrorsOfAll(hooks, r, after)
  {
    OneHandled(hooks, r, s, t);
    HandledAllConcat(hooks, r, before + [s], after, t);
    HandledAllConcat(hooks, r, before, [s], t);
    HandledAllConcat(hooks, r, before, after, t);
    ErrorsConcat(hooks, r, before + [s], after);
    ErrorsConcat(hooks, r, before, [s]);
    ErrorsConcat(hooks, r, before, after);
  }

  /** Stash `t` is the same with and without a state if and only if the state adds nothing that is stored there. */
  lemma {:induction false} SameWithout(autoDrop: set<Name>, hooks: Hooks, r: Request, stashes: Stashes,
                                       before: seq<State>, s: State, after: seq<State>, t: Name)
    requires r.stash in stashes && stashes[r.stash] == before + [s] + after
    ensures StashAfter(autoDrop, hooks, r, stashes, t)
         == StashAfter(autoDrop, hooks, r, stashes[r.stash := before + after], t)
       <==> t in autoDrop || Share(hooks, r, s, t) == []
  {
    ShareInside(hooks, r, before, s, after, t);
    var old', x, y, z := if t == r.stash then [] else Stash(stashes, t),
      HandledAll(hooks, r, before, t), Share(hooks, r, s, t), HandledAll(hooks, r, after, t);
    SameInfix(old', x, y, z);
  }

  lemma {:induction false} SameInfix(w: seq<State>, x: seq<State>, y: seq<State>, z: seq<State>)
    ensures w + (x + y + z) == w + (x + z) <==> y == []
  {
    if y == [] {
      assert x + y + z == x + z;
    } else {
      assert |w + (x + y + z)| != |w + (x + z)|;
    }
  }

  /** A step ends as if the state had not been there if and only if the state is not listed as an error and all
      it adds goes to stashes that are dropped. */
  lemma {:induction false} LeavesTrace(autoDrop: set<Name>, hooks: Hooks, r: Request, stashes: Stashes,
                                       before: seq<State>, s: State, after: seq<State>)
    requires r.stash in stashes && stashes[r.stash] == before + [s] + after
    ensures var without := stashes[r.stash := before + after];
            && ErrorsOfAll(hooks, r, stashes[r.stash]) == ErrorsOfAll(hooks, r, without[r.stash])
            && (forall t :: StashAfter(autoDrop, hooks, r, stashes, t) == StashAfter(autoDrop, hooks, r, without, t))
            <==> !Traced(autoDrop, hooks, r, s)
  {
    forall t { SameWithout(autoDrop, hooks, r, stashes, before, s, after, t); }
    ShareInside(hooks, r, before, s, after, r.stash);
    var x, y, z := ErrorsOfAll(hooks, r, before), ErrorsOf(hooks, r, s), ErrorsOfAll(hooks, r, after);
    SameInfix([], x, y, z);
    assert [] + (x + y + z) == x + y + z && [] + (x + z) == x + z;
  }

  /** Without stashes to drop, every state leaves a trace. */
  lemma {:induction false} NothingDropped(hooks: Hooks, r: Request, s: State)
    ensures Traced({}, hooks, r, s)
  {
    var t := NothingVanishes(hooks, r, s);
    assert Share(hooks, r, s, t) != [] ==> t !in {};
  }

  /** A filter that sends a state to a dropped stash leaves no trace of it. */
  lemma {:induction false} FilteredAway(autoDrop: set<Name>, hooks: Hooks, r: Request, s: State)
    requires Diverted(r, hooks.filter(s)) && hooks.filter(s).goto.value in autoDrop
    ensures !Traced(autoDrop, hooks, r, s)
  {
  }

  /** A step that loses its only state: every stash is empty afterwards and no error is listed. */
  lemma {:induction false} StateLost() returns (hooks: Hooks, r: Request, stashes: Stashes, s: State)
    ensures r.stash in stashes && stashes[r.stash] == [s]
    ensures ErrorsOfAll(hooks, r, [s]) == [] && forall t :: StashAfter({Drop}, hooks, r, stashes, t) == []
  {
    var active := Other("active");
    s := Fresh(0, 0);
    hooks := Hooks(x => Verdict(Some(Drop), x), x => true, x => Errored);
    r, stashes := Request(active, active, false), map[active := [s]];
    forall t ensures StashAfter({Drop}, hooks, r, stashes, t) == [] { OneHandled(hooks, r, s, t); }
    OneHandled(hooks, r, s, active);
  }

  // --------------------------------------------------------------------------
  // The dictionary `step_state` returns; `None` stands for the target stash

  datatype Entry = Entry(name: Option<Name>, states: seq<State>)

  type Entries = seq<Entry>

  function SuccessorsOf(s: State, outcome: Outcome): Entries
  {
    match outcome
    case Stepped(flat, unsat, unconstrained) =>
      [Entry(None, flat), Entry(Some(Unsat), unsat), Entry(Some(Unconstrained), unconstrained)]
    case Unsatisfiable(lazySolves) => if lazySolves then [Entry(Some(Pruned), [s])] else []
    case SolverInterrupt => [Entry(Some(Interrupted), [s])]
    case Errored => []
  }

  predicate AnyBesidesUnsat(entries: Entries)
  {
    exists i :: 0 <= i < |entries| && entries[i].name != Some(Unsat) && entries[i].states != []
  }

  predicate AnyUnsat(entries: Entries)
  {
    exists i :: 0 <= i < |entries| && entries[i].name == Some(Unsat) && entries[i].states != []
  }

  function PopUnsat(entries: Entries): Entries
  {
    if entries == [] then []
    else
      var last := entries[|entries| - 1];
      PopUnsat(entries[..|entries| - 1]) + if last.name == Some(Unsat) then [] else [last]
  }

  function Destination(e: Entry, target: Name): Name { if e.name.Some? then e.name.value else target }

  /** The list of stash `t` after the entries have been put in the bucket. */
  function Spread(entries: Entries, target: Name, t: Name, list: seq<State>): seq<State>
  {
    if entries == [] then list
    else
      var last := entries[|entries| - 1];
      Add(Spread(entries[..|entries| - 1], target, t, list), t, Destination(last, target), last.states)
  }

  /** The bucket itself after that. */
  function Extended(bucket: Stashes, entries: Entries, target: Name): Stashes
  {
    if entries == [] then bucket
    else
      var last, before := entries[|entries| - 1], Extended(bucket, entries[..|entries| - 1], target);
      before[Destination(last, target) := Stash(before, Destination(last, target)) + last.states]
  }

  lemma {:induction false} ExtendedIsSpread(bucket: Stashes, entries: Entries, target: Name, t: Name)
    ensures Stash(Extended(bucket, entries, target), t) == Spread(entries, target, t, Stash(bucket, t))
  {
    if entries != [] { ExtendedIsSpread(bucket, entries[..|entries| - 1], target, t); }
  }

  /** The entries to distribute, or none when the state is deadended. */
  function Left(r: Request, entries: Entries, quiet: bool): Option<Entries>
  {
    if !AnyBesidesUnsat(entries) && quiet then (if AnyUnsat(entries) then Some(entries) else None)
    else Some(if r.saveUnsat then entries else PopUnsat(entries))
  }

  lemma {:induction false} SpreadByOne(entries: Entries, e: Entry, target: Name, t: Name, list: seq<State>)
    ensures Spread(entries + [e], target, t, list)
         == Add(Spread(entries, target, t, list), t, Destination(e, target), e.states)
  {
    assert (entries + [e])[..|entries|] == entries;
  }

  lemma {:induction false} SpreadOfOne(e: Entry, target: Name, t: Name, list: seq<State>)
    ensures Spread([e], target, t, list) == Add(list, t, Destination(e, target), e.states)
  {
    SpreadByOne([], e, target, t, list);
    assert [] + [e] == [e];
  }

  lemma {:induction false} SpreadOfTwo(a: Entry, b: Entry, target: Name, t: Name, list: seq<State>)
    ensures Spread([a, b], target, t, list) ==
            Add(Add(list, t, Destination(a, target), a.states), t, Destination(b, target), b.states)
  {
    SpreadOfOne(a, target, t, list);
    SpreadByOne([a], b, target, t, list);
    assert [a] + [b] == [a, b];
  }

  lemma {:induction false} SpreadOfThree(a: Entry, b: Entry, c: Entry, target: Name, t: Name, list: seq<State>)
    ensures Spread([a, b, c], target, t, list) ==
            Add(Add(Add(list, t, Destination(a, target), a.states), t, Destination(b, target), b.states), t,
                Destination(c, target), c.states)
  {
    SpreadOfTwo(a, b, target, t, list);
    SpreadByOne([a, b], c, target, t, list);
    assert [a, b] + [c] == [a, b, c];
  }

  lemma {:induction false} PopUnsatOfThree(a: Entry, b: Entry, c: Entry)
    requires a.name != Some(Unsat) && b.name == Some(Unsat) && c.name != Some(Unsat)
    ensures PopUnsat([a, b, c]) == [a, c]
    ensures AnyUnsat([a, b, c]) <==> b.states != []
    ensures AnyBesidesUnsat([a, b, c]) <==> a.states != [] || c.states != []
  {
    var e := [a, b, c];
    assert e[..2] == [a, b] && [a, b][..1] == [a] && [a][..0] == [];
    assert PopUnsat([a]) == [a] && PopUnsat([a, b]) == [a];
    assert e[0] == a && e[1] == b && e[2] == c;
  }

  lemma {:induction false} OneEntryIsLeft(r: Request, e: Entry)
    requires e.name != Some(Unsat) && e.states != []
    ensures Left(r, [e], true) == Some([e])
  {
    assert [e][0] == e && [e][..0] == [];
    assert PopUnsat([e]) == [e];
  }

  /** The bookkeeping on the dictionary places the states as `Placed` says. */
  lemma {:induction false} LeftIsPlaced(r: Request, s: State, outcome: Outcome, t: Name, list: seq<State>)
    ensures var left := Left(r, SuccessorsOf(s, outcome), !Fails(outcome));
            Placed(r, s, outcome, t, list) ==
              if left.None? then Add(list, t, Deadended, [s]) else Spread(left.value, r.target, t, list)
  {
    var e := SuccessorsOf(s, outcome);
    match outcome
    case Stepped(flat, unsat, unconstrained) =>
      PopUnsatOfThree(e[0], e[1], e[2]);
      SpreadOfThree(e[0], e[1], e[2], r.target, t, list);
      SpreadOfTwo(e[0], e[2], r.target, t, list);
    case Unsatisfiable(lazySolves) =>
      if lazySolves { OneEntryIsLeft(r, e[0]); SpreadOfOne(e[0], r.target, t, list); }
    case SolverInterrupt =>
      OneEntryIsLeft(r, e[0]);
      SpreadOfOne(e[0], r.target, t, list);
    case Errored =>
  }

  // --------------------------------------------------------------------------
  // Conservation

  /** The original states a state was made of. */
  function Leaves(s: State): multiset<nat>
  {
    match s
    case Fresh(id, _) => multiset{id}
    case Merged(parts, _) => LeavesAll(parts)
  }

  function LeavesAll(states: seq<State>): multiset<nat>
  {
    if states == [] then multiset{} else Leaves(states[0]) + LeavesAll(states[1..])
  }

  lemma {:induction false} LeavesOfConcat(a: seq<State>, b: seq<State>)
    ensures LeavesAll(a + b) == LeavesAll(a) + LeavesAll(b)
  {
    if a == [] {
      assert a + b == b;
    } else {
      assert (a + b)[1..] == a[1..] + b;
      LeavesOfConcat(a[1..], b);
    }
  }

  lemma {:induction false} LeavesOfCons(s: State, rest: seq<State>)
    ensures LeavesAll([s] + rest) == Leaves(s) + LeavesAll(rest)
  {
    assert ([s] + rest)[1..] == rest;
  }

  lemma {:induction false} LeavesOfSnoc(rest: seq<State>, s: State)
    ensures LeavesAll(rest + [s]) == LeavesAll(rest) + Leaves(s)
  {
    LeavesOfConcat(rest, [s]);
    LeavesOfCons(s, []);
    assert [s] + [] == [s];
  }

  lemma {:induction false} LeavesPartition(states: seq<State>, nodes: set<Node>)
    ensures LeavesAll(Within(states, nodes)) + LeavesAll(Outside(states, nodes)) == LeavesAll(states)
  {
    if states != [] {
      var s, rest := states[0], states[1..];
      LeavesPartition(rest, nodes);
      if s.history in nodes {
        LeavesOfCons(s, Within(rest, nodes));
        assert Outside(states, nodes) == Outside(rest, nodes);
      } else {
        LeavesOfCons(s, Outside(rest, nodes));
        assert Within(states, nodes) == Within(rest, nodes);
      }
    }
  }

  /** The state is one of the group, or a merge of such. */
  predicate MadeOf(s: State, group: seq<State>)
  {
    s in group || (s.Merged? && AllMadeOf(s.parts, group))
  }

  predicate AllMadeOf(states: seq<State>, group: seq<State>)
  {
    states == [] || (MadeOf(states[0], group) && AllMadeOf(states[1..], group))
  }

  lemma {:induction false} MembersAreMadeOf(states: seq<State>, group: seq<State>)
    requires forall s :: s in states ==> s in group
    ensures AllMadeOf(states, group)
  {
    if states != [] { MembersAreMadeOf(states[1..], group); }
  }

  lemma {:induction false} MadeOfTransitive(s: State, middle: seq<State>, group: seq<State>)
    requires MadeOf(s, middle) && forall m :: m in middle ==> MadeOf(m, group)
    ensures MadeOf(s, group)
    decreases s
  {
    if s !in middle { AllMadeOfTransitive(s.parts, middle, group); }
  }

  lemma {:induction false} AllMadeOfTransitive(states: seq<State>, middle: seq<State>, group: seq<State>)
    requires AllMadeOf(states, middle) && forall m :: m in middle ==> MadeOf(m, group)
    ensures AllMadeOf(states, group)
    decreases states
  {
    if states != [] {
      MadeOfTransitive(states[0], middle, group);
      AllMadeOfTransitive(states[1..], middle, group);
    }
  }

  /** `_filter_states`: the states whose test comes out as wanted. */
  function Matching(states: seq<State>, test: State -> bool, wanted: bool): seq<State>
  {
    if states == [] then []
    else (if test(states[0]) == wanted then [states[0]] else []) + Matching(states[1..], test, wanted)
  }

  lemma {:induction false} MatchingMembers(states: seq<State>, test: State -> bool, wanted: bool)
    ensures forall s :: s in Matching(states, test, wanted) <==> s in states && test(s) == wanted
    ensures |Matching(states, test, true)| + |Matching(states, test, false)| == |states|
  {
    if states != [] {
      MatchingMembers(states[1..], test, wanted);
    }
  }

  lemma {:induction false} MatchingConservesLeaves(states: seq<State>, test: State -> bool)
    ensures LeavesAll(Matching(states, test, true)) + LeavesAll(Matching(states, test, false)) == LeavesAll(states)
  {
    if states != [] {
      var s, rest := states[0], states[1..];
      MatchingConservesLeaves(rest, test);
      if test(s) {
        LeavesOfCons(s, Matching(rest, test, true));
        assert Matching(states, test, false) == Matching(rest, test, false);
      } else {
        LeavesOfCons(s, Matching(rest, test, false));
        assert Matching(states, test, true) == Matching(rest, test, true);
      }
    }
  }

  function WithKey(states: seq<State>, key: State -> nat, k: nat): seq<State>
  {
    if states == [] then [] else (if key(states[0]) == k then [states[0]] else []) + WithKey(states[1..], key, k)
  }

  function WithoutKeys(states: seq<State>, key: State -> nat, seen: set<nat>): seq<State>
  {
    if states == [] then []
    else (if key(states[0]) in seen then [] else [states[0]]) + WithoutKeys(states[1..], key, seen)
  }

  lemma {:induction false} WithKeyMembers(states: seq<State>, key: State -> nat, k: nat)
    ensures forall s :: s in WithKey(states, key, k) <==> s in states && key(s) == k
  {
    if states != [] { WithKeyMembers(states[1..], key, k); }
  }

  lemma {:induction false} WithKeyOfRest(states: seq<State>, key: State -> nat, seen: set<nat>, k: nat)
    ensures k !in seen ==> WithKey(WithoutKeys(states, key, seen), key, k) == WithKey(states, key, k)
    ensures WithoutKeys(WithoutKeys(states, key, seen), key, {k}) == WithoutKeys(states, key, seen + {k})
  {
    if states != [] {
      WithKeyOfRest(states[1..], key, seen, k);
      var rest := WithoutKeys(states[1..], key, seen);
      if key(states[0]) in seen {
        assert WithoutKeys(states, key, seen) == rest;
      } else {
        assert WithoutKeys(states, key, seen) == [states[0]] + rest && ([states[0]] + rest)[1..] == rest;
      }
    }
  }

  lemma {:induction false} WithKeyConservesLeaves(states: seq<State>, key: State -> nat, k: nat)
    ensures LeavesAll(WithKey(states, key, k)) + LeavesAll(WithoutKeys(states, key, {k})) == LeavesAll(states)
    ensures |WithKey(states, key, k)| + |WithoutKeys(states, key, {k})| == |states|
  {
    if states != [] {
      var s, rest := states[0], states[1..];
      WithKeyConservesLeaves(rest, key, k);
      if key(s) == k {
        LeavesOfCons(s, WithKey(rest, key, k));
        assert WithoutKeys(states, key, {k}) == WithoutKeys(rest, key, {k});
      } else {
        LeavesOfCons(s, WithoutKeys(rest, key, {k}));
        assert WithKey(states, key, k) == WithKey(rest, key, k);
      }
    }
  }

  lemma {:induction false} AllKeysSeen(states: seq<State>, key: State -> nat, seen: set<nat>, k: nat)
    requires WithoutKeys(states, key, seen) == [] && k !in seen
    ensures WithKey(states, key, k) == []
  {
    if states != [] { AllKeysSeen(states[1..], key, seen, k); }
  }

  lemma {:induction false} NoKeySeen(states: seq<State>, key: State -> nat)
    ensures WithoutKeys(states, key, {}) == states
  {
    if states != [] { NoKeySeen(states[1..], key); }
  }

  lemma {:induction false} LeavesOfMoreGroups(groups: seq<seq<State>>, g: seq<State>)
    ensures LeavesOfGroups(groups + [g]) == LeavesOfGroups(groups) + LeavesAll(g)
  {
    if groups == [] {
      assert groups + [g] == [g] && [g][1..] == [];
    } else {
      assert (groups + [g])[1..] == groups[1..] + [g];
      LeavesOfMoreGroups(groups[1..], g);
    }
  }

  /** All the states with one key. */
  ghost predicate IsGroup(g: seq<State>, states: seq<State>, key: State -> nat)
  {
    exists k :: g == WithKey(states, key, k)
  }

  /** Made of states with one key. */
  ghost predicate MadeOfGroup(s: State, states: seq<State>, key: State -> nat)
  {
    exists g :: IsGroup(g, states, key) && MadeOf(s, g)
  }

  predicate Distinct(keys: seq<nat>) { forall i, j :: 0 <= i < j < |keys| ==> keys[i] != keys[j] }

  /** Each listed key with all its states: those of a single state, and the others. */
  ghost predicate Grouped(states: seq<State>, key: State -> nat, groups: seq<seq<State>>, singles: seq<State>,
                          alone: seq<nat>, shared: seq<nat>)
  {
    && |alone| == |singles| && |shared| == |groups| && Distinct(alone + shared)
    && (forall i :: 0 <= i < |singles| ==> WithKey(states, key, alone[i]) == [singles[i]])
    && (forall i :: 0 <= i < |groups| ==> groups[i] == WithKey(states, key, shared[i]) && |groups[i]| > 1)
  }

  lemma {:induction false} GroupedMore(states: seq<State>, key: State -> nat, groups: seq<seq<State>>,
                                       singles: seq<State>, alone: seq<nat>, shared: seq<nat>, k: nat)
    requires Grouped(states, key, groups, singles, alone, shared) && k !in alone + shared
    ensures var g := WithKey(states, key, k);
            && (|g| == 1 ==> Grouped(states, key, groups, singles + g, alone + [k], shared))
            && (|g| > 1 ==> Grouped(states, key, groups + [g], singles, alone, shared + [k]))
  {
    var g := WithKey(states, key, k);
    DistinctMore(alone, shared, k);
    if |g| == 1 { assert g == [g[0]]; }
  }

  lemma {:induction false} DistinctMore(alone: seq<nat>, shared: seq<nat>, k: nat)
    requires Distinct(alone + shared) && k !in alone + shared
    ensures Distinct(alone + [k] + shared) && Distinct(alone + (shared + [k]))
  {
    var all := alone + shared;
    assert forall i :: 0 <= i < |all| ==> all[i] != k;
    assert alone + (shared + [k]) == all + [k];
    var more := alone + [k] + shared;
    forall i, j | 0 <= i < j < |more| ensures more[i] != more[j] {
      var i', j' := if i > |alone| then i - 1 else i, if j > |alone| then j - 1 else j;
      if i != |alone| && j != |alone| { assert all[i'] == more[i] && all[j'] == more[j]; }
      if i == |alone| { assert all[j'] == more[j]; }
      if j == |alone| { assert all[i'] == more[i]; }
    }
  }

  lemma {:induction false} NoGroups(states: seq<State>, key: State -> nat, groups: seq<seq<State>>,
                                    singles: seq<State>, alone: seq<nat>, shared: seq<nat>)
    requires Grouped(states, key, groups, singles, alone, shared) && EveryKey(states, key, alone + shared)
    ensures groups == [] <==> AllAlone(states, key)
  {
    if groups == [] {
      forall k ensures |WithKey(states, key, k)| <= 1 {
        if k in alone {
          var i :| 0 <= i < |alone| && alone[i] == k;
          assert WithKey(states, key, alone[i]) == [singles[i]];
        }
      }
    } else {
      assert groups[0] == WithKey(states, key, shared[0]) && |WithKey(states, key, shared[0])| > 1;
    }
  }

  /** No two states share a key. */
  ghost predicate AllAlone(states: seq<State>, key: State -> nat) { forall k :: |WithKey(states, key, k)| <= 1 }

  /** The list holds the keys of all the states and no others. */
  ghost predicate EveryKey(states: seq<State>, key: State -> nat, keys: seq<nat>)
  {
    forall k :: k in keys <==> WithKey(states, key, k) != []
  }

  /** The groups that share a key and have more than one state, and the states that are alone. */
  method Group(states: seq<State>, key: State -> nat)
    returns (groups: seq<seq<State>>, singles: seq<State>, ghost alone: seq<nat>, ghost shared: seq<nat>)
    ensures Grouped(states, key, groups, singles, alone, shared) && EveryKey(states, key, alone + shared)
    ensures LeavesAll(singles) + LeavesOfGroups(groups) == LeavesAll(states)
    ensures groups == [] <==> AllAlone(states, key)
  {
    var toMerge := states;
    groups, singles, alone, shared := [], [], [], [];
    ghost var seen: set<nat> := {};
    NoKeySeen(states, key);
    while toMerge != []
      invariant Grouping(states, key, seen, groups, singles, alone, shared, toMerge)
      decreases |toMerge|
    {
      var base := key(toMerge[0]);
      var g := WithKey(toMerge, key, base);
      WithKeyConservesLeaves(toMerge, key, base);
      GroupingMore(states, key, seen, groups, singles, alone, shared, toMerge);
      toMerge := WithoutKeys(toMerge, key, {base});
      seen := seen + {base};
      if |g| <= 1 {
        singles, alone := singles + g, alone + [base];
      } else {
        groups, shared := groups + [g], shared + [base];
      }
    }
    KeysAreAll(states, key, seen, alone, shared);
    NoGroups(states, key, groups, singles, alone, shared);
  }

  lemma {:induction false} KeysAreAll(states: seq<State>, key: State -> nat, seen: set<nat>, alone: seq<nat>,
                                      shared: seq<nat>)
    requires WithoutKeys(states, key, seen) == [] && Listed(alone, shared, seen)
    requires forall k :: k in seen ==> WithKey(states, key, k) != []
    ensures EveryKey(states, key, alone + shared)
  {
    forall k | k !in seen ensures WithKey(states, key, k) == [] { AllKeysSeen(states, key, seen, k); }
  }

  ghost predicate Listed(alone: seq<nat>, shared: seq<nat>, seen: set<nat>)
  {
    forall k :: k in seen <==> k in alone || k in shared
  }

  /** What is left to group, and what has been grouped. */
  ghost predicate Grouping(states: seq<State>, key: State -> nat, seen: set<nat>, groups: seq<seq<State>>,
                           singles: seq<State>, alone: seq<nat>, shared: seq<nat>, toMerge: seq<State>)
  {
    && toMerge == WithoutKeys(states, key, seen)
    && Grouped(states, key, groups, singles, alone, shared)
    && Listed(alone, shared, seen)
    && (forall k :: k in seen ==> WithKey(states, key, k) != [])
    && LeavesAll(singles) + LeavesOfGroups(groups) + LeavesAll(toMerge) == LeavesAll(states)
  }

  lemma {:induction false} GroupingMore(states: seq<State>, key: State -> nat, seen: set<nat>, groups: seq<seq<State>>,
                                        singles: seq<State>, alone: seq<nat>, shared: seq<nat>, toMerge: seq<State>)
    requires toMerge != [] && Grouping(states, key, seen, groups, singles, alone, shared, toMerge)
    ensures var k := key(toMerge[0]); var g := WithKey(toMerge, key, k);
            var rest := WithoutKeys(toMerge, key, {k});
            if |g| <= 1 then Grouping(states, key, seen + {k}, groups, singles + g, alone + [k], shared, rest)
            else Grouping(states, key, seen + {k}, groups + [g], singles, alone, shared + [k], rest)
  {
    var k := key(toMerge[0]);
    var g, rest := WithKey(toMerge, key, k), WithoutKeys(toMerge, key, {k});
    NextGroup(states, key, seen, toMerge);
    if |g| <= 1 {
      OneMoreAlone(states, key, seen, groups, singles, alone, shared, toMerge, rest, k);
    } else {
      OneMoreShared(states, key, seen, groups, singles, alone, shared, toMerge, rest, k);
    }
  }

  lemma {:induction false} OneMoreAlone(states: seq<State>, key: State -> nat, seen: set<nat>, groups: seq<seq<State>>,
                                        singles: seq<State>, alone: seq<nat>, shared: seq<nat>, toMerge: seq<State>,
                                        rest: seq<State>, k: nat)
    requires Grouping(states, key, seen, groups, singles, alone, shared, toMerge)
    requires k !in seen && |WithKey(states, key, k)| == 1 && rest == WithoutKeys(states, key, seen + {k})
    requires LeavesAll(WithKey(states, key, k)) + LeavesAll(rest) == LeavesAll(toMerge)
    ensures Grouping(states, key, seen + {k}, groups, singles + WithKey(states, key, k), alone + [k], shared, rest)
  {
    GroupedMore(states, key, groups, singles, alone, shared, k);
    LeavesOfConcat(singles, WithKey(states, key, k));
  }

  lemma {:induction false} OneMoreShared(states: seq<State>, key: State -> nat, seen: set<nat>,
                                         groups: seq<seq<State>>, singles: seq<State>, alone: seq<nat>,
                                         shared: seq<nat>, toMerge: seq<State>, rest: seq<State>, k: nat)
    requires Grouping(states, key, seen, groups, singles, alone, shared, toMerge)
    requires k !in seen && |WithKey(states, key, k)| > 1 && rest == WithoutKeys(states, key, seen + {k})
    requires LeavesAll(WithKey(states, key, k)) + LeavesAll(rest) == LeavesAll(toMerge)
    ensures Grouping(states, key, seen + {k}, groups + [WithKey(states, key, k)], singles, alone, shared + [k], rest)
  {
    GroupedMore(states, key, groups, singles, alone, shared, k);
    LeavesOfMoreGroups(groups, WithKey(states, key, k));
  }

  /** The states with the key of the first one that is left: all the states with that key. */
  lemma {:induction false} NextGroup(states: seq<State>, key: State -> nat, seen: set<nat>, toMerge: seq<State>)
    requires toMerge != [] && toMerge == WithoutKeys(states, key, seen)
    ensures var k := key(toMerge[0]); var g := WithKey(toMerge, key, k);
            var rest := WithoutKeys(toMerge, key, {k});
            && k !in seen && g == WithKey(states, key, k) && g != [] && rest == WithoutKeys(states, key, seen + {k})
            && LeavesAll(g) + LeavesAll(rest) == LeavesAll(toMerge)
  {
    var k := key(toMerge[0]);
    BaseIsNew(states, key, seen, toMerge[0]);
    WithKeyOfRest(states, key, seen, k);
    WithKeyConservesLeaves(toMerge, key, k);
    assert WithKey(toMerge, key, k)[0] == toMerge[0];
  }

  lemma {:induction false} BaseIsNew(states: seq<State>, key: State -> nat, seen: set<nat>, s: State)
    requires s in WithoutKeys(states, key, seen)
    ensures key(s) !in seen
  {
    if states[0] != s || key(states[0]) in seen { BaseIsNew(states[1..], key, seen, s); }
  }

  function LeavesOfGroups(groups: seq<seq<State>>): multiset<nat>
  {
    if groups == [] then multiset{} else LeavesAll(groups[0]) + LeavesOfGroups(groups[1..])
  }

  /** Some two or more states, made of the given ones, cannot be merged. */
  ghost predicate Refused(mergeable: seq<State> -> bool, states: seq<State>)
  {
    exists list :: AllMadeOf(list, states) && |list| > 1 && !mergeable(list)
  }

  lemma {:induction false} RefusedBefore(mergeable: seq<State> -> bool, middle: seq<State>, states: seq<State>)
    requires Refused(mergeable, middle) && forall m :: m in middle ==> MadeOf(m, states)
    ensures Refused(mergeable, states)
  {
    var list :| AllMadeOf(list, middle) && |list| > 1 && !mergeable(list);
    AllMadeOfTransitive(list, middle, states);
  }

  /** What becomes of the states with one key: one state made of exactly them, or they stay, if they are one or
      some of them cannot be merged. */
  ghost predicate Piece(mergeable: seq<State> -> bool, piece: seq<State>, group: seq<State>)
  {
    || (piece == group && (|group| == 1 || Refused(mergeable, group)))
    || (|piece| == 1 && MadeOf(piece[0], group) && Leaves(piece[0]) == LeavesAll(group))
  }

  function Flat(pieces: seq<seq<State>>): seq<State>
  {
    if pieces == [] then [] else Flat(pieces[..|pieces| - 1]) + pieces[|pieces| - 1]
  }

  ghost predicate MergedWith(mergeable: seq<State> -> bool, merged: seq<State>, states: seq<State>, key: State -> nat,
                             keys: seq<nat>, pieces: seq<seq<State>>)
  {
    && |keys| == |pieces| && Distinct(keys) && EveryKey(states, key, keys) && merged == Flat(pieces)
    && (forall i :: 0 <= i < |keys| ==> Piece(mergeable, pieces[i], WithKey(states, key, keys[i])))
  }

  /** The states were merged key by key. */
  ghost predicate MergedByKey(mergeable: seq<State> -> bool, merged: seq<State>, states: seq<State>, key: State -> nat)
  {
    exists keys, pieces :: MergedWith(mergeable, merged, states, key, keys, pieces)
  }

  ghost predicate AlwaysMergeable(mergeable: seq<State> -> bool) { forall list :: mergeable(list) }

  /** One state for each key, made of exactly the states with that key. */
  ghost predicate OnePerKey(merged: seq<State>, states: seq<State>, key: State -> nat, keys: seq<nat>)
  {
    && |keys| == |merged| && Distinct(keys) && EveryKey(states, key, keys)
    && (forall i :: 0 <= i < |keys| ==>
          && MadeOf(merged[i], WithKey(states, key, keys[i]))
          && Leaves(merged[i]) == LeavesAll(WithKey(states, key, keys[i])))
  }

  lemma {:induction false} FlatSingles(pieces: seq<seq<State>>)
    requires forall i :: 0 <= i < |pieces| ==> |pieces[i]| == 1
    ensures |Flat(pieces)| == |pieces| && forall i :: 0 <= i < |pieces| ==> Flat(pieces)[i] == pieces[i][0]
  {
    if pieces != [] { FlatSingles(pieces[..|pieces| - 1]); }
  }

  /** When every list can be merged, exactly one state per key is left. */
  lemma {:induction false} MergedToOnePerKey(mergeable: seq<State> -> bool, merged: seq<State>, states: seq<State>,
                                             key: State -> nat)
    requires MergedByKey(mergeable, merged, states, key) && AlwaysMergeable(mergeable)
    ensures exists keys :: OnePerKey(merged, states, key, keys)
  {
    var keys, pieces :| MergedWith(mergeable, merged, states, key, keys, pieces);
    forall i | 0 <= i < |pieces|
      ensures |pieces[i]| == 1 && MadeOf(pieces[i][0], WithKey(states, key, keys[i]))
      ensures Leaves(pieces[i][0]) == LeavesAll(WithKey(states, key, keys[i]))
    {
      var group := WithKey(states, key, keys[i]);
      assert Piece(mergeable, pieces[i], group);
      if pieces[i] == group && |group| == 1 { assert group == [group[0]] && group[1..] == []; }
    }
    FlatSingles(pieces);
    assert OnePerKey(merged, states, key, keys);
  }

  function Singletons(states: seq<State>): (r: seq<seq<State>>)
    ensures |r| == |states|
  {
    seq(|states|, i requires 0 <= i < |states| => [states[i]])
  }

  lemma {:induction false} FlatOfSingletons(states: seq<State>)
    ensures Flat(Singletons(states)) == states
  {
    FlatSingles(Singletons(states));
  }

  lemma {:induction false} FlatOfConcat(a: seq<seq<State>>, b: seq<seq<State>>)
    ensures Flat(a + b) == Flat(a) + Flat(b)
    decreases |b|
  {
    if b == [] {
      assert a + b == a;
    } else {
      var n := |b| - 1;
      FlatOfConcat(a, b[..n]);
      assert (a + b)[..|a + b| - 1] == a + b[..n] && (a + b)[|a + b| - 1] == b[n];
      assert Flat(a) + (Flat(b[..n]) + b[n]) == Flat(a) + Flat(b[..n]) + b[n];
    }
  }

  ghost predicate AllPieces(mergeable: seq<State> -> bool, pieces: seq<seq<State>>, groups: seq<seq<State>>)
  {
    |pieces| == |groups| && forall i :: 0 <= i < |groups| ==> Piece(mergeable, pieces[i], groups[i])
  }

  lemma {:induction false} MorePieces(mergeable: seq<State> -> bool, pieces: seq<seq<State>>,
                                      groups: seq<seq<State>>, i: nat, piece: seq<State>, singles: seq<State>)
    requires i < |groups| && AllPieces(mergeable, pieces, groups[..i]) && Piece(mergeable, piece, groups[i])
    ensures AllPieces(mergeable, pieces + [piece], groups[..i + 1])
    ensures singles + Flat(pieces + [piece]) == singles + Flat(pieces) + piece
  {
    assert (pieces + [piece])[..i] == pieces;
    forall j | 0 <= j < i + 1 ensures Piece(mergeable, (pieces + [piece])[j], groups[..i + 1][j]) {
      if j < i { assert Piece(mergeable, pieces[j], groups[..i][j]); }
    }
  }

  lemma {:induction false} PieceOfKey(mergeable: seq<State> -> bool, states: seq<State>, key: State -> nat,
                                      groups: seq<seq<State>>, singles: seq<State>, alone: seq<nat>,
                                      shared: seq<nat>, pieces: seq<seq<State>>, i: nat)
    requires Grouped(states, key, groups, singles, alone, shared) && AllPieces(mergeable, pieces, groups)
    requires i < |alone + shared|
    ensures Piece(mergeable, (Singletons(singles) + pieces)[i], WithKey(states, key, (alone + shared)[i]))
  {
    if i < |alone| {
      assert WithKey(states, key, alone[i]) == [singles[i]];
    } else {
      assert Piece(mergeable, pieces[i - |alone|], groups[i - |alone|]);
    }
  }

  lemma {:induction false} PiecesByKey(mergeable: seq<State> -> bool, states: seq<State>, key: State -> nat,
                                       groups: seq<seq<State>>, singles: seq<State>, alone: seq<nat>,
                                       shared: seq<nat>, pieces: seq<seq<State>>)
    requires Grouped(states, key, groups, singles, alone, shared) && EveryKey(states, key, alone + shared)
    requires AllPieces(mergeable, pieces, groups)
    ensures MergedByKey(mergeable, singles + Flat(pieces), states, key)
  {
    var keys, all, merged := alone + shared, Singletons(singles) + pieces, singles + Flat(pieces);
    assert merged == Flat(all) by {
      FlatOfSingletons(singles);
      FlatOfConcat(Singletons(singles), pieces);
    }
    assert |keys| == |all|;
    forall i | 0 <= i < |keys| ensures Piece(mergeable, all[i], WithKey(states, key, keys[i])) {
      PieceOfKey(mergeable, states, key, groups, singles, alone, shared, pieces, i);
    }
    assert MergedWith(mergeable, merged, states, key, keys, all);
  }

  lemma {:induction false} PiecesMerged(mergeable: seq<State> -> bool, states: seq<State>, key: State -> nat,
                                        groups: seq<seq<State>>, singles: seq<State>, alone: seq<nat>,
                                        shared: seq<nat>, pieces: seq<seq<State>>)
    requires Grouped(states, key, groups, singles, alone, shared) && EveryKey(states, key, alone + shared)
    requires AllPieces(mergeable, pieces, groups[..|groups|])
    ensures MergedByKey(mergeable, singles + Flat(pieces), states, key)
    ensures LeavesAll(singles + Flat(pieces)) == LeavesAll(singles) + LeavesOfGroups(groups)
  {
    assert groups[..|groups|] == groups;
    PiecesByKey(mergeable, states, key, groups, singles, alone, shared, pieces);
    PiecesConserve(mergeable, pieces, groups);
    LeavesOfConcat(singles, Flat(pieces));
  }

  lemma {:induction false} FlatMember(pieces: seq<seq<State>>, s: State) returns (i: nat)
    requires s in Flat(pieces)
    ensures i < |pieces| && s in pieces[i]
  {
    var n := |pieces| - 1;
    if s in pieces[n] { i := n; } else { i := FlatMember(pieces[..n], s); }
  }

  /** Merged or not, each state is made of states with one key. */
  lemma {:induction false} MergedOfGroup(mergeable: seq<State> -> bool, merged: seq<State>, states: seq<State>,
                                         key: State -> nat, s: State)
    requires MergedByKey(mergeable, merged, states, key) && s in merged
    ensures MadeOfGroup(s, states, key)
  {
    var keys, pieces :| MergedWith(mergeable, merged, states, key, keys, pieces);
    var i := FlatMember(pieces, s);
    var group := WithKey(states, key, keys[i]);
    PieceMember(mergeable, pieces[i], group, s);
    assert IsGroup(group, states, key);
  }

  lemma {:induction false} PieceMember(mergeable: seq<State> -> bool, piece: seq<State>, group: seq<State>, s: State)
    requires Piece(mergeable, piece, group) && s in piece
    ensures MadeOf(s, group)
  {
  }

  lemma {:induction false} PieceConserves(mergeable: seq<State> -> bool, piece: seq<State>, group: seq<State>)
    requires Piece(mergeable, piece, group)
    ensures LeavesAll(piece) == LeavesAll(group)
  {
    if piece != group {
      assert piece == [piece[0]] + [];
      LeavesOfCons(piece[0], []);
    }
  }

  lemma {:induction false} PiecesConserve(mergeable: seq<State> -> bool, pieces: seq<seq<State>>,
                                          groups: seq<seq<State>>)
    requires AllPieces(mergeable, pieces, groups)
    ensures LeavesAll(Flat(pieces)) == LeavesOfGroups(groups)
  {
    if groups != [] {
      var n := |groups| - 1;
      PieceConserves(mergeable, pieces[n], groups[n]);
      PiecesConserve(mergeable, pieces[..n], groups[..n]);
      LeavesOfConcat(Flat(pieces[..n]), pieces[n]);
      LeavesOfMoreGroups(groups[..n], groups[n]);
      assert groups[..n] + [groups[n]] == groups;
    }
  }

  /** What a merge by key comes to. */
  lemma {:induction false} MergedStash(mergeable: seq<State> -> bool, merged: seq<State>, states: seq<State>,
                                       key: State -> nat)
    requires MergedByKey(mergeable, merged, states, key)
    ensures forall s :: s in merged ==> MadeOfGroup(s, states, key)
    ensures AlwaysMergeable(mergeable) ==> exists keys :: OnePerKey(merged, states, key, keys)
  {
    forall s | s in merged ensures MadeOfGroup(s, states, key) { MergedOfGroup(mergeable, merged, states, key, s); }
    if AlwaysMergeable(mergeable) { MergedToOnePerKey(mergeable, merged, states, key); }
  }

  datatype MergeOutcome =
    | MergedTo(state: State)
    | MergeError        // SimMergeError
    | NoCommonHistory   // AttributeError: there is no hierarchy to ask

  // --------------------------------------------------------------------------
  // The manager

  class SimulationManager {
    var stashes: Stashes
    var errored: seq<State>
    const autoDrop: set<Name>
    const saveUnsat: bool
    /** Null when the manager was made with `hierarchy=False`. */
    const hierarchy: StateHierarchy?
    /** The identity the next new history gets. */
    var nextNode: Node

    constructor (autoDrop: set<Name>, saveUnsat: bool, hierarchy: StateHierarchy?, nextNode: Node)
      ensures stashes == map[] && errored == [] && this.nextNode == nextNode
      ensures this.autoDrop == autoDrop + {Drop} && this.saveUnsat == saveUnsat && this.hierarchy == hierarchy
    {
      stashes, errored, this.nextNode := map[], [], nextNode;
      this.autoDrop, this.saveUnsat, this.hierarchy := autoDrop + {Drop}, saveUnsat, hierarchy;
    }

    function Kept(name: Name, states: seq<State>): seq<State> { if name in autoDrop then [] else states }

    method StoreStates(stash: Name, states: seq<State>)
      modifies this`stashes
      ensures forall t :: Stash(stashes, t) == Add(Stash(old(stashes), t), t, stash, Kept(stash, states))
      ensures old(stashes).Keys <= stashes.Keys
    {
      if stash !in autoDrop {
        if stash !in stashes { stashes := stashes[stash := []]; }
        stashes := stashes[stash := stashes[stash] + states];
      }
    }

    method ClearStates(stash: Name)
      requires stash in stashes
      modifies this`stashes
      ensures stashes == old(stashes)[stash := []]
    {
      stashes := stashes[stash := []];
    }

    /** One step of a stash. Every other stash keeps its states; every stepped state adds what
        `Handled` and `ErrorsOf` say, in order, unless the stash is dropped automatically. */
    method Step(hooks: Hooks, stash: Name, targetStash: Option<Name>) returns (ok: bool)
      modifies this`stashes, this`errored
      ensures ok <==> stash in old(stashes)
      ensures !ok ==> stashes == old(stashes) && errored == old(errored)
      ensures ok ==>
        var r := Request(stash, if targetStash.Some? then targetStash.value else stash, saveUnsat);
        && errored == old(errored) + ErrorsOfAll(hooks, r, old(stashes)[stash])
        && forall t :: Stash(stashes, t) == StashAfter(autoDrop, hooks, r, old(stashes), t)
    {
      if stash !in stashes { return false; }
      ok := true;
      var r := Request(stash, if targetStash.Some? then targetStash.value else stash, saveUnsat);
      var bucket := StepAll(hooks, r, stashes[stash]);
      ClearStates(stash);
      Distribute(bucket);
    }

    /** The loop over the stepped states. */
    method StepAll(hooks: Hooks, r: Request, states: seq<State>) returns (bucket: Stashes)
      modifies this`errored
      ensures errored == old(errored) + ErrorsOfAll(hooks, r, states)
      ensures forall t :: Stash(bucket, t) == HandledAll(hooks, r, states, t)
    {
      bucket := map[];
      for i := 0 to |states|
        invariant errored == old(errored) + ErrorsOfAll(hooks, r, states[..i])
        invariant forall t :: Stash(bucket, t) == HandledAll(hooks, r, states[..i], t)
      {
        assert states[..i + 1][..i] == states[..i];
        bucket := StepOne(hooks, r, states[i], bucket);
      }
      assert states[..|states|] == states;
    }

    method StepOne(hooks: Hooks, r: Request, state: State, bucket: Stashes) returns (bucket': Stashes)
      modifies this`errored
      ensures errored == old(errored) + ErrorsOf(hooks, r, state)
      ensures forall t :: Stash(bucket', t) == Handled(hooks, r, state, t, Stash(bucket, t))
    {
      var v := hooks.filter(state);
      if v.goto.Some? && v.goto.value != r.stash {
        bucket' := bucket[v.goto.value := Stash(bucket, v.goto.value) + [v.state]];
        return;
      }
      if !hooks.selector(v.state) {
        bucket' := bucket[r.stash := Stash(bucket, r.stash) + [v.state]];
        return;
      }
      var preErrored := |errored|;
      var successors := StepState(hooks, v.state);
      bucket' := Categorize(r, v.state, successors, |errored| == preErrored, bucket);
      forall t { LeftIsPlaced(r, v.state, hooks.successors(v.state), t, Stash(bucket, t)); }
    }

    /** The degenerate cases of a step, and the distribution of the successors. */
    method Categorize(r: Request, state: State, successors: Entries, quiet: bool, bucket: Stashes)
      returns (bucket': Stashes)
      ensures var left := Left(r, successors, quiet);
              forall t :: Stash(bucket', t) ==
                if left.None? then Add(Stash(bucket, t), t, Deadended, [state])
                else Spread(left.value, r.target, t, Stash(bucket, t))
    {
      var entries := successors;
      if !AnyBesidesUnsat(successors) && quiet {
        if !AnyUnsat(successors) {
          bucket' := bucket[Deadended := Stash(bucket, Deadended) + [state]];
          return;
        }
      } else if !r.saveUnsat {
        entries := PopUnsat(successors);
      }
      bucket' := ExtendBucket(entries, r.target, bucket);
    }

    method ExtendBucket(entries: Entries, target: Name, bucket: Stashes) returns (bucket': Stashes)
      ensures forall t :: Stash(bucket', t) == Spread(entries, target, t, Stash(bucket, t))
    {
      bucket' := bucket;
      for i := 0 to |entries|
        invariant bucket' == Extended(bucket, entries[..i], target)
      {
        assert entries[..i + 1][..i] == entries[..i];
        var name := Destination(entries[i], target);
        bucket' := bucket'[name := Stash(bucket', name) + entries[i].states];
      }
      assert entries[..|entries|] == entries;
      forall t { ExtendedIsSpread(bucket, entries, target, t); }
    }

    method StepState(hooks: Hooks, state: State) returns (successors: Entries)
      modifies this`errored
      ensures successors == SuccessorsOf(state, hooks.successors(state))
      ensures errored == old(errored) + if Fails(hooks.successors(state)) then [state] else []
    {
      match hooks.successors(state)
      case Stepped(flat, unsat, unconstrained) =>
        successors := [Entry(None, flat), Entry(Some(Unsat), unsat), Entry(Some(Unconstrained), unconstrained)];
      case Unsatisfiable(lazySolves) =>
        if lazySolves {
          successors := [Entry(Some(Pruned), [state])];
        } else {
          errored := errored + [state];
          successors := [];
        }
      case SolverInterrupt => successors := [Entry(Some(Interrupted), [state])];
      case Errored =>
        errored := errored + [state];
        successors := [];
    }

    method Distribute(bucket: Stashes)
      modifies this`stashes
      ensures forall t :: Stash(stashes, t) == Stash(old(stashes), t) + Kept(t, Stash(bucket, t))
    {
      var todo := bucket.Keys;
      while todo != {}
        invariant todo <= bucket.Keys
        invariant forall t :: Stash(stashes, t) ==
                    Stash(old(stashes), t) + (if t in todo then [] else Kept(t, Stash(bucket, t)))
      {
        var name :| name in todo;
        StoreStates(name, bucket[name]);
        todo := todo - {name};
      }
    }

    // ------------------------------------------------------------------------
    // Moving and merging

    /** `move`: the states of `fromStash` that pass the test go to `toStash`. */
    method Move(fromStash: Name, toStash: Name, test: State -> bool) returns (ok: bool)
      modifies this`stashes
      ensures ok <==> fromStash in old(stashes)
      ensures !ok ==> stashes == old(stashes)
      ensures ok ==>
        var keep := Kept(fromStash, Matching(old(stashes)[fromStash], test, false));
        var split := Kept(toStash, Matching(old(stashes)[fromStash], test, true));
        forall t :: Stash(stashes, t) ==
          Add(Add(if t == fromStash then [] else Stash(old(stashes), t), t, fromStash, keep), t, toStash, split)
    {
      if fromStash !in stashes { return false; }
      var states := stashes[fromStash];
      var keep, split := Matching(states, test, false), Matching(states, test, true);
      ClearStates(fromStash);
      StoreStates(fromStash, keep);
      StoreStates(toStash, split);
      return true;
    }

    ghost predicate HierarchyValid()
      reads this, if hierarchy == null then {} else {hierarchy}
    {
      hierarchy != null ==>
        hierarchy.graph.Valid() && Acyclic(hierarchy.graph) && forall n :: n in hierarchy.graph.nodes ==> n < nextNode
    }

    /** `_merge_states`: merge the most mergeable states first, then the result with the others. Every
        state is folded in exactly once. Without a hierarchy the merge of two states always fails. */
    method MergeStates(lib: Library, mergeable: seq<State> -> bool, states: seq<State>) returns (outcome: MergeOutcome)
      requires |states| > 0 && Lawful(lib) && HierarchyValid()
      requires forall s :: s in states ==> s.history < nextNode
      modifies this`nextNode, if hierarchy == null then {} else {hierarchy}
      ensures HierarchyValid() && nextNode >= old(nextNode)
      ensures outcome.MergedTo? ==>
        && outcome.state.Merged? && outcome.state.history < nextNode
        && Leaves(outcome.state) == LeavesAll(states) && MadeOf(outcome.state, states)
      ensures outcome.NoCommonHistory? <==> hierarchy == null && |states| > 1
      ensures outcome.MergeError? ==> |states| == 1 || Refused(mergeable, states)
      ensures hierarchy != null && |states| > 1 && AlwaysMergeable(mergeable) ==> outcome.MergedTo?
      decreases |states|
    {
      var optimal, others, parent, found := Choose(lib, states);
      if !found { return NoCommonHistory; }
      if |optimal| < 2 || !mergeable(optimal) {
        MembersAreMadeOf(optimal, states);
        return MergeError;
      }
      var m := AddMerged(optimal, parent);
      MergeProgress(optimal, others, states, m);
      if |others| > 0 {
        outcome := MergeStates(lib, mergeable, others + [m]);
        if outcome.MergedTo? { MadeOfTransitive(outcome.state, others + [m], states); }
        if outcome.MergeError? { RefusedBefore(mergeable, others + [m], states); }
      } else {
        outcome := MergedTo(m);
      }
    }

    /** The states to merge now, those to merge later, and the history to hang the result under: the
        common one, or the first state's when no two states share one and all are merged at once. */
    method Choose(lib: Library, states: seq<State>)
      returns (optimal: seq<State>, others: seq<State>, parent: Node, found: bool)
      requires |states| > 0 && Lawful(lib) && HierarchyValid()
      requires forall s :: s in states ==> s.history < nextNode
      ensures found <==> hierarchy != null || |states| == 1
      ensures found ==>
        && parent < nextNode && |optimal| + |others| == |states| && (others == [] || |optimal| > 1)
        && LeavesAll(optimal) + LeavesAll(others) == LeavesAll(states)
        && (forall s :: s in optimal || s in others ==> s in states)
    {
      var ancestor: Option<Node> := None;
      optimal, others, found := states, [], true;
      if hierarchy != null {
        optimal, ancestor, others := hierarchy.MostMergeable(lib, states);
        if ancestor.Some? {
          var below := HistoriesBelow(lib, hierarchy.graph, states, ancestor.value);
          LeavesPartition(states, below);
          BelowIsNode(lib, hierarchy.graph, states, ancestor.value);
          PartitionMembers(optimal, others, states);
        }
      }
      if |optimal| >= 2 {
        parent := states[0].history;
        if ancestor.None? { found := false; return; }
        parent := ancestor.value;
      } else {
        optimal, others, parent := states, [], states[0].history;
      }
    }

    /** `merge` without pruning. States with equal keys are merged; the others, and groups whose merge
        fails, stay. The stash holds the same original states as before. */
    method Merge(lib: Library, mergeable: seq<State> -> bool, key: State -> nat, stash: Name) returns (ok: bool)
      requires stash in stashes && stash !in autoDrop && Lawful(lib) && HierarchyValid()
      requires forall s :: s in stashes[stash] ==> s.history < nextNode
      modifies this`stashes, this`nextNode, if hierarchy == null then {} else {hierarchy}
      ensures ok <==> hierarchy != null || AllAlone(old(stashes)[stash], key)
      ensures !ok ==> stashes == old(stashes)
      ensures ok ==>
        && stash in stashes && LeavesAll(stashes[stash]) == LeavesAll(old(stashes)[stash])
        && (forall t :: t != stash ==> Stash(stashes, t) == Stash(old(stashes), t))
        && (forall s :: s in stashes[stash] ==> MadeOfGroup(s, old(stashes)[stash], key))
        && MergedByKey(mergeable, stashes[stash], old(stashes)[stash], key)
        && (AlwaysMergeable(mergeable) ==> exists keys :: OnePerKey(stashes[stash], old(stashes)[stash], key, keys))
    {
      var states := stashes[stash];
      var merged;
      ok, merged := MergeByKey(lib, mergeable, key, states);
      if ok { ReplaceStates(stash, merged); }
    }

    method MergeByKey(lib: Library, mergeable: seq<State> -> bool, key: State -> nat, states: seq<State>)
      returns (ok: bool, merged: seq<State>)
      requires Lawful(lib) && HierarchyValid() && forall s :: s in states ==> s.history < nextNode
      modifies this`nextNode, if hierarchy == null then {} else {hierarchy}
      ensures ok <==> hierarchy != null || AllAlone(states, key)
      ensures ok ==> LeavesAll(merged) == LeavesAll(states) && MergedByKey(mergeable, merged, states, key)
      ensures ok ==> forall s :: s in merged ==> MadeOfGroup(s, states, key)
      ensures ok && AlwaysMergeable(mergeable) ==> exists keys :: OnePerKey(merged, states, key, keys)
    {
      var groups, singles, alone, shared := Group(states, key);
      ok, merged := MergeGroups(lib, mergeable, key, states, groups, singles, alone, shared);
      if ok { MergedStash(mergeable, merged, states, key); }
    }

    method ReplaceStates(stash: Name, states: seq<State>)
      requires stash in stashes && stash !in autoDrop
      modifies this`stashes
      ensures stash in stashes && stashes[stash] == states
      ensures forall t :: t != stash ==> Stash(stashes, t) == Stash(old(stashes), t)
    {
      ClearStates(stash);
      StoreStates(stash, states);
      assert Stash(stashes, stash) == [] + states;
    }

    method MergeGroups(lib: Library, mergeable: seq<State> -> bool, ghost key: State -> nat, ghost states: seq<State>,
                       groups: seq<seq<State>>, singles: seq<State>, ghost alone: seq<nat>, ghost shared: seq<nat>)
      returns (ok: bool, merged: seq<State>)
      requires Lawful(lib) && HierarchyValid() && forall s :: s in states ==> s.history < nextNode
      requires Grouped(states, key, groups, singles, alone, shared) && EveryKey(states, key, alone + shared)
      modifies this`nextNode, if hierarchy == null then {} else {hierarchy}
      ensures ok <==> hierarchy != null || groups == []
      ensures ok ==> LeavesAll(merged) == LeavesAll(singles) + LeavesOfGroups(groups)
      ensures ok ==> MergedByKey(mergeable, merged, states, key)
    {
      merged := singles;
      ghost var pieces: seq<seq<State>> := [];
      for i := 0 to |groups|
        invariant HierarchyValid() && nextNode >= old(nextNode)
        invariant merged == singles + Flat(pieces) && AllPieces(mergeable, pieces, groups[..i])
        invariant hierarchy == null ==> i == 0
      {
        WithKeyMembers(states, key, shared[i]);
        var done, piece := MergeGroup(lib, mergeable, groups[i]);
        if !done { return false, []; }
        merged := merged + piece;
        MorePieces(mergeable, pieces, groups, i, piece, singles);
        pieces := pieces + [piece];
      }
      ok := true;
      PiecesMerged(mergeable, states, key, groups, singles, alone, shared, pieces);
    }

    /** One group: merged, or left as it is when that fails. */
    method MergeGroup(lib: Library, mergeable: seq<State> -> bool, group: seq<State>)
      returns (ok: bool, piece: seq<State>)
      requires |group| > 1 && Lawful(lib) && HierarchyValid() && forall s :: s in group ==> s.history < nextNode
      modifies this`nextNode, if hierarchy == null then {} else {hierarchy}
      ensures HierarchyValid() && nextNode >= old(nextNode)
      ensures ok <==> hierarchy != null
      ensures ok ==> Piece(mergeable, piece, group)
    {
      var outcome := MergeStates(lib, mergeable, group);
      ok := !outcome.NoCommonHistory?;
      piece := if outcome.MergedTo? then [outcome.state] else group;
    }

    method AddMerged(optimal: seq<State>, parent: Node) returns (m: State)
      requires HierarchyValid() && hierarchy != null && parent < nextNode
      modifies this`nextNode, hierarchy
      ensures HierarchyValid() && nextNode == old(nextNode) + 1
      ensures m == Merged(optimal, old(nextNode))
    {
      m := Merged(optimal, nextNode);
      nextNode := nextNode + 1;
      ExtendKeepsAcyclic(hierarchy.graph, m.history, parent);
      hierarchy.AddHistory(m.history, Some(parent));
      assert hierarchy.graph == Extend(old(hierarchy.graph), m.history, parent);
    }
  }

  /** One round of merging: fewer states, made of the same ones. */
  lemma {:induction false} MergeProgress(optimal: seq<State>, others: seq<State>, states: seq<State>, m: State)
    requires m.Merged? && m.parts == optimal && |optimal| > 1 && |optimal| + |others| == |states|
    requires LeavesAll(optimal) + LeavesAll(others) == LeavesAll(states)
    requires forall s :: s in optimal || s in others ==> s in states
    ensures |others + [m]| < |states| && LeavesAll(others + [m]) == LeavesAll(states)
    ensures others == [] ==> Leaves(m) == LeavesAll(states)
    ensures MadeOf(m, states) && forall s :: s in others + [m] ==> MadeOf(s, states)
  {
    LeavesOfSnoc(others, m);
    MembersAreMadeOf(optimal, states);
  }

  lemma {:induction false} PartitionMembers(a: seq<State>, b: seq<State>, c: seq<State>)
    requires multiset(a) + multiset(b) == multiset(c)
    ensures |a| + |b| == |c|
    ensures forall s :: s in a || s in b ==> s in c
  {
    assert |multiset(a)| == |a| && |multiset(b)| == |b| && |multiset(c)| == |c|;
    forall s | s in a || s in b ensures s in c { assert s in multiset(a) + multiset(b); }
  }

  lemma {:induction false} BelowIsNode(lib: Library, g: Graph, states: seq<State>, n: Node)
    requires g.Valid() && Acyclic(g) && Lawful(lib) && |HistoriesBelow(lib, g, states, n)| > 1
    ensures n in g.nodes
  {
    var below := HistoriesBelow(lib, g, states, n);
    if forall h :: h !in below { assert false; }
    var h :| h in below;
    AncestorsAreNodes(g, n, h);
  }

  /** Two states of a manager without a hierarchy. */
  method TwoStatesFail(lib: Library) returns (manager: SimulationManager, states: seq<State>, outcome: MergeOutcome)
    requires Lawful(lib)
    ensures manager.hierarchy == null && |states| == 2 && outcome == NoCommonHistory
  {
    manager := new SimulationManager({}, false, null, 1);
    states := [Fresh(0, 0), Fresh(1, 0)];
    outcome := manager.MergeStates(lib, s => true, states);
  }
}

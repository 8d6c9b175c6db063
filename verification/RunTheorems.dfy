/** Whole-run consequences of a safe log: without failures the set of nodes that run does
    not depend on the completion order, and under the documented input rules it is all of them. */
module RunTheorems {
  import opened Digraph
  import opened DagValidator
  import opened Scheduler
  import opened RunDag

  /** A finished run in which nothing failed. */
  ghost predicate CleanFinish(dag: TaskDag, slots: nat, log: seq<Event>) {
    && SafeLog(dag, slots, log)
    && InFlight(log) == {}
    && NoFailure(States(log))
    && NothingStartable(dag, States(log))
  }

  ghost function CountIn(deps: seq<string>, S: set<string>): nat {
    if deps == [] then 0
    else CountIn(deps[..|deps| - 1], S) + (if deps[|deps| - 1] in S then 1 else 0)
  }

  /** n may start once the nodes of S have ended well. */
  ghost predicate Startable(n: DagNode, S: set<string>) {
    n.inputFrom == [] || CountIn(n.inputFrom, S) >= Threshold(n)
  }

  ghost predicate StartableIn(dag: TaskDag, id: string, S: set<string>) {
    exists n :: n in dag.nodes && n.id == id && Startable(n, S)
  }

  /** A list of distinct nodes each of which may start once its predecessors in the list ended. */
  ghost predicate Derivation(dag: TaskDag, d: seq<string>) {
    d == [] || (var k := |d| - 1;
                Derivation(dag, d[..k]) && d[k] !in d[..k] && StartableIn(dag, d[k], Elems(d[..k])))
  }

  /** The DAG's own input lists allow all nodes to run, in some order. */
  ghost predicate Runnable(dag: TaskDag) {
    exists d :: Derivation(dag, d) && Elems(d) == NodeIds(dag)
  }

  ghost predicate ClosedUnderStart(dag: TaskDag, S: set<string>) {
    forall n :: n in dag.nodes && Startable(n, S) ==> n.id in S
  }

  lemma {:induction false} CountInGrows(deps: seq<string>, A: set<string>, B: set<string>)
    requires A <= B
    ensures CountIn(deps, A) <= CountIn(deps, B)
  {
    if deps != [] { CountInGrows(deps[..|deps| - 1], A, B); }
  }

  /** Anything derivable lies in every closed set. */
  lemma {:induction false} DerivationInClosed(dag: TaskDag, d: seq<string>, S: set<string>)
    requires Derivation(dag, d) && ClosedUnderStart(dag, S)
    ensures Elems(d) <= S
  {
    if d != [] {
      var k := |d| - 1;
      DerivationInClosed(dag, d[..k], S);
      var n :| n in dag.nodes && n.id == d[k] && Startable(n, Elems(d[..k]));
      CountInGrows(n.inputFrom, Elems(d[..k]), S);
      assert d == d[..k] + [d[k]];
    }
  }

  lemma {:induction false} CountsAgree(deps: seq<string>, states: StateMap)
    requires NoFailure(states)
    ensures CountDeps(deps, states, SUCCESS) == CountIn(deps, states.Keys)
  {
    if deps != [] { CountsAgree(deps[..|deps| - 1], states); }
  }

  ghost function Records(log: seq<Event>): seq<string> {
    if log == [] then []
    else
      var k := |log| - 1;
      Records(log[..k]) + (if log[k].Recorded? then [log[k].id] else [])
  }

  lemma NoFailureBefore(log: seq<Event>)
    requires log != [] && NoFailure(States(log))
    requires log[|log| - 1].Recorded? ==> log[|log| - 1].id !in States(log[..|log| - 1])
    ensures NoFailure(States(log[..|log| - 1]))
  {
    var k := |log| - 1;
    forall id | id in States(log[..k]) ensures States(log[..k])[id] != Failed {
      assert id in States(log);
    }
  }

  /** A running node's threshold was met when it started, and still is. */
  lemma {:induction false} RunningSatisfied(dag: TaskDag, slots: nat, log: seq<Event>, id: string) returns (n: DagNode)
    requires SafeLog(dag, slots, log) && id in InFlight(log)
    ensures n in dag.nodes && n.id == id && Satisfied(n, States(log))
  {
    var k := |log| - 1;
    if log[k] == Launched(id) {
      n :| n in dag.nodes && n.id == id && Satisfied(n, States(log[..k]));
    } else {
      n := RunningSatisfied(dag, slots, log[..k], id);
      assert Extends(States(log[..k]), States(log));
      VerdictsPersist(n, States(log[..k]), States(log));
    }
  }

  lemma RecordExtendsDerivation(dag: TaskDag, slots: nat, log: seq<Event>)
    requires SafeLog(dag, slots, log) && log != [] && log[|log| - 1].Recorded?
    requires NoFailure(States(log)) && NoFailure(States(log[..|log| - 1]))
    requires Derivation(dag, Records(log[..|log| - 1]))
    requires Elems(Records(log[..|log| - 1])) == States(log[..|log| - 1]).Keys
    ensures Derivation(dag, Records(log)) && Elems(Records(log)) == States(log).Keys
  {
    var k := |log| - 1;
    var before, id := log[..k], log[k].id;
    assert States(log)[id] == log[k].state;
    var n := RunningSatisfied(dag, slots, before, id);
    CountsAgree(n.inputFrom, States(before));
    var d := Records(before);
    assert Records(log)[..|d|] == d;
    assert Startable(n, Elems(d));
    assert Elems(d + [id]) == Elems(d) + {id};
  }

  /** In a failure-free log the order in which nodes were recorded is a derivation. */
  lemma {:induction false} CleanLogDerives(dag: TaskDag, slots: nat, log: seq<Event>)
    requires SafeLog(dag, slots, log) && NoFailure(States(log))
    ensures Derivation(dag, Records(log)) && Elems(Records(log)) == States(log).Keys
  {
    if log != [] {
      NoFailureBefore(log);
      CleanLogDerives(dag, slots, log[..|log| - 1]);
      if log[|log| - 1].Recorded? {
        RecordExtendsDerivation(dag, slots, log);
      } else {
        assert Records(log) == Records(log[..|log| - 1]);
      }
    }
  }

  lemma FinishedIsClosed(dag: TaskDag, slots: nat, log: seq<Event>)
    requires CleanFinish(dag, slots, log)
    ensures ClosedUnderStart(dag, States(log).Keys)
  {
    forall n | n in dag.nodes && Startable(n, States(log).Keys) ensures n.id in States(log).Keys {
      CountsAgree(n.inputFrom, States(log));
    }
  }

  /** Two failure-free runs of one DAG, with any slot counts and completion orders, run the
      same set of nodes. */
  lemma SameNodesForEveryOrder(dag: TaskDag, slots1: nat, log1: seq<Event>, slots2: nat, log2: seq<Event>)
    requires CleanFinish(dag, slots1, log1) && CleanFinish(dag, slots2, log2)
    ensures States(log1).Keys == States(log2).Keys
  {
    CleanLogDerives(dag, slots1, log1);
    CleanLogDerives(dag, slots2, log2);
    FinishedIsClosed(dag, slots1, log1);
    FinishedIsClosed(dag, slots2, log2);
    DerivationInClosed(dag, Records(log1), States(log2).Keys);
    DerivationInClosed(dag, Records(log2), States(log1).Keys);
  }

  /** A failure-free run reaches every node exactly when the input lists are runnable. */
  lemma CoversAllIffRunnable(dag: TaskDag, slots: nat, log: seq<Event>)
    requires CleanFinish(dag, slots, log)
    ensures States(log).Keys == NodeIds(dag) <==> Runnable(dag)
  {
    CleanLogDerives(dag, slots, log);
    FinishedIsClosed(dag, slots, log);
    SafeLogBooks(dag, slots, log);
    if Runnable(dag) {
      var d :| Derivation(dag, d) && Elems(d) == NodeIds(dag);
      DerivationInClosed(dag, d, States(log).Keys);
    } else {
      assert Derivation(dag, Records(log));
    }
  }

  /** Every input_from entry is backed by an edge. */
  ghost predicate InputsAreEdges(dag: TaskDag) {
    forall n :: n in dag.nodes ==> forall d :: d in n.inputFrom ==> (d, n.id) in Arcs(dag.edges)
  }

  lemma {:induction false} AllPresentCounts(deps: seq<string>, states: StateMap)
    requires NoFailure(states) && forall d :: d in deps ==> d in states
    ensures CountDeps(deps, states, SUCCESS) == |deps|
  {
    if deps != [] {
      var k := |deps| - 1;
      assert deps == deps[..k] + [deps[k]];
      AllPresentCounts(deps[..k], states);
    }
  }

  /** A node left without a state waits for another one. */
  lemma StrandedWaits(dag: TaskDag, states: StateMap, v: string) returns (d: string)
    requires InputsResolve(dag) && InputsAreEdges(dag) && Feasible(dag)
    requires NoFailure(states) && NothingStartable(dag, states)
    requires v in NodeIds(dag) && v !in states
    ensures d in NodeIds(dag) && d !in states && (d, v) in Arcs(dag.edges)
  {
    var i :| 0 <= i < |dag.nodes| && Ids(dag.nodes)[i] == v;
    var n := dag.nodes[i];
    assert n in dag.nodes && !Satisfied(n, states);
    if forall d :: d in n.inputFrom ==> d in states {
      AllPresentCounts(n.inputFrom, states);
      assert false;
    }
    d :| d in n.inputFrom && d !in states;
  }

  /** Every node of an accepted DAG whose inputs are edges gets a state. */
  lemma CleanFinishCovers(dag: TaskDag, slots: nat, log: seq<Event>)
    requires Acceptable(dag) && InputsAreEdges(dag) && Feasible(dag) && CleanFinish(dag, slots, log)
    ensures States(log).Keys == NodeIds(dag)
  {
    SafeLogBooks(dag, slots, log);
    var S := NodeIds(dag) - States(log).Keys;
    if S != {} {
      forall v | v in S ensures HasPredecessor(S, Arcs(dag.edges), v) {
        var d := StrandedWaits(dag, States(log), v);
        assert d in S;
      }
      NoSourceHasCycle(S, Arcs(dag.edges));
    }
  }

  ghost predicate RanExactlyOnce(log: seq<Event>, id: string) {
    exists i, j :: 0 <= i < j < |log| && log[i] == Launched(id) && log[j].Recorded? && log[j].id == id
                   && forall k :: 0 <= k < |log| && log[k].id == id ==> k == i || k == j
  }

  lemma {:induction false} FindRecord(log: seq<Event>, id: string) returns (j: nat)
    requires id in States(log)
    ensures j < |log| && log[j].Recorded? && log[j].id == id
  {
    var k := |log| - 1;
    if log[k].Recorded? && log[k].id == id { j := k; } else { j := FindRecord(log[..k], id); }
  }

  lemma {:induction false} FindLaunch(log: seq<Event>, id: string) returns (i: nat)
    requires id in Launches(log)
    ensures i < |log| && log[i] == Launched(id)
  {
    var k := |log| - 1;
    if log[k] == Launched(id) { i := k; } else { i := FindLaunch(log[..k], id); }
  }

  lemma {:induction false} StateStays(dag: TaskDag, slots: nat, log: seq<Event>, j: nat)
    requires SafeLog(dag, slots, log) && j < |log| && log[j].Recorded?
    ensures log[j].id in States(log) && States(log)[log[j].id] == log[j].state
  {
    if j < |log| - 1 { StateStays(dag, slots, log[..|log| - 1], j); }
  }

  lemma RecordedNodeRanOnce(dag: TaskDag, slots: nat, log: seq<Event>, id: string)
    requires SafeLog(dag, slots, log) && NoFailure(States(log)) && id in States(log)
    ensures RanExactlyOnce(log, id)
  {
    var j := FindRecord(log, id);
    StateStays(dag, slots, log, j);
    SafeAt(dag, slots, log, j);
    SafeLogBooksAt(dag, slots, log, j);
    var i := FindLaunch(log[..j], id);
    assert log[i] == Launched(id);
    forall k | 0 <= k < |log| && log[k].id == id ensures k == i || k == j {
      if k < i { OncePerNode(dag, slots, log, k, i); }
      if i < k < j { OncePerNode(dag, slots, log, i, k); OncePerNode(dag, slots, log, k, j); }
      if j < k { OncePerNode(dag, slots, log, j, k); }
    }
  }

  lemma {:induction false} SafeLogBooksAt(dag: TaskDag, slots: nat, log: seq<Event>, j: nat)
    requires SafeLog(dag, slots, log) && j <= |log|
    ensures Books(dag, slots, log[..j])
  {
    if j == |log| {
      SafeLogBooks(dag, slots, log);
      assert log[..j] == log;
    } else {
      SafeLogBooksAt(dag, slots, log[..|log| - 1], j);
      assert log[..|log| - 1][..j] == log[..j];
    }
  }

  /** Scheduler progress: in an accepted DAG whose inputs are edges and whose thresholds are
      feasible, a failure-free run launches and records every node exactly once. */
  lemma EveryNodeRunsExactlyOnce(dag: TaskDag, slots: nat, log: seq<Event>)
    requires Acceptable(dag) && InputsAreEdges(dag) && Feasible(dag) && CleanFinish(dag, slots, log)
    ensures States(log).Keys == NodeIds(dag)
    ensures forall id :: id in NodeIds(dag) ==> RanExactlyOnce(log, id)
  {
    CleanFinishCovers(dag, slots, log);
    forall id | id in NodeIds(dag) ensures RanExactlyOnce(log, id) {
      RecordedNodeRanOnce(dag, slots, log, id);
    }
  }

  /** The scheduler on a validated DAG under a clean environment, end to end. */
  method RunValidated(dag: TaskDag, slots: nat, env: Environment)
    returns (outcome: Outcome, states: StateMap, ghost log: seq<Event>)
    requires Acceptable(dag) && InputsAreEdges(dag) && Feasible(dag)
    requires slots > 0 && Delivers(env) && Clean(env)
    ensures outcome == Succeeded && states.Keys == NodeIds(dag) && NoFailure(states)
    ensures forall id :: id in NodeIds(dag) ==> RanExactlyOnce(log, id)
  {
    outcome, states, log := Run(dag, slots, env);
    EveryNodeRunsExactlyOnce(dag, slots, log);
  }

  /** The edge condition matters: this DAG is accepted, its threshold is feasible, and every
      failure-free run of it ends without having launched its only node. */
  lemma SelfInputStrandsNode(slots: nat, log: seq<Event>)
    ensures Acceptable(STRANDED) && Feasible(STRANDED) && !InputsAreEdges(STRANDED)
    ensures CleanFinish(STRANDED, slots, log) ==> States(log) == map[] && log == []
  {
    var n := STRANDED.nodes[0];
    assert Ids(STRANDED.nodes) == ["a"];
    assert Arcs(STRANDED.edges) == {};
    assert n in STRANDED.nodes && n.inputFrom[0] == "a";
    assert "a" in n.inputFrom && ("a", n.id) !in Arcs(STRANDED.edges);
    NoEdgesNoCycle(STRANDED.edges);
    if CleanFinish(STRANDED, slots, log) {
      CleanLogDerives(STRANDED, slots, log);
      NothingDerivable(STRANDED, Records(log));
      assert States(log).Keys == {};
      NothingLogged(STRANDED, slots, log);
    }
  }

  const STRANDED := TaskDag([DagNode("a", ["a"], "", 0, "")], [])

  /** A log that leaves no state and nothing running is empty. */
  lemma NothingLogged(dag: TaskDag, slots: nat, log: seq<Event>)
    requires SafeLog(dag, slots, log) && States(log) == map[] && InFlight(log) == {}
    ensures log == []
  {
    SafeLogBooks(dag, slots, log);
    if log != [] { EventShows(log); }
  }

  lemma EventShows(log: seq<Event>)
    requires log != []
    ensures var e := log[|log| - 1]; if e.Launched? then e.id in Launches(log) else e.id in States(log)
  {
  }

  /** The run of that DAG reports success, although it launched nothing. */
  method RunStranded(slots: nat, env: Environment) returns (outcome: Outcome, states: StateMap, ghost log: seq<Event>)
    requires slots > 0 && Delivers(env) && Clean(env)
    ensures outcome == Succeeded && states == map[] && log == []
  {
    SelfInputStrandsNode(slots, []);
    outcome, states, log := Run(STRANDED, slots, env);
    SelfInputStrandsNode(slots, log);
  }

  lemma NoEdgesNoCycle(edges: seq<DagEdge>)
    requires edges == []
    ensures Acyclic(Arcs(edges))
  {
    assert forall p: seq<string> :: Cycle(Arcs(edges), p) ==> (p[0], p[1]) in Arcs(edges);
  }

  lemma WaitsForItself(dag: TaskDag, id: string, d: seq<string>)
    requires dag == STRANDED && d == []
    ensures !StartableIn(dag, id, Elems(d))
  {
    assert Elems(d) == {};
    assert CountIn(["a"], {}) == 0;
  }

  lemma {:induction false} NothingDerivable(dag: TaskDag, d: seq<string>)
    requires dag == STRANDED && Derivation(dag, d)
    ensures d == []
  {
    if d != [] {
      NothingDerivable(dag, d[..|d| - 1]);
      WaitsForItself(dag, d[|d| - 1], d[..|d| - 1]);
    }
  }
}

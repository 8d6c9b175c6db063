/** runDag: the K-of-N scheduler of the orchestrator. Worker completions and cancellation
    come from an environment the run has no control over; what a run did is kept as a
    log of launches and recorded node states. */
module Scheduler {
  import opened Common
  import opened Digraph
  import opened DagValidator

  /** The node states a run records. */
  datatype NodeState = Completed | Failed | Skipped

  datatype Completion = Completion(id: string, state: NodeState)

  /** cancelled(i): the context is done when iteration i starts.
      next(i, S): which of the in-flight nodes S reports in iteration i, and how it ended. */
  datatype Environment = Environment(cancelled: nat -> bool, next: (nat, set<string>) -> Completion)

  ghost predicate Delivers(env: Environment) {
    forall i: nat, S: set<string> :: S != {} ==> env.next(i, S).id in S
  }

  /** No cancellation and no failing worker. */
  ghost predicate Clean(env: Environment) {
    && (forall i: nat :: !env.cancelled(i))
    && (forall i: nat, S: set<string> :: env.next(i, S).state != Failed)
  }

  datatype Outcome = Cancelled | NodeFailed(id: string) | EndNodeFailed | Succeeded

  // ---- thresholds ----------------------------------------------------------

  type StateMap = map<string, NodeState>

  const SUCCESS: set<NodeState> := {Completed, Skipped}

  function Threshold(n: DagNode): int {
    if n.minRequired > 0 then AsInt64(n.minRequired) else |n.inputFrom|
  }

  function CountDeps(deps: seq<string>, states: StateMap, wanted: set<NodeState>): nat {
    if deps == [] then 0
    else
      var i := |deps| - 1;
      CountDeps(deps[..i], states, wanted) + (if deps[i] in states && states[deps[i]] in wanted then 1 else 0)
  }

  method CountDependencies(deps: seq<string>, states: StateMap, wanted: set<NodeState>) returns (n: nat)
    ensures n == CountDeps(deps, states, wanted)
  {
    n := 0;
    for i := 0 to |deps|
      invariant n == CountDeps(deps[..i], states, wanted)
    {
      assert deps[..i + 1][..i] == deps[..i];
      if deps[i] in states && states[deps[i]] in wanted {
        n := n + 1;
      }
    }
    assert deps[..|deps|] == deps;
  }

  /** Enough dependencies ended well for n to start. */
  predicate Satisfied(n: DagNode, states: StateMap) {
    n.inputFrom == [] || CountDeps(n.inputFrom, states, SUCCESS) >= Threshold(n)
  }

  /** So many dependencies failed that n can never start. */
  predicate Hopeless(n: DagNode, states: StateMap) {
    n.inputFrom != [] && |n.inputFrom| - CountDeps(n.inputFrom, states, {Failed}) < Threshold(n)
  }

  method AreDepsDone(n: DagNode, states: StateMap) returns (done: bool)
    ensures done <==> Satisfied(n, states) || Hopeless(n, states)
  {
    if |n.inputFrom| == 0 {
      return true;
    }
    var k := if n.minRequired > 0 then AsInt64(n.minRequired) else |n.inputFrom|;
    var success := CountDependencies(n.inputFrom, states, {Completed, Skipped});
    var failed := CountDependencies(n.inputFrom, states, {Failed});
    if success >= k {
      return true;
    }
    if |n.inputFrom| - failed < k {
      return true;
    }
    return false;
  }

  ghost predicate Extends(a: StateMap, b: StateMap) {
    forall id :: id in a ==> id in b && b[id] == a[id]
  }

  lemma {:induction false} CountGrows(deps: seq<string>, a: StateMap, b: StateMap, wanted: set<NodeState>)
    requires Extends(a, b)
    ensures CountDeps(deps, a, wanted) <= CountDeps(deps, b, wanted)
  {
    if deps != [] { CountGrows(deps[..|deps| - 1], a, b, wanted); }
  }

  lemma {:induction false} CountsDisjoint(deps: seq<string>, states: StateMap)
    ensures CountDeps(deps, states, SUCCESS) + CountDeps(deps, states, {Failed}) <= |deps|
  {
    if deps != [] { CountsDisjoint(deps[..|deps| - 1], states); }
  }

  /** A node cannot be both startable and hopeless. */
  lemma NotBoth(n: DagNode, states: StateMap)
    ensures !(Satisfied(n, states) && Hopeless(n, states))
  {
    CountsDisjoint(n.inputFrom, states);
  }

  lemma VerdictsPersist(n: DagNode, a: StateMap, b: StateMap)
    requires Extends(a, b)
    ensures Satisfied(n, a) ==> Satisfied(n, b)
    ensures Hopeless(n, a) ==> Hopeless(n, b)
  {
    CountGrows(n.inputFrom, a, b, SUCCESS);
    CountGrows(n.inputFrom, a, b, {Failed});
  }

  /** The inputs of a list whose nodes are recorded in one of the wanted states. */
  ghost function Matching(deps: seq<string>, states: StateMap, wanted: set<NodeState>): set<nat> {
    set i: nat | i < |deps| && deps[i] in states && states[deps[i]] in wanted
  }

  lemma {:induction false} CountIsMatching(deps: seq<string>, states: StateMap, wanted: set<NodeState>)
    ensures CountDeps(deps, states, wanted) == |Matching(deps, states, wanted)|
  {
    if deps != [] {
      var n := |deps| - 1;
      CountIsMatching(deps[..n], states, wanted);
      var before := Matching(deps[..n], states, wanted);
      assert forall i :: 0 <= i < n ==> deps[..n][i] == deps[i];
      assert Matching(deps, states, wanted) ==
             if deps[n] in states && states[deps[n]] in wanted then before + {n} else before;
    } else {
      assert Matching(deps, states, wanted) == {};
    }
  }

  /** How many inputs of n must end well. */
  ghost predicate Needs(n: DagNode, k: int) {
    if n.minRequired == 0 then k == |n.inputFrom|
    else if n.minRequired < TWO63 then k == n.minRequired
    else k < 0
  }

  /** A node without inputs may always start. Any other may start once k inputs have completed or
      were skipped, and is lost once so many have failed that fewer than k can; k is min_required, or
      all of them if that is 0. */
  lemma KOfN(n: DagNode, states: StateMap, k: int)
    requires Needs(n, k)
    ensures n.inputFrom == [] ==> Satisfied(n, states) && !Hopeless(n, states)
    ensures n.inputFrom != [] ==>
              && (Satisfied(n, states) <==> |Matching(n.inputFrom, states, {Completed, Skipped})| >= k)
              && (Hopeless(n, states) <==> |n.inputFrom| - |Matching(n.inputFrom, states, {Failed})| < k)
  {
    CountIsMatching(n.inputFrom, states, {Completed, Skipped});
    CountIsMatching(n.inputFrom, states, {Failed});
    CountsDisjoint(n.inputFrom, states);
  }

  // ---- logs ----------------------------------------------------------------

  datatype Event = Launched(id: string) | Recorded(id: string, state: NodeState)

  /** The states recorded by a log. */
  ghost function States(log: seq<Event>): StateMap {
    if log == [] then map[]
    else
      var before := States(log[..|log| - 1]);
      match log[|log| - 1]
      case Launched(_) => before
      case Recorded(id, s) => before[id := s]
  }

  /** The nodes a log has launched and not yet recorded. */
  ghost function InFlight(log: seq<Event>): set<string> {
    if log == [] then {}
    else
      var before := InFlight(log[..|log| - 1]);
      match log[|log| - 1]
      case Launched(id) => before + {id}
      case Recorded(id, _) => before - {id}
  }

  /** The nodes a log has launched. */
  ghost function Launches(log: seq<Event>): set<string> {
    if log == [] then {}
    else
      var before := Launches(log[..|log| - 1]);
      match log[|log| - 1]
      case Launched(id) => before + {id}
      case Recorded(_, _) => before
  }

  /** A launch is safe when the node is new, a slot is free and its threshold is met. */
  ghost predicate SafeLaunch(dag: TaskDag, slots: nat, log: seq<Event>, id: string) {
    && id !in Launches(log)
    && id !in States(log)
    && |InFlight(log)| < slots
    && exists n :: n in dag.nodes && n.id == id && Satisfied(n, States(log))
  }

  /** A record is safe when it is the node's first, and it either ends a launch or fails
      a node that was never launched and never can be. */
  ghost predicate SafeRecord(dag: TaskDag, log: seq<Event>, id: string, s: NodeState) {
    && id !in States(log)
    && (|| id in InFlight(log)
        || (s == Failed && id !in Launches(log)
            && exists n :: n in dag.nodes && n.id == id && Hopeless(n, States(log))))
  }

  ghost predicate SafeNext(dag: TaskDag, slots: nat, log: seq<Event>, e: Event) {
    match e
    case Launched(id) => SafeLaunch(dag, slots, log, id)
    case Recorded(id, s) => SafeRecord(dag, log, id, s)
  }

  /** Every event of the log was safe when it happened. */
  ghost predicate SafeLog(dag: TaskDag, slots: nat, log: seq<Event>) {
    log == [] || (var n := |log| - 1; SafeLog(dag, slots, log[..n]) && SafeNext(dag, slots, log[..n], log[n]))
  }

  lemma SafeAppend(dag: TaskDag, slots: nat, log: seq<Event>, e: Event)
    requires SafeLog(dag, slots, log) && SafeNext(dag, slots, log, e)
    ensures SafeLog(dag, slots, log + [e])
  {
    assert (log + [e])[..|log|] == log;
  }

  lemma {:induction false} SafeAt(dag: TaskDag, slots: nat, log: seq<Event>, i: nat)
    requires SafeLog(dag, slots, log) && i < |log|
    ensures SafeNext(dag, slots, log[..i], log[i])
  {
    var n := |log| - 1;
    if i < n {
      SafeAt(dag, slots, log[..n], i);
      assert log[..n][..i] == log[..i];
    }
  }

  lemma AppendFolds(log: seq<Event>, e: Event)
    ensures States(log + [e]) == (if e.Launched? then States(log) else States(log)[e.id := e.state])
    ensures Launches(log + [e]) == (if e.Launched? then Launches(log) + {e.id} else Launches(log))
    ensures InFlight(log + [e]) == (if e.Launched? then InFlight(log) + {e.id} else InFlight(log) - {e.id})
  {
    assert (log + [e])[..|log|] == log;
  }

  lemma NodeIdListed(dag: TaskDag, n: DagNode)
    requires n in dag.nodes
    ensures n.id in NodeIds(dag)
  {
    var i :| 0 <= i < |dag.nodes| && dag.nodes[i] == n;
    assert Ids(dag.nodes)[i] == n.id;
  }

  /** What a log's folds satisfy: running and finished nodes are disjoint sets of DAG
      nodes, at most slots of them run, and the launched nodes are the running ones and
      some of the finished ones. */
  ghost predicate Books(dag: TaskDag, slots: nat, log: seq<Event>) {
    && InFlight(log) !! States(log).Keys
    && |InFlight(log)| <= slots
    && States(log).Keys + InFlight(log) <= NodeIds(dag)
    && InFlight(log) <= Launches(log) <= InFlight(log) + States(log).Keys
  }

  lemma BooksAfterLaunch(dag: TaskDag, slots: nat, log: seq<Event>)
    requires log != [] && log[|log| - 1].Launched?
    requires Books(dag, slots, log[..|log| - 1])
    requires SafeLaunch(dag, slots, log[..|log| - 1], log[|log| - 1].id)
    ensures Books(dag, slots, log)
  {
    var m :| m in dag.nodes && m.id == log[|log| - 1].id;
    NodeIdListed(dag, m);
  }

  lemma BooksAfterRecord(dag: TaskDag, slots: nat, log: seq<Event>)
    requires log != [] && log[|log| - 1].Recorded?
    requires Books(dag, slots, log[..|log| - 1])
    requires SafeRecord(dag, log[..|log| - 1], log[|log| - 1].id, log[|log| - 1].state)
    ensures Books(dag, slots, log)
  {
    var before, id := log[..|log| - 1], log[|log| - 1].id;
    if id !in InFlight(before) {
      var m :| m in dag.nodes && m.id == id;
      NodeIdListed(dag, m);
    }
    SubsetCardinality(InFlight(before) - {id}, InFlight(before));
  }

  lemma {:induction false} SafeLogBooks(dag: TaskDag, slots: nat, log: seq<Event>)
    requires SafeLog(dag, slots, log)
    ensures Books(dag, slots, log)
  {
    if log != [] {
      SafeLogBooks(dag, slots, log[..|log| - 1]);
      if log[|log| - 1].Launched? {
        BooksAfterLaunch(dag, slots, log);
      } else {
        BooksAfterRecord(dag, slots, log);
      }
    }
  }

  /** In a safe log no event occurs twice and no node's state is recorded twice. */
  lemma OncePerNode(dag: TaskDag, slots: nat, log: seq<Event>, i: nat, j: nat)
    requires SafeLog(dag, slots, log) && i < j < |log| && log[i].id == log[j].id
    ensures log[i].Launched? && log[j].Recorded?
  {
    var before, e := log[..j], log[j];
    SafeAt(dag, slots, log, j);
    assert before[i] == log[i];
    EventsStay(before, i);
  }

  lemma {:induction false} EventsStay(log: seq<Event>, i: nat)
    requires i < |log|
    ensures log[i].Recorded? ==> log[i].id in States(log)
    ensures log[i].Launched? ==> log[i].id in Launches(log)
  {
    if i < |log| - 1 {
      EventsStay(log[..|log| - 1], i);
    }
  }
}

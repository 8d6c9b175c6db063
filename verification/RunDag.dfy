/** The scheduling loop itself, and what its logs imply for whole runs. */
module RunDag {
  import opened Common
  import opened Digraph
  import opened DagValidator
  import opened Scheduler
  import opened GraphSearch

  ghost predicate Consistent(dag: TaskDag, slots: nat, log: seq<Event>, states: StateMap, inFlight: set<string>) {
    SafeLog(dag, slots, log) && states == States(log) && inFlight == InFlight(log)
  }

  /** The i-th event reports the end of a launched node. */
  ghost predicate IsCompletion(log: seq<Event>, i: nat)
    requires i < |log|
  {
    log[i].Recorded? && log[i].id in InFlight(log[..i])
  }

  /** How many launched nodes have ended: the number of the round that comes next. */
  ghost function Completions(log: seq<Event>): nat {
    if log == [] then 0
    else Completions(log[..|log| - 1]) + (if IsCompletion(log, |log| - 1) then 1 else 0)
  }

  /** b goes on from a without any node ending. */
  ghost predicate Continues(a: seq<Event>, b: seq<Event>) {
    a <= b && forall i :: |a| <= i < |b| ==> !IsCompletion(b, i)
  }

  lemma ContinuesStep(a: seq<Event>, b: seq<Event>, e: Event)
    requires Continues(a, b) && !(e.Recorded? && e.id in InFlight(b))
    ensures Continues(a, b + [e])
  {
    var c := b + [e];
    assert c[..|b|] == b;
    forall i | |a| <= i < |c| ensures !IsCompletion(c, i) {
      if i < |b| { assert c[..i] == b[..i] && !IsCompletion(b, i); }
    }
  }

  lemma ContinuesTransitive(a: seq<Event>, b: seq<Event>, c: seq<Event>)
    requires Continues(a, b) && Continues(b, c)
    ensures Continues(a, c)
  {
    forall i | |a| <= i < |c| ensures !IsCompletion(c, i) {
      if i < |b| { assert c[..i] == b[..i] && c[i] == b[i] && !IsCompletion(b, i); }
    }
  }

  predicate Idle(n: DagNode, states: StateMap, inFlight: set<string>) {
    n.id !in states && n.id !in inFlight
  }

  /** a is declared before b. */
  ghost predicate Precedes(dag: TaskDag, a: DagNode, b: DagNode) {
    exists i, j :: 0 <= i < j < |dag.nodes| && dag.nodes[i] == a && dag.nodes[j] == b
  }

  ghost predicate Sequential(dag: TaskDag, list: seq<DagNode>) {
    forall i, j :: 0 <= i < j < |list| ==> Precedes(dag, list[i], list[j])
  }

  /** Of all nodes that could be launched, the one with this id is declared first. */
  ghost predicate FirstInTurn(dag: TaskDag, states: StateMap, inFlight: set<string>, id: string) {
    forall n :: n in dag.nodes && Idle(n, states, inFlight) && Satisfied(n, states) && n.id != id ==>
      exists m :: m in dag.nodes && m.id == id && Precedes(dag, m, n)
  }

  /** Nodes are launched in the order of their declaration. */
  ghost predicate InTurn(dag: TaskDag, log: seq<Event>) {
    forall i :: 0 <= i < |log| && log[i].Launched? ==>
      FirstInTurn(dag, States(log[..i]), InFlight(log[..i]), log[i].id)
  }

  lemma InTurnStep(dag: TaskDag, log: seq<Event>, e: Event)
    requires InTurn(dag, log) && (e.Launched? ==> FirstInTurn(dag, States(log), InFlight(log), e.id))
    ensures InTurn(dag, log + [e])
  {
    hide FirstInTurn;
    var more := log + [e];
    assert more[..|log|] == log;
    forall i | 0 <= i < |more| && more[i].Launched?
      ensures FirstInTurn(dag, States(more[..i]), InFlight(more[..i]), more[i].id)
    {
      if i < |log| { assert more[..i] == log[..i]; }
    }
  }

  /** The idle nodes whose fate is decided, in declaration order. */
  method ReadyNodes(dag: TaskDag, states: StateMap, inFlight: set<string>) returns (ready: seq<DagNode>)
    requires DistinctIds(dag)
    ensures Distinct(Ids(ready)) && Sequential(dag, ready)
    ensures forall n :: n in ready <==>
      n in dag.nodes && Idle(n, states, inFlight) && (Satisfied(n, states) || Hopeless(n, states))
  {
    hide Satisfied, Hopeless;
    ready := [];
    for i := 0 to |dag.nodes|
      invariant Distinct(Ids(ready)) && Sequential(dag, ready)
      invariant forall n :: n in ready <==>
        n in dag.nodes[..i] && Idle(n, states, inFlight) && (Satisfied(n, states) || Hopeless(n, states))
    {
      var n := dag.nodes[i];
      assert dag.nodes[..i + 1] == dag.nodes[..i] + [n];
      if n.id in states || n.id in inFlight {
        continue;
      }
      var done := AreDepsDone(n, states);
      if done {
        forall k | 0 <= k < |ready| ensures ready[k].id != n.id && Precedes(dag, ready[k], n) {
          assert ready[k] in dag.nodes[..i];
          var j :| 0 <= j < i && dag.nodes[..i][j] == ready[k];
          assert Ids(dag.nodes)[j] != Ids(dag.nodes)[i];
          assert dag.nodes[j] == ready[k];
        }
        ready := ready + [n];
      }
    }
    assert dag.nodes[..|dag.nodes|] == dag.nodes;
  }

  /** Only failures were added. */
  ghost predicate AddsFailures(a: StateMap, b: StateMap) {
    Extends(a, b) && forall id :: id in b && id !in a ==> b[id] == Failed
  }

  lemma {:induction false} FailuresKeepSuccesses(deps: seq<string>, a: StateMap, b: StateMap)
    requires AddsFailures(a, b)
    ensures CountDeps(deps, a, SUCCESS) == CountDeps(deps, b, SUCCESS)
  {
    if deps != [] { FailuresKeepSuccesses(deps[..|deps| - 1], a, b); }
  }

  lemma FailuresKeepSatisfied(n: DagNode, a: StateMap, b: StateMap)
    requires AddsFailures(a, b)
    ensures Satisfied(n, a) <==> Satisfied(n, b)
  {
    FailuresKeepSuccesses(n.inputFrom, a, b);
  }

  lemma NoFailures(states: StateMap)
    ensures AddsFailures(states, states)
  {
  }

  lemma OneMoreFailure(a: StateMap, b: StateMap, id: string)
    requires AddsFailures(a, b) && id !in b
    ensures AddsFailures(a, b[id := Failed]) && Extends(a, b)
  {
  }

  lemma ContinuesItself(log: seq<Event>)
    ensures Continues(log, log)
  {
  }

  lemma RecordFailure(dag: TaskDag, slots: nat, start: seq<Event>, log: seq<Event>, states: StateMap,
                      inFlight: set<string>, n: DagNode)
    requires Consistent(dag, slots, log, states, inFlight) && Continues(start, log)
    requires n in dag.nodes && Idle(n, states, inFlight) && Hopeless(n, states)
    ensures Consistent(dag, slots, log + [Recorded(n.id, Failed)], states[n.id := Failed], inFlight)
    ensures Continues(start, log + [Recorded(n.id, Failed)])
    ensures InTurn(dag, log) ==> InTurn(dag, log + [Recorded(n.id, Failed)])
  {
    if InTurn(dag, log) { InTurnStep(dag, log, Recorded(n.id, Failed)); }
    ContinuesStep(start, log, Recorded(n.id, Failed));
    SafeLogBooks(dag, slots, log);
    SafeAppend(dag, slots, log, Recorded(n.id, Failed));
    AppendFolds(log, Recorded(n.id, Failed));
  }

  lemma RecordLaunch(dag: TaskDag, slots: nat, start: seq<Event>, log: seq<Event>, states: StateMap,
                     inFlight: set<string>, n: DagNode)
    requires Consistent(dag, slots, log, states, inFlight) && Continues(start, log)
    requires n in dag.nodes && Idle(n, states, inFlight) && Satisfied(n, states) && |inFlight| < slots
    requires InTurn(dag, log) && FirstInTurn(dag, states, inFlight, n.id)
    ensures Consistent(dag, slots, log + [Launched(n.id)], states, inFlight + {n.id})
    ensures Continues(start, log + [Launched(n.id)]) && InTurn(dag, log + [Launched(n.id)])
  {
    InTurnStep(dag, log, Launched(n.id));
    ContinuesStep(start, log, Launched(n.id));
    SafeLogBooks(dag, slots, log);
    SafeAppend(dag, slots, log, Launched(n.id));
    AppendFolds(log, Launched(n.id));
  }

  lemma RecordCompletion(dag: TaskDag, slots: nat, log: seq<Event>, states: StateMap, inFlight: set<string>,
                         id: string, s: NodeState)
    requires Consistent(dag, slots, log, states, inFlight) && id in inFlight
    ensures Consistent(dag, slots, log + [Recorded(id, s)], states[id := s], inFlight - {id})
    ensures id !in states && id in Launches(log)
  {
    SafeLogBooks(dag, slots, log);
    SafeAppend(dag, slots, log, Recorded(id, s));
    AppendFolds(log, Recorded(id, s));
  }

  method BelowThreshold(n: DagNode, states: StateMap) returns (below: bool)
    ensures below <==> !Satisfied(n, states)
  {
    if |n.inputFrom| == 0 {
      return false;
    }
    var k := if n.minRequired > 0 then AsInt64(n.minRequired) else |n.inputFrom|;
    var success := CountDependencies(n.inputFrom, states, {Completed, Skipped});
    return success < k;
  }

  /** The K-of-N filter: ready nodes below their threshold fail, the others may launch. */
  method FailHopeless(dag: TaskDag, ghost slots: nat, ready: seq<DagNode>, states0: StateMap,
                      ghost inFlight: set<string>, ghost log0: seq<Event>)
    returns (launchable: seq<DagNode>, states: StateMap, ghost log: seq<Event>)
    requires Consistent(dag, slots, log0, states0, inFlight) && InTurn(dag, log0)
    requires Distinct(Ids(ready)) && Sequential(dag, ready)
    requires forall n :: n in ready ==>
      n in dag.nodes && Idle(n, states0, inFlight) && (Satisfied(n, states0) || Hopeless(n, states0))
    ensures Consistent(dag, slots, log, states, inFlight) && Continues(log0, log) && InTurn(dag, log)
    ensures AddsFailures(states0, states)
    ensures Distinct(Ids(launchable)) && Sequential(dag, launchable)
    ensures forall n :: n in launchable ==> n in ready && Idle(n, states, inFlight) && Satisfied(n, states)
    ensures forall n :: n in ready && Satisfied(n, states0) ==> n in launchable
    ensures forall n :: n in ready && !Satisfied(n, states0) ==> n.id in states && states[n.id] == Failed
    ensures (forall n :: n in ready ==> Satisfied(n, states0)) ==> states == states0
  {
    hide Satisfied, Hopeless, Consistent, Continues, InTurn, Precedes, AddsFailures;
    ContinuesItself(log0);
    NoFailures(states0);
    launchable, states, log := [], states0, log0;
    assert forall k :: 0 <= k < |ready| ==> ready[k] in ready;
    for i := 0 to |ready|
      invariant Consistent(dag, slots, log, states, inFlight) && Continues(log0, log) && InTurn(dag, log)
      invariant AddsFailures(states0, states)
      invariant Distinct(Ids(launchable)) && Sequential(dag, launchable)
      invariant forall n :: n in launchable ==> n in ready[..i] && Satisfied(n, states0) && n.id !in states
      invariant forall n :: n in ready[..i] && Satisfied(n, states0) ==> n in launchable
      invariant forall n :: n in ready[..i] && !Satisfied(n, states0) ==> n.id in states && states[n.id] == Failed
      invariant forall k :: i <= k < |ready| ==> ready[k].id !in states
      invariant (forall n :: n in ready ==> Satisfied(n, states0)) ==> states == states0
    {
      var n := ready[i];
      assert ready[..i + 1] == ready[..i] + [n];
      FailuresKeepSatisfied(n, states0, states);
      NewToList(ready, i, launchable);
      var below := BelowThreshold(n, states);
      if below {
        OneMoreFailure(states0, states, n.id);
        VerdictsPersist(n, states0, states);
        RecordFailure(dag, slots, log0, log, states, inFlight, n);
        states := states[n.id := Failed];
        log := log + [Recorded(n.id, Failed)];
        assert forall j :: i < j < |ready| ==> Ids(ready)[j] != Ids(ready)[i];
      } else {
        launchable := launchable + [n];
      }
    }
    assert ready[..|ready|] == ready;
    forall n | n in launchable ensures Satisfied(n, states) {
      FailuresKeepSatisfied(n, states0, states);
    }
  }

  lemma NewToList(ready: seq<DagNode>, i: nat, list: seq<DagNode>)
    requires i < |ready| && Distinct(Ids(ready)) && Distinct(Ids(list))
    requires forall n :: n in list ==> n in ready[..i]
    ensures forall n :: n in list ==> n.id != ready[i].id
    ensures Distinct(Ids(list + [ready[i]]))
  {
    forall n | n in list ensures n.id != ready[i].id {
      var j :| 0 <= j < i && ready[..i][j] == n;
      assert Ids(ready)[j] != Ids(ready)[i];
    }
  }

  lemma NextInTurn(dag: TaskDag, list: seq<DagNode>, i: nat, states: StateMap, inFlight0: set<string>,
                   inFlight: set<string>)
    requires i < |list| && Sequential(dag, list) && inFlight0 <= inFlight
    requires forall n :: n in list <==> n in dag.nodes && Idle(n, states, inFlight0) && Satisfied(n, states)
    requires forall k :: 0 <= k < i ==> list[k].id in inFlight
    ensures FirstInTurn(dag, states, inFlight, list[i].id)
  {
    hide Satisfied, Precedes;
    assert list[i] in list;
    forall n | n in dag.nodes && Idle(n, states, inFlight) && Satisfied(n, states) && n.id != list[i].id
      ensures exists m :: m in dag.nodes && m.id == list[i].id && Precedes(dag, m, n)
    {
      assert n in list;
      var k :| 0 <= k < |list| && list[k] == n;
      assert i < k;
      assert Precedes(dag, list[i], list[k]);
    }
  }

  /** Launch in order while a slot is free. */
  method LaunchReady(dag: TaskDag, slots: nat, launchable: seq<DagNode>, states: StateMap,
                     inFlight0: set<string>, ghost log0: seq<Event>)
    returns (inFlight: set<string>, ghost log: seq<Event>)
    requires Consistent(dag, slots, log0, states, inFlight0) && InTurn(dag, log0)
    requires Distinct(Ids(launchable)) && Sequential(dag, launchable)
    requires forall n :: n in launchable <==> n in dag.nodes && Idle(n, states, inFlight0) && Satisfied(n, states)
    ensures Consistent(dag, slots, log, states, inFlight) && Continues(log0, log) && InTurn(dag, log)
    ensures inFlight0 <= inFlight <= inFlight0 + Elems(Ids(launchable))
    ensures |inFlight| >= slots || forall n :: n in launchable ==> n.id in inFlight
    ensures launchable != [] && slots > 0 ==> inFlight != {}
  {
    hide Satisfied, Consistent, Continues, InTurn, FirstInTurn, Sequential;
    ContinuesItself(log0);
    inFlight, log := inFlight0, log0;
    assert forall k :: 0 <= k < |launchable| ==> launchable[k] in launchable;
    for i := 0 to |launchable|
      invariant Consistent(dag, slots, log, states, inFlight) && Continues(log0, log) && InTurn(dag, log)
      invariant inFlight0 <= inFlight <= inFlight0 + Elems(Ids(launchable))
      invariant forall k :: 0 <= k < i ==> launchable[k].id in inFlight
      invariant i > 0 ==> inFlight != {}
      invariant forall k :: i <= k < |launchable| ==> launchable[k].id !in inFlight
    {
      if |inFlight| >= slots {
        break;
      }
      var node := launchable[i];
      assert Ids(launchable)[i] == node.id;
      NextInTurn(dag, launchable, i, states, inFlight0, inFlight);
      RecordLaunch(dag, slots, log0, log, states, inFlight, node);
      inFlight := inFlight + {node.id};
      log := log + [Launched(node.id)];
      assert forall k :: i < k < |launchable| ==> Ids(launchable)[k] != Ids(launchable)[i];
    }
  }

  // ---- end nodes and aborts ------------------------------------------------

  method EndNodes(dag: TaskDag) returns (ends: seq<DagNode>)
    ensures forall n :: n in ends <==> n in dag.nodes && IsEnd(dag, n.id)
  {
    var hasOutgoing := {};
    for i := 0 to |dag.edges|
      invariant hasOutgoing == set e | e in dag.edges[..i] :: e.from
    {
      assert dag.edges[..i + 1] == dag.edges[..i] + [dag.edges[i]];
      hasOutgoing := hasOutgoing + {dag.edges[i].from};
    }
    assert dag.edges[..|dag.edges|] == dag.edges;
    ends := [];
    for i := 0 to |dag.nodes|
      invariant forall n :: n in ends <==> n in dag.nodes[..i] && IsEnd(dag, n.id)
    {
      assert dag.nodes[..i + 1] == dag.nodes[..i] + [dag.nodes[i]];
      if dag.nodes[i].id !in hasOutgoing {
        ends := ends + [dag.nodes[i]];
      }
    }
    assert dag.nodes[..|dag.nodes|] == dag.nodes;
  }

  predicate CanStillSucceed(n: DagNode, states: StateMap) {
    n.inputFrom != [] && !Hopeless(n, states)
  }

  /** The failure of id dooms an end node: the end is downstream of id and below its threshold. */
  ghost predicate DoomsAnEnd(dag: TaskDag, id: string, states: StateMap) {
    exists n :: n in dag.nodes && IsEnd(dag, n.id) && Reaches(Arcs(dag.edges), id, n.id) && !CanStillSucceed(n, states)
  }

  method MustAbort(dag: TaskDag, ends: seq<DagNode>, id: string, states: StateMap) returns (abort: bool)
    requires forall n :: n in ends <==> n in dag.nodes && IsEnd(dag, n.id)
    ensures abort <==> DoomsAnEnd(dag, id, states)
  {
    for i := 0 to |ends|
      invariant forall k :: 0 <= k < i ==> !Reaches(Arcs(dag.edges), id, ends[k].id) || CanStillSucceed(ends[k], states)
    {
      var reaches := CanReachEndNode(ends[i].id, id, dag.edges);
      if reaches && !CanStillSucceed(ends[i], states) {
        assert ends[i] in ends;
        return true;
      }
    }
    return false;
  }

  ghost predicate AnEndFailed(dag: TaskDag, states: StateMap) {
    exists n :: n in dag.nodes && IsEnd(dag, n.id) && n.id in states && states[n.id] == Failed
  }

  method EndFailed(dag: TaskDag, ends: seq<DagNode>, states: StateMap) returns (failed: bool)
    requires forall n :: n in ends <==> n in dag.nodes && IsEnd(dag, n.id)
    ensures failed <==> AnEndFailed(dag, states)
  {
    for i := 0 to |ends|
      invariant forall k :: 0 <= k < i ==> !(ends[k].id in states && states[ends[k].id] == Failed)
    {
      if ends[i].id in states && states[ends[i].id] == Failed {
        assert ends[i] in ends;
        return true;
      }
    }
    return false;
  }

  // ---- the loop ------------------------------------------------------------

  /** Every slot is taken, or nothing is left to launch. */
  ghost predicate Saturated(dag: TaskDag, slots: nat, states: StateMap, inFlight: set<string>) {
    |inFlight| >= slots || forall n :: n in dag.nodes && Idle(n, states, inFlight) ==> !Satisfied(n, states)
  }

  /** No node without a state could still be started. */
  ghost predicate NothingStartable(dag: TaskDag, states: StateMap) {
    forall n :: n in dag.nodes && n.id !in states ==> !Satisfied(n, states)
  }

  ghost predicate NoFailure(states: StateMap) {
    forall id :: id in states ==> states[id] != Failed
  }

  /** Every threshold can be met by the node's own dependency list. */
  ghost predicate Feasible(dag: TaskDag) {
    forall n :: n in dag.nodes && n.inputFrom != [] ==> Threshold(n) <= |n.inputFrom|
  }

  lemma {:induction false} NoFailureCounts(deps: seq<string>, states: StateMap)
    requires NoFailure(states)
    ensures CountDeps(deps, states, {Failed}) == 0
  {
    if deps != [] { NoFailureCounts(deps[..|deps| - 1], states); }
  }

  lemma NoneHopeless(dag: TaskDag, states: StateMap)
    requires Feasible(dag) && NoFailure(states)
    ensures forall n :: n in dag.nodes ==> !Hopeless(n, states)
  {
    forall n | n in dag.nodes ensures !Hopeless(n, states) {
      NoFailureCounts(n.inputFrom, states);
    }
  }

  /** One round of the loop up to the wait: fail the hopeless nodes, launch the others. */
  method Dispatch(dag: TaskDag, slots: nat, states0: StateMap, inFlight0: set<string>, ghost log0: seq<Event>)
    returns (states: StateMap, inFlight: set<string>, ghost log: seq<Event>)
    requires DistinctIds(dag) && slots > 0
    requires Consistent(dag, slots, log0, states0, inFlight0) && InTurn(dag, log0)
    ensures Consistent(dag, slots, log, states, inFlight) && Continues(log0, log) && InTurn(dag, log)
    ensures AddsFailures(states0, states)
    ensures Saturated(dag, slots, states, inFlight)
    ensures inFlight == {} ==> NothingStartable(dag, states)
    ensures Feasible(dag) && NoFailure(states0) ==> states == states0
  {
    hide Consistent, Continues, Satisfied, Hopeless, InTurn, Sequential;
    var ready := ReadyNodes(dag, states0, inFlight0);
    var launchable;
    ghost var failed;
    launchable, states, failed := FailHopeless(dag, slots, ready, states0, inFlight0, log0);
    forall n | n in dag.nodes && Idle(n, states, inFlight0) && Satisfied(n, states) ensures n in launchable {
      FailuresKeepSatisfied(n, states0, states);
    }
    inFlight, log := LaunchReady(dag, slots, launchable, states, inFlight0, failed);
    ContinuesTransitive(log0, failed, log);
    forall n | n in dag.nodes && Idle(n, states, inFlight) && Satisfied(n, states) ensures |inFlight| >= slots {
      FailuresKeepSatisfied(n, states0, states);
    }
    if Feasible(dag) && NoFailure(states0) {
      NoneHopeless(dag, states0);
    }
  }

  lemma FinishedCount(dag: TaskDag, slots: nat, log: seq<Event>)
    requires SafeLog(dag, slots, log) && DistinctIds(dag)
    ensures |States(log)| <= |dag.nodes|
    ensures |States(log)| == |dag.nodes| ==> States(log).Keys == NodeIds(dag) && InFlight(log) == {}
  {
    SafeLogBooks(dag, slots, log);
    DistinctCardinality(Ids(dag.nodes));
    SubsetCardinality(States(log).Keys, NodeIds(dag));
    assert |States(log)| == |States(log).Keys|;
  }

  lemma AllFinishedNothingStartable(dag: TaskDag, states: StateMap)
    requires states.Keys == NodeIds(dag)
    ensures NothingStartable(dag, states)
  {
    forall n | n in dag.nodes ensures n.id in states { NodeIdListed(dag, n); }
  }

  // ---- what the environment makes of a run ---------------------------------

  /** The event happens in a round that was not cancelled; a node that ends does so as the environment
      reports it, at a moment when the scheduler has launched all it can. */
  ghost predicate DrivenNext(dag: TaskDag, slots: nat, env: Environment, log: seq<Event>, e: Event) {
    && !env.cancelled(Completions(log))
    && (e.Recorded? && e.id in InFlight(log) ==>
          && env.next(Completions(log), InFlight(log)) == Completion(e.id, e.state)
          && Saturated(dag, slots, States(log), InFlight(log)))
  }

  ghost predicate Driven(dag: TaskDag, slots: nat, env: Environment, log: seq<Event>) {
    forall i :: 0 <= i < |log| ==> DrivenNext(dag, slots, env, log[..i], log[i])
  }

  /** The i-th event is the failure of a launched node that dooms an end node. */
  ghost predicate DoomedAt(dag: TaskDag, log: seq<Event>, i: nat)
    requires i < |log|
  {
    IsCompletion(log, i) && log[i].state == Failed && DoomsAnEnd(dag, log[i].id, States(log[..i + 1]))
  }

  ghost predicate NeverDoomed(dag: TaskDag, log: seq<Event>) {
    forall i :: 0 <= i < |log| ==> !DoomedAt(dag, log, i)
  }

  lemma {:induction false} SameCompletions(a: seq<Event>, b: seq<Event>)
    requires Continues(a, b)
    ensures Completions(a) == Completions(b)
    decreases |b|
  {
    if |a| < |b| {
      var m := |b| - 1;
      assert !IsCompletion(b, m);
      forall i | |a| <= i < m ensures !IsCompletion(b[..m], i) {
        assert b[..m][..i] == b[..i] && !IsCompletion(b, i);
      }
      SameCompletions(a, b[..m]);
    } else {
      assert a == b;
    }
  }

  lemma DispatchDriven(dag: TaskDag, slots: nat, env: Environment, a: seq<Event>, b: seq<Event>)
    requires Driven(dag, slots, env, a) && NeverDoomed(dag, a) && Continues(a, b) && !env.cancelled(Completions(a))
    ensures Driven(dag, slots, env, b) && NeverDoomed(dag, b) && Completions(b) == Completions(a)
  {
    SameCompletions(a, b);
    forall i | 0 <= i < |b| ensures DrivenNext(dag, slots, env, b[..i], b[i]) && !DoomedAt(dag, b, i) {
      if i < |a| {
        assert b[..i] == a[..i] && b[..i + 1] == a[..i + 1] && b[i] == a[i];
        assert DrivenNext(dag, slots, env, a[..i], a[i]) && !DoomedAt(dag, a, i);
      } else {
        assert !IsCompletion(b, i);
        ContinuesPrefix(a, b, i);
        SameCompletions(a, b[..i]);
      }
    }
  }

  lemma ContinuesPrefix(a: seq<Event>, b: seq<Event>, i: nat)
    requires Continues(a, b) && |a| <= i <= |b|
    ensures Continues(a, b[..i])
  {
    forall k | |a| <= k < i ensures !IsCompletion(b[..i], k) {
      assert b[..i][..k] == b[..k] && !IsCompletion(b, k);
    }
  }

  lemma CompletionDriven(dag: TaskDag, slots: nat, env: Environment, log: seq<Event>, id: string, s: NodeState)
    requires Driven(dag, slots, env, log) && NeverDoomed(dag, log) && id in InFlight(log)
    requires DrivenNext(dag, slots, env, log, Recorded(id, s))
    ensures var next := log + [Recorded(id, s)];
            && Driven(dag, slots, env, next) && Completions(next) == Completions(log) + 1
            && (forall i :: 0 <= i < |log| ==> !DoomedAt(dag, next, i))
            && (DoomedAt(dag, next, |log|) <==> s == Failed && DoomsAnEnd(dag, id, States(next)))
  {
    var next := log + [Recorded(id, s)];
    assert next[..|log|] == log && next[..|log| + 1] == next;
    forall i | 0 <= i < |log| ensures DrivenNext(dag, slots, env, next[..i], next[i]) && !DoomedAt(dag, next, i) {
      assert next[..i] == log[..i] && next[..i + 1] == log[..i + 1];
      assert DrivenNext(dag, slots, env, log[..i], log[i]) && !DoomedAt(dag, log, i);
    }
  }

  /** The scheduler. Whatever the environment does, the log is safe, the recorded states are its fold
      and every event is what the environment made of it. The run is cancelled exactly if nodes are
      left when a cancelled round begins, and aborted exactly by the first failure that dooms an end
      node; no event follows. Any other run leaves nothing running and nothing startable; a clean run
      succeeds without a failed node. */
  method Run(dag: TaskDag, slots: nat, env: Environment)
    returns (outcome: Outcome, states: StateMap, ghost log: seq<Event>)
    requires DistinctIds(dag) && slots > 0 && Delivers(env)
    ensures SafeLog(dag, slots, log) && states == States(log) && InTurn(dag, log) && Driven(dag, slots, env, log)
    ensures outcome.Succeeded? || outcome.EndNodeFailed? ==> InFlight(log) == {} && NothingStartable(dag, states)
    ensures outcome.Succeeded? ==> !AnEndFailed(dag, states)
    ensures outcome.EndNodeFailed? ==> AnEndFailed(dag, states)
    ensures outcome.NodeFailed? ==> log != [] && DoomedAt(dag, log, |log| - 1) && outcome.id == log[|log| - 1].id
    ensures forall i :: 0 <= i < |log| && DoomedAt(dag, log, i) ==> i == |log| - 1 && outcome.NodeFailed?
    ensures outcome.Cancelled? <==>
              !outcome.NodeFailed? && |states| < |dag.nodes| && env.cancelled(Completions(log))
    ensures Clean(env) && Feasible(dag) ==> outcome.Succeeded? && NoFailure(states)
  {
    hide Underway, InTurn, Driven, DoomedAt, Completions, DoomsAnEnd, AnEndFailed, SafeLog, Saturated, NothingStartable;
    states, log := map[], [];
    EmptyUnderway(dag, slots, env);
    var inFlight: set<string> := {};
    var ends := EndNodes(dag);
    var round: nat := 0;
    while |states| < |dag.nodes|
      invariant Underway(dag, slots, env, log, states, inFlight, round)
      invariant Clean(env) && Feasible(dag) ==> NoFailure(states)
      decreases |dag.nodes| - |states|
    {
      if env.cancelled(round) {
        Stopped(dag, slots, env, log, states, inFlight, round);
        return Cancelled, states, log;
      }
      ghost var before := states;
      states, inFlight, log := DispatchRound(dag, slots, env, round, states, inFlight, log);
      if inFlight == {} {
        break;
      }
      var msg;
      msg, states, inFlight, log := Await(dag, slots, env, round, before, states, inFlight, log);
      if msg.state == Failed {
        var abort := MustAbort(dag, ends, msg.id, states);
        if abort {
          return NodeFailed(msg.id), states, log;
        }
      }
      Resumes(dag, slots, env, log, states, inFlight, round + 1);
      round := round + 1;
    }
    Stopped(dag, slots, env, log, states, inFlight, round);
    Finished(dag, slots, env, log, states, inFlight, round);
    var endFailed := EndFailed(dag, ends, states);
    if Clean(env) && Feasible(dag) { NoEndFailed(dag, states); }
    return if endFailed then EndNodeFailed else Succeeded, states, log;
  }

  /** The books of a run at the start of a round. */
  ghost predicate Underway(dag: TaskDag, slots: nat, env: Environment, log: seq<Event>, states: StateMap,
                           inFlight: set<string>, round: nat) {
    && Consistent(dag, slots, log, states, inFlight)
    && InTurn(dag, log) && Driven(dag, slots, env, log) && NeverDoomed(dag, log) && round == Completions(log)
  }

  lemma EmptyUnderway(dag: TaskDag, slots: nat, env: Environment)
    ensures Underway(dag, slots, env, [], map[], {}, 0)
    ensures NoFailure(map[])
  {
  }

  lemma Stopped(dag: TaskDag, slots: nat, env: Environment, log: seq<Event>, states: StateMap, inFlight: set<string>,
                round: nat)
    requires Underway(dag, slots, env, log, states, inFlight, round)
    ensures SafeLog(dag, slots, log) && states == States(log) && InTurn(dag, log) && Driven(dag, slots, env, log)
    ensures round == Completions(log) && forall i :: 0 <= i < |log| ==> !DoomedAt(dag, log, i)
  {
  }

  lemma Finished(dag: TaskDag, slots: nat, env: Environment, log: seq<Event>, states: StateMap, inFlight: set<string>,
                 round: nat)
    requires Underway(dag, slots, env, log, states, inFlight, round) && DistinctIds(dag)
    requires |states| >= |dag.nodes| || (inFlight == {} && NothingStartable(dag, states))
    ensures InFlight(log) == {} && NothingStartable(dag, states)
  {
    FinishedCount(dag, slots, log);
    if |states| == |dag.nodes| { AllFinishedNothingStartable(dag, states); }
  }

  lemma NoEndFailed(dag: TaskDag, states: StateMap)
    requires NoFailure(states)
    ensures !AnEndFailed(dag, states)
  {
  }

  lemma Resumes(dag: TaskDag, slots: nat, env: Environment, log: seq<Event>, states: StateMap, inFlight: set<string>,
                round: nat)
    requires Consistent(dag, slots, log, states, inFlight) && InTurn(dag, log)
    requires Driven(dag, slots, env, log) && Completions(log) == round
    requires forall i :: 0 <= i < |log| ==> !DoomedAt(dag, log, i)
    ensures Underway(dag, slots, env, log, states, inFlight, round)
  {
  }

  /** Fail and launch in a round that is not cancelled. */
  method DispatchRound(dag: TaskDag, slots: nat, ghost env: Environment, ghost round: nat, states0: StateMap,
                       inFlight0: set<string>, ghost log0: seq<Event>)
    returns (states: StateMap, inFlight: set<string>, ghost log: seq<Event>)
    requires DistinctIds(dag) && slots > 0 && !env.cancelled(round)
    requires Underway(dag, slots, env, log0, states0, inFlight0, round)
    ensures Underway(dag, slots, env, log, states, inFlight, round)
    ensures AddsFailures(states0, states) && Saturated(dag, slots, states, inFlight)
    ensures inFlight == {} ==> NothingStartable(dag, states)
    ensures Feasible(dag) && NoFailure(states0) ==> states == states0
  {
    hide Consistent, Continues, InTurn, Driven, NeverDoomed, Completions, AddsFailures, Saturated, NothingStartable;
    states, inFlight, log := Dispatch(dag, slots, states0, inFlight0, log0);
    DispatchDriven(dag, slots, env, log0, log);
  }

  /** Wait for the next node to end, and record how it did. */
  method Await(dag: TaskDag, ghost slots: nat, env: Environment, round: nat, ghost before: StateMap, states0: StateMap,
               inFlight0: set<string>, ghost log0: seq<Event>)
    returns (msg: Completion, states: StateMap, inFlight: set<string>, ghost log: seq<Event>)
    requires DistinctIds(dag) && Delivers(env) && inFlight0 != {} && !env.cancelled(round)
    requires Underway(dag, slots, env, log0, states0, inFlight0, round)
    requires AddsFailures(before, states0) && Saturated(dag, slots, states0, inFlight0)
    ensures msg == env.next(round, inFlight0) && states == states0[msg.id := msg.state]
    ensures Consistent(dag, slots, log, states, inFlight) && InTurn(dag, log) && Driven(dag, slots, env, log)
    ensures SafeLog(dag, slots, log) && states == States(log)
    ensures log != [] && log[|log| - 1] == Recorded(msg.id, msg.state)
    ensures Completions(log) == round + 1 && |before| < |states| <= |dag.nodes|
    ensures forall i :: 0 <= i < |log| - 1 ==> !DoomedAt(dag, log, i)
    ensures DoomedAt(dag, log, |log| - 1) <==> msg.state == Failed && DoomsAnEnd(dag, msg.id, states)
  {
    hide InTurn, Driven, NeverDoomed, DoomedAt, Completions, DoomsAnEnd, Saturated, SafeLog;
    msg := env.next(round, inFlight0);
    ReportDriven(dag, slots, env, log0, msg);
    CompletionDriven(dag, slots, env, log0, msg.id, msg.state);
    RecordCompletion(dag, slots, log0, states0, inFlight0, msg.id, msg.state);
    StatesGrow(before, states0, msg.id, msg.state);
    states, inFlight := states0[msg.id := msg.state], inFlight0 - {msg.id};
    log := log0 + [Recorded(msg.id, msg.state)];
    InTurnStep(dag, log0, Recorded(msg.id, msg.state));
    FinishedCount(dag, slots, log);
  }

  lemma ReportDriven(dag: TaskDag, slots: nat, env: Environment, log: seq<Event>, msg: Completion)
    requires !env.cancelled(Completions(log)) && Saturated(dag, slots, States(log), InFlight(log))
    requires env.next(Completions(log), InFlight(log)) == msg
    ensures DrivenNext(dag, slots, env, log, Recorded(msg.id, msg.state))
  {
  }

  lemma StatesGrow(a: StateMap, b: StateMap, id: string, s: NodeState)
    requires AddsFailures(a, b) && id !in b
    ensures |b[id := s]| > |a|
  {
    assert a.Keys <= b.Keys;
    SubsetCardinality(a.Keys, b.Keys);
    assert b[id := s].Keys == b.Keys + {id};
  }
}

/** ValidateDag: structural checks over a task DAG followed by Kahn's algorithm. */
module DagValidator {
  import opened Common
  import opened Digraph

  const MAX_DAG_NODES := 32
  const MAX_CONDITION_LENGTH := 512

  const ERR_TASK_DAG_INVALID := "NOP-TASK-DAG-INVALID"
  const ERR_TASK_DAG_TOO_LARGE := "NOP-TASK-DAG-TOO-LARGE"
  const ERR_TASK_DAG_CYCLE := "NOP-TASK-DAG-CYCLE"
  const ERR_CONDITION_EVAL := "NOP-CONDITION-EVAL-ERROR"

  /** The fields of a task node that validation, scheduling and compensation read. */
  datatype DagNode = DagNode(id: string, inputFrom: seq<string>, condition: string,
                             minRequired: uint64, compensateAction: string)

  datatype DagEdge = DagEdge(from: string, to: string)

  datatype TaskDag = TaskDag(nodes: seq<DagNode>, edges: seq<DagEdge>)

  datatype DagValidation = Valid(order: seq<string>) | Invalid(code: string)

  function Ids(nodes: seq<DagNode>): (r: seq<string>)
    ensures |r| == |nodes| && forall i :: 0 <= i < |nodes| ==> r[i] == nodes[i].id
  {
    seq(|nodes|, i requires 0 <= i < |nodes| => nodes[i].id)
  }

  ghost function NodeIds(dag: TaskDag): set<string> { Elems(Ids(dag.nodes)) }

  ghost function Arcs(edges: seq<DagEdge>): set<(string, string)> {
    set e | e in edges :: (e.from, e.to)
  }

  ghost predicate DistinctIds(dag: TaskDag) { Distinct(Ids(dag.nodes)) }

  ghost predicate EdgesWithin(edges: seq<DagEdge>, ids: set<string>) {
    forall e :: e in edges ==> e.from in ids && e.to in ids
  }

  ghost predicate InputsWithin(nodes: seq<DagNode>, ids: set<string>) {
    forall n :: n in nodes ==> forall d :: d in n.inputFrom ==> d in ids
  }

  ghost predicate EdgesResolve(dag: TaskDag) { EdgesWithin(dag.edges, NodeIds(dag)) }

  ghost predicate InputsResolve(dag: TaskDag) { InputsWithin(dag.nodes, NodeIds(dag)) }

  ghost predicate ReferencesResolve(dag: TaskDag) {
    DistinctIds(dag) && EdgesResolve(dag) && InputsResolve(dag)
  }

  ghost predicate ConditionsWithin(nodes: seq<DagNode>) {
    forall n :: n in nodes ==> |n.condition| <= MAX_CONDITION_LENGTH
  }

  ghost predicate ConditionsFit(dag: TaskDag) { ConditionsWithin(dag.nodes) }

  ghost predicate IsStart(dag: TaskDag, id: string) { forall e :: e in dag.edges ==> e.to != id }

  ghost predicate IsEnd(dag: TaskDag, id: string) { forall e :: e in dag.edges ==> e.from != id }

  ghost predicate HasStart(dag: TaskDag) {
    exists id {:trigger IsStart(dag, id)} :: id in NodeIds(dag) && IsStart(dag, id)
  }

  ghost predicate HasEnd(dag: TaskDag) { exists id {:trigger IsEnd(dag, id)} :: id in NodeIds(dag) && IsEnd(dag, id) }

  /** What the accepted DAGs are, said without the algorithm. */
  ghost predicate Acceptable(dag: TaskDag) {
    && 1 <= |dag.nodes| <= MAX_DAG_NODES
    && ReferencesResolve(dag)
    && ConditionsFit(dag)
    && Acyclic(Arcs(dag.edges))
  }

  /** The code of a rejected DAG: the first failing rule decides. */
  ghost function RejectionCode(dag: TaskDag): string {
    if |dag.nodes| == 0 then ERR_TASK_DAG_INVALID
    else if |dag.nodes| > MAX_DAG_NODES then ERR_TASK_DAG_TOO_LARGE
    else if !ReferencesResolve(dag) || !HasStart(dag) || !HasEnd(dag) then ERR_TASK_DAG_INVALID
    else if !ConditionsFit(dag) then ERR_CONDITION_EVAL
    else ERR_TASK_DAG_CYCLE
  }

  /** A permutation of the DAG's nodes in which every edge's source precedes its target. */
  ghost predicate IsTopologicalOrder(dag: TaskDag, order: seq<string>) {
    && Distinct(order)
    && Elems(order) == NodeIds(dag)
    && Topological(order, Arcs(dag.edges))
  }

  // ---- edge counting -------------------------------------------------------

  /** Edges (with multiplicity) into v whose source is not yet emitted. */
  ghost function Open(edges: seq<DagEdge>, emitted: set<string>, v: string): nat {
    if edges == [] then 0
    else
      var n := |edges| - 1;
      Open(edges[..n], emitted, v) + (if edges[n].to == v && edges[n].from !in emitted then 1 else 0)
  }

  /** Targets of the edges out of u, in declaration order. */
  ghost function Targets(edges: seq<DagEdge>, u: string): seq<string> {
    if edges == [] then []
    else
      var n := |edges| - 1;
      Targets(edges[..n], u) + (if edges[n].from == u then [edges[n].to] else [])
  }

  lemma {:induction false} OpenAfterEmit(edges: seq<DagEdge>, emitted: set<string>, u: string, v: string)
    requires u !in emitted
    ensures Open(edges, emitted, v) == Open(edges, emitted + {u}, v) + multiset(Targets(edges, u))[v]
  {
    if edges != [] {
      OpenAfterEmit(edges[..|edges| - 1], emitted, u, v);
    }
  }

  lemma {:induction false} OpenIsZero(edges: seq<DagEdge>, emitted: set<string>, v: string)
    ensures Open(edges, emitted, v) == 0 <==> forall e :: e in edges && e.to == v ==> e.from in emitted
  {
    if edges != [] {
      var n := |edges| - 1;
      OpenIsZero(edges[..n], emitted, v);
      assert edges == edges[..n] + [edges[n]];
    }
  }

  lemma {:induction false} TargetsEmpty(edges: seq<DagEdge>, u: string)
    ensures Targets(edges, u) == [] <==> forall e :: e in edges ==> e.from != u
  {
    if edges != [] {
      var n := |edges| - 1;
      TargetsEmpty(edges[..n], u);
      assert edges == edges[..n] + [edges[n]];
    }
  }

  lemma {:induction false} TargetsAreNodes(edges: seq<DagEdge>, u: string, ids: set<string>)
    requires EdgesWithin(edges, ids)
    ensures forall t :: t in Targets(edges, u) ==> t in ids
  {
    if edges != [] {
      var n := |edges| - 1;
      assert edges == edges[..n] + [edges[n]];
      TargetsAreNodes(edges[..n], u, ids);
    }
  }

  // ---- the start-node and end-node checks ----------------------------------

  lemma ArcInEdges(edges: seq<DagEdge>, a: string, b: string)
    ensures (a, b) in Arcs(edges) <==> exists e :: e in edges && e.from == a && e.to == b
  {
    if (a, b) in Arcs(edges) {
      var e :| e in edges && (e.from, e.to) == (a, b);
    }
  }

  lemma NoStartHasCycle(dag: TaskDag)
    requires dag.nodes != [] && EdgesResolve(dag) && !HasStart(dag)
    ensures !Acyclic(Arcs(dag.edges))
  {
    var S, E := NodeIds(dag), Arcs(dag.edges);
    assert Ids(dag.nodes)[0] in S;
    forall v | v in S ensures HasPredecessor(S, E, v) {
      assert !IsStart(dag, v);
      var e :| e in dag.edges && e.to == v;
      assert (e.from, v) in E;
    }
    NoSourceHasCycle(S, E);
  }

  lemma NoEndHasCycle(dag: TaskDag)
    requires dag.nodes != [] && EdgesResolve(dag) && !HasEnd(dag)
    ensures !Acyclic(Arcs(dag.edges))
  {
    var S, E := NodeIds(dag), Arcs(dag.edges);
    assert Ids(dag.nodes)[0] in S;
    forall u | u in S ensures HasSuccessor(S, E, u) {
      assert !IsEnd(dag, u);
      var e :| e in dag.edges && e.from == u;
      assert (u, e.to) in E;
    }
    NoSinkHasCycle(S, E);
  }

  /** The start-node and end-node checks never reject an acyclic DAG. */
  lemma AcyclicHasEnds(dag: TaskDag)
    requires dag.nodes != [] && EdgesResolve(dag)
    ensures Acyclic(Arcs(dag.edges)) ==> HasStart(dag) && HasEnd(dag)
  {
    if !HasStart(dag) { NoStartHasCycle(dag); }
    if !HasEnd(dag) { NoEndHasCycle(dag); }
  }

  // ---- the checks ----------------------------------------------------------

  method CollectIds(nodes: seq<DagNode>) returns (ids: set<string>, distinct: bool)
    ensures distinct <==> Distinct(Ids(nodes))
    ensures distinct ==> ids == Elems(Ids(nodes))
  {
    ids, distinct := {}, true;
    for i := 0 to |nodes|
      invariant Distinct(Ids(nodes)[..i])
      invariant ids == Elems(Ids(nodes)[..i])
    {
      ghost var s := Ids(nodes);
      assert s[..i + 1] == s[..i] + [s[i]];
      if nodes[i].id in ids {
        ghost var k :| 0 <= k < i && s[..i][k] == s[i];
        assert s[k] == s[i];
        return ids, false;
      }
      ids := ids + {nodes[i].id};
    }
    assert Ids(nodes)[..|nodes|] == Ids(nodes);
  }

  lemma CountsExtend(edges: seq<DagEdge>, i: nat, v: string)
    requires i < |edges|
    ensures Targets(edges[..i + 1], v) ==
            if edges[i].from == v then Targets(edges[..i], v) + [edges[i].to] else Targets(edges[..i], v)
    ensures Open(edges[..i + 1], {}, v) == Open(edges[..i], {}, v) + (if edges[i].to == v then 1 else 0)
  {
    assert edges[..i + 1][..i] == edges[..i];
  }

  ghost function AdjacencyOf(edges: seq<DagEdge>, ids: set<string>): map<string, seq<string>> {
    map v | v in ids :: Targets(edges, v)
  }

  ghost function InDegreeOf(edges: seq<DagEdge>, ids: set<string>): map<string, int> {
    map v | v in ids :: Open(edges, {}, v)
  }

  lemma AdjacencyExtends(edges: seq<DagEdge>, ids: set<string>, i: nat)
    requires i < |edges| && edges[i].from in ids
    ensures var m := AdjacencyOf(edges[..i], ids);
            AdjacencyOf(edges[..i + 1], ids) == m[edges[i].from := m[edges[i].from] + [edges[i].to]]
  {
    forall v | v in ids { CountsExtend(edges, i, v); }
  }

  lemma InDegreeExtends(edges: seq<DagEdge>, ids: set<string>, i: nat)
    requires i < |edges| && edges[i].to in ids
    ensures var m := InDegreeOf(edges[..i], ids);
            InDegreeOf(edges[..i + 1], ids) == m[edges[i].to := m[edges[i].to] + 1]
  {
    forall v | v in ids { CountsExtend(edges, i, v); }
  }

  method BuildAdjacency(ids: set<string>, edges: seq<DagEdge>)
    returns (ok: bool, adjacency: map<string, seq<string>>, inDegree: map<string, int>)
    ensures ok <==> EdgesWithin(edges, ids)
    ensures ok ==> adjacency == AdjacencyOf(edges, ids) && inDegree == InDegreeOf(edges, ids)
  {
    adjacency := map id | id in ids :: [];
    inDegree := map id | id in ids :: 0;
    ok := true;
    for i := 0 to |edges|
      invariant forall k :: 0 <= k < i ==> edges[k].from in ids && edges[k].to in ids
      invariant adjacency == AdjacencyOf(edges[..i], ids)
      invariant inDegree == InDegreeOf(edges[..i], ids)
    {
      var edge := edges[i];
      if edge.from !in ids {
        return false, adjacency, inDegree;
      }
      if edge.to !in ids {
        return false, adjacency, inDegree;
      }
      AdjacencyExtends(edges, ids, i);
      InDegreeExtends(edges, ids, i);
      adjacency := adjacency[edge.from := adjacency[edge.from] + [edge.to]];
      inDegree := inDegree[edge.to := inDegree[edge.to] + 1];
    }
    assert edges[..|edges|] == edges;
  }

  method CheckInputs(nodes: seq<DagNode>, ids: set<string>) returns (ok: bool)
    ensures ok <==> InputsWithin(nodes, ids)
  {
    for i := 0 to |nodes|
      invariant InputsWithin(nodes[..i], ids)
    {
      var node := nodes[i];
      for j := 0 to |node.inputFrom|
        invariant forall d :: d in node.inputFrom[..j] ==> d in ids
      {
        if node.inputFrom[j] !in ids {
          return false;
        }
      }
    }
    return true;
  }

  method CheckConditions(nodes: seq<DagNode>) returns (ok: bool)
    ensures ok <==> ConditionsWithin(nodes)
  {
    for i := 0 to |nodes|
      invariant ConditionsWithin(nodes[..i])
    {
      if |nodes[i].condition| > MAX_CONDITION_LENGTH {
        return false;
      }
    }
    return true;
  }

  // ---- Kahn's algorithm ----------------------------------------------------

  /** Take one edge off every target of an emitted node; targets that reach zero are queued. */
  method Relax(targets: seq<string>, remaining0: map<string, int>, queue0: seq<string>, ghost emitted: seq<string>)
    returns (remaining: map<string, int>, queue: seq<string>)
    requires forall t :: t in targets ==> t in remaining0
    requires forall v :: v in remaining0 ==> remaining0[v] >= multiset(targets)[v]
    requires Distinct(emitted + queue0)
    requires forall v :: v in remaining0 ==> (v in emitted + queue0 <==> remaining0[v] == 0)
    requires forall v :: v in queue0 ==> v in remaining0
    ensures remaining.Keys == remaining0.Keys
    ensures forall v :: v in remaining0 ==> remaining[v] == remaining0[v] - multiset(targets)[v]
    ensures Distinct(emitted + queue)
    ensures forall v :: v in remaining ==> (v in emitted + queue <==> remaining[v] == 0)
    ensures forall v :: v in queue ==> v in remaining
  {
    remaining, queue := remaining0, queue0;
    for j := 0 to |targets|
      invariant remaining.Keys == remaining0.Keys
      invariant forall v :: v in remaining0 ==> remaining[v] == remaining0[v] - multiset(targets[..j])[v]
      invariant Distinct(emitted + queue)
      invariant forall v :: v in remaining ==> (v in emitted + queue <==> remaining[v] == 0)
      invariant forall v :: v in queue ==> v in remaining
    {
      var neighbor := targets[j];
      CountNext(targets, j);
      remaining := remaining[neighbor := remaining[neighbor] - 1];
      if remaining[neighbor] == 0 {
        assert emitted + (queue + [neighbor]) == (emitted + queue) + [neighbor];
        queue := queue + [neighbor];
      }
    }
    assert targets[..|targets|] == targets;
  }

  /** Every predecessor of an emitted node was emitted before it. */
  ghost predicate PredecessorsFirst(edges: seq<DagEdge>, sorted: seq<string>) {
    forall i, e :: 0 <= i < |sorted| && e in edges && e.to == sorted[i] ==> e.from in sorted[..i]
  }

  lemma PredecessorsFirstIsTopological(edges: seq<DagEdge>, sorted: seq<string>)
    requires Distinct(sorted) && PredecessorsFirst(edges, sorted)
    ensures Topological(sorted, Arcs(edges))
  {
    forall i, j | 0 <= i < |sorted| && 0 <= j < |sorted| && (sorted[i], sorted[j]) in Arcs(edges) ensures i < j {
      ArcInEdges(edges, sorted[i], sorted[j]);
      var e :| e in edges && e.from == sorted[i] && e.to == sorted[j];
      assert e.from in sorted[..j];
      var k :| 0 <= k < j && sorted[..j][k] == e.from;
      assert sorted[k] == sorted[i];
    }
  }

  lemma PredecessorsFirstExtends(edges: seq<DagEdge>, sorted: seq<string>, v: string)
    requires PredecessorsFirst(edges, sorted)
    requires forall e :: e in edges && e.to == v ==> e.from in sorted
    ensures PredecessorsFirst(edges, sorted + [v])
  {
    var s := sorted + [v];
    forall i, e | 0 <= i < |s| && e in edges && e.to == s[i] ensures e.from in s[..i] {
      if i < |sorted| {
        assert s[..i] == sorted[..i];
      } else {
        assert s[..i] == sorted;
      }
    }
  }

  /** The nodes Kahn's algorithm leaves behind all wait for each other. */
  lemma LeftoverHasCycle(ids: set<string>, edges: seq<DagEdge>, sorted: seq<string>)
    requires EdgesWithin(edges, ids)
    requires Elems(sorted) < ids
    requires forall v :: v in ids && v !in sorted ==> Open(edges, Elems(sorted), v) > 0
    ensures !Acyclic(Arcs(edges))
  {
    var S, E := ids - Elems(sorted), Arcs(edges);
    assert S != {} by {
      var x :| x in ids && x !in Elems(sorted);
      assert x in S;
    }
    forall v | v in S ensures HasPredecessor(S, E, v) {
      OpenIsZero(edges, Elems(sorted), v);
      var e :| e in edges && e.to == v && e.from !in Elems(sorted);
      assert (e.from, v) in E;
    }
    NoSourceHasCycle(S, E);
  }

  lemma TakeFirst(sorted: seq<string>, queue: seq<string>)
    requires Distinct(sorted + queue) && queue != []
    ensures queue[0] !in sorted
    ensures sorted + queue == (sorted + [queue[0]]) + queue[1..]
  {
    assert (sorted + queue)[|sorted|] == queue[0];
    assert forall i :: 0 <= i < |sorted| ==> (sorted + queue)[i] == sorted[i];
  }

  lemma DistinctPrefix(sorted: seq<string>, queue: seq<string>)
    requires Distinct(sorted + queue)
    ensures Distinct(sorted)
  {
    assert forall i :: 0 <= i < |sorted| ==> (sorted + queue)[i] == sorted[i];
  }

  lemma EmittedBelowBound(ids: set<string>, sorted: seq<string>, queue: seq<string>)
    requires Distinct(sorted + queue) && Elems(sorted) <= ids
    ensures |sorted| <= |ids|
  {
    DistinctPrefix(sorted, queue);
    DistinctCardinality(sorted);
    SubsetCardinality(Elems(sorted), ids);
  }

  /** The invariant of the queue loop: counters count the open edges, and exactly the
      nodes without open edges have been emitted or queued. */
  ghost predicate KahnState(edges: seq<DagEdge>, sorted: seq<string>, queue: seq<string>, remaining: map<string, int>) {
    && Distinct(sorted + queue)
    && Elems(sorted + queue) <= remaining.Keys
    && (forall v :: v in remaining ==> remaining[v] == Open(edges, Elems(sorted), v))
    && (forall v :: v in remaining ==> (v in sorted + queue <==> remaining[v] == 0))
    && PredecessorsFirst(edges, sorted)
  }

  lemma EmitKeepsOrder(edges: seq<DagEdge>, sorted: seq<string>, queue: seq<string>, remaining: map<string, int>)
    requires KahnState(edges, sorted, queue, remaining) && queue != []
    ensures PredecessorsFirst(edges, sorted + [queue[0]])
  {
    assert queue[0] in sorted + queue;
    OpenIsZero(edges, Elems(sorted), queue[0]);
    PredecessorsFirstExtends(edges, sorted, queue[0]);
  }

  lemma EmitCounts(edges: seq<DagEdge>, sorted: seq<string>, u: string, remaining: map<string, int>)
    requires u !in sorted
    requires forall v :: v in remaining ==> remaining[v] == Open(edges, Elems(sorted), v)
    ensures forall v :: v in remaining ==>
      remaining[v] == Open(edges, Elems(sorted + [u]), v) + multiset(Targets(edges, u))[v]
  {
    assert Elems(sorted + [u]) == Elems(sorted) + {u};
    forall v | v in remaining
      ensures remaining[v] == Open(edges, Elems(sorted + [u]), v) + multiset(Targets(edges, u))[v]
    {
      OpenAfterEmit(edges, Elems(sorted), u, v);
    }
  }

  method Emit(ghost edges: seq<DagEdge>, targets: seq<string>, sorted0: seq<string>, queue0: seq<string>,
              remaining0: map<string, int>)
    returns (sorted: seq<string>, queue: seq<string>, remaining: map<string, int>)
    requires KahnState(edges, sorted0, queue0, remaining0) && queue0 != []
    requires EdgesWithin(edges, remaining0.Keys)
    requires targets == Targets(edges, queue0[0])
    ensures KahnState(edges, sorted, queue, remaining)
    ensures remaining.Keys == remaining0.Keys && sorted == sorted0 + [queue0[0]]
  {
    var current := queue0[0];
    TakeFirst(sorted0, queue0);
    EmitKeepsOrder(edges, sorted0, queue0, remaining0);
    EmitCounts(edges, sorted0, current, remaining0);
    TargetsAreNodes(edges, current, remaining0.Keys);
    sorted := sorted0 + [current];
    remaining, queue := Relax(targets, remaining0, queue0[1..], sorted);
  }

  method SeedQueue(nodes: seq<DagNode>, remaining: map<string, int>) returns (queue: seq<string>)
    requires Distinct(Ids(nodes)) && remaining.Keys == Elems(Ids(nodes))
    ensures Distinct(queue) && Elems(queue) <= remaining.Keys
    ensures forall v :: v in remaining ==> (v in queue <==> remaining[v] == 0)
  {
    queue := [];
    for i := 0 to |nodes|
      invariant Distinct(queue)
      invariant forall v :: v in queue <==> v in Ids(nodes)[..i] && remaining[v] == 0
    {
      ghost var s := Ids(nodes);
      assert s[..i + 1] == s[..i] + [s[i]];
      assert s[i] !in s[..i];
      if remaining[nodes[i].id] == 0 {
        queue := queue + [nodes[i].id];
      }
    }
    assert Ids(nodes)[..|nodes|] == Ids(nodes);
  }

  ghost predicate Tables(dag: TaskDag, adjacency: map<string, seq<string>>, inDegree: map<string, int>) {
    adjacency == AdjacencyOf(dag.edges, NodeIds(dag)) && inDegree == InDegreeOf(dag.edges, NodeIds(dag))
  }

  method Kahn(dag: TaskDag, adjacency: map<string, seq<string>>, inDegree: map<string, int>)
    returns (sorted: seq<string>, ghost remaining: map<string, int>)
    requires DistinctIds(dag) && EdgesResolve(dag) && Tables(dag, adjacency, inDegree)
    ensures remaining.Keys == NodeIds(dag)
    ensures KahnState(dag.edges, sorted, [], remaining)
  {
    var counters := inDegree;
    var queue := SeedQueue(dag.nodes, counters);
    sorted := [];
    assert sorted + queue == queue;
    assert Elems(sorted) == {};
    while queue != []
      invariant counters.Keys == NodeIds(dag)
      invariant KahnState(dag.edges, sorted, queue, counters)
      decreases |NodeIds(dag)| - |sorted|
    {
      assert queue[0] in sorted + queue;
      var next, rest, left := Emit(dag.edges, adjacency[queue[0]], sorted, queue, counters);
      EmittedBelowBound(NodeIds(dag), next, rest);
      sorted, queue, counters := next, rest, left;
    }
    remaining := counters;
  }

  lemma AllEmitted(dag: TaskDag, sorted: seq<string>, remaining: map<string, int>)
    requires EdgesResolve(dag) && remaining.Keys == NodeIds(dag)
    requires KahnState(dag.edges, sorted, [], remaining)
    ensures |sorted| == |NodeIds(dag)| <==> Acyclic(Arcs(dag.edges))
    ensures |sorted| == |NodeIds(dag)| ==> IsTopologicalOrder(dag, sorted)
  {
    assert sorted + [] == sorted;
    DistinctCardinality(sorted);
    SubsetCardinality(Elems(sorted), NodeIds(dag));
    if |sorted| == |NodeIds(dag)| {
      PredecessorsFirstIsTopological(dag.edges, sorted);
      forall a | a in Arcs(dag.edges) ensures a.0 in Elems(sorted) && a.1 in Elems(sorted) {
        ArcInEdges(dag.edges, a.0, a.1);
      }
      OrderedIsAcyclic(sorted, Arcs(dag.edges));
    } else {
      assert Elems(sorted + []) == Elems(sorted) != NodeIds(dag);
      LeftoverHasCycle(NodeIds(dag), dag.edges, sorted);
    }
  }

  method CheckReferences(dag: TaskDag)
    returns (ok: bool, adjacency: map<string, seq<string>>, inDegree: map<string, int>)
    ensures ok <==> ReferencesResolve(dag)
    ensures ok ==> Tables(dag, adjacency, inDegree)
  {
    adjacency, inDegree := map[], map[];
    var ids, distinct := CollectIds(dag.nodes);
    if !distinct {
      return false, adjacency, inDegree;
    }
    ok, adjacency, inDegree := BuildAdjacency(ids, dag.edges);
    if ok {
      ok := CheckInputs(dag.nodes, ids);
    }
  }

  method CheckEnds(dag: TaskDag, adjacency: map<string, seq<string>>, inDegree: map<string, int>) returns (ok: bool)
    requires Tables(dag, adjacency, inDegree)
    ensures ok <==> HasStart(dag) && HasEnd(dag)
  {
    var hasStart := exists id :: id in inDegree && inDegree[id] == 0;
    forall v | v in inDegree ensures inDegree[v] == 0 <==> IsStart(dag, v) {
      OpenIsZero(dag.edges, {}, v);
    }
    var hasEnd := exists id :: id in adjacency && adjacency[id] == [];
    forall v | v in adjacency ensures adjacency[v] == [] <==> IsEnd(dag, v) {
      TargetsEmpty(dag.edges, v);
    }
    return hasStart && hasEnd;
  }

  /** Everything but the sort: "" when the checks pass, else the code of the first failure. */
  method CheckShape(dag: TaskDag)
    returns (code: string, adjacency: map<string, seq<string>>, inDegree: map<string, int>)
    ensures code == "" ==> 1 <= |dag.nodes| <= MAX_DAG_NODES && ReferencesResolve(dag) && ConditionsFit(dag)
    ensures code == "" ==> HasStart(dag) && HasEnd(dag) && Tables(dag, adjacency, inDegree)
    ensures code != "" ==> !Acceptable(dag) && code == RejectionCode(dag)
  {
    adjacency, inDegree := map[], map[];
    if |dag.nodes| == 0 {
      return ERR_TASK_DAG_INVALID, adjacency, inDegree;
    }
    if |dag.nodes| > MAX_DAG_NODES {
      return ERR_TASK_DAG_TOO_LARGE, adjacency, inDegree;
    }
    var ok;
    ok, adjacency, inDegree := CheckReferences(dag);
    if !ok {
      return ERR_TASK_DAG_INVALID, adjacency, inDegree;
    }
    AcyclicHasEnds(dag);
    ok := CheckEnds(dag, adjacency, inDegree);
    if !ok {
      return ERR_TASK_DAG_INVALID, adjacency, inDegree;
    }
    ok := CheckConditions(dag.nodes);
    code := if ok then "" else ERR_CONDITION_EVAL;
  }

  lemma TablesCover(dag: TaskDag, adjacency: map<string, seq<string>>, inDegree: map<string, int>)
    requires ReferencesResolve(dag) && Tables(dag, adjacency, inDegree)
    ensures EdgesResolve(dag) && adjacency.Keys == NodeIds(dag)
  {
  }

  /** Accepts exactly the acceptable DAGs, and then returns a topological order of all
      their nodes; a rejected DAG gets the code of the first rule it breaks. */
  method ValidateDag(dag: TaskDag) returns (r: DagValidation)
    ensures r.Valid? <==> Acceptable(dag)
    ensures r.Valid? ==> IsTopologicalOrder(dag, r.order)
    ensures r.Invalid? ==> r.code == RejectionCode(dag)
  {
    hide Acyclic, IsTopologicalOrder, HasStart, HasEnd, ConditionsFit, KahnState, Tables, ReferencesResolve,
      EdgesResolve;
    var code, adjacency, inDegree := CheckShape(dag);
    if code != "" {
      return Invalid(code);
    }
    TablesCover(dag, adjacency, inDegree);
    var sorted, remaining := Kahn(dag, adjacency, inDegree);
    AllEmitted(dag, sorted, remaining);
    if |sorted| != |adjacency.Keys| {
      return Invalid(ERR_TASK_DAG_CYCLE);
    }
    return Valid(sorted);
  }
}

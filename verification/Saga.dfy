/** runSagaCompensation: completed nodes are compensated in reverse topological order. */
module Saga {
  import opened Digraph
  import opened DagValidator
  import opened Scheduler

  datatype SagaResult = SagaResult(attempted: nat, succeeded: nat, failed: nat, failedIds: seq<string>)

  ghost function CompletedNodes(dag: TaskDag, states: StateMap): set<string> {
    set id | id in NodeIds(dag) && id in states && states[id] == Completed
  }

  ghost predicate HasAction(dag: TaskDag, id: string) {
    exists n :: n in dag.nodes && n.id == id && n.compensateAction != ""
  }

  ghost function WithAction(dag: TaskDag, states: StateMap): set<string> {
    set id | id in CompletedNodes(dag, states) && HasAction(dag, id)
  }

  ghost function WithoutAction(dag: TaskDag, states: StateMap): set<string> {
    CompletedNodes(dag, states) - WithAction(dag, states)
  }

  // ---- reverse selections --------------------------------------------------

  /** The elements of s that lie in P, last one first. */
  ghost function Backwards(s: seq<string>, P: set<string>): seq<string> {
    if s == [] then []
    else
      var n := |s| - 1;
      (if s[n] in P then [s[n]] else []) + Backwards(s[..n], P)
  }

  lemma {:induction false} BackwardsElems(s: seq<string>, P: set<string>)
    ensures Elems(Backwards(s, P)) == Elems(s) * P
  {
    if s != [] {
      var n := |s| - 1;
      BackwardsElems(s[..n], P);
      assert s == s[..n] + [s[n]];
      assert Elems(s) == Elems(s[..n]) + {s[n]};
      var r := Backwards(s[..n], P);
      assert Elems([s[n]] + r) == {s[n]} + Elems(r);
      assert [] + r == r;
    }
  }

  lemma {:induction false} BackwardsDistinct(s: seq<string>, P: set<string>)
    requires Distinct(s)
    ensures Distinct(Backwards(s, P))
  {
    if s != [] {
      var n := |s| - 1;
      BackwardsDistinct(s[..n], P);
      BackwardsElems(s[..n], P);
      assert s[n] !in s[..n];
      assert s[n] !in Elems(Backwards(s[..n], P));
    }
  }

  /** Reversing an order that puts sources first puts targets first. */
  lemma {:induction false} BackwardsTargetsFirst(s: seq<string>, P: set<string>, E: set<(string, string)>)
    requires Distinct(s) && Topological(s, E)
    ensures Topological(Backwards(s, P), Inverse(E))
  {
    if s != [] {
      var n := |s| - 1;
      var rest := s[..n];
      assert Topological(rest, E) by {
        assert forall i :: 0 <= i < n ==> rest[i] == s[i];
      }
      BackwardsTargetsFirst(rest, P, E);
      BackwardsElems(rest, P);
      if s[n] in P {
        PrependSink(s, Backwards(rest, P), E);
      } else {
        assert Backwards(s, P) == Backwards(rest, P);
      }
    }
  }

  lemma PrependSink(s: seq<string>, r: seq<string>, E: set<(string, string)>)
    requires s != [] && Topological(s, E) && Topological(r, Inverse(E))
    requires Elems(r) <= Elems(s)
    ensures Topological([s[|s| - 1]] + r, Inverse(E))
  {
    var last := s[|s| - 1];
    var t := [last] + r;
    forall i, j | 0 <= i < |t| && 0 <= j < |t| && (t[i], t[j]) in Inverse(E) ensures i < j {
      assert (t[j], t[i]) in E;
      assert forall k :: 0 <= k < |r| ==> r[k] in Elems(r);
      if j > 0 && i > 0 {
        assert (r[i - 1], r[j - 1]) in Inverse(E);
      }
    }
  }

  // ---- the passes ----------------------------------------------------------

  method ActionTable(dag: TaskDag) returns (actions: map<string, string>)
    requires DistinctIds(dag)
    ensures actions.Keys == NodeIds(dag)
    ensures forall id :: id in actions ==> (actions[id] != "" <==> HasAction(dag, id))
  {
    actions := map[];
    for i := 0 to |dag.nodes|
      invariant actions.Keys == Elems(Ids(dag.nodes)[..i])
      invariant forall k :: 0 <= k < i ==> dag.nodes[k].id in actions
      invariant forall k :: 0 <= k < i ==> actions[dag.nodes[k].id] == dag.nodes[k].compensateAction
    {
      ghost var ids := Ids(dag.nodes);
      assert ids[..i + 1] == ids[..i] + [ids[i]];
      assert forall k :: 0 <= k < i ==> ids[k] != ids[i];
      actions := actions[dag.nodes[i].id := dag.nodes[i].compensateAction];
    }
    assert Ids(dag.nodes)[..|dag.nodes|] == Ids(dag.nodes);
    forall id | id in actions ensures actions[id] != "" <==> HasAction(dag, id) {
      var k :| 0 <= k < |dag.nodes| && Ids(dag.nodes)[k] == id;
      assert dag.nodes[k] in dag.nodes;
    }
  }

  lemma BackwardsNone(P: set<string>)
    ensures Backwards([], P) == []
  {
  }

  lemma BackwardsLast(order: seq<string>, i: nat, P: set<string>)
    requires i < |order|
    ensures Backwards(order[..i + 1], P) == (if order[i] in P then [order[i]] else []) + Backwards(order[..i], P)
  {
    assert order[..i + 1][..i] == order[..i];
  }

  method CompletedBackwards(dag: TaskDag, known: set<string>, order: seq<string>, states: StateMap)
    returns (completed: seq<string>)
    requires known == NodeIds(dag)
    ensures completed == Backwards(order, CompletedNodes(dag, states))
  {
    hide Backwards;
    completed := [];
    var i := |order|;
    assert order[..i] == order;
    BackwardsNone(CompletedNodes(dag, states));
    while i > 0
      invariant 0 <= i <= |order|
      invariant completed + Backwards(order[..i], CompletedNodes(dag, states))
             == Backwards(order, CompletedNodes(dag, states))
    {
      i := i - 1;
      BackwardsLast(order, i, CompletedNodes(dag, states));
      var id := order[i];
      if id in states && states[id] == Completed && id in known {
        completed := completed + [id];
      }
    }
  }

  /** Split a list by whether the node has a compensation action, keeping order. */
  method SplitByAction(dag: TaskDag, order: seq<string>, states: StateMap, actions: map<string, string>,
                       completed: seq<string>)
    returns (missing: seq<string>, due: seq<string>)
    requires actions.Keys == NodeIds(dag)
    requires forall id :: id in actions ==> (actions[id] != "" <==> HasAction(dag, id))
    requires completed == Backwards(order, CompletedNodes(dag, states))
    ensures missing == Backwards(order, WithoutAction(dag, states))
    ensures due == Backwards(order, WithAction(dag, states))
  {
    missing, due := [], [];
    BackwardsElems(order, CompletedNodes(dag, states));
    for i := 0 to |completed|
      invariant missing == Keep(completed[..i], WithoutAction(dag, states))
      invariant due == Keep(completed[..i], WithAction(dag, states))
    {
      assert completed[..i + 1][..i] == completed[..i];
      assert completed[i] in Elems(completed);
      if actions[completed[i]] == "" {
        missing := missing + [completed[i]];
      } else {
        due := due + [completed[i]];
      }
    }
    assert completed[..|completed|] == completed;
    KeepBackwards(order, CompletedNodes(dag, states), WithoutAction(dag, states));
    KeepBackwards(order, CompletedNodes(dag, states), WithAction(dag, states));
  }

  ghost function Keep(s: seq<string>, P: set<string>): seq<string> {
    if s == [] then []
    else Keep(s[..|s| - 1], P) + (if s[|s| - 1] in P then [s[|s| - 1]] else [])
  }

  lemma {:induction false} KeepPrepend(x: string, s: seq<string>, P: set<string>)
    ensures Keep([x] + s, P) == (if x in P then [x] else []) + Keep(s, P)
  {
    var t := [x] + s;
    if s == [] {
      assert t[..0] == [] && t == [x];
    } else {
      KeepPrepend(x, s[..|s| - 1], P);
      assert t[..|t| - 1] == [x] + s[..|s| - 1];
    }
  }

  lemma {:induction false} KeepBackwards(s: seq<string>, P: set<string>, Q: set<string>)
    requires Q <= P
    ensures Keep(Backwards(s, P), Q) == Backwards(s, Q)
  {
    if s != [] {
      var n := |s| - 1;
      KeepBackwards(s[..n], P, Q);
      if s[n] in P {
        KeepPrepend(s[n], Backwards(s[..n], P), Q);
      } else {
        assert Backwards(s, P) == Backwards(s[..n], P);
      }
    }
  }

  /** Entries of ran whose compensation did not complete. */
  ghost function Unsuccessful(ran: seq<string>, ok: (nat, string) -> bool): seq<string> {
    if ran == [] then []
    else
      var n := |ran| - 1;
      Unsuccessful(ran[..n], ok) + (if ok(n, ran[n]) then [] else [ran[n]])
  }

  /** What a compensation pass must have done: every due node once, targets before sources. */
  ghost predicate CompensatedInReverse(dag: TaskDag, states: StateMap, ran: seq<string>) {
    && Distinct(ran)
    && Elems(ran) == WithAction(dag, states)
    && Topological(ran, Inverse(Arcs(dag.edges)))
  }

  /** ok(i, id) says whether the i-th compensation, of node id, completes. */
  method RunSagaCompensation(dag: TaskDag, order: seq<string>, states: StateMap, strict: bool,
                             ok: (nat, string) -> bool)
    returns (r: SagaResult, ran: seq<string>)
    requires DistinctIds(dag) && IsTopologicalOrder(dag, order)
    ensures strict && WithoutAction(dag, states) != {} ==>
              ran == [] && r.attempted == 0 && r.succeeded == 0 && r.failed == |r.failedIds|
              && Distinct(r.failedIds) && Elems(r.failedIds) == WithoutAction(dag, states)
    ensures !strict || WithoutAction(dag, states) == {} ==>
              CompensatedInReverse(dag, states, ran) && r.attempted == |ran|
              && r.succeeded + r.failed == r.attempted
              && r.failedIds == Unsuccessful(ran, ok) && r.failed == |r.failedIds|
  {
    var actions := ActionTable(dag);
    var completed := CompletedBackwards(dag, actions.Keys, order, states);
    var missing, due := SplitByAction(dag, order, states, actions, completed);
    BackwardsElems(order, WithoutAction(dag, states));
    BackwardsDistinct(order, WithoutAction(dag, states));
    BackwardsElems(order, WithAction(dag, states));
    BackwardsDistinct(order, WithAction(dag, states));
    BackwardsTargetsFirst(order, WithAction(dag, states), Arcs(dag.edges));
    assert Elems(missing) == WithoutAction(dag, states);
    if strict && |missing| > 0 {
      assert missing[0] in Elems(missing);
      return SagaResult(0, 0, |missing|, missing), [];
    }
    assert WithoutAction(dag, states) != {} ==> |missing| > 0;
    assert Elems(due) == WithAction(dag, states);
    var succeeded, failedIds := RunCompensations(due, ok);
    return SagaResult(|due|, succeeded, |failedIds|, failedIds), due;
  }

  method RunCompensations(due: seq<string>, ok: (nat, string) -> bool) returns (succeeded: nat, failedIds: seq<string>)
    ensures failedIds == Unsuccessful(due, ok)
    ensures succeeded + |failedIds| == |due|
  {
    succeeded, failedIds := 0, [];
    for i := 0 to |due|
      invariant failedIds == Unsuccessful(due[..i], ok)
      invariant succeeded + |failedIds| == i
    {
      assert due[..i + 1][..i] == due[..i];
      if ok(i, due[i]) {
        succeeded := succeeded + 1;
      } else {
        failedIds := failedIds + [due[i]];
      }
    }
    assert due[..|due|] == due;
  }
}

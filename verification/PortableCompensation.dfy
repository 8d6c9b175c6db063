/** compensatePortable: when a node fails, its completed ancestors are compensated, dependents first. */
module PortableCompensation {
  import opened Digraph
  import GraphSearch
  import opened PortableTopology
  import opened Saga

  const BEST_EFFORT := "best_effort"
  const STRICT := "strict"
  const COMPLETED := "completed"
  const COMPENSATED := "compensated"
  const COMPENSATION_FAILED := "compensation_failed"
  const NOT_SUPPORTED := "NOP-COMPENSATION-NOT-SUPPORTED"
  const FAILED := "NOP-COMPENSATION-FAILED"

  type States = map<string, string>

  /** Arcs from a node to the nodes it depends on. */
  ghost function Needs(g: Graph): set<(string, string)>
    requires AllKnown(g)
  {
    Inverse(PortableTopology.Arcs(g))
  }

  /** x is a dependency of failed, directly or through others. */
  ghost predicate Ancestor(g: Graph, failed: string, x: string)
    requires AllKnown(g) && failed in g
  {
    exists d :: d in g[failed] && Reaches(Needs(g), d, x)
  }

  ghost predicate Due(g: Graph, failed: string, states: States, actions: set<string>, x: string)
    requires AllKnown(g) && failed in g
  {
    x in g && Ancestor(g, failed, x) && x in states && states[x] == COMPLETED && x in actions
  }

  // ---- collecting ancestors ------------------------------------------------

  lemma NeedsDep(g: Graph, id: string, d: string)
    requires AllKnown(g) && id in g && d in g[id]
    ensures (id, d) in Needs(g) && d in g
  {
    assert (d, id) in PortableTopology.Arcs(g);
  }

  lemma DepIsAncestor(g: Graph, failed: string, d: string)
    requires AllKnown(g) && failed in g && d in g[failed]
    ensures Ancestor(g, failed, d)
  {
    var p := [d];
    assert Walk(Needs(g), p) && p[0] == d && p[|p| - 1] == d;
    assert Reaches(Needs(g), d, d);
  }

  lemma AncestorStep(g: Graph, failed: string, x: string, d: string)
    requires AllKnown(g) && failed in g && Ancestor(g, failed, x) && x in g && d in g[x]
    ensures Ancestor(g, failed, d)
  {
    var a :| a in g[failed] && Reaches(Needs(g), a, x);
    NeedsDep(g, x, d);
    GraphSearch.ReachesStep(Needs(g), a, x, d);
  }

  /** A set of nodes that holds the dependencies of failed and of its own members holds all ancestors. */
  lemma ClosedHoldsAncestors(g: Graph, failed: string, found: set<string>, x: string)
    requires AllKnown(g) && failed in g && Ancestor(g, failed, x)
    requires forall d :: d in g[failed] ==> d in found
    requires forall y :: y in found ==> y in g && Complete(g, found, y)
    ensures x in found
  {
    var a :| a in g[failed] && Reaches(Needs(g), a, x);
    var p: seq<string> :| |p| >= 1 && p[0] == a && p[|p| - 1] == x && Walk(Needs(g), p);
    forall y, d | y in found && (y, d) in Needs(g) ensures d in found {
      assert (d, y) in PortableTopology.Arcs(g);
      assert Complete(g, found, y);
    }
    GraphSearch.ClosedSetMisses(Needs(g), found, p);
  }

  /** All dependencies of y are found. */
  ghost predicate Complete(g: Graph, found: set<string>, y: string)
    requires y in g
  {
    forall d :: d in g[y] ==> d in found
  }

  /** Found nodes are ancestors, and complete unless their own visit is still under way. */
  ghost predicate Collected(g: Graph, failed: string, found: set<string>, visiting: set<string>)
    requires AllKnown(g) && failed in g
  {
    && found <= g.Keys && (forall x :: x in found ==> Ancestor(g, failed, x))
    && forall x :: x in found && x !in visiting ==> Complete(g, found, x)
  }

  lemma CollectedGrows(g: Graph, failed: string, found: set<string>, visiting: set<string>, id: string, d: string)
    requires AllKnown(g) && failed in g && id in g && d in g[id] && (id == failed || id in found)
    requires Collected(g, failed, found, visiting)
    ensures d in g && Collected(g, failed, found + {d}, visiting + {d})
  {
    NeedsDep(g, id, d);
    if id == failed { DepIsAncestor(g, failed, d); } else { AncestorStep(g, failed, id, d); }
  }

  // ---- the run -------------------------------------------------------------

  /** The ids up to and including the first that fails. */
  function UpToFailure(due: seq<string>, failing: set<string>): seq<string> {
    if due == [] then []
    else
      var before := UpToFailure(due[..|due| - 1], failing);
      if |before| < |due| - 1 || (before != [] && before[|before| - 1] in failing) then before
      else before + [due[|due| - 1]]
  }

  function Verdict(id: string, failing: set<string>): string {
    if id in failing then COMPENSATION_FAILED else COMPENSATED
  }

  function Mark(states: States, ran: seq<string>, failing: set<string>): States {
    if ran == [] then states
    else Mark(states, ran[..|ran| - 1], failing)[ran[|ran| - 1] := Verdict(ran[|ran| - 1], failing)]
  }

  function Report(ran: seq<string>, failing: set<string>): seq<string> {
    if ran == [] then []
    else
      var id := ran[|ran| - 1];
      Report(ran[..|ran| - 1], failing) + [id + ":compensating", id + ":" + Verdict(id, failing)]
  }

  class PortableCompensator {
    var ancestors: set<string>
    var states: States
    var events: seq<string>

    constructor (states: States, events: seq<string>)
      ensures this.states == states && this.events == events && ancestors == {}
    {
      ancestors, this.states, this.events := {}, states, events;
    }

    method Collect(g: Graph, id: string, ghost failed: string, ghost visiting: set<string>)
      requires AllKnown(g) && failed in g && id in g && (id == failed || id in ancestors)
      requires Collected(g, failed, ancestors, visiting)
      modifies this`ancestors
      ensures old(ancestors) <= ancestors && Complete(g, ancestors, id)
      ensures Collected(g, failed, ancestors, visiting)
      decreases g.Keys - ancestors
    {
      for i := 0 to |g[id]|
        invariant old(ancestors) <= ancestors && Collected(g, failed, ancestors, visiting)
        invariant forall k :: 0 <= k < i ==> g[id][k] in ancestors
      {
        var d := g[id][i];
        if d !in ancestors {
          CollectedGrows(g, failed, ancestors, visiting, id, d);
          ancestors := ancestors + {d};
          Collect(g, d, failed, visiting + {d});
        }
      }
    }

    /** Exactly the ancestors of the failed node. */
    method CollectAll(g: Graph, failed: string)
      requires AllKnown(g) && failed in g
      modifies this`ancestors
      ensures ancestors <= g.Keys && forall x :: x in ancestors <==> Ancestor(g, failed, x)
    {
      ancestors := {};
      Collect(g, failed, failed, {});
      forall x | Ancestor(g, failed, x) ensures x in ancestors { ClosedHoldsAncestors(g, failed, ancestors, x); }
    }

    method Candidates(topology: seq<string>) returns (r: seq<string>)
      ensures r == Backwards(topology, CompletedIn(ancestors, states))
    {
      r := [];
      var i := |topology|;
      assert topology[..i] == topology;
      while i > 0
        invariant 0 <= i <= |topology|
        invariant r + Backwards(topology[..i], CompletedIn(ancestors, states))
                  == Backwards(topology, CompletedIn(ancestors, states))
      {
        i := i - 1;
        assert topology[..i + 1][..i] == topology[..i];
        var id := topology[i];
        if id in ancestors && id in states && states[id] == COMPLETED { r := r + [id]; }
      }
    }

    /** The compensating pass; in strict mode it ends with the first failure. */
    method CompensateEach(candidates: seq<string>, actions: set<string>, failing: set<string>, strict: bool)
      returns (order: seq<string>, error: string)
      modifies this`states, this`events
      ensures order == if strict then UpToFailure(Keep(candidates, actions), failing) else Keep(candidates, actions)
      ensures states == Mark(old(states), order, failing) && events == old(events) + Report(order, failing)
      ensures error == if strict && order != [] && order[|order| - 1] in failing then FAILED else ""
    {
      order := [];
      for i := 0 to |candidates|
        invariant order == Keep(candidates[..i], actions)
        invariant states == Mark(old(states), order, failing) && events == old(events) + Report(order, failing)
        invariant strict ==> NoFailure(order, failing)
      {
        var id := candidates[i];
        assert candidates[..i + 1][..i] == candidates[..i];
        if id in actions {
          MarkSnoc(old(states), order, id, failing);
          ReportSnoc(old(events), order, id, failing);
          order := order + [id];
          events := events + [id + ":compensating"];
          states := states[id := Verdict(id, failing)];
          events := events + [id + ":" + Verdict(id, failing)];
          if id in failing && strict {
            StoppedAt(candidates, actions, failing, i);
            return order, FAILED;
          }
        }
      }
      assert candidates[..|candidates|] == candidates;
      if strict { NothingFails(order, failing); }
      error := "";
    }

    /** actions: nodes with a compensate_action; failing: nodes whose compensation fails. */
    method Compensate(g: Graph, failed: string, topology: seq<string>, policy: string, actions: set<string>,
                      failing: set<string>)
      returns (order: seq<string>, error: string)
      requires AllKnown(g) && failed in g && IsOrder(g, topology)
      modifies this
      ensures order == Expected(g, failed, topology, policy, actions, failing, old(states))
      ensures states == Mark(old(states), order, failing) && events == old(events) + Report(order, failing)
      ensures error == if policy != STRICT then ""
                       else if !Supported(g, failed, old(states), actions) then NOT_SUPPORTED
                       else if Fails(order, failing) then FAILED else ""
    {
      hide Supported, Fails, AllKnown, IsOrder;
      assert events + [] == events;
      if policy != BEST_EFFORT && policy != STRICT { return [], ""; }
      CollectAll(g, failed);
      var candidates := Candidates(topology);
      CandidatesAre(g, failed, topology, ancestors, states, actions);
      if policy == STRICT {
        var supported := AllSupported(candidates, actions);
        if !supported { return [], NOT_SUPPORTED; }
      }
      order, error := CompensateEach(candidates, actions, failing, policy == STRICT);
      if policy == STRICT { FailureLast(Keep(candidates, actions), failing); }
    }

    method AllSupported(candidates: seq<string>, actions: set<string>) returns (all: bool)
      ensures all <==> forall x :: x in candidates ==> x in actions
    {
      for i := 0 to |candidates|
        invariant forall k :: 0 <= k < i ==> candidates[k] in actions
      {
        if candidates[i] !in actions { return false; }
      }
      return true;
    }
  }

  // ---- what is compensated -------------------------------------------------

  /** Completed nodes among some. */
  ghost function CompletedIn(found: set<string>, states: States): set<string> {
    set x | x in found && x in states && states[x] == COMPLETED
  }

  ghost function DueSet(g: Graph, failed: string, states: States, actions: set<string>): set<string>
    requires AllKnown(g) && failed in g
  {
    set x | x in g && Due(g, failed, states, actions, x)
  }

  /** Every completed ancestor has an action. */
  ghost predicate Supported(g: Graph, failed: string, states: States, actions: set<string>)
    requires AllKnown(g) && failed in g
  {
    forall x :: x in g && Ancestor(g, failed, x) && x in states && states[x] == COMPLETED ==> x in actions
  }

  ghost function Expected(g: Graph, failed: string, topology: seq<string>, policy: string, actions: set<string>,
                          failing: set<string>, states: States): seq<string>
    requires AllKnown(g) && failed in g
  {
    var due := Backwards(topology, DueSet(g, failed, states, actions));
    if policy == BEST_EFFORT then due
    else if policy == STRICT && Supported(g, failed, states, actions) then UpToFailure(due, failing)
    else []
  }

  ghost predicate NoFailure(ran: seq<string>, failing: set<string>) {
    forall k :: 0 <= k < |ran| ==> ran[k] !in failing
  }

  ghost predicate Fails(ran: seq<string>, failing: set<string>) { exists k :: 0 <= k < |ran| && ran[k] in failing }

  lemma OrderIsTopological(g: Graph, topology: seq<string>)
    requires AllKnown(g) && IsOrder(g, topology)
    ensures Topological(topology, PortableTopology.Arcs(g))
  {
    forall i, j | 0 <= i < |topology| && 0 <= j < |topology| && (topology[i], topology[j]) in PortableTopology.Arcs(g)
      ensures i < j {
      assert topology[i] in g[topology[j]];
      assert topology[i] in topology[..j];
      var k :| 0 <= k < j && topology[..j][k] == topology[i];
      assert topology[k] == topology[i];
    }
  }

  /** The due ancestors are listed once each, every node before the nodes it depends on. */
  lemma DueInReverse(g: Graph, failed: string, topology: seq<string>, states: States, actions: set<string>)
    requires AllKnown(g) && failed in g && IsOrder(g, topology)
    ensures var due := Backwards(topology, DueSet(g, failed, states, actions));
            && Distinct(due) && Topological(due, Needs(g))
            && forall x :: x in due <==> Due(g, failed, states, actions, x)
  {
    var P := DueSet(g, failed, states, actions);
    var due := Backwards(topology, P);
    OrderIsTopological(g, topology);
    BackwardsDistinct(topology, P);
    BackwardsElems(topology, P);
    BackwardsTargetsFirst(topology, P, PortableTopology.Arcs(g));
    forall x ensures x in due <==> Due(g, failed, states, actions, x) {
      assert x in due <==> x in Elems(due);
      assert x in P ==> x in Elems(topology);
    }
  }

  lemma {:induction false} KeepElems(s: seq<string>, P: set<string>, Q: set<string>)
    requires forall k :: 0 <= k < |s| ==> (s[k] in P <==> s[k] in Q)
    ensures Keep(s, P) == Keep(s, Q)
  {
    if s != [] { KeepElems(s[..|s| - 1], P, Q); }
  }

  lemma CandidatesAre(g: Graph, failed: string, topology: seq<string>, found: set<string>, states: States,
                      actions: set<string>)
    requires AllKnown(g) && failed in g && IsOrder(g, topology)
             && (forall x :: x in found <==> Ancestor(g, failed, x)) && found <= g.Keys
    ensures var candidates := Backwards(topology, CompletedIn(found, states));
            && Keep(candidates, actions) == Backwards(topology, DueSet(g, failed, states, actions))
            && (Supported(g, failed, states, actions) <==> forall x :: x in candidates ==> x in actions)
  {
    var P, Q := CompletedIn(found, states), DueSet(g, failed, states, actions);
    var candidates := Backwards(topology, P);
    BackwardsElems(topology, P);
    forall x ensures x in candidates <==> x in P {
      assert x in candidates <==> x in Elems(candidates);
      assert x in P ==> x in Elems(topology);
    }
    forall k | 0 <= k < |candidates| ensures candidates[k] in actions <==> candidates[k] in Q {
      assert candidates[k] in P;
    }
    KeepElems(candidates, actions, Q);
    KeepBackwards(topology, P, Q);
  }

  // ---- stopping at a failure -----------------------------------------------

  lemma MarkSnoc(states: States, ran: seq<string>, id: string, failing: set<string>)
    ensures Mark(states, ran + [id], failing) == Mark(states, ran, failing)[id := Verdict(id, failing)]
  {
    assert (ran + [id])[..|ran|] == ran;
  }

  lemma ReportSnoc(events: seq<string>, ran: seq<string>, id: string, failing: set<string>)
    ensures events + Report(ran + [id], failing)
            == events + Report(ran, failing) + [id + ":compensating"] + [id + ":" + Verdict(id, failing)]
  {
    assert (ran + [id])[..|ran|] == ran;
  }

  lemma {:induction false} NothingFails(due: seq<string>, failing: set<string>)
    requires NoFailure(due, failing)
    ensures UpToFailure(due, failing) == due
  {
    if due != [] {
      NothingFails(due[..|due| - 1], failing);
      assert due == due[..|due| - 1] + [due[|due| - 1]];
    }
  }

  lemma {:induction false} StopsThere(due: seq<string>, m: nat, failing: set<string>)
    requires 0 < m <= |due| && NoFailure(due[..m - 1], failing) && due[m - 1] in failing
    ensures UpToFailure(due, failing) == due[..m]
    decreases |due|
  {
    var n := |due| - 1;
    if m <= n {
      assert due[..n][..m - 1] == due[..m - 1] && due[..n][..m] == due[..m];
      StopsThere(due[..n], m, failing);
    } else {
      NothingFails(due[..n], failing);
      assert due[..m] == due == due[..n] + [due[n]];
    }
  }

  lemma {:induction false} KeepPrefix(s: seq<string>, i: nat, P: set<string>)
    requires i <= |s|
    ensures Keep(s[..i], P) <= Keep(s, P)
    decreases |s|
  {
    if i == |s| {
      assert s[..i] == s;
    } else {
      assert s[..|s| - 1][..i] == s[..i];
      KeepPrefix(s[..|s| - 1], i, P);
    }
  }

  lemma StoppedAt(candidates: seq<string>, actions: set<string>, failing: set<string>, i: nat)
    requires i < |candidates| && candidates[i] in actions && candidates[i] in failing
             && NoFailure(Keep(candidates[..i], actions), failing)
    ensures UpToFailure(Keep(candidates, actions), failing) == Keep(candidates[..i], actions) + [candidates[i]]
  {
    var before := Keep(candidates[..i], actions);
    assert candidates[..i + 1][..i] == candidates[..i];
    assert Keep(candidates[..i + 1], actions) == before + [candidates[i]];
    KeepPrefix(candidates, i + 1, actions);
    var due, m := Keep(candidates, actions), |before| + 1;
    assert due[..m] == before + [candidates[i]];
    assert due[..m - 1] == due[..m][..m - 1] == before;
    assert due[m - 1] == due[..m][m - 1];
    StopsThere(due, m, failing);
  }

  /** Only the last compensation of a strict run can have failed. */
  lemma {:induction false} FailureLast(due: seq<string>, failing: set<string>)
    ensures var ran := UpToFailure(due, failing);
            && ran <= due && (Fails(ran, failing) <==> ran != [] && ran[|ran| - 1] in failing)
            && (!Fails(ran, failing) ==> ran == due)
  {
    if due != [] { FailureLast(due[..|due| - 1], failing); }
  }

  /** A compensated node shows its verdict, every other node keeps its state. */
  lemma {:induction false} MarkedState(states: States, ran: seq<string>, failing: set<string>, x: string)
    ensures x in ran ==> x in Mark(states, ran, failing) && Mark(states, ran, failing)[x] == Verdict(x, failing)
    ensures x !in ran ==> (x in Mark(states, ran, failing) <==> x in states)
    ensures x !in ran && x in states ==> Mark(states, ran, failing)[x] == states[x]
  {
    if ran != [] { MarkedState(states, ran[..|ran| - 1], failing, x); }
  }
}

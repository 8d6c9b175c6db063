/** stablePortableTopology: Kahn's algorithm over depends_on lists with a sorted ready list. */
module PortableTopology {
  import opened Digraph
  import opened StringOrder

  /** depends_on list of every node. */
  type Graph = map<string, seq<string>>

  ghost predicate AllKnown(g: Graph) {
    forall id :: id in g ==> forall d :: d in g[id] ==> d in g
  }

  /** An arc leads from a dependency to the node that names it. */
  ghost function Arcs(g: Graph): set<(string, string)>
    requires AllKnown(g)
  {
    set id, d | id in g && d in g && d in g[id] :: (d, id)
  }

  /** A list of all nodes in which dependencies come first. */
  ghost predicate IsOrder(g: Graph, order: seq<string>) {
    && Distinct(order)
    && Elems(order) == g.Keys
    && DepsFirst(g, order)
  }

  ghost predicate DepsFirst(g: Graph, order: seq<string>) {
    forall i :: 0 <= i < |order| && order[i] in g ==> forall d :: d in g[order[i]] ==> d in order[..i]
  }

  ghost predicate LeastOrder(g: Graph, order: seq<string>) {
    IsOrder(g, order) && forall o :: IsOrder(g, o) ==> ListLeq(order, o)
  }

  /** There is at most one least order, so it cannot depend on how maps are iterated. */
  lemma LeastOrderUnique(g: Graph, a: seq<string>, b: seq<string>)
    requires LeastOrder(g, a) && LeastOrder(g, b)
    ensures a == b
  {
    if a != b { ListLessAsymmetric(a, b); }
  }

  // ---- counting ------------------------------------------------------------

  /** Entries of a dependency list that are not yet emitted, with multiplicity. */
  ghost function Waiting(deps: seq<string>, emitted: set<string>): nat {
    if deps == [] then 0
    else Waiting(deps[..|deps| - 1], emitted) + (if deps[|deps| - 1] in emitted then 0 else 1)
  }

  lemma {:induction false} WaitingAfterEmit(deps: seq<string>, emitted: set<string>, u: string)
    requires u !in emitted
    ensures Waiting(deps, emitted) == Waiting(deps, emitted + {u}) + multiset(deps)[u]
  {
    if deps != [] {
      var n := |deps| - 1;
      WaitingAfterEmit(deps[..n], emitted, u);
      assert deps == deps[..n] + [deps[n]];
    }
  }

  lemma {:induction false} WaitingZero(deps: seq<string>, emitted: set<string>)
    ensures Waiting(deps, emitted) == 0 <==> forall d :: d in deps ==> d in emitted
  {
    if deps != [] {
      var n := |deps| - 1;
      WaitingZero(deps[..n], emitted);
      assert deps == deps[..n] + [deps[n]];
    }
  }

  // ---- building the tables -------------------------------------------------

  /** How often outgoing[d] lists id. */
  ghost function Lists(outgoing: Graph, d: string, id: string): nat {
    if d in outgoing then multiset(outgoing[d])[id] else 0
  }

  ghost function Names(g: Graph, scanned: set<string>, id: string, d: string): nat {
    if id in scanned && id in g then multiset(g[id])[d] else 0
  }

  /** outgoing[d] lists a scanned id as often as id names d. */
  ghost predicate Outgoing(g: Graph, scanned: set<string>, outgoing: Graph) {
    outgoing.Keys == g.Keys && forall d, id :: d in g ==> Lists(outgoing, d, id) == Names(g, scanned, id, d)
  }

  lemma ListsAfterAppend(outgoing: Graph, dependency: string, id: string, d: string, x: string)
    requires dependency in outgoing
    ensures Lists(outgoing[dependency := outgoing[dependency] + [id]], d, x)
         == Lists(outgoing, d, x) + (if d == dependency && x == id then 1 else 0)
  {
  }

  method ScanNode(g: Graph, id: string, outgoing0: Graph) returns (ok: bool, degree: int, outgoing: Graph)
    requires id in g && outgoing0.Keys == g.Keys
    ensures ok <==> forall d :: d in g[id] ==> d in g
    ensures ok ==> degree == |g[id]| && outgoing.Keys == g.Keys
    ensures ok ==> forall d, x ::
              Lists(outgoing, d, x) == Lists(outgoing0, d, x) + (if x == id then multiset(g[id])[d] else 0)
  {
    degree, outgoing := 0, outgoing0;
    var deps := g[id];
    for i := 0 to |deps|
      invariant forall k :: 0 <= k < i ==> deps[k] in g
      invariant degree == i && outgoing.Keys == g.Keys
      invariant forall d, x ::
                  Lists(outgoing, d, x) == Lists(outgoing0, d, x) + (if x == id then multiset(deps[..i])[d] else 0)
    {
      var dependency := deps[i];
      if dependency !in g {
        return false, degree, outgoing;
      }
      assert deps[..i + 1] == deps[..i] + [dependency];
      forall d, x { ListsAfterAppend(outgoing, dependency, id, d, x); }
      degree := degree + 1;
      outgoing := outgoing[dependency := outgoing[dependency] + [id]];
    }
    assert deps[..|deps|] == deps;
    ok := true;
  }

  lemma {:induction false} WaitingNone(deps: seq<string>)
    ensures Waiting(deps, {}) == |deps|
  {
    if deps != [] { WaitingNone(deps[..|deps| - 1]); }
  }

  method BuildTables(g: Graph) returns (ok: bool, indegree: map<string, int>, outgoing: Graph)
    ensures ok <==> AllKnown(g)
    ensures ok ==> indegree.Keys == g.Keys && forall id :: id in g ==> indegree[id] == Waiting(g[id], {})
    ensures ok ==> Outgoing(g, g.Keys, outgoing)
  {
    indegree := map id | id in g :: 0;
    outgoing := map id | id in g :: [];
    var todo := g.Keys;
    while todo != {}
      invariant todo <= g.Keys && indegree.Keys == g.Keys
      invariant forall id :: id in g && id !in todo ==> forall d :: d in g[id] ==> d in g
      invariant forall id :: id in g && id !in todo ==> indegree[id] == Waiting(g[id], {})
      invariant Outgoing(g, g.Keys - todo, outgoing)
      decreases todo
    {
      var id :| id in todo;
      var known, degree, out := ScanNode(g, id, outgoing);
      if !known {
        return false, indegree, outgoing;
      }
      WaitingNone(g[id]);
      OutgoingExtends(g, g.Keys - todo, id, outgoing, out);
      indegree := indegree[id := degree];
      outgoing := out;
      assert g.Keys - (todo - {id}) == (g.Keys - todo) + {id};
      todo := todo - {id};
    }
    assert g.Keys - todo == g.Keys;
    ok := true;
  }

  lemma OutgoingExtends(g: Graph, scanned: set<string>, id: string, before: Graph, after: Graph)
    requires Outgoing(g, scanned, before) && id !in scanned && id in g && after.Keys == g.Keys
    requires forall d, x :: Lists(after, d, x) == Lists(before, d, x) + (if x == id then multiset(g[id])[d] else 0)
    ensures Outgoing(g, scanned + {id}, after)
  {
    forall d, x | d in g ensures Lists(after, d, x) == Names(g, scanned + {id}, x, d) {
      assert Lists(before, d, x) == Names(g, scanned, x, d);
    }
  }

  // ---- the ready list ------------------------------------------------------

  lemma {:induction false} DistinctMultiset(s: seq<string>)
    ensures Distinct(s) <==> forall x :: multiset(s)[x] <= 1
  {
    if s != [] {
      var n := |s| - 1;
      DistinctMultiset(s[..n]);
      assert s == s[..n] + [s[n]];
      if !Distinct(s[..n]) {
        var x :| multiset(s[..n])[x] > 1;
        assert multiset(s)[x] > 1;
        var i, j :| 0 <= i < j < n && s[..n][i] == s[..n][j];
        assert s[i] == s[j];
      } else if s[n] in s[..n] {
        assert multiset(s)[s[n]] > 1;
        var k :| 0 <= k < n && s[..n][k] == s[n];
        assert s[k] == s[n];
      } else {
        forall x ensures multiset(s)[x] <= 1 {
          assert x == s[n] ==> multiset(s[..n])[x] == 0;
        }
      }
    }
  }

  /** Sorting the tail of a list without repetitions keeps it so, and keeps its members. */
  lemma SortTail(order: seq<string>, ready: seq<string>)
    requires Distinct(order + ready)
    ensures Distinct(order + Sort(ready))
    ensures Elems(order + Sort(ready)) == Elems(order + ready)
  {
    DistinctMultiset(order + ready);
    DistinctMultiset(order + Sort(ready));
    assert multiset(order + Sort(ready)) == multiset(order + ready);
    SortMembers(ready);
  }

  ghost predicate ReadyIs(g: Graph, order: seq<string>, ready: seq<string>, indegree: map<string, int>) {
    && indegree.Keys == g.Keys
    && Distinct(order + ready)
    && Elems(order + ready) <= g.Keys
    && (forall v :: v in indegree ==> (v in Elems(order + ready) <==> indegree[v] == 0))
    && Sorted(ready)
  }

  lemma AppendReady(order: seq<string>, ready: seq<string>, x: string)
    requires Distinct(order + ready) && x !in Elems(order + ready)
    ensures Distinct(order + Sort(ready + [x]))
    ensures Elems(order + Sort(ready + [x])) == Elems(order + ready) + {x}
  {
    assert order + (ready + [x]) == (order + ready) + [x];
    assert Elems((order + ready) + [x]) == Elems(order + ready) + {x};
    SortTail(order, ready + [x]);
  }

  /** Take one open dependency off each listed node; a node that has none left becomes ready. */
  method Release(g: Graph, next: seq<string>, indegree0: map<string, int>, ready0: seq<string>,
                 ghost order: seq<string>)
    returns (indegree: map<string, int>, ready: seq<string>)
    requires ReadyIs(g, order, ready0, indegree0)
    requires forall t :: t in next ==> t in g
    requires forall v :: v in indegree0 ==> indegree0[v] >= multiset(next)[v]
    ensures ReadyIs(g, order, ready, indegree)
    ensures forall v :: v in indegree0 ==> indegree[v] == indegree0[v] - multiset(next)[v]
  {
    hide Sort, Insert, Sorted;
    indegree, ready := indegree0, ready0;
    for j := 0 to |next|
      invariant ReadyIs(g, order, ready, indegree)
      invariant forall v :: v in indegree0 ==> indegree[v] == indegree0[v] - multiset(next[..j])[v]
    {
      var id := next[j];
      CountNext(next, j);
      indegree := indegree[id := indegree[id] - 1];
      if indegree[id] == 0 {
        AppendReady(order, ready, id);
        SortSorted(ready + [id]);
        ready := Sort(ready + [id]);
      }
    }
    assert next[..|next|] == next;
  }

  /** Emitted so far: a dependency-closed prefix that no complete order precedes. */
  ghost predicate Prefix(g: Graph, order: seq<string>) {
    && Distinct(order)
    && DepsFirst(g, order)
    && forall o :: IsOrder(g, o) ==> |order| <= |o| && ListLeq(order, o[..|order|])
  }

  ghost predicate Counts(g: Graph, order: seq<string>, indegree: map<string, int>) {
    forall v :: v in indegree ==> v in g && indegree[v] == Waiting(g[v], Elems(order))
  }

  /** Any complete order that agrees so far continues with a ready node. */
  lemma NextIsReady(g: Graph, order: seq<string>, ready: seq<string>, indegree: map<string, int>, o: seq<string>)
    requires ReadyIs(g, order, ready, indegree) && Counts(g, order, indegree)
    requires IsOrder(g, o) && |order| < |o| && order == o[..|order|]
    ensures o[|order|] in ready
  {
    var n := |order|;
    assert o[n] in Elems(o);
    WaitingZero(g[o[n]], Elems(order));
    assert forall k :: 0 <= k < n ==> order[k] == o[k];
    assert o[n] in order + ready;
  }

  lemma SortedHead(ready: seq<string>, x: string)
    requires Sorted(ready) && x in ready
    ensures ready[0] == x || Less(ready[0], x)
  {
    var k :| 0 <= k < |ready| && ready[k] == x;
    LessTotal(ready[0], x);
  }

  lemma CompleteOrderLength(g: Graph, o: seq<string>, order: seq<string>)
    requires IsOrder(g, o) && Distinct(order) && Elems(order) <= g.Keys
    ensures |order| <= |o|
    ensures |order| == |o| ==> Elems(order) == g.Keys
  {
    DistinctCardinality(o);
    DistinctCardinality(order);
    SubsetCardinality(Elems(order), g.Keys);
  }

  lemma PrefixExtends(g: Graph, order: seq<string>, ready: seq<string>, indegree: map<string, int>)
    requires ReadyIs(g, order, ready, indegree) && Counts(g, order, indegree) && Prefix(g, order) && ready != []
    ensures Prefix(g, order + [ready[0]])
  {
    var x := ready[0];
    var next := order + [x];
    assert x in ready && x in Elems(order + ready);
    assert x !in order by {
      assert (order + ready)[|order|] == x;
      assert forall k :: 0 <= k < |order| ==> (order + ready)[k] == order[k];
    }
    ExtendDepsFirst(g, order, x, indegree);
    forall o | IsOrder(g, o) ensures |next| <= |o| && ListLeq(next, o[..|next|]) {
      assert Elems(next) <= g.Keys by {
        assert forall k :: 0 <= k < |next| ==> next[k] in order + ready;
      }
      CompleteOrderLength(g, o, next);
      if order == o[..|order|] {
        NextIsReady(g, order, ready, indegree, o);
        SortedHead(ready, o[|order|]);
      }
      ListLeqExtends(order, x, o);
    }
  }

  lemma ExtendDepsFirst(g: Graph, order: seq<string>, x: string, indegree: map<string, int>)
    requires DepsFirst(g, order) && Counts(g, order, indegree) && x in indegree && indegree[x] == 0
    ensures DepsFirst(g, order + [x])
  {
    WaitingZero(g[x], Elems(order));
    var next := order + [x];
    forall i | 0 <= i < |next| && next[i] in g ensures forall d :: d in g[next[i]] ==> d in next[..i] {
      assert next[..i] == order[..i];
      if i == |order| { assert order[..i] == order; }
    }
  }

  lemma CountsAfterEmit(g: Graph, order: seq<string>, x: string, indegree: map<string, int>, outgoing: Graph)
    requires Counts(g, order, indegree) && indegree.Keys == g.Keys && Outgoing(g, g.Keys, outgoing)
    requires x !in order && x in g
    ensures forall v :: v in indegree ==>
              indegree[v] == Waiting(g[v], Elems(order + [x])) + multiset(outgoing[x])[v]
    ensures forall t :: t in outgoing[x] ==> t in g
  {
    assert Elems(order + [x]) == Elems(order) + {x};
    forall v | v in indegree
      ensures indegree[v] == Waiting(g[v], Elems(order + [x])) + multiset(outgoing[x])[v]
    {
      WaitingAfterEmit(g[v], Elems(order), x);
      assert Lists(outgoing, x, v) == Names(g, g.Keys, v, x);
    }
    forall t | t in outgoing[x] ensures t in g {
      assert multiset(outgoing[x])[t] > 0;
      assert Lists(outgoing, x, t) == Names(g, g.Keys, t, x);
    }
  }

  ghost predicate TopoState(g: Graph, order: seq<string>, ready: seq<string>, indegree: map<string, int>) {
    ReadyIs(g, order, ready, indegree) && Counts(g, order, indegree) && Prefix(g, order)
  }

  lemma TakeReady(order: seq<string>, ready: seq<string>)
    requires Distinct(order + ready) && ready != []
    ensures ready[0] !in order && order + ready == (order + [ready[0]]) + ready[1..]
  {
    assert (order + ready)[|order|] == ready[0];
    assert forall k :: 0 <= k < |order| ==> (order + ready)[k] == order[k];
  }

  lemma ReadyTail(g: Graph, order: seq<string>, ready: seq<string>, indegree: map<string, int>)
    requires ReadyIs(g, order, ready, indegree) && ready != []
    ensures ReadyIs(g, order + [ready[0]], ready[1..], indegree)
    ensures ready[0] !in order && ready[0] in g
  {
    TakeReady(order, ready);
    assert ready[0] in Elems(order + ready);
  }

  method EmitReady(g: Graph, outgoing: Graph, order0: seq<string>, ready0: seq<string>, indegree0: map<string, int>)
    returns (order: seq<string>, ready: seq<string>, indegree: map<string, int>)
    requires TopoState(g, order0, ready0, indegree0) && ready0 != [] && Outgoing(g, g.Keys, outgoing)
    ensures TopoState(g, order, ready, indegree)
    ensures order == order0 + [ready0[0]]
  {
    var id := ready0[0];
    PrefixExtends(g, order0, ready0, indegree0);
    ReadyTail(g, order0, ready0, indegree0);
    CountsAfterEmit(g, order0, id, indegree0, outgoing);
    order := order0 + [id];
    SortMembers(outgoing[id]);
    indegree, ready := Release(g, Sort(outgoing[id]), indegree0, ready0[1..], order);
  }

  // ---- termination of the sort: complete exactly when acyclic ---------------

  lemma ArcMeaning(g: Graph, a: string, b: string)
    requires AllKnown(g)
    ensures (a, b) in Arcs(g) <==> b in g && a in g && a in g[b]
  {
  }

  lemma CompleteIsAcyclic(g: Graph, order: seq<string>)
    requires AllKnown(g) && IsOrder(g, order)
    ensures Acyclic(Arcs(g))
  {
    var E := Arcs(g);
    forall i, j | 0 <= i < |order| && 0 <= j < |order| && (order[i], order[j]) in E ensures i < j {
      ArcMeaning(g, order[i], order[j]);
      assert order[i] in order[..j];
      var k :| 0 <= k < j && order[..j][k] == order[i];
      assert order[k] == order[i];
    }
    OrderedIsAcyclic(order, E);
  }

  lemma WaitsForAnother(g: Graph, order: seq<string>, indegree: map<string, int>, v: string) returns (d: string)
    requires AllKnown(g) && Counts(g, order, indegree) && v in g && v in indegree && indegree[v] != 0
    ensures d in g && d !in order && (d, v) in Arcs(g)
  {
    WaitingZero(g[v], Elems(order));
    d :| d in g[v] && d !in Elems(order);
    ArcMeaning(g, d, v);
  }

  lemma IncompleteHasCycle(g: Graph, order: seq<string>, indegree: map<string, int>)
    requires AllKnown(g) && ReadyIs(g, order, [], indegree) && Counts(g, order, indegree)
    requires Elems(order) != g.Keys
    ensures !Acyclic(Arcs(g))
  {
    assert order + [] == order;
    ProperSubsetLeavesSome(Elems(order), g.Keys);
    var S := g.Keys - Elems(order);
    forall v | v in S ensures HasPredecessor(S, Arcs(g), v) {
      var d := WaitsForAnother(g, order, indegree, v);
      assert d in S;
    }
    NoSourceHasCycle(S, Arcs(g));
  }

  method SeedReady(g: Graph, indegree: map<string, int>) returns (ready: seq<string>)
    requires indegree.Keys == g.Keys
    ensures ReadyIs(g, [], ready, indegree)
  {
    ready := [];
    var todo := indegree.Keys;
    while todo != {}
      invariant todo <= indegree.Keys
      invariant Distinct(ready) && Elems(ready) <= indegree.Keys - todo
      invariant forall v :: v in indegree && v !in todo ==> (v in Elems(ready) <==> indegree[v] == 0)
      decreases todo
    {
      var id :| id in todo;
      if indegree[id] == 0 {
        assert id !in Elems(ready);
        assert Elems(ready + [id]) == Elems(ready) + {id};
        ready := ready + [id];
      }
      todo := todo - {id};
    }
    SeedSorted(g, ready, indegree);
    ready := Sort(ready);
  }

  lemma SeedSorted(g: Graph, ready: seq<string>, indegree: map<string, int>)
    requires indegree.Keys == g.Keys && Distinct(ready) && Elems(ready) <= indegree.Keys
    requires forall v :: v in indegree ==> (v in Elems(ready) <==> indegree[v] == 0)
    ensures ReadyIs(g, [], Sort(ready), indegree)
  {
    hide Sort;
    SortSorted(ready);
    assert [] + ready == ready && [] + Sort(ready) == Sort(ready);
    SortTail([], ready);
  }

  lemma EmptyPrefix(g: Graph, ready: seq<string>, indegree: map<string, int>)
    requires ReadyIs(g, [], ready, indegree)
    requires forall id :: id in g ==> indegree[id] == Waiting(g[id], {})
    ensures TopoState(g, [], ready, indegree)
  {
    assert Elems<string>([]) == {};
  }

  lemma FinalOrder(g: Graph, order: seq<string>, indegree: map<string, int>)
    requires AllKnown(g) && TopoState(g, order, [], indegree)
    ensures |order| == |g| <==> Acyclic(Arcs(g))
    ensures |order| == |g| ==> LeastOrder(g, order)
  {
    assert order + [] == order;
    DistinctCardinality(order);
    SubsetCardinality(Elems(order), g.Keys);
    assert |g| == |g.Keys|;
    if |order| == |g| {
      CompleteIsAcyclic(g, order);
      forall o | IsOrder(g, o) ensures ListLeq(order, o) {
        DistinctCardinality(o);
        assert o[..|order|] == o;
      }
    } else {
      IncompleteHasCycle(g, order, indegree);
    }
  }

  /** Succeeds exactly when every dependency is a node and there is no cycle; the order is
      then the lexicographically least one, whatever order the maps are iterated in. */
  method StablePortableTopology(g: Graph) returns (order: seq<string>, ok: bool)
    ensures ok <==> AllKnown(g) && Acyclic(Arcs(g))
    ensures ok ==> LeastOrder(g, order)
  {
    var known, indegree, outgoing := BuildTables(g);
    if !known {
      return [], false;
    }
    var ready := SeedReady(g, indegree);
    order := [];
    EmptyPrefix(g, ready, indegree);
    while ready != []
      invariant TopoState(g, order, ready, indegree)
      decreases |g| - |order|
    {
      var next, rest, left := EmitReady(g, outgoing, order, ready, indegree);
      OrderFits(g, next, rest, left);
      order, ready, indegree := next, rest, left;
    }
    FinalOrder(g, order, indegree);
    ok := |order| == |g|;
  }

  lemma OrderFits(g: Graph, order: seq<string>, ready: seq<string>, indegree: map<string, int>)
    requires TopoState(g, order, ready, indegree)
    ensures |order| <= |g|
  {
    assert forall k :: 0 <= k < |order| ==> order[k] in order + ready;
    DistinctCardinality(order);
    SubsetCardinality(Elems(order), g.Keys);
  }
}

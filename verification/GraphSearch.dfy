/** The breadth-first search the scheduler uses to ask whether a failed node can still
    influence an end node. */
module GraphSearch {
  import opened Digraph
  import opened DagValidator

  ghost predicate FrontierComplete(E: set<(string, string)>, visited: set<string>, queue: seq<string>) {
    forall a, b :: a in visited && (a, b) in E ==> b in visited || b in queue
  }

  /** A visited set that is closed under E and lacks b shows that b is out of reach. */
  lemma {:induction false} ClosedSetMisses(E: set<(string, string)>, visited: set<string>, p: seq<string>)
    requires p != [] && Walk(E, p) && p[0] in visited
    requires forall a, b :: a in visited && (a, b) in E ==> b in visited
    ensures p[|p| - 1] in visited
  {
    if |p| > 1 {
      assert (p[0], p[1]) in E;
      forall i | 0 <= i < |p| - 2 ensures (p[1..][i], p[1..][i + 1]) in E {
        assert (p[i + 1], p[i + 2]) in E;
      }
      ClosedSetMisses(E, visited, p[1..]);
    }
  }

  lemma ReachesStep(E: set<(string, string)>, a: string, b: string, c: string)
    requires Reaches(E, a, b) && (b, c) in E
    ensures Reaches(E, a, c)
  {
    var p: seq<string> :| |p| >= 1 && p[0] == a && p[|p| - 1] == b && Walk(E, p);
    var q := p + [c];
    assert Walk(E, q);
  }

  lemma {:induction false} TargetsAreArcs(edges: seq<DagEdge>, u: string, t: string)
    ensures t in Targets(edges, u) <==> (u, t) in Arcs(edges)
  {
    ArcInEdges(edges, u, t);
    if edges != [] {
      var n := |edges| - 1;
      TargetsAreArcs(edges[..n], u, t);
      ArcInEdges(edges[..n], u, t);
      assert edges == edges[..n] + [edges[n]];
    }
  }

  ghost predicate Successors(edges: seq<DagEdge>, adj: map<string, seq<string>>) {
    forall u :: Targets(edges, u) == if u in adj then adj[u] else []
  }

  method BuildSuccessors(edges: seq<DagEdge>) returns (adj: map<string, seq<string>>)
    ensures Successors(edges, adj)
  {
    adj := map[];
    for i := 0 to |edges|
      invariant Successors(edges[..i], adj)
    {
      var e := edges[i];
      var known := if e.from in adj then adj[e.from] else [];
      forall u { CountsExtend(edges, i, u); }
      adj := adj[e.from := known + [e.to]];
    }
    assert edges[..|edges|] == edges;
  }

  ghost function Universe(edges: seq<DagEdge>, start: string): set<string> {
    {start} + set e | e in edges :: e.to
  }

  lemma TargetsInUniverse(edges: seq<DagEdge>, start: string, u: string)
    ensures Elems(Targets(edges, u)) <= Universe(edges, start)
  {
    forall t | t in Targets(edges, u) ensures t in Universe(edges, start) {
      TargetsAreArcs(edges, u, t);
      ArcInEdges(edges, u, t);
    }
  }

  ghost predicate Explored(edges: seq<DagEdge>, start: string, visited: set<string>, queue: seq<string>) {
    && visited + Elems(queue) <= Universe(edges, start)
    && start in visited + Elems(queue)
    && (forall q :: q in queue ==> Reaches(Arcs(edges), start, q))
    && FrontierComplete(Arcs(edges), visited, queue)
  }

  lemma ExploreStep(edges: seq<DagEdge>, start: string, visited: set<string>, queue: seq<string>)
    requires Explored(edges, start, visited, queue) && queue != []
    ensures queue[0] in visited ==> Explored(edges, start, visited, queue[1..])
    ensures Explored(edges, start, visited + {queue[0]}, queue[1..] + Targets(edges, queue[0]))
  {
    var cur, E := queue[0], Arcs(edges);
    assert queue == [cur] + queue[1..];
    TargetsInUniverse(edges, start, cur);
    forall t | t in Targets(edges, cur) ensures Reaches(E, start, t) {
      TargetsAreArcs(edges, cur, t);
      ReachesStep(E, start, cur, t);
    }
    forall a, b | a in visited + {cur} && (a, b) in E
      ensures b in visited + {cur} || b in queue[1..] + Targets(edges, cur)
    {
      if a == cur { TargetsAreArcs(edges, cur, b); }
    }
  }

  /** Breadth-first search decides whether a walk of edges leads from one node to another. */
  method CanReachEndNode(endId: string, failedId: string, edges: seq<DagEdge>) returns (r: bool)
    ensures r <==> Reaches(Arcs(edges), failedId, endId)
  {
    var adj := BuildSuccessors(edges);
    var visited: set<string> := {};
    var queue := [failedId];
    assert Reaches(Arcs(edges), failedId, failedId) by {
      assert Walk(Arcs(edges), [failedId]);
    }
    while queue != []
      invariant Explored(edges, failedId, visited, queue)
      invariant endId !in visited
      decreases Universe(edges, failedId) - visited, |queue|
    {
      var cur := queue[0];
      if cur == endId {
        return true;
      }
      ExploreStep(edges, failedId, visited, queue);
      assert cur in Elems(queue);
      queue := queue[1..];
      if cur in visited {
        continue;
      }
      visited := visited + {cur};
      queue := queue + (if cur in adj then adj[cur] else []);
    }
    if Reaches(Arcs(edges), failedId, endId) {
      ghost var p: seq<string> :| |p| >= 1 && p[0] == failedId && p[|p| - 1] == endId && Walk(Arcs(edges), p);
      ClosedSetMisses(Arcs(edges), visited, p);
    }
    return false;
  }
}

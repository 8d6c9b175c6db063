/** Finite directed graphs as sets of pairs: walks, cycles, and the two facts every
    topological sort rests on: an ordering excludes cycles, and a set of nodes none of
    which is a source contains one. */
module Digraph {

  /** Consecutive elements of p are joined by arcs of E. */
  ghost predicate Walk<T(!new)>(E: set<(T, T)>, p: seq<T>) {
    forall i :: 0 <= i < |p| - 1 ==> (p[i], p[i + 1]) in E
  }

  ghost predicate Cycle<T(!new)>(E: set<(T, T)>, p: seq<T>) {
    |p| >= 2 && p[0] == p[|p| - 1] && Walk(E, p)
  }

  ghost predicate Acyclic<T(!new)>(E: set<(T, T)>) {
    forall p: seq<T> :: !Cycle(E, p)
  }

  ghost predicate Reaches<T(!new)>(E: set<(T, T)>, a: T, b: T) {
    exists p: seq<T> :: |p| >= 1 && p[0] == a && p[|p| - 1] == b && Walk(E, p)
  }

  ghost predicate Distinct<T>(s: seq<T>) {
    forall i, j :: 0 <= i < j < |s| ==> s[i] != s[j]
  }

  ghost function Elems<T>(s: seq<T>): set<T> {
    set x | x in s
  }

  /** Every arc between two listed nodes points forward in the list. */
  ghost predicate Topological<T(!new)>(order: seq<T>, E: set<(T, T)>) {
    forall i, j :: 0 <= i < |order| && 0 <= j < |order| && (order[i], order[j]) in E ==> i < j
  }

  ghost predicate Closed<T(!new)>(S: set<T>, E: set<(T, T)>) {
    forall e :: e in E ==> e.0 in S && e.1 in S
  }

  ghost predicate HasPredecessor<T(!new)>(S: set<T>, E: set<(T, T)>, v: T) {
    exists u :: u in S && (u, v) in E
  }

  ghost predicate HasSuccessor<T(!new)>(S: set<T>, E: set<(T, T)>, u: T) {
    exists v :: v in S && (u, v) in E
  }

  lemma {:induction false} DistinctCardinality<T>(s: seq<T>)
    requires Distinct(s)
    ensures |Elems(s)| == |s|
  {
    if s == [] {
      assert Elems(s) == {};
    } else {
      var n := |s| - 1;
      DistinctCardinality(s[..n]);
      assert s == s[..n] + [s[n]];
      assert Elems(s) == Elems(s[..n]) + {s[n]};
    }
  }

  /** Counting the elements of a list one by one. */
  lemma CountNext<T>(s: seq<T>, j: nat)
    requires j < |s|
    ensures multiset(s[..j + 1]) == multiset(s[..j]) + multiset{s[j]}
    ensures multiset(s)[s[j]] >= multiset(s[..j])[s[j]] + 1
  {
    assert s[..j + 1] == s[..j] + [s[j]];
    assert s == s[..j + 1] + s[j + 1..];
  }

  lemma {:induction false} SubsetCardinality<T>(A: set<T>, B: set<T>)
    requires A <= B
    ensures |A| <= |B|
    ensures |A| == |B| ==> A == B
  {
    if A != {} {
      var x :| x in A;
      SubsetCardinality(A - {x}, B - {x});
      assert A == (A - {x}) + {x};
      assert B == (B - {x}) + {x};
    }
  }

  lemma ProperSubsetLeavesSome<T>(A: set<T>, B: set<T>)
    requires A <= B && A != B
    ensures B - A != {}
  {
    assert B == (B - A) + A;
  }

  /** A list drawn from S that is longer than S repeats an element. */
  lemma Pigeonhole<T(!new)>(s: seq<T>, S: set<T>) returns (i: int, j: int)
    requires |s| > |S|
    requires forall k :: 0 <= k < |s| ==> s[k] in S
    ensures 0 <= i < j < |s| && s[i] == s[j]
  {
    if Distinct(s) {
      DistinctCardinality(s);
      SubsetCardinality(Elems(s), S);
      assert false;
    }
    i, j :| 0 <= i < j < |s| && s[i] == s[j];
  }

  /** A walk of n arcs inside S that ends in x, following predecessors. */
  lemma {:induction false} BackwardWalk<T(!new)>(S: set<T>, E: set<(T, T)>, x: T, n: nat) returns (p: seq<T>)
    requires x in S
    requires forall v {:trigger HasPredecessor(S, E, v)} :: v in S ==> HasPredecessor(S, E, v)
    ensures |p| == n + 1 && p[n] == x && Walk(E, p)
    ensures forall k :: 0 <= k < |p| ==> p[k] in S
  {
    if n == 0 {
      p := [x];
    } else {
      assert HasPredecessor(S, E, x);
      var u :| u in S && (u, x) in E;
      var q := BackwardWalk(S, E, u, n - 1);
      p := q + [x];
    }
  }

  /** A non-empty finite set in which every node has a predecessor contains a cycle. */
  lemma NoSourceHasCycle<T(!new)>(S: set<T>, E: set<(T, T)>)
    requires S != {}
    requires forall v {:trigger HasPredecessor(S, E, v)} :: v in S ==> HasPredecessor(S, E, v)
    ensures !Acyclic(E)
  {
    var x :| x in S;
    var p := BackwardWalk(S, E, x, |S|);
    var i, j := Pigeonhole(p, S);
    assert Cycle(E, p[i..j + 1]);
  }

  ghost function Reversed<T>(s: seq<T>): (r: seq<T>)
    ensures |r| == |s| && forall i :: 0 <= i < |s| ==> r[i] == s[|s| - 1 - i]
  {
    seq(|s|, i requires 0 <= i < |s| => s[|s| - 1 - i])
  }

  ghost function Inverse<T>(E: set<(T, T)>): set<(T, T)> {
    set e | e in E :: (e.1, e.0)
  }

  /** The mirror image: a non-empty finite set in which every node has a successor. */
  lemma NoSinkHasCycle<T(!new)>(S: set<T>, E: set<(T, T)>)
    requires S != {}
    requires forall u {:trigger HasSuccessor(S, E, u)} :: u in S ==> HasSuccessor(S, E, u)
    ensures !Acyclic(E)
  {
    var I := Inverse(E);
    forall u | u in S ensures HasPredecessor(S, I, u) {
      assert HasSuccessor(S, E, u);
      var v :| v in S && (u, v) in E;
      assert (v, u) in I;
    }
    NoSourceHasCycle(S, I);
    var p :| Cycle(I, p);
    var q := Reversed(p);
    forall i | 0 <= i < |q| - 1 ensures (q[i], q[i + 1]) in E {
      var k := |p| - 2 - i;
      assert (p[k], p[k + 1]) in I;
    }
    assert Cycle(E, q);
  }

  lemma {:induction false} PositionsIncrease<T(!new)>(order: seq<T>, E: set<(T, T)>, p: seq<T>, a: int, b: int)
    requires Distinct(order) && Topological(order, E) && Closed(Elems(order), E)
    requires |p| >= 2 && Walk(E, p)
    requires 0 <= a < |order| && 0 <= b < |order| && order[a] == p[0] && order[b] == p[|p| - 1]
    ensures a < b
  {
    assert (p[0], p[1]) in E;
    var m :| 0 <= m < |order| && order[m] == p[1];
    if |p| > 2 {
      forall i | 0 <= i < |p| - 2 ensures (p[1..][i], p[1..][i + 1]) in E {
        assert (p[i + 1], p[i + 2]) in E;
      }
      PositionsIncrease(order, E, p[1..], m, b);
    }
  }

  /** A graph whose nodes can be listed with every arc pointing forward has no cycle. */
  lemma OrderedIsAcyclic<T(!new)>(order: seq<T>, E: set<(T, T)>)
    requires Distinct(order) && Topological(order, E) && Closed(Elems(order), E)
    ensures Acyclic(E)
  {
    forall p: seq<T> | Cycle(E, p) ensures false {
      assert (p[0], p[1]) in E;
      var a :| 0 <= a < |order| && order[a] == p[0];
      PositionsIncrease(order, E, p, a, a);
    }
  }
}

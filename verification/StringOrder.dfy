/** Bytewise string order, sorting, and the lexicographic order on lists of strings. */
module StringOrder {

  predicate Less(a: string, b: string) {
    if b == [] then false
    else if a == [] then true
    else a[0] < b[0] || (a[0] == b[0] && Less(a[1..], b[1..]))
  }

  lemma {:induction false} LessIrreflexive(a: string)
    ensures !Less(a, a)
  {
    if a != [] { LessIrreflexive(a[1..]); }
  }

  lemma {:induction false} LessTransitive(a: string, b: string, c: string)
    requires Less(a, b) && Less(b, c)
    ensures Less(a, c)
  {
    if a != [] && b != [] && c != [] && a[0] == b[0] && b[0] == c[0] {
      LessTransitive(a[1..], b[1..], c[1..]);
    }
  }

  lemma {:induction false} LessTotal(a: string, b: string)
    ensures a == b || Less(a, b) || Less(b, a)
  {
    if a != [] && b != [] && a[0] == b[0] {
      LessTotal(a[1..], b[1..]);
      if a[1..] == b[1..] {
        assert a == [a[0]] + a[1..];
        assert b == [b[0]] + b[1..];
      }
    }
  }

  lemma LessAsymmetric(a: string, b: string)
    requires Less(a, b)
    ensures !Less(b, a)
  {
    if Less(b, a) {
      LessTransitive(a, b, a);
      LessIrreflexive(a);
    }
  }

  ghost predicate Sorted(s: seq<string>) {
    forall i, j :: 0 <= i < j < |s| ==> !Less(s[j], s[i])
  }

  ghost predicate Ascending(s: seq<string>) {
    forall i, j :: 0 <= i < j < |s| ==> Less(s[i], s[j])
  }

  /** Insert x behind the elements that are not greater. */
  function Insert(s: seq<string>, x: string): (r: seq<string>)
    ensures multiset(r) == multiset(s) + multiset{x}
  {
    if s == [] then [x]
    else if Less(x, s[|s| - 1]) then
      assert s == s[..|s| - 1] + [s[|s| - 1]];
      Insert(s[..|s| - 1], x) + [s[|s| - 1]]
    else s + [x]
  }

  lemma {:induction false} InsertSorted(s: seq<string>, x: string)
    requires Sorted(s)
    ensures Sorted(Insert(s, x))
  {
    if s != [] {
      var n := |s| - 1;
      if Less(x, s[n]) {
        var r := Insert(s[..n], x);
        InsertSorted(s[..n], x);
        forall i | 0 <= i < |r| ensures !Less(s[n], r[i]) {
          assert r[i] in multiset(r);
          if r[i] == x { LessAsymmetric(x, s[n]); } else { assert r[i] in s[..n]; }
        }
      } else {
        forall i | 0 <= i < n ensures !Less(x, s[i]) {
          if Less(x, s[i]) {
            LessTotal(s[i], s[n]);
            if s[i] != s[n] { LessTransitive(x, s[i], s[n]); }
          }
        }
      }
    }
  }

  /** The library sort: an ascending permutation. */
  function Sort(s: seq<string>): (r: seq<string>)
    ensures multiset(r) == multiset(s)
  {
    if s == [] then []
    else
      assert s == s[..|s| - 1] + [s[|s| - 1]];
      Insert(Sort(s[..|s| - 1]), s[|s| - 1])
  }

  lemma {:induction false} SortSorted(s: seq<string>)
    ensures Sorted(Sort(s))
  {
    if s != [] {
      SortSorted(s[..|s| - 1]);
      InsertSorted(Sort(s[..|s| - 1]), s[|s| - 1]);
    }
  }

  lemma SortMembers(s: seq<string>)
    ensures |Sort(s)| == |s|
    ensures forall x :: x in Sort(s) <==> x in s
  {
    assert |multiset(Sort(s))| == |multiset(s)|;
    forall x ensures x in Sort(s) <==> x in s {
      assert x in Sort(s) <==> x in multiset(Sort(s));
      assert x in s <==> x in multiset(s);
    }
  }

  /** Nothing in a sorted list is greater than its last element. */
  lemma LastGreatest(s: seq<string>, x: string)
    requires Sorted(s) && x in s
    ensures !Less(s[|s| - 1], x)
  {
    var i :| 0 <= i < |s| && s[i] == x;
    if i == |s| - 1 { LessIrreflexive(x); }
  }

  lemma DropLast(s: seq<string>)
    requires s != []
    ensures multiset(s[..|s| - 1]) == multiset(s) - multiset{s[|s| - 1]} && s[|s| - 1] in multiset(s)
  {
    assert s == s[..|s| - 1] + [s[|s| - 1]];
  }

  lemma SameLast(a: seq<string>, b: seq<string>)
    requires Sorted(a) && Sorted(b) && a != [] && b != [] && multiset(a) == multiset(b)
    ensures a[|a| - 1] == b[|b| - 1]
  {
    var x, y := a[|a| - 1], b[|b| - 1];
    assert x in multiset(b) && y in multiset(a);
    LastGreatest(a, y);
    LastGreatest(b, x);
    LessTotal(x, y);
  }

  /** A sorted list is determined by its elements. */
  lemma {:induction false} SortedUnique(a: seq<string>, b: seq<string>)
    requires Sorted(a) && Sorted(b) && multiset(a) == multiset(b)
    ensures a == b
  {
    assert |multiset(a)| == |a| && |multiset(b)| == |b|;
    if a != [] {
      SameLast(a, b);
      DropLast(a);
      DropLast(b);
      SortedUnique(a[..|a| - 1], b[..|b| - 1]);
      assert a == a[..|a| - 1] + [a[|a| - 1]];
    }
  }

  lemma {:induction false} SameMultiset(a: seq<string>, b: seq<string>)
    requires forall i, j :: 0 <= i < j < |a| ==> a[i] != a[j]
    requires forall i, j :: 0 <= i < j < |b| ==> b[i] != b[j]
    requires forall x :: x in a <==> x in b
    ensures multiset(a) == multiset(b)
  {
    forall x ensures multiset(a)[x] == multiset(b)[x] {
      CountOne(a, x);
      CountOne(b, x);
    }
  }

  lemma {:induction false} CountOne(a: seq<string>, x: string)
    requires forall i, j :: 0 <= i < j < |a| ==> a[i] != a[j]
    ensures multiset(a)[x] == if x in a then 1 else 0
  {
    if a != [] {
      var n := |a| - 1;
      CountOne(a[..n], x);
      assert a == a[..n] + [a[n]];
    }
  }

  lemma RepeatCounts(a: seq<string>, i: nat, j: nat)
    requires i < j < |a| && a[i] == a[j]
    ensures multiset(a)[a[i]] >= 2
  {
    assert a == a[..i + 1] + a[i + 1..];
    assert a[..i + 1][i] == a[i] && a[i + 1..][j - i - 1] == a[j];
    assert a[i] in multiset(a[..i + 1]) && a[i] in multiset(a[i + 1..]);
    assert multiset(a)[a[i]] == multiset(a[..i + 1])[a[i]] + multiset(a[i + 1..])[a[i]];
  }

  lemma CountsDistinct(a: seq<string>)
    requires forall x :: multiset(a)[x] <= 1
    ensures forall i, j :: 0 <= i < j < |a| ==> a[i] != a[j]
  {
    forall i, j | 0 <= i < j < |a| ensures a[i] != a[j] {
      if a[i] == a[j] { RepeatCounts(a, i, j); }
    }
  }

  /** Sorting a list without repetitions gives a strictly ascending one. */
  lemma SortAscending(s: seq<string>)
    requires forall i, j :: 0 <= i < j < |s| ==> s[i] != s[j]
    ensures Ascending(Sort(s))
  {
    var r := Sort(s);
    assert multiset(r) == multiset(s);
    forall x ensures multiset(r)[x] <= 1 {
      CountOne(s, x);
      assert multiset(s)[x] <= 1;
    }
    CountsDistinct(r);
    SortSorted(s);
    forall i, j | 0 <= i < j < |r| ensures Less(r[i], r[j]) { LessTotal(r[i], r[j]); }
  }

  // ---- lists of strings ----------------------------------------------------

  /** s precedes t: at the first difference s has the smaller string. */
  ghost predicate ListLess(s: seq<string>, t: seq<string>) {
    exists k :: 0 <= k < |s| && k < |t| && s[..k] == t[..k] && Less(s[k], t[k])
  }

  ghost predicate ListLeq(s: seq<string>, t: seq<string>) { s == t || ListLess(s, t) }

  lemma ListLessAsymmetric(s: seq<string>, t: seq<string>)
    requires ListLess(s, t)
    ensures !ListLess(t, s)
  {
    var k :| 0 <= k < |s| && k < |t| && s[..k] == t[..k] && Less(s[k], t[k]);
    if ListLess(t, s) {
      var m :| 0 <= m < |s| && m < |t| && t[..m] == s[..m] && Less(t[m], s[m]);
      if m < k {
        assert s[..k][m] == t[..k][m];
        LessIrreflexive(s[m]);
      } else if k < m {
        assert s[..m][k] == t[..m][k];
        LessIrreflexive(s[k]);
      } else {
        LessAsymmetric(s[k], t[k]);
      }
    }
  }

  /** One more element on a list that precedes a longer one. */
  lemma ListLeqExtends(s: seq<string>, x: string, t: seq<string>)
    requires |s| < |t| && ListLeq(s, t[..|s|])
    requires s == t[..|s|] ==> x == t[|s|] || Less(x, t[|s|])
    ensures ListLeq(s + [x], t[..|s| + 1])
  {
    var n := |s|;
    var u := t[..n + 1];
    assert u[..n] == t[..n] && u[n] == t[n];
    if s == t[..n] {
      if x == t[n] {
        assert s + [x] == u;
      } else {
        assert (s + [x])[..n] == u[..n];
      }
    } else {
      var k :| 0 <= k < n && s[..k] == t[..n][..k] && Less(s[k], t[..n][k]);
      assert (s + [x])[..k] == s[..k] && u[..k] == t[..n][..k];
    }
  }
}

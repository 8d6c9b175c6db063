/** Parameters of an emitted condition: numbered in order of appearance, hence found again by name. */
module SqlNumbering {
  import opened Decimal
  import opened Flatten
  import opened SqlFilter
  import opened SqlRebind

  datatype SqlParam = SqlParam(name: string, value: SqlValue)

  function ParamOf(t: Tok): seq<SqlParam> { if t.Param? then [SqlParam(ParamName(t.index), t.value)] else [] }

  /** The parameters of a token list, in order. */
  function ParamList(ts: seq<Tok>): seq<SqlParam> { Flat(ts, ParamOf) }

  ghost predicate Numbered(ps: seq<SqlParam>, n: nat) {
    forall k :: 0 <= k < |ps| ==> ps[k].name == ParamName(n + k)
  }

  lemma NumberedAppend(a: seq<SqlParam>, b: seq<SqlParam>, n: nat)
    requires Numbered(a, n) && Numbered(b, n + |a|)
    ensures Numbered(a + b, n)
  {
    forall k | 0 <= k < |a + b| ensures (a + b)[k].name == ParamName(n + k) {
      if k >= |a| { assert (a + b)[k] == b[k - |a|]; }
    }
  }

  function AllParams(cs: seq<seq<Tok>>): seq<SqlParam> {
    if cs == [] then [] else AllParams(cs[..|cs| - 1]) + ParamList(cs[|cs| - 1])
  }

  lemma ClauseSnoc(cs: seq<seq<Tok>>, c: seq<Tok>)
    ensures AllParams(cs + [c]) == AllParams(cs) + ParamList(c)
  {
    assert (cs + [c])[..|cs|] == cs;
  }

  lemma ClauseNumbered(cs: seq<seq<Tok>>, c: seq<Tok>, n: nat)
    requires Numbered(AllParams(cs), n) && Numbered(ParamList(c), n + |AllParams(cs)|)
    ensures Numbered(AllParams(cs + [c]), n) && |AllParams(cs + [c])| == |AllParams(cs)| + |ParamList(c)|
  {
    ClauseSnoc(cs, c);
    NumberedAppend(AllParams(cs), ParamList(c), n);
  }

  lemma SepParams(sep: Tok)
    requires !sep.Param?
    ensures ParamList([sep]) == []
  {
    FlatOne(sep, ParamOf);
  }

  lemma {:induction false} JoinParams(cs: seq<seq<Tok>>, sep: Tok)
    requires !sep.Param?
    ensures ParamList(Join(cs, sep)) == AllParams(cs)
  {
    if |cs| == 1 {
      assert cs[..0] == [];
    } else if cs != [] {
      var before, last := Join(cs[..|cs| - 1], sep), cs[|cs| - 1];
      JoinParams(cs[..|cs| - 1], sep);
      FlatAppend(before + [sep], last, ParamOf);
      FlatAppend(before, [sep], ParamOf);
      SepParams(sep);
    }
  }

  lemma EnclosedParams(open: seq<Tok>, ts: seq<Tok>, close: seq<Tok>)
    requires ParamList(open) == [] && ParamList(close) == []
    ensures ParamList(open + ts + close) == ParamList(ts)
  {
    FlatAppend(open + ts, close, ParamOf);
    FlatAppend(open, ts, ParamOf);
  }

  lemma ParenParams(cs: seq<seq<Tok>>, sep: Tok)
    requires !sep.Param?
    ensures ParamList([TOpen] + Join(cs, sep) + [TClose]) == AllParams(cs)
  {
    SepParams(TOpen);
    SepParams(TClose);
    EnclosedParams([TOpen], Join(cs, sep), [TClose]);
    JoinParams(cs, sep);
  }

  lemma OneClause(cs: seq<seq<Tok>>)
    requires |cs| == 1
    ensures AllParams(cs) == ParamList(cs[0])
  {
    assert cs[..0] == [];
  }

  lemma WrapParams(cs: seq<seq<Tok>>, sep: Tok)
    requires !sep.Param?
    ensures ParamList(Wrap(cs, sep)) == AllParams(cs)
  {
    if |cs| == 1 { OneClause(cs); } else if cs != [] { ParenParams(cs, sep); }
  }

  lemma {:induction false} NonEmptyParams(cs: seq<seq<Tok>>)
    ensures AllParams(NonEmpty(cs)) == AllParams(cs)
  {
    if cs != [] {
      var before, last := cs[..|cs| - 1], cs[|cs| - 1];
      NonEmptyParams(before);
      if last == [] { assert NonEmpty(cs) == NonEmpty(before); } else { ClauseSnoc(NonEmpty(before), last); }
    }
  }

  lemma AtomNumbered(column: string, a: Atom, n: nat)
    ensures Numbered(ParamList(AtomToks(column, a, n)), n) && |ParamList(AtomToks(column, a, n))| == AtomParams(a)
  {
    var ts := AtomToks(column, a, n);
    match a
    case Compare(op, v) => ThreeParams(TColumn(column), TCompare(op), Param(n, v));
    case Between(lo, hi) =>
      assert ts == [TColumn(column), TBetween, Param(n, lo)] + [TAnd, Param(n + 1, hi)];
      FlatAppend([TColumn(column), TBetween, Param(n, lo)], [TAnd, Param(n + 1, hi)], ParamOf);
      ThreeParams(TColumn(column), TBetween, Param(n, lo));
      TwoParams(TAnd, Param(n + 1, hi));
    case In(negated, vs) =>
      if vs == [] {
        SepParams(if negated then TTrue else TFalse);
      } else {
        ThreeParams(TColumn(column), if negated then TNotIn else TIn, Param(n, List(vs)));
      }
  }

  lemma TwoParams(a: Tok, b: Tok)
    requires !a.Param? && b.Param?
    ensures ParamList([a, b]) == ParamOf(b)
  {
    assert [a, b][1..] == [b];
    FlatOne(b, ParamOf);
  }

  lemma ThreeParams(a: Tok, b: Tok, c: Tok)
    requires !a.Param? && !b.Param? && c.Param?
    ensures ParamList([a, b, c]) == ParamOf(c)
  {
    assert [a, b, c][1..] == [b, c];
    TwoParams(b, c);
  }

  lemma {:induction false} AtomsNumbered(column: string, atoms: seq<Atom>, n: nat)
    ensures Numbered(AllParams(AtomClauses(column, atoms, n)), n)
    ensures |AllParams(AtomClauses(column, atoms, n))| == AtomsParams(atoms)
  {
    hide AtomToks, ParamList;
    if atoms != [] {
      var k := |atoms| - 1;
      var m := n + AtomsParams(atoms[..k]);
      AtomsNumbered(column, atoms[..k], n);
      AtomNumbered(column, atoms[k], m);
      ClauseNumbered(AtomClauses(column, atoms[..k], n), AtomToks(column, atoms[k], m), n);
    }
  }

  /** The k-th parameter of a condition is named after n + k. */
  ghost predicate NumberedAt(c: Cond, n: nat) {
    Numbered(ParamList(Toks(c, n)), n) && |ParamList(Toks(c, n))| == Params(c)
  }

  lemma {:induction false} PartsNumbered(parts: seq<Cond>, n: nat)
    requires forall j, m: nat :: 0 <= j < |parts| ==> NumberedAt(parts[j], m)
    ensures Numbered(AllParams(Clauses(parts, n)), n) && |AllParams(Clauses(parts, n))| == PartsParams(parts)
    decreases |parts|
  {
    hide Toks, Params;
    if parts != [] {
      var k := |parts| - 1;
      var m := n + PartsParams(parts[..k]);
      PartsNumbered(parts[..k], n);
      assert NumberedAt(parts[k], m);
      ClauseNumbered(Clauses(parts[..k], n), Toks(parts[k], m), n);
    }
  }

  lemma NotParams(body: seq<Tok>)
    ensures ParamList([TNot, TOpen] + body + [TClose]) == ParamList(body)
  {
    assert [TNot, TOpen] == [TNot] + [TOpen];
    FlatAppend([TNot], [TOpen], ParamOf);
    SepParams(TNot);
    SepParams(TOpen);
    SepParams(TClose);
    EnclosedParams([TNot, TOpen], body, [TClose]);
  }

  lemma {:induction false} CondNumbered(c: Cond, n: nat)
    ensures NumberedAt(c, n)
    decreases c
  {
    match c
    case All(parts) =>
      forall j, m: nat | 0 <= j < |parts| ensures NumberedAt(parts[j], m) { CondNumbered(parts[j], m); }
      PartsNumbered(parts, n);
      WrapParams(Clauses(parts, n), TAnd);
    case Logic(either, parts) =>
      forall j, m: nat | 0 <= j < |parts| ensures NumberedAt(parts[j], m) { CondNumbered(parts[j], m); }
      PartsNumbered(parts, n);
      NonEmptyParams(Clauses(parts, n));
      WrapParams(NonEmpty(Clauses(parts, n)), if either then TOr else TAnd);
    case Not(body) =>
      CondNumbered(body, n);
      NotParams(Toks(body, n));
    case Test(column, atoms) =>
      AtomsNumbered(column, atoms, n);
      var cs := AtomClauses(column, atoms, n);
      if |cs| == 1 { OneClause(cs); } else { ParenParams(cs, TAnd); }
  }

  // ---- finding parameters by name ------------------------------------------

  /** Later entries of the list win. */
  function ByName(ps: seq<SqlParam>): map<string, SqlValue> {
    if ps == [] then map[] else ByName(ps[..|ps| - 1])[ps[|ps| - 1].name := ps[|ps| - 1].value]
  }

  ghost predicate DistinctNames(ps: seq<SqlParam>) {
    forall i, j :: 0 <= i < j < |ps| ==> ps[i].name != ps[j].name
  }

  lemma {:induction false} FoundByName(ps: seq<SqlParam>, k: nat)
    requires DistinctNames(ps) && k < |ps|
    ensures ps[k].name in ByName(ps) && ByName(ps)[ps[k].name] == ps[k].value
  {
    if k < |ps| - 1 { FoundByName(ps[..|ps| - 1], k); }
  }

  lemma ParamNameInjective(a: nat, b: nat)
    requires ParamName(a) == ParamName(b)
    ensures a == b
  {
    assert ParamName(a)[1..] == Dec(a) && ParamName(b)[1..] == Dec(b);
    DecInjective(a, b);
  }

  lemma NumberedDistinct(ps: seq<SqlParam>, n: nat)
    requires Numbered(ps, n)
    ensures DistinctNames(ps)
  {
    forall i, j | 0 <= i < j < |ps| ensures ps[i].name != ps[j].name {
      if ps[i].name == ps[j].name { ParamNameInjective(n + i, n + j); }
    }
  }

  lemma {:induction false} ParamListed(ts: seq<Tok>, i: nat) returns (k: nat)
    requires i < |ts| && ts[i].Param?
    ensures k < |ParamList(ts)| && ParamList(ts)[k] == SqlParam(ParamName(ts[i].index), ts[i].value)
    decreases |ts|
  {
    if i == 0 {
      k := 0;
    } else {
      var j := ParamListed(ts[1..], i - 1);
      k := j + |ParamOf(ts[0])|;
      assert ParamList(ts) == ParamOf(ts[0]) + ParamList(ts[1..]);
    }
  }

  /** With distinct names every parameter finds its own value, whatever else is in the list. */
  lemma ListedBound(ts: seq<Tok>, ps: seq<SqlParam>)
    requires DistinctNames(ps) && ParamList(ts) <= ps
    ensures AllBound(ts, ByName(ps))
  {
    forall i | 0 <= i < |ts| ensures Bound(ts[i], ByName(ps)) {
      if ts[i].Param? {
        var k := ParamListed(ts, i);
        FoundByName(ps, k);
      }
    }
  }
}

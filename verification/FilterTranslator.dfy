/** The filter translator: recursion over the JSON form that returns text and collects parameters. */
module FilterTranslator {
  import opened Common
  import opened Results
  import opened Flatten
  import opened StringOrder
  import opened SqlFilter
  import opened SqlRebind
  import opened SqlNumbering
  import opened SqlTranslation

  // ---- text of token lists -------------------------------------------------

  lemma SpellAppend(a: seq<Tok>, b: seq<Tok>, d: Dialect)
    ensures SpellAll(a + b, d) == SpellAll(a, d) + SpellAll(b, d)
  {
    hide PieceOf, Named;
    assert Pieces(a + b, d) == Pieces(a, d) + Pieces(b, d);
    FlatAppend(Pieces(a, d), Pieces(b, d), Named);
  }

  lemma SpellOne(t: Tok, d: Dialect)
    ensures SpellAll([t], d) == Spell(t, d)
  {
    assert Pieces([t], d) == [PieceOf(t, d)];
    FlatOne(PieceOf(t, d), Named);
  }

  function Spelled(cs: seq<seq<Tok>>, d: Dialect): (r: seq<string>)
    ensures |r| == |cs|
  {
    if cs == [] then [] else Spelled(cs[..|cs| - 1], d) + [SpellAll(cs[|cs| - 1], d)]
  }

  lemma SpelledSnoc(cs: seq<seq<Tok>>, c: seq<Tok>, d: Dialect)
    ensures Spelled(cs + [c], d) == Spelled(cs, d) + [SpellAll(c, d)]
  {
    assert (cs + [c])[..|cs|] == cs;
  }

  lemma {:induction false} SpellJoin(cs: seq<seq<Tok>>, sep: Tok, d: Dialect)
    ensures SpellAll(Join(cs, sep), d) == JoinStrings(Spelled(cs, d), Spell(sep, d))
  {
    if |cs| > 1 {
      var k := |cs| - 1;
      var before := Join(cs[..k], sep);
      SpellJoin(cs[..k], sep, d);
      SpellAppend(before + [sep], cs[k], d);
      SpellAppend(before, [sep], d);
      SpellOne(sep, d);
      assert Spelled(cs, d)[..k] == Spelled(cs[..k], d);
    }
  }

  lemma SpellParen(cs: seq<seq<Tok>>, sep: Tok, d: Dialect)
    ensures SpellAll([TOpen] + Join(cs, sep) + [TClose], d) == "(" + JoinStrings(Spelled(cs, d), Spell(sep, d)) + ")"
  {
    SpellAppend([TOpen] + Join(cs, sep), [TClose], d);
    SpellAppend([TOpen], Join(cs, sep), d);
    SpellOne(TOpen, d);
    SpellOne(TClose, d);
    SpellJoin(cs, sep, d);
  }

  function WrapText(texts: seq<string>, sep: string): string {
    if texts == [] then "" else if |texts| == 1 then texts[0] else "(" + JoinStrings(texts, sep) + ")"
  }

  lemma WrapSpelled(cs: seq<seq<Tok>>, sep: Tok, d: Dialect)
    ensures SpellAll(Wrap(cs, sep), d) == WrapText(Spelled(cs, d), Spell(sep, d))
  {
    if |cs| > 1 {
      SpellParen(cs, sep, d);
    } else if cs == [] {
      SpelledEmpty([], d);
    }
  }

  lemma LogicParams(either: bool, conds: seq<Cond>, n: nat)
    ensures ParamList(Toks(Logic(either, conds), n)) == AllParams(Clauses(conds, n))
  {
    WrapParams(NonEmpty(Clauses(conds, n)), if either then TOr else TAnd);
    NonEmptyParams(Clauses(conds, n));
  }

  lemma SpellNot(ts: seq<Tok>, d: Dialect)
    ensures SpellAll([TNot, TOpen] + ts + [TClose], d) == "NOT (" + SpellAll(ts, d) + ")"
  {
    SpellAppend([TNot, TOpen] + ts, [TClose], d);
    SpellAppend([TNot, TOpen], ts, d);
    assert [TNot, TOpen] == [TNot] + [TOpen];
    SpellAppend([TNot], [TOpen], d);
    SpellOne(TNot, d);
    SpellOne(TOpen, d);
    SpellOne(TClose, d);
  }

  lemma SpellThree(a: Tok, b: Tok, c: Tok, d: Dialect)
    ensures SpellAll([a, b, c], d) == Spell(a, d) + Spell(b, d) + Spell(c, d)
  {
    assert [a, b, c] == ([a] + [b]) + [c];
    SpellAppend([a] + [b], [c], d);
    SpellAppend([a], [b], d);
    SpellOne(a, d);
    SpellOne(b, d);
    SpellOne(c, d);
  }

  lemma SpellFive(a: Tok, b: Tok, c: Tok, e: Tok, f: Tok, d: Dialect)
    ensures SpellAll([a, b, c, e, f], d) == Spell(a, d) + Spell(b, d) + Spell(c, d) + Spell(e, d) + Spell(f, d)
  {
    assert [a, b, c, e, f] == ([a, b, c] + [e]) + [f];
    SpellThree(a, b, c, d);
    SpellAppend([a, b, c] + [e], [f], d);
    SpellAppend([a, b, c], [e], d);
    SpellOne(e, d);
    SpellOne(f, d);
  }

  // ---- keys ----------------------------------------------------------------

  /** The keys of a map, sorted; the iteration order of the map does not show. */
  method KeysInOrder(members: map<string, Json>) returns (keys: seq<string>)
    ensures keys == SortedKeys(members.Keys)
  {
    keys := [];
    var left := members.Keys;
    while left != {}
      invariant left <= members.Keys
      invariant forall x :: x in keys <==> x in members.Keys - left
      invariant forall i, j :: 0 <= i < j < |keys| ==> keys[i] != keys[j]
      decreases |left|
    {
      var k :| k in left;
      assert k !in keys;
      keys := keys + [k];
      left := left - {k};
    }
    SameMultiset(keys, Enumerate(members.Keys));
    SortSorted(keys);
    SortSorted(Enumerate(members.Keys));
    SortedUnique(Sort(keys), Sort(Enumerate(members.Keys)));
    keys := Sort(keys);
  }

  // ---- errors surface unchanged --------------------------------------------

  lemma {:induction false} MembersFail(schema: Schema, j: Json, keys: seq<string>, k: nat)
    requires j.JObject? && k <= |keys| && ReadMembers(schema, j, keys[..k]).Err?
    ensures ReadMembers(schema, j, keys) == ReadMembers(schema, j, keys[..k])
    decreases |keys|
  {
    if k < |keys| {
      assert keys[..|keys| - 1][..k] == keys[..k];
      MembersFail(schema, j, keys[..|keys| - 1], k);
    } else {
      assert keys[..k] == keys;
    }
  }

  lemma MembersNext(schema: Schema, j: Json, keys: seq<string>, i: nat, conds: seq<Cond>)
    requires j.JObject? && i < |keys| && ReadMembers(schema, j, keys[..i]) == Ok(conds)
    ensures ReadMembers(schema, j, keys[..i + 1]) == (
        match ReadMember(schema, j, keys[i])
        case Err(code) => Err(code)
        case Ok(c) => Ok(conds + [c]))
  {
    assert keys[..i + 1][..i] == keys[..i];
  }

  ghost function ReadItem(schema: Schema, el: Json): Result<Cond> {
    if !el.JObject? then Err(FILTER_INVALID) else ReadObject(schema, el)
  }

  lemma ItemsNext(schema: Schema, value: Json, i: nat, conds: seq<Cond>)
    requires value.JArray? && i < |value.items| && ReadItems(schema, value, i) == Ok(conds)
    ensures ReadItems(schema, value, i + 1) == (
        match ReadItem(schema, value.items[i])
        case Err(code) => Err(code)
        case Ok(c) => Ok(conds + [c]))
  {
  }

  lemma {:induction false} ItemsFail(schema: Schema, value: Json, n: nat, k: nat)
    requires value.JArray? && k <= n <= |value.items| && ReadItems(schema, value, k).Err?
    ensures ReadItems(schema, value, n) == ReadItems(schema, value, k)
    decreases n
  {
    hide ReadObject;
    if k < n { ItemsFail(schema, value, n - 1, k); }
  }

  lemma AtomsNext(value: Json, ops: seq<string>, i: nat, atoms: seq<Atom>)
    requires value.JObject? && i < |ops| && ops[i] in value.members && ReadAtoms(value, ops[..i]) == Ok(atoms)
    ensures ReadAtoms(value, ops[..i + 1]) == (
        match ReadAtom(ops[i], value.members[ops[i]])
        case Err(code) => Err(code)
        case Ok(a) => Ok(atoms + [a]))
  {
    assert ops[..i + 1][..i] == ops[..i];
  }

  lemma {:induction false} AtomsFail(value: Json, ops: seq<string>, k: nat)
    requires value.JObject? && k <= |ops| && ReadAtoms(value, ops[..k]).Err?
    ensures ReadAtoms(value, ops) == ReadAtoms(value, ops[..k])
    decreases |ops|
  {
    if k < |ops| {
      assert ops[..|ops| - 1][..k] == ops[..k];
      AtomsFail(value, ops[..|ops| - 1], k);
    } else {
      assert ops[..k] == ops;
    }
  }

  // ---- lists of clauses ----------------------------------------------------

  lemma PartSnoc(conds: seq<Cond>, c: Cond, n: nat)
    ensures Clauses(conds + [c], n) == Clauses(conds, n) + [Toks(c, n + PartsParams(conds))]
    ensures PartsParams(conds + [c]) == PartsParams(conds) + Params(c)
  {
    assert (conds + [c])[..|conds|] == conds;
  }

  lemma NonEmptySnoc(cs: seq<seq<Tok>>, c: seq<Tok>)
    ensures NonEmpty(cs + [c]) == if c == [] then NonEmpty(cs) else NonEmpty(cs) + [c]
  {
    assert (cs + [c])[..|cs|] == cs;
  }

  lemma AtomSnoc(column: string, atoms: seq<Atom>, a: Atom, n: nat)
    ensures AtomClauses(column, atoms + [a], n)
            == AtomClauses(column, atoms, n) + [AtomToks(column, a, n + AtomsParams(atoms))]
    ensures AtomsParams(atoms + [a]) == AtomsParams(atoms) + AtomParams(a)
  {
    assert (atoms + [a])[..|atoms|] == atoms;
  }

  lemma BetweenParams(column: string, n: nat, lo: SqlValue, hi: SqlValue)
    ensures ParamList(AtomToks(column, Between(lo, hi), n))
            == [SqlParam(ParamName(n), lo)] + [SqlParam(ParamName(n + 1), hi)]
  {
    assert AtomToks(column, Between(lo, hi), n) == [TColumn(column), TBetween, Param(n, lo)] + [TAnd, Param(n + 1, hi)];
    FlatAppend([TColumn(column), TBetween, Param(n, lo)], [TAnd, Param(n + 1, hi)], ParamOf);
    ThreeParams(TColumn(column), TBetween, Param(n, lo));
    TwoParams(TAnd, Param(n + 1, hi));
  }

  // ---- what has been emitted -----------------------------------------------

  /** The translator's fields: index of the next parameter, and the parameters so far. */
  datatype Fields = Fields(index: nat, params: seq<SqlParam>)

  /** From before to after, text was emitted with the tokens ts. */
  ghost predicate Emitted(d: Dialect, text: string, ts: seq<Tok>, count: nat, before: Fields, after: Fields) {
    text == SpellAll(ts, d) && after == Fields(before.index + count, before.params + ParamList(ts))
  }

  ghost predicate EmittedAtom(d: Dialect, a: Result<Atom>, r: Result<string>, column: string, before: Fields,
                              after: Fields) {
    match a
    case Err(code) => r == Err(code)
    case Ok(atom) => r.Ok? && Emitted(d, r.value, AtomToks(column, atom, before.index), AtomParams(atom), before, after)
  }

  ghost predicate EmittedCond(d: Dialect, c: Result<Cond>, r: Result<string>, before: Fields, after: Fields) {
    match c
    case Err(code) => r == Err(code)
    case Ok(cond) => r.Ok? && Emitted(d, r.value, Toks(cond, before.index), Params(cond), before, after)
  }

  /** The texts of the operators applied so far. */
  ghost predicate EmittedAtoms(d: Dialect, texts: seq<string>, column: string, atoms: seq<Atom>, before: Fields,
                               after: Fields) {
    var cs := AtomClauses(column, atoms, before.index);
    texts == Spelled(cs, d) && after == Fields(before.index + AtomsParams(atoms), before.params + AllParams(cs))
  }

  /** The texts of the conditions built so far; keepAll is false where empty texts are left out. */
  ghost predicate EmittedParts(d: Dialect, keepAll: bool, texts: seq<string>, conds: seq<Cond>, before: Fields,
                               after: Fields) {
    var cs := Clauses(conds, before.index);
    && texts == Spelled(Kept(keepAll, cs), d)
    && after == Fields(before.index + PartsParams(conds), before.params + AllParams(cs))
  }

  lemma NoItems(schema: Schema, value: Json, d: Dialect, start: Fields)
    requires value.JArray?
    ensures ReadItems(schema, value, 0) == Ok([]) && EmittedParts(d, false, [], [], start, start)
  {
    assert start.params + [] == start.params;
  }

  lemma AtomAdded(d: Dialect, texts: seq<string>, column: string, atoms: seq<Atom>, a: Atom, text: string,
                  start: Fields, before: Fields, after: Fields)
    requires EmittedAtoms(d, texts, column, atoms, start, before)
    requires Emitted(d, text, AtomToks(column, a, before.index), AtomParams(a), before, after)
    ensures EmittedAtoms(d, texts + [text], column, atoms + [a], start, after)
  {
    hide AtomToks, SpellAll, ParamList, AtomParams;
    var cs, c := AtomClauses(column, atoms, start.index), AtomToks(column, a, before.index);
    AtomSnoc(column, atoms, a, start.index);
    SpelledSnoc(cs, c, d);
    ClauseSnoc(cs, c);
    Regroup(start.params, AllParams(cs), ParamList(c));
  }

  /** A list of texts with one more; where empty texts are left out, only if it is not empty. */
  function Grown(keepAll: bool, texts: seq<string>, text: string): seq<string> {
    if text == "" && !keepAll then texts else texts + [text]
  }

  function Kept(keepAll: bool, cs: seq<seq<Tok>>): seq<seq<Tok>> { if keepAll then cs else NonEmpty(cs) }

  lemma TextsAdded(d: Dialect, keepAll: bool, cs: seq<seq<Tok>>, ts: seq<Tok>, grown: seq<seq<Tok>>)
    requires grown == cs + [ts]
    ensures Spelled(Kept(keepAll, grown), d) == Grown(keepAll, Spelled(Kept(keepAll, cs), d), SpellAll(ts, d))
  {
    if keepAll {
      SpelledSnoc(cs, ts, d);
    } else {
      SpelledEmpty(ts, d);
      NonEmptySnoc(cs, ts);
      SpelledSnoc(NonEmpty(cs), ts, d);
    }
  }

  lemma ParamsAdded(ps: seq<SqlParam>, cs: seq<seq<Tok>>, ts: seq<Tok>, grown: seq<seq<Tok>>)
    requires grown == cs + [ts]
    ensures ps + AllParams(grown) == ps + AllParams(cs) + ParamList(ts)
  {
    ClauseSnoc(cs, ts);
    Regroup(ps, AllParams(cs), ParamList(ts));
  }

  /** The clauses of some conditions, and the parameter index behind them. */
  ghost predicate Laid(conds: seq<Cond>, n: nat, cs: seq<seq<Tok>>, next: nat) {
    cs == Clauses(conds, n) && next == n + PartsParams(conds)
  }

  lemma LaidSnoc(conds: seq<Cond>, n: nat, cs: seq<seq<Tok>>, next: nat, c: Cond, ts: seq<Tok>)
    requires Laid(conds, n, cs, next) && ts == Toks(c, next)
    ensures Laid(conds + [c], n, cs + [ts], next + Params(c))
  {
    PartSnoc(conds, c, n);
  }

  /** As EmittedParts, for clauses given as such. */
  ghost predicate EmittedClauses(d: Dialect, keepAll: bool, texts: seq<string>, cs: seq<seq<Tok>>, before: Fields,
                                 after: Fields) {
    texts == Spelled(Kept(keepAll, cs), d) && after.params == before.params + AllParams(cs)
  }

  lemma ClauseAdded(d: Dialect, keepAll: bool, texts: seq<string>, cs: seq<seq<Tok>>, ts: seq<Tok>, text: string,
                    count: nat, start: Fields, before: Fields, after: Fields)
    requires EmittedClauses(d, keepAll, texts, cs, start, before) && Emitted(d, text, ts, count, before, after)
    ensures EmittedClauses(d, keepAll, Grown(keepAll, texts, text), cs + [ts], start, after)
  {
    TextsAdded(d, keepAll, cs, ts, cs + [ts]);
    ParamsAdded(start.params, cs, ts, cs + [ts]);
  }

  lemma PartAdded(d: Dialect, keepAll: bool, texts: seq<string>, conds: seq<Cond>, c: Cond, text: string,
                  start: Fields, before: Fields, after: Fields)
    requires EmittedParts(d, keepAll, texts, conds, start, before)
    requires Emitted(d, text, Toks(c, before.index), Params(c), before, after)
    ensures EmittedParts(d, keepAll, Grown(keepAll, texts, text), conds + [c], start, after)
  {
    var cs, ts := Clauses(conds, start.index), Toks(c, before.index);
    LaidSnoc(conds, start.index, cs, before.index, c, ts);
    ClauseAdded(d, keepAll, texts, cs, ts, text, Params(c), start, before, after);
  }

  lemma ObjectWraps(d: Dialect, texts: seq<string>, conds: seq<Cond>, before: Fields, after: Fields)
    requires EmittedParts(d, true, texts, conds, before, after)
    ensures Emitted(d, WrapText(texts, " AND "), Toks(All(conds), before.index), Params(All(conds)), before, after)
  {
    WrapSpelled(Clauses(conds, before.index), TAnd, d);
    WrapParams(Clauses(conds, before.index), TAnd);
  }

  lemma JunctionWraps(d: Dialect, texts: seq<string>, either: bool, conds: seq<Cond>, before: Fields, after: Fields)
    requires EmittedParts(d, false, texts, conds, before, after)
    ensures Emitted(d, WrapText(texts, if either then " OR " else " AND "), Toks(Logic(either, conds), before.index),
                    Params(Logic(either, conds)), before, after)
  {
    WrapSpelled(NonEmpty(Clauses(conds, before.index)), if either then TOr else TAnd, d);
    LogicParams(either, conds, before.index);
  }

  lemma TestText(cs: seq<seq<Tok>>, d: Dialect)
    ensures SpellAll(if |cs| == 1 then cs[0] else [TOpen] + Join(cs, TAnd) + [TClose], d) == TestWrap(Spelled(cs, d))
    ensures ParamList(if |cs| == 1 then cs[0] else [TOpen] + Join(cs, TAnd) + [TClose]) == AllParams(cs)
  {
    if |cs| == 1 {
      OneClause(cs);
    } else {
      SpellParen(cs, TAnd, d);
      ParenParams(cs, TAnd);
    }
  }

  function TestWrap(texts: seq<string>): string {
    if |texts| == 1 then texts[0] else "(" + JoinStrings(texts, " AND ") + ")"
  }

  lemma TestWraps(d: Dialect, texts: seq<string>, column: string, atoms: seq<Atom>, before: Fields, after: Fields)
    requires EmittedAtoms(d, texts, column, atoms, before, after)
    ensures Emitted(d, TestWrap(texts), Toks(Test(column, atoms), before.index), Params(Test(column, atoms)), before,
                    after)
  {
    TestText(AtomClauses(column, atoms, before.index), d);
  }

  // ---- the translator ------------------------------------------------------

  class NwpFilterTranslator {
    const schema: Schema
    const dialect: Dialect
    var paramIndex: nat
    var params: seq<SqlParam>

    constructor (schema: Schema, dialect: Dialect)
      ensures this.schema == schema && this.dialect == dialect
    {
      this.schema, this.dialect, paramIndex, params := schema, dialect, 0, [];
    }

    function State(): Fields
      reads this
    {
      Fields(paramIndex, params)
    }

    method BuildSimple(ghost column: string, col: string, op: string, value: Json) returns (r: Result<string>)
      requires col == Quote(dialect, column) && op != "$in" && op != "$nin" && op != "$between"
      modifies this
      ensures EmittedAtom(dialect, ReadAtom(op, value), r, column, old(State()), State())
    {
      hide SpellAll, ParamList, ExtractValue, Quote, SpellOp, ParamName;
      var name := ParamName(paramIndex);
      ghost var n := paramIndex;
      paramIndex := paramIndex + 1;
      var v := ExtractValue(value);
      var sign: CompareOp;
      if op == "$eq" { sign := Eq; }
      else if op == "$ne" { sign := Ne; }
      else if op == "$lt" { sign := Lt; }
      else if op == "$lte" { sign := Lte; }
      else if op == "$gt" { sign := Gt; }
      else if op == "$gte" { sign := Gte; }
      else if op == "$contains" { sign, v := Like, Pattern(v); }
      else { return Err(FILTER_INVALID); }
      assert ReadAtom(op, value) == Ok(Compare(sign, v));
      params := params + [SqlParam(name, v)];
      r := Ok(col + SpellOp(sign) + ("@" + name));
      SpellThree(TColumn(column), TCompare(sign), Param(n, v), dialect);
      ThreeParams(TColumn(column), TCompare(sign), Param(n, v));
    }

    method BuildIn(ghost column: string, col: string, arr: Json, negate: bool) returns (r: Result<string>)
      requires col == Quote(dialect, column)
      modifies this
      ensures EmittedAtom(dialect, ReadAtom(if negate then "$nin" else "$in", arr), r, column, old(State()), State())
    {
      hide SpellAll, ParamList, ExtractValue, Quote, ParamName;
      if !arr.JArray? { return Err(FILTER_INVALID); }
      var values: seq<SqlValue> := [];
      for i := 0 to |arr.items|
        invariant values == Extracted(arr.items)[..i]
      {
        values := values + [ExtractValue(arr.items[i])];
      }
      assert values == Extracted(arr.items);
      if values == [] {
        ghost var t := if negate then TTrue else TFalse;
        SpellOne(t, dialect);
        SepParams(t);
        return Ok(if negate then "1=1" else "1=0");
      }
      ghost var n := paramIndex;
      var name := ParamName(paramIndex);
      paramIndex := paramIndex + 1;
      params := params + [SqlParam(name, List(values))];
      r := Ok(col + (if negate then " NOT IN " else " IN ") + ("@" + name));
      SpellThree(TColumn(column), if negate then TNotIn else TIn, Param(n, List(values)), dialect);
      ThreeParams(TColumn(column), if negate then TNotIn else TIn, Param(n, List(values)));
    }

    method BuildBetween(ghost column: string, col: string, arr: Json) returns (r: Result<string>)
      requires col == Quote(dialect, column)
      modifies this
      ensures EmittedAtom(dialect, ReadAtom("$between", arr), r, column, old(State()), State())
    {
      if !arr.JArray? || |arr.items| != 2 { return Err(FILTER_INVALID); }
      ghost var n := paramIndex;
      var low := ParamName(paramIndex);
      paramIndex := paramIndex + 1;
      var high := ParamName(paramIndex);
      paramIndex := paramIndex + 1;
      var lo, hi := ExtractValue(arr.items[0]), ExtractValue(arr.items[1]);
      params := params + [SqlParam(low, lo)];
      params := params + [SqlParam(high, hi)];
      r := Ok(col + " BETWEEN " + ("@" + low) + " AND " + ("@" + high));
      SpellFive(TColumn(column), TBetween, Param(n, lo), TAnd, Param(n + 1, hi), dialect);
      BetweenParams(column, n, lo, hi);
    }

    /** The switch over the operators of a field condition. */
    method BuildOperator(ghost column: string, col: string, op: string, val: Json) returns (r: Result<string>)
      requires col == Quote(dialect, column)
      modifies this
      ensures EmittedAtom(dialect, ReadAtom(op, val), r, column, old(State()), State())
    {
      if op == "$in" {
        r := BuildIn(column, col, val, false);
      } else if op == "$nin" {
        r := BuildIn(column, col, val, true);
      } else if op == "$between" {
        r := BuildBetween(column, col, val);
      } else {
        r := BuildSimple(column, col, op, val);
      }
    }

    method BuildOperators(ghost column: string, col: string, condition: Json, ops: seq<string>)
      returns (r: Result<seq<string>>)
      requires condition.JObject? && col == Quote(dialect, column) && forall op :: op in ops ==> op in condition.members
      modifies this
      ensures match ReadAtoms(condition, ops)
              case Err(code) => r == Err(code)
              case Ok(atoms) => r.Ok? && EmittedAtoms(dialect, r.value, column, atoms, old(State()), State())
    {
      var parts: seq<string> := [];
      ghost var atoms: seq<Atom>, start := [], State();
      for i := 0 to |ops|
        invariant ReadAtoms(condition, ops[..i]) == Ok(atoms)
        invariant EmittedAtoms(dialect, parts, column, atoms, start, State())
      {
        ghost var before := State();
        var clause := BuildOperator(column, col, ops[i], condition.members[ops[i]]);
        AtomsNext(condition, ops, i, atoms);
        if clause.Err? {
          AtomsFail(condition, ops, i + 1);
          return Err(clause.code);
        }
        ghost var a := ReadAtom(ops[i], condition.members[ops[i]]).value;
        AtomAdded(dialect, parts, column, atoms, a, clause.value, start, before, State());
        parts := parts + [clause.value];
        atoms := atoms + [a];
      }
      assert ops[..|ops|] == ops;
      r := Ok(parts);
    }

    method BuildFieldCondition(field: Field, condition: Json) returns (r: Result<string>)
      modifies this
      ensures EmittedCond(dialect, ReadField(field, condition), r, old(State()), State())
    {
      if !condition.JObject? { return Err(FILTER_INVALID); }
      ghost var column, before := ResolvedColumn(field), State();
      var ops := KeysInOrder(condition.members);
      SortMembers(Enumerate(condition.members.Keys));
      var parts := BuildOperators(column, Quote(dialect, ResolvedColumn(field)), condition, ops);
      if parts.Err? { return Err(parts.code); }
      TestWraps(dialect, parts.value, column, ReadAtoms(condition, ops).value, before, State());
      if |parts.value| == 1 { return Ok(parts.value[0]); }
      r := Ok("(" + JoinStrings(parts.value, " AND ") + ")");
    }

    method BuildObject(j: Json) returns (r: Result<string>)
      requires j.JObject?
      modifies this
      ensures EmittedCond(dialect, ReadObject(schema, j), r, old(State()), State())
      decreases j, 2, 0
    {
      ghost var before := State();
      var names := KeysInOrder(j.members);
      SortMembers(Enumerate(j.members.Keys));
      var clauses := BuildMembers(j, names);
      if clauses.Err? { return Err(clauses.code); }
      ObjectWraps(dialect, clauses.value, ReadMembers(schema, j, names).value, before, State());
      if |clauses.value| == 0 { return Ok(""); }
      if |clauses.value| == 1 { return Ok(clauses.value[0]); }
      r := Ok("(" + JoinStrings(clauses.value, " AND ") + ")");
    }

    method BuildMembers(j: Json, names: seq<string>) returns (r: Result<seq<string>>)
      requires j.JObject? && forall name :: name in names ==> name in j.members
      modifies this
      ensures match ReadMembers(schema, j, names)
              case Err(code) => r == Err(code)
              case Ok(conds) => r.Ok? && EmittedParts(dialect, true, r.value, conds, old(State()), State())
      decreases j, 1, 0
    {
      var clauses: seq<string> := [];
      ghost var conds: seq<Cond>, start := [], State();
      for i := 0 to |names|
        invariant ReadMembers(schema, j, names[..i]) == Ok(conds)
        invariant EmittedParts(dialect, true, clauses, conds, start, State())
      {
        ghost var before := State();
        var clause := BuildMember(j, names[i]);
        MembersNext(schema, j, names, i, conds);
        if clause.Err? {
          MembersFail(schema, j, names, i + 1);
          return Err(clause.code);
        }
        ghost var c := ReadMember(schema, j, names[i]).value;
        PartAdded(dialect, true, clauses, conds, c, clause.value, start, before, State());
        clauses := clauses + [clause.value];
        conds := conds + [c];
      }
      assert names[..|names|] == names;
      r := Ok(clauses);
    }

    method BuildMember(j: Json, name: string) returns (r: Result<string>)
      requires j.JObject? && name in j.members
      modifies this
      ensures EmittedCond(dialect, ReadMember(schema, j, name), r, old(State()), State())
      decreases j, 0, 0
    {
      var val := j.members[name];
      if IsLogical(name) {
        r := BuildLogical(name, val);
      } else {
        var field := GetField(schema, name);
        if field.None? { return Err(FIELD_UNKNOWN); }
        r := BuildFieldCondition(field.value, val);
      }
    }

    method BuildLogical(op: string, value: Json) returns (r: Result<string>)
      modifies this
      ensures EmittedCond(dialect, ReadLogical(schema, op, value), r, old(State()), State())
      decreases value, 4, 0
    {
      if op == "$not" {
        if !value.JObject? { return Err(FILTER_INVALID); }
        r := BuildNot(value);
        return;
      }
      if op != "$and" && op != "$or" { return Err(FILTER_INVALID); }
      if !value.JArray? { return Err(FILTER_INVALID); }
      r := BuildJunction(op == "$or", value);
    }

    /** The $and and $or branches. */
    method BuildJunction(either: bool, value: Json) returns (r: Result<string>)
      requires value.JArray?
      modifies this
      ensures EmittedCond(dialect, ReadLogical(schema, if either then "$or" else "$and", value), r, old(State()),
                          State())
      decreases value, 3, 1
    {
      ghost var before := State();
      var parts := BuildItems(value);
      if parts.Err? { return Err(parts.code); }
      JunctionWraps(dialect, parts.value, either, ReadItems(schema, value, |value.items|).value, before, State());
      if |parts.value| == 0 { return Ok(""); }
      if |parts.value| == 1 { return Ok(parts.value[0]); }
      r := Ok("(" + JoinStrings(parts.value, if either then " OR " else " AND ") + ")");
    }

    /** The $not branch. */
    method BuildNot(value: Json) returns (r: Result<string>)
      requires value.JObject?
      modifies this
      ensures EmittedCond(dialect, ReadLogical(schema, "$not", value), r, old(State()), State())
      decreases value, 3, 0
    {
      ghost var n := paramIndex;
      r := BuildObject(value);
      if r.Ok? {
        ghost var inner := Toks(ReadObject(schema, value).value, n);
        SpelledEmpty(inner, dialect);
        if r.value != "" {
          SpellNot(inner, dialect);
          NotParams(inner);
          r := Ok("NOT (" + r.value + ")");
        }
      }
    }

    method BuildItem(el: Json) returns (r: Result<string>)
      modifies this
      ensures EmittedCond(dialect, ReadItem(schema, el), r, old(State()), State())
      decreases el, 5, 0
    {
      if !el.JObject? { return Err(FILTER_INVALID); }
      r := BuildObject(el);
    }

    /** One turn of the loop over the elements. */
    method AddItem(value: Json, i: nat, parts: seq<string>, ghost conds: seq<Cond>, ghost start: Fields)
      returns (r: Result<seq<string>>, ghost c: Cond)
      requires value.JArray? && i < |value.items| && ReadItems(schema, value, i) == Ok(conds)
      requires EmittedParts(dialect, false, parts, conds, start, State())
      modifies this
      ensures r.Err? ==> ReadItems(schema, value, |value.items|) == Err(r.code)
      ensures r.Ok? ==> ReadItems(schema, value, i + 1) == Ok(conds + [c])
      ensures r.Ok? ==> EmittedParts(dialect, false, r.value, conds + [c], start, State())
      decreases value, 2, 0
    {
      ghost var before := State();
      c := All([]);
      var s := BuildItem(value.items[i]);
      ItemsNext(schema, value, i, conds);
      if s.Err? {
        ItemsFail(schema, value, |value.items|, i + 1);
        return Err(s.code), c;
      }
      c := ReadItem(schema, value.items[i]).value;
      PartAdded(dialect, false, parts, conds, c, s.value, start, before, State());
      r := Ok(if s.value != "" then parts + [s.value] else parts);
    }

    method BuildItems(value: Json) returns (r: Result<seq<string>>)
      requires value.JArray?
      modifies this
      ensures match ReadItems(schema, value, |value.items|)
              case Err(code) => r == Err(code)
              case Ok(conds) => r.Ok? && EmittedParts(dialect, false, r.value, conds, old(State()), State())
      decreases value, 3, 0
    {
      hide ReadItems, EmittedParts;
      var parts: seq<string> := [];
      ghost var conds: seq<Cond>, start := [], State();
      NoItems(schema, value, dialect, start);
      for i := 0 to |value.items|
        invariant ReadItems(schema, value, i) == Ok(conds)
        invariant EmittedParts(dialect, false, parts, conds, start, State())
      {
        var more, c := AddItem(value, i, parts, conds, start);
        if more.Err? { return more; }
        parts, conds := more.value, conds + [c];
      }
      r := Ok(parts);
    }

    /** A filter that is absent or not an object translates to no condition. */
    method Translate(filter: Option<Json>) returns (r: Result<(string, seq<SqlParam>)>)
      modifies this
      ensures match Condition(schema, filter)
              case Err(code) => r == Err(code)
              case Ok(c) => r == Ok((SpellAll(Toks(c, 0), dialect), ParamList(Toks(c, 0))))
    {
      paramIndex, params := 0, [];
      if filter.None? || !filter.value.JObject? {
        SpelledEmpty([], dialect);
        assert Clauses([], 0) == [] && Toks(All([]), 0) == [];
        return Ok(("", []));
      }
      var text := BuildObject(filter.value);
      if text.Err? { return Err(text.code); }
      ghost var ts := Toks(ReadObject(schema, filter.value).value, 0);
      assert [] + ParamList(ts) == ParamList(ts);
      r := Ok((text.value, params));
    }
  }

  /** The condition of a filter as the translator reads it. */
  ghost function Condition(schema: Schema, filter: Option<Json>): Result<Cond> {
    if filter.None? || !filter.value.JObject? then Ok(All([])) else ReadObject(schema, filter.value)
  }
}

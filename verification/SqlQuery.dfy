/** Whole queries: paging parameters behind the filter's, and the rebinding of the complete text. */
module SqlQuery {
  import opened Common
  import opened Results
  import opened Flatten
  import opened SqlDenotation
  import opened SqlFilter
  import opened SqlGaps
  import opened SqlRebind
  import opened SqlLexing
  import opened SqlMeaning
  import opened SqlNumbering
  import opened SqlTranslation
  import opened FilterTranslator

  // ---- text and parameters of a query --------------------------------------

  /** The parts of a query besides its condition: select list, table and order terms, all quoted. */
  datatype Frame = Frame(columns: string, table: string, order: string)

  predicate SafeFrame(f: Frame) { '@' !in f.columns && '@' !in f.table && '@' !in f.order }

  function Paging(d: Dialect): string {
    if d == SqlServer then " OFFSET " + (("@" + "_offset") + (" ROWS FETCH NEXT " + (("@" + "_limit") + " ROWS ONLY")))
    else " LIMIT " + (("@" + "_limit") + (" OFFSET " + ("@" + "_offset")))
  }

  function Head(f: Frame): string { "SELECT " + f.columns + " FROM " + f.table }

  function QueryText(f: Frame, where: string, d: Dialect): string {
    Head(f) + (if where == "" then "" else " WHERE " + where) + (" ORDER BY " + f.order) + Paging(d)
  }

  function QueryParams(ps: seq<SqlParam>, limit: SqlValue, offset: SqlValue): seq<SqlParam> {
    ps + [SqlParam("_limit", limit), SqlParam("_offset", offset)]
  }

  /** The paging clause and its arguments once pos arguments are bound. */
  function BoundPaging(d: Dialect, pos: nat): string {
    if d == SqlServer then
      " OFFSET " + (Placeholder(d, pos) + (" ROWS FETCH NEXT " + (Placeholder(d, pos + 1) + " ROWS ONLY")))
    else " LIMIT " + (Placeholder(d, pos) + (" OFFSET " + Placeholder(d, pos + 1)))
  }

  function PagingArgs(d: Dialect, limit: SqlValue, offset: SqlValue): seq<SqlValue> {
    if d == SqlServer then [offset, limit] else [limit, offset]
  }

  function PagingPieces(d: Dialect, limit: SqlValue, offset: SqlValue): seq<Piece> {
    if d == SqlServer then
      [Raw(" OFFSET "), Slot("_offset", offset), Raw(" ROWS FETCH NEXT "), Slot("_limit", limit), Raw(" ROWS ONLY")]
    else [Raw(" LIMIT "), Slot("_limit", limit), Raw(" OFFSET "), Slot("_offset", offset)]
  }

  function WherePieces(ts: seq<Tok>, d: Dialect): seq<Piece> {
    if ts == [] then [] else [Raw(" WHERE ")] + Pieces(ts, d)
  }

  function QueryPieces(f: Frame, ts: seq<Tok>, d: Dialect, limit: SqlValue, offset: SqlValue): seq<Piece> {
    [Raw(Head(f))] + WherePieces(ts, d) + [Raw(" ORDER BY " + f.order)] + PagingPieces(d, limit, offset)
  }

  lemma NamedAppend(a: seq<Piece>, b: seq<Piece>)
    ensures NamedText(a + b) == NamedText(a) + NamedText(b)
  {
    FlatAppend(a, b, Named);
  }

  lemma NamedOne(p: Piece)
    ensures NamedText([p]) == Named(p)
  {
    FlatOne(p, Named);
  }

  lemma NamedFour(a: Piece, b: Piece, c: Piece, e: Piece)
    ensures NamedText([a, b, c, e]) == Named(a) + (Named(b) + (Named(c) + Named(e)))
  {
    assert [a, b, c, e] == [a] + ([b] + ([c] + [e]));
    NamedAppend([a], [b] + ([c] + [e]));
    NamedAppend([b], [c] + [e]);
    NamedAppend([c], [e]);
    NamedOne(a);
    NamedOne(b);
    NamedOne(c);
    NamedOne(e);
  }

  lemma NamedFive(a: Piece, b: Piece, c: Piece, e: Piece, f: Piece)
    ensures NamedText([a, b, c, e, f]) == Named(a) + (Named(b) + (Named(c) + (Named(e) + Named(f))))
  {
    assert [a, b, c, e, f] == [a] + [b, c, e, f];
    NamedAppend([a], [b, c, e, f]);
    NamedOne(a);
    NamedFour(b, c, e, f);
  }

  lemma PagingNamed(d: Dialect, limit: SqlValue, offset: SqlValue)
    ensures NamedText(PagingPieces(d, limit, offset)) == Paging(d)
  {
    var off, lim := Slot("_offset", offset), Slot("_limit", limit);
    if d == SqlServer {
      NamedFive(Raw(" OFFSET "), off, Raw(" ROWS FETCH NEXT "), lim, Raw(" ROWS ONLY"));
    } else {
      NamedFour(Raw(" LIMIT "), lim, Raw(" OFFSET "), off);
    }
  }

  lemma QueryNamed(f: Frame, ts: seq<Tok>, d: Dialect, limit: SqlValue, offset: SqlValue)
    ensures NamedText(QueryPieces(f, ts, d, limit, offset)) == QueryText(f, SpellAll(ts, d), d)
  {
    var order := [Raw(" ORDER BY " + f.order)];
    NamedAppend([Raw(Head(f))] + WherePieces(ts, d) + order, PagingPieces(d, limit, offset));
    NamedAppend([Raw(Head(f))] + WherePieces(ts, d), order);
    NamedAppend([Raw(Head(f))], WherePieces(ts, d));
    NamedAppend([Raw(" WHERE ")], Pieces(ts, d));
    NamedOne(Raw(Head(f)));
    NamedOne(Raw(" WHERE "));
    NamedOne(order[0]);
    SpelledEmpty(ts, d);
    PagingNamed(d, limit, offset);
  }

  // ---- the complete text can be rebound ------------------------------------

  lemma OkAppend(a: seq<Piece>, b: seq<Piece>, byName: map<string, SqlValue>)
    requires AllOk(a, byName) && AllOk(b, byName) && SlotsBreak(a) && SlotsBreak(b)
    requires a != [] && b != [] && a[|a| - 1].Slot? ==> Breaks(Named(b[0]))
    ensures AllOk(a + b, byName) && SlotsBreak(a + b)
  {
  }

  lemma OwnNameChars()
    ensures forall i :: 0 <= i < |"_offset"| ==> IsNameChar("_offset"[i])
    ensures forall i :: 0 <= i < |"_limit"| ==> IsNameChar("_limit"[i])
  {
  }

  lemma OwnTexts()
    ensures '@' !in " OFFSET " && '@' !in " LIMIT " && '@' !in " ROWS FETCH NEXT " && '@' !in " ROWS ONLY"
  {
  }

  lemma PagingOk(d: Dialect, limit: SqlValue, offset: SqlValue, byName: map<string, SqlValue>)
    requires "_limit" in byName && byName["_limit"] == limit && "_offset" in byName && byName["_offset"] == offset
    ensures AllOk(PagingPieces(d, limit, offset), byName) && SlotsBreak(PagingPieces(d, limit, offset))
  {
    OwnNameChars();
    OwnTexts();
    assert PieceOk(Slot("_offset", offset), byName) && PieceOk(Slot("_limit", limit), byName);
    assert PieceOk(Raw(" OFFSET "), byName) && PieceOk(Raw(" LIMIT "), byName);
    assert PieceOk(Raw(" ROWS FETCH NEXT "), byName) && PieceOk(Raw(" ROWS ONLY"), byName);
  }

  lemma HeadClean(f: Frame)
    requires SafeFrame(f)
    ensures '@' !in Head(f) && '@' !in " ORDER BY " + f.order
  {
  }

  lemma QueryOk(f: Frame, ts: seq<Tok>, d: Dialect, limit: SqlValue, offset: SqlValue, byName: map<string, SqlValue>)
    requires SafeFrame(f) && Separated(ts) && SafeToks(ts, d) && AllBound(ts, byName)
    requires "_limit" in byName && byName["_limit"] == limit && "_offset" in byName && byName["_offset"] == offset
    ensures AllOk(QueryPieces(f, ts, d, limit, offset), byName) && SlotsBreak(QueryPieces(f, ts, d, limit, offset))
  {
    var head, where, order := [Raw(Head(f))], WherePieces(ts, d), [Raw(" ORDER BY " + f.order)];
    HeadClean(f);
    EmittedPieces(ts, byName, d);
    OkAppend([Raw(" WHERE ")], Pieces(ts, d), byName);
    OkAppend(head, where, byName);
    OkAppend(head + where, order, byName);
    PagingOk(d, limit, offset, byName);
    OkAppend(head + where + order, PagingPieces(d, limit, offset), byName);
  }

  lemma OwnNames(ps: seq<SqlParam>, limit: SqlValue, offset: SqlValue)
    requires Numbered(ps, 0)
    ensures DistinctNames(QueryParams(ps, limit, offset))
  {
    NumberedDistinct(ps, 0);
    var all := QueryParams(ps, limit, offset);
    forall i, j | 0 <= i < j < |all| ensures all[i].name != all[j].name {
      if i < |ps| { assert all[i].name[0] == 'p'; }
    }
  }

  lemma PagingBound(ps: seq<SqlParam>, limit: SqlValue, offset: SqlValue)
    requires Numbered(ps, 0)
    ensures var byName := ByName(QueryParams(ps, limit, offset));
            "_limit" in byName && byName["_limit"] == limit && "_offset" in byName && byName["_offset"] == offset
  {
    OwnNames(ps, limit, offset);
    FoundByName(QueryParams(ps, limit, offset), |ps|);
    FoundByName(QueryParams(ps, limit, offset), |ps| + 1);
  }

  // ---- binding the parts of a query ----------------------------------------

  lemma BoundAppend(a: seq<Piece>, b: seq<Piece>, d: Dialect, pos: nat)
    ensures BoundText(a + b, d, pos) == BoundText(a, d, pos) + BoundText(b, d, pos + |PiecesArgs(a)|)
    ensures PiecesArgs(a + b) == PiecesArgs(a) + PiecesArgs(b)
  {
    FlatAtAppend(a, b, BoundPiece(d), PieceWidth, pos);
    FlatAppend(a, b, PieceArgs);
    ArgsCount(a);
  }

  lemma BoundOne(p: Piece, d: Dialect, pos: nat)
    ensures BoundText([p], d, pos) == BoundPiece(d)(p, pos) && PiecesArgs([p]) == PieceArgs(p)
  {
    FlatAtOne(p, BoundPiece(d), PieceWidth, pos);
    FlatOne(p, PieceArgs);
  }

  lemma BoundTwo(raw: string, name: string, v: SqlValue, d: Dialect, pos: nat)
    requires !v.List?
    ensures BoundText([Raw(raw), Slot(name, v)], d, pos) == raw + Placeholder(d, pos)
    ensures PiecesArgs([Raw(raw), Slot(name, v)]) == [v]
  {
    assert [Raw(raw), Slot(name, v)] == [Raw(raw)] + [Slot(name, v)];
    BoundAppend([Raw(raw)], [Slot(name, v)], d, pos);
    BoundOne(Raw(raw), d, pos);
    BoundOne(Slot(name, v), d, pos);
  }

  lemma BoundFour(raw: string, name: string, v: SqlValue, raw2: string, name2: string, v2: SqlValue, d: Dialect,
                  pos: nat)
    requires !v.List? && !v2.List?
    ensures BoundText([Raw(raw), Slot(name, v), Raw(raw2), Slot(name2, v2)], d, pos)
         == raw + (Placeholder(d, pos) + (raw2 + Placeholder(d, pos + 1)))
    ensures PiecesArgs([Raw(raw), Slot(name, v), Raw(raw2), Slot(name2, v2)]) == [v, v2]
  {
    var a, b := [Raw(raw), Slot(name, v)], [Raw(raw2), Slot(name2, v2)];
    assert [Raw(raw), Slot(name, v), Raw(raw2), Slot(name2, v2)] == a + b;
    BoundAppend(a, b, d, pos);
    BoundTwo(raw, name, v, d, pos);
    BoundTwo(raw2, name2, v2, d, pos + 1);
    Regroup(raw, Placeholder(d, pos), raw2 + Placeholder(d, pos + 1));
  }

  lemma PagingBinds(d: Dialect, limit: SqlValue, offset: SqlValue, pos: nat)
    requires !limit.List? && !offset.List?
    ensures BoundText(PagingPieces(d, limit, offset), d, pos) == BoundPaging(d, pos)
    ensures PiecesArgs(PagingPieces(d, limit, offset)) == PagingArgs(d, limit, offset)
  {
    if d == SqlServer {
      var four := [Raw(" OFFSET "), Slot("_offset", offset), Raw(" ROWS FETCH NEXT "), Slot("_limit", limit)];
      assert PagingPieces(d, limit, offset) == four + [Raw(" ROWS ONLY")];
      BoundAppend(four, [Raw(" ROWS ONLY")], d, pos);
      BoundFour(" OFFSET ", "_offset", offset, " ROWS FETCH NEXT ", "_limit", limit, d, pos);
      BoundOne(Raw(" ROWS ONLY"), d, pos + 2);
      FourRegroup(" OFFSET ", Placeholder(d, pos), " ROWS FETCH NEXT ", Placeholder(d, pos + 1), " ROWS ONLY");
    } else {
      BoundFour(" LIMIT ", "_limit", limit, " OFFSET ", "_offset", offset, d, pos);
    }
  }

  lemma FourRegroup(a: string, b: string, c: string, e: string, f: string)
    ensures (a + (b + (c + e))) + f == a + (b + (c + (e + f)))
  {
  }

  lemma WhereBinds(ts: seq<Tok>, d: Dialect)
    ensures BoundText(WherePieces(ts, d), d, 0) == if ts == [] then "" else " WHERE " + BoundText(Pieces(ts, d), d, 0)
    ensures PiecesArgs(WherePieces(ts, d)) == ArgsAll(ts)
  {
    EmittedArgs(ts, d);
    if ts != [] {
      BoundAppend([Raw(" WHERE ")], Pieces(ts, d), d, 0);
      BoundOne(Raw(" WHERE "), d, 0);
    }
  }

  /** The text a driver receives, given the rebound condition. */
  function BoundQuery(f: Frame, where: string, d: Dialect, n: nat): string {
    Head(f) + (if where == "" then "" else " WHERE " + where) + (" ORDER BY " + f.order) + BoundPaging(d, n)
  }

  lemma {:induction false} BoundSome(ts: seq<Tok>, d: Dialect, pos: nat)
    ensures BoundText(Pieces(ts, d), d, pos) == "" <==> ts == []
  {
    if ts != [] {
      var p := Pieces(ts, d)[0];
      assert p == PieceOf(ts[0], d);
      assert |BoundPiece(d)(p, pos)| > 0;
    }
  }

  lemma FrameBinds(f: Frame, ts: seq<Tok>, d: Dialect, limit: SqlValue, offset: SqlValue)
    requires !limit.List? && !offset.List?
    ensures BoundText(QueryPieces(f, ts, d, limit, offset), d, 0)
            == BoundQuery(f, BoundText(Pieces(ts, d), d, 0), d, |ArgsAll(ts)|)
    ensures PiecesArgs(QueryPieces(f, ts, d, limit, offset)) == ArgsAll(ts) + PagingArgs(d, limit, offset)
  {
    hide BoundText, PiecesArgs, BoundPaging, PagingArgs, ArgsAll, PagingPieces, WherePieces;
    var head, where, order := [Raw(Head(f))], WherePieces(ts, d), [Raw(" ORDER BY " + f.order)];
    BoundAppend(head, where, d, 0);
    BoundAppend(head + where, order, d, 0);
    BoundAppend(head + where + order, PagingPieces(d, limit, offset), d, 0);
    BoundOne(head[0], d, 0);
    WhereBinds(ts, d);
    BoundSome(ts, d, 0);
    BoundOne(order[0], d, |ArgsAll(ts)|);
    PagingBinds(d, limit, offset, |ArgsAll(ts)|);
  }

  /** In the paging clause as it is rebound, the placeholder behind OFFSET stands for the offset and the
      other one for the limit. */
  lemma PagingReads(limit: SqlValue, offset: SqlValue, pos: nat)
    ensures BoundPaging(SqlServer, pos) == " OFFSET " + Placeholder(SqlServer, pos) + " ROWS FETCH NEXT "
                                           + Placeholder(SqlServer, pos + 1) + " ROWS ONLY"
    ensures PagingArgs(SqlServer, limit, offset) == [offset] + [limit]
    ensures BoundPaging(PostgreSql, pos) == " LIMIT " + Placeholder(PostgreSql, pos) + " OFFSET "
                                            + Placeholder(PostgreSql, pos + 1)
    ensures PagingArgs(PostgreSql, limit, offset) == [limit] + [offset]
  {
    hide Placeholder;
    var a, b := Placeholder(SqlServer, pos), Placeholder(SqlServer, pos + 1);
    assert " OFFSET " + (a + (" ROWS FETCH NEXT " + (b + " ROWS ONLY")))
        == " OFFSET " + a + " ROWS FETCH NEXT " + b + " ROWS ONLY";
    var x, y := Placeholder(PostgreSql, pos), Placeholder(PostgreSql, pos + 1);
    assert " LIMIT " + (x + (" OFFSET " + y)) == " LIMIT " + x + " OFFSET " + y;
  }

  /** The rebound query is the query with its condition rebound; the arguments are the filter's, in
      placeholder order, followed by the paging arguments in the dialect's order; and the condition
      selects what FilterSelects says. */
  lemma QueryMeans(row: Row, c: Cond, f: Frame, d: Dialect, limit: SqlValue, offset: SqlValue)
    requires SafeCond(c, d) && SafeFrame(f) && !limit.List? && !offset.List?
    ensures var where, byName := SpellAll(Toks(c, 0), d), ByName(QueryParams(ParamList(Toks(c, 0)), limit, offset));
            var named := Split(QueryText(f, where, d), 0, byName);
            && BoundText(named, d, 0)
               == BoundQuery(f, BoundText(Split(where, 0, byName), d, 0), d, |ArgsAll(Toks(c, 0))|)
            && PiecesArgs(named) == ArgsAll(Toks(c, 0)) + PagingArgs(d, limit, offset)
            && Selects(row, where, byName, PiecesArgs(named), d)
               == if WellFormed(c) then Some(Selected(row, c)) else None
  {
    var ts := Toks(c, 0);
    var ps := ParamList(ts);
    var byName := ByName(QueryParams(ps, limit, offset));
    CondNumbered(c, 0);
    OwnNames(ps, limit, offset);
    QueryRebinds(c, f, d, limit, offset, byName);
    FilterSelects(row, c, d, [SqlParam("_limit", limit), SqlParam("_offset", offset)],
                  ArgsAll(ts) + PagingArgs(d, limit, offset));
  }

  lemma QueryRebinds(c: Cond, f: Frame, d: Dialect, limit: SqlValue, offset: SqlValue, byName: map<string, SqlValue>)
    requires SafeCond(c, d) && SafeFrame(f) && !limit.List? && !offset.List?
    requires byName == ByName(QueryParams(ParamList(Toks(c, 0)), limit, offset))
    ensures var where := SpellAll(Toks(c, 0), d);
            var named := Split(QueryText(f, where, d), 0, byName);
            && BoundText(named, d, 0)
               == BoundQuery(f, BoundText(Split(where, 0, byName), d, 0), d, |ArgsAll(Toks(c, 0))|)
            && PiecesArgs(named) == ArgsAll(Toks(c, 0)) + PagingArgs(d, limit, offset)
  {
    var ts := Toks(c, 0);
    var ps := ParamList(ts);
    CondNumbered(c, 0);
    CondClean(c, 0, d);
    OwnNames(ps, limit, offset);
    PagingBound(ps, limit, offset);
    ListedBound(ts, QueryParams(ps, limit, offset));
    QueryOk(f, ts, d, limit, offset, byName);
    QueryNamed(f, ts, d, limit, offset);
    RebindPieces(QueryText(f, SpellAll(ts, d), d), QueryPieces(f, ts, d, limit, offset), byName, d);
    EmittedPieces(ts, byName, d);
    RebindPieces(SpellAll(ts, d), Pieces(ts, d), byName, d);
    FrameBinds(f, ts, d, limit, offset);
  }

  // ---- schemas -------------------------------------------------------------

  ghost predicate SafeSchema(schema: Schema, d: Dialect) {
    forall i :: 0 <= i < |schema| ==> SafeColumn(ResolvedColumn(schema[i]), d)
  }

  lemma {:induction false} FieldSafe(schema: Schema, name: string, d: Dialect)
    requires SafeSchema(schema, d) && GetField(schema, name).Some?
    ensures SafeColumn(ResolvedColumn(GetField(schema, name).value), d)
  {
    if !EqualFold(schema[0].name, name) {
      assert SafeSchema(schema[1..], d);
      FieldSafe(schema[1..], name, d);
    }
  }

  ghost predicate SafeParts(parts: seq<Cond>, d: Dialect) { forall i :: 0 <= i < |parts| ==> SafeCond(parts[i], d) }

  /** A filter names only columns of the schema. */
  lemma {:induction false} ReadSafe(schema: Schema, j: Json, d: Dialect)
    requires SafeSchema(schema, d) && j.JObject? && ReadObject(schema, j).Ok?
    ensures SafeCond(ReadObject(schema, j).value, d)
    decreases j, 2, 0
  {
    MembersSafe(schema, j, SortedKeys(j.members.Keys), d);
  }

  lemma {:induction false} MembersSafe(schema: Schema, j: Json, keys: seq<string>, d: Dialect)
    requires SafeSchema(schema, d) && j.JObject? && ReadMembers(schema, j, keys).Ok?
    ensures SafeParts(ReadMembers(schema, j, keys).value, d)
    decreases j, 1, |keys|
  {
    if keys != [] {
      MembersSafe(schema, j, keys[..|keys| - 1], d);
      MemberSafe(schema, j, keys[|keys| - 1], d);
    }
  }

  lemma {:induction false} MemberSafe(schema: Schema, j: Json, name: string, d: Dialect)
    requires SafeSchema(schema, d) && j.JObject? && ReadMember(schema, j, name).Ok?
    ensures SafeCond(ReadMember(schema, j, name).value, d)
    decreases j, 0, 0
  {
    if IsLogical(name) { LogicalSafe(schema, name, j.members[name], d); } else { FieldSafe(schema, name, d); }
  }

  lemma {:induction false} LogicalSafe(schema: Schema, op: string, value: Json, d: Dialect)
    requires SafeSchema(schema, d) && ReadLogical(schema, op, value).Ok?
    ensures SafeCond(ReadLogical(schema, op, value).value, d)
    decreases value, 4, 0
  {
    if op == "$not" { ReadSafe(schema, value, d); } else { ItemsSafe(schema, value, |value.items|, d); }
  }

  lemma {:induction false} ItemsSafe(schema: Schema, value: Json, n: nat, d: Dialect)
    requires SafeSchema(schema, d) && value.JArray? && n <= |value.items| && ReadItems(schema, value, n).Ok?
    ensures SafeParts(ReadItems(schema, value, n).value, d)
    decreases value, 3, n
  {
    if n > 0 {
      ItemsSafe(schema, value, n - 1, d);
      ReadSafe(schema, value.items[n - 1], d);
    }
  }

  /** What the driver receives for a condition selects the row by; None if it is no SQL. */
  ghost function QuerySelects(row: Row, c: Cond, f: Frame, d: Dialect, limit: SqlValue,
                              offset: SqlValue): Option<Truth> {
    var where, byName := SpellAll(Toks(c, 0), d), ByName(QueryParams(ParamList(Toks(c, 0)), limit, offset));
    Selects(row, where, byName, PiecesArgs(Split(QueryText(f, where, d), 0, byName)), d)
  }

  /** What a filter denotes; without one, or with something that is no object, every row is meant. */
  ghost function Denotes(row: Row, schema: Schema, filter: Option<Json>): Truth {
    if filter.None? || !filter.value.JObject? then True else FilterTruth(row, schema, filter.value)
  }

  /** A filter is read unless it is flawed, and then as a condition that means the same; the error names
      one of its flaws. */
  lemma ConditionMeans(row: Row, schema: Schema, filter: Option<Json>)
    ensures Condition(schema, filter).Ok? <==>
              filter.None? || !filter.value.JObject? || Flawless(schema, filter.value)
    ensures Condition(schema, filter).Err? ==> Flawed(schema, filter.value, Condition(schema, filter).code)
    ensures Condition(schema, filter).Ok? ==>
              Meaning(row, Condition(schema, filter).value) == Denotes(row, schema, filter)
  {
    hide ReadObject, FilterTruth, Flawed;
    if filter.Some? && filter.value.JObject? {
      ReadFlaws(schema, filter.value);
      ReadCodes(schema, filter.value);
      if ReadObject(schema, filter.value).Ok? { ReadMeans(row, schema, filter.value); }
    } else {
      assert Meanings(row, []) == [];
    }
  }

  /** For every filter over a schema: what the driver receives is no condition at all exactly if the
      filter is not well formed, and else selects the rows the filter denotes if its gaps are
      harmless. */
  lemma FilterQueryMeans(row: Row, schema: Schema, filter: Option<Json>, f: Frame, d: Dialect,
                         limit: SqlValue, offset: SqlValue)
    requires SafeSchema(schema, d) && SafeFrame(f) && !limit.List? && !offset.List?
    requires Condition(schema, filter).Ok?
    ensures var c := Condition(schema, filter).value;
            && QuerySelects(row, c, f, d, limit, offset) == (if WellFormed(c) then Some(Selected(row, c)) else None)
            && (WellFormed(c) && Harmless(c) ==>
                  QuerySelects(row, c, f, d, limit, offset) == Some(Denotes(row, schema, filter)))
  {
    hide Toks, SpellAll, Split, BoundText, PiecesArgs, Selects, ArgsAll, ParamList, ByName, FilterTruth;
    var c := Condition(schema, filter).value;
    if filter.Some? && filter.value.JObject? { ReadSafe(schema, filter.value, d); }
    QueryMeans(row, c, f, d, limit, offset);
    ConditionMeans(row, schema, filter);
    if Harmless(c) { HarmlessMeans(row, c); }
  }

  /** For every filter that asks no question twice: the query selects by what the filter denotes at
      every row that decides all tests, if and only if the filter is well formed and every empty
      clause in it is a unit. */
  lemma FilterQueryExactly(schema: Schema, filter: Option<Json>, f: Frame, d: Dialect, limit: SqlValue,
                           offset: SqlValue)
    requires SafeSchema(schema, d) && SafeFrame(f) && !limit.List? && !offset.List?
    requires Condition(schema, filter).Ok? && Free(Condition(schema, filter).value)
    ensures var c := Condition(schema, filter).value;
            (forall row: Row ::
               Decided(row) ==> QuerySelects(row, c, f, d, limit, offset) == Some(Denotes(row, schema, filter)))
            <==> WellFormed(c) && Harmless(c)
  {
    hide QuerySelects, Meaning, Selected, WellFormed, Harmless, Free, Denotes;
    var c := Condition(schema, filter).value;
    forall row: Row
      ensures QuerySelects(row, c, f, d, limit, offset) == (if WellFormed(c) then Some(Selected(row, c)) else None)
      ensures Meaning(row, c) == Denotes(row, schema, filter)
    {
      FilterQueryMeans(row, schema, filter, f, d, limit, offset);
      ConditionMeans(row, schema, filter);
    }
    if WellFormed(c) { HarmlessExactly(c); } else { assert Decided(AllTrue); }
  }

  // ---- the builder and the rebinding ---------------------------------------

  function EffectiveLimit(frameLimit: uint64, defaultLimit: uint64, maxLimit: uint64): uint64 {
    var limit := if frameLimit == 0 then defaultLimit else frameLimit;
    if maxLimit > 0 && limit > maxLimit then maxLimit else limit
  }

  /** The limit asked for, or else the default, but never above a maximum that is set. */
  lemma LimitExactly(frameLimit: uint64, defaultLimit: uint64, maxLimit: uint64)
    ensures var asked := if frameLimit != 0 then frameLimit else defaultLimit;
            var limit := EffectiveLimit(frameLimit, defaultLimit, maxLimit);
            && limit <= asked && (maxLimit != 0 ==> limit <= maxLimit)
            && (limit == asked || (maxLimit != 0 && limit == maxLimit))
  {
  }

  class SqlQueryBuilder {
    const dialect: Dialect
    const filter: NwpFilterTranslator

    constructor (schema: Schema, dialect: Dialect)
      ensures this.dialect == dialect && filter.schema == schema && filter.dialect == dialect && fresh(filter)
    {
      this.dialect := dialect;
      this.filter := new NwpFilterTranslator(schema, dialect);
    }

    /** Select list and order terms arrive resolved and quoted; offset is the decoded cursor. */
    method Build(f: Frame, condition: Option<Json>, frameLimit: uint64, offset: int, defaultLimit: uint64,
                 maxLimit: uint64)
      returns (r: Result<(string, seq<SqlParam>)>)
      requires filter.dialect == dialect
      modifies filter
      ensures match Condition(filter.schema, condition)
              case Err(code) => r == Err(code)
              case Ok(c) => r == Ok((QueryText(f, SpellAll(Toks(c, 0), dialect), dialect),
                                     QueryParams(ParamList(Toks(c, 0)),
                                                 Integer(AsInt64(EffectiveLimit(frameLimit, defaultLimit, maxLimit))),
                                                 Integer(offset))))
    {
      var limit := frameLimit;
      if limit == 0 { limit := defaultLimit; }
      if maxLimit > 0 && limit > maxLimit { limit := maxLimit; }
      var text := "SELECT " + f.columns + " FROM " + f.table;
      var where := filter.Translate(condition);
      if where.Err? { return Err(where.code); }
      text := text + (if where.value.0 != "" then " WHERE " + where.value.0 else "");
      text := text + (" ORDER BY " + f.order);
      text := text + Paging(dialect);
      r := Ok((text, where.value.1 + [SqlParam("_limit", Integer(AsInt64(limit))),
                                      SqlParam("_offset", Integer(offset))]));
    }
  }

  lemma BoundHead(p: Piece, ps: seq<Piece>, d: Dialect, pos: nat)
    ensures BoundText([p] + ps, d, pos) == BoundPiece(d)(p, pos) + BoundText(ps, d, pos + |PieceArgs(p)|)
    ensures PiecesArgs([p] + ps) == PieceArgs(p) + PiecesArgs(ps)
  {
    BoundAppend([p], ps, d, pos);
    BoundOne(p, d, pos);
  }

  /** The placeholders of a list value, joined by commas. */
  method ListText(list: seq<SqlValue>, d: Dialect, pos: nat) returns (text: string, bound: seq<SqlValue>)
    ensures text == PlaceholderList(d, pos, |list|) && bound == list
  {
    hide Placeholder;
    text, bound := "", [];
    for k := 0 to |list|
      invariant text == FlatAt(Marks(|list|)[..k], ItemText(d), One, pos) && bound == list[..k]
    {
      text := text + ((if k > 0 then ", " else "") + Placeholder(d, pos + k));
      bound := bound + [list[k]];
      FlatAtSnoc(Marks(|list|), ItemText(d), One, pos, k);
      OnesWidth(Marks(|list|)[..k]);
    }
    assert Marks(|list|)[..|list|] == Marks(|list|);
  }

  /** What is still to come from position i of a text, pos arguments being bound. */
  function RestText(s: string, i: nat, byName: map<string, SqlValue>, d: Dialect, pos: nat): string
    requires i <= |s|
  {
    BoundText(Split(s, i, byName), d, pos)
  }

  function RestArgs(s: string, i: nat, byName: map<string, SqlValue>): seq<SqlValue>
    requires i <= |s|
  {
    PiecesArgs(Split(s, i, byName))
  }

  lemma RestSlot(s: string, i: nat, j: nat, byName: map<string, SqlValue>, d: Dialect, pos: nat)
    requires i < j <= |s| && s[i] == '@' && j == NameEnd(s, i + 1) && s[i + 1..j] in byName
    ensures var v := byName[s[i + 1..j]];
            && RestText(s, i, byName, d, pos) == BoundValue(v, d, pos) + RestText(s, j, byName, d, pos + |ValueArgs(v)|)
            && RestArgs(s, i, byName) == ValueArgs(v) + RestArgs(s, j, byName)
  {
    hide BoundText, PiecesArgs, BoundValue;
    BoundHead(Slot(s[i + 1..j], byName[s[i + 1..j]]), Split(s, j, byName), d, pos);
  }

  lemma RestChar(s: string, i: nat, byName: map<string, SqlValue>, d: Dialect, pos: nat)
    requires i < |s| && !(s[i] == '@' && s[i + 1..NameEnd(s, i + 1)] in byName)
    ensures RestText(s, i, byName, d, pos) == [s[i]] + RestText(s, i + 1, byName, d, pos)
    ensures RestArgs(s, i, byName) == RestArgs(s, i + 1, byName)
  {
    BoundHead(Raw([s[i]]), Split(s, i + 1, byName), d, pos);
  }

  /** text and args are what has been bound when position i is reached. */
  ghost predicate BoundUpTo(s: string, i: nat, byName: map<string, SqlValue>, d: Dialect, text: string,
                            args: seq<SqlValue>)
    requires i <= |s|
  {
    && RestText(s, 0, byName, d, 0) == text + RestText(s, i, byName, d, |args|)
    && RestArgs(s, 0, byName) == args + RestArgs(s, i, byName)
  }

  lemma BoundFurther(s: string, i: nat, next: nat, byName: map<string, SqlValue>, d: Dialect,
                     text: string, args: seq<SqlValue>, bound: string, more: seq<SqlValue>)
    requires i <= next <= |s| && BoundUpTo(s, i, byName, d, text, args)
    requires RestText(s, i, byName, d, |args|) == bound + RestText(s, next, byName, d, |args| + |more|)
    requires RestArgs(s, i, byName) == more + RestArgs(s, next, byName)
    ensures BoundUpTo(s, next, byName, d, text + bound, args + more)
  {
    Regroup(text, bound, RestText(s, next, byName, d, |args| + |more|));
    Regroup(args, more, RestArgs(s, next, byName));
  }

  /** The placeholders of one value. */
  method BindValue(val: SqlValue, d: Dialect, pos: nat) returns (text: string, more: seq<SqlValue>)
    ensures text == BoundValue(val, d, pos) && more == ValueArgs(val)
  {
    if val.List? {
      text, more := ListText(val.items, d, pos);
      text := "(" + text + ")";
    } else {
      text, more := Placeholder(d, pos), [val];
    }
  }

  method TokenEnd(s: string, start: nat) returns (j: nat)
    requires start <= |s|
    ensures j == NameEnd(s, start)
  {
    j := start;
    while j < |s| && IsNameChar(s[j])
      invariant start <= j <= |s| && NameEnd(s, start) == NameEnd(s, j)
    {
      j := j + 1;
    }
  }

  method RebindNamedParams(namedSql: string, params: seq<SqlParam>, d: Dialect)
    returns (text: string, args: seq<SqlValue>)
    ensures var named := Split(namedSql, 0, ByName(params)); text == BoundText(named, d, 0) && args == PiecesArgs(named)
  {
    var byName: map<string, SqlValue> := map[];
    for k := 0 to |params|
      invariant byName == ByName(params[..k])
    {
      assert params[..k + 1][..k] == params[..k];
      byName := byName[params[k].name := params[k].value];
    }
    assert params[..|params|] == params;
    text, args := Scan(namedSql, byName, d);
  }

  /** The scan from left to right. */
  method Scan(s: string, byName: map<string, SqlValue>, d: Dialect) returns (text: string, args: seq<SqlValue>)
    ensures text == RestText(s, 0, byName, d, 0) && args == RestArgs(s, 0, byName)
  {
    text, args := "", [];
    var i := 0;
    assert BoundUpTo(s, 0, byName, d, "", []) by {
      assert "" + RestText(s, 0, byName, d, 0) == RestText(s, 0, byName, d, 0);
      assert [] + RestArgs(s, 0, byName) == RestArgs(s, 0, byName);
    }
    while i < |s|
      invariant i <= |s| && BoundUpTo(s, i, byName, d, text, args)
    {
      var bound, more, next := StepOnce(s, i, byName, d, |args|);
      BoundFurther(s, i, next, byName, d, text, args, bound, more);
      text, args, i := text + bound, args + more, next;
    }
    assert Split(s, |s|, byName) == [];
  }

  /** One turn of the scan: a known parameter, or one character. */
  method StepOnce(s: string, i: nat, byName: map<string, SqlValue>, d: Dialect, pos: nat)
    returns (text: string, more: seq<SqlValue>, next: nat)
    requires i < |s|
    ensures i < next <= |s|
    ensures RestText(s, i, byName, d, pos) == text + RestText(s, next, byName, d, pos + |more|)
    ensures RestArgs(s, i, byName) == more + RestArgs(s, next, byName)
  {
    hide RestText, RestArgs, BoundValue;
    if s[i] == '@' {
      var j := TokenEnd(s, i + 1);
      if s[i + 1..j] in byName {
        text, more := BindValue(byName[s[i + 1..j]], d, pos);
        next := j;
        RestSlot(s, i, j, byName, d, pos);
        return;
      }
    }
    text, more, next := [s[i]], [], i + 1;
    RestChar(s, i, byName, d, pos);
    assert [] + RestArgs(s, i + 1, byName) == RestArgs(s, i + 1, byName);
  }
}

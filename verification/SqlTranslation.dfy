/** The emitted condition, rebound and handed to a driver, means what the filter means. */
module SqlTranslation {
  import opened Common
  import opened SqlFilter
  import opened SqlGaps
  import opened SqlRebind
  import opened SqlLexing
  import opened SqlParsing
  import opened SqlMeaning
  import opened SqlNumbering

  // ---- the emitted text can be rebound and read ----------------------------

  /** Every column named in the condition can be quoted. */
  predicate SafeCond(c: Cond, d: Dialect) {
    match c
    case All(parts) => forall i :: 0 <= i < |parts| ==> SafeCond(parts[i], d)
    case Logic(_, parts) => forall i :: 0 <= i < |parts| ==> SafeCond(parts[i], d)
    case Not(body) => SafeCond(body, d)
    case Test(column, _) => SafeColumn(column, d)
  }

  ghost predicate Clean(ts: seq<Tok>, d: Dialect) { Separated(ts) && SafeToks(ts, d) }

  lemma CleanAppend(a: seq<Tok>, b: seq<Tok>, d: Dialect)
    requires Clean(a, d) && Clean(b, d)
    requires a != [] && b != [] ==> !NeedsBreak(a[|a| - 1]) || Closes(b[0])
    ensures Clean(a + b, d)
  {
  }

  lemma {:induction false} JoinClean(cs: seq<seq<Tok>>, sep: Tok, d: Dialect)
    requires Closes(sep) && forall j :: 0 <= j < |cs| ==> Clean(cs[j], d)
    ensures Clean(Join(cs, sep), d)
  {
    if |cs| > 1 {
      var before := Join(cs[..|cs| - 1], sep);
      JoinClean(cs[..|cs| - 1], sep, d);
      CleanAppend(before, [sep], d);
      CleanAppend(before + [sep], cs[|cs| - 1], d);
    }
  }

  lemma EnclosedClean(open: seq<Tok>, ts: seq<Tok>, d: Dialect)
    requires open == [TOpen] || open == [TNot, TOpen]
    requires Clean(ts, d)
    ensures Clean(open + ts + [TClose], d)
  {
    CleanAppend(open, ts, d);
    CleanAppend(open + ts, [TClose], d);
  }

  lemma WrapClean(cs: seq<seq<Tok>>, sep: Tok, d: Dialect)
    requires Closes(sep) && forall j :: 0 <= j < |cs| ==> Clean(cs[j], d)
    ensures Clean(Wrap(cs, sep), d)
  {
    if |cs| > 1 {
      JoinClean(cs, sep, d);
      EnclosedClean([TOpen], Join(cs, sep), d);
    }
  }

  lemma {:induction false} NonEmptyClean(cs: seq<seq<Tok>>, d: Dialect)
    requires forall j :: 0 <= j < |cs| ==> Clean(cs[j], d)
    ensures forall j :: 0 <= j < |NonEmpty(cs)| ==> Clean(NonEmpty(cs)[j], d)
  {
    if cs != [] { NonEmptyClean(cs[..|cs| - 1], d); }
  }

  lemma {:induction false} AtomClausesClean(column: string, atoms: seq<Atom>, n: nat, d: Dialect)
    requires SafeColumn(column, d)
    ensures forall j :: 0 <= j < |atoms| ==> Clean(AtomClauses(column, atoms, n)[j], d)
  {
    if atoms != [] { AtomClausesClean(column, atoms[..|atoms| - 1], n, d); }
  }

  lemma {:induction false} CondClean(c: Cond, n: nat, d: Dialect)
    requires SafeCond(c, d)
    ensures Clean(Toks(c, n), d)
    decreases c, 1
  {
    match c
    case All(parts) =>
      PartsClean(parts, n, d);
      WrapClean(Clauses(parts, n), TAnd, d);
    case Logic(either, parts) =>
      PartsClean(parts, n, d);
      NonEmptyClean(Clauses(parts, n), d);
      WrapClean(NonEmpty(Clauses(parts, n)), if either then TOr else TAnd, d);
    case Not(body) =>
      CondClean(body, n, d);
      if Toks(body, n) != [] { EnclosedClean([TNot, TOpen], Toks(body, n), d); }
    case Test(column, atoms) =>
      AtomClausesClean(column, atoms, n, d);
      JoinClean(AtomClauses(column, atoms, n), TAnd, d);
      EnclosedClean([TOpen], Join(AtomClauses(column, atoms, n), TAnd), d);
  }

  lemma {:induction false} PartsClean(parts: seq<Cond>, n: nat, d: Dialect)
    requires forall i :: 0 <= i < |parts| ==> SafeCond(parts[i], d)
    ensures forall j :: 0 <= j < |parts| ==> Clean(Clauses(parts, n)[j], d)
    decreases parts, 0
  {
    forall j | 0 <= j < |parts| ensures Clean(Clauses(parts, n)[j], d) {
      ClauseAt(parts, n, j);
      CondClean(parts[j], n + PartsParams(parts[..j]), d);
    }
  }

  // ---- the rebound condition -----------------------------------------------

  lemma WholeChain(u: Input, o: Option<Truth>)
    requires FactorAt(u, 0) == Answer(o, |u.ls|)
    ensures ChainAt(u, Disjunction, 0) == Answer(o, |u.ls|)
  {
    assert OperandAt(u, Conjunction, 0) == FactorAt(u, 0);
    assert ChainAt(u, Conjunction, 0) == Answer(o, |u.ls|);
    assert OperandAt(u, Disjunction, 0) == ChainAt(u, Conjunction, 0);
  }

  /** The value of placed tokens that make up the whole input. */
  lemma WholeReads(u: Input, ts: seq<Tok>, o: Option<Truth>)
    requires Reads(u.row, ts, o) && u.ls == Lexemes(ts, 0) && ArgsAll(ts) <= u.args
    ensures Evaluate(u) == o
  {
    assert u.ls[0..|u.ls|] == u.ls && u.args[0..|ArgsAll(ts)|] == ArgsAll(ts);
    assert Placed(u, 0, 0, ts) && End(ts, 0, 0) == |u.ls|;
    assert ReadsAt(u, 0, 0, ts, o);
    WholeChain(u, o);
  }

  /** Rebinding the emitted text of a condition, together with any parameters bound after it, gives
      a text that SQL reads over the arguments as Value says; in particular it is a condition at
      all exactly if the filter is well formed and not empty. */
  lemma ReboundValue(row: Row, c: Cond, d: Dialect, more: seq<SqlParam>, args: seq<SqlValue>)
    requires SafeCond(c, d) && DistinctNames(ParamList(Toks(c, 0)) + more) && ArgsAll(Toks(c, 0)) <= args
    ensures var byName := ByName(ParamList(Toks(c, 0)) + more);
            var named := Split(SpellAll(Toks(c, 0), d), 0, byName);
            && Evaluate(Input(Lex(BoundText(named, d, 0), 0, d, 0), args, row)) == Value(row, c)
            && PiecesArgs(named) == ArgsAll(Toks(c, 0))
  {
    var ts, ps := Toks(c, 0), ParamList(Toks(c, 0)) + more;
    CondClean(c, 0, d);
    ListedBound(ts, ps);
    LexRebound(ts, ByName(ps), d);
    CondReads(row, c, 0);
    WholeReads(Input(Lexemes(ts, 0), args, row), ts, Value(row, c));
  }

  // ---- what a filter selects -----------------------------------------------

  /** What a query with this WHERE text selects: without a condition, every row. */
  function Selects(row: Row, where: string, byName: map<string, SqlValue>, args: seq<SqlValue>,
                   d: Dialect): Option<Truth> {
    if where == "" then Some(True)
    else Evaluate(Input(Lex(BoundText(Split(where, 0, byName), d, 0), 0, d, 0), args, row))
  }

  lemma SpelledEmpty(ts: seq<Tok>, d: Dialect)
    ensures SpellAll(ts, d) == "" <==> ts == []
  {
    if ts != [] {
      var p := Pieces(ts, d)[0];
      assert p == PieceOf(ts[0], d);
      assert |Named(p)| > 0;
    }
  }

  /** An empty filter selects everything, a filter with an empty clause in a joining position or an
      array in place of a scalar is no SQL condition, any other filter selects by its value. */
  lemma FilterSelects(row: Row, c: Cond, d: Dialect, more: seq<SqlParam>, args: seq<SqlValue>)
    requires SafeCond(c, d) && DistinctNames(ParamList(Toks(c, 0)) + more) && ArgsAll(Toks(c, 0)) <= args
    ensures Selects(row, SpellAll(Toks(c, 0), d), ByName(ParamList(Toks(c, 0)) + more), args, d)
         == if WellFormed(c) then Some(Selected(row, c)) else None
  {
    EmptyToks(c, 0);
    SpelledEmpty(Toks(c, 0), d);
    if Empty(c) { EmptyWellFormed(c); }
    ReboundValue(row, c, d, more, args);
  }
}

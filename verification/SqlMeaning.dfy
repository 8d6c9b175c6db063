/** What SQL makes of the emitted condition: it is well formed exactly when the filter has no
    empty clause in a joining position and no array where a scalar belongs, and then it has the
    value of the filter with its empty $and/$or parts dropped. */
module SqlMeaning {
  import opened Common
  import opened Flatten
  import opened SqlFilter
  import opened SqlRebind
  import opened SqlLexing
  import opened SqlParsing

  // ---- which filters translate well ----------------------------------------

  /** No text is emitted. */
  predicate Empty(c: Cond) {
    match c
    case All(parts) => parts == [] || (|parts| == 1 && Empty(parts[0]))
    case Logic(_, parts) => forall i :: 0 <= i < |parts| ==> Empty(parts[i])
    case Not(body) => Empty(body)
    case Test(_, _) => false
  }

  predicate AtomOk(a: Atom) {
    match a
    case Compare(_, v) => !v.List?
    case Between(lo, hi) => !lo.List? && !hi.List?
    case In(_, _) => true
  }

  predicate WellFormed(c: Cond) {
    match c
    case All(parts) =>
      (forall i :: 0 <= i < |parts| ==> WellFormed(parts[i])) &&
      (|parts| > 1 ==> forall i :: 0 <= i < |parts| ==> !Empty(parts[i]))
    case Logic(_, parts) => forall i :: 0 <= i < |parts| ==> WellFormed(parts[i])
    case Not(body) => WellFormed(body)
    case Test(_, atoms) => atoms != [] && forall i :: 0 <= i < |atoms| ==> AtomOk(atoms[i])
  }

  /** The value of the emitted condition: empty parts of $and and $or do not count. */
  function CodeMeaning(row: Row, c: Cond): Truth {
    match c
    case All(parts) => Conj(CodeMeanings(row, parts))
    case Logic(either, parts) => if either then Disj(KeptMeanings(row, parts)) else Conj(KeptMeanings(row, parts))
    case Not(body) => Not3(CodeMeaning(row, body))
    case Test(column, atoms) => Conj(AtomMeanings(row, column, atoms))
  }

  function CodeMeanings(row: Row, parts: seq<Cond>): (r: seq<Truth>)
    ensures |r| == |parts|
    ensures forall i :: 0 <= i < |parts| ==> r[i] == CodeMeaning(row, parts[i])
  {
    if parts == [] then []
    else CodeMeanings(row, parts[..|parts| - 1]) + [CodeMeaning(row, parts[|parts| - 1])]
  }

  function KeptMeanings(row: Row, parts: seq<Cond>): seq<Truth> {
    if parts == [] then []
    else
      var last := parts[|parts| - 1];
      KeptMeanings(row, parts[..|parts| - 1]) + (if Empty(last) then [] else [CodeMeaning(row, last)])
  }

  /** What reading the text of a condition as an operand gives. */
  function Value(row: Row, c: Cond): Option<Truth> {
    if Empty(c) || !WellFormed(c) then None else Some(CodeMeaning(row, c))
  }

  // ---- reading placed tokens -----------------------------------------------

  function End(ts: seq<Tok>, i: nat, pos: nat): nat { i + |Lexemes(ts, pos)| }

  /** The lexemes of ts stand at i, their arguments at pos. */
  ghost predicate Placed(u: Input, i: nat, pos: nat, ts: seq<Tok>) {
    At(u.ls, i, Lexemes(ts, pos)) && At(u.args, pos, ArgsAll(ts))
  }

  /** An operand may end at i. */
  predicate Follow(u: Input, i: nat) {
    i == |u.ls| || Next(u, i, LClose) || Next(u, i, Word(Conjunction)) || Next(u, i, Word(Disjunction))
  }

  function Answer(o: Option<Truth>, e: nat): Option<Read<Truth>> {
    if o.None? then None else Some(Read(o.value, e))
  }

  ghost predicate ReadsAt(u: Input, i: nat, pos: nat, ts: seq<Tok>, o: Option<Truth>) {
    Placed(u, i, pos, ts) && Follow(u, End(ts, i, pos)) ==> FactorAt(u, i) == Answer(o, End(ts, i, pos))
  }

  /** Wherever the tokens are placed, reading them as a factor gives o. */
  ghost predicate Reads(row: Row, ts: seq<Tok>, o: Option<Truth>) {
    forall u: Input, i: nat, pos: nat :: u.row == row ==> ReadsAt(u, i, pos, ts, o)
  }

  lemma PlacedSplit(u: Input, i: nat, pos: nat, a: seq<Tok>, b: seq<Tok>)
    requires Placed(u, i, pos, a + b)
    ensures Placed(u, i, pos, a) && Placed(u, End(a, i, pos), pos + |ArgsAll(a)|, b)
    ensures End(a + b, i, pos) == End(b, End(a, i, pos), pos + |ArgsAll(a)|)
    ensures |ArgsAll(a + b)| == |ArgsAll(a)| + |ArgsAll(b)|
  {
    hide LexTok, Args, At;
    FlatAtAppend(a, b, LexTok, TokWidth, pos);
    FlatAppend(a, b, Args);
    FlatLength(a, Args, TokWidth);
    AtSplit(u.ls, i, Lexemes(a, pos), Lexemes(b, pos + |ArgsAll(a)|));
    AtSplit(u.args, pos, ArgsAll(a), ArgsAll(b));
  }

  lemma LexemesOne(t: Tok, i: nat, pos: nat)
    ensures Lexemes([t], pos) == LexTok(t, pos) && ArgsAll([t]) == Args(t)
    ensures End([t], i, pos) == i + |LexTok(t, pos)|
  {
    FlatAtOne(t, LexTok, TokWidth, pos);
    FlatOne(t, Args);
  }

  /** The first token of a placed list. */
  lemma PlacedHead(u: Input, i: nat, pos: nat, ts: seq<Tok>)
    requires ts != [] && Placed(u, i, pos, ts)
    ensures At(u.ls, i, LexTok(ts[0], pos)) && At(u.args, pos, Args(ts[0]))
    ensures Placed(u, i + |LexTok(ts[0], pos)|, pos + |Args(ts[0])|, ts[1..])
    ensures End(ts, i, pos) == End(ts[1..], i + |LexTok(ts[0], pos)|, pos + |Args(ts[0])|)
  {
    assert ts == [ts[0]] + ts[1..];
    PlacedSplit(u, i, pos, [ts[0]], ts[1..]);
    LexemesOne(ts[0], i, pos);
  }

  lemma OneLexeme(u: Input, i: nat, l: Lexeme)
    requires At(u.ls, i, [l])
    ensures Next(u, i, l)
  {
    assert u.ls[i] == u.ls[i..i + 1][0];
  }

  /** Tokens that are read as a single lexeme and bind nothing. */
  predicate Simple(t: Tok) {
    t == TOpen || t == TClose || t == TAnd || t == TOr || t == TNot || t.TColumn? || t.TCompare? || t == TIn
      || t == TBetween
  }

  function LexemeOf(t: Tok): Lexeme
    requires Simple(t)
  {
    match t
    case TOpen => LOpen
    case TClose => LClose
    case TAnd => LWord("AND")
    case TOr => LWord("OR")
    case TNot => LWord("NOT")
    case TColumn(c) => LIdent(c)
    case TCompare(op) => if op == Like then LWord("LIKE") else LOp(OpText(op))
    case TIn => LWord("IN")
    case TBetween => LWord("BETWEEN")
  }

  lemma SimpleHead(u: Input, i: nat, pos: nat, ts: seq<Tok>)
    requires ts != [] && Placed(u, i, pos, ts) && Simple(ts[0])
    ensures Next(u, i, LexemeOf(ts[0])) && Placed(u, i + 1, pos, ts[1..]) && End(ts, i, pos) == End(ts[1..], i + 1, pos)
  {
    PlacedHead(u, i, pos, ts);
    assert LexTok(ts[0], pos) == [LexemeOf(ts[0])];
    OneLexeme(u, i, LexemeOf(ts[0]));
  }

  lemma ParamHead(u: Input, i: nat, pos: nat, ts: seq<Tok>)
    requires ts != [] && Placed(u, i, pos, ts) && ts[0].Param? && !ts[0].value.List?
    ensures Arg(u, i) == Some(ts[0].value) && Placed(u, i + 1, pos + 1, ts[1..])
            && End(ts, i, pos) == End(ts[1..], i + 1, pos + 1)
  {
    PlacedHead(u, i, pos, ts);
    assert LexTok(ts[0], pos) == [LPh(pos)];
    OneLexeme(u, i, LPh(pos));
    assert u.args[pos] == u.args[pos..pos + 1][0];
  }

  lemma ListParamHead(u: Input, i: nat, pos: nat, ts: seq<Tok>)
    requires ts != [] && Placed(u, i, pos, ts) && ts[0].Param? && ts[0].value.List?
    ensures Next(u, i, LOpen) && Arg(u, i).None?
  {
    PlacedHead(u, i, pos, ts);
    var n := |ts[0].value.items|;
    assert LexTok(ts[0], pos) == [LOpen] + (PhList(pos, n) + [LClose]);
    AtSplit(u.ls, i, [LOpen], PhList(pos, n) + [LClose]);
    OneLexeme(u, i, LOpen);
  }

  // ---- atoms ---------------------------------------------------------------

  function Outcome(row: Row, column: string, a: Atom): Option<Truth> {
    if AtomOk(a) then Some(AtomMeaning(row, column, a)) else None
  }

  lemma PredicateFactor(u: Input, i: nat)
    requires i < |u.ls| && (u.ls[i].LIdent? || u.ls[i].LNum?)
    ensures FactorAt(u, i) == PredicateAt(u, i)
  {
  }

  lemma CompareReads(u: Input, i: nat, pos: nat, column: string, op: CompareOp, v: SqlValue, n: nat)
    requires Placed(u, i, pos, AtomToks(column, Compare(op, v), n))
    ensures FactorAt(u, i) == Answer(Outcome(u.row, column, Compare(op, v)),
                                     End(AtomToks(column, Compare(op, v), n), i, pos))
  {
    var ts := AtomToks(column, Compare(op, v), n);
    SimpleHead(u, i, pos, ts);
    SimpleHead(u, i + 1, pos, ts[1..]);
    assert OperatorOf(LexemeOf(TCompare(op))) == Some(op);
    if v.List? {
      ListParamHead(u, i + 2, pos, ts[1..][1..]);
    } else {
      ParamHead(u, i + 2, pos, ts[1..][1..]);
    }
    PredicateFactor(u, i);
  }

  lemma BetweenPlaced(u: Input, i: nat, pos: nat, column: string, lo: SqlValue, hi: SqlValue, n: nat)
    requires Placed(u, i, pos, AtomToks(column, Between(lo, hi), n))
    ensures Next(u, i, LIdent(column)) && Next(u, i + 1, LWord("BETWEEN"))
            && Placed(u, i + 2, pos, [Param(n, lo), TAnd, Param(n + 1, hi)])
    ensures End(AtomToks(column, Between(lo, hi), n), i, pos) == End([Param(n, lo), TAnd, Param(n + 1, hi)], i + 2, pos)
  {
    var ts := AtomToks(column, Between(lo, hi), n);
    SimpleHead(u, i, pos, ts);
    SimpleHead(u, i + 1, pos, ts[1..]);
    assert ts[1..][1..] == [Param(n, lo), TAnd, Param(n + 1, hi)];
  }

  lemma RangePlaced(u: Input, i: nat, pos: nat, lo: SqlValue, hi: SqlValue, n: nat)
    requires Placed(u, i, pos, [Param(n, lo), TAnd, Param(n + 1, hi)]) && !lo.List?
    ensures Arg(u, i) == Some(lo) && Next(u, i + 1, LWord("AND"))
    ensures Arg(u, i + 2) == if hi.List? then None else Some(hi)
    ensures !hi.List? ==> End([Param(n, lo), TAnd, Param(n + 1, hi)], i, pos) == i + 3
  {
    var ts := [Param(n, lo), TAnd, Param(n + 1, hi)];
    ParamHead(u, i, pos, ts);
    SimpleHead(u, i + 1, pos + 1, ts[1..]);
    if hi.List? {
      ListParamHead(u, i + 2, pos + 1, ts[1..][1..]);
    } else {
      ParamHead(u, i + 2, pos + 1, ts[1..][1..]);
    }
  }

  lemma BetweenReads(u: Input, i: nat, pos: nat, column: string, lo: SqlValue, hi: SqlValue, n: nat)
    requires Placed(u, i, pos, AtomToks(column, Between(lo, hi), n))
    ensures FactorAt(u, i) == Answer(Outcome(u.row, column, Between(lo, hi)),
                                     End(AtomToks(column, Between(lo, hi), n), i, pos))
  {
    BetweenPlaced(u, i, pos, column, lo, hi, n);
    if lo.List? {
      ListParamHead(u, i + 2, pos, [Param(n, lo), TAnd, Param(n + 1, hi)]);
    } else {
      RangePlaced(u, i + 2, pos, lo, hi, n);
    }
    PredicateFactor(u, i);
  }

  lemma ItemPlaced(u: Input, i: nat, pos: nat, l: Lexeme, more: seq<Lexeme>)
    requires At(u.ls, i, [l] + ([LPh(pos)] + more)) && pos < |u.args|
    ensures Next(u, i, l) && Arg(u, i + 1) == Some(u.args[pos]) && At(u.ls, i + 2, more)
  {
    AtSplit(u.ls, i, [l], [LPh(pos)] + more);
    AtSplit(u.ls, i + 1, [LPh(pos)], more);
    OneLexeme(u, i, l);
    OneLexeme(u, i + 1, LPh(pos));
  }

  lemma ItemsShape(marks: seq<bool>, pos: nat)
    requires marks != []
    ensures var more := FlatAt(marks[1..], ItemLexemes, One, pos + 1);
            FlatAt(marks, ItemLexemes, One, pos) == (if marks[0] then [LComma, LPh(pos)] else [LPh(pos)]) + more
  {
  }

  lemma Consecutive(args: seq<SqlValue>, pos: nat, n: nat)
    requires 0 < n && pos + n <= |args|
    ensures [args[pos]] + args[pos + 1..pos + n] == args[pos..pos + n]
  {
  }

  lemma TailShape(marks: seq<bool>, pos: nat)
    requires marks != [] && marks[0]
    ensures var more := FlatAt(marks[1..], ItemLexemes, One, pos + 1);
            FlatAt(marks, ItemLexemes, One, pos) + [LClose] == [LComma] + ([LPh(pos)] + (more + [LClose]))
  {
    ItemsShape(marks, pos);
  }

  lemma {:induction false} TailLength(marks: seq<bool>, pos: nat)
    requires forall j :: 0 <= j < |marks| ==> marks[j]
    ensures |FlatAt(marks, ItemLexemes, One, pos)| == 2 * |marks|
    decreases |marks|
  {
    if marks != [] { TailLength(marks[1..], pos + 1); }
  }

  lemma TailEnd(u: Input, i: nat)
    requires Next(u, i, LClose)
    ensures ListTail(u, i) == Some(Read([], i + 1))
  {
  }

  lemma TailStep(u: Input, i: nat, v: SqlValue, vs: seq<SqlValue>, e: nat)
    requires Next(u, i, LComma) && Arg(u, i + 1) == Some(v) && ListTail(u, i + 2) == Some(Read(vs, e))
    ensures ListTail(u, i) == Some(Read([v] + vs, e))
  {
  }

  /** The items after the first, each behind a comma. */
  lemma {:induction false} TailReads(u: Input, i: nat, pos: nat, marks: seq<bool>)
    requires forall j :: 0 <= j < |marks| ==> marks[j]
    requires At(u.ls, i, FlatAt(marks, ItemLexemes, One, pos) + [LClose]) && pos + |marks| <= |u.args|
    ensures ListTail(u, i) == Some(Read(u.args[pos..pos + |marks|], i + 2 * |marks| + 1))
    decreases |marks|
  {
    hide ListTail, At;
    if marks == [] {
      assert FlatAt(marks, ItemLexemes, One, pos) == [];
      AtSplit(u.ls, i, [], [LClose]);
      OneLexeme(u, i, LClose);
      TailEnd(u, i);
      assert u.args[pos..pos] == [];
    } else {
      var more := FlatAt(marks[1..], ItemLexemes, One, pos + 1);
      TailShape(marks, pos);
      ItemPlaced(u, i, pos, LComma, more + [LClose]);
      TailReads(u, i + 2, pos + 1, marks[1..]);
      Consecutive(u.args, pos, |marks|);
      TailStep(u, i, u.args[pos], u.args[pos + 1..pos + |marks|], i + 2 * |marks| + 1);
    }
  }

  lemma ListShape(pos: nat, n: nat)
    requires n > 0
    ensures var more := FlatAt(Marks(n)[1..], ItemLexemes, One, pos + 1);
            && [LOpen] + PhList(pos, n) + [LClose] == [LOpen] + ([LPh(pos)] + (more + [LClose]))
            && |PhList(pos, n)| == |more| + 1
  {
    ItemsShape(Marks(n), pos);
  }

  lemma ListReads(u: Input, i: nat, pos: nat, n: nat)
    requires n > 0 && At(u.ls, i, [LOpen] + PhList(pos, n) + [LClose]) && pos + n <= |u.args|
    ensures ListAt(u, i) == Some(Read(u.args[pos..pos + n], i + |PhList(pos, n)| + 2))
  {
    hide ListTail, At;
    var marks := Marks(n)[1..];
    ListShape(pos, n);
    ItemPlaced(u, i, pos, LOpen, FlatAt(marks, ItemLexemes, One, pos + 1) + [LClose]);
    TailReads(u, i + 2, pos + 1, marks);
    TailLength(marks, pos + 1);
    Consecutive(u.args, pos, n);
  }

  lemma MemberReads(u: Input, i: nat, pos: nat, column: string, negated: bool, vs: seq<SqlValue>, n: nat)
    requires vs != [] && Placed(u, i, pos, [Param(n, List(vs))])
    ensures MemberAt(u, column, negated, i)
            == Some(Read(u.row(column, Member(negated), vs), End([Param(n, List(vs))], i, pos)))
  {
    LexemesOne(Param(n, List(vs)), i, pos);
    ListReads(u, i, pos, |vs|);
  }

  lemma InPlaced(u: Input, i: nat, pos: nat, column: string, negated: bool, vs: seq<SqlValue>, n: nat)
    requires vs != [] && Placed(u, i, pos, AtomToks(column, In(negated, vs), n))
    ensures var j := if negated then i + 3 else i + 2;
            && Next(u, i, LIdent(column)) && Placed(u, j, pos, [Param(n, List(vs))])
            && (if negated then Next(u, i + 1, LWord("NOT")) && Next(u, i + 2, LWord("IN"))
                else Next(u, i + 1, LWord("IN")))
            && End(AtomToks(column, In(negated, vs), n), i, pos) == End([Param(n, List(vs))], j, pos)
  {
    var ts := AtomToks(column, In(negated, vs), n);
    SimpleHead(u, i, pos, ts);
    assert ts[1..][1..] == [Param(n, List(vs))];
    if negated {
      PlacedHead(u, i + 1, pos, ts[1..]);
      assert LexTok(TNotIn, pos) == [LWord("NOT")] + [LWord("IN")];
      AtSplit(u.ls, i + 1, [LWord("NOT")], [LWord("IN")]);
      OneLexeme(u, i + 1, LWord("NOT"));
      OneLexeme(u, i + 2, LWord("IN"));
    } else {
      SimpleHead(u, i + 1, pos, ts[1..]);
    }
  }

  lemma InReads(u: Input, i: nat, pos: nat, column: string, negated: bool, vs: seq<SqlValue>, n: nat)
    requires vs != [] && Placed(u, i, pos, AtomToks(column, In(negated, vs), n))
    ensures FactorAt(u, i) == Answer(Outcome(u.row, column, In(negated, vs)),
                                     End(AtomToks(column, In(negated, vs), n), i, pos))
  {
    InPlaced(u, i, pos, column, negated, vs, n);
    MemberReads(u, if negated then i + 3 else i + 2, pos, column, negated, vs, n);
    PredicateFactor(u, i);
  }

  lemma ThreePlaced(u: Input, i: nat, a: Lexeme, b: Lexeme, c: Lexeme)
    requires At(u.ls, i, [a, b, c])
    ensures Next(u, i, a) && Next(u, i + 1, b) && Next(u, i + 2, c)
  {
    assert [a, b, c] == [a] + ([b] + [c]);
    AtSplit(u.ls, i, [a], [b] + [c]);
    AtSplit(u.ls, i + 1, [b], [c]);
    OneLexeme(u, i, a);
    OneLexeme(u, i + 1, b);
    OneLexeme(u, i + 2, c);
  }

  lemma ConstantFactor(u: Input, i: nat, a: string, b: string)
    requires Next(u, i, LNum(a)) && Next(u, i + 1, LOp("=")) && Next(u, i + 2, LNum(b))
    ensures FactorAt(u, i) == Some(Read(if a == b then True else False, i + 3))
  {
    PredicateFactor(u, i);
  }

  lemma ConstantReads(u: Input, i: nat, pos: nat, column: string, negated: bool, n: nat)
    requires Placed(u, i, pos, AtomToks(column, In(negated, []), n))
    ensures FactorAt(u, i) == Answer(Outcome(u.row, column, In(negated, [])),
                                     End(AtomToks(column, In(negated, []), n), i, pos))
  {
    hide FactorAt, At;
    var t, b := if negated then TTrue else TFalse, if negated then "1" else "0";
    LexemesOne(t, i, pos);
    ThreePlaced(u, i, LNum("1"), LOp("="), LNum(b));
    ConstantFactor(u, i, "1", b);
    assert "0"[0] != "1"[0];
  }

  lemma AtomReads(row: Row, column: string, a: Atom, n: nat)
    ensures Reads(row, AtomToks(column, a, n), Outcome(row, column, a))
  {
    var ts := AtomToks(column, a, n);
    forall u: Input, i: nat, pos: nat | u.row == row ensures ReadsAt(u, i, pos, ts, Outcome(row, column, a)) {
      if Placed(u, i, pos, ts) {
        match a
        case Compare(op, v) => CompareReads(u, i, pos, column, op, v, n);
        case Between(lo, hi) => BetweenReads(u, i, pos, column, lo, hi, n);
        case In(negated, vs) =>
          if vs == [] {
            ConstantReads(u, i, pos, column, negated, n);
          } else {
            InReads(u, i, pos, column, negated, vs, n);
          }
      }
    }
  }

  // ---- chains --------------------------------------------------------------

  function Sep(l: Level): Tok { if l == Conjunction then TAnd else TOr }

  function Lift(l: Level, a: Option<Truth>, b: Option<Truth>): Option<Truth> {
    if a.None? || b.None? then None else Some(Combine(l, a.value, b.value))
  }

  function Fold(l: Level, os: seq<Option<Truth>>): Option<Truth> {
    if os == [] then None
    else if |os| == 1 then os[0]
    else Lift(l, Fold(l, os[..|os| - 1]), os[|os| - 1])
  }

  ghost predicate AllRead(row: Row, cs: seq<seq<Tok>>, os: seq<Option<Truth>>) {
    |cs| == |os| && forall j :: 0 <= j < |cs| ==> Reads(row, cs[j], os[j])
  }

  predicate Stops(u: Input, l: Level, i: nat) { Next(u, i, LClose) || Next(u, i, Word(l)) }

  lemma StopsChain(u: Input, i: nat)
    requires Stops(u, Disjunction, i)
    ensures !Next(u, i, Word(Conjunction))
  {
    assert |"AND"| == 3 && |"OR"| == 2;
  }

  lemma OperandReads(u: Input, i: nat, pos: nat, l: Level, ts: seq<Tok>, o: Option<Truth>)
    requires Reads(u.row, ts, o) && Placed(u, i, pos, ts) && Stops(u, l, End(ts, i, pos))
    ensures OperandAt(u, l, i) == Answer(o, End(ts, i, pos))
  {
    assert ReadsAt(u, i, pos, ts, o);
    if l == Disjunction {
      StopsChain(u, End(ts, i, pos));
      LoneFactor(u, i, o, End(ts, i, pos));
    }
  }

  /** A factor that no AND follows is a conjunction of its own. */
  lemma LoneFactor(u: Input, i: nat, o: Option<Truth>, e: nat)
    requires FactorAt(u, i) == Answer(o, e) && !Next(u, e, Word(Conjunction))
    ensures ChainAt(u, Conjunction, i) == Answer(o, e)
  {
    assert OperandAt(u, Conjunction, i) == FactorAt(u, i);
  }

  lemma ChainGrows(u: Input, i: nat, pos: nat, l: Level, before: Truth, ts: seq<Tok>, o: Option<Truth>)
    requires Next(u, i, Word(l)) && Reads(u.row, ts, o) && Placed(u, i + 1, pos, ts) && Stops(u, l, End(ts, i + 1, pos))
    ensures RestAt(u, l, before, i) == if o.None? then None
                                       else RestAt(u, l, Combine(l, before, o.value), End(ts, i + 1, pos))
  {
    OperandReads(u, i + 1, pos, l, ts, o);
  }

  function Continued(u: Input, l: Level, o: Option<Truth>, e: nat): Option<Read<Truth>>
    requires e <= |u.ls|
  {
    if o.None? then None else RestAt(u, l, o.value, e)
  }

  lemma JoinPlaced(u: Input, i: nat, pos: nat, l: Level, cs: seq<seq<Tok>>)
    requires |cs| > 1 && Placed(u, i, pos, Join(cs, Sep(l)))
    ensures var before, last := Join(cs[..|cs| - 1], Sep(l)), cs[|cs| - 1];
            var e, p := End(before, i, pos), pos + |ArgsAll(before)|;
            && Placed(u, i, pos, before) && Next(u, e, Word(l)) && Placed(u, e + 1, p, last)
            && End(Join(cs, Sep(l)), i, pos) == End(last, e + 1, p)
  {
    var before, last := Join(cs[..|cs| - 1], Sep(l)), cs[|cs| - 1];
    var e, p := End(before, i, pos), pos + |ArgsAll(before)|;
    assert Join(cs, Sep(l)) == before + ([Sep(l)] + last);
    PlacedSplit(u, i, pos, before, [Sep(l)] + last);
    SimpleHead(u, e, p, [Sep(l)] + last);
    assert ([Sep(l)] + last)[1..] == last;
  }

  lemma {:induction false} ChainReads(u: Input, i: nat, pos: nat, l: Level, cs: seq<seq<Tok>>, os: seq<Option<Truth>>)
    requires cs != [] && AllRead(u.row, cs, os)
    requires Placed(u, i, pos, Join(cs, Sep(l))) && Stops(u, l, End(Join(cs, Sep(l)), i, pos))
    ensures ChainAt(u, l, i) == Continued(u, l, Fold(l, os), End(Join(cs, Sep(l)), i, pos))
    decreases |cs|
  {
    hide FactorAt, Lexemes, ArgsAll;
    if |cs| == 1 {
      OperandReads(u, i, pos, l, cs[0], os[0]);
    } else {
      var k := |cs| - 1;
      var before := Join(cs[..k], Sep(l));
      var e, p := End(before, i, pos), pos + |ArgsAll(before)|;
      JoinPlaced(u, i, pos, l, cs);
      ChainReads(u, i, pos, l, cs[..k], os[..k]);
      if Fold(l, os[..k]).Some? {
        ChainGrows(u, e, p, l, Fold(l, os[..k]).value, cs[k], os[k]);
      }
    }
  }

  /** Inside parentheses a chain of either kind is read as a disjunction. */
  lemma ChainCloses(u: Input, i: nat, l: Level, o: Option<Truth>, e: nat)
    requires Next(u, e, LClose) && ChainAt(u, l, i) == Continued(u, l, o, e)
    ensures ChainAt(u, Disjunction, i) == Answer(o, e)
  {
  }

  lemma ParenPlaced(u: Input, i: nat, pos: nat, inner: seq<Tok>)
    requires Placed(u, i, pos, [TOpen] + inner + [TClose])
    ensures Next(u, i, LOpen) && Placed(u, i + 1, pos, inner) && Next(u, End(inner, i + 1, pos), LClose)
    ensures End([TOpen] + inner + [TClose], i, pos) == End(inner, i + 1, pos) + 1
  {
    assert [TOpen] + inner + [TClose] == [TOpen] + (inner + [TClose]);
    SimpleHead(u, i, pos, [TOpen] + (inner + [TClose]));
    assert ([TOpen] + (inner + [TClose]))[1..] == inner + [TClose];
    PlacedSplit(u, i + 1, pos, inner, [TClose]);
    SimpleHead(u, End(inner, i + 1, pos), pos + |ArgsAll(inner)|, [TClose]);
    LexemesOne(TClose, End(inner, i + 1, pos), pos + |ArgsAll(inner)|);
  }

  lemma PrimaryCloses(u: Input, i: nat, o: Option<Truth>, e: nat)
    requires Next(u, i, LOpen) && Next(u, e, LClose) && ChainAt(u, Disjunction, i + 1) == Answer(o, e)
    ensures FactorAt(u, i) == PrimaryAt(u, i) == Answer(o, e + 1)
  {
  }

  lemma ParenReadsAt(u: Input, i: nat, pos: nat, l: Level, cs: seq<seq<Tok>>, os: seq<Option<Truth>>)
    requires cs != [] && AllRead(u.row, cs, os) && Placed(u, i, pos, [TOpen] + Join(cs, Sep(l)) + [TClose])
    ensures Next(u, i, LOpen)
    ensures FactorAt(u, i) == PrimaryAt(u, i) == Answer(Fold(l, os), End([TOpen] + Join(cs, Sep(l)) + [TClose], i, pos))
  {
    var inner := Join(cs, Sep(l));
    ParenPlaced(u, i, pos, inner);
    ChainReads(u, i + 1, pos, l, cs, os);
    ChainCloses(u, i + 1, l, Fold(l, os), End(inner, i + 1, pos));
    PrimaryCloses(u, i, Fold(l, os), End(inner, i + 1, pos));
  }

  lemma ParenReads(row: Row, l: Level, cs: seq<seq<Tok>>, os: seq<Option<Truth>>)
    requires cs != [] && AllRead(row, cs, os)
    ensures Reads(row, [TOpen] + Join(cs, Sep(l)) + [TClose], Fold(l, os))
  {
    var ts := [TOpen] + Join(cs, Sep(l)) + [TClose];
    forall u: Input, i: nat, pos: nat | u.row == row ensures ReadsAt(u, i, pos, ts, Fold(l, os)) {
      if Placed(u, i, pos, ts) { ParenReadsAt(u, i, pos, l, cs, os); }
    }
  }

  lemma NoneAt(u: Input, i: nat)
    requires Follow(u, i)
    ensures FactorAt(u, i) == None
  {
  }

  lemma NoChain(u: Input, i: nat)
    requires FactorAt(u, i) == None
    ensures ChainAt(u, Disjunction, i) == None
  {
    assert ChainAt(u, Conjunction, i) == None;
  }

  lemma EmptyReads(row: Row)
    ensures Reads(row, [], None)
  {
    forall u: Input, i: nat, pos: nat | u.row == row ensures ReadsAt(u, i, pos, [], None) {
      assert End([], i, pos) == i;
      if Follow(u, i) { NoneAt(u, i); }
    }
  }

  lemma WrapReads(row: Row, l: Level, cs: seq<seq<Tok>>, os: seq<Option<Truth>>)
    requires AllRead(row, cs, os)
    ensures Reads(row, Wrap(cs, Sep(l)), Fold(l, os))
  {
    if cs == [] {
      EmptyReads(row);
    } else if |cs| > 1 {
      ParenReads(row, l, cs, os);
    }
  }

  /** "()" is not a condition. */
  lemma HollowReads(row: Row)
    ensures Reads(row, [TOpen] + [] + [TClose], None)
  {
    var ts := [TOpen] + [] + [TClose];
    forall u: Input, i: nat, pos: nat | u.row == row ensures ReadsAt(u, i, pos, ts, None) {
      if Placed(u, i, pos, ts) {
        SimpleHead(u, i, pos, ts);
        SimpleHead(u, i + 1, pos, ts[1..]);
        NoneAt(u, i + 1);
        NoChain(u, i + 1);
      }
    }
  }

  function Negated(o: Option<Truth>): Option<Truth> { if o.None? then None else Some(Not3(o.value)) }

  lemma NotReads(row: Row, ts: seq<Tok>, o: Option<Truth>)
    requires Reads(row, ts, o)
    ensures Reads(row, [TNot, TOpen] + ts + [TClose], Negated(o))
  {
    var whole, body := [TNot, TOpen] + ts + [TClose], [TOpen] + Join([ts], TAnd) + [TClose];
    forall u: Input, i: nat, pos: nat | u.row == row ensures ReadsAt(u, i, pos, whole, Negated(o)) {
      if Placed(u, i, pos, whole) {
        SimpleHead(u, i, pos, whole);
        assert whole[1..] == body;
        ParenReadsAt(u, i + 1, pos, Conjunction, [ts], [o]);
      }
    }
  }

  // ---- conditions ----------------------------------------------------------

  function Values(row: Row, parts: seq<Cond>): (r: seq<Option<Truth>>)
    ensures |r| == |parts| && forall j :: 0 <= j < |parts| ==> r[j] == Value(row, parts[j])
  {
    seq(|parts|, j requires 0 <= j < |parts| => Value(row, parts[j]))
  }

  function KeptValues(row: Row, parts: seq<Cond>): seq<Option<Truth>> {
    if parts == [] then []
    else
      var last := parts[|parts| - 1];
      KeptValues(row, parts[..|parts| - 1]) + (if Empty(last) then [] else [Value(row, last)])
  }

  function Outcomes(row: Row, column: string, atoms: seq<Atom>): (r: seq<Option<Truth>>)
    ensures |r| == |atoms| && forall j :: 0 <= j < |atoms| ==> r[j] == Outcome(row, column, atoms[j])
  {
    seq(|atoms|, j requires 0 <= j < |atoms| => Outcome(row, column, atoms[j]))
  }

  predicate AllSome(os: seq<Option<Truth>>) { forall j :: 0 <= j < |os| ==> os[j].Some? }

  function Total(l: Level, vs: seq<Truth>): Truth { if l == Conjunction then Conj(vs) else Disj(vs) }

  lemma TotalOne(l: Level, v: Truth)
    ensures Total(l, [v]) == v
  {
    assert [v][..0] == [];
    if l == Conjunction { assert Conj([]) == True; } else { assert Disj([]) == False; }
  }

  lemma {:induction false} FoldSome(l: Level, os: seq<Option<Truth>>, vs: seq<Truth>)
    requires |os| == |vs| > 0 && forall j :: 0 <= j < |os| ==> os[j] == Some(vs[j])
    ensures Fold(l, os) == Some(Total(l, vs))
    decreases |os|
  {
    if |os| == 1 {
      TotalOne(l, vs[0]);
      assert vs == [vs[0]];
    } else {
      FoldSome(l, os[..|os| - 1], vs[..|vs| - 1]);
    }
  }

  lemma {:induction false} FoldNone(l: Level, os: seq<Option<Truth>>)
    requires !AllSome(os)
    ensures Fold(l, os) == None
    decreases |os|
  {
    if |os| > 1 && os[|os| - 1].Some? { FoldNone(l, os[..|os| - 1]); }
  }

  lemma {:induction false} EmptyWellFormed(c: Cond)
    requires Empty(c)
    ensures WellFormed(c)
  {
    match c
    case All(parts) => if |parts| == 1 { EmptyWellFormed(parts[0]); }
    case Logic(_, parts) => forall i | 0 <= i < |parts| ensures WellFormed(parts[i]) { EmptyWellFormed(parts[i]); }
    case Not(body) => EmptyWellFormed(body);
  }

  lemma AllValue(row: Row, parts: seq<Cond>)
    ensures Value(row, All(parts)) == Fold(Conjunction, Values(row, parts))
  {
    var os := Values(row, parts);
    if AllSome(os) && parts != [] {
      FoldSome(Conjunction, os, CodeMeanings(row, parts));
    } else if parts != [] {
      FoldNone(Conjunction, os);
    }
  }

  lemma {:induction false} KeptAll(row: Row, parts: seq<Cond>)
    requires forall j :: 0 <= j < |parts| ==> WellFormed(parts[j])
    ensures |KeptValues(row, parts)| == |KeptMeanings(row, parts)|
    ensures forall j :: 0 <= j < |KeptValues(row, parts)| ==>
              KeptValues(row, parts)[j] == Some(KeptMeanings(row, parts)[j])
    ensures KeptValues(row, parts) == [] <==> forall j :: 0 <= j < |parts| ==> Empty(parts[j])
  {
    if parts != [] { KeptAll(row, parts[..|parts| - 1]); }
  }

  lemma {:induction false} KeptBad(row: Row, parts: seq<Cond>, j: nat)
    requires j < |parts| && !WellFormed(parts[j])
    ensures !AllSome(KeptValues(row, parts))
    decreases |parts|
  {
    var before, last := parts[..|parts| - 1], parts[|parts| - 1];
    if j < |parts| - 1 {
      KeptBad(row, before, j);
      var w :| 0 <= w < |KeptValues(row, before)| && KeptValues(row, before)[w].None?;
      assert KeptValues(row, parts)[w].None?;
    } else {
      if Empty(last) { EmptyWellFormed(last); }
      assert KeptValues(row, parts)[|KeptValues(row, before)|] == None;
    }
  }

  lemma LogicValue(row: Row, either: bool, parts: seq<Cond>)
    ensures Value(row, Logic(either, parts))
            == Fold(if either then Disjunction else Conjunction, KeptValues(row, parts))
  {
    var l := if either then Disjunction else Conjunction;
    if j: nat :| j < |parts| && !WellFormed(parts[j]) {
      KeptBad(row, parts, j);
      FoldNone(l, KeptValues(row, parts));
    } else {
      KeptAll(row, parts);
      if KeptValues(row, parts) != [] { FoldSome(l, KeptValues(row, parts), KeptMeanings(row, parts)); }
    }
  }

  lemma TestValue(row: Row, column: string, atoms: seq<Atom>)
    requires atoms != []
    ensures Value(row, Test(column, atoms)) == Fold(Conjunction, Outcomes(row, column, atoms))
  {
    var os := Outcomes(row, column, atoms);
    if AllSome(os) {
      FoldSome(Conjunction, os, AtomMeanings(row, column, atoms));
    } else {
      FoldNone(Conjunction, os);
    }
  }

  lemma {:induction false} AtomClausesRead(row: Row, column: string, atoms: seq<Atom>, n: nat)
    ensures AllRead(row, AtomClauses(column, atoms, n), Outcomes(row, column, atoms))
  {
    hide AtomToks, Reads, Outcome;
    if atoms != [] {
      var k := |atoms| - 1;
      AtomClausesRead(row, column, atoms[..k], n);
      AtomReads(row, column, atoms[k], n + AtomsParams(atoms[..k]));
      assert Outcomes(row, column, atoms)[..k] == Outcomes(row, column, atoms[..k]);
      forall j | 0 <= j < |atoms|
        ensures Reads(row, AtomClauses(column, atoms, n)[j], Outcomes(row, column, atoms)[j])
      {
        if j < k { assert AtomClauses(column, atoms, n)[j] == AtomClauses(column, atoms[..k], n)[j]; }
      }
    }
  }

  lemma TestReads(row: Row, column: string, atoms: seq<Atom>, n: nat)
    ensures Reads(row, Toks(Test(column, atoms), n), Value(row, Test(column, atoms)))
  {
    var cs := AtomClauses(column, atoms, n);
    if atoms == [] {
      HollowReads(row);
    } else {
      AtomClausesRead(row, column, atoms, n);
      TestValue(row, column, atoms);
      if |cs| > 1 { ParenReads(row, Conjunction, cs, Outcomes(row, column, atoms)); }
    }
  }

  lemma {:induction false} ClauseAt(parts: seq<Cond>, n: nat, j: nat)
    requires j < |parts|
    ensures Clauses(parts, n)[j] == Toks(parts[j], n + PartsParams(parts[..j]))
    decreases |parts|
  {
    if j < |parts| - 1 {
      ClauseAt(parts[..|parts| - 1], n, j);
      assert parts[..|parts| - 1][..j] == parts[..j];
    }
  }

  lemma {:induction false} NonEmptyNone(cs: seq<seq<Tok>>)
    ensures NonEmpty(cs) == [] <==> forall j :: 0 <= j < |cs| ==> cs[j] == []
  {
    if cs != [] {
      var n := |cs| - 1;
      NonEmptyNone(cs[..n]);
      assert forall j :: 0 <= j < n ==> cs[..n][j] == cs[j];
    }
  }

  lemma {:induction false} NonEmptyEach(cs: seq<seq<Tok>>, j: nat)
    requires j < |NonEmpty(cs)|
    ensures NonEmpty(cs)[j] != []
  {
    if j < |NonEmpty(cs[..|cs| - 1])| { NonEmptyEach(cs[..|cs| - 1], j); }
  }

  /** Nothing is emitted exactly for an empty condition. */
  lemma {:induction false} EmptyToks(c: Cond, n: nat)
    ensures Toks(c, n) == [] <==> Empty(c)
  {
    match c
    case All(parts) =>
      if |parts| == 1 { EmptyToks(parts[0], n); ClauseAt(parts, n, 0); assert parts[..0] == []; }
    case Logic(either, parts) =>
      forall j | 0 <= j < |parts| ensures Clauses(parts, n)[j] == [] <==> Empty(parts[j]) {
        ClauseAt(parts, n, j);
        EmptyToks(parts[j], n + PartsParams(parts[..j]));
      }
      NonEmptyNone(Clauses(parts, n));
      if |NonEmpty(Clauses(parts, n))| == 1 { NonEmptyEach(Clauses(parts, n), 0); }
    case Not(body) => EmptyToks(body, n);
    case Test(column, atoms) =>
      if |atoms| == 1 {
        assert AtomClauses(column, atoms, n)[0] == AtomToks(column, atoms[0], n + AtomsParams(atoms[..0]));
      }
  }

  lemma AllReadSnoc(row: Row, cs: seq<seq<Tok>>, os: seq<Option<Truth>>, c: seq<Tok>, o: Option<Truth>)
    ensures AllRead(row, cs + [c], os + [o]) <==> AllRead(row, cs, os) && Reads(row, c, o)
  {
    if AllRead(row, cs + [c], os + [o]) {
      assert (cs + [c])[|cs|] == c && (os + [o])[|cs|] == o;
      forall j | 0 <= j < |cs| ensures Reads(row, cs[j], os[j]) {
        assert (cs + [c])[j] == cs[j] && (os + [o])[j] == os[j];
      }
    }
  }

  /** The outcomes of the clauses that NonEmpty keeps. */
  function Keep(cs: seq<seq<Tok>>, os: seq<Option<Truth>>): seq<Option<Truth>>
    requires |cs| == |os|
  {
    if cs == [] then []
    else
      var k := |cs| - 1;
      Keep(cs[..k], os[..k]) + (if cs[k] == [] then [] else [os[k]])
  }

  lemma {:induction false} KeepReads(row: Row, cs: seq<seq<Tok>>, os: seq<Option<Truth>>)
    requires AllRead(row, cs, os)
    ensures AllRead(row, NonEmpty(cs), Keep(cs, os))
  {
    if cs != [] {
      var k := |cs| - 1;
      KeepReads(row, cs[..k], os[..k]);
      if cs[k] != [] { AllReadSnoc(row, NonEmpty(cs[..k]), Keep(cs[..k], os[..k]), cs[k], os[k]); }
    }
  }

  lemma {:induction false} KeepValues(row: Row, parts: seq<Cond>, n: nat)
    ensures Keep(Clauses(parts, n), Values(row, parts)) == KeptValues(row, parts)
    decreases |parts|
  {
    hide Toks, Value, Empty;
    if parts != [] {
      var k := |parts| - 1;
      KeepValues(row, parts[..k], n);
      EmptyToks(parts[k], n + PartsParams(parts[..k]));
      assert Clauses(parts, n)[..k] == Clauses(parts[..k], n);
      assert Values(row, parts)[..k] == Values(row, parts[..k]);
    }
  }

  /** The text of every condition is read as Value says, wherever it stands. */
  lemma {:induction false} CondReads(row: Row, c: Cond, n: nat)
    ensures Reads(row, Toks(c, n), Value(row, c))
    decreases c, 1
  {
    match c
    case All(parts) =>
      PartsRead(row, parts, n);
      WrapReads(row, Conjunction, Clauses(parts, n), Values(row, parts));
      AllValue(row, parts);
    case Logic(either, parts) =>
      PartsRead(row, parts, n);
      KeepReads(row, Clauses(parts, n), Values(row, parts));
      KeepValues(row, parts, n);
      WrapReads(row, if either then Disjunction else Conjunction, NonEmpty(Clauses(parts, n)), KeptValues(row, parts));
      LogicValue(row, either, parts);
    case Not(body) =>
      CondReads(row, body, n);
      EmptyToks(body, n);
      if Empty(body) { EmptyReads(row); } else { NotReads(row, Toks(body, n), Value(row, body)); }
    case Test(column, atoms) => TestReads(row, column, atoms, n);
  }

  lemma {:induction false} PartsRead(row: Row, parts: seq<Cond>, n: nat)
    ensures AllRead(row, Clauses(parts, n), Values(row, parts))
    decreases parts, 0
  {
    hide Toks, Value, Reads;
    forall j | 0 <= j < |parts| ensures Reads(row, Clauses(parts, n)[j], Values(row, parts)[j]) {
      ClauseAt(parts, n, j);
      CondReads(row, parts[j], n + PartsParams(parts[..j]));
    }
  }
}

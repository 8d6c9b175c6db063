/** A lexer for the SQL conditions a driver receives, and its result on rebound text. */
module SqlLexing {
  import opened CharClass
  import opened Decimal
  import opened Flatten
  import opened SqlFilter
  import opened SqlRebind

  datatype Lexeme = LOpen | LClose | LComma | LWord(w: string) | LNum(n: string) | LOp(op: string)
                  | LIdent(name: string) | LPh(k: nat) | LBad

  function IndexOf(s: string, i: nat, c: char): (e: nat)
    requires i <= |s|
    ensures i <= e <= |s|
    decreases |s| - i
  {
    if i < |s| && s[i] != c then IndexOf(s, i + 1, c) else i
  }

  function OpenQuote(d: Dialect): char { if d == SqlServer then '[' else '\"' }

  function CloseQuote(d: Dialect): char { if d == SqlServer then ']' else '\"' }

  /** The lexemes of s from position i on; k placeholders '?' have been met before. */
  function Lex(s: string, i: nat, d: Dialect, k: nat): seq<Lexeme>
    requires i <= |s|
    decreases |s| - i
  {
    if i == |s| then []
    else if s[i] == ' ' then Lex(s, i + 1, d, k)
    else if s[i] == '(' then [LOpen] + Lex(s, i + 1, d, k)
    else if s[i] == ')' then [LClose] + Lex(s, i + 1, d, k)
    else if s[i] == ',' then [LComma] + Lex(s, i + 1, d, k)
    else if IsLetter(s[i]) then [LWord(s[i..RunEnd(s, i, Letters)])] + Lex(s, RunEnd(s, i, Letters), d, k)
    else if IsDigit(s[i]) then [LNum(s[i..RunEnd(s, i, Digits)])] + Lex(s, RunEnd(s, i, Digits), d, k)
    else if IsOpChar(s[i]) then [LOp(s[i..RunEnd(s, i, OpChars)])] + Lex(s, RunEnd(s, i, OpChars), d, k)
    else if s[i] == OpenQuote(d) then
      var e := IndexOf(s, i + 1, CloseQuote(d));
      if e == |s| then [LBad] else [LIdent(s[i + 1..e])] + Lex(s, e + 1, d, k)
    else if s[i] == '?' && d == SqlServer then [LPh(k)] + Lex(s, i + 1, d, k + 1)
    else if s[i] == '$' && d == PostgreSql then
      var e := RunEnd(s, i + 1, Digits);
      var n := Val(s[i + 1..e]);
      if n == 0 then [LBad] else [LPh(n - 1)] + Lex(s, e, d, k + 1)
    else [LBad]
  }

  // ---- single lexemes ------------------------------------------------------

  lemma {:induction false} IndexOfIs(s: string, i: nat, e: nat, c: char)
    requires i <= e < |s| && (forall j :: i <= j < e ==> s[j] != c) && s[e] == c
    ensures IndexOf(s, i, c) == e
    decreases e - i
  {
    if i < e { IndexOfIs(s, i + 1, e, c); }
  }

  lemma LexWordAt(s: string, i: nat, w: string, d: Dialect, k: nat)
    requires At(s, i, w) && w != "" && (forall j :: 0 <= j < |w| ==> IsLetter(w[j])) && Ends(s, i + |w|, Letters)
    ensures Lex(s, i, d, k) == [LWord(w)] + Lex(s, i + |w|, d, k)
  {
    CharsAt(s, i, w);
    assert s[i] == s[i + 0] == w[0];
    forall j | i <= j < i + |w| ensures InClass(s[j], Letters) { assert s[j] == w[j - i]; }
    RunEndIs(s, i, i + |w|, Letters);
  }

  lemma LexNumAt(s: string, i: nat, w: string, d: Dialect, k: nat)
    requires At(s, i, w) && w != "" && (forall j :: 0 <= j < |w| ==> IsDigit(w[j])) && Ends(s, i + |w|, Digits)
    ensures Lex(s, i, d, k) == [LNum(w)] + Lex(s, i + |w|, d, k)
  {
    CharsAt(s, i, w);
    assert s[i] == s[i + 0] == w[0];
    forall j | i <= j < i + |w| ensures InClass(s[j], Digits) { assert s[j] == w[j - i]; }
    RunEndIs(s, i, i + |w|, Digits);
  }

  lemma LexOpAt(s: string, i: nat, w: string, d: Dialect, k: nat)
    requires At(s, i, w) && w != "" && (forall j :: 0 <= j < |w| ==> IsOpChar(w[j])) && Ends(s, i + |w|, OpChars)
    ensures Lex(s, i, d, k) == [LOp(w)] + Lex(s, i + |w|, d, k)
  {
    CharsAt(s, i, w);
    assert s[i] == s[i + 0] == w[0];
    forall j | i <= j < i + |w| ensures InClass(s[j], OpChars) { assert s[j] == w[j - i]; }
    RunEndIs(s, i, i + |w|, OpChars);
  }

  lemma LexSpaceAt(s: string, i: nat, d: Dialect, k: nat)
    requires i < |s| && s[i] == ' '
    ensures Lex(s, i, d, k) == Lex(s, i + 1, d, k)
  {
  }

  lemma LexSymbolAt(s: string, i: nat, d: Dialect, k: nat)
    requires i < |s| && (s[i] == '(' || s[i] == ')' || s[i] == ',')
    ensures Lex(s, i, d, k) == [if s[i] == '(' then LOpen else if s[i] == ')' then LClose else LComma]
            + Lex(s, i + 1, d, k)
  {
  }

  lemma QuoteParts(s: string, i: nat, column: string, d: Dialect)
    requires At(s, i, Quote(d, column))
    ensures var e := i + 1 + |column|;
            e < |s| && s[i] == OpenQuote(d) && s[i + 1..e] == column && s[e] == CloseQuote(d)
  {
    var open, close := [OpenQuote(d)], [CloseQuote(d)];
    assert Quote(d, column) == (open + column) + close;
    AtSplit(s, i, open + column, close);
    AtSplit(s, i, open, column);
    CharsAt(s, i, open);
    CharsAt(s, i + 1 + |column|, close);
    assert s[i + 0] == open[0] && s[i + 1 + |column| + 0] == close[0];
  }

  lemma LexIdentAt(s: string, i: nat, column: string, d: Dialect, k: nat)
    requires At(s, i, Quote(d, column)) && SafeColumn(column, d)
    ensures Lex(s, i, d, k) == [LIdent(column)] + Lex(s, i + 2 + |column|, d, k)
  {
    QuoteParts(s, i, column, d);
    var e := i + 1 + |column|;
    forall j | i + 1 <= j < e ensures s[j] != CloseQuote(d) {
      assert s[j] == s[i + 1..e][j - i - 1];
      assert column[j - i - 1] in column;
    }
    IndexOfIs(s, i + 1, e, CloseQuote(d));
  }

  lemma LexQuestionAt(s: string, i: nat, pos: nat)
    requires i < |s| && s[i] == '?'
    ensures Lex(s, i, SqlServer, pos) == [LPh(pos)] + Lex(s, i + 1, SqlServer, pos + 1)
  {
  }

  lemma LexDollarAt(s: string, i: nat, pos: nat, k: nat, e: nat)
    requires i + 1 <= e <= |s| && s[i] == '$' && s[i + 1..e] == Dec(pos + 1) && Ends(s, e, Digits)
    ensures Lex(s, i, PostgreSql, k) == [LPh(pos)] + Lex(s, e, PostgreSql, k + 1)
  {
    forall j | i + 1 <= j < e ensures InClass(s[j], Digits) {
      assert s[j] == s[i + 1..e][j - i - 1];
    }
    RunEndIs(s, i + 1, e, Digits);
    ValDec(pos + 1);
  }

  lemma LexPlaceholderAt(s: string, i: nat, d: Dialect, pos: nat)
    requires At(s, i, Placeholder(d, pos)) && Ends(s, i + |Placeholder(d, pos)|, Digits)
    ensures Lex(s, i, d, pos) == [LPh(pos)] + Lex(s, i + |Placeholder(d, pos)|, d, pos + 1)
  {
    hide Lex;
    var p := Placeholder(d, pos);
    CharsAt(s, i, p);
    assert s[i + 0] == p[0];
    if d == PostgreSql {
      AtSplit(s, i, "$", Dec(pos + 1));
      LexDollarAt(s, i, pos, pos, i + |p|);
    } else {
      LexQuestionAt(s, i, pos);
    }
  }

  // ---- tokens --------------------------------------------------------------

  function OpText(op: CompareOp): string {
    match op
    case Eq => "="
    case Ne => "<>"
    case Lt => "<"
    case Lte => "<="
    case Gt => ">"
    case Gte => ">="
    case Like => "LIKE"
  }

  function ItemLexemes(mark: bool, pos: nat): seq<Lexeme> {
    (if mark then [LComma] else []) + [LPh(pos)]
  }

  function PhList(pos: nat, n: nat): seq<Lexeme> { FlatAt(Marks(n), ItemLexemes, One, pos) }

  function ValueLexemes(v: SqlValue, pos: nat): seq<Lexeme> {
    if v.List? then [LOpen] + PhList(pos, |v.items|) + [LClose] else [LPh(pos)]
  }

  /** The lexemes of a token once pos arguments are bound. */
  function LexTok(t: Tok, pos: nat): seq<Lexeme> {
    match t
    case TOpen => [LOpen]
    case TClose => [LClose]
    case TAnd => [LWord("AND")]
    case TOr => [LWord("OR")]
    case TNot => [LWord("NOT")]
    case TColumn(c) => [LIdent(c)]
    case TCompare(op) => if op == Like then [LWord("LIKE")] else [LOp(OpText(op))]
    case TIn => [LWord("IN")]
    case TNotIn => [LWord("NOT"), LWord("IN")]
    case TBetween => [LWord("BETWEEN")]
    case TTrue => [LNum("1"), LOp("="), LNum("1")]
    case TFalse => [LNum("1"), LOp("="), LNum("0")]
    case Param(_, v) => ValueLexemes(v, pos)
  }

  ghost predicate Wordy(w: string) { w != "" && forall j :: 0 <= j < |w| ==> IsLetter(w[j]) }

  ghost predicate Operator(w: string) { w != "" && forall j :: 0 <= j < |w| ==> IsOpChar(w[j]) }

  lemma SpacedParts(s: string, i: nat, w: string)
    requires At(s, i, " " + w + " ")
    ensures At(s, i + 1, w) && i + 1 + |w| < |s| && s[i] == ' ' && s[i + 1 + |w|] == ' '
  {
    AtSplit(s, i, " " + w, " ");
    AtSplit(s, i, " ", w);
    CharsAt(s, i, " ");
    CharsAt(s, i + 1 + |w|, " ");
    assert s[i + 0] == ' ' && s[i + 1 + |w| + 0] == ' ';
  }

  lemma SpacedWord(s: string, i: nat, w: string, d: Dialect, k: nat)
    requires At(s, i, " " + w + " ") && Wordy(w)
    ensures Lex(s, i, d, k) == [LWord(w)] + Lex(s, i + 2 + |w|, d, k)
  {
    hide Lex;
    SpacedParts(s, i, w);
    LexSpaceAt(s, i, d, k);
    LexWordAt(s, i + 1, w, d, k);
    LexSpaceAt(s, i + 1 + |w|, d, k);
  }

  lemma SpacedOp(s: string, i: nat, w: string, d: Dialect, k: nat)
    requires At(s, i, " " + w + " ") && Operator(w)
    ensures Lex(s, i, d, k) == [LOp(w)] + Lex(s, i + 2 + |w|, d, k)
  {
    hide Lex;
    SpacedParts(s, i, w);
    LexSpaceAt(s, i, d, k);
    LexOpAt(s, i + 1, w, d, k);
    LexSpaceAt(s, i + 1 + |w|, d, k);
  }

  lemma OpSpelled(op: CompareOp)
    ensures SpellOp(op) == " " + OpText(op) + " " && if op == Like then Wordy(OpText(op)) else Operator(OpText(op))
  {
  }

  lemma LexCompare(s: string, i: nat, op: CompareOp, d: Dialect, k: nat)
    requires At(s, i, SpellOp(op))
    ensures Lex(s, i, d, k) == LexTok(TCompare(op), k) + Lex(s, i + |SpellOp(op)|, d, k)
  {
    hide Lex;
    OpSpelled(op);
    if op == Like { SpacedWord(s, i, OpText(op), d, k); } else { SpacedOp(s, i, OpText(op), d, k); }
  }

  lemma LexNot(s: string, i: nat, d: Dialect, k: nat)
    requires At(s, i, "NOT ")
    ensures Lex(s, i, d, k) == [LWord("NOT")] + Lex(s, i + 4, d, k)
  {
    hide Lex;
    assert "NOT " == "NOT" + " ";
    AtSplit(s, i, "NOT", " ");
    CharsAt(s, i + 3, " ");
    assert s[i + 3 + 0] == ' ';
    LexWordAt(s, i, "NOT", d, k);
    LexSpaceAt(s, i + 3, d, k);
  }

  lemma LexIn(s: string, i: nat, d: Dialect, k: nat)
    requires At(s, i, "IN ")
    ensures Lex(s, i, d, k) == [LWord("IN")] + Lex(s, i + 3, d, k)
  {
    hide Lex;
    assert "IN " == "IN" + " ";
    AtSplit(s, i, "IN", " ");
    CharsAt(s, i + 2, " ");
    assert s[i + 2 + 0] == ' ';
    LexWordAt(s, i, "IN", d, k);
    LexSpaceAt(s, i + 2, d, k);
  }

  lemma NotInParts(s: string, i: nat)
    requires At(s, i, " NOT IN ")
    ensures i < |s| && s[i] == ' ' && At(s, i + 1, "NOT ") && At(s, i + 5, "IN ")
  {
    assert " NOT IN " == " " + ("NOT " + "IN ");
    AtSplit(s, i, " ", "NOT " + "IN ");
    AtSplit(s, i + 1, "NOT ", "IN ");
    CharsAt(s, i, " ");
    assert s[i + 0] == ' ';
  }

  lemma LexNotIn(s: string, i: nat, d: Dialect, k: nat)
    requires At(s, i, " NOT IN ")
    ensures Lex(s, i, d, k) == [LWord("NOT"), LWord("IN")] + Lex(s, i + 8, d, k)
  {
    hide Lex;
    NotInParts(s, i);
    LexSpaceAt(s, i, d, k);
    LexNot(s, i + 1, d, k);
    LexIn(s, i + 5, d, k);
    TwoRegroup(LWord("NOT"), LWord("IN"), Lex(s, i + 8, d, k));
  }

  lemma TwoRegroup(a: Lexeme, b: Lexeme, c: seq<Lexeme>)
    ensures [a] + ([b] + c) == [a, b] + c
  {
  }

  lemma LexEquals(s: string, i: nat, n: string, d: Dialect, k: nat)
    requires At(s, i, "=" + n) && |n| == 1 && IsDigit(n[0]) && Ends(s, i + 2, Digits)
    ensures Lex(s, i, d, k) == [LOp("="), LNum(n)] + Lex(s, i + 2, d, k)
  {
    hide Lex;
    AtSplit(s, i, "=", n);
    CharsAt(s, i + 1, n);
    assert s[i + 1 + 0] == n[0];
    LexOpAt(s, i, "=", d, k);
    LexNumAt(s, i + 1, n, d, k);
    TwoRegroup(LOp("="), LNum(n), Lex(s, i + 2, d, k));
  }

  lemma LexConstant(s: string, i: nat, n: string, d: Dialect, k: nat)
    requires At(s, i, "1=" + n) && |n| == 1 && IsDigit(n[0]) && Ends(s, i + 3, Digits)
    ensures Lex(s, i, d, k) == [LNum("1"), LOp("="), LNum(n)] + Lex(s, i + 3, d, k)
  {
    hide Lex;
    assert "1=" + n == "1" + ("=" + n);
    AtSplit(s, i, "1", "=" + n);
    AtSplit(s, i + 1, "=", n);
    CharsAt(s, i + 1, "=");
    assert s[i + 1 + 0] == '=';
    LexNumAt(s, i, "1", d, k);
    LexEquals(s, i + 1, n, d, k);
    Regroup([LNum("1")], [LOp("="), LNum(n)], Lex(s, i + 3, d, k));
  }

  lemma LexCommaAt(s: string, i: nat, d: Dialect, k: nat)
    requires At(s, i, ", ")
    ensures Lex(s, i, d, k) == [LComma] + Lex(s, i + 2, d, k)
  {
    hide Lex;
    CharsAt(s, i, ", ");
    assert s[i + 0] == ',' && s[i + 1] == ' ';
    LexSymbolAt(s, i, d, k);
    LexSpaceAt(s, i + 1, d, k);
  }

  /** The lexer as a function of position and placeholders met. */
  function Lexer(s: string, d: Dialect): (nat, nat) -> seq<Lexeme> {
    (i: nat, k: nat) => if i <= |s| then Lex(s, i, d, k) else []
  }

  lemma ItemLead(s: string, i: nat, mark: bool, ph: string)
    requires At(s, i, (if mark then ", " else "") + ph)
    ensures At(s, if mark then i + 2 else i, ph) && (mark ==> At(s, i, ", "))
  {
    if mark { AtSplit(s, i, ", ", ph); } else { assert "" + ph == ph; }
  }

  lemma LexItem(s: string, i: nat, d: Dialect, mark: bool, pos: nat)
    requires At(s, i, ItemText(d)(mark, pos)) && Ends(s, i + |ItemText(d)(mark, pos)|, Digits)
    ensures Lex(s, i, d, pos) == ItemLexemes(mark, pos) + Lex(s, i + |ItemText(d)(mark, pos)|, d, pos + 1)
  {
    hide Lex;
    ItemLead(s, i, mark, Placeholder(d, pos));
    if mark {
      LexCommaAt(s, i, d, pos);
      LexPlaceholderAt(s, i + 2, d, pos);
      TwoRegroup(LComma, LPh(pos), Lex(s, i + |ItemText(d)(mark, pos)|, d, pos + 1));
    } else {
      LexPlaceholderAt(s, i, d, pos);
    }
  }

  lemma LexerItem(s: string, i: nat, d: Dialect, mark: bool, pos: nat)
    requires At(s, i, ItemText(d)(mark, pos)) && Ends(s, i + |ItemText(d)(mark, pos)|, Digits)
    ensures Lexer(s, d)(i, pos) == ItemLexemes(mark, pos) + Lexer(s, d)(i + |ItemText(d)(mark, pos)|, pos + One(mark))
  {
    hide Lex;
    LexItem(s, i, d, mark, pos);
  }

  lemma CommaFollows(s: string, i: nat, d: Dialect, pos: nat)
    requires At(s, i, ItemText(d)(true, pos))
    ensures Ends(s, i, Digits)
  {
    AtSplit(s, i, ", ", Placeholder(d, pos));
    CharsAt(s, i, ", ");
    assert s[i + 0] == ',';
  }

  lemma {:induction false} OnesWidth(marks: seq<bool>)
    ensures Width(marks, One) == |marks|
  {
    if marks != [] { OnesWidth(marks[1..]); }
  }

  /** Where a run of digits may end. */
  ghost function DigitBreak(s: string): nat -> bool { (i: nat) => Ends(s, i, Digits) }

  function Always(mark: bool): bool { true }

  lemma ItemsRead(s: string, d: Dialect, marks: seq<bool>, pos: nat)
    requires forall j :: 0 < j < |marks| ==> marks[j]
    ensures BreaksBetween(s, marks, ItemText(d), One, Always, DigitBreak(s), pos)
    ensures ScansEach(s, marks, ItemText(d), ItemLexemes, One, Lexer(s, d), Always, DigitBreak(s))
  {
    hide Lexer, Lex, ItemText, ItemLexemes;
    forall k: nat, c: nat | 0 < k < |marks| && At(s, c, ItemText(d)(marks[k], Offset(marks, One, pos, k)))
      ensures DigitBreak(s)(c) {
      CommaFollows(s, c, d, Offset(marks, One, pos, k));
    }
    forall k: nat, c: nat, p: nat | k < |marks|
      ensures ScannedAt(s, marks[k], ItemText(d), ItemLexemes, One, Lexer(s, d), Always, DigitBreak(s), c, p) {
      if At(s, c, ItemText(d)(marks[k], p)) && Ends(s, c + |ItemText(d)(marks[k], p)|, Digits) {
        LexerItem(s, c, d, marks[k], p);
      }
    }
  }

  lemma LexList(s: string, i: nat, d: Dialect, pos: nat, n: nat)
    requires At(s, i, PlaceholderList(d, pos, n)) && Ends(s, i + |PlaceholderList(d, pos, n)|, Digits)
    ensures Lexer(s, d)(i, pos) == PhList(pos, n) + Lexer(s, d)(i + |PlaceholderList(d, pos, n)|, pos + n)
  {
    hide Lexer, ItemText, Lex;
    ItemsRead(s, d, Marks(n), pos);
    ScanText(s, Marks(n), ItemText(d), ItemLexemes, One, Lexer(s, d), Always, DigitBreak(s), i, pos);
    OnesWidth(Marks(n));
  }

  lemma ParenParts(s: string, i: nat, list: string)
    requires At(s, i, "(" + list + ")")
    ensures var j := i + 1 + |list|; j < |s| && s[i] == '(' && At(s, i + 1, list) && s[j] == ')'
  {
    AtSplit(s, i, "(" + list, ")");
    AtSplit(s, i, "(", list);
    CharsAt(s, i, "(");
    CharsAt(s, i + 1 + |list|, ")");
    assert s[i + 0] == '(' && s[i + 1 + |list| + 0] == ')';
  }

  lemma LexParenList(s: string, i: nat, d: Dialect, pos: nat, n: nat, list: string)
    requires list == PlaceholderList(d, pos, n) && At(s, i, "(" + list + ")")
    ensures Lex(s, i, d, pos) == ([LOpen] + PhList(pos, n) + [LClose]) + Lex(s, i + 2 + |list|, d, pos + n)
  {
    hide Lex, PhList, PlaceholderList;
    ParenParts(s, i, list);
    var j := i + 1 + |list|;
    LexSymbolAt(s, i, d, pos);
    LexList(s, i + 1, d, pos, n);
    assert Lexer(s, d)(i + 1, pos) == Lex(s, i + 1, d, pos) && Lexer(s, d)(j, pos + n) == Lex(s, j, d, pos + n);
    LexSymbolAt(s, j, d, pos + n);
    ParenRegroup(PhList(pos, n), Lex(s, j + 1, d, pos + n));
  }

  lemma LexValue(s: string, i: nat, v: SqlValue, d: Dialect, pos: nat)
    requires At(s, i, BoundValue(v, d, pos)) && Ends(s, i + |BoundValue(v, d, pos)|, Digits)
    ensures Lex(s, i, d, pos) == ValueLexemes(v, pos) + Lex(s, i + |BoundValue(v, d, pos)|, d, pos + |ValueArgs(v)|)
  {
    hide Lex, Placeholder, PlaceholderList, PhList, At;
    if v.List? {
      LexParenList(s, i, d, pos, |v.items|, PlaceholderList(d, pos, |v.items|));
    } else {
      LexPlaceholderAt(s, i, d, pos);
    }
  }

  lemma ParenRegroup(a: seq<Lexeme>, c: seq<Lexeme>)
    ensures [LOpen] + (a + ([LClose] + c)) == ([LOpen] + a + [LClose]) + c
  {
  }

  // ---- the whole text ------------------------------------------------------

  function TokWidth(t: Tok): nat { |Args(t)| }

  function BoundTok(d: Dialect): (Tok, nat) -> string {
    (t: Tok, pos: nat) => if t.Param? then BoundValue(t.value, d, pos) else Spell(t, d)
  }

  predicate Keyword(t: Tok) { t == TAnd || t == TOr || t == TIn || t == TBetween }

  function WordOf(t: Tok): string
    requires Keyword(t)
  {
    match t case TAnd => "AND" case TOr => "OR" case TIn => "IN" case TBetween => "BETWEEN"
  }

  lemma KeywordSpelled(t: Tok, d: Dialect, pos: nat)
    requires Keyword(t)
    ensures Spell(t, d) == " " + WordOf(t) + " " && LexTok(t, pos) == [LWord(WordOf(t))] && Wordy(WordOf(t))
  {
  }

  lemma KeywordStep(s: string, i: nat, t: Tok, d: Dialect, pos: nat)
    requires Keyword(t) && At(s, i, Spell(t, d))
    ensures Lex(s, i, d, pos) == LexTok(t, pos) + Lex(s, i + |Spell(t, d)|, d, pos)
  {
    hide Lex;
    KeywordSpelled(t, d, pos);
    SpacedWord(s, i, WordOf(t), d, pos);
  }

  lemma SymbolStep(s: string, i: nat, t: Tok, d: Dialect, pos: nat)
    requires (t == TOpen || t == TClose) && At(s, i, Spell(t, d))
    ensures Lex(s, i, d, pos) == LexTok(t, pos) + Lex(s, i + 1, d, pos)
  {
    hide Lex;
    CharsAt(s, i, Spell(t, d));
    assert s[i + 0] == Spell(t, d)[0];
    LexSymbolAt(s, i, d, pos);
  }

  lemma ConstantStep(s: string, i: nat, t: Tok, d: Dialect, pos: nat)
    requires (t == TTrue || t == TFalse) && At(s, i, Spell(t, d)) && Ends(s, i + 3, Digits)
    ensures Lex(s, i, d, pos) == LexTok(t, pos) + Lex(s, i + 3, d, pos)
  {
    hide Lex;
    var n := if t == TTrue then "1" else "0";
    assert Spell(t, d) == "1=" + n;
    LexConstant(s, i, n, d, pos);
  }

  lemma FixedStep(s: string, i: nat, t: Tok, d: Dialect, pos: nat)
    requires At(s, i, Spell(t, d)) && SafeTok(t, d) && !t.Param? && !Keyword(t)
    requires NeedsBreak(t) ==> Ends(s, i + |Spell(t, d)|, Digits)
    ensures Lex(s, i, d, pos) == LexTok(t, pos) + Lex(s, i + |Spell(t, d)|, d, pos)
  {
    hide Lex;
    match t
    case TOpen => SymbolStep(s, i, t, d, pos);
    case TClose => SymbolStep(s, i, t, d, pos);
    case TNot => LexNot(s, i, d, pos);
    case TColumn(c) => LexIdentAt(s, i, c, d, pos);
    case TCompare(op) => LexCompare(s, i, op, d, pos);
    case TNotIn => LexNotIn(s, i, d, pos);
    case TTrue => ConstantStep(s, i, t, d, pos);
    case TFalse => ConstantStep(s, i, t, d, pos);
  }

  lemma TokStep(s: string, i: nat, t: Tok, d: Dialect, pos: nat)
    requires At(s, i, BoundTok(d)(t, pos)) && SafeTok(t, d)
    requires NeedsBreak(t) ==> Ends(s, i + |BoundTok(d)(t, pos)|, Digits)
    ensures Lex(s, i, d, pos) == LexTok(t, pos) + Lex(s, i + |BoundTok(d)(t, pos)|, d, pos + TokWidth(t))
  {
    hide Lex;
    if t.Param? {
      LexValue(s, i, t.value, d, pos);
    } else if Keyword(t) {
      KeywordStep(s, i, t, d, pos);
    } else {
      FixedStep(s, i, t, d, pos);
    }
  }

  lemma LexerTok(s: string, i: nat, t: Tok, d: Dialect, pos: nat)
    requires At(s, i, BoundTok(d)(t, pos)) && SafeTok(t, d)
    requires NeedsBreak(t) ==> Ends(s, i + |BoundTok(d)(t, pos)|, Digits)
    ensures Lexer(s, d)(i, pos) == LexTok(t, pos) + Lexer(s, d)(i + |BoundTok(d)(t, pos)|, pos + TokWidth(t))
  {
    hide Lex;
    TokStep(s, i, t, d, pos);
  }

  lemma CloserEnds(s: string, i: nat, t: Tok, d: Dialect, pos: nat)
    requires Closes(t) && At(s, i, BoundTok(d)(t, pos))
    ensures Ends(s, i, Digits)
  {
    CharsAt(s, i, Spell(t, d));
    assert s[i + 0] == Spell(t, d)[0];
  }

  ghost predicate Carries(s: string, ts: seq<Tok>, d: Dialect) {
    Separated(ts) && SafeToks(ts, d) && s == FlatAt(ts, BoundTok(d), TokWidth, 0)
  }

  lemma ToksRead(s: string, ts: seq<Tok>, d: Dialect)
    requires Separated(ts) && SafeToks(ts, d)
    ensures BreaksBetween(s, ts, BoundTok(d), TokWidth, NeedsBreak, DigitBreak(s), 0)
    ensures ScansEach(s, ts, BoundTok(d), LexTok, TokWidth, Lexer(s, d), NeedsBreak, DigitBreak(s))
  {
    hide Lexer, Lex, BoundTok, LexTok;
    forall k: nat, c: nat | 0 < k < |ts| && NeedsBreak(ts[k - 1])
                            && At(s, c, BoundTok(d)(ts[k], Offset(ts, TokWidth, 0, k)))
      ensures DigitBreak(s)(c)
    {
      CloserEnds(s, c, ts[k], d, Offset(ts, TokWidth, 0, k));
    }
    forall k: nat, c: nat, p: nat | k < |ts|
      ensures ScannedAt(s, ts[k], BoundTok(d), LexTok, TokWidth, Lexer(s, d), NeedsBreak, DigitBreak(s), c, p) {
      if At(s, c, BoundTok(d)(ts[k], p)) && (NeedsBreak(ts[k]) ==> Ends(s, c + |BoundTok(d)(ts[k], p)|, Digits)) {
        LexerTok(s, c, ts[k], d, p);
      }
    }
  }

  /** The lexemes of a rebound text, in token order, placeholders numbered from 0. */
  function Lexemes(ts: seq<Tok>, pos: nat): seq<Lexeme> { FlatAt(ts, LexTok, TokWidth, pos) }

  lemma LexBound(s: string, ts: seq<Tok>, d: Dialect)
    requires Carries(s, ts, d)
    ensures Lex(s, 0, d, 0) == Lexemes(ts, 0)
  {
    assert s[0..|s|] == s;
    ToksRead(s, ts, d);
    ScanText(s, ts, BoundTok(d), LexTok, TokWidth, Lexer(s, d), NeedsBreak, DigitBreak(s), 0, 0);
    assert Lex(s, |s|, d, Width(ts, TokWidth)) == [];
  }

  lemma BoundPieceOf(t: Tok, d: Dialect, pos: nat)
    ensures BoundPiece(d)(PieceOf(t, d), pos) == BoundTok(d)(t, pos) && PieceWidth(PieceOf(t, d)) == TokWidth(t)
  {
  }

  lemma {:induction false} BoundPieces(ts: seq<Tok>, d: Dialect, pos: nat)
    ensures BoundText(Pieces(ts, d), d, pos) == FlatAt(ts, BoundTok(d), TokWidth, pos)
    decreases |ts|
  {
    hide Spell, BoundValue;
    if ts != [] {
      assert Pieces(ts, d)[1..] == Pieces(ts[1..], d);
      BoundPieceOf(ts[0], d, pos);
      BoundPieces(ts[1..], d, pos + TokWidth(ts[0]));
    }
  }

  /** A driver that is handed the rebound text reads the emitted tokens, the n-th placeholder
      standing for the n-th argument. */
  lemma LexRebound(ts: seq<Tok>, byName: map<string, SqlValue>, d: Dialect)
    requires Separated(ts) && SafeToks(ts, d) && AllBound(ts, byName)
    ensures var named := Split(SpellAll(ts, d), 0, byName);
            Lex(BoundText(named, d, 0), 0, d, 0) == Lexemes(ts, 0) && PiecesArgs(named) == ArgsAll(ts)
  {
    EmittedPieces(ts, byName, d);
    RebindPieces(SpellAll(ts, d), Pieces(ts, d), byName, d);
    EmittedArgs(ts, d);
    BoundPieces(ts, d, 0);
    LexBound(BoundText(Pieces(ts, d), d, 0), ts, d);
  }
}

/** The tokenizer of condition texts, and texts that spell a token list. */
module ConditionTokens {
  import opened CharClass
  import opened Common
  import opened Decimal
  import opened Flatten
  import opened ConditionParsing

  predicate IsSpace(c: char) { c == ' ' || '\t' <= c <= '\r' || c == '\U{85}' || c == '\U{A0}' }

  /** One turn of the tokenizer: the tokens it yields, and where it goes on. */
  datatype Turn = Turn(tokens: seq<Token>, next: nat) | Unexpected

  predicate Pair(s: string, i: nat, a: char, b: char) { i + 1 < |s| && s[i] == a && s[i + 1] == b }

  function Keyword(w: string): Option<Operand> {
    if w == "true" then Some(Truth(true))
    else if w == "false" then Some(Truth(false))
    else if w == "null" then Some(Nil)
    else None
  }

  function OperatorTurn(s: string, i: nat): Turn
    requires i < |s|
  {
    if Pair(s, i, '>', '=') then Turn([Op(Gte)], i + 2)
    else if Pair(s, i, '<', '=') then Turn([Op(Lte)], i + 2)
    else if Pair(s, i, '=', '=') then Turn([Op(Eq)], i + 2)
    else if Pair(s, i, '!', '=') then Turn([Op(Neq)], i + 2)
    else if Pair(s, i, '&', '&') then Turn([AndTok], i + 2)
    else if Pair(s, i, '|', '|') then Turn([OrTok], i + 2)
    else if s[i] == '>' then Turn([Op(Gt)], i + 1)
    else if s[i] == '<' then Turn([Op(Lt)], i + 1)
    else if s[i] == '!' then Turn([NotTok], i + 1)
    else if s[i] == '(' then Turn([Open], i + 1)
    else if s[i] == ')' then Turn([Close], i + 1)
    else Unexpected
  }

  predicate StartsNumber(s: string, i: nat) {
    i < |s| && (IsDigit(s[i]) || (s[i] == '-' && i + 1 < |s| && IsDigit(s[i + 1])))
  }

  function OperandTurn(s: string, i: nat): Turn
    requires i < |s|
  {
    if Pair(s, i, '$', '.') then Turn([Value(Path(s[i..RunEnd(s, i, PathChars)]))], RunEnd(s, i, PathChars))
    else if s[i] == '\"' then
      var e := RunEnd(s, i + 1, Unquoted);
      Turn([Value(Text(s[i + 1..e]))], if e < |s| then e + 1 else e)
    else if StartsNumber(s, i) then
      var e := RunEnd(s, if s[i] == '-' then i + 1 else i, NumberChars);
      Turn([Value(Number(s[i..e]))], e)
    else if IsLetter(s[i]) then
      var e := RunEnd(s, i, WordChars);
      if Keyword(s[i..e]).None? then Unexpected else Turn([Value(Keyword(s[i..e]).value)], e)
    else Unexpected
  }

  function TurnAt(s: string, i: nat): (t: Turn)
    requires i < |s|
    ensures t.Turn? ==> i < t.next <= |s|
  {
    if IsSpace(s[i]) then Turn([], i + 1)
    else if OperandTurn(s, i).Turn? then OperandTurn(s, i)
    else OperatorTurn(s, i)
  }

  /** The tokens of s from position i on, up to the end or the first error. */
  function LexAt(s: string, i: nat): seq<Token>
    requires i <= |s|
    decreases |s| - i
  {
    if i == |s| then [Eof]
    else if TurnAt(s, i).Unexpected? then [Bad]
    else TurnAt(s, i).tokens + LexAt(s, TurnAt(s, i).next)
  }

  /** What the tokenizer returns is a list the parser can rely on. */
  lemma {:induction false} LexTerminated(s: string, i: nat)
    requires i <= |s|
    ensures LexAt(s, i) != []
    ensures forall k :: 0 <= k < |LexAt(s, i)| - 1 ==> LexAt(s, i)[k] != Eof && LexAt(s, i)[k] != Bad
    ensures var last := LexAt(s, i)[|LexAt(s, i)| - 1]; last == Eof || last == Bad
    decreases |s| - i
  {
    hide TurnAt;
    if i < |s| && TurnAt(s, i).Turn? {
      TurnTokens(s, i);
      LexTerminated(s, TurnAt(s, i).next);
    }
  }

  lemma TurnTokens(s: string, i: nat)
    requires i < |s| && TurnAt(s, i).Turn?
    ensures Eof !in TurnAt(s, i).tokens && Bad !in TurnAt(s, i).tokens
  {
  }

  // ---- spelling ------------------------------------------------------------

  ghost predicate Spellable(v: Operand) {
    match v
    case Path(raw) => |raw| >= 2 && raw[0] == '$' && raw[1] == '.' && AllIn(raw, PathChars)
    case Number(raw) =>
      raw != "" && StartsNumber(raw, 0) && AllIn(if raw[0] == '-' then raw[1..] else raw, NumberChars)
    case Text(raw) => AllIn(raw, Unquoted)
    case Truth(_) => true
    case Nil => true
  }

  function SpellOperand(v: Operand): string {
    match v
    case Path(raw) => raw
    case Number(raw) => raw
    case Text(raw) => "\"" + raw + "\""
    case Truth(b) => if b then "true" else "false"
    case Nil => "null"
  }

  function SpellOp(op: CompareOp): string {
    match op case Gt => ">" case Gte => ">=" case Lt => "<" case Lte => "<=" case Eq => "==" case Neq => "!="
  }

  function Spell(t: Token): string {
    match t
    case Value(v) => SpellOperand(v)
    case Op(op) => SpellOp(op)
    case AndTok => "&&"
    case OrTok => "||"
    case NotTok => "!"
    case Open => "("
    case Close => ")"
    case Eof => ""
    case Bad => ""
  }

  /** Tokens of a condition whose operands can be written down. */
  ghost predicate Writable(t: Token) { t != Eof && t != Bad && (t.Value? ==> Spellable(t.operand)) }

  /** The character would be read as part of a token that it follows directly. */
  predicate Extends(t: Token, c: char) {
    match t
    case Value(Path(_)) => InClass(c, PathChars)
    case Value(Number(_)) => InClass(c, NumberChars)
    case Value(Truth(_)) => InClass(c, WordChars)
    case Value(Nil) => InClass(c, WordChars)
    case Op(Gt) => c == '='
    case Op(Lt) => c == '='
    case NotTok => c == '='
    case _ => false
  }

  /** The text ends at e or goes on with something that does not belong to the token. */
  predicate Stops(s: string, e: nat, t: Token) { e >= |s| || !Extends(t, s[e]) }

  lemma PathTurn(s: string, i: nat, raw: string)
    requires At(s, i, raw) && Spellable(Path(raw)) && Stops(s, i + |raw|, Value(Path(raw)))
    ensures TurnAt(s, i) == Turn([Value(Path(raw))], i + |raw|)
  {
    CharsAt(s, i, raw);
    assert s[i + 0] == '$' && s[i + 1] == '.';
    RunEndAt(s, i, raw, PathChars);
  }

  lemma TextTurn(s: string, i: nat, raw: string)
    requires At(s, i, "\"" + raw + "\"") && Spellable(Text(raw))
    ensures TurnAt(s, i) == Turn([Value(Text(raw))], i + |raw| + 2)
  {
    AtSplit(s, i, "\"" + raw, "\"");
    AtSplit(s, i, "\"", raw);
    CharsAt(s, i, "\"");
    CharsAt(s, i + 1 + |raw|, "\"");
    assert s[i + 0] == '\"' && s[i + 1 + |raw| + 0] == '\"';
    RunEndAt(s, i + 1, raw, Unquoted);
  }

  /** The digits of a numeral, behind its sign. */
  function Unsigned(raw: string): string { if raw != "" && raw[0] == '-' then raw[1..] else raw }

  lemma NumberStarts(s: string, i: nat, raw: string)
    requires At(s, i, raw) && raw != "" && StartsNumber(raw, 0)
    ensures i < |s| && s[i] == raw[0] && StartsNumber(s, i) && At(s, i + |raw| - |Unsigned(raw)|, Unsigned(raw))
  {
    CharsAt(s, i, raw);
    assert s[i + 0] == raw[0];
    if raw[0] == '-' {
      assert s[i + 1] == raw[1];
      assert raw == "-" + raw[1..];
      AtSplit(s, i, "-", raw[1..]);
    }
  }

  lemma NumberTurn(s: string, i: nat, raw: string)
    requires At(s, i, raw) && Spellable(Number(raw)) && Stops(s, i + |raw|, Value(Number(raw)))
    ensures TurnAt(s, i) == Turn([Value(Number(raw))], i + |raw|)
  {
    hide TurnAt, At, RunEnd;
    NumberStarts(s, i, raw);
    RunEndAt(s, i + |raw| - |Unsigned(raw)|, Unsigned(raw), NumberChars);
    NumberRead(s, i, i + |raw|);
    AtRead(s, i, raw);
  }

  lemma AtRead(s: string, i: nat, raw: string)
    requires At(s, i, raw)
    ensures i + |raw| <= |s| && s[i..i + |raw|] == raw
  {
  }

  lemma NumberRead(s: string, i: nat, e: nat)
    requires i < |s| && StartsNumber(s, i) && e == RunEnd(s, if s[i] == '-' then i + 1 else i, NumberChars)
    ensures TurnAt(s, i) == Turn([Value(Number(s[i..e]))], e)
  {
    hide RunEnd;
  }

  lemma WordTurn(s: string, i: nat, w: string)
    requires At(s, i, w) && Keyword(w).Some? && Stops(s, i + |w|, Value(Keyword(w).value))
    ensures TurnAt(s, i) == Turn([Value(Keyword(w).value)], i + |w|)
  {
    CharsAt(s, i, w);
    assert w != "" && s[i + 0] == w[0];
    assert AllIn(w, WordChars);
    RunEndAt(s, i, w, WordChars);
  }

  lemma SymbolTurn(s: string, i: nat, t: Token)
    requires At(s, i, Spell(t)) && !t.Value? && Writable(t) && Stops(s, i + |Spell(t)|, t)
    ensures TurnAt(s, i) == Turn([t], i + |Spell(t)|)
  {
    CharsAt(s, i, Spell(t));
    assert s[i + 0] == Spell(t)[0];
    if |Spell(t)| == 2 { assert s[i + 1] == Spell(t)[1]; }
  }

  /** A written token is read as itself. */
  lemma TokenTurn(s: string, i: nat, t: Token)
    requires At(s, i, Spell(t)) && Writable(t) && Stops(s, i + |Spell(t)|, t)
    ensures TurnAt(s, i) == Turn([t], i + |Spell(t)|)
  {
    hide TurnAt;
    if t.Value? {
      match t.operand
      case Path(raw) => PathTurn(s, i, raw);
      case Number(raw) => NumberTurn(s, i, raw);
      case Text(raw) => TextTurn(s, i, raw);
      case Truth(b) => WordTurn(s, i, if b then "true" else "false");
      case Nil => WordTurn(s, i, "null");
    } else {
      SymbolTurn(s, i, t);
    }
  }

  lemma SpellNonEmpty(t: Token)
    requires Writable(t)
    ensures Spell(t) != "" && !IsSpace(Spell(t)[0]) && !IsSpace(Spell(t)[|Spell(t)| - 1])
  {
  }

  // ---- texts and their tokens ----------------------------------------------

  /** A token as it is written, with the blanks before it. */
  datatype Written = Written(gap: string, token: Token)

  function Piece(w: Written): string { w.gap + Spell(w.token) }

  function TextOf(ws: seq<Written>): string { Flat(ws, Piece) }

  function TokensOf(ws: seq<Written>): (r: seq<Token>)
    ensures |r| == |ws| && forall k :: 0 <= k < |ws| ==> r[k] == ws[k].token
  {
    seq(|ws|, k requires 0 <= k < |ws| => ws[k].token)
  }

  predicate Blank(s: string) { forall k :: 0 <= k < |s| ==> IsSpace(s[k]) }

  ghost predicate AllWritable(ts: seq<Token>) { forall k :: 0 <= k < |ts| ==> Writable(ts[k]) }

  /** Tokens stand apart, by blanks or by themselves. */
  ghost predicate Legible(ws: seq<Written>) {
    && (forall k :: 0 <= k < |ws| ==> Writable(ws[k].token) && Blank(ws[k].gap))
    && forall k :: 0 < k < |ws| && ws[k].gap == "" ==> !Extends(ws[k - 1].token, Piece(ws[k])[0])
  }

  lemma LexTurn(s: string, i: nat, ts: seq<Token>, next: nat)
    requires i < |s| && TurnAt(s, i) == Turn(ts, next)
    ensures LexAt(s, i) == ts + LexAt(s, next)
  {
  }

  lemma {:induction false} SkipBlanks(s: string, i: nat, e: nat)
    requires i <= e <= |s| && forall k :: i <= k < e ==> IsSpace(s[k])
    ensures LexAt(s, i) == LexAt(s, e)
    decreases e - i
  {
    hide OperandTurn, OperatorTurn;
    if i < e {
      SkipBlanks(s, i + 1, e);
      LexTurn(s, i, [], i + 1);
      assert [] + LexAt(s, i + 1) == LexAt(s, i + 1);
    }
  }

  lemma ReadPiece(s: string, i: nat, w: Written)
    requires At(s, i, Piece(w)) && Writable(w.token) && Blank(w.gap) && Stops(s, i + |Piece(w)|, w.token)
    ensures LexAt(s, i) == [w.token] + LexAt(s, i + |Piece(w)|)
  {
    hide LexAt, Spell, Extends;
    AtSplit(s, i, w.gap, Spell(w.token));
    CharsAt(s, i, w.gap);
    var j := i + |w.gap|;
    forall k | i <= k < j ensures IsSpace(s[k]) { assert s[i + (k - i)] == w.gap[k - i]; }
    SkipBlanks(s, i, j);
    SpellNonEmpty(w.token);
    TokenTurn(s, j, w.token);
    LexTurn(s, j, [w.token], j + |Spell(w.token)|);
  }

  lemma BlankStops(t: Token, c: char)
    requires IsSpace(c)
    ensures !Extends(t, c)
  {
  }

  lemma PieceStarts(w: Written)
    requires Writable(w.token)
    ensures Piece(w) != "" && Piece(w)[0] == (if w.gap != "" then w.gap[0] else Spell(w.token)[0])
  {
    SpellNonEmpty(w.token);
  }

  lemma LegibleRest(ws: seq<Written>)
    requires ws != [] && Legible(ws)
    ensures Legible(ws[1..])
  {
    var rest := ws[1..];
    assert forall k :: 0 <= k < |rest| ==> rest[k] == ws[k + 1];
    forall k | 0 < k < |rest| && rest[k].gap == "" ensures !Extends(rest[k - 1].token, Piece(rest[k])[0]) {
      assert rest[k] == ws[k + 1] && rest[k - 1] == ws[k];
    }
  }

  /** Where the first of several written tokens ends, the next begins or the text goes on with blanks. */
  lemma FirstStops(s: string, i: nat, ws: seq<Written>)
    requires Legible(ws) && ws != [] && At(s, i, TextOf(ws))
    requires forall k :: i + |TextOf(ws)| <= k < |s| ==> IsSpace(s[k])
    ensures At(s, i, Piece(ws[0])) && At(s, i + |Piece(ws[0])|, TextOf(ws[1..])) && Legible(ws[1..])
    ensures Stops(s, i + |Piece(ws[0])|, ws[0].token)
  {
    hide Extends, Spell, Writable;
    var e := i + |Piece(ws[0])|;
    AtSplit(s, i, Piece(ws[0]), TextOf(ws[1..]));
    LegibleRest(ws);
    if |ws| > 1 {
      PieceStarts(ws[1]);
      AtSplit(s, e, Piece(ws[1]), TextOf(ws[1..][1..]));
      CharsAt(s, e, Piece(ws[1]));
      assert s[e + 0] == Piece(ws[1])[0];
      if ws[1].gap != "" { BlankStops(ws[0].token, s[e]); }
    } else if e < |s| {
      BlankStops(ws[0].token, s[e]);
    }
  }

  /** Any text in which tokens stand apart, however spaced, is tokenized to them and the end marker. */
  lemma {:induction false} LegibleLexes(s: string, i: nat, ws: seq<Written>)
    requires Legible(ws) && At(s, i, TextOf(ws))
    requires forall k :: i + |TextOf(ws)| <= k < |s| ==> IsSpace(s[k])
    ensures LexAt(s, i) == TokensOf(ws) + [Eof]
    decreases |ws|
  {
    hide Legible, Piece, TextOf, Stops, IsSpace;
    if ws == [] {
      NoText();
      SkipBlanks(s, i, |s|);
    } else {
      FirstStops(s, i, ws);
      TextGrows(ws);
      LegibleHead(ws);
      LegibleLexes(s, i + |Piece(ws[0])|, ws[1..]);
      ReadPiece(s, i, ws[0]);
      assert TokensOf(ws) == [ws[0].token] + TokensOf(ws[1..]);
    }
  }

  lemma NoText()
    ensures TextOf([]) == ""
  {
  }

  lemma TextGrows(ws: seq<Written>)
    requires ws != []
    ensures TextOf(ws) == Piece(ws[0]) + TextOf(ws[1..])
  {
  }

  lemma LegibleHead(ws: seq<Written>)
    requires ws != [] && Legible(ws)
    ensures Writable(ws[0].token) && Blank(ws[0].gap)
  {
  }

  /** Such a text has no blanks at its ends, if none come before its first token. */
  lemma {:induction false} TextEnds(ws: seq<Written>)
    requires Legible(ws) && ws != []
    ensures var s := TextOf(ws);
            s != "" && !IsSpace(s[|s| - 1]) && (ws[0].gap == "" ==> !IsSpace(s[0]))
    decreases |ws|
  {
    hide Spell, Writable, Extends;
    SpellNonEmpty(ws[0].token);
    TextGrows(ws);
    if |ws| == 1 {
      assert ws[1..] == [];
    } else {
      LegibleRest(ws);
      TextEnds(ws[1..]);
    }
  }
}

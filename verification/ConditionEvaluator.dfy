/** Evaluating a condition text: tokenizer loop and recursive-descent parser. */
module ConditionEvaluator {
  import opened CharClass
  import opened Common
  import opened Flatten
  import opened ConditionParsing
  import opened ConditionTokens

  // ---- the tokenizer -------------------------------------------------------

  method RunMethod(s: string, i: nat, k: Class) returns (e: nat)
    requires i <= |s|
    ensures e == RunEnd(s, i, k)
  {
    e := i;
    while e < |s| && InClass(s[e], k)
      invariant i <= e <= |s| && RunEnd(s, i, k) == RunEnd(s, e, k)
    {
      e := e + 1;
    }
  }

  /** Paths, strings and numbers; a keyword or a stray letter. */
  method OperandToken(s: string, i: nat) returns (t: Turn)
    requires i < |s|
    ensures t == OperandTurn(s, i)
  {
    var e: nat;
    if Pair(s, i, '$', '.') {
      e := RunMethod(s, i, PathChars);
      return Turn([Value(Path(s[i..e]))], e);
    }
    if s[i] == '\"' {
      e := RunMethod(s, i + 1, Unquoted);
      return Turn([Value(Text(s[i + 1..e]))], if e < |s| then e + 1 else e);
    }
    if StartsNumber(s, i) {
      e := RunMethod(s, if s[i] == '-' then i + 1 else i, NumberChars);
      return Turn([Value(Number(s[i..e]))], e);
    }
    if IsLetter(s[i]) {
      e := RunMethod(s, i, WordChars);
      var word := Keyword(s[i..e]);
      if word.Some? { return Turn([Value(word.value)], e); }
    }
    t := Unexpected;
  }

  lemma LexSplit(s: string, i: nat, tokens: seq<Token>)
    requires i < |s| && LexAt(s, 0) == tokens + LexAt(s, i)
    ensures TurnAt(s, i).Turn? ==> LexAt(s, 0) == (tokens + TurnAt(s, i).tokens) + LexAt(s, TurnAt(s, i).next)
    ensures TurnAt(s, i).Unexpected? ==> LexAt(s, 0) == tokens + [Bad]
  {
    if TurnAt(s, i).Turn? { Regroup(tokens, TurnAt(s, i).tokens, LexAt(s, TurnAt(s, i).next)); }
  }

  /** All tokens with the end marker, or an error at the first character that starts none. */
  method TokenizeCondition(s: string) returns (r: Option<seq<Token>>)
    ensures r == if Bad in LexAt(s, 0) then None else Some(LexAt(s, 0))
    ensures r.Some? ==> Terminated(r.value)
  {
    var tokens: seq<Token>, i := [], 0;
    assert [] + LexAt(s, 0) == LexAt(s, 0);
    LexTerminated(s, 0);
    while i < |s|
      invariant i <= |s| && LexAt(s, 0) == tokens + LexAt(s, i)
    {
      LexSplit(s, i, tokens);
      var turn := NextToken(s, i);
      if turn.Unexpected? {
        assert LexAt(s, 0)[|tokens|] == Bad;
        return None;
      }
      tokens, i := tokens + turn.tokens, turn.next;
    }
    tokens := tokens + [Eof];
    assert tokens == LexAt(s, 0);
    r := Some(tokens);
  }

  method NextToken(s: string, i: nat) returns (t: Turn)
    requires i < |s|
    ensures t == TurnAt(s, i)
  {
    if IsSpace(s[i]) { return Turn([], i + 1); }
    t := OperandToken(s, i);
    if t.Unexpected? { t := OperatorTurn(s, i); }
  }

  // ---- the parser ----------------------------------------------------------

  class ConditionParser {
    const tokens: Tokens
    const context: Context
    var pos: nat

    constructor (tokens: Tokens, context: Context)
      ensures this.tokens == tokens && this.context == context && pos == 0
    {
      this.tokens, this.context, pos := tokens, context, 0;
    }

    /** The outcome of reading from a position: the value, with pos behind what was read; or an error. */
    ghost predicate Took(r: Option<bool>, spec: Option<Read>)
      reads this
    {
      match spec
      case None => r == None
      case Some(read) => r == Some(read.value) && pos == read.next
    }

    method ParseOrExpr() returns (r: Option<bool>)
      requires pos < |tokens|
      modifies this
      ensures Took(r, ChainAt(tokens, context, Disjunction, old(pos)))
      decreases |tokens| - pos, 3
    {
      var left := ParseAndExpr();
      if left.None? { return None; }
      while tokens[pos] == OrTok
        invariant old(pos) < pos < |tokens| && left.Some?
        invariant RestAt(tokens, context, Disjunction, left.value, pos)
                  == ChainAt(tokens, context, Disjunction, old(pos))
        decreases |tokens| - pos
      {
        pos := pos + 1;
        var right := ParseAndExpr();
        if right.None? { return None; }
        left := Some(left.value || right.value);
      }
      r := left;
    }

    method ParseAndExpr() returns (r: Option<bool>)
      requires pos < |tokens|
      modifies this
      ensures Took(r, ChainAt(tokens, context, Conjunction, old(pos)))
      decreases |tokens| - pos, 2
    {
      var left := ParseNotExpr();
      if left.None? { return None; }
      while tokens[pos] == AndTok
        invariant old(pos) < pos < |tokens| && left.Some?
        invariant RestAt(tokens, context, Conjunction, left.value, pos)
                  == ChainAt(tokens, context, Conjunction, old(pos))
        decreases |tokens| - pos
      {
        pos := pos + 1;
        var right := ParseNotExpr();
        if right.None? { return None; }
        left := Some(left.value && right.value);
      }
      r := left;
    }

    method ParseNotExpr() returns (r: Option<bool>)
      requires pos < |tokens|
      modifies this
      ensures Took(r, NotAt(tokens, context, old(pos)))
      decreases |tokens| - pos, 1
    {
      if tokens[pos] == NotTok {
        pos := pos + 1;
        var body := ParseNotExpr();
        return if body.None? then None else Some(!body.value);
      }
      r := ParseComparison();
    }

    method ParseComparison() returns (r: Option<bool>)
      requires pos < |tokens|
      modifies this
      ensures Took(r, ComparisonAt(tokens, context, old(pos)))
      decreases |tokens| - pos, 0
    {
      if tokens[pos] == Open {
        pos := pos + 1;
        var inner := ParseOrExpr();
        if inner.None? || tokens[pos] != Close { return None; }
        pos := pos + 1;
        return inner;
      }
      if tokens[pos] == Value(Truth(true)) {
        pos := pos + 1;
        return Some(true);
      }
      if tokens[pos] == Value(Truth(false)) {
        pos := pos + 1;
        return Some(false);
      }
      var lhs := ParseValue();
      if lhs.None? { return None; }
      if !tokens[pos].Op? { return Some(AsTruthy(lhs.value)); }
      var op := tokens[pos].op;
      pos := pos + 1;
      var rhs := ParseValue();
      if rhs.None? { return None; }
      r := Some(CompareValues(lhs.value, op, rhs.value));
    }

    /** One operand; never moves past the end marker and succeeds. */
    method ParseValue() returns (v: Option<ConditionParsing.Value>)
      requires pos < |tokens|
      modifies this
      ensures v == if tokens[old(pos)].Value? then OperandValue(context, tokens[old(pos)].operand) else None
      ensures pos == old(pos) + 1 && (v.Some? ==> pos < |tokens|)
    {
      var token := tokens[pos];
      pos := pos + 1;
      if token.Value? { v := OperandValue(context, token.operand); } else { v := None; }
    }
  }

  // ---- evaluation ----------------------------------------------------------

  /** Where the text starts behind leading blanks, and ends before trailing ones. */
  function Trim(s: string): string {
    if s != "" && IsSpace(s[0]) then Trim(s[1..])
    else if s != "" && IsSpace(s[|s| - 1]) then Trim(s[..|s| - 1])
    else s
  }

  ghost function Meaning(condition: string, ctx: Context): Option<bool> {
    var text := Trim(condition);
    LexTerminated(text, 0);
    if text == "" then Some(true)
    else if Bad in LexAt(text, 0) then None
    else
      var r := ChainAt(LexAt(text, 0), ctx, Disjunction, 0);
      if r.None? then None else Some(r.value.value)
  }

  /** None stands for a condition error. */
  method EvaluateCondition(condition: string, ctx: Context) returns (r: Option<bool>)
    ensures r == Meaning(condition, ctx)
  {
    var text := Trim(condition);
    if text == "" { return Some(true); }
    var tokens := TokenizeCondition(text);
    if tokens.None? { return None; }
    var parser := new ConditionParser(tokens.value, ctx);
    r := parser.ParseOrExpr();
  }

  // ---- trimming ------------------------------------------------------------

  /** A text is trimmed to what stands between its blanks. */
  lemma {:induction false} TrimExactly(a: string, text: string, b: string)
    requires Blank(a) && Blank(b)
    requires text != "" ==> !IsSpace(text[0]) && !IsSpace(text[|text| - 1])
    ensures Trim(a + text + b) == text
    decreases |a| + |b|
  {
    var s := a + text + b;
    if a != "" {
      assert s[0] == a[0] && s[1..] == a[1..] + text + b;
      TrimExactly(a[1..], text, b);
    } else if b != "" {
      var n := |b| - 1;
      if text == "" {
        assert s[1..] == a + text + b[1..] && s[0] == b[0];
        TrimExactly(a, text, b[1..]);
      } else {
        assert s[0] == text[0] && s[|s| - 1] == b[n] && s[..|s| - 1] == a + text + b[..n];
        TrimExactly(a, text, b[..n]);
      }
    } else {
      assert s == text;
    }
  }

  /** A condition of blanks only holds. */
  lemma BlankHolds(condition: string, ctx: Context)
    requires Blank(condition)
    ensures Meaning(condition, ctx) == Some(true)
  {
    assert condition + "" + "" == condition;
    TrimExactly(condition, "", "");
  }

  // ---- written trees -------------------------------------------------------

  /** Writing a tree down, in any spacing that keeps the tokens apart, and evaluating the text gives the
      tree's value up to the cut: what the tree denotes, if no boolean literal stands on the left of a
      comparison. */
  lemma WrittenEvaluates(ctx: Context, t: Expr, ws: seq<Written>, tail: string)
    requires Legible(ws) && TokensOf(ws) == Print(t, 0) && Blank(tail)
    ensures Meaning(TextOf(ws) + tail, ctx) == CutValue(ctx, t, 0)
    ensures Regular(t) ==> Meaning(TextOf(ws) + tail, ctx) == Denote(ctx, t)
  {
    hide CutValue, Denote, ChainAt, LexAt, Trim;
    PrintedTokens(t, 0);
    PrintedEvaluates(ctx, t);
    TrimmedText(ws, tail);
    var text := Trim(TextOf(ws) + tail);
    NoBad(TokensOf(ws));
    assert LexAt(text, 0) == Printed(t);
  }

  lemma TrimmedText(ws: seq<Written>, tail: string)
    requires Legible(ws) && ws != [] && Blank(tail)
    ensures var text := Trim(TextOf(ws) + tail);
            text != "" && LexAt(text, 0) == TokensOf(ws) + [Eof] && AllWritable(TokensOf(ws))
  {
    hide LexAt, Trim, Spell, Extends, Writable;
    var gap, first := ws[0].gap, ws[0].(gap := "");
    var bare := ws[0 := first];
    assert Legible(bare);
    TextGrows(ws);
    TextGrows(bare);
    assert "" + Spell(first.token) == Spell(first.token) && bare[1..] == ws[1..];
    assert TextOf(ws) + tail == gap + TextOf(bare) + tail;
    TextEnds(bare);
    TrimExactly(gap, TextOf(bare), tail);
    assert TextOf(bare)[0..|TextOf(bare)|] == TextOf(bare);
    LegibleLexes(TextOf(bare), 0, bare);
    assert TokensOf(bare) == TokensOf(ws);
  }

  lemma NoBad(ts: seq<Token>)
    requires AllWritable(ts)
    ensures Bad !in ts + [Eof]
  {
  }

  const NEVER := Compare(Truth(true), Eq, Truth(false))

  /** "true == false" is cut at its operator: it denotes false and evaluates to true. */
  lemma LiteralCutsComparison(ctx: Context)
    ensures LexAt("true == false", 0) == Printed(NEVER)
    ensures Denote(ctx, NEVER) == Some(false) && Meaning("true == false", ctx) == Some(true)
  {
    hide LexAt, Meaning;
    var ws := [Written("", Value(Truth(true))), Written(" ", Op(Eq)), Written(" ", Value(Truth(false)))];
    NeverSpelled(ws);
    assert TokensOf(ws) == Print(NEVER, 0);
    assert "true == false" + "" == "true == false" && "true == false"[0..13] == "true == false";
    LegibleLexes("true == false", 0, ws);
    WrittenEvaluates(ctx, NEVER, ws, "");
  }

  lemma NeverSpelled(ws: seq<Written>)
    requires ws == [Written("", Value(Truth(true))), Written(" ", Op(Eq)), Written(" ", Value(Truth(false)))]
    ensures TextOf(ws) == "true == false" && Legible(ws)
  {
    assert ws[1..][1..] == [ws[2]] && [ws[2]][1..] == [];
    NoText();
    TextGrows([ws[2]]);
    assert TextOf([ws[2]]) == " false";
    TextGrows(ws[1..]);
    assert TextOf(ws[1..]) == " == false";
    TextGrows(ws);
  }

  /** Any condition that is evaluated to its last token is the writing of some tree, and has its value. */
  lemma EvaluatedIsTree(ctx: Context, condition: string) returns (t: Expr)
    requires Trim(condition) != "" && Bad !in LexAt(Trim(condition), 0) && Terminated(LexAt(Trim(condition), 0))
    requires var r := ChainAt(LexAt(Trim(condition), 0), ctx, Disjunction, 0);
             r.Some? && LexAt(Trim(condition), 0)[r.value.next] == Eof
    ensures LexAt(Trim(condition), 0) == Printed(t) && Regular(t) && Meaning(condition, ctx) == Denote(ctx, t)
  {
    hide LexAt, Trim, ChainAt, Denote, Regular;
    var ts := LexAt(Trim(condition), 0);
    t := ChainTree(ts, ctx, Disjunction, 0);
    var n := |ts| - 1;
    assert ts == ts[0..n] + [ts[n]];
  }
}

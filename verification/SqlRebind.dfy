/** The emitted text, character by character, and its rebinding to positional placeholders. */
module SqlRebind {
  import opened Decimal
  import opened Flatten
  import opened SqlFilter

  // ---- spelling ------------------------------------------------------------

  function Quote(d: Dialect, column: string): string {
    if d == SqlServer then "[" + column + "]" else "\"" + column + "\""
  }

  function SpellOp(op: CompareOp): string {
    match op
    case Eq => " = "
    case Ne => " <> "
    case Lt => " < "
    case Lte => " <= "
    case Gt => " > "
    case Gte => " >= "
    case Like => " LIKE "
  }

  function ParamName(n: nat): string { "p" + Dec(n) }

  /** A token as the translator writes it. */
  function Spell(t: Tok, d: Dialect): string {
    match t
    case TOpen => "("
    case TClose => ")"
    case TAnd => " AND "
    case TOr => " OR "
    case TNot => "NOT "
    case TColumn(c) => Quote(d, c)
    case TCompare(op) => SpellOp(op)
    case TIn => " IN "
    case TNotIn => " NOT IN "
    case TBetween => " BETWEEN "
    case TTrue => "1=1"
    case TFalse => "1=0"
    case Param(n, _) => "@" + ParamName(n)
  }

  // ---- binding -------------------------------------------------------------

  function Placeholder(d: Dialect, pos: nat): string {
    if d == PostgreSql then "$" + Dec(pos + 1) else "?"
  }

  /** Which of n list items are preceded by a comma. */
  function Marks(n: nat): (r: seq<bool>)
    ensures |r| == n && forall i :: 0 <= i < n ==> r[i] == (i > 0)
  {
    seq(n, i => i > 0)
  }

  function One(mark: bool): nat { 1 }

  function ItemText(d: Dialect): (bool, nat) -> string {
    (mark: bool, pos: nat) => (if mark then ", " else "") + Placeholder(d, pos)
  }

  function PlaceholderList(d: Dialect, pos: nat, n: nat): string { FlatAt(Marks(n), ItemText(d), One, pos) }

  /** A list is bound as a parenthesised list of placeholders. */
  function BoundValue(v: SqlValue, d: Dialect, pos: nat): string {
    if v.List? then "(" + PlaceholderList(d, pos, |v.items|) + ")" else Placeholder(d, pos)
  }

  function ValueArgs(v: SqlValue): seq<SqlValue> { if v.List? then v.items else [v] }

  // ---- splitting a text ----------------------------------------------------

  predicate IsNameChar(c: char) {
    c == '_' || 'a' <= c <= 'z' || 'A' <= c <= 'Z' || '0' <= c <= '9'
  }

  /** End of the run of name characters that starts at j. */
  function NameEnd(s: string, j: nat): (e: nat)
    requires j <= |s|
    ensures j <= e <= |s|
    ensures forall i :: j <= i < e ==> IsNameChar(s[i])
    ensures e < |s| ==> !IsNameChar(s[e])
    decreases |s| - j
  {
    if j == |s| || !IsNameChar(s[j]) then j else NameEnd(s, j + 1)
  }

  /** Literal text, or a named parameter with its value. */
  datatype Piece = Raw(text: string) | Slot(name: string, value: SqlValue)

  /** The text from position i on, split into single characters and known parameters. */
  function Split(s: string, i: nat, byName: map<string, SqlValue>): seq<Piece>
    requires i <= |s|
    decreases |s| - i
  {
    if i == |s| then []
    else if s[i] == '@' && s[i + 1..NameEnd(s, i + 1)] in byName then
      var name := s[i + 1..NameEnd(s, i + 1)];
      [Slot(name, byName[name])] + Split(s, NameEnd(s, i + 1), byName)
    else [Raw([s[i]])] + Split(s, i + 1, byName)
  }

  function Named(p: Piece): string { if p.Raw? then p.text else "@" + p.name }

  function NamedText(ps: seq<Piece>): string { Flat(ps, Named) }

  function PieceArgs(p: Piece): seq<SqlValue> { if p.Raw? then [] else ValueArgs(p.value) }

  function PieceWidth(p: Piece): nat { |PieceArgs(p)| }

  function PiecesArgs(ps: seq<Piece>): seq<SqlValue> { Flat(ps, PieceArgs) }

  function BoundPiece(d: Dialect): (Piece, nat) -> string {
    (p: Piece, pos: nat) => if p.Raw? then p.text else BoundValue(p.value, d, pos)
  }

  /** The pieces with every parameter replaced by its placeholders, pos arguments being bound before. */
  function BoundText(ps: seq<Piece>, d: Dialect, pos: nat): string { FlatAt(ps, BoundPiece(d), PieceWidth, pos) }

  lemma ArgsCount(ps: seq<Piece>)
    ensures |PiecesArgs(ps)| == Width(ps, PieceWidth)
  {
    FlatLength(ps, PieceArgs, PieceWidth);
  }

  // ---- a text made of pieces -----------------------------------------------

  predicate EndsName(s: string, i: nat) { i >= |s| || !IsNameChar(s[i]) }

  predicate Breaks(text: string) { text != "" && !IsNameChar(text[0]) }

  ghost predicate PieceOk(p: Piece, byName: map<string, SqlValue>) {
    match p
    case Raw(text) => '@' !in text
    case Slot(name, v) => (forall i :: 0 <= i < |name| ==> IsNameChar(name[i])) && name in byName && byName[name] == v
  }

  ghost predicate AllOk(ps: seq<Piece>, byName: map<string, SqlValue>) {
    forall k :: 0 <= k < |ps| ==> PieceOk(ps[k], byName)
  }

  /** No parameter name runs into what follows it. */
  ghost predicate SlotsBreak(ps: seq<Piece>) {
    forall k :: 0 <= k < |ps| - 1 && ps[k].Slot? ==> Breaks(Named(ps[k + 1]))
  }

  /** The pieces of a text as Split delivers them: literal text character by character. */
  function Chars(text: string): seq<Piece> {
    seq(|text|, i requires 0 <= i < |text| => Raw([text[i]]))
  }

  function Fine(p: Piece): seq<Piece> { if p.Raw? then Chars(p.text) else [p] }

  lemma CharsHead(text: string)
    requires text != ""
    ensures Chars(text) == [Raw([text[0]])] + Chars(text[1..])
  {
  }

  lemma SplitChar(s: string, i: nat, byName: map<string, SqlValue>)
    requires i < |s| && s[i] != '@'
    ensures Split(s, i, byName) == [Raw([s[i]])] + Split(s, i + 1, byName)
  {
  }

  lemma {:induction false} SplitRaw(s: string, i: nat, text: string, byName: map<string, SqlValue>)
    requires At(s, i, text) && '@' !in text
    ensures Split(s, i, byName) == Chars(text) + Split(s, i + |text|, byName)
    decreases text
  {
    var e := i + |text|;
    if text == "" {
      assert Chars(text) == [];
      assert [] + Split(s, e, byName) == Split(s, e, byName);
    } else {
      assert text == [text[0]] + text[1..];
      AtSplit(s, i, [text[0]], text[1..]);
      assert s[i] == s[i..i + 1][0] == text[0];
      SplitChar(s, i, byName);
      SplitRaw(s, i + 1, text[1..], byName);
      CharsHead(text);
      Regroup([Raw([text[0]])], Chars(text[1..]), Split(s, e, byName));
    }
  }

  lemma {:induction false} NameEndIs(s: string, j: nat, e: nat)
    requires j <= e <= |s| && (forall k :: j <= k < e ==> IsNameChar(s[k])) && EndsName(s, e)
    ensures NameEnd(s, j) == e
    decreases e - j
  {
    if j < e { NameEndIs(s, j + 1, e); }
  }

  lemma SplitPiece(s: string, i: nat, p: Piece, byName: map<string, SqlValue>)
    requires PieceOk(p, byName) && At(s, i, Named(p)) && (p.Slot? ==> EndsName(s, i + |Named(p)|))
    ensures Split(s, i, byName) == Fine(p) + Split(s, i + |Named(p)|, byName)
  {
    var e := i + |Named(p)|;
    if p.Raw? {
      SplitRaw(s, i, p.text, byName);
    } else {
      AtSplit(s, i, "@", p.name);
      assert s[i] == s[i..i + 1][0];
      assert forall k :: i + 1 <= k < e ==> s[k] == s[i + 1..e][k - i - 1];
      NameEndIs(s, i + 1, e);
    }
  }

  lemma NextChar(s: string, i: nat, ps: seq<Piece>)
    requires ps != [] && At(s, i, NamedText(ps)) && Breaks(Named(ps[0]))
    ensures EndsName(s, i)
  {
    var text := NamedText(ps);
    assert text[0] == Named(ps[0])[0];
    assert s[i] == s[i..i + |text|][0];
  }

  lemma NamedHead(ps: seq<Piece>)
    requires ps != []
    ensures NamedText(ps) == Named(ps[0]) + NamedText(ps[1..])
  {
  }

  /** The first piece of a text that consists of pieces. */
  lemma SplitFirst(s: string, i: nat, ps: seq<Piece>, byName: map<string, SqlValue>)
    requires ps != [] && PieceOk(ps[0], byName) && SlotsBreak(ps) && At(s, i, NamedText(ps))
             && EndsName(s, i + |NamedText(ps)|)
    ensures var n := i + |Named(ps[0])|;
            && At(s, n, NamedText(ps[1..])) && n + |NamedText(ps[1..])| == i + |NamedText(ps)|
            && Split(s, i, byName) == Fine(ps[0]) + Split(s, n, byName)
  {
    var n := i + |Named(ps[0])|;
    NamedHead(ps);
    AtSplit(s, i, Named(ps[0]), NamedText(ps[1..]));
    if ps[0].Slot? {
      if |ps| > 1 { NextChar(s, n, ps[1..]); } else { assert NamedText(ps[1..]) == ""; }
    }
    SplitPiece(s, i, ps[0], byName);
  }

  lemma FineHead(ps: seq<Piece>, rest: seq<Piece>)
    requires ps != []
    ensures Flat(ps, Fine) + rest == Fine(ps[0]) + (Flat(ps[1..], Fine) + rest)
  {
    Regroup(Fine(ps[0]), Flat(ps[1..], Fine), rest);
  }

  /** A text that consists of pieces is split into them. */
  lemma {:induction false} SplitPieces(s: string, i: nat, e: nat, ps: seq<Piece>, byName: map<string, SqlValue>)
    requires AllOk(ps, byName) && SlotsBreak(ps)
    requires At(s, i, NamedText(ps)) && e == i + |NamedText(ps)| && EndsName(s, e)
    ensures Split(s, i, byName) == Flat(ps, Fine) + Split(s, e, byName)
    decreases |ps|
  {
    hide Split, EndsName;
    var rest := Split(s, e, byName);
    if ps == [] {
      assert [] + rest == rest;
    } else {
      var n := i + |Named(ps[0])|;
      SplitFirst(s, i, ps, byName);
      SplitPieces(s, n, e, ps[1..], byName);
      FineHead(ps, rest);
    }
  }

  // ---- binding does not see how literal text is cut -------------------------

  lemma {:induction false} PlainBound(ps: seq<Piece>, d: Dialect, pos: nat)
    requires forall k :: 0 <= k < |ps| ==> ps[k].Raw?
    ensures PiecesArgs(ps) == [] && BoundText(ps, d, pos) == NamedText(ps) && Width(ps, PieceWidth) == 0
  {
    if ps != [] { PlainBound(ps[1..], d, pos); }
  }

  lemma {:induction false} CharsText(text: string)
    ensures NamedText(Chars(text)) == text
  {
    if text != [] {
      CharsHead(text);
      assert Chars(text)[1..] == Chars(text[1..]);
      CharsText(text[1..]);
      assert [text[0]] + text[1..] == text;
    }
  }

  lemma BoundChars(text: string, d: Dialect, pos: nat)
    ensures PiecesArgs(Chars(text)) == [] && Width(Chars(text), PieceWidth) == 0
    ensures BoundText(Chars(text), d, pos) == text
  {
    PlainBound(Chars(text), d, pos);
    CharsText(text);
  }

  lemma BoundFine(p: Piece, d: Dialect, pos: nat)
    ensures PiecesArgs(Fine(p)) == PieceArgs(p) && Width(Fine(p), PieceWidth) == PieceWidth(p)
    ensures BoundText(Fine(p), d, pos) == BoundPiece(d)(p, pos)
  {
    if p.Raw? {
      BoundChars(p.text, d, pos);
    } else {
      FlatOne(p, PieceArgs);
      FlatAtOne(p, BoundPiece(d), PieceWidth, pos);
      assert [p][1..] == [];
    }
  }

  lemma {:induction false} ArgsFineAll(ps: seq<Piece>)
    ensures PiecesArgs(Flat(ps, Fine)) == PiecesArgs(ps)
  {
    if ps != [] {
      BoundFine(ps[0], SqlServer, 0);
      ArgsFineAll(ps[1..]);
      FlatAppend(Fine(ps[0]), Flat(ps[1..], Fine), PieceArgs);
    }
  }

  lemma {:induction false} BoundFineAll(ps: seq<Piece>, d: Dialect, pos: nat)
    ensures BoundText(Flat(ps, Fine), d, pos) == BoundText(ps, d, pos)
    decreases |ps|
  {
    hide BoundPiece, Fine, PieceWidth;
    if ps != [] {
      BoundFine(ps[0], d, pos);
      BoundFineAll(ps[1..], d, pos + PieceWidth(ps[0]));
      FlatAtAppend(Fine(ps[0]), Flat(ps[1..], Fine), BoundPiece(d), PieceWidth, pos);
    }
  }

  /** Rebinding a text made of pieces replaces each named parameter by its own placeholders, lists
      the arguments in placeholder order, and leaves the rest as it is. */
  lemma RebindPieces(s: string, ps: seq<Piece>, byName: map<string, SqlValue>, d: Dialect)
    requires AllOk(ps, byName) && SlotsBreak(ps) && s == NamedText(ps)
    ensures BoundText(Split(s, 0, byName), d, 0) == BoundText(ps, d, 0)
    ensures PiecesArgs(Split(s, 0, byName)) == PiecesArgs(ps)
  {
    assert s[0..|s|] == s;
    SplitPieces(s, 0, |s|, ps, byName);
    assert Split(s, 0, byName) == Flat(ps, Fine);
    BoundFineAll(ps, d, 0);
    ArgsFineAll(ps);
  }

  // ---- emitted tokens ------------------------------------------------------

  function PieceOf(t: Tok, d: Dialect): Piece {
    if t.Param? then Slot(ParamName(t.index), t.value) else Raw(Spell(t, d))
  }

  function Pieces(ts: seq<Tok>, d: Dialect): (ps: seq<Piece>)
    ensures |ps| == |ts| && forall i :: 0 <= i < |ts| ==> ps[i] == PieceOf(ts[i], d)
  {
    seq(|ts|, i requires 0 <= i < |ts| => PieceOf(ts[i], d))
  }

  /** The emitted text. */
  function SpellAll(ts: seq<Tok>, d: Dialect): string { NamedText(Pieces(ts, d)) }

  function Args(t: Tok): seq<SqlValue> { if t.Param? then ValueArgs(t.value) else [] }

  function ArgsAll(ts: seq<Tok>): seq<SqlValue> { Flat(ts, Args) }

  predicate Closes(t: Tok) { t == TClose || t == TAnd || t == TOr }

  predicate NeedsBreak(t: Tok) { t.Param? || t == TTrue || t == TFalse }

  /** Inside the text, parameters and numbers are followed by a closing or joining token. */
  ghost predicate Separated(ts: seq<Tok>) {
    forall i :: 0 <= i < |ts| - 1 && NeedsBreak(ts[i]) ==> Closes(ts[i + 1])
  }

  /** The quoting breaks on an embedded quote, the rebinding on an embedded '@'. */
  predicate SafeColumn(column: string, d: Dialect) {
    '@' !in column && (if d == SqlServer then ']' else '\"') !in column
  }

  predicate SafeTok(t: Tok, d: Dialect) { t.TColumn? ==> SafeColumn(t.column, d) }

  ghost predicate SafeToks(ts: seq<Tok>, d: Dialect) { forall i :: 0 <= i < |ts| ==> SafeTok(ts[i], d) }

  ghost predicate Bound(t: Tok, byName: map<string, SqlValue>) {
    t.Param? ==> ParamName(t.index) in byName && byName[ParamName(t.index)] == t.value
  }

  ghost predicate AllBound(ts: seq<Tok>, byName: map<string, SqlValue>) {
    forall i :: 0 <= i < |ts| ==> Bound(ts[i], byName)
  }

  lemma ParamNameChars(n: nat)
    ensures forall i :: 0 <= i < |ParamName(n)| ==> IsNameChar(ParamName(n)[i])
  {
    var s := ParamName(n);
    forall i | 0 <= i < |s| ensures IsNameChar(s[i]) {
      if i > 0 { assert s[i] == Dec(n)[i - 1]; }
    }
  }

  lemma TokPieceOk(t: Tok, byName: map<string, SqlValue>, d: Dialect)
    requires SafeTok(t, d) && Bound(t, byName)
    ensures PieceOk(PieceOf(t, d), byName)
  {
    if t.Param? { ParamNameChars(t.index); }
  }

  lemma CloserBreaks(t: Tok, d: Dialect)
    requires Closes(t)
    ensures Breaks(Named(PieceOf(t, d)))
  {
  }

  lemma EmittedPieces(ts: seq<Tok>, byName: map<string, SqlValue>, d: Dialect)
    requires Separated(ts) && SafeToks(ts, d) && AllBound(ts, byName)
    ensures AllOk(Pieces(ts, d), byName) && SlotsBreak(Pieces(ts, d))
  {
    var ps := Pieces(ts, d);
    forall k | 0 <= k < |ps| ensures PieceOk(ps[k], byName) { TokPieceOk(ts[k], byName, d); }
    forall k | 0 <= k < |ps| - 1 && ps[k].Slot? ensures Breaks(Named(ps[k + 1])) { CloserBreaks(ts[k + 1], d); }
  }

  lemma {:induction false} EmittedArgs(ts: seq<Tok>, d: Dialect)
    ensures PiecesArgs(Pieces(ts, d)) == ArgsAll(ts)
  {
    if ts != [] {
      assert Pieces(ts, d)[1..] == Pieces(ts[1..], d);
      EmittedArgs(ts[1..], d);
    }
  }
}

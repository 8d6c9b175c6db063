/** Reading a rebound condition the way SQL does: NOT binds tighter than AND, AND tighter than OR.
    The reader evaluates as it goes, over one row and the positional arguments. */
module SqlParsing {
  import opened Common
  import opened SqlFilter
  import opened SqlLexing

  datatype Read<+T> = Read(value: T, next: nat)

  /** What a reader works on: lexemes, arguments, and the row under test. */
  datatype Input = Input(ls: seq<Lexeme>, args: seq<SqlValue>, row: Row)

  predicate Next(u: Input, i: nat, l: Lexeme) { i < |u.ls| && u.ls[i] == l }

  /** The argument a placeholder stands for. */
  function Arg(u: Input, i: nat): Option<SqlValue> {
    if i < |u.ls| && u.ls[i].LPh? && u.ls[i].k < |u.args| then Some(u.args[u.ls[i].k]) else None
  }

  function OperatorOf(l: Lexeme): Option<CompareOp> {
    if l == LOp("=") then Some(Eq)
    else if l == LOp("<>") then Some(Ne)
    else if l == LOp("<") then Some(Lt)
    else if l == LOp("<=") then Some(Lte)
    else if l == LOp(">") then Some(Gt)
    else if l == LOp(">=") then Some(Gte)
    else if l == LWord("LIKE") then Some(Like)
    else None
  }

  /** The rest of a placeholder list, up to its closing parenthesis. */
  function ListTail(u: Input, i: nat): (r: Option<Read<seq<SqlValue>>>)
    ensures r.Some? ==> i < r.value.next <= |u.ls|
    decreases |u.ls| - i
  {
    if Next(u, i, LClose) then Some(Read([], i + 1))
    else if Next(u, i, LComma) && Arg(u, i + 1).Some? then
      var more := ListTail(u, i + 2);
      if more.None? then None else Some(Read([Arg(u, i + 1).value] + more.value.value, more.value.next))
    else None
  }

  function ListAt(u: Input, i: nat): (r: Option<Read<seq<SqlValue>>>)
    ensures r.Some? ==> i < r.value.next <= |u.ls|
  {
    if Next(u, i, LOpen) && Arg(u, i + 1).Some? then
      var more := ListTail(u, i + 2);
      if more.None? then None else Some(Read([Arg(u, i + 1).value] + more.value.value, more.value.next))
    else None
  }

  function MemberAt(u: Input, column: string, negated: bool, i: nat): (r: Option<Read<Truth>>)
    ensures r.Some? ==> i < r.value.next <= |u.ls|
  {
    var vs := ListAt(u, i);
    if vs.None? then None else Some(Read(u.row(column, Member(negated), vs.value.value), vs.value.next))
  }

  function PredicateAt(u: Input, i: nat): (r: Option<Read<Truth>>)
    ensures r.Some? ==> i < r.value.next <= |u.ls|
  {
    if i + 1 >= |u.ls| then None
    else if u.ls[i].LNum? then
      if i + 2 < |u.ls| && u.ls[i + 1] == LOp("=") && u.ls[i + 2].LNum?
      then Some(Read(if u.ls[i] == u.ls[i + 2] then True else False, i + 3))
      else None
    else if !u.ls[i].LIdent? then None
    else
      var column := u.ls[i].name;
      if OperatorOf(u.ls[i + 1]).Some? then
        if Arg(u, i + 2).None? then None
        else Some(Read(u.row(column, Cmp(OperatorOf(u.ls[i + 1]).value), [Arg(u, i + 2).value]), i + 3))
      else if u.ls[i + 1] == LWord("IN") then MemberAt(u, column, false, i + 2)
      else if u.ls[i + 1] == LWord("NOT") && Next(u, i + 2, LWord("IN")) then MemberAt(u, column, true, i + 3)
      else if u.ls[i + 1] == LWord("BETWEEN") && Next(u, i + 3, LWord("AND")) then
        if Arg(u, i + 2).None? || Arg(u, i + 4).None? then None
        else Some(Read(u.row(column, Rng, [Arg(u, i + 2).value, Arg(u, i + 4).value]), i + 5))
      else None
  }

  function Word(l: Level): Lexeme { if l == Conjunction then LWord("AND") else LWord("OR") }

  function Combine(l: Level, a: Truth, b: Truth): Truth { if l == Conjunction then And3(a, b) else Or3(a, b) }

  function PrimaryAt(u: Input, i: nat): (r: Option<Read<Truth>>)
    ensures r.Some? ==> i < r.value.next <= |u.ls|
    decreases |u.ls| - i, 0
  {
    if Next(u, i, LOpen) then
      var inner := ChainAt(u, Disjunction, i + 1);
      if inner.Some? && Next(u, inner.value.next, LClose) then Some(Read(inner.value.value, inner.value.next + 1))
      else None
    else PredicateAt(u, i)
  }

  function FactorAt(u: Input, i: nat): (r: Option<Read<Truth>>)
    ensures r.Some? ==> i < r.value.next <= |u.ls|
    decreases |u.ls| - i, 1
  {
    if Next(u, i, LWord("NOT")) then
      var body := PrimaryAt(u, i + 1);
      if body.None? then None else Some(Read(Not3(body.value.value), body.value.next))
    else PrimaryAt(u, i)
  }

  /** An operand of a chain: a factor, or a conjunction of factors. */
  function OperandAt(u: Input, l: Level, i: nat): (r: Option<Read<Truth>>)
    ensures r.Some? ==> i < r.value.next <= |u.ls|
    decreases |u.ls| - i, if l == Conjunction then 2 else 4
  {
    if l == Conjunction then FactorAt(u, i) else ChainAt(u, Conjunction, i)
  }

  function ChainAt(u: Input, l: Level, i: nat): (r: Option<Read<Truth>>)
    ensures r.Some? ==> i < r.value.next <= |u.ls|
    decreases |u.ls| - i, if l == Conjunction then 3 else 5
  {
    var first := OperandAt(u, l, i);
    if first.None? then None else RestAt(u, l, first.value.value, first.value.next)
  }

  function RestAt(u: Input, l: Level, acc: Truth, i: nat): (r: Option<Read<Truth>>)
    requires i <= |u.ls|
    ensures r.Some? ==> i <= r.value.next <= |u.ls|
    decreases |u.ls| - i, 0
  {
    if Next(u, i, Word(l)) then
      var operand := OperandAt(u, l, i + 1);
      if operand.None? then None
      else RestAt(u, l, Combine(l, acc, operand.value.value), operand.value.next)
    else Some(Read(acc, i))
  }

  /** The value of a condition: all its lexemes must be used. */
  function Evaluate(u: Input): Option<Truth> {
    var whole := ChainAt(u, Disjunction, 0);
    if whole.Some? && whole.value.next == |u.ls| then Some(whole.value.value) else None
  }
}

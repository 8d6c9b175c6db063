/** Condition expressions of task nodes: trees, their token sequences, and the parser that
    evaluates while it reads. */
module ConditionParsing {
  import opened Common
  import opened Flatten
  import opened StringOrder

  // ---- values --------------------------------------------------------------

  datatype Value = Num(n: real) | Str(s: string) | Bool(b: bool) | Null

  datatype CompareOp = Gt | Gte | Lt | Lte | Eq | Neq

  /** Results of completed nodes, and the number syntax; None is an error. */
  datatype Context = Context(resolve: string -> Option<Value>, number: string -> Option<real>)

  function AsTruthy(v: Value): bool {
    match v
    case Bool(b) => b
    case Num(n) => n != 0.0
    case Str(s) => s != ""
    case Null => false
  }

  /** An ordering operator, given how its operands are ordered. */
  predicate Holds(op: CompareOp, less: bool, greater: bool) {
    match op
    case Gt => greater
    case Gte => !less
    case Lt => less
    case Lte => !greater
    case Eq => !less && !greater
    case Neq => less || greater
  }

  predicate CompareValues(a: Value, op: CompareOp, b: Value) {
    if op == Eq then a == b
    else if op == Neq then a != b
    else if a.Num? && b.Num? then Holds(op, a.n < b.n, b.n < a.n)
    else if a.Str? && b.Str? then Holds(op, Less(a.s, b.s), Less(b.s, a.s))
    else false
  }

  // ---- trees ---------------------------------------------------------------

  datatype Operand = Path(raw: string) | Number(raw: string) | Text(raw: string) | Truth(b: bool) | Nil

  datatype Expr =
    | Or(left: Expr, right: Expr)
    | And(left: Expr, right: Expr)
    | Not(body: Expr)
    | Group(body: Expr)
    | Compare(lhs: Operand, op: CompareOp, rhs: Operand)
    | Test(operand: Operand)

  function OperandValue(ctx: Context, v: Operand): Option<Value> {
    match v
    case Path(raw) => ctx.resolve(raw)
    case Number(raw) => if ctx.number(raw).None? then None else Some(Num(ctx.number(raw).value))
    case Text(raw) => Some(Str(raw))
    case Truth(b) => Some(Bool(b))
    case Nil => Some(Null)
  }

  /** Both operands count even if the first decides: an error in either is an error of the whole. */
  function Denote(ctx: Context, e: Expr): Option<bool> {
    match e
    case Or(l, r) =>
      if Denote(ctx, l).None? || Denote(ctx, r).None? then None
      else Some(Denote(ctx, l).value || Denote(ctx, r).value)
    case And(l, r) =>
      if Denote(ctx, l).None? || Denote(ctx, r).None? then None
      else Some(Denote(ctx, l).value && Denote(ctx, r).value)
    case Not(b) => if Denote(ctx, b).None? then None else Some(!Denote(ctx, b).value)
    case Group(b) => Denote(ctx, b)
    case Compare(l, op, r) =>
      if OperandValue(ctx, l).None? || OperandValue(ctx, r).None? then None
      else Some(CompareValues(OperandValue(ctx, l).value, op, OperandValue(ctx, r).value))
    case Test(v) => if OperandValue(ctx, v).None? then None else Some(AsTruthy(OperandValue(ctx, v).value))
  }

  // ---- tokens --------------------------------------------------------------

  datatype Token = Value(operand: Operand) | Op(op: CompareOp) | AndTok | OrTok | NotTok | Open | Close | Eof | Bad

  /** Binding strength: disjunctions, conjunctions, the rest. */
  function Strength(e: Expr): nat { match e case Or(_, _) => 0 case And(_, _) => 1 case _ => 2 }

  /** The tokens of a tree where at least the given strength is required; parentheses are added
      around anything weaker. */
  function Print(e: Expr, strength: nat): seq<Token>
    decreases e, if Strength(e) < strength then 1 else 0
  {
    if Strength(e) < strength then [Open] + Print(e, 0) + [Close]
    else
      match e
      case Or(l, r) => Print(l, 0) + [OrTok] + Print(r, 1)
      case And(l, r) => Print(l, 1) + [AndTok] + Print(r, 2)
      case Not(b) => [NotTok] + Print(b, 2)
      case Group(b) => [Open] + Print(b, 0) + [Close]
      case Compare(l, op, r) => [Value(l), Op(op), Value(r)]
      case Test(v) => [Value(v)]
  }

  /** No boolean literal is the left side of a comparison. */
  predicate Regular(e: Expr) {
    match e
    case Or(l, r) => Regular(l) && Regular(r)
    case And(l, r) => Regular(l) && Regular(r)
    case Not(b) => Regular(b)
    case Group(b) => Regular(b)
    case Compare(l, _, _) => !l.Truth?
    case Test(_) => true
  }

  // ---- the parser ----------------------------------------------------------

  datatype Read = Read(value: bool, next: nat)

  /** The list ends with its only end marker. */
  ghost predicate Terminated(ts: seq<Token>) {
    ts != [] && ts[|ts| - 1] == Eof && forall i :: 0 <= i < |ts| - 1 ==> ts[i] != Eof
  }

  type Tokens = ts: seq<Token> | Terminated(ts) ghost witness [Eof]

  function Word(l: Level): Token { if l == Conjunction then AndTok else OrTok }

  function Combine(l: Level, a: bool, b: bool): bool { if l == Conjunction then a && b else a || b }

  /** A chain of operands at one level, evaluated from left to right. */
  function ChainAt(ts: Tokens, ctx: Context, l: Level, i: nat): (r: Option<Read>)
    requires i < |ts|
    ensures r.Some? ==> i < r.value.next < |ts|
    decreases |ts| - i, if l == Conjunction then 3 else 5
  {
    var first := OperandAt(ts, ctx, l, i);
    if first.None? then None else RestAt(ts, ctx, l, first.value.value, first.value.next)
  }

  function OperandAt(ts: Tokens, ctx: Context, l: Level, i: nat): (r: Option<Read>)
    requires i < |ts|
    ensures r.Some? ==> i < r.value.next < |ts|
    decreases |ts| - i, if l == Conjunction then 2 else 4
  {
    if l == Conjunction then NotAt(ts, ctx, i) else ChainAt(ts, ctx, Conjunction, i)
  }

  function RestAt(ts: Tokens, ctx: Context, l: Level, acc: bool, i: nat): (r: Option<Read>)
    requires i < |ts|
    ensures r.Some? ==> i <= r.value.next < |ts|
    decreases |ts| - i, 0
  {
    if ts[i] != Word(l) then Some(Read(acc, i))
    else
      var operand := OperandAt(ts, ctx, l, i + 1);
      if operand.None? then None else RestAt(ts, ctx, l, Combine(l, acc, operand.value.value), operand.value.next)
  }

  function NotAt(ts: Tokens, ctx: Context, i: nat): (r: Option<Read>)
    requires i < |ts|
    ensures r.Some? ==> i < r.value.next < |ts|
    decreases |ts| - i, 1
  {
    if ts[i] == NotTok then
      var body := NotAt(ts, ctx, i + 1);
      if body.None? then None else Some(Read(!body.value.value, body.value.next))
    else ComparisonAt(ts, ctx, i)
  }

  function ComparisonAt(ts: Tokens, ctx: Context, i: nat): (r: Option<Read>)
    requires i < |ts|
    ensures r.Some? ==> i < r.value.next < |ts|
    decreases |ts| - i, 0
  {
    if ts[i] == Open then
      var inner := ChainAt(ts, ctx, Disjunction, i + 1);
      if inner.None? || ts[inner.value.next] != Close then None else Some(Read(inner.value.value, inner.value.next + 1))
    else if !ts[i].Value? then None
    else if ts[i].operand.Truth? then Some(Read(ts[i].operand.b, i + 1))
    else
      var lhs := OperandValue(ctx, ts[i].operand);
      if lhs.None? then None
      else if !ts[i + 1].Op? then Some(Read(AsTruthy(lhs.value), i + 1))
      else if !ts[i + 2].Value? then None
      else
        var rhs := OperandValue(ctx, ts[i + 2].operand);
        if rhs.None? then None else Some(Read(CompareValues(lhs.value, ts[i + 1].op, rhs.value), i + 3))
  }

  // ---- reading a printed tree ----------------------------------------------

  function Answer(o: Option<bool>, e: nat): Option<Read> { if o.None? then None else Some(Read(o.value, e)) }

  /** What reading a tree that is printed at a strength amounts to. The read ends at the first
      comparison whose left side is a boolean literal, with that literal in place of the comparison
      and of all that follows; it fails if a parenthesis is still open there. */
  function CutValue(ctx: Context, t: Expr, strength: nat): Option<bool>
    decreases t
  {
    if Regular(t) then Denote(ctx, t)
    else if Strength(t) < strength then None
    else
      match t
      case Or(l, r) =>
        if Regular(l) then Joined(Disjunction, Denote(ctx, l), CutValue(ctx, r, 1)) else CutValue(ctx, l, 0)
      case And(l, r) =>
        if Regular(l) then Joined(Conjunction, Denote(ctx, l), CutValue(ctx, r, 2)) else CutValue(ctx, l, 1)
      case Not(b) => var o := CutValue(ctx, b, 2); if o.None? then None else Some(!o.value)
      case Group(_) => None
      case Compare(l, _, _) => Some(l.b)
      case Test(_) => None
  }

  function Joined(l: Level, a: Option<bool>, b: Option<bool>): Option<bool> {
    if a.None? || b.None? then None else Some(Combine(l, a.value, b.value))
  }

  /** A read that stopped inside a tree, at a comparison operator, with this value; or failed. */
  predicate Stuck(ts: Tokens, r: Option<Read>, o: Option<bool>, i: nat, e: nat) {
    && (r.None? <==> o.None?)
    && (r.Some? ==> r.value.value == o.value && i < r.value.next < e <= |ts| && ts[r.value.next].Op?)
  }

  ghost predicate ReadsTree(ts: Tokens, ctx: Context, t: Expr, strength: nat, r: Option<Read>, i: nat, e: nat) {
    if Regular(t) then r == Answer(Denote(ctx, t), e) else Stuck(ts, r, CutValue(ctx, t, strength), i, e)
  }

  function Required(l: Level): nat { if l == Conjunction then 1 else 0 }

  function Continued(ts: Tokens, ctx: Context, l: Level, o: Option<bool>, e: nat): Option<Read>
    requires e < |ts|
  {
    if o.None? then None else RestAt(ts, ctx, l, o.value, e)
  }

  ghost predicate ReadsChain(ts: Tokens, ctx: Context, l: Level, t: Expr, r: Option<Read>, i: nat, e: nat)
    requires e < |ts|
  {
    if Regular(t) then r == Continued(ts, ctx, l, Denote(ctx, t), e)
    else Stuck(ts, r, CutValue(ctx, t, Required(l)), i, e)
  }

  /** What may come behind a tree read at a level. */
  predicate Follow(l: Level, t: Token) { !t.Op? && (l == Disjunction ==> t != AndTok) }

  predicate Splits(l: Level, t: Expr) { if l == Conjunction then t.And? else t.Or? }

  lemma TokenAt(ts: seq<Token>, i: nat, t: Token)
    requires At(ts, i, [t])
    ensures i < |ts| && ts[i] == t
  {
    assert ts[i] == ts[i..i + 1][0];
  }

  lemma PrintSingle(l: Level, t: Expr)
    requires !Splits(l, t)
    ensures Print(t, Required(l)) == Print(t, Required(l) + 1) != []
  {
    PrintedTokens(t, Required(l));
  }

  lemma PrintBinary(l: Level, t: Expr)
    requires Splits(l, t)
    ensures Print(t, Required(l)) == Print(t.left, Required(l)) + [Word(l)] + Print(t.right, Required(l) + 1)
    ensures Print(t.left, Required(l)) != [] && Print(t.right, Required(l) + 1) != []
  {
    PrintedTokens(t.left, Required(l));
    PrintedTokens(t.right, Required(l) + 1);
  }

  lemma Binary(ts: seq<Token>, i: nat, l: Level, t: Expr)
    requires Splits(l, t) && At(ts, i, Print(t, Required(l)))
    ensures var e := i + |Print(t.left, Required(l))|;
            && At(ts, i, Print(t.left, Required(l))) && e < |ts| && ts[e] == Word(l)
            && At(ts, e + 1, Print(t.right, Required(l) + 1))
            && |Print(t, Required(l))| == |Print(t.left, Required(l))| + 1 + |Print(t.right, Required(l) + 1)|
            && Print(t.left, Required(l)) != [] && Print(t.right, Required(l) + 1) != []
  {
    hide Print;
    var a, b := Print(t.left, Required(l)), Print(t.right, Required(l) + 1);
    PrintBinary(l, t);
    assert a + [Word(l)] + b == a + ([Word(l)] + b);
    AtSplit(ts, i, a, [Word(l)] + b);
    AtSplit(ts, i + |a|, [Word(l)], b);
    TokenAt(ts, i + |a|, Word(l));
  }

  lemma Enclosed(ts: seq<Token>, i: nat, inner: seq<Token>)
    requires At(ts, i, [Open] + inner + [Close])
    ensures i < |ts| && ts[i] == Open && At(ts, i + 1, inner) && i + 1 + |inner| < |ts| && ts[i + 1 + |inner|] == Close
  {
    AtSplit(ts, i, [Open] + inner, [Close]);
    AtSplit(ts, i, [Open], inner);
    TokenAt(ts, i, Open);
    TokenAt(ts, i + 1 + |inner|, Close);
  }

  lemma RestStuck(ts: Tokens, ctx: Context, l: Level, acc: bool, i: nat)
    requires i < |ts| && ts[i].Op?
    ensures RestAt(ts, ctx, l, acc, i) == Some(Read(acc, i))
  {
  }

  lemma {:induction false} ChainReads(ts: Tokens, ctx: Context, l: Level, t: Expr, i: nat, e: nat)
    requires At(ts, i, Print(t, Required(l))) && e == i + |Print(t, Required(l))| < |ts| && Follow(l, ts[e])
    ensures i < |ts| && ReadsChain(ts, ctx, l, t, ChainAt(ts, ctx, l, i), i, e)
    decreases |Print(t, Required(l))|, if l == Conjunction then 2 else 4
  {
    hide ReadsChain, ReadsTree, ChainAt, OperandAt, Print;
    if Splits(l, t) {
      var m := i + |Print(t.left, Required(l))|;
      Binary(ts, i, l, t);
      ChainReads(ts, ctx, l, t.left, i, m);
      OperandReads(ts, ctx, l, t.right, m + 1, e);
      BinaryReads(ts, ctx, l, t, i, m, e);
    } else {
      PrintSingle(l, t);
      OperandReads(ts, ctx, l, t, i, e);
      SingleReads(ts, ctx, l, t, i, e);
    }
  }

  lemma SingleReads(ts: Tokens, ctx: Context, l: Level, t: Expr, i: nat, e: nat)
    requires !Splits(l, t) && i < e < |ts| && ReadsTree(ts, ctx, t, Required(l) + 1, OperandAt(ts, ctx, l, i), i, e)
    ensures ReadsChain(ts, ctx, l, t, ChainAt(ts, ctx, l, i), i, e)
  {
    if !Regular(t) && OperandAt(ts, ctx, l, i).Some? {
      var r := OperandAt(ts, ctx, l, i).value;
      RestStuck(ts, ctx, l, r.value, r.next);
    }
  }

  lemma BinaryReads(ts: Tokens, ctx: Context, l: Level, t: Expr, i: nat, m: nat, e: nat)
    requires Splits(l, t) && i < m < m + 1 < e < |ts| && ts[m] == Word(l)
    requires ReadsChain(ts, ctx, l, t.left, ChainAt(ts, ctx, l, i), i, m)
    requires ReadsTree(ts, ctx, t.right, Required(l) + 1, OperandAt(ts, ctx, l, m + 1), m + 1, e)
    ensures ReadsChain(ts, ctx, l, t, ChainAt(ts, ctx, l, i), i, e)
  {
    if Regular(t.left) && !Regular(t.right) && Denote(ctx, t.left).Some? && OperandAt(ts, ctx, l, m + 1).Some? {
      var r := OperandAt(ts, ctx, l, m + 1).value;
      RestStuck(ts, ctx, l, Combine(l, Denote(ctx, t.left).value, r.value), r.next);
    }
  }

  lemma {:induction false} OperandReads(ts: Tokens, ctx: Context, l: Level, t: Expr, i: nat, e: nat)
    requires At(ts, i, Print(t, Required(l) + 1)) && e == i + |Print(t, Required(l) + 1)| < |ts|
    requires Follow(l, ts[e])
    ensures i < |ts| && ReadsTree(ts, ctx, t, Required(l) + 1, OperandAt(ts, ctx, l, i), i, e)
    decreases |Print(t, Required(l) + 1)|, if l == Conjunction then 1 else 3
  {
    if l == Conjunction { NotReads(ts, ctx, t, i, e); } else { ChainReads(ts, ctx, Conjunction, t, i, e); }
  }

  lemma GroupReads(ts: Tokens, ctx: Context, t: Expr, i: nat, m: nat)
    requires i < i + 1 < m < |ts| && ts[i] == Open && ts[m] == Close
    requires ReadsChain(ts, ctx, Disjunction, t, ChainAt(ts, ctx, Disjunction, i + 1), i + 1, m)
    ensures if Regular(t) then NotAt(ts, ctx, i) == Answer(Denote(ctx, t), m + 1) else NotAt(ts, ctx, i) == None
  {
  }

  lemma {:induction false} ParenReads(ts: Tokens, ctx: Context, t: Expr, i: nat, e: nat)
    requires At(ts, i, [Open] + Print(t, 0) + [Close]) && e == i + |Print(t, 0)| + 2 < |ts|
    ensures i < |ts| && if Regular(t) then NotAt(ts, ctx, i) == Answer(Denote(ctx, t), e) else NotAt(ts, ctx, i) == None
    decreases |Print(t, 0)|, 5
  {
    Enclosed(ts, i, Print(t, 0));
    ChainReads(ts, ctx, Disjunction, t, i + 1, e - 1);
    GroupReads(ts, ctx, t, i, e - 1);
  }

  lemma CompareReads(ts: Tokens, ctx: Context, l: Operand, op: CompareOp, r: Operand, i: nat)
    requires At(ts, i, [Value(l), Op(op), Value(r)]) && i + 3 < |ts|
    ensures ReadsTree(ts, ctx, Compare(l, op, r), 2, NotAt(ts, ctx, i), i, i + 3)
  {
    assert [Value(l), Op(op), Value(r)] == [Value(l)] + ([Op(op)] + [Value(r)]);
    AtSplit(ts, i, [Value(l)], [Op(op)] + [Value(r)]);
    AtSplit(ts, i + 1, [Op(op)], [Value(r)]);
    TokenAt(ts, i, Value(l));
    TokenAt(ts, i + 1, Op(op));
    TokenAt(ts, i + 2, Value(r));
  }

  lemma {:induction false} NotReads(ts: Tokens, ctx: Context, t: Expr, i: nat, e: nat)
    requires At(ts, i, Print(t, 2)) && e == i + |Print(t, 2)| < |ts| && !ts[e].Op?
    ensures i < |ts| && ReadsTree(ts, ctx, t, 2, NotAt(ts, ctx, i), i, e)
    decreases |Print(t, 2)|, 0
  {
    if Strength(t) < 2 {
      ParenReads(ts, ctx, t, i, e);
    } else {
      match t
      case Not(b) =>
        AtSplit(ts, i, [NotTok], Print(b, 2));
        TokenAt(ts, i, NotTok);
        NotReads(ts, ctx, b, i + 1, e);
      case Group(b) => ParenReads(ts, ctx, b, i, e);
      case Compare(l, op, r) =>
        CompareReads(ts, ctx, l, op, r, i);
      case Test(v) =>
        TokenAt(ts, i, Value(v));
    }
  }

  lemma {:induction false} PrintedTokens(t: Expr, strength: nat)
    ensures Print(t, strength) != [] && Eof !in Print(t, strength)
    decreases t, if Strength(t) < strength then 1 else 0
  {
    if Strength(t) < strength {
      PrintedTokens(t, 0);
    } else {
      match t
      case Or(l, r) => PrintedTokens(l, 0); PrintedTokens(r, 1);
      case And(l, r) => PrintedTokens(l, 1); PrintedTokens(r, 2);
      case Not(b) => PrintedTokens(b, 2);
      case Group(b) => PrintedTokens(b, 0);
      case Compare(_, _, _) =>
      case Test(_) =>
    }
  }

  function Printed(t: Expr): Tokens {
    PrintedTokens(t, 0);
    Print(t, 0) + [Eof]
  }

  /** The printed form of every tree is evaluated to its value up to the cut, which is what the tree
      denotes if no boolean literal stands on the left of a comparison; the parser reaches the end
      marker exactly if no literal does and no operand is in error. */
  lemma PrintedEvaluates(ctx: Context, t: Expr)
    ensures Regular(t) ==> ChainAt(Printed(t), ctx, Disjunction, 0) == Answer(Denote(ctx, t), |Print(t, 0)|)
    ensures var r := ChainAt(Printed(t), ctx, Disjunction, 0);
            (if r.None? then None else Some(r.value.value)) == CutValue(ctx, t, 0)
    ensures var r := ChainAt(Printed(t), ctx, Disjunction, 0);
            r.Some? && Printed(t)[r.value.next] == Eof <==> Regular(t) && Denote(ctx, t).Some?
  {
    var ts, n := Printed(t), |Print(t, 0)|;
    assert ts[0..n] == Print(t, 0);
    ChainReads(ts, ctx, Disjunction, t, 0, n);
  }

  // ---- every successful read is a tree -------------------------------------

  ghost predicate Explains(ts: Tokens, ctx: Context, t: Expr, strength: nat, i: nat, r: Read) {
    && i <= r.next <= |ts| && ts[i..r.next] == Print(t, strength)
    && Regular(t) && Denote(ctx, t) == Some(r.value)
  }

  lemma {:induction false} ChainTree(ts: Tokens, ctx: Context, l: Level, i: nat) returns (t: Expr)
    requires i < |ts| && ChainAt(ts, ctx, l, i).Some?
    ensures Explains(ts, ctx, t, Required(l), i, ChainAt(ts, ctx, l, i).value) && Strength(t) >= Required(l)
    decreases |ts| - i, if l == Conjunction then 3 else 5
  {
    var first := OperandTree(ts, ctx, l, i);
    var r := OperandAt(ts, ctx, l, i).value;
    Weaker(first, Required(l));
    t := RestTree(ts, ctx, l, i, first, r);
  }

  lemma Weaker(t: Expr, strength: nat)
    requires Strength(t) > strength
    ensures Print(t, strength) == Print(t, strength + 1)
  {
  }

  lemma {:induction false} OperandTree(ts: Tokens, ctx: Context, l: Level, i: nat) returns (t: Expr)
    requires i < |ts| && OperandAt(ts, ctx, l, i).Some?
    ensures Explains(ts, ctx, t, Required(l) + 1, i, OperandAt(ts, ctx, l, i).value) && Strength(t) > Required(l)
    decreases |ts| - i, if l == Conjunction then 2 else 4
  {
    if l == Conjunction {
      t := NotTree(ts, ctx, i);
    } else {
      t := ChainTree(ts, ctx, Conjunction, i);
    }
  }

  lemma BothTree(ts: Tokens, ctx: Context, l: Level, i: nat, left: Expr, r: Read, right: Expr, q: Read)
    returns (t: Expr)
    requires r.next < |ts| && ts[r.next] == Word(l)
    requires Explains(ts, ctx, left, Required(l), i, r) && Explains(ts, ctx, right, Required(l) + 1, r.next + 1, q)
    ensures Explains(ts, ctx, t, Required(l), i, Read(Combine(l, r.value, q.value), q.next))
            && Strength(t) == Required(l)
  {
    t := if l == Conjunction then And(left, right) else Or(left, right);
    assert ts[i..q.next] == ts[i..r.next] + [ts[r.next]] + ts[r.next + 1..q.next];
  }

  lemma {:induction false} RestTree(ts: Tokens, ctx: Context, l: Level, i: nat, left: Expr, r: Read) returns (t: Expr)
    requires r.next < |ts| && Explains(ts, ctx, left, Required(l), i, r) && Strength(left) >= Required(l)
    requires RestAt(ts, ctx, l, r.value, r.next).Some?
    ensures Explains(ts, ctx, t, Required(l), i, RestAt(ts, ctx, l, r.value, r.next).value)
            && Strength(t) >= Required(l)
    decreases |ts| - r.next, 0
  {
    t := left;
    if ts[r.next] == Word(l) {
      var right := OperandTree(ts, ctx, l, r.next + 1);
      var q := OperandAt(ts, ctx, l, r.next + 1).value;
      var both := BothTree(ts, ctx, l, i, left, r, right, q);
      t := RestTree(ts, ctx, l, i, both, Read(Combine(l, r.value, q.value), q.next));
    }
  }

  lemma {:induction false} NotTree(ts: Tokens, ctx: Context, i: nat) returns (t: Expr)
    requires i < |ts| && NotAt(ts, ctx, i).Some?
    ensures Explains(ts, ctx, t, 2, i, NotAt(ts, ctx, i).value) && Strength(t) == 2
    decreases |ts| - i, 1
  {
    if ts[i] == NotTok {
      var b := NotTree(ts, ctx, i + 1);
      t := Not(b);
    } else if ts[i] == Open {
      var b := ChainTree(ts, ctx, Disjunction, i + 1);
      t := Group(b);
    } else {
      t := LeafTree(ts, ctx, i);
    }
  }

  lemma LeafTree(ts: Tokens, ctx: Context, i: nat) returns (t: Expr)
    requires i < |ts| && ts[i] != Open && ComparisonAt(ts, ctx, i).Some?
    ensures Explains(ts, ctx, t, 2, i, ComparisonAt(ts, ctx, i).value) && Strength(t) == 2
  {
    if ts[i].operand.Truth? || !ts[i + 1].Op? {
      t := Test(ts[i].operand);
    } else {
      t := Compare(ts[i].operand, ts[i + 1].op, ts[i + 2].operand);
    }
  }
}

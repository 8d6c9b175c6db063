/** What the comparison operators of conditions mean on each kind of value. */
module ConditionValues {
  import opened Common
  import opened ConditionParsing
  import opened StringOrder

  /** Literals stand for themselves; a number or a path that cannot be read is an error. */
  lemma OperandsMean(ctx: Context, raw: string, b: bool)
    ensures OperandValue(ctx, Text(raw)) == Some(Str(raw))
    ensures OperandValue(ctx, Truth(b)) == Some(Bool(b)) && OperandValue(ctx, Nil) == Some(Null)
    ensures OperandValue(ctx, Path(raw)) == ctx.resolve(raw)
    ensures ctx.number(raw).None? ==> OperandValue(ctx, Number(raw)).None?
    ensures ctx.number(raw).Some? ==> OperandValue(ctx, Number(raw)) == Some(Num(ctx.number(raw).value))
  {
  }

  lemma NumbersCompare(x: real, y: real)
    ensures CompareValues(Num(x), Gt, Num(y)) <==> x > y
    ensures CompareValues(Num(x), Gte, Num(y)) <==> x >= y
    ensures CompareValues(Num(x), Lt, Num(y)) <==> x < y
    ensures CompareValues(Num(x), Lte, Num(y)) <==> x <= y
    ensures CompareValues(Num(x), Eq, Num(y)) <==> x == y
    ensures CompareValues(Num(x), Neq, Num(y)) <==> x != y
  {
  }

  /** s and t agree up to position n, where s ends or has the smaller character. */
  ghost predicate BeforeAt(s: string, t: string, n: nat) {
    n <= |s| && n < |t| && s[..n] == t[..n] && (n == |s| || s[n] < t[n])
  }

  ghost predicate Before(s: string, t: string) { exists n: nat :: BeforeAt(s, t, n) }

  lemma {:induction false} LessBefore(s: string, t: string) returns (n: nat)
    requires Less(s, t)
    ensures BeforeAt(s, t, n)
  {
    n := 0;
    if s != [] && s[0] == t[0] {
      var m := LessBefore(s[1..], t[1..]);
      n := m + 1;
      assert s[..n] == [s[0]] + s[1..][..m] && t[..n] == [t[0]] + t[1..][..m];
    }
  }

  lemma {:induction false} BeforeLess(s: string, t: string, n: nat)
    requires BeforeAt(s, t, n)
    ensures Less(s, t)
    decreases n
  {
    if n > 0 {
      assert s[0] == s[..n][0] && t[0] == t[..n][0];
      assert s[1..][..n - 1] == s[..n][1..] && t[1..][..n - 1] == t[..n][1..];
      BeforeLess(s[1..], t[1..], n - 1);
    }
  }

  lemma LessIsBefore(s: string, t: string)
    ensures Less(s, t) <==> Before(s, t)
  {
    if Less(s, t) {
      var n := LessBefore(s, t);
    } else if n: nat :| BeforeAt(s, t, n) {
      BeforeLess(s, t, n);
    }
  }

  lemma StringsCompare(s: string, t: string)
    ensures CompareValues(Str(s), Gt, Str(t)) <==> Before(t, s)
    ensures CompareValues(Str(s), Gte, Str(t)) <==> Before(t, s) || s == t
    ensures CompareValues(Str(s), Lt, Str(t)) <==> Before(s, t)
    ensures CompareValues(Str(s), Lte, Str(t)) <==> Before(s, t) || s == t
    ensures CompareValues(Str(s), Eq, Str(t)) <==> s == t
    ensures CompareValues(Str(s), Neq, Str(t)) <==> s != t
  {
    LessIsBefore(s, t);
    LessIsBefore(t, s);
    LessTotal(s, t);
    LessIrreflexive(s);
    if Less(s, t) { LessAsymmetric(s, t); }
  }

  /** Values of other or of different kinds are not ordered; equality tells kinds apart. */
  lemma OthersCompare(a: Value, b: Value)
    requires !(a.Num? && b.Num?) && !(a.Str? && b.Str?)
    ensures !CompareValues(a, Gt, b) && !CompareValues(a, Gte, b)
    ensures !CompareValues(a, Lt, b) && !CompareValues(a, Lte, b)
    ensures CompareValues(a, Eq, b) <==> (a == Null && b == Null) || (a.Bool? && b.Bool? && a.b == b.b)
    ensures CompareValues(a, Neq, b) <==> !CompareValues(a, Eq, b)
  {
  }

  /** Alone, a value counts as false if it is null, false, zero or empty. */
  lemma FalseValues(v: Value)
    ensures !AsTruthy(v) <==> v in {Null, Bool(false), Num(0.0), Str("")}
  {
  }
}

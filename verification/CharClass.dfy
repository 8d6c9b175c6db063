/** Runs of characters of a class. */
module CharClass {
  import opened Decimal
  import opened Flatten

  predicate IsLetter(c: char) { 'a' <= c <= 'z' || 'A' <= c <= 'Z' }

  predicate IsAlnum(c: char) { IsDigit(c) || IsLetter(c) }

  predicate IsOpChar(c: char) { c == '=' || c == '<' || c == '>' }

  datatype Class = Letters | Digits | OpChars | PathChars | NumberChars | WordChars | Unquoted

  predicate InClass(c: char, k: Class) {
    match k
    case Letters => IsLetter(c)
    case Digits => IsDigit(c)
    case OpChars => IsOpChar(c)
    case PathChars => IsAlnum(c) || c == '_' || c == '.' || c == '$'
    case NumberChars => IsDigit(c) || c == '.'
    case WordChars => IsAlnum(c)
    case Unquoted => c != '\"'
  }

  /** End of the run of characters of a class that starts at i. */
  function RunEnd(s: string, i: nat, k: Class): (e: nat)
    requires i <= |s|
    ensures i <= e <= |s| && (i < |s| && InClass(s[i], k) ==> i < e)
    decreases |s| - i
  {
    if i < |s| && InClass(s[i], k) then RunEnd(s, i + 1, k) else i
  }

  ghost predicate Ends(s: string, i: nat, k: Class) { i >= |s| || !InClass(s[i], k) }

  lemma {:induction false} RunEndIs(s: string, i: nat, e: nat, k: Class)
    requires i <= e <= |s| && (forall j :: i <= j < e ==> InClass(s[j], k)) && Ends(s, e, k)
    ensures RunEnd(s, i, k) == e
    decreases e - i
  {
    if i < e { RunEndIs(s, i + 1, e, k); }
  }

  ghost predicate AllIn(s: string, k: Class) { forall i :: 0 <= i < |s| ==> InClass(s[i], k) }

  lemma RunEndAt(s: string, i: nat, w: string, k: Class)
    requires At(s, i, w) && AllIn(w, k) && Ends(s, i + |w|, k)
    ensures RunEnd(s, i, k) == i + |w|
  {
    forall j | i <= j < i + |w| ensures InClass(s[j], k) { assert s[j] == s[i..i + |w|][j - i] == w[j - i]; }
    RunEndIs(s, i, i + |w|, k);
  }

  lemma CharsAt(s: string, i: nat, text: string)
    requires At(s, i, text)
    ensures forall j :: 0 <= j < |text| ==> s[i + j] == text[j]
  {
    assert forall j :: 0 <= j < |text| ==> s[i..i + |text|][j] == text[j];
  }
}

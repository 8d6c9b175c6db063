/** The NPS required-features header: a canonical text for a list of feature selections. */
module FeatureHeader {
  import opened Common
  import opened Decimal
  import opened Flatten
  import opened StringOrder

  datatype Selection = Selection(id: string, revision: uint16)

  // ---- splitting and joining -----------------------------------------------

  function Split(s: string, c: char): (r: seq<string>)
    ensures r != []
  {
    if s == "" then [""]
    else
      var last, before := s[|s| - 1], Split(s[..|s| - 1], c);
      if last == c then before + [""] else before[..|before| - 1] + [before[|before| - 1] + [last]]
  }

  lemma {:induction false} SplitPlain(s: string, c: char)
    requires c !in s
    ensures Split(s, c) == [s]
  {
    if s != "" {
      SplitPlain(s[..|s| - 1], c);
      assert s == s[..|s| - 1] + [s[|s| - 1]];
    }
  }

  /** A text extended by one separator and a piece without separators. */
  lemma {:induction false} SplitSnoc(s: string, c: char, t: string)
    requires c !in t
    ensures Split(s + [c] + t, c) == Split(s, c) + [t]
  {
    var u := s + [c] + t;
    if t == "" {
      assert u[..|u| - 1] == s;
    } else {
      var n := |t| - 1;
      assert u[..|u| - 1] == s + [c] + t[..n];
      SplitSnoc(s, c, t[..n]);
      assert t == t[..n] + [t[n]];
      assert (Split(s, c) + [t[..n]])[..|Split(s, c)|] == Split(s, c);
    }
  }

  lemma {:induction false} SplitJoin(parts: seq<string>, c: char)
    requires parts != [] && forall i :: 0 <= i < |parts| ==> c !in parts[i]
    ensures Split(JoinStrings(parts, [c]), c) == parts
  {
    var n := |parts| - 1;
    if n == 0 {
      SplitPlain(parts[0], c);
    } else {
      SplitJoin(parts[..n], c);
      SplitSnoc(JoinStrings(parts[..n], [c]), c, parts[n]);
      assert parts == parts[..n] + [parts[n]];
    }
  }

  lemma JoinGrow(before: seq<string>, piece: string, x: char, c: char)
    ensures JoinStrings(before + [piece + [x]], [c]) == JoinStrings(before + [piece], [c]) + [x]
  {
    assert (before + [piece])[..|before|] == before && (before + [piece + [x]])[..|before|] == before;
    if before != [] {
      var joined := JoinStrings(before, [c]) + [c];
      assert joined + (piece + [x]) == joined + piece + [x];
    }
  }

  lemma {:induction false} JoinSplit(s: string, c: char)
    ensures JoinStrings(Split(s, c), [c]) == s
    ensures forall i :: 0 <= i < |Split(s, c)| ==> c !in Split(s, c)[i]
  {
    if s != "" {
      var n := |s| - 1;
      var before := Split(s[..n], c);
      var k := |before| - 1;
      JoinSplit(s[..n], c);
      assert s == s[..n] + [s[n]];
      if s[n] == c {
        assert (before + [""])[..|before|] == before;
      } else {
        JoinGrow(before[..k], before[k], s[n], c);
        assert before[..k] + [before[k]] == before;
      }
    }
  }

  // ---- names and revisions -------------------------------------------------

  predicate IsLower(c: char) { 'a' <= c <= 'z' }

  /** First segment of a name: a letter, then letters and digits. */
  predicate FirstSegment(s: string) {
    s != "" && IsLower(s[0]) && forall i :: 0 <= i < |s| ==> IsLower(s[i]) || IsDigit(s[i])
  }

  predicate LaterSegment(s: string) {
    s != "" && IsLower(s[0]) &&
    forall i :: 0 <= i < |s| ==> IsLower(s[i]) || IsDigit(s[i]) || s[i] == '_' || s[i] == '-'
  }

  predicate NameOk(id: string) {
    var segments := Split(id, '.');
    && |id| <= 96 && |segments| >= 2 && FirstSegment(segments[0])
    && forall i :: 1 <= i < |segments| ==> LaterSegment(segments[i])
  }

  predicate NameChar(c: char) { IsLower(c) || IsDigit(c) || c == '_' || c == '-' || c == '.' }

  lemma {:induction false} JoinChars(parts: seq<string>, x: char)
    requires forall i :: 0 <= i < |parts| ==> x !in parts[i]
    requires x != '.'
    ensures x !in JoinStrings(parts, ".")
  {
    if |parts| > 1 { JoinChars(parts[..|parts| - 1], x); }
  }

  /** Names hold none of the header's separators, nor anything outside ASCII. */
  lemma NameHas(id: string, x: char)
    requires NameOk(id) && !NameChar(x)
    ensures x !in id && id != ""
  {
    var segments := Split(id, '.');
    JoinSplit(id, '.');
    forall i | 0 <= i < |segments| ensures x !in segments[i] {
      if i == 0 { assert FirstSegment(segments[0]); } else { assert LaterSegment(segments[i]); }
    }
    JoinChars(segments, x);
  }

  predicate DigitsOk(v: string) {
    && 1 <= |v| <= 5 && v[0] != '0' && (forall i :: 0 <= i < |v| ==> IsDigit(v[i]))
    && Val(v) <= 65535
  }

  lemma ValPositive(v: string)
    requires v != "" && v[0] != '0' && forall i :: 0 <= i < |v| ==> IsDigit(v[i])
    ensures Val(v) >= 1
  {
    if |v| > 1 { ValPositive(v[..|v| - 1]); }
  }

  lemma DigitBack(c: char)
    requires IsDigit(c)
    ensures Digit(DigitValue(c)) == c
  {
  }

  /** A numeral without leading zero is the notation of its value. */
  lemma {:induction false} DecVal(v: string)
    requires v != "" && v[0] != '0' && forall i :: 0 <= i < |v| ==> IsDigit(v[i])
    ensures Dec(Val(v)) == v && Val(v) >= 1
  {
    var n := |v| - 1;
    DigitBack(v[n]);
    ValPositive(v);
    if n == 0 {
      assert v[..0] == "";
      assert v == [v[0]];
    } else {
      DecVal(v[..n]);
      assert Val(v) / 10 == Val(v[..n]) && Val(v) % 10 == DigitValue(v[n]);
      assert v == v[..n] + [v[n]];
    }
  }

  lemma {:induction false} DecNoZero(n: nat)
    requires n > 0
    ensures Dec(n)[0] != '0'
  {
    if n >= 10 { DecNoZero(n / 10); }
  }

  lemma DecShort(n: nat)
    requires n <= 65535
    ensures |Dec(n)| <= 5
  {
    DecLonger(n);
    DecLonger(n / 10);
    DecLonger(n / 10 / 10);
    DecLonger(n / 10 / 10 / 10);
    DecLonger(n / 10 / 10 / 10 / 10);
  }

  lemma DecLonger(n: nat)
    ensures |Dec(n)| == if n < 10 then 1 else |Dec(n / 10)| + 1
  {
  }

  lemma DecDigitsOk(n: nat)
    requires 1 <= n <= 65535
    ensures DigitsOk(Dec(n)) && Val(Dec(n)) == n
  {
    ValDec(n);
    DecNoZero(n);
    DecShort(n);
  }

  // ---- the header ----------------------------------------------------------

  predicate SelectionOk(x: Selection) { NameOk(x.id) && x.revision >= 1 }

  /** Lists a header can carry: named in strictly ascending order, at most 32. */
  ghost predicate Listable(xs: seq<Selection>) {
    && 1 <= |xs| <= 32 && (forall i :: 0 <= i < |xs| ==> SelectionOk(xs[i]))
    && forall i :: 0 < i < |xs| ==> Less(xs[i - 1].id, xs[i].id)
  }

  function PrintPair(x: Selection): string { x.id + "=" + Dec(x.revision) }

  function PrintPairs(xs: seq<Selection>): (r: seq<string>)
    ensures |r| == |xs|
  {
    if xs == [] then [] else PrintPairs(xs[..|xs| - 1]) + [PrintPair(xs[|xs| - 1])]
  }

  function Print(xs: seq<Selection>): string { JoinStrings(PrintPairs(xs), ",") }

  function ParsePair(pair: string): Option<Selection> {
    var parts := Split(pair, '=');
    if |parts| == 2 && NameOk(parts[0]) && DigitsOk(parts[1]) then Some(Selection(parts[0], Val(parts[1]))) else None
  }

  /** The selections of the first pairs; each name must follow the one before. */
  function ParsePairs(pairs: seq<string>): (r: Option<seq<Selection>>)
    ensures r.Some? ==> |r.value| == |pairs|
  {
    if pairs == [] then Some([])
    else
      var before, x := ParsePairs(pairs[..|pairs| - 1]), ParsePair(pairs[|pairs| - 1]);
      if before.None? || x.None? || !Less(Previous(before.value), x.value.id) then None
      else Some(before.value + [x.value])
  }

  function Previous(xs: seq<Selection>): string { if xs == [] then "" else xs[|xs| - 1].id }

  predicate Ascii(s: string) { forall i :: 0 <= i < |s| ==> s[i] as int <= 127 }

  function ParseText(raw: string): Option<seq<Selection>> {
    if |raw| > 4096 || !Ascii(raw) || |Split(raw, ',')| > 32 then None else ParsePairs(Split(raw, ','))
  }

  lemma PairSplits(x: Selection)
    requires SelectionOk(x)
    ensures Split(PrintPair(x), '=') == [x.id, Dec(x.revision)]
  {
    NameHas(x.id, '=');
    assert '=' !in Dec(x.revision);
    SplitPlain(x.id, '=');
    SplitSnoc(x.id, '=', Dec(x.revision));
  }

  lemma PairChars(x: Selection)
    requires SelectionOk(x)
    ensures ',' !in PrintPair(x) && Ascii(PrintPair(x)) && |PrintPair(x)| <= 102
  {
    hide Dec, NameOk;
    NameHas(x.id, ',');
    NameAscii(x.id);
    NameShort(x.id);
    DecDigitsOk(x.revision);
    assert ',' !in Dec(x.revision);
  }

  lemma NameShort(id: string)
    requires NameOk(id)
    ensures |id| <= 96
  {
  }

  lemma PairRoundTrip(x: Selection)
    requires SelectionOk(x)
    ensures ParsePair(PrintPair(x)) == Some(x)
    ensures ',' !in PrintPair(x) && Ascii(PrintPair(x)) && |PrintPair(x)| <= 102
  {
    hide Split, Dec, NameOk, Ascii, PrintPair;
    PairSplits(x);
    PairChars(x);
    DecDigitsOk(x.revision);
  }

  lemma NameAscii(id: string)
    requires NameOk(id)
    ensures Ascii(id)
  {
    forall i | 0 <= i < |id| ensures id[i] as int <= 127 {
      if id[i] as int > 127 { NameHas(id, id[i]); }
    }
  }

  lemma PairBack(pair: string)
    requires ParsePair(pair).Some?
    ensures SelectionOk(ParsePair(pair).value) && PrintPair(ParsePair(pair).value) == pair
  {
    var parts := Split(pair, '=');
    JoinSplit(pair, '=');
    assert parts[..1] == [parts[0]];
    assert JoinStrings(parts, "=") == parts[0] + "=" + parts[1];
    DecVal(parts[1]);
  }

  lemma EmptyFirst(id: string)
    requires id != ""
    ensures Less("", id)
  {
  }

  lemma ParseSnoc(pairs: seq<string>, pair: string, xs: seq<Selection>, x: Selection)
    requires ParsePairs(pairs) == Some(xs) && ParsePair(pair) == Some(x) && Less(Previous(xs), x.id)
    ensures ParsePairs(pairs + [pair]) == Some(xs + [x])
  {
    hide ParsePair, Less;
    assert (pairs + [pair])[..|pairs|] == pairs;
  }

  lemma FollowsPrevious(xs: seq<Selection>, n: nat)
    requires n < |xs| && SelectionOk(xs[n]) && (n > 0 ==> Less(xs[n - 1].id, xs[n].id))
    ensures Less(Previous(xs[..n]), xs[n].id)
  {
    hide NameOk;
    NameHas(xs[n].id, '=');
    EmptyFirst(xs[n].id);
  }

  lemma {:induction false} PairsRoundTrip(xs: seq<Selection>)
    requires forall i :: 0 <= i < |xs| ==> SelectionOk(xs[i])
    requires forall i :: 0 < i < |xs| ==> Less(xs[i - 1].id, xs[i].id)
    ensures ParsePairs(PrintPairs(xs)) == Some(xs)
  {
    hide PrintPair, ParsePair, Less, NameOk;
    if xs != [] {
      var n := |xs| - 1;
      PairsRoundTrip(xs[..n]);
      PairRoundTrip(xs[n]);
      FollowsPrevious(xs, n);
      ParseSnoc(PrintPairs(xs[..n]), PrintPair(xs[n]), xs[..n], xs[n]);
      assert xs == xs[..n] + [xs[n]];
    }
  }

  lemma {:induction false} PairsShape(xs: seq<Selection>)
    requires forall i :: 0 <= i < |xs| ==> SelectionOk(xs[i])
    ensures forall i :: 0 <= i < |xs| ==> ',' !in PrintPairs(xs)[i]
    ensures Ascii(Print(xs)) && |Print(xs)| <= 103 * |xs|
  {
    if xs != [] {
      var n := |xs| - 1;
      PairsShape(xs[..n]);
      PairRoundTrip(xs[n]);
      assert PrintPairs(xs)[..n] == PrintPairs(xs[..n]);
    }
  }

  /** Every listable list is read back from its text; the text always stays within the size limit. */
  lemma PrintedParses(xs: seq<Selection>)
    requires Listable(xs)
    ensures ParseText(Print(xs)) == Some(xs)
  {
    PairsShape(xs);
    PairsRoundTrip(xs);
    SplitJoin(PrintPairs(xs), ',');
  }

  lemma PairsLast(pairs: seq<string>)
    requires pairs != [] && ParsePairs(pairs).Some?
    ensures var n, xs := |pairs| - 1, ParsePairs(pairs).value;
            && ParsePairs(pairs[..n]) == Some(xs[..n]) && ParsePair(pairs[n]) == Some(xs[n])
            && Less(Previous(xs[..n]), xs[n].id)
  {
    var n, xs := |pairs| - 1, ParsePairs(pairs).value;
    assert xs[..n] == ParsePairs(pairs[..n]).value;
  }

  lemma {:induction false} PairsText(pairs: seq<string>)
    requires ParsePairs(pairs).Some?
    ensures PrintPairs(ParsePairs(pairs).value) == pairs
  {
    hide ParsePair, PrintPair, ParsePairs, Less;
    if pairs != [] {
      PairsLast(pairs);
      PairsText(pairs[..|pairs| - 1]);
      PairBack(pairs[|pairs| - 1]);
      assert pairs == pairs[..|pairs| - 1] + [pairs[|pairs| - 1]];
    }
  }

  lemma {:induction false} PairsOrdered(pairs: seq<string>)
    requires ParsePairs(pairs).Some?
    ensures var xs := ParsePairs(pairs).value;
            && (forall i :: 0 <= i < |xs| ==> SelectionOk(xs[i]))
            && forall i :: 0 < i < |xs| ==> Less(xs[i - 1].id, xs[i].id)
  {
    if pairs != [] {
      PairsLast(pairs);
      PairsOrdered(pairs[..|pairs| - 1]);
      PairBack(pairs[|pairs| - 1]);
    }
  }

  /** Every accepted text is the text of the list it is read as: no two texts say the same. */
  lemma ParsedPrints(raw: string)
    requires ParseText(raw).Some?
    ensures Listable(ParseText(raw).value) && Print(ParseText(raw).value) == raw
  {
    PairsText(Split(raw, ','));
    PairsOrdered(Split(raw, ','));
    JoinSplit(raw, ',');
  }

  /** Accepted texts and listable lists correspond one to one. */
  lemma HeaderBijection(raw: string, xs: seq<Selection>)
    ensures ParseText(raw) == Some(xs) <==> Listable(xs) && raw == Print(xs)
  {
    if ParseText(raw) == Some(xs) { ParsedPrints(raw); }
    if Listable(xs) && raw == Print(xs) { PrintedParses(xs); }
  }

  // ---- the parser ----------------------------------------------------------

  lemma {:induction false} PairsFail(pairs: seq<string>, k: nat)
    requires k <= |pairs| && ParsePairs(pairs[..k]).None?
    ensures ParsePairs(pairs).None?
    decreases |pairs|
  {
    if k == |pairs| {
      assert pairs[..k] == pairs;
    } else {
      assert pairs[..|pairs| - 1][..k] == pairs[..k];
      PairsFail(pairs[..|pairs| - 1], k);
    }
  }

  /** No instance selects nothing; more than one is an error. */
  method ParseRequiredFeatureHeader(instances: seq<string>) returns (r: Option<seq<Selection>>)
    ensures r == if instances == [] then Some([]) else if |instances| > 1 then None else ParseText(instances[0])
  {
    if |instances| > 1 { return None; }
    if |instances| == 0 { return Some([]); }
    var raw := instances[0];
    if |raw| > 4096 { return None; }
    for i := 0 to |raw|
      invariant Ascii(raw[..i])
    {
      if raw[i] as int > 127 { return None; }
    }
    assert raw[..|raw|] == raw;
    var pairs := Split(raw, ',');
    if |pairs| > 32 { return None; }
    var selected: seq<Selection>, previous := [], "";
    for k := 0 to |pairs|
      invariant ParsePairs(pairs[..k]) == Some(selected) && previous == Previous(selected)
    {
      assert pairs[..k + 1][..k] == pairs[..k];
      var parts := Split(pairs[k], '=');
      if |parts| != 2 || !NameOk(parts[0]) || !Less(previous, parts[0]) || !DigitsOk(parts[1]) {
        PairsFail(pairs, k + 1);
        return None;
      }
      selected := selected + [Selection(parts[0], Val(parts[1]))];
      previous := parts[0];
    }
    assert pairs[..|pairs|] == pairs;
    r := Some(selected);
  }
}

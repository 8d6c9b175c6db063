/** Concatenating what each element of a list contributes. */
module Flatten {

  function Flat<T, U>(xs: seq<T>, f: T -> seq<U>): seq<U> {
    if xs == [] then [] else f(xs[0]) + Flat(xs[1..], f)
  }

  function Width<T>(xs: seq<T>, w: T -> nat): nat {
    if xs == [] then 0 else w(xs[0]) + Width(xs[1..], w)
  }

  /** As Flat, each contribution also depending on the total width before it. */
  function FlatAt<T, U>(xs: seq<T>, f: (T, nat) -> seq<U>, w: T -> nat, pos: nat): seq<U> {
    if xs == [] then [] else f(xs[0], pos) + FlatAt(xs[1..], f, w, pos + w(xs[0]))
  }

  function JoinStrings(parts: seq<string>, sep: string): string {
    if parts == [] then ""
    else if |parts| == 1 then parts[0]
    else JoinStrings(parts[..|parts| - 1], sep) + sep + parts[|parts| - 1]
  }

  lemma Regroup<T>(a: seq<T>, b: seq<T>, c: seq<T>)
    ensures a + (b + c) == (a + b) + c
  {
  }

  lemma {:induction false} FlatAppend<T, U>(xs: seq<T>, ys: seq<T>, f: T -> seq<U>)
    ensures Flat(xs + ys, f) == Flat(xs, f) + Flat(ys, f)
  {
    if xs == [] {
      assert xs + ys == ys;
    } else {
      assert (xs + ys)[1..] == xs[1..] + ys;
      FlatAppend(xs[1..], ys, f);
      Regroup(f(xs[0]), Flat(xs[1..], f), Flat(ys, f));
    }
  }

  lemma FlatOne<T, U>(x: T, f: T -> seq<U>)
    ensures Flat([x], f) == f(x)
  {
    assert [x][1..] == [];
  }

  lemma {:induction false} WidthAppend<T>(xs: seq<T>, ys: seq<T>, w: T -> nat)
    ensures Width(xs + ys, w) == Width(xs, w) + Width(ys, w)
  {
    if xs == [] {
      assert xs + ys == ys;
    } else {
      assert (xs + ys)[1..] == xs[1..] + ys;
      WidthAppend(xs[1..], ys, w);
    }
  }

  lemma {:induction false} FlatAtAppend<T, U>(xs: seq<T>, ys: seq<T>, f: (T, nat) -> seq<U>, w: T -> nat, pos: nat)
    ensures FlatAt(xs + ys, f, w, pos) == FlatAt(xs, f, w, pos) + FlatAt(ys, f, w, pos + Width(xs, w))
    decreases |xs|
  {
    if xs == [] {
      assert xs + ys == ys;
    } else {
      assert (xs + ys)[1..] == xs[1..] + ys;
      FlatAtAppend(xs[1..], ys, f, w, pos + w(xs[0]));
      Regroup(f(xs[0], pos), FlatAt(xs[1..], f, w, pos + w(xs[0])), FlatAt(ys, f, w, pos + Width(xs, w)));
    }
  }

  lemma FlatAtOne<T, U>(x: T, f: (T, nat) -> seq<U>, w: T -> nat, pos: nat)
    ensures FlatAt([x], f, w, pos) == f(x, pos)
  {
    assert [x][1..] == [];
  }

  lemma {:induction false} FlatLength<T, U>(xs: seq<T>, f: T -> seq<U>, w: T -> nat)
    requires forall x :: x in xs ==> w(x) == |f(x)|
    ensures |Flat(xs, f)| == Width(xs, w)
  {
    if xs != [] { FlatLength(xs[1..], f, w); }
  }

  /** Offset of the k-th contribution. */
  function Offset<T>(xs: seq<T>, w: T -> nat, pos: nat, k: nat): nat
    requires k <= |xs|
  {
    pos + Width(xs[..k], w)
  }

  lemma FlatAtSnoc<T, U>(xs: seq<T>, f: (T, nat) -> seq<U>, w: T -> nat, pos: nat, k: nat)
    requires k < |xs|
    ensures FlatAt(xs[..k + 1], f, w, pos) == FlatAt(xs[..k], f, w, pos) + f(xs[k], Offset(xs, w, pos, k))
    ensures Offset(xs, w, pos, k + 1) == Offset(xs, w, pos, k) + w(xs[k])
  {
    assert xs[..k + 1] == xs[..k] + [xs[k]];
    FlatAtAppend(xs[..k], [xs[k]], f, w, pos);
    FlatAtOne(xs[k], f, w, Offset(xs, w, pos, k));
    WidthAppend(xs[..k], [xs[k]], w);
    assert [xs[k]][1..] == [];
  }

  /** Where the k-th contribution starts in a text that carries the list from position i on. */
  function Cut<T>(xs: seq<T>, text: (T, nat) -> string, w: T -> nat, i: nat, pos: nat, k: nat): nat
    requires k <= |xs|
  {
    i + |FlatAt(xs[..k], text, w, pos)|
  }

  /** Scanning a text element by element gives the elements' outputs one after another. */
  lemma {:induction false} ScanTo<T, U>(xs: seq<T>, text: (T, nat) -> string, out: (T, nat) -> seq<U>, w: T -> nat,
                                        lex: (nat, nat) -> seq<U>, i: nat, pos: nat, k: nat)
    requires k <= |xs|
    requires forall j :: 0 <= j < |xs| ==> ScanStep(xs, text, out, w, lex, i, pos, j)
    ensures lex(i, pos) == FlatAt(xs[..k], out, w, pos) + lex(Cut(xs, text, w, i, pos, k), Offset(xs, w, pos, k))
  {
    if k == 0 {
      assert xs[..0] == [];
      assert [] + lex(i, pos) == lex(i, pos);
    } else {
      ScanTo(xs, text, out, w, lex, i, pos, k - 1);
      assert ScanStep(xs, text, out, w, lex, i, pos, k - 1);
      FlatAtSnoc(xs, out, w, pos, k - 1);
      FlatAtSnoc(xs, text, w, pos, k - 1);
      Regroup(FlatAt(xs[..k - 1], out, w, pos), out(xs[k - 1], Offset(xs, w, pos, k - 1)),
              lex(Cut(xs, text, w, i, pos, k), Offset(xs, w, pos, k)));
    }
  }

  ghost predicate ScanStep<T, U>(xs: seq<T>, text: (T, nat) -> string, out: (T, nat) -> seq<U>, w: T -> nat,
                                 lex: (nat, nat) -> seq<U>, i: nat, pos: nat, k: nat)
    requires k < |xs|
  {
    var c, p := Cut(xs, text, w, i, pos, k), Offset(xs, w, pos, k);
    lex(c, p) == out(xs[k], p) + lex(c + |text(xs[k], p)|, p + w(xs[k]))
  }

  // ---- where the contributions lie in a text -------------------------------

  /** s continues with text at position i. */
  ghost predicate At<T>(s: seq<T>, i: nat, text: seq<T>) {
    i + |text| <= |s| && s[i..i + |text|] == text
  }

  lemma AtSplit<T>(s: seq<T>, i: nat, a: seq<T>, b: seq<T>)
    requires At(s, i, a + b)
    ensures At(s, i, a) && At(s, i + |a|, b)
  {
    var t := s[i..i + |a + b|];
    assert s[i..i + |a|] == t[..|a|] == (a + b)[..|a|] == a;
    assert s[i + |a|..i + |a| + |b|] == t[|a|..] == (a + b)[|a|..] == b;
  }

  lemma AtMiddle<T>(s: seq<T>, i: nat, a: seq<T>, b: seq<T>, c: seq<T>)
    requires At(s, i, a + (b + c))
    ensures At(s, i + |a|, b)
  {
    AtSplit(s, i, a, b + c);
    AtSplit(s, i + |a|, b, c);
  }

  lemma FlatAtHead<T, U>(xs: seq<T>, f: (T, nat) -> seq<U>, w: T -> nat, pos: nat)
    requires xs != []
    ensures FlatAt(xs, f, w, pos) == f(xs[0], pos) + FlatAt(xs[1..], f, w, pos + w(xs[0]))
  {
  }

  /** The list before, at and behind its k-th element. */
  lemma FlatAtThree<T, U>(xs: seq<T>, f: (T, nat) -> seq<U>, w: T -> nat, pos: nat, k: nat)
    requires k < |xs|
    ensures var p := Offset(xs, w, pos, k);
            FlatAt(xs, f, w, pos)
            == FlatAt(xs[..k], f, w, pos) + (f(xs[k], p) + FlatAt(xs[k..][1..], f, w, p + w(xs[k])))
  {
    assert xs == xs[..k] + xs[k..];
    FlatAtAppend(xs[..k], xs[k..], f, w, pos);
    FlatAtHead(xs[k..], f, w, Offset(xs, w, pos, k));
  }

  /** The next cut lies behind the k-th contribution; the last one where the list ends. */
  lemma NextCut<T>(xs: seq<T>, text: (T, nat) -> string, w: T -> nat, i: nat, pos: nat, k: nat)
    requires k < |xs|
    ensures Cut(xs, text, w, i, pos, k + 1) == Cut(xs, text, w, i, pos, k) + |text(xs[k], Offset(xs, w, pos, k))|
    ensures Cut(xs, text, w, i, pos, |xs|) == i + |FlatAt(xs, text, w, pos)|
  {
    hide FlatAt, Width;
    FlatAtSnoc(xs, text, w, pos, k);
    assert xs[..|xs|] == xs;
  }

  /** In a text that carries the list from position i on, the k-th contribution lies at its cut. */
  lemma AtCut<T>(s: string, xs: seq<T>, text: (T, nat) -> string, w: T -> nat, i: nat, pos: nat, k: nat)
    requires k < |xs| && At(s, i, FlatAt(xs, text, w, pos))
    ensures At(s, Cut(xs, text, w, i, pos, k), text(xs[k], Offset(xs, w, pos, k)))
  {
    hide FlatAt, Width, At;
    var p := Offset(xs, w, pos, k);
    FlatAtThree(xs, text, w, pos, k);
    AtMiddle(s, i, FlatAt(xs[..k], text, w, pos), text(xs[k], p), FlatAt(xs[k..][1..], text, w, p + w(xs[k])));
  }

  // ---- scanning a text that carries a list ---------------------------------

  /** An element that needs a break behind it gets one from the element that follows. */
  ghost predicate BreaksBetween<T(!new)>(s: string, xs: seq<T>, text: (T, nat) -> string, w: T -> nat,
                                         needs: T -> bool, break_: nat -> bool, pos: nat) {
    forall k: nat, c: nat {:trigger At(s, c, text(xs[k], Offset(xs, w, pos, k)))} ::
      0 < k < |xs| && needs(xs[k - 1]) && At(s, c, text(xs[k], Offset(xs, w, pos, k))) ==> break_(c)
  }

  ghost predicate ScannedAt<T(!new), U(!new)>(
    s: string, x: T, text: (T, nat) -> string, out: (T, nat) -> seq<U>, w: T -> nat,
    lex: (nat, nat) -> seq<U>, needs: T -> bool, break_: nat -> bool, c: nat, p: nat)
  {
    At(s, c, text(x, p)) && (needs(x) ==> break_(c + |text(x, p)|)) ==>
      lex(c, p) == out(x, p) + lex(c + |text(x, p)|, p + w(x))
  }

  /** Wherever the text of an element stands, with a break behind it if needed, its output is read. */
  ghost predicate ScansEach<T(!new), U(!new)>(
    s: string, xs: seq<T>, text: (T, nat) -> string, out: (T, nat) -> seq<U>, w: T -> nat,
    lex: (nat, nat) -> seq<U>, needs: T -> bool, break_: nat -> bool)
  {
    forall k: nat, c: nat, p: nat :: k < |xs| ==> ScannedAt(s, xs[k], text, out, w, lex, needs, break_, c, p)
  }

  lemma BreakBehind<T(!new)>(s: string, xs: seq<T>, text: (T, nat) -> string, w: T -> nat, needs: T -> bool,
                             break_: nat -> bool, i: nat, pos: nat, k: nat)
    requires k < |xs| && needs(xs[k]) && At(s, i, FlatAt(xs, text, w, pos))
             && BreaksBetween(s, xs, text, w, needs, break_, pos)
    requires needs(xs[|xs| - 1]) ==> break_(i + |FlatAt(xs, text, w, pos)|)
    ensures break_(Cut(xs, text, w, i, pos, k + 1))
  {
    NextCut(xs, text, w, i, pos, k);
    if k + 1 < |xs| { AtCut(s, xs, text, w, i, pos, k + 1); }
  }

  lemma ScanElement<T(!new), U(!new)>(s: string, xs: seq<T>, text: (T, nat) -> string, out: (T, nat) -> seq<U>,
                                      w: T -> nat, lex: (nat, nat) -> seq<U>, needs: T -> bool, break_: nat -> bool,
                                      i: nat, pos: nat, k: nat)
    requires k < |xs| && At(s, i, FlatAt(xs, text, w, pos)) && BreaksBetween(s, xs, text, w, needs, break_, pos)
    requires needs(xs[|xs| - 1]) ==> break_(i + |FlatAt(xs, text, w, pos)|)
    requires ScansEach(s, xs, text, out, w, lex, needs, break_)
    ensures ScanStep(xs, text, out, w, lex, i, pos, k)
  {
    hide FlatAt, At;
    AtCut(s, xs, text, w, i, pos, k);
    NextCut(xs, text, w, i, pos, k);
    if needs(xs[k]) { BreakBehind(s, xs, text, w, needs, break_, i, pos, k); }
    assert ScannedAt(s, xs[k], text, out, w, lex, needs, break_, Cut(xs, text, w, i, pos, k), Offset(xs, w, pos, k));
  }

  /** A text that carries a list is scanned element by element. */
  lemma ScanText<T(!new), U(!new)>(s: string, xs: seq<T>, text: (T, nat) -> string, out: (T, nat) -> seq<U>,
                                   w: T -> nat, lex: (nat, nat) -> seq<U>, needs: T -> bool, break_: nat -> bool,
                                   i: nat, pos: nat)
    requires At(s, i, FlatAt(xs, text, w, pos)) && BreaksBetween(s, xs, text, w, needs, break_, pos)
    requires xs != [] && needs(xs[|xs| - 1]) ==> break_(i + |FlatAt(xs, text, w, pos)|)
    requires ScansEach(s, xs, text, out, w, lex, needs, break_)
    ensures lex(i, pos) == FlatAt(xs, out, w, pos) + lex(i + |FlatAt(xs, text, w, pos)|, pos + Width(xs, w))
  {
    hide ScanStep, ScansEach, BreaksBetween, At, FlatAt, Width;
    forall k | 0 <= k < |xs| ensures ScanStep(xs, text, out, w, lex, i, pos, k) {
      ScanElement(s, xs, text, out, w, lex, needs, break_, i, pos, k);
    }
    ScanTo(xs, text, out, w, lex, i, pos, |xs|);
    assert xs[..|xs|] == xs;
  }
}

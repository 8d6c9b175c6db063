/** Empty clauses: the translator drops them from $and and $or and emits nothing for a filter made
    of them. When the emitted condition still means what the filter denotes. */
module SqlGaps {
  import opened Common
  import opened SqlFilter
  import opened SqlMeaning
  import opened SqlParsing

  function Bool(b: bool): Truth { if b then True else False }

  function Unit(either: bool): Truth { Bool(!either) }

  function Absorbing(either: bool): Truth { Bool(either) }

  function Connect(either: bool, vs: seq<Truth>): Truth { Total(if either then Disjunction else Conjunction, vs) }

  /** A connective gives its unit if all operands do, its absorbing value if one does. */
  lemma {:induction false} FoldValue(either: bool, vs: seq<Truth>)
    ensures Connect(either, vs) == Unit(either) <==> forall v :: v in vs ==> v == Unit(either)
    ensures Connect(either, vs) == Absorbing(either) <==> Absorbing(either) in vs
  {
    if vs != [] {
      var n := |vs| - 1;
      FoldValue(either, vs[..n]);
      assert vs == vs[..n] + [vs[n]];
      assert vs[n] in vs && forall v :: v in vs[..n] ==> v in vs;
    }
  }

  // ---- conditions without text ---------------------------------------------

  /** What a condition without any test denotes. */
  predicate Holds(c: Cond) {
    match c
    case All(parts) => forall i :: 0 <= i < |parts| ==> Holds(parts[i])
    case Logic(either, parts) =>
      if either then exists i :: 0 <= i < |parts| && Holds(parts[i])
      else forall i :: 0 <= i < |parts| ==> Holds(parts[i])
    case Not(body) => !Holds(body)
    case Test(_, _) => true
  }

  lemma FoldHolds(either: bool, row: Row, parts: seq<Cond>)
    requires forall i :: 0 <= i < |parts| ==> Meaning(row, parts[i]) == Bool(Holds(parts[i]))
    ensures Connect(either, Meanings(row, parts)) ==
            Bool(if either then exists i :: 0 <= i < |parts| && Holds(parts[i])
                 else forall i :: 0 <= i < |parts| ==> Holds(parts[i]))
  {
    hide Meaning, Holds, Connect;
    var vs := Meanings(row, parts);
    assert forall i :: 0 <= i < |parts| ==> vs[i] == Bool(Holds(parts[i])) && vs[i] in vs;
    FoldValue(either, vs);
  }

  /** A condition that emits no text denotes the same at every row. */
  lemma {:induction false} EmptyMeaning(row: Row, c: Cond)
    requires Empty(c)
    ensures Meaning(row, c) == Bool(Holds(c))
    decreases c
  {
    match c
    case All(parts) =>
      forall i | 0 <= i < |parts| ensures Meaning(row, parts[i]) == Bool(Holds(parts[i])) {
        EmptyMeaning(row, parts[i]);
      }
      FoldHolds(false, row, parts);
    case Logic(either, parts) =>
      forall i | 0 <= i < |parts| ensures Meaning(row, parts[i]) == Bool(Holds(parts[i])) {
        EmptyMeaning(row, parts[i]);
      }
      FoldHolds(either, row, parts);
    case Not(body) => EmptyMeaning(row, body);
  }

  // ---- one $and or $or at one row ------------------------------------------

  ghost predicate HasText(parts: seq<Cond>, i: int) { 0 <= i < |parts| && !Empty(parts[i]) }

  lemma {:induction false} KeptListed(row: Row, parts: seq<Cond>, i: nat)
    requires HasText(parts, i)
    ensures CodeMeaning(row, parts[i]) in KeptMeanings(row, parts)
  {
    hide CodeMeaning, Empty;
    var n := |parts| - 1;
    if i < n {
      assert parts[..n][i] == parts[i];
      KeptListed(row, parts[..n], i);
    }
  }

  lemma {:induction false} ListedKept(row: Row, parts: seq<Cond>, v: Truth) returns (i: nat)
    requires v in KeptMeanings(row, parts)
    ensures HasText(parts, i) && CodeMeaning(row, parts[i]) == v
  {
    hide CodeMeaning, Empty;
    var n := |parts| - 1;
    if v in KeptMeanings(row, parts[..n]) {
      i := ListedKept(row, parts[..n], v);
    } else {
      i := n;
    }
  }

  lemma KeptIn(row: Row, parts: seq<Cond>, v: Truth)
    ensures v in KeptMeanings(row, parts) <==> exists i :: HasText(parts, i) && CodeMeaning(row, parts[i]) == v
  {
    hide CodeMeaning, Empty, KeptMeanings;
    if v in KeptMeanings(row, parts) {
      var i := ListedKept(row, parts, v);
    } else if i :| HasText(parts, i) && CodeMeaning(row, parts[i]) == v {
      KeptListed(row, parts, i);
    }
  }

  lemma KeptFold(either: bool, row: Row, parts: seq<Cond>)
    ensures Connect(either, KeptMeanings(row, parts)) == Unit(either)
            <==> forall i :: HasText(parts, i) ==> CodeMeaning(row, parts[i]) == Unit(either)
    ensures Connect(either, KeptMeanings(row, parts)) == Absorbing(either)
            <==> exists i :: HasText(parts, i) && CodeMeaning(row, parts[i]) == Absorbing(either)
  {
    hide KeptMeanings, CodeMeaning, Connect, Empty;
    FoldValue(either, KeptMeanings(row, parts));
    KeptIn(row, parts, True);
    KeptIn(row, parts, False);
    KeptIn(row, parts, Unknown);
  }

  lemma PartsFold(either: bool, row: Row, parts: seq<Cond>)
    ensures Connect(either, Meanings(row, parts)) == Unit(either)
            <==> forall i :: 0 <= i < |parts| ==> Meaning(row, parts[i]) == Unit(either)
    ensures Connect(either, Meanings(row, parts)) == Absorbing(either)
            <==> exists i :: 0 <= i < |parts| && Meaning(row, parts[i]) == Absorbing(either)
  {
    hide Meaning, Connect;
    var vs := Meanings(row, parts);
    assert forall i :: 0 <= i < |parts| ==> vs[i] in vs;
    FoldValue(either, vs);
  }

  /** Every dropped part denotes the connective's unit. */
  predicate DropsUnits(either: bool, parts: seq<Cond>) {
    forall i :: 0 <= i < |parts| && Empty(parts[i]) ==> Holds(parts[i]) == !either
  }

  lemma LogicValues(row: Row, either: bool, parts: seq<Cond>)
    ensures CodeMeaning(row, Logic(either, parts)) == Connect(either, KeptMeanings(row, parts))
    ensures Meaning(row, Logic(either, parts)) == Connect(either, Meanings(row, parts))
  {
  }

  /** Where the kept parts mean what they should, the emitted $and or $or does so too if and only if
      every dropped part is the connective's unit or a kept part decides the value anyway. */
  lemma GapAtRow(row: Row, either: bool, parts: seq<Cond>)
    requires forall i :: HasText(parts, i) ==> CodeMeaning(row, parts[i]) == Meaning(row, parts[i])
    ensures CodeMeaning(row, Logic(either, parts)) == Meaning(row, Logic(either, parts))
            <==> || DropsUnits(either, parts)
                 || exists i :: HasText(parts, i) && CodeMeaning(row, parts[i]) == Absorbing(either)
  {
    hide Meaning, CodeMeaning, Empty, Holds, Connect, KeptMeanings;
    LogicValues(row, either, parts);
    KeptFold(either, row, parts);
    PartsFold(either, row, parts);
    forall i | 0 <= i < |parts| && Empty(parts[i]) ensures Meaning(row, parts[i]) == Bool(Holds(parts[i])) {
      EmptyMeaning(row, parts[i]);
    }
    assert forall i :: 0 <= i < |parts| ==> HasText(parts, i) || Empty(parts[i]);
  }

  // ---- whole filters -------------------------------------------------------

  /** What a query with the text of c selects a row by. */
  function Selected(row: Row, c: Cond): Truth { if Empty(c) then True else CodeMeaning(row, c) }

  /** Every empty clause below c is the unit of the $and or $or it stands in. */
  predicate Faithful(c: Cond) {
    match c
    case All(parts) => forall i :: 0 <= i < |parts| ==> !Empty(parts[i]) && Faithful(parts[i])
    case Logic(either, parts) =>
      DropsUnits(either, parts) && forall i :: 0 <= i < |parts| && !Empty(parts[i]) ==> Faithful(parts[i])
    case Not(body) => !Empty(body) && Faithful(body)
    case Test(_, _) => true
  }

  /** A filter without text denotes every row; in any other, every empty clause is a unit. */
  predicate Harmless(c: Cond) { if Empty(c) then Holds(c) else Faithful(c) }

  lemma {:induction false} FaithfulMeans(row: Row, c: Cond)
    requires Faithful(c)
    ensures CodeMeaning(row, c) == Meaning(row, c)
    decreases c
  {
    match c
    case All(parts) =>
      forall i | 0 <= i < |parts| ensures CodeMeaning(row, parts[i]) == Meaning(row, parts[i]) {
        FaithfulMeans(row, parts[i]);
      }
      assert CodeMeanings(row, parts) == Meanings(row, parts);
    case Logic(either, parts) =>
      forall i | HasText(parts, i) ensures CodeMeaning(row, parts[i]) == Meaning(row, parts[i]) {
        FaithfulMeans(row, parts[i]);
      }
      GapAtRow(row, either, parts);
    case Not(body) => FaithfulMeans(row, body);
    case Test(_, _) =>
  }

  /** Harmless gaps do not show: the query selects by what the filter denotes. */
  lemma HarmlessMeans(row: Row, c: Cond)
    requires Harmless(c)
    ensures Selected(row, c) == Meaning(row, c)
  {
    if Empty(c) { EmptyMeaning(row, c); } else { FaithfulMeans(row, c); }
  }

  // ---- filters whose tests are independent ---------------------------------

  /** What a row is asked. */
  datatype Question = Question(column: string, test: Predicate, values: seq<SqlValue>)

  function Ask(row: Row, q: Question): Truth { row(q.column, q.test, q.values) }

  function Asks(column: string, a: Atom): Question {
    match a
    case Compare(op, v) => Question(column, Cmp(op), [v])
    case Between(lo, hi) => Question(column, Rng, [lo, hi])
    case In(negated, vs) => Question(column, Member(negated), vs)
  }

  ghost predicate Mentions(c: Cond, q: Question) {
    match c
    case All(parts) => exists i :: 0 <= i < |parts| && Mentions(parts[i], q)
    case Logic(_, parts) => exists i :: 0 <= i < |parts| && Mentions(parts[i], q)
    case Not(body) => Mentions(body, q)
    case Test(column, atoms) => exists i :: 0 <= i < |atoms| && Asks(column, atoms[i]) == q
  }

  ghost predicate Apart(parts: seq<Cond>) {
    forall i, j, q :: 0 <= i < |parts| && 0 <= j < |parts| && Mentions(parts[i], q) && Mentions(parts[j], q) ==> i == j
  }

  /** No two members of an object, $and or $or ask the same question, and no list is empty: each
      member can be true or false whatever the others are. */
  ghost predicate Free(c: Cond) {
    match c
    case All(parts) => Apart(parts) && forall i :: 0 <= i < |parts| ==> Free(parts[i])
    case Logic(_, parts) => Apart(parts) && forall i :: 0 <= i < |parts| ==> Free(parts[i])
    case Not(body) => Free(body)
    case Test(_, atoms) => forall i :: 0 <= i < |atoms| ==> !(atoms[i].In? && atoms[i].values == [])
  }

  ghost predicate Agree(a: Row, b: Row, c: Cond) { forall q :: Mentions(c, q) ==> Ask(a, q) == Ask(b, q) }

  lemma AgreeOnPart(a: Row, b: Row, c: Cond, i: nat)
    requires (c.All? || c.Logic?) && i < |c.parts| && Agree(a, b, c)
    ensures Agree(a, b, c.parts[i])
  {
    forall q | Mentions(c.parts[i], q) ensures Ask(a, q) == Ask(b, q) { assert Mentions(c, q); }
  }

  lemma {:induction false} KeptSame(a: Row, b: Row, parts: seq<Cond>)
    requires forall i :: 0 <= i < |parts| ==> CodeMeaning(a, parts[i]) == CodeMeaning(b, parts[i])
    ensures KeptMeanings(a, parts) == KeptMeanings(b, parts)
  {
    if parts != [] { KeptSame(a, b, parts[..|parts| - 1]); }
  }

  /** Only the questions of a condition decide its value. */
  lemma {:induction false} SameValue(a: Row, b: Row, c: Cond)
    requires Agree(a, b, c)
    ensures Meaning(a, c) == Meaning(b, c) && CodeMeaning(a, c) == CodeMeaning(b, c)
    decreases c
  {
    if c.All? || c.Logic? {
      forall i | 0 <= i < |c.parts|
        ensures Meaning(a, c.parts[i]) == Meaning(b, c.parts[i])
                && CodeMeaning(a, c.parts[i]) == CodeMeaning(b, c.parts[i])
      {
        AgreeOnPart(a, b, c, i);
        SameValue(a, b, c.parts[i]);
      }
      assert Meanings(a, c.parts) == Meanings(b, c.parts);
      assert CodeMeanings(a, c.parts) == CodeMeanings(b, c.parts);
      KeptSame(a, b, c.parts);
    } else if c.Not? {
      assert forall q :: Mentions(c.body, q) ==> Mentions(c, q);
      SameValue(a, b, c.body);
    } else {
      TestSame(a, b, c);
    }
  }

  lemma TestSame(a: Row, b: Row, c: Cond)
    requires c.Test? && Agree(a, b, c)
    ensures AtomMeanings(a, c.column, c.atoms) == AtomMeanings(b, c.column, c.atoms)
  {
    forall i | 0 <= i < |c.atoms| ensures AtomMeaning(a, c.column, c.atoms[i]) == AtomMeaning(b, c.column, c.atoms[i]) {
      assert Mentions(c, Asks(c.column, c.atoms[i]));
      assert Ask(a, Asks(c.column, c.atoms[i])) == Ask(b, Asks(c.column, c.atoms[i]));
    }
  }

  // ---- rows that decide every test -----------------------------------------

  ghost predicate Decided(row: Row) { forall q :: Ask(row, q) != Unknown }

  lemma {:induction false} DecidedFold(either: bool, vs: seq<Truth>)
    requires Unknown !in vs
    ensures Connect(either, vs) != Unknown
  {
    if vs != [] { DecidedFold(either, vs[..|vs| - 1]); }
  }

  lemma {:induction false} DecidedValue(row: Row, c: Cond)
    requires Decided(row)
    ensures Meaning(row, c) != Unknown && CodeMeaning(row, c) != Unknown
    decreases c
  {
    match c
    case All(parts) =>
      forall i | 0 <= i < |parts| ensures Meaning(row, parts[i]) != Unknown && CodeMeaning(row, parts[i]) != Unknown {
        DecidedValue(row, parts[i]);
      }
      DecidedFold(false, Meanings(row, parts));
      DecidedFold(false, CodeMeanings(row, parts));
    case Logic(either, parts) =>
      forall i | 0 <= i < |parts| ensures Meaning(row, parts[i]) != Unknown && CodeMeaning(row, parts[i]) != Unknown {
        DecidedValue(row, parts[i]);
      }
      DecidedFold(either, Meanings(row, parts));
      KeptIn(row, parts, Unknown);
      DecidedFold(either, KeptMeanings(row, parts));
    case Not(body) => DecidedValue(row, body);
    case Test(column, atoms) =>
      forall i | 0 <= i < |atoms| ensures AtomMeaning(row, column, atoms[i]) != Unknown {
        assert Ask(row, Asks(column, atoms[i])) != Unknown;
      }
      DecidedFold(false, AtomMeanings(row, column, atoms));
  }

  const AllTrue: Row := (column, test, values) => True
  const AllFalse: Row := (column, test, values) => False

  /** Each part of a list is asked at a row of its own. */
  ghost function Glue(parts: seq<Cond>, rows: seq<Row>): Row
    requires |rows| == |parts|
  {
    (column, test, values) =>
      var q := Question(column, test, values);
      if exists i :: 0 <= i < |parts| && Mentions(parts[i], q)
      then var i :| 0 <= i < |parts| && Mentions(parts[i], q); Ask(rows[i], q)
      else True
  }

  lemma GlueAgrees(parts: seq<Cond>, rows: seq<Row>, i: nat)
    requires |rows| == |parts| && Apart(parts) && i < |parts|
    ensures Agree(Glue(parts, rows), rows[i], parts[i])
  {
  }

  lemma GlueValue(parts: seq<Cond>, rows: seq<Row>, i: nat)
    requires |rows| == |parts| && Apart(parts) && i < |parts|
    ensures Meaning(Glue(parts, rows), parts[i]) == Meaning(rows[i], parts[i])
    ensures CodeMeaning(Glue(parts, rows), parts[i]) == CodeMeaning(rows[i], parts[i])
  {
    GlueAgrees(parts, rows, i);
    SameValue(Glue(parts, rows), rows[i], parts[i]);
  }

  lemma GlueDecided(parts: seq<Cond>, rows: seq<Row>)
    requires |rows| == |parts| && forall i :: 0 <= i < |rows| ==> Decided(rows[i])
    ensures Decided(Glue(parts, rows))
  {
  }

  /** A row at which the text of c has the value b. */
  ghost function RowFor(c: Cond, b: bool): Row {
    match c
    case All(parts) => Glue(parts, RowsFor(parts, b))
    case Logic(_, parts) => Glue(parts, RowsFor(parts, b))
    case Not(body) => RowFor(body, !b)
    case Test(_, _) => if b then AllTrue else AllFalse
  }

  ghost function RowsFor(parts: seq<Cond>, b: bool): (r: seq<Row>)
    ensures |r| == |parts| && forall i :: 0 <= i < |parts| ==> r[i] == RowFor(parts[i], b)
  {
    if parts == [] then [] else RowsFor(parts[..|parts| - 1], b) + [RowFor(parts[|parts| - 1], b)]
  }

  lemma {:induction false} RowForDecided(c: Cond, b: bool)
    ensures Decided(RowFor(c, b))
    decreases c
  {
    if c.All? || c.Logic? {
      forall i | 0 <= i < |c.parts| ensures Decided(RowsFor(c.parts, b)[i]) { RowForDecided(c.parts[i], b); }
      GlueDecided(c.parts, RowsFor(c.parts, b));
    } else if c.Not? {
      RowForDecided(c.body, !b);
    }
  }

  /** An object that emits text is a $and without empty parts. */
  lemma ObjectIsAnd(row: Row, parts: seq<Cond>)
    requires WellFormed(All(parts)) && !Empty(All(parts))
    ensures forall i :: 0 <= i < |parts| ==> !Empty(parts[i])
    ensures CodeMeaning(row, All(parts)) == CodeMeaning(row, Logic(false, parts))
    ensures Meaning(row, All(parts)) == Meaning(row, Logic(false, parts))
  {
    assert forall i :: 0 <= i < |parts| ==> !Empty(parts[i]);
    NothingDropped(row, parts);
  }

  lemma {:induction false} NothingDropped(row: Row, parts: seq<Cond>)
    requires forall i :: 0 <= i < |parts| ==> !Empty(parts[i])
    ensures KeptMeanings(row, parts) == CodeMeanings(row, parts)
  {
    if parts != [] { NothingDropped(row, parts[..|parts| - 1]); }
  }

  lemma LogicAllSame(row: Row, either: bool, parts: seq<Cond>, b: bool)
    requires exists i :: HasText(parts, i)
    requires forall i :: HasText(parts, i) ==> CodeMeaning(row, parts[i]) == Bool(b)
    ensures CodeMeaning(row, Logic(either, parts)) == Bool(b)
  {
    LogicValues(row, either, parts);
    KeptFold(either, row, parts);
  }

  lemma {:induction false} RowForValue(c: Cond, b: bool)
    requires Free(c) && WellFormed(c) && !Empty(c)
    ensures CodeMeaning(RowFor(c, b), c) == Bool(b)
    decreases c
  {
    var row := RowFor(c, b);
    if c.All? || c.Logic? {
      forall i | HasText(c.parts, i) ensures CodeMeaning(row, c.parts[i]) == Bool(b) {
        RowForValue(c.parts[i], b);
        GlueValue(c.parts, RowsFor(c.parts, b), i);
      }
      SomeKept(c);
      if c.All? {
        ObjectIsAnd(row, c.parts);
        LogicAllSame(row, false, c.parts, b);
      } else {
        LogicAllSame(row, c.either, c.parts, b);
      }
    } else if c.Not? {
      RowForValue(c.body, !b);
    } else {
      TestValue(c, b);
    }
  }

  lemma SomeKept(c: Cond)
    requires (c.All? || c.Logic?) && !Empty(c) && WellFormed(c)
    ensures exists i :: HasText(c.parts, i)
  {
    if c.All? {
      assert HasText(c.parts, 0);
    } else {
      var i :| 0 <= i < |c.parts| && !Empty(c.parts[i]);
      assert HasText(c.parts, i);
    }
  }

  lemma TestValue(c: Cond, b: bool)
    requires c.Test? && Free(c) && WellFormed(c)
    ensures CodeMeaning(RowFor(c, b), c) == Bool(b)
  {
    var vs := AtomMeanings(RowFor(c, b), c.column, c.atoms);
    assert forall i :: 0 <= i < |vs| ==> vs[i] == Bool(b);
    assert vs[0] in vs;
    FoldValue(false, vs);
  }

  // ---- harmful gaps show ---------------------------------------------------

  /** A row at which every kept part gives the unit. */
  ghost function UnitRow(either: bool, parts: seq<Cond>): Row { Glue(parts, RowsFor(parts, !either)) }

  lemma UnitRowValue(either: bool, parts: seq<Cond>, i: nat)
    requires Free(Logic(either, parts)) && i < |parts| && !Empty(parts[i]) && WellFormed(parts[i])
    ensures CodeMeaning(UnitRow(either, parts), parts[i]) == Unit(either)
  {
    GlueValue(parts, RowsFor(parts, !either), i);
    RowForValue(parts[i], !either);
  }

  lemma AllUnits(row: Row, either: bool, parts: seq<Cond>)
    requires Meaning(row, Logic(either, parts)) == Unit(either)
    ensures forall i :: 0 <= i < |parts| ==> Meaning(row, parts[i]) == Unit(either)
  {
    PartsFold(either, row, parts);
  }

  /** If the text of part k goes wrong at some row and the others can give the unit, the whole does. */
  lemma WrongPartShows(either: bool, parts: seq<Cond>, k: nat, wrong: Row) returns (row: Row)
    requires Free(Logic(either, parts)) && WellFormed(Logic(either, parts)) && HasText(parts, k)
    requires Decided(wrong) && CodeMeaning(wrong, parts[k]) != Meaning(wrong, parts[k])
    requires Meaning(UnitRow(either, parts), Logic(either, parts)) == Unit(either)
    ensures Decided(row) && CodeMeaning(row, Logic(either, parts)) != Meaning(row, Logic(either, parts))
  {
    hide Meaning, CodeMeaning, RowFor, Glue, Decided, Empty;
    var rows := RowsFor(parts, !either);
    row := Glue(parts, rows[k := wrong]);
    forall i | 0 <= i < |rows| ensures Decided(rows[i]) { RowForDecided(parts[i], !either); }
    GlueDecided(parts, rows[k := wrong]);
    AllUnits(UnitRow(either, parts), either, parts);
    forall i | 0 <= i < |parts| && i != k
      ensures Meaning(row, parts[i]) == Unit(either)
              && (HasText(parts, i) ==> CodeMeaning(row, parts[i]) == Unit(either))
    {
      GlueValue(parts, rows, i);
      GlueValue(parts, rows[k := wrong], i);
      if HasText(parts, i) { RowForValue(parts[i], !either); }
    }
    GlueValue(parts, rows[k := wrong], k);
    OnePartDecides(row, either, parts, k);
  }

  lemma OnePartDecides(row: Row, either: bool, parts: seq<Cond>, k: nat)
    requires Decided(row) && HasText(parts, k) && CodeMeaning(row, parts[k]) != Meaning(row, parts[k])
    requires forall i :: 0 <= i < |parts| && i != k ==> Meaning(row, parts[i]) == Unit(either)
    requires forall i :: HasText(parts, i) && i != k ==> CodeMeaning(row, parts[i]) == Unit(either)
    ensures CodeMeaning(row, Logic(either, parts)) != Meaning(row, Logic(either, parts))
  {
    hide Meaning, CodeMeaning, Empty, Connect, KeptMeanings, Decided;
    DecidedValue(row, parts[k]);
    LogicValues(row, either, parts);
    KeptFold(either, row, parts);
    PartsFold(either, row, parts);
  }

  /** Where the tests are independent, a gap that is no unit shows at some row. */
  lemma {:induction false} HarmfulShows(c: Cond) returns (row: Row)
    requires Free(c) && WellFormed(c) && !Empty(c) && !Faithful(c)
    ensures Decided(row) && CodeMeaning(row, c) != Meaning(row, c)
    decreases c, 1
  {
    match c
    case All(parts) =>
      ObjectIsAnd(AllTrue, parts);
      SomeKept(c);
      row := HarmfulLogic(c, false, parts);
      ObjectIsAnd(row, parts);
    case Logic(either, parts) =>
      SomeKept(c);
      row := HarmfulLogic(c, either, parts);
    case Not(body) => row := HarmfulShows(body);
  }

  lemma {:induction false} HarmfulLogic(c: Cond, either: bool, parts: seq<Cond>) returns (row: Row)
    requires c == All(parts) || c == Logic(either, parts)
    requires Free(Logic(either, parts)) && WellFormed(Logic(either, parts)) && !Faithful(Logic(either, parts))
    requires exists i :: HasText(parts, i)
    ensures Decided(row) && CodeMeaning(row, Logic(either, parts)) != Meaning(row, Logic(either, parts))
    decreases c, 0
  {
    var unit := UnitRow(either, parts);
    if Meaning(unit, Logic(either, parts)) != Unit(either) {
      row := unit;
      RowForDecided(Logic(either, parts), !either);
      forall i | HasText(parts, i) ensures CodeMeaning(unit, parts[i]) == Unit(either) {
        UnitRowValue(either, parts, i);
      }
      LogicAllSame(unit, either, parts, !either);
    } else {
      UnitsDropped(unit, either, parts);
      var k :| 0 <= k < |parts| && !Empty(parts[k]) && !Faithful(parts[k]);
      var wrong := HarmfulShows(parts[k]);
      row := WrongPartShows(either, parts, k, wrong);
    }
  }

  lemma UnitsDropped(row: Row, either: bool, parts: seq<Cond>)
    requires Meaning(row, Logic(either, parts)) == Unit(either)
    ensures DropsUnits(either, parts)
  {
    AllUnits(row, either, parts);
    forall i | 0 <= i < |parts| && Empty(parts[i]) ensures Holds(parts[i]) == !either { EmptyMeaning(row, parts[i]); }
  }

  /** If no question is asked twice, a well-formed filter selects at every row by what it denotes if
      and only if its gaps are harmless. Otherwise some row that decides every test is selected
      wrongly. */
  lemma HarmlessExactly(c: Cond)
    requires Free(c) && WellFormed(c)
    ensures Harmless(c) <==> forall row: Row :: Decided(row) ==> Selected(row, c) == Meaning(row, c)
  {
    if Harmless(c) {
      forall row: Row ensures Selected(row, c) == Meaning(row, c) { HarmlessMeans(row, c); }
    } else if Empty(c) {
      EmptyMeaning(AllTrue, c);
      assert Decided(AllTrue);
    } else {
      var row := HarmfulShows(c);
      assert Decided(row);
    }
  }
}

/** Filters whose empty clauses change what the query selects. */
module SqlCounterexamples {
  import opened Common
  import opened Results
  import opened SqlDenotation
  import opened SqlFilter
  import opened SqlGaps
  import opened SqlMeaning
  import opened SqlQuery
  import opened SqlTranslation
  import opened FilterTranslator
  import opened StringOrder

  function One(key: string, value: Json): Json { JObject(map[key := value]) }

  const NOTHING := JObject(map[])

  lemma OneKey(key: string, value: Json)
    ensures SortedKeys(One(key, value).members.Keys) == [key]
  {
    var keys := Enumerate({key});
    assert One(key, value).members.Keys == {key};
    assert keys[0] in keys && keys == [key];
    assert keys[..0] == [] && Sort([]) == [];
  }

  /** Reading an object with one member. */
  lemma ReadOne(schema: Schema, key: string, value: Json)
    requires ReadMember(schema, One(key, value), key).Ok?
    ensures ReadObject(schema, One(key, value)) == Ok(All([ReadMember(schema, One(key, value), key).value]))
  {
    var j := One(key, value);
    OneKey(key, value);
    assert [key][..0] == [] && ReadMembers(schema, j, []) == Ok([]);
    assert [] + [ReadMember(schema, j, key).value] == [ReadMember(schema, j, key).value];
  }

  lemma ReadNothing(schema: Schema)
    ensures ReadObject(schema, NOTHING) == Ok(All([]))
  {
    assert NOTHING.members.Keys == {} && Enumerate({}) == [];
    assert SortedKeys({}) == [];
  }

  // ---- an empty $or, the negation of nothing -------------------------------

  /** A filter without text that denotes no row selects every row. */
  lemma DeniedButSelected(row: Row, schema: Schema, filter: Json, c: Cond, f: Frame, d: Dialect,
                          limit: SqlValue, offset: SqlValue)
    requires SafeSchema(schema, d) && SafeFrame(f) && !limit.List? && !offset.List?
    requires Condition(schema, Some(filter)) == Ok(c) && Empty(c) && !Holds(c)
    ensures Denotes(row, schema, Some(filter)) == False && QuerySelects(row, c, f, d, limit, offset) == Some(True)
  {
    hide QuerySelects, Meaning, CodeMeaning, WellFormed, Empty, Holds, ReadObject, Denotes;
    ConditionMeans(row, schema, Some(filter));
    FilterQueryMeans(row, schema, Some(filter), f, d, limit, offset);
    EmptyMeaning(row, c);
    EmptyWellFormed(c);
  }

  const NO_ALTERNATIVE := One("$or", JArray([]))

  lemma ReadNoAlternative(schema: Schema)
    ensures ReadObject(schema, NO_ALTERNATIVE) == Ok(All([Logic(true, [])]))
  {
    assert ReadItems(schema, JArray([]), 0) == Ok([]);
    assert ReadMember(schema, NO_ALTERNATIVE, "$or") == Ok(Logic(true, []));
    ReadOne(schema, "$or", JArray([]));
  }

  /** {"$or": []} denotes no row and selects every row. */
  lemma NoAlternativeSelectsAll(row: Row, schema: Schema, f: Frame, d: Dialect, limit: SqlValue, offset: SqlValue)
    requires SafeSchema(schema, d) && SafeFrame(f) && !limit.List? && !offset.List?
    ensures var c := Condition(schema, Some(NO_ALTERNATIVE));
            && c.Ok? && Denotes(row, schema, Some(NO_ALTERNATIVE)) == False
            && QuerySelects(row, c.value, f, d, limit, offset) == Some(True)
  {
    hide QuerySelects, Meaning, ReadObject, Denotes;
    ReadNoAlternative(schema);
    var parts: seq<Cond> := [Logic(true, [])];
    assert Empty(parts[0]) && !Holds(parts[0]);
    DeniedButSelected(row, schema, NO_ALTERNATIVE, All(parts), f, d, limit, offset);
  }

  const NOT_NOTHING := One("$not", NOTHING)

  lemma ReadNotNothing(schema: Schema)
    ensures ReadObject(schema, NOT_NOTHING) == Ok(All([Not(All([]))]))
  {
    ReadNothing(schema);
    assert ReadMember(schema, NOT_NOTHING, "$not") == Ok(Not(All([])));
    ReadOne(schema, "$not", NOTHING);
  }

  /** {"$not": {}} denotes no row and selects every row. */
  lemma NotNothingSelectsAll(row: Row, schema: Schema, f: Frame, d: Dialect, limit: SqlValue, offset: SqlValue)
    requires SafeSchema(schema, d) && SafeFrame(f) && !limit.List? && !offset.List?
    ensures var c := Condition(schema, Some(NOT_NOTHING));
            && c.Ok? && Denotes(row, schema, Some(NOT_NOTHING)) == False
            && QuerySelects(row, c.value, f, d, limit, offset) == Some(True)
  {
    hide QuerySelects, Meaning, ReadObject, Denotes;
    ReadNotNothing(schema);
    var parts: seq<Cond> := [Not(All([]))];
    assert Empty(parts[0]) && !Holds(parts[0]);
    DeniedButSelected(row, schema, NOT_NOTHING, All(parts), f, d, limit, offset);
  }

  // ---- a dropped alternative -----------------------------------------------

  const SCHEMA: Schema := [Field("a", "")]

  const IS_ONE := Test("a", [Compare(Eq, Integer(1))])

  const ONE_OR_NOTHING := One("$or", JArray([NOTHING, One("a", One("$eq", JNumber(1.0)))]))

  /** Reading a test of column a. */
  lemma ReadTest(op: string, value: Json, atom: Atom)
    requires ReadAtom(op, value) == Ok(atom)
    ensures ReadObject(SCHEMA, One("a", One(op, value))) == Ok(All([Test("a", [atom])]))
  {
    var v := One(op, value);
    OneKey(op, value);
    assert [op][..0] == [] && ReadAtoms(v, []) == Ok([]) && [] + [atom] == [atom];
    assert ReadAtoms(v, [op]) == Ok([atom]);
    assert GetField(SCHEMA, "a") == Some(SCHEMA[0]);
    assert ReadMember(SCHEMA, One("a", v), "a") == Ok(Test("a", [atom]));
    ReadOne(SCHEMA, "a", v);
  }

  lemma ReadIsOne()
    ensures ReadObject(SCHEMA, One("a", One("$eq", JNumber(1.0)))) == Ok(All([IS_ONE]))
  {
    assert (1.0).Floor == 1;
    ReadTest("$eq", JNumber(1.0), Compare(Eq, Integer(1)));
  }

  /** An alternative without members, beside another one. */
  lemma ReadGap(schema: Schema, other: Json, c: Cond)
    requires other.JObject? && ReadObject(schema, other) == Ok(c)
    ensures ReadObject(schema, One("$or", JArray([NOTHING, other]))) == Ok(All([Logic(true, [All([]), c])]))
  {
    var items := JArray([NOTHING, other]);
    ReadNothing(schema);
    assert ReadItems(schema, items, 0) == Ok([]);
    assert [] + [All([])] == [All([])] && [All([])] + [c] == [All([]), c];
    assert ReadItems(schema, items, 1) == Ok([All([])]);
    assert ReadItems(schema, items, 2) == Ok([All([]), c]);
    assert ReadMember(schema, One("$or", items), "$or") == Ok(Logic(true, [All([]), c]));
    ReadOne(schema, "$or", items);
  }

  /** {"$or": [{}, {"a": {"$eq": 1}}]} denotes every row and selects those where a is 1. */
  lemma DroppedAlternative(row: Row, f: Frame, d: Dialect, limit: SqlValue, offset: SqlValue)
    requires SafeFrame(f) && !limit.List? && !offset.List?
    ensures var c := Condition(SCHEMA, Some(ONE_OR_NOTHING));
            && c.Ok? && Denotes(row, SCHEMA, Some(ONE_OR_NOTHING)) == True
            && QuerySelects(row, c.value, f, d, limit, offset) == Some(row("a", Cmp(Eq), [Integer(1)]))
  {
    hide QuerySelects, Meaning, CodeMeaning, WellFormed, Empty, Harmless, ReadObject, Denotes;
    ConditionMeans(row, SCHEMA, Some(ONE_OR_NOTHING));
    ReadIsOne();
    ReadGap(SCHEMA, One("a", One("$eq", JNumber(1.0))), All([IS_ONE]));
    SchemaSafe(d);
    FilterQueryMeans(row, SCHEMA, Some(ONE_OR_NOTHING), f, d, limit, offset);
    IsOneValue(row);
    GapValues(row, IS_ONE);
  }

  lemma SchemaSafe(d: Dialect)
    ensures SafeSchema(SCHEMA, d)
  {
  }

  lemma IsOneValue(row: Row)
    ensures WellFormed(IS_ONE) && CodeMeaning(row, IS_ONE) == row("a", Cmp(Eq), [Integer(1)])
  {
    var v := row("a", Cmp(Eq), [Integer(1)]);
    assert AtomMeanings(row, "a", IS_ONE.atoms) == [v];
    assert Conj([v]) == And3(Conj([]), v) by { assert [v][..0] == []; }
  }

  lemma SingleValues(row: Row, part: Cond)
    ensures Meaning(row, All([part])) == Meaning(row, part) && CodeMeaning(row, All([part])) == CodeMeaning(row, part)
  {
    assert [part][..0] == [] && Meanings(row, []) == [] && CodeMeanings(row, []) == [];
    assert Meanings(row, [part]) == [Meaning(row, part)] && CodeMeanings(row, [part]) == [CodeMeaning(row, part)];
    assert Conj([Meaning(row, part)]) == And3(Conj([]), Meaning(row, part));
    assert Conj([CodeMeaning(row, part)]) == And3(Conj([]), CodeMeaning(row, part));
  }

  /** A $or of nothing and a test. */
  lemma GapValues(row: Row, test: Cond)
    requires test.Test? && WellFormed(test)
    ensures var c := All([Logic(true, [All([]), All([test])])]);
            WellFormed(c) && !Empty(c) && Meaning(row, c) == True && CodeMeaning(row, c) == CodeMeaning(row, test)
  {
    var parts := [All([]), All([test])];
    var gap := Logic(true, parts);
    assert Empty(parts[0]) && HasText(parts, 1) && WellFormed(parts[1]);
    SingleValues(row, gap);
    SingleValues(row, test);
    EmptyMeaning(row, parts[0]);
    PartsFold(true, row, parts);
    assert parts[..1] == [All([])] && KeptMeanings(row, [All([])]) == [] by {
      assert [All([])][..0] == [] && KeptMeanings(row, []) == [];
    }
    var v := CodeMeaning(row, parts[1]);
    assert KeptMeanings(row, parts) == [v];
    assert Disj([v]) == Or3(Disj([]), v) by { assert [v][..0] == []; }
  }

  // ---- a gap that another test covers --------------------------------------

  const ANY := Test("a", [In(true, [])])

  const ANY_OR_NOTHING := One("$or", JArray([NOTHING, One("a", One("$nin", JArray([])))]))

  lemma ReadAny()
    ensures ReadObject(SCHEMA, ANY_OR_NOTHING) == Ok(All([Logic(true, [All([]), All([ANY])])]))
  {
    var none := JArray([]);
    assert Extracted(none.items) == [];
    ReadTest("$nin", none, In(true, []));
    ReadGap(SCHEMA, One("a", One("$nin", none)), All([ANY]));
  }

  lemma AnyValue(row: Row)
    ensures WellFormed(ANY) && CodeMeaning(row, ANY) == True
  {
    assert AtomMeanings(row, "a", ANY.atoms) == [True];
    assert Conj([True]) == And3(Conj([]), True) by { assert [True][..0] == []; }
  }

  /** {"$or": [{}, {"a": {"$nin": []}}]} has a harmful gap, which a test that always holds covers:
      without independent tests harmful gaps need not show. */
  lemma CoveredGap(row: Row)
    ensures var c := Condition(SCHEMA, Some(ANY_OR_NOTHING));
            c.Ok? && !Harmless(c.value) && Selected(row, c.value) == Denotes(row, SCHEMA, Some(ANY_OR_NOTHING))
  {
    hide Denotes, ReadObject;
    ConditionMeans(row, SCHEMA, Some(ANY_OR_NOTHING));
    ReadAny();
    AnyValue(row);
    GapValues(row, ANY);
    GapHarmful(ANY);
  }

  lemma GapHarmful(test: Cond)
    requires test.Test?
    ensures !Harmless(All([Logic(true, [All([]), All([test])])]))
  {
    var parts := [All([]), All([test])];
    assert Empty(parts[0]) && Holds(parts[0]) && !Empty(parts[1]);
    assert !DropsUnits(true, parts);
    var outer := [Logic(true, parts)];
    assert !Empty(outer[0]) && !Faithful(outer[0]);
  }
}

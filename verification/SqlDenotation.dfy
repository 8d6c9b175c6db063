/** What a JSON filter means, said of the JSON itself, and that the condition read from it means the same. */
module SqlDenotation {
  import opened Common
  import opened Results
  import opened SqlFilter
  import opened StringOrder

  // ---- truth of sets of members --------------------------------------------

  ghost function AllOf(vs: set<Truth>): Truth { if False in vs then False else if Unknown in vs then Unknown else True }

  ghost function AnyOf(vs: set<Truth>): Truth { if True in vs then True else if Unknown in vs then Unknown else False }

  ghost function Values(vs: seq<Truth>): set<Truth> { set v | v in vs }

  lemma ValuesSnoc(vs: seq<Truth>, v: Truth)
    ensures Values(vs + [v]) == Values(vs) + {v}
  {
  }

  lemma AllOfOneMore(vs: set<Truth>, v: Truth)
    ensures AllOf(vs + {v}) == And3(AllOf(vs), v) && AnyOf(vs + {v}) == Or3(AnyOf(vs), v)
  {
  }

  lemma {:induction false} ConjIsAll(vs: seq<Truth>)
    ensures Conj(vs) == AllOf(Values(vs))
  {
    hide AllOf, Values, And3;
    if vs == [] {
      NoValues();
    } else {
      var n := |vs| - 1;
      ConjIsAll(vs[..n]);
      assert vs == vs[..n] + [vs[n]];
      ValuesSnoc(vs[..n], vs[n]);
      AllOfOneMore(Values(vs[..n]), vs[n]);
    }
  }

  lemma {:induction false} DisjIsAny(vs: seq<Truth>)
    ensures Disj(vs) == AnyOf(Values(vs))
  {
    hide AnyOf, Values, Or3;
    if vs == [] {
      NoValues();
    } else {
      var n := |vs| - 1;
      DisjIsAny(vs[..n]);
      assert vs == vs[..n] + [vs[n]];
      ValuesSnoc(vs[..n], vs[n]);
      AllOfOneMore(Values(vs[..n]), vs[n]);
    }
  }

  lemma NoValues()
    ensures AllOf(Values([])) == True && AnyOf(Values([])) == False
  {
  }

  // ---- fields and operators ------------------------------------------------

  /** The first field of the schema with that name, in any case. */
  ghost predicate Names(schema: Schema, name: string, i: int) {
    0 <= i < |schema| && EqualFold(schema[i].name, name) && forall j :: 0 <= j < i ==> !EqualFold(schema[j].name, name)
  }

  ghost predicate Known(schema: Schema, name: string) { exists i :: Names(schema, name, i) }

  ghost function Column(schema: Schema, name: string): string
    requires Known(schema, name)
  {
    var i :| Names(schema, name, i);
    if schema[i].column == "" then schema[i].name else schema[i].column
  }

  lemma {:induction false} GetFieldIs(schema: Schema, name: string)
    ensures GetField(schema, name).Some? <==> Known(schema, name)
    ensures forall i :: Names(schema, name, i) ==> GetField(schema, name) == Some(schema[i])
  {
    if schema != [] {
      GetFieldIs(schema[1..], name);
      if EqualFold(schema[0].name, name) {
        assert Names(schema, name, 0);
      } else {
        if i :| Names(schema[1..], name, i) { assert Names(schema, name, i + 1); }
        forall i | Names(schema, name, i) ensures Names(schema[1..], name, i - 1) { }
      }
    }
  }

  ghost predicate OperatorOk(op: string, v: Json) {
    || op in {"$eq", "$ne", "$lt", "$lte", "$gt", "$gte", "$contains"}
    || (op in {"$in", "$nin"} && v.JArray?)
    || (op == "$between" && v.JArray? && |v.items| == 2)
  }

  ghost function Arguments(items: seq<Json>): seq<SqlValue> {
    seq(|items|, i requires 0 <= i < |items| => ExtractValue(items[i]))
  }

  ghost function OperatorTruth(row: Row, column: string, op: string, v: Json): Truth
    requires OperatorOk(op, v)
  {
    match op
    case "$eq" => row(column, Cmp(Eq), [ExtractValue(v)])
    case "$ne" => row(column, Cmp(Ne), [ExtractValue(v)])
    case "$lt" => row(column, Cmp(Lt), [ExtractValue(v)])
    case "$lte" => row(column, Cmp(Lte), [ExtractValue(v)])
    case "$gt" => row(column, Cmp(Gt), [ExtractValue(v)])
    case "$gte" => row(column, Cmp(Gte), [ExtractValue(v)])
    case "$contains" => row(column, Cmp(Like), [Pattern(ExtractValue(v))])
    case "$between" => row(column, Rng, [ExtractValue(v.items[0]), ExtractValue(v.items[1])])
    case "$in" => if v.items == [] then False else row(column, Member(false), Arguments(v.items))
    case "$nin" => if v.items == [] then True else row(column, Member(true), Arguments(v.items))
  }

  lemma AtomMeans(row: Row, column: string, op: string, v: Json)
    ensures ReadAtom(op, v).Ok? <==> OperatorOk(op, v)
    ensures ReadAtom(op, v).Err? ==> ReadAtom(op, v).code == FILTER_INVALID
    ensures OperatorOk(op, v) ==> AtomMeaning(row, column, ReadAtom(op, v).value) == OperatorTruth(row, column, op, v)
  {
    if v.JArray? { assert Extracted(v.items) == Arguments(v.items); }
  }

  // ---- values --------------------------------------------------------------

  /** The JSON value that a plain or integer argument stands for. */
  ghost function JsonOf(v: SqlValue): Json
  {
    match v
    case Plain(j) => j
    case Integer(i) => JNumber(i as real)
    case Pattern(of) => JNull
    case List(items) => JArray(JsonsOf(items))
  }

  ghost function JsonsOf(vs: seq<SqlValue>): (r: seq<Json>)
    ensures |r| == |vs| && forall i :: 0 <= i < |vs| ==> r[i] == JsonOf(vs[i])
  {
    if vs == [] then [] else JsonsOf(vs[..|vs| - 1]) + [JsonOf(vs[|vs| - 1])]
  }

  ghost predicate IsWhole(n: real, i: int) {
    n == i as real && -0x8000_0000_0000_0000 <= i < 0x8000_0000_0000_0000
  }

  /** No value is changed on its way to the driver: whole 64-bit numbers become integers, an array a
      list, anything else stays as it is. */
  lemma ValuePreserved(j: Json)
    ensures JsonOf(ExtractValue(j)) == j
    ensures ExtractValue(j).Integer? <==>
              j.JNumber? && exists i :: IsWhole(j.n, i)
    ensures ExtractValue(j).List? <==> j.JArray?
  {
    if j.JArray? { assert JsonOf(ExtractValue(j)).items == j.items; }
    if j.JNumber? && ExtractValue(j).Integer? { assert IsWhole(j.n, j.n.Floor); }
  }

  // ---- filters -------------------------------------------------------------

  ghost predicate Flawed(schema: Schema, j: Json, code: string)
    decreases j, 0
  {
    if !j.JObject? then code == FILTER_INVALID
    else exists k :: k in j.members && MemberFlawed(schema, k, j.members[k], code)
  }

  /** Something in the member deserves the code. */
  ghost predicate MemberFlawed(schema: Schema, name: string, v: Json, code: string)
    decreases v, 1
  {
    if name == "$and" || name == "$or" then
      if v.JArray? then exists i :: 0 <= i < |v.items| && Flawed(schema, v.items[i], code) else code == FILTER_INVALID
    else if name == "$not" then Flawed(schema, v, code)
    else if name != "" && name[0] == '$' then code == FILTER_INVALID
    else if !Known(schema, name) then code == FIELD_UNKNOWN
    else code == FILTER_INVALID && (v.JObject? ==> exists op :: op in v.members && !OperatorOk(op, v.members[op]))
  }

  /** Every operator is known and used properly, every field belongs to the schema. */
  ghost predicate Flawless(schema: Schema, j: Json) {
    !Flawed(schema, j, FILTER_INVALID) && !Flawed(schema, j, FIELD_UNKNOWN)
  }

  /** An object holds if all its members do. */
  ghost function FilterTruth(row: Row, schema: Schema, j: Json): Truth
    decreases j, 0
  {
    if !j.JObject? then Unknown else AllOf(set k | k in j.members :: MemberTruth(row, schema, k, j.members[k]))
  }

  /** $and holds if all its alternatives do, $or if one does, $not if its body does not; a field if all
      tests of its column do. */
  ghost function MemberTruth(row: Row, schema: Schema, name: string, v: Json): Truth
    decreases v, 1
  {
    match name
    case "$and" =>
      if v.JArray? then AllOf(set i | 0 <= i < |v.items| :: FilterTruth(row, schema, v.items[i])) else Unknown
    case "$or" =>
      if v.JArray? then AnyOf(set i | 0 <= i < |v.items| :: FilterTruth(row, schema, v.items[i])) else Unknown
    case "$not" => Not3(FilterTruth(row, schema, v))
    case _ => if Known(schema, name) then FieldTruth(row, Column(schema, name), v) else Unknown
  }

  ghost function FieldTruth(row: Row, column: string, v: Json): Truth {
    if !v.JObject? || exists op :: op in v.members && !OperatorOk(op, v.members[op]) then Unknown
    else AllOf(set op | op in v.members :: OperatorTruth(row, column, op, v.members[op]))
  }

  // ---- reading -------------------------------------------------------------

  ghost predicate Enumerates(keys: seq<string>, names: set<string>) { forall k :: k in keys <==> k in names }

  lemma SortedEnumerates(names: set<string>)
    ensures Enumerates(SortedKeys(names), names)
  {
    SortMembers(Enumerate(names));
  }

  /** The reader finds no flaw, or answers with the code of one. */
  lemma {:induction false} ReadFlaws(schema: Schema, j: Json)
    requires j.JObject?
    ensures var r := ReadObject(schema, j);
            if r.Ok? then forall code :: !Flawed(schema, j, code) else Flawed(schema, j, r.code)
    decreases j, 2, 0
  {
    var keys := SortedKeys(j.members.Keys);
    SortedEnumerates(j.members.Keys);
    MembersFlaws(schema, j, keys);
  }

  lemma {:induction false} ReadCodes(schema: Schema, j: Json)
    requires j.JObject?
    ensures ReadObject(schema, j).Err? ==> ReadObject(schema, j).code in {FILTER_INVALID, FIELD_UNKNOWN}
  {
    ReadFlaws(schema, j);
    if ReadObject(schema, j).Err? { FlawCodes(schema, j, ReadObject(schema, j).code); }
  }

  lemma {:induction false} FlawCodes(schema: Schema, j: Json, code: string)
    requires Flawed(schema, j, code)
    ensures code in {FILTER_INVALID, FIELD_UNKNOWN}
    decreases j
  {
    if j.JObject? {
      var k :| k in j.members && MemberFlawed(schema, k, j.members[k], code);
      var v := j.members[k];
      if (k == "$and" || k == "$or") && v.JArray? {
        var i :| 0 <= i < |v.items| && Flawed(schema, v.items[i], code);
        FlawCodes(schema, v.items[i], code);
      } else if k == "$not" {
        FlawCodes(schema, v, code);
      }
    }
  }

  lemma {:induction false} MembersFlaws(schema: Schema, j: Json, keys: seq<string>)
    requires j.JObject? && forall k :: k in keys ==> k in j.members
    ensures var r := ReadMembers(schema, j, keys);
            if r.Ok? then forall k, code :: k in keys ==> !MemberFlawed(schema, k, j.members[k], code)
            else exists k :: k in keys && MemberFlawed(schema, k, j.members[k], r.code)
    decreases j, 1, |keys|
  {
    if keys != [] {
      var n := |keys| - 1;
      assert keys == keys[..n] + [keys[n]];
      MembersFlaws(schema, j, keys[..n]);
      MemberFlaws(schema, j, keys[n]);
    }
  }

  lemma {:induction false} MemberFlaws(schema: Schema, j: Json, name: string)
    requires j.JObject? && name in j.members
    ensures var r := ReadMember(schema, j, name);
            if r.Ok? then forall code :: !MemberFlawed(schema, name, j.members[name], code)
            else MemberFlawed(schema, name, j.members[name], r.code)
    decreases j, 0, 0
  {
    var v := j.members[name];
    if IsLogical(name) {
      LogicalFlaws(schema, name, v);
    } else {
      GetFieldIs(schema, name);
      if Known(schema, name) && v.JObject? {
        SortedEnumerates(v.members.Keys);
        AtomsFlaws(v, SortedKeys(v.members.Keys));
      }
    }
  }

  lemma {:induction false} LogicalFlaws(schema: Schema, op: string, v: Json)
    requires IsLogical(op)
    ensures var r := ReadLogical(schema, op, v);
            if r.Ok? then forall code :: !MemberFlawed(schema, op, v, code) else MemberFlawed(schema, op, v, r.code)
    decreases v, 4, 0
  {
    if op == "$not" {
      if v.JObject? { ReadFlaws(schema, v); }
    } else if v.JArray? && (op == "$and" || op == "$or") {
      ItemsFlaws(schema, v, |v.items|);
    }
  }

  lemma {:induction false} ItemsFlaws(schema: Schema, v: Json, n: nat)
    requires v.JArray? && n <= |v.items|
    ensures var r := ReadItems(schema, v, n);
            if r.Ok? then forall i, code :: 0 <= i < n ==> !Flawed(schema, v.items[i], code)
            else exists i :: 0 <= i < n && Flawed(schema, v.items[i], r.code)
    decreases v, 3, n
  {
    hide ReadObject, Flawed;
    if n > 0 {
      ItemsFlaws(schema, v, n - 1);
      if v.items[n - 1].JObject? { ReadFlaws(schema, v.items[n - 1]); } else { ScalarFlawed(schema, v.items[n - 1]); }
    }
  }

  lemma ScalarFlawed(schema: Schema, j: Json)
    requires !j.JObject?
    ensures Flawed(schema, j, FILTER_INVALID)
  {
  }

  lemma {:induction false} AtomsFlaws(v: Json, ops: seq<string>)
    requires v.JObject? && forall op :: op in ops ==> op in v.members
    ensures var r := ReadAtoms(v, ops);
            if r.Ok? then forall op :: op in ops ==> OperatorOk(op, v.members[op])
            else r.code == FILTER_INVALID && exists op :: op in ops && !OperatorOk(op, v.members[op])
    decreases |ops|
  {
    if ops != [] {
      var n := |ops| - 1;
      assert ops == ops[..n] + [ops[n]];
      AtomsFlaws(v, ops[..n]);
      AtomMeans((column, test, values) => Unknown, "", ops[n], v.members[ops[n]]);
    }
  }

  // ---- meaning -------------------------------------------------------------

  /** The condition read from a filter means what the filter means. */
  lemma {:induction false} ReadMeans(row: Row, schema: Schema, j: Json)
    requires j.JObject? && ReadObject(schema, j).Ok?
    ensures Meaning(row, ReadObject(schema, j).value) == FilterTruth(row, schema, j)
    decreases j, 2, 0
  {
    var keys := SortedKeys(j.members.Keys);
    SortedEnumerates(j.members.Keys);
    MembersMean(row, schema, j, keys);
    var vs := Meanings(row, ReadMembers(schema, j, keys).value);
    ConjIsAll(vs);
    assert Values(vs) == set k | k in j.members :: MemberTruth(row, schema, k, j.members[k]);
  }

  lemma NoneMean(row: Row)
    ensures Values(Meanings(row, [])) == {}
  {
  }

  lemma MeaningsSnoc(row: Row, before: seq<Cond>, c: Cond)
    ensures Values(Meanings(row, before + [c])) == Values(Meanings(row, before)) + {Meaning(row, c)}
  {
    hide Meaning;
    assert (before + [c])[..|before|] == before;
    assert Meanings(row, before + [c]) == Meanings(row, before) + [Meaning(row, c)];
  }

  lemma {:induction false} MembersMean(row: Row, schema: Schema, j: Json, keys: seq<string>)
    requires j.JObject? && (forall k :: k in keys ==> k in j.members) && ReadMembers(schema, j, keys).Ok?
    ensures Values(Meanings(row, ReadMembers(schema, j, keys).value))
         == set k | k in keys :: MemberTruth(row, schema, k, j.members[k])
    decreases j, 1, |keys|
  {
    if keys != [] {
      var n := |keys| - 1;
      assert keys == keys[..n] + [keys[n]];
      var before, c := ReadMembers(schema, j, keys[..n]).value, ReadMember(schema, j, keys[n]).value;
      MembersMean(row, schema, j, keys[..n]);
      MemberMeans(row, schema, j, keys[n]);
      MeaningsSnoc(row, before, c);
    }
  }

  lemma {:induction false} MemberMeans(row: Row, schema: Schema, j: Json, name: string)
    requires j.JObject? && name in j.members && ReadMember(schema, j, name).Ok?
    ensures Meaning(row, ReadMember(schema, j, name).value) == MemberTruth(row, schema, name, j.members[name])
    decreases j, 0, 0
  {
    hide Meaning, FilterTruth, ReadLogical, ReadField, FieldTruth, GetField, Known, Column;
    var v := j.members[name];
    if IsLogical(name) {
      LogicalMeans(row, schema, name, v);
    } else {
      ColumnIs(schema, name);
      FieldMeans(row, GetField(schema, name).value, v);
    }
  }

  lemma ColumnIs(schema: Schema, name: string)
    requires GetField(schema, name).Some?
    ensures Known(schema, name)
    ensures var field := GetField(schema, name).value;
            Column(schema, name) == if field.column == "" then field.name else field.column
  {
    hide EqualFold;
    GetFieldIs(schema, name);
  }

  lemma {:induction false} LogicalMeans(row: Row, schema: Schema, op: string, v: Json)
    requires IsLogical(op) && ReadLogical(schema, op, v).Ok?
    ensures Meaning(row, ReadLogical(schema, op, v).value) == MemberTruth(row, schema, op, v)
    decreases v, 4, 0
  {
    if op == "$not" {
      ReadMeans(row, schema, v);
    } else {
      var vs := Meanings(row, ReadItems(schema, v, |v.items|).value);
      ItemsMean(row, schema, v, |v.items|);
      ConjIsAll(vs);
      DisjIsAny(vs);
    }
  }

  lemma {:induction false} ItemsMean(row: Row, schema: Schema, v: Json, n: nat)
    requires v.JArray? && n <= |v.items| && ReadItems(schema, v, n).Ok?
    ensures Values(Meanings(row, ReadItems(schema, v, n).value))
         == set i | 0 <= i < n :: FilterTruth(row, schema, v.items[i])
    decreases v, 3, n
  {
    hide ReadObject, Meaning, FilterTruth, Values;
    if n == 0 { NoneMean(row); }
    if n > 0 {
      var before, c := ReadItems(schema, v, n - 1).value, ReadObject(schema, v.items[n - 1]).value;
      ItemsMean(row, schema, v, n - 1);
      ReadMeans(row, schema, v.items[n - 1]);
      MeaningsSnoc(row, before, c);
    }
  }

  lemma FieldMeans(row: Row, field: Field, v: Json)
    requires ReadField(field, v).Ok?
    ensures Meaning(row, ReadField(field, v).value)
         == FieldTruth(row, if field.column == "" then field.name else field.column, v)
  {
    hide OperatorTruth, OperatorOk, AtomMeaning, SortedKeys, ReadAtoms, Values;
    var ops, column := SortedKeys(v.members.Keys), ResolvedColumn(field);
    SortedEnumerates(v.members.Keys);
    AtomsFlaws(v, ops);
    AtomsMean(row, column, v, ops);
    ConjIsAll(AtomMeanings(row, column, ReadAtoms(v, ops).value));
    assert (set op | op in ops :: OperatorTruth(row, column, op, v.members[op]))
        == set op | op in v.members :: OperatorTruth(row, column, op, v.members[op]);
  }

  lemma AtomsSnoc(row: Row, column: string, before: seq<Atom>, a: Atom)
    ensures Values(AtomMeanings(row, column, before + [a]))
         == Values(AtomMeanings(row, column, before)) + {AtomMeaning(row, column, a)}
  {
    hide AtomMeaning;
    assert AtomMeanings(row, column, before + [a]) == AtomMeanings(row, column, before) + [AtomMeaning(row, column, a)];
  }

  lemma {:induction false} AtomsMean(row: Row, column: string, v: Json, ops: seq<string>)
    requires v.JObject? && (forall op :: op in ops ==> op in v.members && OperatorOk(op, v.members[op]))
    requires ReadAtoms(v, ops).Ok?
    ensures Values(AtomMeanings(row, column, ReadAtoms(v, ops).value))
         == set op | op in ops :: OperatorTruth(row, column, op, v.members[op])
    decreases |ops|
  {
    if ops != [] {
      var n := |ops| - 1;
      assert ops == ops[..n] + [ops[n]];
      var before, a := ReadAtoms(v, ops[..n]).value, ReadAtom(ops[n], v.members[ops[n]]).value;
      AtomsMean(row, column, v, ops[..n]);
      AtomMeans(row, column, ops[n], v.members[ops[n]]);
      AtomsSnoc(row, column, before, a);
    }
  }
}

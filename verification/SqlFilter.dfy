/** NWP filters: the JSON form, the conditions it denotes, and the SQL tokens the
    translator emits for them. */
module SqlFilter {
  import opened Common
  import opened Results
  import opened StringOrder

  datatype Json =
    | JNull
    | JBool(b: bool)
    | JNumber(n: real)
    | JString(s: string)
    | JArray(items: seq<Json>)
    | JObject(members: map<string, Json>)

  /** A value handed to the database driver. A JSON array stays a list wherever it occurs. */
  datatype SqlValue =
    | Plain(json: Json)
    | Integer(i: int)
    | Pattern(of: SqlValue)
    | List(items: seq<SqlValue>)

  function ExtractValue(j: Json): SqlValue {
    match j
    case JNumber(r) =>
      if r == (r.Floor as real) && -(TWO63 as int) <= r.Floor < TWO63 then Integer(r.Floor) else Plain(j)
    case JArray(items) => List(seq(|items|, i requires 0 <= i < |items| => Plain(items[i])))
    case _ => Plain(j)
  }

  datatype Dialect = SqlServer | PostgreSql

  datatype Field = Field(name: string, column: string)

  type Schema = seq<Field>

  function Lower(c: char): char {
    if 'A' <= c <= 'Z' then ((c as int) + 32) as char else c
  }

  predicate EqualFold(a: string, b: string) {
    |a| == |b| && forall i :: 0 <= i < |a| ==> Lower(a[i]) == Lower(b[i])
  }

  function GetField(schema: Schema, name: string): Option<Field> {
    if schema == [] then None
    else if EqualFold(schema[0].name, name) then Some(schema[0])
    else GetField(schema[1..], name)
  }

  function ResolvedColumn(f: Field): string { if f.column != "" then f.column else f.name }

  // ---- conditions ----------------------------------------------------------

  datatype CompareOp = Eq | Ne | Lt | Lte | Gt | Gte | Like

  datatype Atom =
    | Compare(op: CompareOp, arg: SqlValue)
    | Between(lo: SqlValue, hi: SqlValue)
    | In(negated: bool, values: seq<SqlValue>)

  /** All: the members of an object, in key order. Logic: a $and or $or array.
      Test: the operators applied to one column. */
  datatype Cond =
    | All(parts: seq<Cond>)
    | Logic(either: bool, parts: seq<Cond>)
    | Not(body: Cond)
    | Test(column: string, atoms: seq<Atom>)

  const FILTER_INVALID := "NWP-QUERY-FILTER-INVALID"
  const FIELD_UNKNOWN := "NWP-QUERY-FIELD-UNKNOWN"

  // ---- reading the JSON form -----------------------------------------------

  ghost function Enumerate(keys: set<string>): (r: seq<string>)
    ensures |r| == |keys| && forall x :: x in r <==> x in keys
    ensures forall i, j :: 0 <= i < j < |r| ==> r[i] != r[j]
  {
    if keys == {} then []
    else
      var k :| k in keys;
      [k] + Enumerate(keys - {k})
  }

  /** The keys of an object in ascending order. */
  ghost function SortedKeys(keys: set<string>): seq<string> { Sort(Enumerate(keys)) }

  predicate IsLogical(name: string) { name != "" && name[0] == '$' }

  ghost function ReadObject(schema: Schema, j: Json): Result<Cond>
    requires j.JObject?
    decreases j, 2, 0
  {
    var parts := ReadMembers(schema, j, SortedKeys(j.members.Keys));
    if parts.Err? then Err(parts.code) else Ok(All(parts.value))
  }

  ghost function ReadMembers(schema: Schema, j: Json, keys: seq<string>): Result<seq<Cond>>
    requires j.JObject?
    decreases j, 1, |keys|
  {
    if keys == [] then Ok([])
    else
      var before := ReadMembers(schema, j, keys[..|keys| - 1]);
      if before.Err? then before
      else
        var c := ReadMember(schema, j, keys[|keys| - 1]);
        if c.Err? then Err(c.code) else Ok(before.value + [c.value])
  }

  ghost function ReadMember(schema: Schema, j: Json, name: string): Result<Cond>
    requires j.JObject?
    decreases j, 0, 0
  {
    if name !in j.members then Err(FILTER_INVALID)
    else if IsLogical(name) then ReadLogical(schema, name, j.members[name])
    else
      var field := GetField(schema, name);
      if field.None? then Err(FIELD_UNKNOWN)
      else ReadField(field.value, j.members[name])
  }

  ghost function ReadLogical(schema: Schema, op: string, value: Json): Result<Cond>
    decreases value, 4, 0
  {
    if op == "$not" then
      if !value.JObject? then Err(FILTER_INVALID)
      else
        var body := ReadObject(schema, value);
        if body.Err? then body else Ok(Not(body.value))
    else if op != "$and" && op != "$or" then Err(FILTER_INVALID)
    else if !value.JArray? then Err(FILTER_INVALID)
    else
      var parts := ReadItems(schema, value, |value.items|);
      if parts.Err? then Err(parts.code) else Ok(Logic(op == "$or", parts.value))
  }

  /** The first n elements of a $and or $or array. */
  ghost function ReadItems(schema: Schema, value: Json, n: nat): Result<seq<Cond>>
    requires value.JArray? && n <= |value.items|
    decreases value, 3, n
  {
    if n == 0 then Ok([])
    else
      var before := ReadItems(schema, value, n - 1);
      if before.Err? then before
      else if !value.items[n - 1].JObject? then Err(FILTER_INVALID)
      else
        var c := ReadObject(schema, value.items[n - 1]);
        if c.Err? then Err(c.code) else Ok(before.value + [c.value])
  }

  ghost function ReadField(field: Field, value: Json): Result<Cond> {
    if !value.JObject? then Err(FILTER_INVALID)
    else
      var atoms := ReadAtoms(value, SortedKeys(value.members.Keys));
      if atoms.Err? then Err(atoms.code) else Ok(Test(ResolvedColumn(field), atoms.value))
  }

  ghost function ReadAtoms(value: Json, ops: seq<string>): Result<seq<Atom>>
    requires value.JObject?
    decreases |ops|
  {
    if ops == [] then Ok([])
    else
      var before := ReadAtoms(value, ops[..|ops| - 1]);
      var op := ops[|ops| - 1];
      if before.Err? then before
      else if op !in value.members then Err(FILTER_INVALID)
      else
        var a := ReadAtom(op, value.members[op]);
        if a.Err? then Err(a.code) else Ok(before.value + [a.value])
  }

  function Extracted(items: seq<Json>): seq<SqlValue> {
    seq(|items|, i requires 0 <= i < |items| => ExtractValue(items[i]))
  }

  function ReadAtom(op: string, v: Json): Result<Atom> {
    if op == "$in" || op == "$nin" then
      if !v.JArray? then Err(FILTER_INVALID) else Ok(In(op == "$nin", Extracted(v.items)))
    else if op == "$between" then
      if !v.JArray? || |v.items| != 2 then Err(FILTER_INVALID)
      else Ok(Between(ExtractValue(v.items[0]), ExtractValue(v.items[1])))
    else if op == "$eq" then Ok(Compare(Eq, ExtractValue(v)))
    else if op == "$ne" then Ok(Compare(Ne, ExtractValue(v)))
    else if op == "$lt" then Ok(Compare(Lt, ExtractValue(v)))
    else if op == "$lte" then Ok(Compare(Lte, ExtractValue(v)))
    else if op == "$gt" then Ok(Compare(Gt, ExtractValue(v)))
    else if op == "$gte" then Ok(Compare(Gte, ExtractValue(v)))
    else if op == "$contains" then Ok(Compare(Like, Pattern(ExtractValue(v))))
    else Err(FILTER_INVALID)
  }

  // ---- meaning -------------------------------------------------------------

  /** SQL's truth values. */
  datatype Truth = True | False | Unknown

  function And3(a: Truth, b: Truth): Truth {
    if a == False || b == False then False else if a == True && b == True then True else Unknown
  }

  function Or3(a: Truth, b: Truth): Truth {
    if a == True || b == True then True else if a == False && b == False then False else Unknown
  }

  function Not3(a: Truth): Truth {
    match a case True => False case False => True case Unknown => Unknown
  }

  /** Comparison predicates of SQL as a row and a database decide them. */
  datatype Predicate = Cmp(op: CompareOp) | Rng | Member(negated: bool)

  type Row = (string, Predicate, seq<SqlValue>) -> Truth

  function AtomMeaning(row: Row, column: string, a: Atom): Truth {
    match a
    case Compare(op, v) => row(column, Cmp(op), [v])
    case Between(lo, hi) => row(column, Rng, [lo, hi])
    case In(negated, vs) => if vs == [] then (if negated then True else False) else row(column, Member(negated), vs)
  }

  function Conj(vs: seq<Truth>): Truth {
    if vs == [] then True else And3(Conj(vs[..|vs| - 1]), vs[|vs| - 1])
  }

  function Disj(vs: seq<Truth>): Truth {
    if vs == [] then False else Or3(Disj(vs[..|vs| - 1]), vs[|vs| - 1])
  }

  function AtomMeanings(row: Row, column: string, atoms: seq<Atom>): (r: seq<Truth>)
    ensures |r| == |atoms|
  {
    seq(|atoms|, i requires 0 <= i < |atoms| => AtomMeaning(row, column, atoms[i]))
  }

  /** What a filter denotes: conjunction of members, $and, $or and $not as written. */
  function Meaning(row: Row, c: Cond): Truth {
    match c
    case All(parts) => Conj(Meanings(row, parts))
    case Logic(either, parts) => if either then Disj(Meanings(row, parts)) else Conj(Meanings(row, parts))
    case Not(body) => Not3(Meaning(row, body))
    case Test(column, atoms) => Conj(AtomMeanings(row, column, atoms))
  }

  function Meanings(row: Row, parts: seq<Cond>): (r: seq<Truth>)
    ensures |r| == |parts|
    ensures forall i :: 0 <= i < |parts| ==> r[i] == Meaning(row, parts[i])
  {
    if parts == [] then []
    else Meanings(row, parts[..|parts| - 1]) + [Meaning(row, parts[|parts| - 1])]
  }

  // ---- emitted tokens ------------------------------------------------------

  /** The pieces of the emitted text. Param carries its index and the value bound to it. */
  datatype Tok =
    | TOpen | TClose | TAnd | TOr | TNot | TColumn(column: string) | TCompare(op: CompareOp)
    | TIn | TNotIn | TBetween | TTrue | TFalse | Param(index: nat, value: SqlValue)

  function AtomToks(column: string, a: Atom, n: nat): seq<Tok> {
    match a
    case Compare(op, v) => [TColumn(column), TCompare(op), Param(n, v)]
    case Between(lo, hi) => [TColumn(column), TBetween, Param(n, lo), TAnd, Param(n + 1, hi)]
    case In(negated, vs) =>
      if vs == [] then [if negated then TTrue else TFalse]
      else [TColumn(column), if negated then TNotIn else TIn, Param(n, List(vs))]
  }

  function AtomParams(a: Atom): nat {
    match a
    case Compare(_, _) => 1
    case Between(_, _) => 2
    case In(_, vs) => if vs == [] then 0 else 1
  }

  /** How many parameters precede the k-th atom. */
  function AtomsParams(atoms: seq<Atom>): nat {
    if atoms == [] then 0 else AtomsParams(atoms[..|atoms| - 1]) + AtomParams(atoms[|atoms| - 1])
  }

  function AtomClauses(column: string, atoms: seq<Atom>, n: nat): (r: seq<seq<Tok>>)
    ensures |r| == |atoms|
  {
    if atoms == [] then []
    else
      var k := |atoms| - 1;
      AtomClauses(column, atoms[..k], n) + [AtomToks(column, atoms[k], n + AtomsParams(atoms[..k]))]
  }

  function Params(c: Cond): nat {
    match c
    case All(parts) => PartsParams(parts)
    case Logic(_, parts) => PartsParams(parts)
    case Not(body) => Params(body)
    case Test(_, atoms) => AtomsParams(atoms)
  }

  function PartsParams(parts: seq<Cond>): nat {
    if parts == [] then 0 else PartsParams(parts[..|parts| - 1]) + Params(parts[|parts| - 1])
  }

  /** Clauses joined by a separator. */
  function Join(cs: seq<seq<Tok>>, sep: Tok): seq<Tok> {
    if cs == [] then []
    else if |cs| == 1 then cs[0]
    else Join(cs[..|cs| - 1], sep) + [sep] + cs[|cs| - 1]
  }

  function Wrap(cs: seq<seq<Tok>>, sep: Tok): seq<Tok> {
    if cs == [] then [] else if |cs| == 1 then cs[0] else [TOpen] + Join(cs, sep) + [TClose]
  }

  function NonEmpty(cs: seq<seq<Tok>>): seq<seq<Tok>> {
    if cs == [] then []
    else NonEmpty(cs[..|cs| - 1]) + (if cs[|cs| - 1] == [] then [] else [cs[|cs| - 1]])
  }

  /** The tokens of a condition whose first parameter has index n. */
  function Toks(c: Cond, n: nat): seq<Tok>
    decreases c, 1
  {
    match c
    case All(parts) => Wrap(Clauses(parts, n), TAnd)
    case Logic(either, parts) => Wrap(NonEmpty(Clauses(parts, n)), if either then TOr else TAnd)
    case Not(body) =>
      var inner := Toks(body, n);
      if inner == [] then [] else [TNot, TOpen] + inner + [TClose]
    case Test(column, atoms) =>
      var cs := AtomClauses(column, atoms, n);
      if |cs| == 1 then cs[0] else [TOpen] + Join(cs, TAnd) + [TClose]
  }

  function Clauses(parts: seq<Cond>, n: nat): (r: seq<seq<Tok>>)
    ensures |r| == |parts|
    decreases parts, 0
  {
    if parts == [] then []
    else
      var k := |parts| - 1;
      Clauses(parts[..k], n) + [Toks(parts[k], n + PartsParams(parts[..k]))]
  }
}

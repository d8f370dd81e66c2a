/** JSON documents as text shows them, as generic values, and as the records decoded from them. */
module Json {
  import opened Options

  /** A document in source order: an object may repeat a key. A number that is not an integer is known by
      its floating-point representation. */
  datatype Json =
    | Null
    | Bool(flag: bool)
    | Number(n: int)
    | Fraction(bits: nat)
    | Text(text: string)
    | Array(items: seq<Json>)
    | Object(members: seq<Pair>)

  datatype Pair = Pair(key: string, value: Json)

  /** A generic value: the last occurrence of a key decides. */
  datatype Value =
    | VNull
    | VBool(flag: bool)
    | VNumber(n: int)
    | VFraction(bits: nat)
    | VText(text: string)
    | VArray(items: seq<Value>)
    | VObject(fields: map<string, Value>)

  function ToValue(j: Json): Value {
    match j
    case Null => VNull
    case Bool(b) => VBool(b)
    case Number(n) => VNumber(n)
    case Fraction(bits) => VFraction(bits)
    case Text(s) => VText(s)
    case Array(items) => VArray(seq(|items|, i requires 0 <= i < |items| => ToValue(items[i])))
    case Object(members) => VObject(FieldsOf(members))
  }

  function FieldsOf(members: seq<Pair>): map<string, Value> {
    if members == [] then map[]
    else
      var last := members[|members| - 1];
      FieldsOf(members[..|members| - 1])[last.key := ToValue(last.value)]
  }

  /** The last value under a key. */
  function Find(members: seq<Pair>, key: string): Option<Json> {
    if members == [] then None
    else if members[|members| - 1].key == key then Some(members[|members| - 1].value)
    else Find(members[..|members| - 1], key)
  }

  lemma {:induction false} FindShows(members: seq<Pair>, key: string)
    ensures key in FieldsOf(members) <==> Find(members, key).Some?
    ensures key in FieldsOf(members) ==> ToValue(Find(members, key).value) == FieldsOf(members)[key]
    decreases |members|
  {
    if members != [] { FindShows(members[..|members| - 1], key); }
  }

  predicate Repeats(members: seq<Pair>, key: string) {
    exists i, j | 0 <= i < j < |members| :: members[i].key == key && members[j].key == key
  }

  predicate DistinctKeys(members: seq<Pair>) {
    forall i, j | 0 <= i < j < |members| :: members[i].key != members[j].key
  }

  /** No object in the document repeats a key. */
  predicate Proper(j: Json) {
    match j
    case Array(items) => forall i | 0 <= i < |items| :: Proper(items[i])
    case Object(members) => DistinctKeys(members) && forall i | 0 <= i < |members| :: Proper(members[i].value)
    case _ => true
  }

  lemma {:induction false} FindProper(members: seq<Pair>, key: string)
    requires forall i | 0 <= i < |members| :: Proper(members[i].value)
    ensures Find(members, key).Some? ==> Proper(Find(members, key).value)
    decreases |members|
  {
    if members != [] { FindProper(members[..|members| - 1], key); }
  }

  lemma {:induction false} FieldsKeys(members: seq<Pair>)
    ensures forall i | 0 <= i < |members| :: members[i].key in FieldsOf(members)
    decreases |members|
  {
    if members != [] {
      FieldsKeys(members[..|members| - 1]);
      forall i | 0 <= i < |members| ensures members[i].key in FieldsOf(members) {
        assert i < |members| - 1 ==> members[i] == members[..|members| - 1][i];
      }
    }
  }

  // ---- Records ----

  /** Whether a document can be read as a record with these fields: an object that repeats none of them
      and, if strict, holds no others; or an array giving each field in order. */
  predicate Record(j: Json, names: seq<string>, strict: bool) {
    match j
    case Array(items) => |items| == |names|
    case Object(members) =>
      && (forall i | 0 <= i < |names| :: !Repeats(members, names[i]))
      && (strict ==> forall i | 0 <= i < |members| :: members[i].key in names)
    case _ => false
  }

  function IndexOf(names: seq<string>, name: string): (i: nat)
    requires name in names
    ensures i < |names| && names[i] == name
  {
    if names[0] == name then 0 else IndexOf(names[1..], name) + 1
  }

  function Field(j: Json, names: seq<string>, name: string): Option<Json>
    requires name in names && (j.Array? ==> |j.items| == |names|)
  {
    match j
    case Array(items) => Some(items[IndexOf(names, name)])
    case Object(members) => Find(members, name)
    case _ => None
  }

  /** An optional field counts as given unless it is missing or null. */
  predicate Given(field: Option<Json>) { field.Some? && field.value != Null }

  function AsText(field: Option<Json>): Option<string> {
    if field.Some? && field.value.Text? then Some(field.value.text) else None
  }

  function AsNat(field: Option<Json>, limit: nat): Option<nat> {
    if field.Some? && field.value.Number? && 0 <= field.value.n <= limit then Some(field.value.n as nat) else None
  }

  function AsArray(field: Option<Json>): Option<seq<Json>> {
    if field.Some? && field.value.Array? then Some(field.value.items) else None
  }

  /** A proper document shows its value's fields, and reads as a record with any names. */
  lemma ShowsRecord(j: Json, fields: map<string, Value>, names: seq<string>, strict: bool)
    requires Proper(j) && ToValue(j) == VObject(fields)
    requires strict ==> forall key | key in fields :: key in names
    ensures j.Object? && Record(j, names, strict)
  {
    var members := j.members;
    FieldsKeys(members);
  }

  lemma ShowsField(j: Json, fields: map<string, Value>, names: seq<string>, name: string)
    requires Proper(j) && ToValue(j) == VObject(fields) && name in names
    ensures j.Object? && (name in fields <==> Field(j, names, name).Some?)
    ensures name in fields ==> Proper(Field(j, names, name).value) && ToValue(Field(j, names, name).value) == fields[name]
  {
    FindShows(j.members, name);
    FindProper(j.members, name);
  }

  /** The same of a document that repeats keys, if the field is a text: what the typed reading of a record
      sees is in the generic value too. */
  lemma TextInValue(j: Json, names: seq<string>, name: string, text: string)
    requires j.Object? && name in names && AsText(Field(j, names, name)) == Some(text)
    ensures name in ToValue(j).fields && ToValue(j).fields[name] == VText(text)
  {
    FindShows(j.members, name);
  }
}

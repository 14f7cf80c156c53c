/** The values a step's inputs hold, and their text in a request (adapter/render.go formatValue, jsonValue). */
module Values {
  import opened Bytes
  import opened JsonRead
  import opened JsonString
  import opened JsonText
  import opened Utf8Text

  /** A number or a boolean is Plain; it has one text everywhere. A map's fields are in the order the
      JSON library writes them, which is by key. */
  datatype Val =
    | Text(s: Bytes)
    | Null
    | Plain(json: Value)
    | List(elems: seq<Val>)
    | Map(fields: Fields)

  datatype Fields = NoFields | Field(key: Bytes, val: Val, rest: Fields)

  predicate ValOk(v: Val) {
    match v
    case Text(_) => true
    case Null => true
    case Plain(json) => (json.Word? || json.Number?) && ValueOk(json)
    case List(elems) => forall i :: 0 <= i < |elems| ==> ValOk(elems[i])
    case Map(fields) => FieldsOk(fields)
  }

  predicate FieldsOk(f: Fields) {
    f.Field? ==> ValOk(f.val) && FieldsOk(f.rest)
  }

  const NullWord: Value := Word([110, 117, 108, 108])

  /** A value as compact JSON. */
  function JsonOf(v: Val): Value
    decreases v, 0
  {
    match v
    case Text(s) => Str(Marshal(s, false))
    case Null => NullWord
    case Plain(json) => json
    case List(elems) => Array([], ItemsOf(elems))
    case Map(fields) => Object([], MembersOf(fields))
  }

  function ItemsOf(elems: seq<Val>): Items
    decreases elems, 1
  {
    if elems == [] then NoItems else Item([], JsonOf(elems[0]), [], ItemsOf(elems[1..]))
  }

  function MembersOf(f: Fields): Members
    decreases f, 1
  {
    if f.NoFields? then NoMembers else Member([], Marshal(f.key, false), [], [], JsonOf(f.val), [], MembersOf(f.rest))
  }

  lemma {:induction false} JsonIsOk(v: Val)
    requires ValOk(v)
    ensures ValueOk(JsonOf(v))
    decreases v, 0
  {
    match v {
      case Text(s) => MarshalReadsBack(s, false);
      case List(elems) => ItemsAreOk(elems);
      case Map(fields) => MembersAreOk(fields);
      case _ =>
    }
  }

  lemma {:induction false} ItemsAreOk(elems: seq<Val>)
    requires forall i :: 0 <= i < |elems| ==> ValOk(elems[i])
    ensures ItemsOk(ItemsOf(elems))
    decreases elems, 1
  {
    if elems != [] {
      JsonIsOk(elems[0]);
      ItemsAreOk(elems[1..]);
    }
  }

  lemma {:induction false} MembersAreOk(f: Fields)
    requires FieldsOk(f)
    ensures MembersOk(MembersOf(f))
    decreases f, 1
  {
    if f.Field? {
      MarshalReadsBack(f.key, false);
      JsonIsOk(f.val);
      MembersAreOk(f.rest);
    }
  }

  function JsonTextOf(v: Val): Bytes {
    JsonText.Text(Tokens(JsonOf(v)))
  }

  /** The text of a value: a string as it is, nothing for nil, JSON for lists and maps. */
  function FormatValue(v: Val): Bytes {
    match v
    case Text(s) => s
    case Null => []
    case _ => JsonTextOf(v)
  }

  /** What is written where a JSON value is expected: a string still goes in as it is. */
  function JsonValue(v: Val): Bytes {
    if v.Text? then v.s else JsonTextOf(v)
  }

  /** What is written inside a JSON string literal. */
  function JsonStringContent(s: Bytes): Bytes {
    BodyText(Marshal(s, false))
  }

  function FieldNamed(v: Val, name: Bytes): Option<Val> {
    if v.Map? then FieldIn(v.fields, name) else None
  }

  function FieldIn(f: Fields, name: Bytes): Option<Val> {
    if f.NoFields? then None else if f.key == name then Some(f.val) else FieldIn(f.rest, name)
  }

  // ---------- What the JSON means ----------

  /** j is the value: its text with what is not UTF-8 replaced, its elements in order, its fields under their names. */
  predicate Means(j: Json, v: Val)
    decreases v, 0
  {
    match v
    case Text(s) => j == JString(Repaired(s))
    case Null => j == JLiteral([110, 117, 108, 108])
    case Plain(json) => ValueOk(json) && j == Meaning(json)
    case List(elems) =>
      j.JArray? && |j.items| == |elems| && forall i :: 0 <= i < |elems| ==> Means(j.items[i], elems[i])
    case Map(fields) => j.JObject? && MeansAll(j.members, fields)
  }

  predicate MeansAll(members: seq<(Bytes, Json)>, f: Fields)
    decreases f, 1
  {
    match f
    case NoFields => members == []
    case Field(key, val, rest) =>
      members != [] && members[0].0 == Repaired(key) && Means(members[0].1, val) && MeansAll(members[1..], rest)
  }

  /** A value's JSON means the value. */
  lemma {:induction false} JsonMeans(v: Val)
    requires ValOk(v)
    ensures ValueOk(JsonOf(v)) && Means(Meaning(JsonOf(v)), v)
    decreases v, 0
  {
    JsonIsOk(v);
    match v {
      case Text(s) => MarshalReadsBack(s, false);
      case List(elems) => ItemsMean(elems);
      case Map(fields) => MembersMean(fields);
      case _ =>
    }
  }

  lemma {:induction false} ItemsMean(elems: seq<Val>)
    requires forall i :: 0 <= i < |elems| ==> ValOk(elems[i])
    ensures ItemsOk(ItemsOf(elems))
    ensures var items := ItemsMeaning(ItemsOf(elems));
      |items| == |elems| && forall i :: 0 <= i < |elems| ==> Means(items[i], elems[i])
    decreases elems, 1
  {
    ItemsAreOk(elems);
    if elems != [] {
      JsonMeans(elems[0]);
      ItemsMean(elems[1..]);
      var items, rest := ItemsMeaning(ItemsOf(elems)), ItemsMeaning(ItemsOf(elems[1..]));
      assert items == [Meaning(JsonOf(elems[0]))] + rest;
      forall i | 0 <= i < |elems| ensures Means(items[i], elems[i]) {
        assert i > 0 ==> Means(rest[i - 1], elems[1..][i - 1]);
      }
    }
  }

  lemma {:induction false} MembersMean(f: Fields)
    requires FieldsOk(f)
    ensures MembersOk(MembersOf(f)) && MeansAll(MembersMeaning(MembersOf(f)), f)
    decreases f, 1
  {
    MembersAreOk(f);
    if f.Field? {
      MarshalReadsBack(f.key, false);
      JsonMeans(f.val);
      MembersMean(f.rest);
      var rest := MembersMeaning(MembersOf(f.rest));
      assert MembersMeaning(MembersOf(f)) == [(Repaired(f.key), Meaning(JsonOf(f.val)))] + rest;
    }
  }
}

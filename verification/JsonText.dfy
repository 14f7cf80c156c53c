/** JSON texts as written (section 2 of RFC 8259): values with their whitespace, the tokens they are
    made of, and what they mean. */
module JsonText {
  import opened Bytes
  import opened JsonRead
  import opened JsonString
  import opened Sequences

  datatype Value =
    | Str(body: seq<Elem>)
    | Word(text: Bytes)
    | Number(minus: bool, whole: Bytes, frac: Bytes, exp: Exponent)
    | Object(space: Bytes, members: Members)
    | Array(space: Bytes, items: Items)

  datatype Exponent = NoExponent | Exponent(e: byte, sign: Bytes, digits: Bytes)

  datatype Members =
    | NoMembers
    | Member(before: Bytes, key: seq<Elem>, afterKey: Bytes, beforeValue: Bytes, value: Value, after: Bytes,
      rest: Members)

  datatype Items =
    | NoItems
    | Item(before: Bytes, value: Value, after: Bytes, rest: Items)

  /** A value with the whitespace around it. */
  datatype Document = Document(before: Bytes, value: Value, after: Bytes)

  predicate IsSpace(b: byte) {
    b == SPACE || b == TAB || b == NEWLINE || b == RETURN
  }

  predicate Spaces(s: Bytes) {
    forall i :: 0 <= i < |s| ==> IsSpace(s[i])
  }

  predicate Digits(s: Bytes) {
    forall i :: 0 <= i < |s| ==> IsDigit(s[i])
  }

  predicate WordOk(text: Bytes) {
    text == [116, 114, 117, 101] || text == [102, 97, 108, 115, 101] || text == [110, 117, 108, 108]
  }

  predicate NumberOk(whole: Bytes, frac: Bytes, exp: Exponent) {
    && Digits(whole) && |whole| > 0 && (whole[0] == 48 ==> |whole| == 1) && Digits(frac)
    && (exp.Exponent? ==> (exp.e == 69 || exp.e == 101) && (exp.sign == [] || exp.sign == [43] || exp.sign == [45])
                          && Digits(exp.digits) && |exp.digits| > 0)
  }

  predicate ValueOk(v: Value) {
    match v
    case Str(body) => BodyOk(body)
    case Word(text) => WordOk(text)
    case Number(_, whole, frac, exp) => NumberOk(whole, frac, exp)
    case Object(space, members) => Spaces(space) && MembersOk(members)
    case Array(space, items) => Spaces(space) && ItemsOk(items)
  }

  predicate MembersOk(m: Members) {
    match m
    case NoMembers => true
    case Member(before, key, afterKey, beforeValue, value, after, rest) =>
      Spaces(before) && BodyOk(key) && Spaces(afterKey) && Spaces(beforeValue) && ValueOk(value) && Spaces(after)
        && MembersOk(rest)
  }

  predicate ItemsOk(m: Items) {
    match m
    case NoItems => true
    case Item(before, value, after, rest) => Spaces(before) && ValueOk(value) && Spaces(after) && ItemsOk(rest)
  }

  predicate DocumentOk(d: Document) {
    Spaces(d.before) && ValueOk(d.value) && Spaces(d.after)
  }

  // ---------- Tokens ----------

  /** A string literal, or one byte of what is between them. */
  datatype Token = Gap(b: byte) | Quoted(body: seq<Elem>, isKey: bool)

  function TokenText(t: Token): Bytes {
    match t
    case Gap(b) => [b]
    case Quoted(body, _) => [QUOTE] + BodyText(body) + [QUOTE]
  }

  function Texts(tokens: seq<Token>): seq<Bytes> {
    seq(|tokens|, i requires 0 <= i < |tokens| => TokenText(tokens[i]))
  }

  function Text(tokens: seq<Token>): Bytes {
    Flatten(Texts(tokens))
  }

  function Gaps(s: Bytes): (r: seq<Token>)
    ensures |r| == |s| && forall i :: 0 <= i < |s| ==> r[i] == Gap(s[i])
  {
    seq(|s|, i requires 0 <= i < |s| => Gap(s[i]))
  }

  function ExponentText(exp: Exponent): Bytes {
    if exp.Exponent? then [exp.e] + exp.sign + exp.digits else []
  }

  function NumberText(minus: bool, whole: Bytes, frac: Bytes, exp: Exponent): Bytes {
    (if minus then [45] else []) + whole + (if frac == [] then [] else [46] + frac) + ExponentText(exp)
  }

  /** What follows a value in an object or an array. */
  function AfterValue(after: Bytes, last: bool): Bytes {
    if last then after else after + [COMMA]
  }

  function Tokens(v: Value): seq<Token> {
    match v
    case Str(body) => [Quoted(body, false)]
    case Word(text) => Gaps(text)
    case Number(minus, whole, frac, exp) => Gaps(NumberText(minus, whole, frac, exp))
    case Object(space, members) => Gaps([123] + space) + (MembersTokens(members) + Gaps([125]))
    case Array(space, items) => Gaps([91] + space) + (ItemsTokens(items) + Gaps([93]))
  }

  function MembersTokens(m: Members): seq<Token> {
    match m
    case NoMembers => []
    case Member(before, key, afterKey, beforeValue, value, after, rest) =>
      Gaps(before) + ([Quoted(key, true)] + (Gaps(afterKey + ([COLON] + beforeValue)) + (Tokens(value)
      + (Gaps(AfterValue(after, rest.NoMembers?)) + MembersTokens(rest)))))
  }

  function ItemsTokens(m: Items): seq<Token> {
    match m
    case NoItems => []
    case Item(before, value, after, rest) =>
      Gaps(before) + (Tokens(value) + (Gaps(AfterValue(after, rest.NoItems?)) + ItemsTokens(rest)))
  }

  function DocumentTokens(d: Document): seq<Token> {
    Gaps(d.before) + (Tokens(d.value) + Gaps(d.after))
  }

  function DocumentText(d: Document): Bytes {
    Text(DocumentTokens(d))
  }

  /** Whether data is a JSON text. */
  ghost predicate IsJson(data: Bytes) {
    exists d :: DocumentOk(d) && DocumentText(d) == data
  }

  // ---------- Meaning ----------

  datatype Json =
    | JString(s: Bytes)
    | JLiteral(text: Bytes)
    | JObject(members: seq<(Bytes, Json)>)
    | JArray(items: seq<Json>)

  function Meaning(v: Value): Json
    requires ValueOk(v)
  {
    match v
    case Str(body) => JString(Read(body))
    case Word(text) => JLiteral(text)
    case Number(minus, whole, frac, exp) => JLiteral(NumberText(minus, whole, frac, exp))
    case Object(_, members) => JObject(MembersMeaning(members))
    case Array(_, items) => JArray(ItemsMeaning(items))
  }

  function MembersMeaning(m: Members): seq<(Bytes, Json)>
    requires MembersOk(m)
  {
    if m.NoMembers? then [] else [(Read(m.key), Meaning(m.value))] + MembersMeaning(m.rest)
  }

  function ItemsMeaning(m: Items): seq<Json>
    requires ItemsOk(m)
  {
    if m.NoItems? then [] else [Meaning(m.value)] + ItemsMeaning(m.rest)
  }

  // ---------- The text of tokens ----------

  lemma TextConcat(a: seq<Token>, b: seq<Token>)
    ensures Text(a + b) == Text(a) + Text(b)
  {
    FlattenConcat(Texts(a), Texts(b));
    assert Texts(a + b) == Texts(a) + Texts(b);
  }

  lemma TextFirst(a: seq<Token>)
    requires a != []
    ensures Text(a) == TokenText(a[0]) + Text(a[1..])
  {
    assert Texts(a)[1..] == Texts(a[1..]);
  }

  lemma {:induction false} TextOfGaps(s: Bytes)
    ensures Text(Gaps(s)) == s
  {
    if s != [] {
      TextOfGaps(s[1..]);
      TextFirst(Gaps(s));
      assert Gaps(s)[1..] == Gaps(s[1..]);
    }
  }

  // ---------- Tokens of a well-formed value ----------

  predicate TokenOk(t: Token) {
    if t.Quoted? then BodyOk(t.body) else t.b != QUOTE
  }

  predicate TokensOk(tokens: seq<Token>) {
    forall i :: 0 <= i < |tokens| ==> TokenOk(tokens[i])
  }

  lemma GapsOk(s: Bytes)
    requires forall i :: 0 <= i < |s| ==> s[i] != QUOTE
    ensures TokensOk(Gaps(s))
  {
  }

  lemma NumberIsPlain(minus: bool, whole: Bytes, frac: Bytes, exp: Exponent)
    requires NumberOk(whole, frac, exp)
    ensures TokensOk(Gaps(NumberText(minus, whole, frac, exp)))
  {
    var e := ExponentText(exp);
    forall i | 0 <= i < |e| ensures e[i] != QUOTE {
    }
  }

  lemma TokensConcatOk(a: seq<Token>, b: seq<Token>)
    requires TokensOk(a) && TokensOk(b)
    ensures TokensOk(a + b)
  {
  }

  /** A quotation mark only ever opens or closes a string. */
  lemma {:induction false} ValueTokensOk(v: Value)
    requires ValueOk(v)
    ensures TokensOk(Tokens(v))
    decreases v
  {
    match v {
      case Str(body) =>
      case Word(text) =>
      case Number(minus, whole, frac, exp) => NumberIsPlain(minus, whole, frac, exp);
      case Object(space, members) =>
        MembersTokensOk(members);
        TokensConcatOk(MembersTokens(members), Gaps([125]));
        TokensConcatOk(Gaps([123] + space), MembersTokens(members) + Gaps([125]));
      case Array(space, items) =>
        ItemsTokensOk(items);
        TokensConcatOk(ItemsTokens(items), Gaps([93]));
        TokensConcatOk(Gaps([91] + space), ItemsTokens(items) + Gaps([93]));
    }
  }

  lemma {:induction false} MembersTokensOk(m: Members)
    requires MembersOk(m)
    ensures TokensOk(MembersTokens(m))
    decreases m
  {
    if m.Member? {
      ValueTokensOk(m.value);
      MembersTokensOk(m.rest);
      var r4 := Gaps(AfterValue(m.after, m.rest.NoMembers?)) + MembersTokens(m.rest);
      var r3 := Tokens(m.value) + r4;
      var r2 := Gaps(m.afterKey + ([COLON] + m.beforeValue)) + r3;
      TokensConcatOk(Gaps(AfterValue(m.after, m.rest.NoMembers?)), MembersTokens(m.rest));
      TokensConcatOk(Tokens(m.value), r4);
      TokensConcatOk(Gaps(m.afterKey + ([COLON] + m.beforeValue)), r3);
      TokensConcatOk([Quoted(m.key, true)], r2);
      TokensConcatOk(Gaps(m.before), [Quoted(m.key, true)] + r2);
    }
  }

  lemma {:induction false} ItemsTokensOk(m: Items)
    requires ItemsOk(m)
    ensures TokensOk(ItemsTokens(m))
    decreases m
  {
    if m.Item? {
      ValueTokensOk(m.value);
      ItemsTokensOk(m.rest);
      var r4 := Gaps(AfterValue(m.after, m.rest.NoItems?)) + ItemsTokens(m.rest);
      TokensConcatOk(Gaps(AfterValue(m.after, m.rest.NoItems?)), ItemsTokens(m.rest));
      TokensConcatOk(Tokens(m.value), r4);
      TokensConcatOk(Gaps(m.before), Tokens(m.value) + r4);
    }
  }
}

/** Redacting a JSON text in place of its string values' tokens (archive/redact.go redactJSON). */
module RedactJson {
  import opened Bytes
  import opened JsonRead
  import opened JsonString
  import opened JsonText
  import opened Redact
  import opened Sequences
  import opened Utf8Text

  // ---------- The same, said of tokens and of values ----------

  /** A string literal whose text redaction changes is written anew; any other is left as it was. */
  ghost function RedactBody(secrets: set<Bytes>, body: seq<Elem>): (r: seq<Elem>)
    requires BodyOk(body)
    ensures BodyOk(r) && Read(r) == Repaired(RedactedText(secrets, Read(body)))
  {
    var s := Read(body);
    MarshalReadsBack(RedactedText(secrets, s), true);
    RepairedOnce(Decode(body));
    if RedactedText(secrets, s) != s then Marshal(RedactedText(secrets, s), true) else body
  }

  ghost function RedactToken(secrets: set<Bytes>, t: Token): Token
    requires TokenOk(t)
  {
    if t.Quoted? && !t.isKey then Quoted(RedactBody(secrets, t.body), false) else t
  }

  ghost function RedactTokens(secrets: set<Bytes>, tokens: seq<Token>): seq<Token>
    requires TokensOk(tokens)
  {
    seq(|tokens|, i requires 0 <= i < |tokens| => RedactToken(secrets, tokens[i]))
  }

  ghost function RedactValue(secrets: set<Bytes>, v: Value): (r: Value)
    requires ValueOk(v)
    ensures ValueOk(r)
  {
    match v
    case Str(body) => Str(RedactBody(secrets, body))
    case Object(space, members) => Object(space, RedactMembers(secrets, members))
    case Array(space, items) => Array(space, RedactItems(secrets, items))
    case _ => v
  }

  ghost function RedactMembers(secrets: set<Bytes>, m: Members): (r: Members)
    requires MembersOk(m)
    ensures MembersOk(r) && r.NoMembers? == m.NoMembers?
  {
    if m.NoMembers? then m
    else Member(m.before, m.key, m.afterKey, m.beforeValue, RedactValue(secrets, m.value), m.after,
      RedactMembers(secrets, m.rest))
  }

  ghost function RedactItems(secrets: set<Bytes>, m: Items): (r: Items)
    requires ItemsOk(m)
    ensures ItemsOk(r) && r.NoItems? == m.NoItems?
  {
    if m.NoItems? then m else Item(m.before, RedactValue(secrets, m.value), m.after, RedactItems(secrets, m.rest))
  }

  ghost function RedactDocument(secrets: set<Bytes>, d: Document): (r: Document)
    requires DocumentOk(d)
    ensures DocumentOk(r)
  {
    Document(d.before, RedactValue(secrets, d.value), d.after)
  }

  // ---------- What a key looks like ----------

  function SkipSpace(s: Bytes): Bytes {
    if s != [] && IsSpace(s[0]) then SkipSpace(s[1..]) else s
  }

  predicate ColonNext(s: Bytes) {
    var rest := SkipSpace(s);
    rest != [] && rest[0] == COLON
  }

  /** In tokens, with tail after them, exactly the keys are followed by a colon. */
  ghost predicate KeysTold(tokens: seq<Token>, tail: Bytes) {
    forall i :: 0 <= i < |tokens| ==> KeyTold(tokens, tail, i)
  }

  ghost predicate KeyTold(tokens: seq<Token>, tail: Bytes, i: nat)
    requires i < |tokens|
  {
    tokens[i].Quoted? ==> (tokens[i].isKey <==> ColonNext(Text(tokens[i + 1..]) + tail))
  }

  lemma KeysToldConcat(a: seq<Token>, b: seq<Token>, tail: Bytes)
    requires KeysTold(a, Text(b) + tail) && KeysTold(b, tail)
    ensures KeysTold(a + b, tail)
  {
    forall i | 0 <= i < |a + b| ensures KeyTold(a + b, tail, i) {
      if i < |a| {
        KeyToldBefore(a, b, tail, i);
      } else {
        assert KeyTold(b, tail, i - |a|);
        assert (a + b)[i + 1..] == b[i - |a| + 1..];
      }
    }
  }

  lemma KeyToldBefore(a: seq<Token>, b: seq<Token>, tail: Bytes, i: nat)
    requires i < |a| && KeyTold(a, Text(b) + tail, i)
    ensures KeyTold(a + b, tail, i)
  {
    assert (a + b)[i + 1..] == a[i + 1..] + b;
    TextConcat(a[i + 1..], b);
    Joins(Text(a[i + 1..]), Text(b), tail);
  }

  lemma GapsTold(s: Bytes, tail: Bytes)
    ensures KeysTold(Gaps(s), tail)
  {
  }

  lemma {:induction false} SpacesThen(space: Bytes, rest: Bytes)
    requires Spaces(space)
    ensures ColonNext(space + rest) == ColonNext(rest)
  {
    if space == [] {
      assert space + rest == rest;
    } else {
      SpacesThen(space[1..], rest);
      assert (space + rest)[1..] == space[1..] + rest;
    }
  }

  /** A key is told by the colon after it. */
  lemma KeyIsTold(key: seq<Elem>, afterKey: Bytes, beforeValue: Bytes, rest: seq<Token>, tail: Bytes)
    requires Spaces(afterKey)
    ensures KeysTold([Quoted(key, true)], Text(Gaps(afterKey + ([COLON] + beforeValue)) + rest) + tail)
  {
    var gap := afterKey + ([COLON] + beforeValue);
    TextConcat(Gaps(gap), rest);
    TextOfGaps(gap);
    ColonComes(afterKey, beforeValue, Text(rest), tail);
    assert Text([]) + (Text(Gaps(gap) + rest) + tail) == Text(Gaps(gap) + rest) + tail;
  }

  lemma ColonComes(space: Bytes, a: Bytes, b: Bytes, c: Bytes)
    requires Spaces(space)
    ensures ColonNext(space + ([COLON] + a) + b + c)
  {
    assert space + ([COLON] + a) + b + c == space + ([COLON] + a + b + c);
    SpacesThen(space, [COLON] + a + b + c);
  }

  lemma NoColonAfter(after: Bytes, last: bool, rest: seq<Token>, tail: Bytes)
    requires Spaces(after) && !ColonNext(tail) && (last ==> rest == [])
    ensures !ColonNext(Text(Gaps(AfterValue(after, last)) + rest) + tail)
  {
    TextConcat(Gaps(AfterValue(after, last)), rest);
    TextOfGaps(AfterValue(after, last));
    if last {
      assert Text(Gaps(AfterValue(after, last)) + rest) + tail == after + tail;
      SpacesThen(after, tail);
    } else {
      assert Text(Gaps(AfterValue(after, last)) + rest) + tail == after + ([COMMA] + (Text(rest) + tail));
      SpacesThen(after, [COMMA] + (Text(rest) + tail));
    }
  }

  lemma GapsFirst(gap: Bytes, rest: seq<Token>, tail: Bytes)
    requires KeysTold(rest, tail)
    ensures KeysTold(Gaps(gap) + rest, tail)
  {
    GapsTold(gap, Text(rest) + tail);
    KeysToldConcat(Gaps(gap), rest, tail);
  }

  lemma {:induction false} ValueTold(v: Value, tail: Bytes)
    requires ValueOk(v) && !ColonNext(tail)
    ensures KeysTold(Tokens(v), tail)
    decreases v
  {
    match v {
      case Str(body) =>
        assert Text([]) + tail == tail;
      case Word(_) =>
      case Number(_, _, _, _) =>
      case Object(space, members) =>
        MembersTold(members, [125] + tail);
        ClosedTold(space, 123, MembersTokens(members), 125, tail);
      case Array(space, items) =>
        ItemsTold(items, [93] + tail);
        ClosedTold(space, 91, ItemsTokens(items), 93, tail);
    }
  }

  lemma ClosedTold(space: Bytes, open: byte, inner: seq<Token>, close: byte, tail: Bytes)
    requires KeysTold(inner, [close] + tail)
    ensures KeysTold(Gaps([open] + space) + (inner + Gaps([close])), tail)
  {
    TextOfGaps([close]);
    KeysToldConcat(inner, Gaps([close]), tail);
    GapsFirst([open] + space, inner + Gaps([close]), tail);
  }

  lemma {:induction false} MembersTold(m: Members, tail: Bytes)
    requires MembersOk(m) && !ColonNext(tail)
    ensures KeysTold(MembersTokens(m), tail)
    decreases m
  {
    if m.Member? {
      MembersTold(m.rest, tail);
      var r5 := MembersTokens(m.rest);
      var r4 := Gaps(AfterValue(m.after, m.rest.NoMembers?)) + r5;
      GapsFirst(AfterValue(m.after, m.rest.NoMembers?), r5, tail);
      NoColonAfter(m.after, m.rest.NoMembers?, r5, tail);
      ValueTold(m.value, Text(r4) + tail);
      KeysToldConcat(Tokens(m.value), r4, tail);
      MemberTold(m, Tokens(m.value) + r4, tail);
    }
  }

  lemma MemberTold(m: Members, rest: seq<Token>, tail: Bytes)
    requires m.Member? && Spaces(m.afterKey) && KeysTold(rest, tail)
    ensures KeysTold(
      Gaps(m.before) + ([Quoted(m.key, true)] + (Gaps(m.afterKey + ([COLON] + m.beforeValue)) + rest)), tail)
  {
    var r2 := Gaps(m.afterKey + ([COLON] + m.beforeValue)) + rest;
    GapsFirst(m.afterKey + ([COLON] + m.beforeValue), rest, tail);
    KeyIsTold(m.key, m.afterKey, m.beforeValue, rest, tail);
    KeysToldConcat([Quoted(m.key, true)], r2, tail);
    GapsFirst(m.before, [Quoted(m.key, true)] + r2, tail);
  }

  lemma {:induction false} ItemsTold(m: Items, tail: Bytes)
    requires ItemsOk(m) && !ColonNext(tail)
    ensures KeysTold(ItemsTokens(m), tail)
    decreases m
  {
    if m.Item? {
      ItemsTold(m.rest, tail);
      var r5 := ItemsTokens(m.rest);
      var r4 := Gaps(AfterValue(m.after, m.rest.NoItems?)) + r5;
      GapsFirst(AfterValue(m.after, m.rest.NoItems?), r5, tail);
      NoColonAfter(m.after, m.rest.NoItems?, r5, tail);
      ValueTold(m.value, Text(r4) + tail);
      KeysToldConcat(Tokens(m.value), r4, tail);
      GapsFirst(m.before, Tokens(m.value) + r4, tail);
    }
  }

  lemma DocumentTold(d: Document)
    requires DocumentOk(d)
    ensures KeysTold(DocumentTokens(d), [])
  {
    TextOfGaps(d.after);
    SpacesThen(d.after, []);
    assert d.after + [] == d.after;
    ValueTold(d.value, d.after + []);
    GapsTold(d.after, []);
    KeysToldConcat(Tokens(d.value), Gaps(d.after), []);
    GapsFirst(d.before, Tokens(d.value) + Gaps(d.after), []);
  }

  // ---------- Redacting tokens and redacting values ----------

  lemma RedactConcat(secrets: set<Bytes>, a: seq<Token>, b: seq<Token>)
    requires TokensOk(a) && TokensOk(b)
    ensures TokensOk(a + b) && RedactTokens(secrets, a + b) == RedactTokens(secrets, a) + RedactTokens(secrets, b)
  {
    hide TokenOk, RedactToken;
    assert TokensOk(a + b);
    var whole, parts := RedactTokens(secrets, a + b), RedactTokens(secrets, a) + RedactTokens(secrets, b);
    forall i | 0 <= i < |whole| ensures whole[i] == parts[i] {
      assert whole[i] == RedactToken(secrets, (a + b)[i]);
    }
    assert whole == parts;
  }

  lemma RedactGaps(secrets: set<Bytes>, s: Bytes, rest: seq<Token>)
    requires (forall i :: 0 <= i < |s| ==> s[i] != QUOTE) && TokensOk(rest)
    ensures TokensOk(Gaps(s) + rest) && RedactTokens(secrets, Gaps(s) + rest) == Gaps(s) + RedactTokens(secrets, rest)
  {
    RedactConcat(secrets, Gaps(s), rest);
    assert RedactTokens(secrets, Gaps(s)) == Gaps(s);
  }

  lemma RedactClosed(secrets: set<Bytes>, open: byte, space: Bytes, inner: seq<Token>, close: byte)
    requires Spaces(space) && open != QUOTE && close != QUOTE && TokensOk(inner)
    ensures var t := Gaps([open] + space) + (inner + Gaps([close]));
      TokensOk(t) && RedactTokens(secrets, t) == Gaps([open] + space) + (RedactTokens(secrets, inner) + Gaps([close]))
  {
    GapsOk([close]);
    RedactConcat(secrets, inner, Gaps([close]));
    assert RedactTokens(secrets, Gaps([close])) == Gaps([close]);
    RedactGaps(secrets, [open] + space, inner + Gaps([close]));
  }

  /** Redacting the tokens of a value is redacting the value. */
  lemma {:induction false} ValueRedacted(secrets: set<Bytes>, v: Value)
    requires ValueOk(v)
    ensures TokensOk(Tokens(v)) && RedactTokens(secrets, Tokens(v)) == Tokens(RedactValue(secrets, v))
    decreases v
  {
    match v {
      case Str(body) =>
      case Word(text) =>
        assert RedactTokens(secrets, Gaps(text)) == Gaps(text);
      case Number(minus, whole, frac, exp) =>
        NumberIsPlain(minus, whole, frac, exp);
        assert RedactTokens(secrets, Tokens(v)) == Tokens(v);
      case Object(space, members) =>
        MembersRedacted(secrets, members);
        RedactClosed(secrets, 123, space, MembersTokens(members), 125);
      case Array(space, items) =>
        ItemsRedacted(secrets, items);
        RedactClosed(secrets, 91, space, ItemsTokens(items), 93);
    }
  }

  lemma {:induction false} MembersRedacted(secrets: set<Bytes>, m: Members)
    requires MembersOk(m)
    ensures TokensOk(MembersTokens(m))
      && RedactTokens(secrets, MembersTokens(m)) == MembersTokens(RedactMembers(secrets, m))
    decreases m
  {
    if m.Member? {
      ValueRedacted(secrets, m.value);
      MembersRedacted(secrets, m.rest);
      var r4 := Gaps(AfterValue(m.after, m.rest.NoMembers?)) + MembersTokens(m.rest);
      RedactGaps(secrets, AfterValue(m.after, m.rest.NoMembers?), MembersTokens(m.rest));
      RedactConcat(secrets, Tokens(m.value), r4);
      MemberRedacted(secrets, m, Tokens(m.value) + r4);
    }
  }

  lemma MemberRedacted(secrets: set<Bytes>, m: Members, rest: seq<Token>)
    requires m.Member? && Spaces(m.before) && BodyOk(m.key) && Spaces(m.afterKey) && Spaces(m.beforeValue)
      && TokensOk(rest)
    ensures var colon := m.afterKey + ([COLON] + m.beforeValue);
      var t := Gaps(m.before) + ([Quoted(m.key, true)] + (Gaps(colon) + rest));
      TokensOk(t) && RedactTokens(secrets, t)
        == Gaps(m.before) + ([Quoted(m.key, true)] + (Gaps(colon) + RedactTokens(secrets, rest)))
  {
    var colon := m.afterKey + ([COLON] + m.beforeValue);
    RedactGaps(secrets, colon, rest);
    RedactConcat(secrets, [Quoted(m.key, true)], Gaps(colon) + rest);
    RedactGaps(secrets, m.before, [Quoted(m.key, true)] + (Gaps(colon) + rest));
  }

  lemma {:induction false} ItemsRedacted(secrets: set<Bytes>, m: Items)
    requires ItemsOk(m)
    ensures TokensOk(ItemsTokens(m)) && RedactTokens(secrets, ItemsTokens(m)) == ItemsTokens(RedactItems(secrets, m))
    decreases m
  {
    if m.Item? {
      ValueRedacted(secrets, m.value);
      ItemsRedacted(secrets, m.rest);
      var r4 := Gaps(AfterValue(m.after, m.rest.NoItems?)) + ItemsTokens(m.rest);
      RedactGaps(secrets, AfterValue(m.after, m.rest.NoItems?), ItemsTokens(m.rest));
      RedactConcat(secrets, Tokens(m.value), r4);
      RedactGaps(secrets, m.before, Tokens(m.value) + r4);
    }
  }

  lemma DocumentRedacted(secrets: set<Bytes>, d: Document)
    requires DocumentOk(d)
    ensures TokensOk(DocumentTokens(d))
      && RedactTokens(secrets, DocumentTokens(d)) == DocumentTokens(RedactDocument(secrets, d))
  {
    ValueRedacted(secrets, d.value);
    GapsOk(d.after);
    RedactConcat(secrets, Tokens(d.value), Gaps(d.after));
    assert RedactTokens(secrets, Gaps(d.after)) == Gaps(d.after);
    RedactGaps(secrets, d.before, Tokens(d.value) + Gaps(d.after));
  }

  // ---------- What the redacted text means ----------

  /** A value with every string in it redacted, and nothing else changed. */
  ghost function RedactMeaning(secrets: set<Bytes>, j: Json): Json {
    match j
    case JString(s) => JString(Repaired(RedactedText(secrets, s)))
    case JLiteral(_) => j
    case JObject(members) => JObject(seq(|members|, i requires 0 <= i < |members| =>
      (members[i].0, RedactMeaning(secrets, members[i].1))))
    case JArray(items) => JArray(seq(|items|, i requires 0 <= i < |items| => RedactMeaning(secrets, items[i])))
  }

  /** The redacted document means the document's meaning, redacted. */
  lemma {:induction false} RedactedMeans(secrets: set<Bytes>, v: Value)
    requires ValueOk(v)
    ensures Meaning(RedactValue(secrets, v)) == RedactMeaning(secrets, Meaning(v))
    decreases v
  {
    match v {
      case Object(_, members) =>
        RedactedMembersMean(secrets, members);
      case Array(_, items) =>
        RedactedItemsMean(secrets, items);
      case _ =>
    }
  }

  lemma {:induction false} RedactedMembersMean(secrets: set<Bytes>, m: Members)
    requires MembersOk(m)
    ensures var was, now := MembersMeaning(m), MembersMeaning(RedactMembers(secrets, m));
      |now| == |was| && forall i :: 0 <= i < |was| ==> now[i] == (was[i].0, RedactMeaning(secrets, was[i].1))
    decreases m
  {
    if m.Member? {
      RedactedMeans(secrets, m.value);
      RedactedMembersMean(secrets, m.rest);
    }
  }

  lemma {:induction false} RedactedItemsMean(secrets: set<Bytes>, m: Items)
    requires ItemsOk(m)
    ensures var was, now := ItemsMeaning(m), ItemsMeaning(RedactItems(secrets, m));
      |now| == |was| && forall i :: 0 <= i < |was| ==> now[i] == RedactMeaning(secrets, was[i])
    decreases m
  {
    if m.Item? {
      RedactedMeans(secrets, m.value);
      RedactedItemsMean(secrets, m.rest);
    }
  }

  // ---------- The scan ----------

  /** What the scan for a closing quote tells apart: a backslash with the byte after it, or a plain byte. */
  function Units(body: seq<Elem>): seq<Bytes> {
    if body == [] then []
    else
      (match body[0]
       case Raw(b) => [[b]]
       case Escaped(c) => [[BACKSLASH, c]]
       case Unicode(a, b, c, d) => [[BACKSLASH, 117], [a], [b], [c], [d]])
      + Units(body[1..])
  }

  predicate UnitOk(u: Bytes) {
    if |u| == 2 then u[0] == BACKSLASH else |u| == 1 && u[0] != BACKSLASH && u[0] != QUOTE
  }

  lemma {:induction false} UnitsAre(body: seq<Elem>)
    requires BodyOk(body)
    ensures Flatten(Units(body)) == BodyText(body) && forall i :: 0 <= i < |Units(body)| ==> UnitOk(Units(body)[i])
  {
    if body != [] {
      UnitsAre(body[1..]);
      var first := Units(body)[..|Units(body)| - |Units(body[1..])|];
      assert Units(body) == first + Units(body[1..]);
      FlattenConcat(first, Units(body[1..]));
      UnitsOfElem(body[0], first);
    }
  }

  lemma UnitsOfElem(e: Elem, first: seq<Bytes>)
    requires ElemOk(e)
    requires first == match e
                      case Raw(b) => [[b]]
                      case Escaped(c) => [[BACKSLASH, c]]
                      case Unicode(a, b, c, d) => [[BACKSLASH, 117], [a], [b], [c], [d]]
    ensures Flatten(first) == ElemText(e) && forall i :: 0 <= i < |first| ==> UnitOk(first[i])
  {
    if e.Unicode? {
      FlattenUnicode(e.h3, e.h2, e.h1, e.h0);
    } else {
      FlattenOne(first[0]);
    }
  }

  lemma FlattenUnicode(a: byte, b: byte, c: byte, d: byte)
    ensures Flatten([[BACKSLASH, 117], [a], [b], [c], [d]]) == [BACKSLASH, 117, a, b, c, d]
  {
    FlattenConcat([[BACKSLASH as byte, 117], [a]] + [[b], [c]], [[d]]);
    FlattenConcat([[BACKSLASH as byte, 117], [a]], [[b], [c]]);
    FlattenTwo([BACKSLASH as byte, 117], [a]);
    FlattenTwo([b], [c]);
    FlattenOne([d]);
    assert [[BACKSLASH as byte, 117], [a], [b], [c], [d]] == [[BACKSLASH as byte, 117], [a]] + [[b], [c]] + [[d]];
  }

  lemma NextUnit(units: seq<Bytes>, n: nat, left: Bytes, rest: Bytes)
    requires n <= |units| && (forall k :: 0 <= k < |units| ==> UnitOk(units[k]))
      && left == Flatten(units[n..]) + ([QUOTE] + rest)
    ensures n < |units| ==> left[0] != QUOTE && |units[n]| == (if left[0] == BACKSLASH then 2 else 1)
    ensures n < |units| ==> |units[n]| < |left| && left[|units[n]|..] == Flatten(units[n + 1..]) + ([QUOTE] + rest)
    ensures n == |units| ==> left == [QUOTE] + rest
  {
    if n < |units| {
      assert units[n..][1..] == units[n + 1..];
      Joins(units[n], Flatten(units[n + 1..]), [QUOTE] + rest);
    } else {
      assert Flatten(units[n..]) == [];
    }
  }

  /** Where the string literal that begins at i ends. */
  method EndOfString(data: Bytes, i: nat, ghost body: seq<Elem>, ghost rest: Bytes) returns (end: nat)
    requires BodyOk(body) && i < |data| && data[i..] == [QUOTE] + BodyText(body) + [QUOTE] + rest
    ensures end == i + 1 + |BodyText(body)| && end < |data| && data[end..] == [QUOTE] + rest
  {
    ghost var units, n := Units(body), 0;
    UnitsAre(body);
    StartOfString(data, i, body, rest);
    end := i + 1;
    NextUnit(units, n, data[end..], rest);
    while data[end] != QUOTE
      invariant n <= |units| && end < |data| && data[end..] == Flatten(units[n..]) + ([QUOTE] + rest)
      invariant n == |units| ==> data[end] == QUOTE
      decreases |data| - end
    {
      NextUnit(units, n, data[end..], rest);
      ghost var was := end;
      if data[end] == BACKSLASH {
        end := end + 1;
      }
      end := end + 1;
      n := n + 1;
      assert data[end..] == data[was..][|units[n - 1]|..];
      NextUnit(units, n, data[end..], rest);
    }
    NextUnit(units, n, data[end..], rest);
  }

  lemma StartOfString(data: Bytes, i: nat, body: seq<Elem>, rest: Bytes)
    requires BodyOk(body) && i < |data| && data[i..] == [QUOTE] + BodyText(body) + [QUOTE] + rest
    ensures i + 1 < |data| && data[i + 1..] == Flatten(Units(body)[0..]) + ([QUOTE] + rest)
    ensures |data| == i + 2 + |BodyText(body)| + |rest|
  {
    UnitsAre(body);
    assert Units(body)[0..] == Units(body);
    assert data[i + 1..] == data[i..][1..];
    assert [QUOTE] + BodyText(body) + [QUOTE] + rest == [QUOTE] + (BodyText(body) + ([QUOTE] + rest));
  }

  /** The string a token stands for, when it is one. */
  function ReadString(inner: Bytes): Option<Bytes> {
    var body := Parse(inner);
    if BodyOk(body) then Some(Read(body)) else None
  }

  // ---------- Redacting a text ----------

  /** The scan has done n tokens: out and what lies between last and i is their redacted text. */
  ghost predicate Scanned(secrets: set<Bytes>, data: Bytes, tokens: seq<Token>, n: nat, out: Bytes, last: nat, i: nat) {
    && TokensOk(tokens) && n <= |tokens| && last <= i <= |data|
    && data[i..] == Text(tokens[n..])
    && out + data[last..i] == Text(RedactTokens(secrets, tokens)[..n])
    && (out == [] ==> last == 0)
  }

  lemma ScanStarts(secrets: set<Bytes>, data: Bytes, tokens: seq<Token>)
    requires TokensOk(tokens) && data == Text(tokens)
    ensures Scanned(secrets, data, tokens, 0, [], 0, 0)
  {
    assert tokens[0..] == tokens && data[0..] == data;
  }

  lemma OneMoreToken(secrets: set<Bytes>, tokens: seq<Token>, n: nat)
    requires TokensOk(tokens) && n < |tokens|
    ensures Text(tokens[n..]) == TokenText(tokens[n]) + Text(tokens[n + 1..])
    ensures var r := RedactTokens(secrets, tokens);
      Text(r[..n + 1]) == Text(r[..n]) + TokenText(RedactToken(secrets, tokens[n]))
  {
    TextFirst(tokens[n..]);
    assert tokens[n..][1..] == tokens[n + 1..];
    var r := RedactTokens(secrets, tokens);
    assert r[..n + 1] == r[..n] + [r[n]];
    TextConcat(r[..n], [r[n]]);
    FlattenOne(TokenText(r[n]));
    assert Texts([r[n]]) == [TokenText(r[n])];
  }

  /** A token left as it is stays between last and the scan. */
  lemma TokenKept(secrets: set<Bytes>, data: Bytes, tokens: seq<Token>, n: nat, out: Bytes, last: nat, i: nat,
                  next: nat)
    requires Scanned(secrets, data, tokens, n, out, last, i) && n < |tokens|
    requires next == i + |TokenText(tokens[n])| && TokenText(RedactToken(secrets, tokens[n])) == TokenText(tokens[n])
    ensures Scanned(secrets, data, tokens, n + 1, out, last, next)
  {
    OneMoreToken(secrets, tokens, n);
    var t := TokenText(tokens[n]);
    assert data[i..][..|t|] == t && data[i..][|t|..] == Text(tokens[n + 1..]);
    assert data[next..] == data[i..][|t|..];
    assert data[last..next] == data[last..i] + data[i..next];
    assert data[i..next] == t;
    Joins(out, data[last..i], t);
  }

  lemma TokenRewritten(secrets: set<Bytes>, data: Bytes, tokens: seq<Token>, n: nat, out: Bytes, last: nat, i: nat,
                       next: nat, encoded: Bytes)
    requires Scanned(secrets, data, tokens, n, out, last, i) && n < |tokens|
    requires next == i + |TokenText(tokens[n])| && TokenText(RedactToken(secrets, tokens[n])) == encoded
      && encoded != []
    ensures Scanned(secrets, data, tokens, n + 1, out + data[last..i] + encoded, next, next)
  {
    OneMoreToken(secrets, tokens, n);
    var t := TokenText(tokens[n]);
    assert data[i..][|t|..] == Text(tokens[n + 1..]);
    assert data[next..] == data[i..][|t|..];
    assert out + data[last..i] + encoded + data[next..next] == out + data[last..i] + encoded;
  }

  /** Whether a colon follows, whitespace aside, at or after from: then the string before is a key. */
  method IsKeyBefore(data: Bytes, from: nat) returns (isKey: bool)
    requires from <= |data|
    ensures isKey == ColonNext(data[from..])
  {
    var next := from;
    while next < |data| && IsSpace(data[next])
      invariant from <= next <= |data| && ColonNext(data[next..]) == ColonNext(data[from..])
    {
      assert data[next..][1..] == data[next + 1..];
      next := next + 1;
    }
    isKey := next != |data| && data[next] == COLON;
  }

  /** Reads the token at i, and writes it anew if it is a value that redaction changes. */
  method RedactQuoted(ghost secrets: set<Bytes>, exact: set<Bytes>, substr: seq<Bytes>, data: Bytes,
                      ghost tokens: seq<Token>, ghost n: nat, out: Bytes, last: nat, i: nat)
      returns (out': Bytes, last': nat, end: nat)
    requires exact == ExactForms(secrets) && Lists(substr, LongForms(secrets))
    requires Scanned(secrets, data, tokens, n, out, last, i) && KeysTold(tokens, []) && i < |data| && data[i] == QUOTE
    ensures n < |tokens| && i < end + 1 && Scanned(secrets, data, tokens, n + 1, out', last', end + 1)
  {
    hide KeysTold, BodyOk, BodyText, Text;
    var isKey;
    QuotedHere(secrets, data, tokens, n, out, last, i);
    end, isKey := ReadToken(data, tokens, n, i);
    out', last' := out, last;
    if isKey {
      TokenKept(secrets, data, tokens, n, out, last, i, end + 1);
    } else {
      var changed, encoded := RedactInner(secrets, exact, substr, data[i + 1..end], tokens[n].body);
      if changed {
        TokenRewritten(secrets, data, tokens, n, out, last, i, end + 1, encoded);
        out' := out + data[last..i] + encoded;
        last' := end + 1;
      } else {
        TokenKept(secrets, data, tokens, n, out, last, i, end + 1);
      }
    }
  }

  /** The token at i ends at end, and is what token n says. */
  ghost predicate TokenSpans(data: Bytes, t: Token, i: nat, end: nat) {
    && t.Quoted? && i < end < |data| && end + 1 == i + |TokenText(t)| && data[i + 1..end] == BodyText(t.body)
  }

  method ReadToken(data: Bytes, ghost tokens: seq<Token>, ghost n: nat, i: nat) returns (end: nat, isKey: bool)
    requires n < |tokens| && tokens[n].Quoted? && BodyOk(tokens[n].body) && KeysTold(tokens, []) && i < |data|
    requires data[i..] == [QUOTE] + BodyText(tokens[n].body) + [QUOTE] + Text(tokens[n + 1..])
    ensures TokenSpans(data, tokens[n], i, end) && isKey == tokens[n].isKey
  {
    end := EndOfString(data, i, tokens[n].body, Text(tokens[n + 1..]));
    TokenAt(data, i, end, tokens[n].body, Text(tokens[n + 1..]));
    isKey := IsKeyBefore(data, end + 1);
    KeyAt(tokens, n);
  }

  /** The token a string value is written as, if redaction changes it. */
  method RedactInner(ghost secrets: set<Bytes>, exact: set<Bytes>, substr: seq<Bytes>, inner: Bytes,
                     ghost body: seq<Elem>)
      returns (changed: bool, encoded: Bytes)
    requires exact == ExactForms(secrets) && Lists(substr, LongForms(secrets)) && BodyOk(body)
      && inner == BodyText(body)
    ensures changed ==> encoded == TokenText(Quoted(RedactBody(secrets, body), false)) && encoded != []
    ensures !changed ==> RedactBody(secrets, body) == body
  {
    ParseReads(body);
    MembersAre(substr, LongForms(secrets));
    changed, encoded := false, [];
    var s := ReadString(inner);
    if s.Some? {
      var redacted := RedactString(exact, substr, s.value);
      if redacted != s.value {
        changed, encoded := true, [QUOTE] + BodyText(Marshal(redacted, true)) + [QUOTE];
      }
    }
  }

  lemma MembersAre(forms: seq<Bytes>, all: set<Bytes>)
    requires Lists(forms, all)
    ensures Redact.Members(forms) == all
  {
  }

  lemma KeyAt(tokens: seq<Token>, n: nat)
    requires n < |tokens| && KeysTold(tokens, []) && tokens[n].Quoted?
    ensures tokens[n].isKey <==> ColonNext(Text(tokens[n + 1..]))
  {
    assert KeyTold(tokens, [], n);
    assert Text(tokens[n + 1..]) + [] == Text(tokens[n + 1..]);
  }

  lemma QuotedHere(secrets: set<Bytes>, data: Bytes, tokens: seq<Token>, n: nat, out: Bytes, last: nat, i: nat)
    requires Scanned(secrets, data, tokens, n, out, last, i) && i < |data| && data[i] == QUOTE
    ensures n < |tokens| && tokens[n].Quoted? && BodyOk(tokens[n].body)
    ensures data[i..] == [QUOTE] + BodyText(tokens[n].body) + [QUOTE] + Text(tokens[n + 1..])
  {
    SomethingHere(secrets, data, tokens, n, out, last, i);
    assert data[i..][0] == QUOTE;
  }

  lemma SomethingHere(secrets: set<Bytes>, data: Bytes, tokens: seq<Token>, n: nat, out: Bytes, last: nat, i: nat)
    requires Scanned(secrets, data, tokens, n, out, last, i) && i < |data|
    ensures n < |tokens| && TokenOk(tokens[n]) && data[i..] == TokenText(tokens[n]) + Text(tokens[n + 1..])
  {
    assert |data[i..]| > 0 && tokens[|tokens|..] == [] && Text([]) == [];
    if n < |tokens| {
      OneMoreToken(secrets, tokens, n);
    }
  }

  lemma TokenAt(data: Bytes, i: nat, end: nat, body: seq<Elem>, rest: Bytes)
    requires i < |data| && data[i..] == [QUOTE] + BodyText(body) + [QUOTE] + rest
    requires end == i + 1 + |BodyText(body)| && end < |data|
    ensures data[i + 1..end] == BodyText(body) && data[end + 1..] == rest
  {
    var t := [QUOTE] + BodyText(body) + [QUOTE];
    assert data[i..][|t|..] == rest && data[end + 1..] == data[i..][|t|..];
    assert data[i..][1..|t| - 1] == BodyText(body);
    SliceOfTail(data, i, 1, |t| - 1);
  }

  lemma SliceOfTail(s: Bytes, i: nat, a: nat, b: nat)
    requires i + b <= |s| && a <= b
    ensures s[i..][a..b] == s[i + a..i + b]
  {
    assert s[i..] == s[i..|s|];
    SliceOfSlice(s, i, |s|, a, b);
  }

  lemma GapHere(secrets: set<Bytes>, data: Bytes, tokens: seq<Token>, n: nat, out: Bytes, last: nat, i: nat)
    requires Scanned(secrets, data, tokens, n, out, last, i) && i < |data| && data[i] != QUOTE
    ensures n < |tokens| && Scanned(secrets, data, tokens, n + 1, out, last, i + 1)
  {
    SomethingHere(secrets, data, tokens, n, out, last, i);
    assert data[i..][0] == data[i] == TokenText(tokens[n])[0];
    TokenKept(secrets, data, tokens, n, out, last, i, i + 1);
  }

  /** Redacts a JSON text's string values; a text that is not JSON stays as it is. valid is the JSON
      library's verdict, and d, when there is one, the document data is the text of. */
  method RedactText(secrets: set<Bytes>, data: Bytes, valid: bool, ghost d: Document) returns (r: Bytes)
    requires (valid <==> IsJson(data)) && (valid ==> DocumentOk(d) && DocumentText(d) == data)
    ensures !valid ==> r == data
    ensures valid ==> r == DocumentText(RedactDocument(secrets, d))
  {
    hide DocumentOk, DocumentTokens, RedactDocument, KeysTold, TokensOk, Text;
    if !valid {
      return data;
    }
    var exact, substr := NewRedactor(secrets);
    ghost var tokens, n := DocumentTokens(d), 0;
    DocumentTold(d);
    DocumentRedacted(secrets, d);
    ScanStarts(secrets, data, tokens);
    var out: Bytes, last: nat, i: nat := [], 0, 0;
    while i < |data|
      invariant Scanned(secrets, data, tokens, n, out, last, i)
      decreases |data| - i
    {
      out, last, i := RedactNext(secrets, exact, substr, data, tokens, n, out, last, i);
      n := n + 1;
    }
    ScanEnds(secrets, data, tokens, n, out, last);
    r := if out == [] then data else out + data[last..];
  }

  method RedactNext(ghost secrets: set<Bytes>, exact: set<Bytes>, substr: seq<Bytes>, data: Bytes,
                    ghost tokens: seq<Token>, ghost n: nat, out: Bytes, last: nat, i: nat)
      returns (out': Bytes, last': nat, i': nat)
    requires exact == ExactForms(secrets) && Lists(substr, LongForms(secrets))
    requires Scanned(secrets, data, tokens, n, out, last, i) && KeysTold(tokens, []) && i < |data|
    ensures i < i' && Scanned(secrets, data, tokens, n + 1, out', last', i')
  {
    if data[i] != QUOTE {
      GapHere(secrets, data, tokens, n, out, last, i);
      out', last', i' := out, last, i + 1;
    } else {
      var end;
      out', last', end := RedactQuoted(secrets, exact, substr, data, tokens, n, out, last, i);
      i' := end + 1;
    }
  }

  lemma TextIsSome(t: seq<Token>)
    requires t != []
    ensures Text(t) != []
  {
    TextFirst(t);
  }

  lemma ScanEnds(secrets: set<Bytes>, data: Bytes, tokens: seq<Token>, n: nat, out: Bytes, last: nat)
    requires Scanned(secrets, data, tokens, n, out, last, |data|)
    ensures out + data[last..] == Text(RedactTokens(secrets, tokens))
    ensures out == [] ==> data == out + data[last..]
  {
    if n < |tokens| {
      TextIsSome(tokens[n..]);
    }
    assert RedactTokens(secrets, tokens)[..n] == RedactTokens(secrets, tokens);
    assert data[last..|data|] == data[last..];
  }

  /** On any JSON text the result is a JSON text that means what the original means with every string
      value redacted; only the tokens of the values redaction changes are written differently. */
  lemma RedactedTextMeans(secrets: set<Bytes>, d: Document)
    requires DocumentOk(d)
    ensures IsJson(DocumentText(RedactDocument(secrets, d)))
    ensures Meaning(RedactDocument(secrets, d).value) == RedactMeaning(secrets, Meaning(d.value))
    ensures var was, now := DocumentTokens(d), DocumentTokens(RedactDocument(secrets, d));
      |now| == |was| && forall i :: 0 <= i < |was| ==> TokenOk(was[i]) && (now[i] != was[i] ==>
        was[i].Quoted? && !was[i].isKey && RedactedText(secrets, Read(was[i].body)) != Read(was[i].body))
  {
    DocumentRedacted(secrets, d);
    RedactedMeans(secrets, d.value);
    var r := RedactDocument(secrets, d);
    assert DocumentOk(r) && DocumentText(r) == DocumentText(r);
  }
}

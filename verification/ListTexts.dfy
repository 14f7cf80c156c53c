/** What a list comes to where it does not repeat a pair (adapter/template.go, adapter/render.go;
    docs/user/templates.md): a JSON array inside brackets, and its elements with commas between them elsewhere. */
module ListTexts {
  import opened Bytes
  import opened Conditionals
  import opened Filling
  import opened JsonRead
  import opened JsonString
  import opened JsonText
  import opened Rendering
  import opened Scanner
  import opened Separators
  import opened Sequences
  import opened Substitution
  import opened Template
  import opened UrlEscape
  import opened Utf8Text
  import opened Values

  // ---------- The templates ----------

  /** text in front of a template, if there is any. */
  function Behind(text: Bytes, f: Forest): Forest {
    if text == [] then f else Leaf(Lit(text), f)
  }

  function Written(text: Bytes): seq<Piece> {
    if text == [] then [] else [Literal(text)]
  }

  /** The body a{{.}}b. */
  function ElementBody(a: Bytes, b: Bytes): Forest {
    Behind(a, Leaf(Dot, Behind(b, Empty)))
  }

  /** The template p{{#name}}a{{.}}b{{/name}}after. */
  function AroundBlock(p: Bytes, name: Bytes, a: Bytes, b: Bytes, after: Bytes): Forest {
    Leaf(Lit(p), Block(false, [name], ElementBody(a, b), Leaf(Lit(after), Empty)))
  }

  // ---------- Its pieces ----------

  function ElementPieces(v: Val, a: Bytes, b: Bytes): seq<Piece> {
    Written(a) + ([Hole(v)] + Written(b))
  }

  /** The first n elements, with commas between them. */
  function WithCommas(elems: seq<Val>, n: nat, a: Bytes, b: Bytes): seq<Piece>
    requires n <= |elems|
  {
    if n == 0 then []
    else
      WithCommas(elems, n - 1, a, b) + (if n == 1 then [] else [Literal([COMMA])]) + ElementPieces(elems[n - 1], a, b)
  }

  predicate IsOrdinary(c: byte) {
    32 < c < 128 && c != AMPERSAND
  }

  /** The body brings no ampersand of its own to join its copies with. */
  predicate BringsNone(a: Bytes, b: Bytes) {
    (a != [] ==> IsOrdinary(a[0])) && (b != [] ==> IsOrdinary(b[|b| - 1]))
  }

  /** A pair has begun at the end of p, or the body does not begin one. */
  predicate WithinPair(pair: Bytes, a: Bytes, b: Bytes) {
    TrimSpace(pair) != [] || (EQUALS !in a && EQUALS !in b)
  }

  /** Copies of the body are joined with a comma. */
  predicate JoinsWithCommas(ctx: Context, p: Bytes, a: Bytes, b: Bytes) {
    match ctx
    case FormBody => BringsNone(a, b) && WithinPair(AfterLast(p, AMPERSAND), a, b)
    case PathText =>
      QUESTION in p ==> BringsNone(a, b) && WithinPair(AfterLast(AfterFirst(p, QUESTION), AMPERSAND), a, b)
    case _ => true
  }

  const DotText: Bytes := [OPEN, OPEN, 46, 125, 125]

  lemma CommaJoins(ctx: Context, p: Bytes, a: Bytes, b: Bytes)
    requires JoinsWithCommas(ctx, p, a, b)
    ensures IterationSeparator(ctx, [] + p, BodySource(ElementBody(a, b), [])) == [COMMA]
  {
    hide TrimSpace, BodySource, AfterLast, AfterFirst;
    assert [] + p == p;
    ElementSource(a, b);
    if BringsNone(a, b) {
      SourceStays(a, b);
    }
  }

  lemma ElementSource(a: Bytes, b: Bytes)
    ensures BodySource(ElementBody(a, b), []) == a + DotText + b
  {
    assert TextTo([Dot], 0, []) + TextIn(Dot, []) == TextIn(Dot, []) == DotText;
    var tags := (if a == [] then [] else [Lit(a)]) + [Dot] + (if b == [] then [] else [Lit(b)]);
    assert Flat(ElementBody(a, b)) == tags by {
      var last := Behind(b, Empty);
      assert Flat(last) == if b == [] then [] else [Lit(b)];
      assert Flat(Leaf(Dot, last)) == [Dot] + Flat(last);
    }
    if a == [] && b == [] {
      assert tags == [Dot] && a + DotText + b == DotText;
    } else if a == [] {
      assert TextTo(tags, 1, []) == [] + DotText && [] + DotText == DotText;
      assert TextTo(tags, 2, []) == DotText + b && a + DotText == DotText;
    } else {
      assert TextTo(tags, 1, []) == [] + a && [] + a == a;
      assert TextTo(tags, 2, []) == a + DotText;
      assert a + DotText + [] == a + DotText;
    }
  }

  /** The body's text begins and ends with what is neither white space nor an ampersand. */
  lemma SourceStays(a: Bytes, b: Bytes)
    requires BringsNone(a, b)
    ensures var s := a + DotText + b;
      && TrimSpace(s) == s && s[0] != AMPERSAND && s[|s| - 1] != AMPERSAND
      && (EQUALS in s <==> EQUALS in a || EQUALS in b)
  {
    var s := a + DotText + b;
    assert IsOrdinary(s[0]) && IsOrdinary(s[|s| - 1]);
    assert SpaceBefore(s) == 0 && SpaceAfter(s) == 0;
  }

  lemma BodyRenders(ctx: Context, a: Bytes, b: Bytes, before: Bytes, inputs: Inputs, t: Turn)
    ensures IterOnly(ElementBody(a, b))
    ensures var out := RenderForest(ctx, ElementBody(a, b), before, inputs, [t]);
      out.Some? && out.value.pieces == ElementPieces(t.elem, a, b)
  {
    var last, dot := Behind(b, Empty), Leaf(Dot, Behind(b, Empty));
    assert IterOnly(Empty) && IterOnly(last) && IterOnly(dot);
    var text := before + a;
    assert a == [] ==> text == before;
    var so := text + TextIn(Dot, [t]);
    BehindRenders(ctx, b, Empty, so, inputs, [t]);
    assert RenderForest(ctx, Empty, so + b, inputs, [t]) == Some(Out([], so + b));
    assert Written(b) + [] == Written(b);
    assert RenderIn(Dot, inputs, [t]) == Some([Hole(t.elem)]);
    assert RenderForest(ctx, dot, text, inputs, [t]) == Some(Out([Hole(t.elem)] + Written(b), so + b));
    BehindRenders(ctx, a, dot, before, inputs, [t]);
  }

  lemma BehindRenders(ctx: Context, text: Bytes, f: Forest, before: Bytes, inputs: Inputs, env: Env)
    requires IterOnly(f)
    ensures IterOnly(Behind(text, f))
    ensures RenderForest(ctx, Behind(text, f), before, inputs, env)
      == Onto(Written(text), RenderForest(ctx, f, before + text, inputs, env))
  {
    if text == [] {
      assert before + text == before;
      var out := RenderForest(ctx, f, before, inputs, env);
      assert out.Some? ==> [] + out.value.pieces == out.value.pieces;
    } else {
      assert RenderIn(Lit(text), inputs, env) == Some([Literal(text)]);
    }
  }

  lemma {:induction false} CopiesRender(ctx: Context, a: Bytes, b: Bytes, before: Bytes, inputs: Inputs,
                                        elems: seq<Val>, n: nat)
    requires n <= |elems| && IterOnly(ElementBody(a, b))
    ensures var out := RenderCopies(ctx, ElementBody(a, b), before, inputs, [], elems, n, [COMMA]);
      out.Some? && out.value.pieces == WithCommas(elems, n, a, b)
  {
    if n > 0 {
      CopiesRender(ctx, a, b, before, inputs, elems, n - 1);
      hide ElementBody, ElementPieces;
      var was := RenderCopies(ctx, ElementBody(a, b), before, inputs, [], elems, n - 1, [COMMA]).value;
      var now := if n == 1 then was else Out(was.pieces + [Literal([COMMA])], was.text + [COMMA]);
      assert [] + [Turn(n - 1, elems[n - 1])] == [Turn(n - 1, elems[n - 1])];
      BodyRenders(ctx, a, b, now.text, inputs, Turn(n - 1, elems[n - 1]));
      hide RenderForest;
      if n == 1 {
        assert was.pieces + [] == was.pieces;
      }
    }
  }

  lemma BehindIsProper(text: Bytes, f: Forest, inputs: Inputs)
    requires Proper(f) && IterOnly(f) && Prune(f, inputs) == f
    ensures var g := Behind(text, f); Proper(g) && IterOnly(g) && Prune(g, inputs) == g
  {
  }

  lemma AroundIsProper(p: Bytes, name: Bytes, a: Bytes, b: Bytes, after: Bytes, inputs: Inputs)
    ensures var f := AroundBlock(p, name, a, b, after); Proper(f) && IterOnly(f) && Prune(f, inputs) == f
  {
    var last, tail := Behind(b, Empty), Leaf(Lit(after), Empty);
    assert Proper(Empty) && IterOnly(Empty) && Prune(Empty, inputs) == Empty;
    BehindIsProper(b, Empty, inputs);
    var dot := Leaf(Dot, last);
    assert Proper(dot) && IterOnly(dot) && Prune(dot, inputs) == dot;
    BehindIsProper(a, dot, inputs);
    var body := ElementBody(a, b);
    assert Proper(tail) && IterOnly(tail) && Prune(tail, inputs) == tail;
    var block := Block(false, [name], body, tail);
    assert Proper(block) && IterOnly(block) && Prune(block, inputs) == block;
  }

  /** The template's pieces. */
  lemma AroundRenders(ctx: Context, p: Bytes, name: Bytes, a: Bytes, b: Bytes, after: Bytes, inputs: Inputs,
                      elems: seq<Val>)
    requires JoinsWithCommas(ctx, p, a, b) && name in inputs && inputs[name] == List(elems)
    requires IterOnly(AroundBlock(p, name, a, b, after))
    ensures var out := RenderForest(ctx, AroundBlock(p, name, a, b, after), [], inputs, []);
      out.Some? && out.value.pieces == [Literal(p)] + (WithCommas(elems, |elems|, a, b) + [Literal(after)])
  {
    hide RenderCopies, IterationSeparator, BodySource, WithCommas, ElementBody, IterOnly, JoinsWithCommas;
    var body, tail := ElementBody(a, b), Leaf(Lit(after), Empty);
    CommaJoins(ctx, p, a, b);
    PartsAreIterOnly(p, name, a, b, after);
    CopiesRender(ctx, a, b, [] + p, inputs, elems, |elems|);
    var copies := RenderCopies(ctx, body, [] + p, inputs, [], elems, |elems|, [COMMA]).value;
    TailRenders(ctx, after, copies.text, inputs);
    BlockRenders(ctx, [] + p, name, body, tail, inputs, elems, [COMMA]);
    assert RenderIn(Lit(p), inputs, []) == Some([Literal(p)]);
  }

  lemma PartsAreIterOnly(p: Bytes, name: Bytes, a: Bytes, b: Bytes, after: Bytes)
    requires IterOnly(AroundBlock(p, name, a, b, after))
    ensures IterOnly(ElementBody(a, b)) && IterOnly(Leaf(Lit(after), Empty))
    ensures IterOnly(Block(false, [name], ElementBody(a, b), Leaf(Lit(after), Empty)))
  {
    hide ElementBody;
  }

  lemma TailRenders(ctx: Context, after: Bytes, before: Bytes, inputs: Inputs)
    requires IterOnly(Leaf(Lit(after), Empty))
    ensures RenderForest(ctx, Leaf(Lit(after), Empty), before, inputs, [])
      == Some(Out([Literal(after)], before + after))
  {
    assert IterOnly(Empty) && RenderForest(ctx, Empty, before + after, inputs, []) == Some(Out([], before + after));
    assert [Literal(after)] + [] == [Literal(after)];
  }

  lemma BlockRenders(ctx: Context, before: Bytes, name: Bytes, body: Forest, tail: Forest, inputs: Inputs,
                     elems: seq<Val>, sep: Bytes)
    requires IterOnly(body) && IterOnly(tail) && IterOnly(Block(false, [name], body, tail))
    requires name in inputs && inputs[name] == List(elems)
    requires IterationSeparator(ctx, before, BodySource(body, [])) == sep
    ensures var copies := RenderCopies(ctx, body, before, inputs, [], elems, |elems|, sep);
      RenderForest(ctx, Block(false, [name], body, tail), before, inputs, []) == if copies == None then None
        else Onto(copies.value.pieces, RenderForest(ctx, tail, copies.value.text, inputs, []))
  {
    hide RenderCopies, IterationSeparator, BodySource;
  }

  // ---------- What is written ----------

  /** Whether a value here stands in a JSON string literal, or in a path's query. */
  predicate Inside(ctx: Context, s: State) {
    match ctx
    case JsonBody => s.inString
    case PathText => s.inQuery
    case _ => false
  }

  /** A value that is no list, by where it stands. */
  function ValueText(ctx: Context, inside: bool, v: Val): Bytes {
    match ctx
    case RawText => FormatValue(v)
    case JsonBody => if inside then JsonStringContent(FormatValue(v)) else JsonValue(v)
    case PathText => if inside then QueryEscape(FormatValue(v)) else PathEscape(FormatValue(v))
    case FormBody => QueryEscape(FormatValue(v))
  }

  lemma WritesValue(ctx: Context, s: State, v: Val)
    requires !v.List?
    ensures Rendered(ctx, s, v) == ValueText(ctx, Inside(ctx, s), v)
    ensures Inside(ctx, Scanner.AfterValue(ctx, s)) == Inside(ctx, s)
  {
  }

  lemma CommaStays(ctx: Context, s: State)
    ensures Inside(ctx, Fed(ctx, s, [COMMA], 1)) == Inside(ctx, s)
  {
    assert Fed(ctx, s, [COMMA], 0) == s;
  }

  /** Pieces, and what they come to. */
  ghost predicate Comes(ctx: Context, pieces: seq<Piece>, inside: bool, text: Bytes) {
    Output(ctx, pieces, |pieces|) == text && Inside(ctx, StateAt(ctx, pieces, |pieces|)) == inside
  }

  lemma ThenComma(ctx: Context, pieces: seq<Piece>, inside: bool, text: Bytes)
    requires Comes(ctx, pieces, inside, text)
    ensures Comes(ctx, pieces + [Literal([COMMA])], inside, text + [COMMA])
  {
    OnePieceMore(ctx, pieces, Literal([COMMA]));
    CommaStays(ctx, StateAt(ctx, pieces, |pieces|));
  }

  lemma ThenValue(ctx: Context, pieces: seq<Piece>, inside: bool, text: Bytes, v: Val)
    requires Comes(ctx, pieces, inside, text) && !v.List?
    ensures Comes(ctx, pieces + [Hole(v)], inside, text + ValueText(ctx, inside, v))
  {
    OnePieceMore(ctx, pieces, Hole(v));
    WritesValue(ctx, StateAt(ctx, pieces, |pieces|), v);
  }

  lemma FirstLiteral(ctx: Context, p: Bytes)
    ensures Output(ctx, [Literal(p)], 1) == p && StateAt(ctx, [Literal(p)], 1) == Fed(ctx, Start, p, |p|)
  {
    assert Output(ctx, [Literal(p)], 0) == [] && [] + p == p;
  }

  /** Literal text of a body leaves the place its values stand in. */
  predicate KeepsPlace(ctx: Context, a: Bytes, b: Bytes) {
    ctx.FormBody? || ctx.RawText? || (a == [] && b == [])
  }

  lemma ThenLiteral(ctx: Context, pieces: seq<Piece>, inside: bool, text: Bytes, more: Bytes)
    requires Comes(ctx, pieces, inside, text) && (ctx.FormBody? || ctx.RawText? || more == [])
    ensures Comes(ctx, pieces + Written(more), inside, text + more)
  {
    if more == [] {
      assert pieces + [] == pieces && text + more == text;
    } else {
      OnePieceMore(ctx, pieces, Literal(more));
    }
  }

  lemma ThenElement(ctx: Context, pieces: seq<Piece>, inside: bool, text: Bytes, v: Val, a: Bytes, b: Bytes)
    requires Comes(ctx, pieces, inside, text) && !v.List? && KeepsPlace(ctx, a, b)
    ensures Comes(ctx, pieces + ElementPieces(v, a, b), inside, text + (a + ValueText(ctx, inside, v) + b))
  {
    hide Comes, ValueText, Written;
    var value := ValueText(ctx, inside, v);
    ThenLiteral(ctx, pieces, inside, text, a);
    ThenValue(ctx, pieces + Written(a), inside, text + a, v);
    ThenLiteral(ctx, pieces + Written(a) + [Hole(v)], inside, text + a + value, b);
    assert pieces + ElementPieces(v, a, b) == pieces + Written(a) + [Hole(v)] + Written(b);
    assert text + (a + value + b) == text + a + value + b;
  }

  function ElementTexts(ctx: Context, inside: bool, elems: seq<Val>, a: Bytes, b: Bytes): seq<Bytes> {
    seq(|elems|, i requires 0 <= i < |elems| => a + ValueText(ctx, inside, elems[i]) + b)
  }

  lemma {:induction false} CommasWritten(ctx: Context, p: Bytes, elems: seq<Val>, n: nat, a: Bytes, b: Bytes)
    requires n <= |elems| && (forall i :: 0 <= i < |elems| ==> !elems[i].List?) && KeepsPlace(ctx, a, b)
    ensures var inside := Inside(ctx, Fed(ctx, Start, p, |p|));
      Comes(ctx, [Literal(p)] + WithCommas(elems, n, a, b), inside,
        p + JoinTo(ElementTexts(ctx, inside, elems, a, b), [COMMA], n))
  {
    hide Comes, ValueText, ElementPieces, KeepsPlace;
    var inside := Inside(ctx, Fed(ctx, Start, p, |p|));
    var texts := ElementTexts(ctx, inside, elems, a, b);
    if n == 0 {
      LiteralComes(ctx, p);
      assert [Literal(p)] + [] == [Literal(p)] && p + [] == p;
    } else {
      CommasWritten(ctx, p, elems, n - 1, a, b);
      OneElementMore(ctx, p, WithCommas(elems, n - 1, a, b), inside, JoinTo(texts, [COMMA], n - 1), elems[n - 1], a, b,
        n);
    }
  }

  lemma OneElementMore(ctx: Context, p: Bytes, pieces: seq<Piece>, inside: bool, text: Bytes, v: Val, a: Bytes,
                       b: Bytes, n: nat)
    requires !v.List? && KeepsPlace(ctx, a, b)
    requires Comes(ctx, [Literal(p)] + pieces, inside, p + text) && (n == 1 ==> pieces == [] && text == [])
    ensures var value := a + ValueText(ctx, inside, v) + b;
      Comes(ctx,
        [Literal(p)] + (pieces + (if n == 1 then [] else [Literal([COMMA])]) + ElementPieces(v, a, b)), inside,
        p + if n == 1 then value else text + ([COMMA] + value))
  {
    hide Comes, ValueText, ElementPieces, KeepsPlace;
    var was, so, more := [Literal(p)] + pieces, p + text, ElementPieces(v, a, b);
    var value := a + ValueText(ctx, inside, v) + b;
    if n == 1 {
      ThenElement(ctx, was, inside, so, v, a, b);
      assert [Literal(p)] + ([] + [] + more) == was + more;
      assert p + value == so + value;
    } else {
      var comma := Literal([COMMA]);
      ThenComma(ctx, was, inside, so);
      ThenElement(ctx, was + [comma], inside, so + [COMMA], v, a, b);
      assert [Literal(p)] + (pieces + [comma] + more) == was + [comma] + more;
      assert p + (text + ([COMMA] + value)) == so + [COMMA] + value;
    }
  }

  lemma LiteralComes(ctx: Context, p: Bytes)
    ensures Comes(ctx, [Literal(p)], Inside(ctx, Fed(ctx, Start, p, |p|)), p)
  {
    FirstLiteral(ctx, p);
  }

  /** The template p{{#name}}a{{.}}b{{/name}}after, where copies of its body are joined with commas: the elements
      between p and after, each as it is written where p ends. A body that is {{.}} alone always is. */
  lemma ElementsHaveCommas(ctx: Context, p: Bytes, name: Bytes, a: Bytes, b: Bytes, after: Bytes, inputs: Inputs,
                           elems: seq<Val>)
    requires name in inputs && inputs[name] == List(elems) && forall i :: 0 <= i < |elems| ==> !elems[i].List?
    requires (a == [] && b == []) || ctx.RawText?
      || (ctx.FormBody? && BringsNone(a, b) && WithinPair(AfterLast(p, AMPERSAND), a, b))
    ensures Proper(AroundBlock(p, name, a, b, after))
    ensures var inside := Inside(ctx, Fed(ctx, Start, p, |p|));
      Substitution.Meaning(ctx, AroundBlock(p, name, a, b, after), inputs)
        == Some(p + Join(ElementTexts(ctx, inside, elems, a, b), [COMMA]) + after)
  {
    hide Comes, RenderForest, ValueText, WithCommas, AfterLast, AfterFirst, TrimSpace;
    AroundIsProper(p, name, a, b, after, inputs);
    AroundRenders(ctx, p, name, a, b, after, inputs, elems);
    CommasWritten(ctx, p, elems, |elems|, a, b);
    var inside := Inside(ctx, Fed(ctx, Start, p, |p|));
    var pieces, text := [Literal(p)] + WithCommas(elems, |elems|, a, b),
      p + Join(ElementTexts(ctx, inside, elems, a, b), [COMMA]);
    assert [Literal(p)] + (WithCommas(elems, |elems|, a, b) + [Literal(after)]) == pieces + [Literal(after)];
    LastLiteral(ctx, pieces, inside, text, after);
  }

  lemma LastLiteral(ctx: Context, pieces: seq<Piece>, inside: bool, text: Bytes, after: Bytes)
    requires Comes(ctx, pieces, inside, text)
    ensures Output(ctx, pieces + [Literal(after)], |pieces| + 1) == text + after
  {
    OnePieceMore(ctx, pieces, Literal(after));
  }

  // ---------- A JSON array ----------

  function JsonTexts(elems: seq<Val>): seq<Bytes> {
    seq(|elems|, i requires 0 <= i < |elems| => JsonTextOf(elems[i]))
  }

  lemma {:induction false} JoinFront(parts: seq<Bytes>, sep: Bytes, n: nat)
    requires 0 < n <= |parts|
    ensures JoinTo(parts, sep, n) == parts[0] + if n == 1 then [] else sep + JoinTo(parts[1..], sep, n - 1)
  {
    if n == 1 {
      assert parts[0] + [] == parts[0];
    } else if n == 2 {
      assert JoinTo(parts[1..], sep, 1) == parts[1];
    } else {
      JoinFront(parts, sep, n - 1);
      var rest := JoinTo(parts[1..], sep, n - 2);
      assert parts[1..][n - 2] == parts[n - 1];
      Joins(parts[0], sep + rest, sep + parts[n - 1]);
      Joins(sep, rest, sep + parts[n - 1]);
    }
  }

  lemma {:induction false} ItemsTextIs(elems: seq<Val>)
    ensures JsonText.Text(ItemsTokens(ItemsOf(elems))) == Join(JsonTexts(elems), [COMMA])
  {
    if elems == [] {
      assert Texts([]) == [];
    } else {
      ItemsTextIs(elems[1..]);
      var last, rest := |elems| == 1, ItemsTokens(ItemsOf(elems[1..]));
      var sep, tokens := Gaps(JsonText.AfterValue([], last)), Tokens(JsonOf(elems[0]));
      assert Gaps([]) + (tokens + (sep + rest)) == tokens + (sep + rest);
      assert ItemsOf(elems).rest.NoItems? <==> last;
      TextConcat(tokens, sep + rest);
      TextConcat(sep, rest);
      TextOfGaps(JsonText.AfterValue([], last));
      assert JsonTexts(elems)[1..] == JsonTexts(elems[1..]);
      JoinFront(JsonTexts(elems), [COMMA], |elems|);
      if last {
        assert rest == [] && Texts([]) == [];
      } else {
        assert [] + [COMMA] == [COMMA];
      }
    }
  }

  /** A list's JSON text is its elements' in brackets, with commas between them. */
  lemma ListTextIs(elems: seq<Val>)
    ensures JsonTextOf(List(elems)) == [91] + Join(JsonTexts(elems), [COMMA]) + [93]
  {
    var items := ItemsTokens(ItemsOf(elems));
    assert [91] + [] == [91];
    TextConcat(Gaps([91]), items + Gaps([93]));
    TextConcat(items, Gaps([93]));
    TextOfGaps([91]);
    TextOfGaps([93]);
    ItemsTextIs(elems);
  }

  /** What stands around an element in a JSON body. */
  function Marks(quoted: bool): Bytes {
    if quoted then [QUOTE] else []
  }

  /** The template [{{#name}}{{.}}{{/name}}], its element in quotation marks or not. */
  function InBrackets(name: Bytes, quoted: bool): Forest {
    AroundBlock([91], name, Marks(quoted), Marks(quoted), [93])
  }

  function ItemPieces(v: Val, quoted: bool): seq<Piece> {
    ElementPieces(v, Marks(quoted), Marks(quoted))
  }

  function ItemsTo(elems: seq<Val>, n: nat, quoted: bool): seq<Piece>
    requires n <= |elems|
  {
    WithCommas(elems, n, Marks(quoted), Marks(quoted))
  }

  /** An element's text in the template. */
  function ItemText(v: Val, quoted: bool): Bytes {
    if quoted then [QUOTE] + JsonStringContent(FormatValue(v)) + [QUOTE] else JsonValue(v)
  }

  /** Strings belong in quotation marks, and nothing else does. */
  predicate Suits(elems: seq<Val>, quoted: bool) {
    forall i :: 0 <= i < |elems| ==> (elems[i].Text? <==> quoted)
  }

  lemma ItemIsJson(v: Val, quoted: bool)
    requires v.Text? <==> quoted
    ensures ItemText(v, quoted) == JsonTextOf(v)
  {
    if quoted {
      var token := Quoted(Marshal(v.s, false), false);
      assert Texts([token]) == [TokenText(token)];
      FlattenOne(TokenText(token));
    }
  }

  /** A JSON body so far: outside any string. */
  ghost predicate Stands(pieces: seq<Piece>, text: Bytes) {
    && Output(JsonBody, pieces, |pieces|) == text
    && !StateAt(JsonBody, pieces, |pieces|).inString && !StateAt(JsonBody, pieces, |pieces|).escaped
  }

  lemma StandsThenComma(pieces: seq<Piece>, text: Bytes)
    requires Stands(pieces, text)
    ensures Stands(pieces + [Literal([COMMA])], text + [COMMA])
  {
    OnePieceMore(JsonBody, pieces, Literal([COMMA]));
    assert Fed(JsonBody, StateAt(JsonBody, pieces, |pieces|), [COMMA], 0) == StateAt(JsonBody, pieces, |pieces|);
  }

  /** And inside one. */
  ghost predicate StandsInString(pieces: seq<Piece>, text: Bytes) {
    && Output(JsonBody, pieces, |pieces|) == text
    && StateAt(JsonBody, pieces, |pieces|).inString && !StateAt(JsonBody, pieces, |pieces|).escaped
  }

  lemma QuoteTurns(pieces: seq<Piece>, text: Bytes)
    ensures Stands(pieces, text) ==> StandsInString(pieces + [Literal([QUOTE])], text + [QUOTE])
    ensures StandsInString(pieces, text) ==> Stands(pieces + [Literal([QUOTE])], text + [QUOTE])
  {
    hide StateAt, Output;
    OnePieceMore(JsonBody, pieces, Literal([QUOTE]));
    assert Fed(JsonBody, StateAt(JsonBody, pieces, |pieces|), [QUOTE], 0) == StateAt(JsonBody, pieces, |pieces|);
  }

  lemma FillsString(pieces: seq<Piece>, text: Bytes, v: Val)
    requires StandsInString(pieces, text)
    ensures StandsInString(pieces + [Hole(v)], text + JsonStringContent(FormatValue(v)))
  {
    hide JsonStringContent, FormatValue, StateAt, Output, Fed;
    OnePieceMore(JsonBody, pieces, Hole(v));
  }

  lemma FillsPlace(pieces: seq<Piece>, text: Bytes, v: Val)
    requires Stands(pieces, text)
    ensures Stands(pieces + [Hole(v)], text + JsonValue(v))
  {
    hide JsonValue, FormatValue, StateAt, Output, Fed;
    OnePieceMore(JsonBody, pieces, Hole(v));
  }

  lemma StandsThenItem(pieces: seq<Piece>, text: Bytes, v: Val, quoted: bool)
    requires Stands(pieces, text)
    ensures Stands(pieces + ItemPieces(v, quoted), text + ItemText(v, quoted))
  {
    hide Stands, StandsInString, JsonStringContent, FormatValue, JsonValue;
    if quoted {
      var q, content := Literal([QUOTE]), JsonStringContent(FormatValue(v));
      QuoteTurns(pieces, text);
      FillsString(pieces + [q], text + [QUOTE], v);
      QuoteTurns(pieces + [q] + [Hole(v)], text + [QUOTE] + content);
      assert pieces + ItemPieces(v, true) == pieces + [q] + [Hole(v)] + [q];
      assert text + ([QUOTE] + content + [QUOTE]) == text + [QUOTE] + content + [QUOTE];
    } else {
      FillsPlace(pieces, text, v);
      assert [] + ([Hole(v)] + []) == [Hole(v)];
    }
  }

  lemma {:induction false} ItemsWritten(elems: seq<Val>, n: nat, quoted: bool)
    requires n <= |elems| && Suits(elems, quoted)
    ensures Stands([Literal([91])] + ItemsTo(elems, n, quoted), [91] + JoinTo(JsonTexts(elems), [COMMA], n))
  {
    hide Stands, JsonTextOf, ItemText, ElementPieces, Marks;
    var texts := JsonTexts(elems);
    if n == 0 {
      BracketStands();
      assert [Literal([91])] + [] == [Literal([91])] && [91] + [] == [91];
    } else {
      ItemsWritten(elems, n - 1, quoted);
      ItemIsJson(elems[n - 1], quoted);
      OneItemMore(ItemsTo(elems, n - 1, quoted), JoinTo(texts, [COMMA], n - 1), elems[n - 1], quoted, n);
    }
  }

  lemma OneItemMore(pieces: seq<Piece>, text: Bytes, v: Val, quoted: bool, n: nat)
    requires Stands([Literal([91])] + pieces, [91] + text) && (n == 1 ==> pieces == [] && text == [])
    ensures Stands(
      [Literal([91])] + (pieces + (if n == 1 then [] else [Literal([COMMA])]) + ItemPieces(v, quoted)),
      [91] + if n == 1 then ItemText(v, quoted) else text + ([COMMA] + ItemText(v, quoted)))
  {
    hide Stands, ItemText, ItemPieces;
    var was, so := [Literal([91])] + pieces, [91] + text;
    if n == 1 {
      StandsThenItem(was, so, v, quoted);
      assert [Literal([91])] + ([] + [] + ItemPieces(v, quoted)) == was + ItemPieces(v, quoted);
      assert [91] + ItemText(v, quoted) == so + ItemText(v, quoted);
    } else {
      var comma := Literal([COMMA]);
      StandsThenComma(was, so);
      StandsThenItem(was + [comma], so + [COMMA], v, quoted);
      assert [Literal([91])] + (pieces + [comma] + ItemPieces(v, quoted))
        == was + [comma] + ItemPieces(v, quoted);
      assert [91] + (text + ([COMMA] + ItemText(v, quoted))) == so + [COMMA] + ItemText(v, quoted);
    }
  }

  lemma BracketStands()
    ensures Stands([Literal([91])], [91])
  {
    FirstLiteral(JsonBody, [91]);
    assert Fed(JsonBody, Start, [91], 0) == Start;
  }

  /** What a JSON reader makes of the elements: a string its text, made well-formed UTF-8. */
  function ItemsRead(elems: seq<Val>): seq<Json>
    requires forall i :: 0 <= i < |elems| ==> ValOk(elems[i])
  {
    seq(|elems|, i requires 0 <= i < |elems| =>
      (JsonIsOk(elems[i]);
       if elems[i].Text? then JString(Repaired(elems[i].s)) else JsonText.Meaning(JsonOf(elems[i]))))
  }

  lemma {:induction false} ItemsMean(elems: seq<Val>)
    requires forall i :: 0 <= i < |elems| ==> ValOk(elems[i])
    ensures ItemsOk(ItemsOf(elems)) && ItemsMeaning(ItemsOf(elems)) == ItemsRead(elems)
  {
    if elems != [] {
      ItemsMean(elems[1..]);
      JsonIsOk(elems[0]);
      if elems[0].Text? {
        MarshalReadsBack(elems[0].s, false);
      }
      assert ItemsRead(elems)[1..] == ItemsRead(elems[1..]);
    }
  }

  /** A block inside brackets in a JSON body, its element in quotation marks where it is a string: the JSON array
      of exactly those elements, in order. */
  lemma BlockIsArray(name: Bytes, quoted: bool, inputs: Inputs, elems: seq<Val>)
    requires name in inputs && inputs[name] == List(elems) && Suits(elems, quoted)
    requires forall i :: 0 <= i < |elems| ==> ValOk(elems[i])
    ensures Proper(InBrackets(name, quoted))
    ensures var text := Substitution.Meaning(JsonBody, InBrackets(name, quoted), inputs);
      text.Some? && exists d: Document ::
        DocumentOk(d) && DocumentText(d) == text.value && JsonText.Meaning(d.value) == JArray(ItemsRead(elems))
  {
    hide Stands, RenderForest, WithCommas, JsonTextOf;
    var q := Marks(quoted);
    AroundIsProper([91], name, q, q, [93], inputs);
    AroundRenders(JsonBody, [91], name, q, q, [93], inputs, elems);
    ItemsWritten(elems, |elems|, quoted);
    var pieces, text := [Literal([91])] + WithCommas(elems, |elems|, q, q), [91] + Join(JsonTexts(elems), [COMMA]);
    assert [Literal([91])] + (WithCommas(elems, |elems|, q, q) + [Literal([93])]) == pieces + [Literal([93])];
    ClosingBracket(pieces, text);
    ListTextIs(elems);
    ListDocument(elems);
  }

  lemma ClosingBracket(pieces: seq<Piece>, text: Bytes)
    requires Stands(pieces, text)
    ensures Output(JsonBody, pieces + [Literal([93])], |pieces| + 1) == text + [93]
  {
    OnePieceMore(JsonBody, pieces, Literal([93]));
  }

  lemma ListDocument(elems: seq<Val>)
    requires forall i :: 0 <= i < |elems| ==> ValOk(elems[i])
    ensures var d := Document([], JsonOf(List(elems)), []);
      && DocumentOk(d) && DocumentText(d) == JsonTextOf(List(elems))
      && JsonText.Meaning(d.value) == JArray(ItemsRead(elems))
  {
    var v := JsonOf(List(elems));
    ItemsMean(elems);
    assert Gaps([]) + (Tokens(v) + Gaps([])) == Tokens(v);
  }

  // ---------- A list as a value ----------

  /** The template p{{name}}after. */
  function AroundValue(p: Bytes, name: Bytes, after: Bytes): Forest {
    Leaf(Lit(p), Leaf(Placeholder(Input(name)), Leaf(Lit(after), Empty)))
  }

  lemma ValueIsProper(p: Bytes, name: Bytes, after: Bytes, inputs: Inputs)
    ensures var f := AroundValue(p, name, after); Proper(f) && IterOnly(f) && Prune(f, inputs) == f
  {
    var tail, value := Leaf(Lit(after), Empty), Placeholder(Input(name));
    assert Proper(Empty) && IterOnly(Empty) && Prune(Empty, inputs) == Empty;
    assert Proper(tail) && IterOnly(tail) && Prune(tail, inputs) == tail;
    var rest := Leaf(value, tail);
    assert Proper(rest) && IterOnly(rest) && Prune(rest, inputs) == rest;
  }

  lemma ValueRenders(ctx: Context, p: Bytes, name: Bytes, after: Bytes, inputs: Inputs)
    requires name in inputs && IterOnly(AroundValue(p, name, after))
    ensures var out := RenderForest(ctx, AroundValue(p, name, after), [], inputs, []);
      out.Some? && out.value.pieces == [Literal(p), Hole(inputs[name]), Literal(after)]
  {
    var tail, value := Leaf(Lit(after), Empty), Placeholder(Input(name));
    var rest := Leaf(value, tail);
    assert IterOnly(tail) && IterOnly(rest);
    var text := [] + p + TextIn(value, []);
    TailRenders(ctx, after, text, inputs);
    assert RenderIn(value, inputs, []) == Some([Hole(inputs[name])]);
    assert [Hole(inputs[name])] + [Literal(after)] == [Hole(inputs[name]), Literal(after)];
    assert RenderForest(ctx, rest, [] + p, inputs, [])
      == Some(Out([Hole(inputs[name])] + [Literal(after)], text + after));
    assert RenderIn(Lit(p), inputs, []) == Some([Literal(p)]);
    assert [Literal(p)] + ([Hole(inputs[name])] + [Literal(after)]) == [Literal(p), Hole(inputs[name]), Literal(after)];
  }

  /** p{{name}}after comes to the value as it is written behind p. */
  lemma ValueComes(ctx: Context, p: Bytes, name: Bytes, after: Bytes, inputs: Inputs)
    requires name in inputs
    ensures Proper(AroundValue(p, name, after))
    ensures Substitution.Meaning(ctx, AroundValue(p, name, after), inputs)
      == Some(p + Rendered(ctx, Fed(ctx, Start, p, |p|), inputs[name]) + after)
  {
    hide RenderForest, Rendered, Fed;
    ValueIsProper(p, name, after, inputs);
    ValueRenders(ctx, p, name, after, inputs);
    FirstLiteral(ctx, p);
    var one, v := [Literal(p)], inputs[name];
    OnePieceMore(ctx, one, Hole(v));
    OnePieceMore(ctx, one + [Hole(v)], Literal(after));
    assert one + [Hole(v)] + [Literal(after)] == [Literal(p), Hole(v), Literal(after)];
  }

  function PathTexts(elems: seq<Val>): seq<Bytes> {
    seq(|elems|, i requires 0 <= i < |elems| => PathEscape(FormatValue(elems[i])))
  }

  function QueryTexts(elems: seq<Val>): seq<Bytes> {
    seq(|elems|, i requires 0 <= i < |elems| => QueryEscape(FormatValue(elems[i])))
  }

  lemma {:induction false} NotInQuery(p: Bytes, n: nat)
    requires n <= |p| && QUESTION !in p
    ensures !Fed(PathText, Start, p, n).inQuery
  {
    if n > 0 {
      NotInQuery(p, n - 1);
      assert p[n - 1] in p;
    }
  }

  /** A list in a path, before its query: its elements with commas between them, none of which holds one. */
  lemma PathListHasCommas(p: Bytes, name: Bytes, after: Bytes, inputs: Inputs, elems: seq<Val>)
    requires name in inputs && inputs[name] == List(elems) && QUESTION !in p
    ensures Proper(AroundValue(p, name, after))
    ensures Substitution.Meaning(PathText, AroundValue(p, name, after), inputs)
      == Some(p + Join(PathTexts(elems), [COMMA]) + after)
    ensures forall i :: 0 <= i < |elems| ==>
      COMMA !in PathTexts(elems)[i] && Unescape(PathTexts(elems)[i], false) == Ok(FormatValue(elems[i]))
  {
    ValueComes(PathText, p, name, after, inputs);
    NotInQuery(p, |p|);
    assert FormatAll(elems, false) == PathTexts(elems);
    forall i | 0 <= i < |elems|
      ensures COMMA !in PathTexts(elems)[i] && Unescape(PathTexts(elems)[i], false) == Ok(FormatValue(elems[i])) {
      PathRoundTrip(FormatValue(elems[i]));
      NoComma(FormatValue(elems[i]));
    }
  }

  lemma {:induction false} NoComma(s: Bytes)
    ensures COMMA !in PathEscape(s) && COMMA !in QueryEscape(s)
  {
    if s != [] {
      NoComma(s[1..]);
    }
  }

  lemma {:induction false} SegmentIs(p: Bytes, n: nat)
    requires n <= |p|
    ensures var s := Fed(FormBody, Start, p, n); !s.valued && s.segment == AfterLast(p[..n], AMPERSAND)
  {
    if n > 0 {
      SegmentIs(p, n - 1);
      assert p[..n][..n - 1] == p[..n - 1] && p[..n][n - 1] == p[n - 1];
    }
  }

  /** A list in a form body: right behind a key and its equals sign one pair for each element, and its elements
      with commas between them anywhere else. */
  lemma FormListIs(p: Bytes, name: Bytes, after: Bytes, inputs: Inputs, elems: seq<Val>, key: Bytes)
    requires name in inputs && inputs[name] == List(elems)
    ensures Proper(AroundValue(p, name, after))
    ensures var pair, text := AfterLast(p, AMPERSAND),
                Substitution.Meaning(FormBody, AroundValue(p, name, after), inputs);
      && (pair == key + [EQUALS] && key != [] && EQUALS !in key ==>
            text == Some(p + Join(QueryTexts(elems), [AMPERSAND] + key + [EQUALS]) + after))
      && (pair == [] || pair[|pair| - 1] != EQUALS || pair == [EQUALS] || EQUALS in pair[..|pair| - 1] ==>
            text == Some(p + Join(QueryTexts(elems), [COMMA]) + after))
  {
    ValueComes(FormBody, p, name, after, inputs);
    SegmentIs(p, |p|);
    assert p[..|p|] == p;
    assert FormatAll(elems, true) == QueryTexts(elems);
    var s := Fed(FormBody, Start, p, |p|);
    if s.segment == key + [EQUALS] {
      assert s.segment[..|s.segment| - 1] == key;
      assert [AMPERSAND] + key + [EQUALS] == [AMPERSAND] + s.segment;
    }
  }
}

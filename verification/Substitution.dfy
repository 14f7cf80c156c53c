/** Filling a template (adapter/template.go substitutePlaceholders): conditional blocks, then iteration
    blocks, then every placeholder in one pass. */
module Substitution {
  import opened Bytes
  import opened Conditionals
  import opened Filling
  import opened Iterations
  import opened Rendering
  import opened JsonString
  import opened Scanner
  import opened Separators
  import opened Template
  import opened Values

  /** As a template's text has it: a block for a list names one input, and placeholders name inputs. */
  predicate Proper(f: Forest) {
    match f
    case Empty => true
    case Leaf(t, next) => FromText(t) && Proper(next)
    case Block(cond, name, body, next) => (cond || |name| == 1) && Proper(body) && Proper(next)
  }

  /**
   * What a template means: the pieces of its structure, its conditional blocks decided, each value
   * escaped for its place.
   */
  function Meaning(ctx: Context, f: Forest, inputs: Inputs): Option<Bytes>
    requires Proper(f)
  {
    ProperIsPruned(f, inputs);
    var out := RenderForest(ctx, Prune(f, inputs), [], inputs, []);
    if out == None then None else Some(Output(ctx, out.value.pieces, |out.value.pieces|))
  }

  lemma {:induction false} ProperIsPruned(f: Forest, inputs: Inputs)
    requires Proper(f)
    ensures WellNested(f) && IterOnly(Prune(f, inputs))
    decreases f
  {
    match f {
      case Empty =>
      case Leaf(_, next) => ProperIsPruned(next, inputs);
      case Block(_, _, body, next) =>
        ProperIsPruned(body, inputs);
        ProperIsPruned(next, inputs);
        IterInAppend(Prune(body, inputs), Prune(next, inputs));
    }
  }

  lemma {:induction false} IterInAppend(f: Forest, g: Forest)
    requires IterOnly(f) && IterOnly(g)
    ensures IterOnly(Append(f, g))
    decreases f
  {
    match f {
      case Empty =>
      case Leaf(_, next) => IterInAppend(next, g);
      case Block(_, _, _, next) => IterInAppend(next, g);
    }
  }

  lemma {:induction false} SameOutput(ctx: Context, a: seq<Piece>, b: seq<Piece>, n: nat)
    requires n <= |a| && n <= |b| && forall i :: 0 <= i < n ==> a[i] == b[i]
    ensures StateAt(ctx, a, n) == StateAt(ctx, b, n) && Output(ctx, a, n) == Output(ctx, b, n)
  {
    hide Fed, PieceText;
    if n > 0 {
      SameOutput(ctx, a, b, n - 1);
    }
  }

  function AfterPiece(ctx: Context, s: State, p: Piece): State {
    if p.Literal? then Fed(ctx, s, p.text, |p.text|) else Scanner.AfterValue(ctx, s)
  }

  lemma OnePieceMore(ctx: Context, pieces: seq<Piece>, p: Piece)
    ensures var n, more := |pieces|, pieces + [p];
      && Output(ctx, more, n + 1) == Output(ctx, pieces, n) + PieceText(ctx, StateAt(ctx, pieces, n), p)
      && StateAt(ctx, more, n + 1) == AfterPiece(ctx, StateAt(ctx, pieces, n), p)
  {
    SameOutput(ctx, pieces + [p], pieces, |pieces|);
    assert (pieces + [p])[|pieces|] == p;
  }

  /** What a placeholder stands for. */
  method PlaceholderValue(t: Tag, inputs: Inputs, elements: seq<Val>) returns (v: Option<Val>)
    requires !t.Lit?
    ensures RenderTag(t, inputs, elements) == if v.Some? then Some([Hole(v.value)]) else None
  {
    v := None;
    if t.Placeholder? && t.key.Element? {
      if t.key.n < |elements| {
        v := Some(elements[t.key.n]);
      }
    } else {
      var key := if t.Placeholder? then t.key.name else TagText(t);
      if key in inputs {
        v := Some(inputs[key]);
      }
    }
  }

  /** What has been written of the pieces so far, and where the scanner stands after them. */
  ghost predicate Wrote(ctx: Context, so: Option<seq<Piece>>, state: State, out: Bytes, missing: bool) {
    (missing <==> so == None)
      && (so.Some? ==> state == StateAt(ctx, so.value, |so.value|) && out == Output(ctx, so.value, |so.value|))
  }

  lemma WritesOn(ctx: Context, so: Option<seq<Piece>>, state: State, out: Bytes, missing: bool, p: Piece, state': State)
    requires Wrote(ctx, so, state, out, missing)
    requires state' == AfterPiece(ctx, state, p)
    ensures Wrote(ctx, Cat(so, Some([p])), state', out + PieceText(ctx, state, p), missing)
  {
    if so.Some? {
      OnePieceMore(ctx, so.value, p);
    }
  }

  method SubstituteTag(scanner: ContextScanner, t: Tag, inputs: Inputs, elements: seq<Val>, was: Bytes, had: bool,
                       ghost so: Option<seq<Piece>>)
    returns (out: Bytes, missing: bool)
    requires Wrote(scanner.ctx, so, scanner.Now(), was, had)
    modifies scanner
    ensures Wrote(scanner.ctx, Cat(so, RenderTag(t, inputs, elements)), scanner.Now(), out, missing)
  {
    hide StateAt, Output, Fed, Rendered;
    if t.Lit? {
      WritesOn(scanner.ctx, so, scanner.Now(), was, had, Literal(t.text),
        Fed(scanner.ctx, scanner.Now(), t.text, |t.text|));
      scanner.Feed(t.text);
      return was + t.text, had;
    }
    var v := PlaceholderValue(t, inputs, elements);
    if v == None {
      return was, true;
    }
    WritesOn(scanner.ctx, so, scanner.Now(), was, had, Hole(v.value), Scanner.AfterValue(scanner.ctx, scanner.Now()));
    var text := scanner.Escape(v.value);
    out, missing := was + text, had;
  }

  /** Every placeholder in one pass, following the literal text between them. */
  method SubstituteTags(ctx: Context, tags: seq<Tag>, inputs: Inputs, elements: seq<Val>) returns (r: Option<Bytes>)
    ensures var pieces := Render(tags, inputs, elements);
      r == if pieces == None then None else Some(Output(ctx, pieces.value, |pieces.value|))
  {
    var scanner := new ContextScanner(ctx);
    var out: Bytes, missing := [], false;
    assert Wrote(ctx, RenderTo(tags, 0, inputs, elements), scanner.Now(), out, missing);
    hide Wrote, RenderTag, RenderTo, Cat, StateAt, Output, Fed, Rendered, TagText, AfterPiece;
    for i := 0 to |tags|
      invariant fresh(scanner) && scanner.ctx == ctx
        && Wrote(ctx, RenderTo(tags, i, inputs, elements), scanner.Now(), out, missing)
    {
      RendersNext(tags, i, inputs, elements);
      out, missing := SubstituteTag(scanner, tags[i], inputs, elements, out, missing,
        RenderTo(tags, i, inputs, elements));
    }
    WroteAll(ctx, Render(tags, inputs, elements), scanner.Now(), out, missing);
    r := if missing then None else Some(out);
  }

  lemma RendersNext(tags: seq<Tag>, i: nat, inputs: Inputs, elements: seq<Val>)
    requires i < |tags|
    ensures RenderTo(tags, i + 1, inputs, elements)
      == Cat(RenderTo(tags, i, inputs, elements), RenderTag(tags[i], inputs, elements))
  {
  }

  lemma WroteAll(ctx: Context, so: Option<seq<Piece>>, state: State, out: Bytes, missing: bool)
    requires Wrote(ctx, so, state, out, missing)
    ensures (if missing then None else Some(out))
      == if so == None then None else Some(Output(ctx, so.value, |so.value|))
  {
  }

  /** A template whose blocks nest, in whatever way, comes to what its structure means. */
  method Substitute(ctx: Context, tmpl: seq<Tag>, inputs: Inputs, ghost f: Forest) returns (r: Option<Bytes>)
    requires Proper(f) && tmpl == Flat(f)
    ensures r == Meaning(ctx, f, inputs)
  {
    ProperIsPruned(f, inputs);
    ExpandIsPrune(f, inputs);
    var expanded := ExpandConditionalBlocks(tmpl, inputs);
    var iterated, elements := ExpandIterationBlocks(ctx, expanded.tags, inputs, Prune(f, inputs));
    if iterated.NotAList? {
      return None;
    }
    r := SubstituteTags(ctx, iterated.tags, inputs, elements);
  }

  // ---------- A block inside another ----------

  /** The template {{#outer}}{{#inner}}text{{/inner}}{{/outer}}. */
  function Nested(outer: Bytes, inner: Bytes, text: Bytes): Forest {
    Block(false, [outer], Block(false, [inner], Leaf(Lit(text), Empty), Empty), Empty)
  }

  /** A block inside another is repeated for each element of the outer one, though docs/user/templates.md has it
      otherwise: with two elements outside and one inside its text is sent twice. */
  lemma InnerIsRepeated(inputs: Inputs, outer: Bytes, inner: Bytes, text: Bytes, x: Val, y: Val, z: Val)
    requires outer in inputs && inner in inputs && inputs[outer] == List([x, y]) && inputs[inner] == List([z])
    ensures Proper(Nested(outer, inner, text))
      && Meaning(RawText, Nested(outer, inner, text), inputs) == Some(text + [COMMA] + text)
  {
    var f := Nested(outer, inner, text);
    NestedIsProper(outer, inner, text, inputs);
    var pieces := [Literal(text), Literal([COMMA]), Literal(text)];
    NestedRenders(inputs, outer, inner, text, x, y, z);
    assert Output(RawText, pieces, 0) == [] && Output(RawText, pieces, 1) == [] + text;
    assert [] + text == text;
    assert Output(RawText, pieces, 2) == text + [COMMA];
  }

  lemma NestedIsProper(outer: Bytes, inner: Bytes, text: Bytes, inputs: Inputs)
    ensures Proper(Nested(outer, inner, text)) && IterOnly(Nested(outer, inner, text))
    ensures Prune(Nested(outer, inner, text), inputs) == Nested(outer, inner, text)
  {
    var leaf := Leaf(Lit(text), Empty);
    assert Proper(Empty) && IterOnly(Empty) && Prune(Empty, inputs) == Empty;
    assert Proper(leaf) && IterOnly(leaf) && Prune(leaf, inputs) == leaf;
    var block := Block(false, [inner], leaf, Empty);
    assert Proper(block) && IterOnly(block) && Prune(block, inputs) == block;
  }

  /** The inner block, wherever it stands. */
  lemma InnerRenders(inputs: Inputs, inner: Bytes, text: Bytes, z: Val, before: Bytes, env: Env)
    requires inner in inputs && inputs[inner] == List([z])
    ensures var block := Block(false, [inner], Leaf(Lit(text), Empty), Empty);
      && IterOnly(block)
      && RenderForest(RawText, block, before, inputs, env) == Some(Out([Literal(text)], before + text))
  {
    var leaf, now := Leaf(Lit(text), Empty), env + [Turn(0, z)];
    var block := Block(false, [inner], leaf, Empty);
    assert IterOnly(Empty) && IterOnly(leaf);
    assert RenderForest(RawText, Empty, before + text, inputs, now) == Some(Out([], before + text));
    assert [Literal(text)] + [] == [Literal(text)] && [] + [Literal(text)] == [Literal(text)];
    assert RenderForest(RawText, leaf, before, inputs, now) == Some(Out([Literal(text)], before + text));
    assert RenderCopies(RawText, leaf, before, inputs, env, [z], 0, [COMMA]) == Some(Out([], before));
    assert RenderCopies(RawText, leaf, before, inputs, env, [z], 1, [COMMA])
      == Some(Out([Literal(text)], before + text));
  }

  lemma NestedRenders(inputs: Inputs, outer: Bytes, inner: Bytes, text: Bytes, x: Val, y: Val, z: Val)
    requires outer in inputs && inner in inputs && inputs[outer] == List([x, y]) && inputs[inner] == List([z])
    requires IterOnly(Nested(outer, inner, text))
    ensures var out := RenderForest(RawText, Nested(outer, inner, text), [], inputs, []);
      out.Some? && out.value.pieces == [Literal(text), Literal([COMMA]), Literal(text)]
  {
    var block := Block(false, [inner], Leaf(Lit(text), Empty), Empty);
    InnerRenders(inputs, inner, text, z, [], [Turn(0, x)]);
    assert [] + [Turn(0, x)] == [Turn(0, x)] && [] + [Turn(1, y)] == [Turn(1, y)] && [] + text == text;
    InnerRenders(inputs, inner, text, z, text + [COMMA], [Turn(1, y)]);
    hide RenderForest;
    assert [] + [Literal(text)] == [Literal(text)];
    assert RenderCopies(RawText, block, [], inputs, [], [x, y], 0, [COMMA]) == Some(Out([], []));
    assert RenderCopies(RawText, block, [], inputs, [], [x, y], 1, [COMMA]) == Some(Out([Literal(text)], text));
    var two := Out([Literal(text)] + [Literal([COMMA])] + [Literal(text)], text + [COMMA] + text);
    assert RenderCopies(RawText, block, [], inputs, [], [x, y], 2, [COMMA]) == Some(two);
    OuterIsCopies(inputs, outer, block, [x, y]);
  }

  lemma OuterIsCopies(inputs: Inputs, outer: Bytes, block: Forest, elems: seq<Val>)
    requires IterOnly(block) && IterOnly(Block(false, [outer], block, Empty)) && outer in inputs
      && inputs[outer] == List(elems)
    ensures var copies, out := RenderCopies(RawText, block, [], inputs, [], elems, |elems|, [COMMA]),
                RenderForest(RawText, Block(false, [outer], block, Empty), [], inputs, []);
      copies.Some? ==> out.Some? && out.value.pieces == copies.value.pieces
  {
    hide RenderCopies;
    var copies := RenderCopies(RawText, block, [], inputs, [], elems, |elems|, [COMMA]);
    if copies.Some? {
      assert RenderForest(RawText, Empty, copies.value.text, inputs, []) == Some(Out([], copies.value.text));
      assert copies.value.pieces + [] == copies.value.pieces;
    }
  }
}

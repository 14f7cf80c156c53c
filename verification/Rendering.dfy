/** What a template without conditional blocks comes to, by its structure (adapter/template.go
    expandIterationBlocks, substitutePlaceholders): its literal text and the values to fill, in their order.

    A block is its body once for each element of its input's list. A block inside another stands in each of
    the outer one's copies; there the outer element is the one {{.}} and {{@index}} speak of, and a field is
    the outer element's if it has it. */
module Rendering {
  import opened Bytes
  import opened Decimals
  import opened Filling
  import opened JsonString
  import opened Scanner
  import opened Separators
  import opened Template
  import opened Values

  /** Only iteration blocks, each over one input; placeholders name inputs, as a template's text does. */
  predicate IterOnly(f: Forest) {
    match f
    case Empty => true
    case Leaf(t, next) => FromText(t) && IterOnly(next)
    case Block(cond, name, body, next) => !cond && |name| == 1 && IterOnly(body) && IterOnly(next)
  }

  predicate FromText(t: Tag) {
    IsPlain(t) && (t.Placeholder? ==> t.key.Input?)
  }

  /** The copy a tag stands in: the element of its block's list, and the element's index. */
  datatype Turn = Turn(index: nat, elem: Val)

  /** The copies a tag stands in, from the outermost block in. */
  type Env = seq<Turn>

  /** The field of the outermost element that has it. */
  function FieldOf(env: Env, name: Bytes): Option<Val> {
    if env == [] then None
    else
      var outer := FieldOf(env[..|env| - 1], name);
      if outer.Some? then outer else FieldNamed(env[|env| - 1].elem, name)
  }

  // ---------- A tag ----------

  function Lookup(inputs: Inputs, key: Bytes): Option<seq<Piece>> {
    if key in inputs then Some([Hole(inputs[key])]) else None
  }

  /** A tag that is left over is looked up like any placeholder, under the text between its braces. */
  function RenderTag(t: Tag, inputs: Inputs, elements: seq<Val>): Option<seq<Piece>> {
    match t
    case Lit(text) => Some([Literal(text)])
    case Placeholder(Input(name)) => Lookup(inputs, name)
    case Placeholder(Element(n)) => if n < |elements| then Some([Hole(elements[n])]) else None
    case _ => Lookup(inputs, TagText(t))
  }

  function RenderIn(t: Tag, inputs: Inputs, env: Env): Option<seq<Piece>> {
    if t.Index? && env != [] then Some([Literal(Decimal(env[0].index))])
    else if t.Dot? && env != [] then Some([Hole(env[0].elem)])
    else if t.DotField? && FieldOf(env, t.field).Some? then Some([Hole(FieldOf(env, t.field).value)])
    else RenderTag(t, inputs, [])
  }

  /** The template text of a tag; a value of a list is some placeholder, whatever its number. */
  function TextIn(t: Tag, env: Env): Bytes {
    if t.Index? && env != [] then Decimal(env[0].index)
    else if (t.Dot? && env != []) || (t.DotField? && FieldOf(env, t.field).Some?) then Token(0)
    else SourceOf(t)
  }

  function TextTo(tags: seq<Tag>, n: nat, env: Env): Bytes
    requires n <= |tags|
  {
    if n == 0 then [] else TextTo(tags, n - 1, env) + TextIn(tags[n - 1], env)
  }

  function BodySource(body: Forest, env: Env): Bytes {
    TextTo(Flat(body), |Flat(body)|, env)
  }

  // ---------- A template ----------

  /** Pieces, and the template text up to their end. */
  datatype Out = Out(pieces: seq<Piece>, text: Bytes)

  /** More, behind some pieces; None where the program reports an error. */
  function Onto(pieces: seq<Piece>, more: Option<Out>): Option<Out> {
    if more.Some? then Some(Out(pieces + more.value.pieces, more.value.text)) else None
  }

  /** A template behind the text before. */
  function RenderForest(ctx: Context, f: Forest, before: Bytes, inputs: Inputs, env: Env): Option<Out>
    requires IterOnly(f)
    decreases f, 0
  {
    match f
    case Empty => Some(Out([], before))
    case Leaf(t, next) =>
      var pieces := RenderIn(t, inputs, env);
      if pieces == None then None else Onto(pieces.value, RenderForest(ctx, next, before + TextIn(t, env), inputs, env))
    case Block(_, name, body, next) =>
      if name[0] in inputs && inputs[name[0]].List? then
        var elems, sep := inputs[name[0]].elems, IterationSeparator(ctx, before, BodySource(body, env));
        var copies := RenderCopies(ctx, body, before, inputs, env, elems, |elems|, sep);
        if copies == None then None
        else Onto(copies.value.pieces, RenderForest(ctx, next, copies.value.text, inputs, env))
      else None
  }

  /** A block's body for each of the first n elements, joined with sep. */
  function RenderCopies(ctx: Context, body: Forest, before: Bytes, inputs: Inputs, env: Env, elems: seq<Val>, n: nat,
                        sep: Bytes): Option<Out>
    requires IterOnly(body) && n <= |elems|
    decreases body, n + 1
  {
    if n == 0 then Some(Out([], before))
    else
      var was := RenderCopies(ctx, body, before, inputs, env, elems, n - 1, sep);
      if was == None then None
      else
        var now := if n == 1 then was.value else Out(was.value.pieces + [Literal(sep)], was.value.text + sep);
        Onto(now.pieces, RenderForest(ctx, body, now.text, inputs, env + [Turn(n - 1, elems[n - 1])]))
  }

  // ---------- A row of tags ----------

  /** Pieces one behind the other, or None when a placeholder stays unresolved. */
  function Cat(a: Option<seq<Piece>>, b: Option<seq<Piece>>): Option<seq<Piece>> {
    if a.Some? && b.Some? then Some(a.value + b.value) else None
  }

  function RenderTo(tags: seq<Tag>, n: nat, inputs: Inputs, elements: seq<Val>): Option<seq<Piece>>
    requires n <= |tags|
  {
    if n == 0 then Some([]) else Cat(RenderTo(tags, n - 1, inputs, elements), RenderTag(tags[n - 1], inputs, elements))
  }

  function Render(tags: seq<Tag>, inputs: Inputs, elements: seq<Val>): Option<seq<Piece>> {
    RenderTo(tags, |tags|, inputs, elements)
  }

  lemma CatAssociates(a: Option<seq<Piece>>, b: Option<seq<Piece>>, c: Option<seq<Piece>>)
    ensures Cat(Cat(a, b), c) == Cat(a, Cat(b, c))
  {
    if a.Some? && b.Some? && c.Some? {
      Sequences.Joins(a.value, b.value, c.value);
    }
  }

  lemma CatNothing(a: Option<seq<Piece>>)
    ensures Cat(a, Some([])) == a && Cat(Some([]), a) == a
  {
    if a.Some? {
      assert a.value + [] == a.value && [] + a.value == a.value;
    }
  }

  lemma {:induction false} RenderConcat(a: seq<Tag>, b: seq<Tag>, n: nat, inputs: Inputs, elements: seq<Val>)
    requires n <= |b|
    ensures RenderTo(a + b, |a| + n, inputs, elements)
      == Cat(Render(a, inputs, elements), RenderTo(b, n, inputs, elements))
  {
    if n == 0 {
      RenderPrefix(a, b, |a|, inputs, elements);
      CatNothing(Render(a, inputs, elements));
    } else {
      RenderConcat(a, b, n - 1, inputs, elements);
      assert (a + b)[|a| + n - 1] == b[n - 1];
      CatAssociates(Render(a, inputs, elements), RenderTo(b, n - 1, inputs, elements),
        RenderTag(b[n - 1], inputs, elements));
    }
  }

  lemma {:induction false} RenderPrefix(a: seq<Tag>, b: seq<Tag>, n: nat, inputs: Inputs, elements: seq<Val>)
    requires n <= |a|
    ensures RenderTo(a + b, n, inputs, elements) == RenderTo(a, n, inputs, elements)
  {
    if n > 0 {
      RenderPrefix(a, b, n - 1, inputs, elements);
      assert (a + b)[n - 1] == a[n - 1];
    }
  }

  lemma RenderJoined(a: seq<Tag>, b: seq<Tag>, inputs: Inputs, elements: seq<Val>)
    ensures Render(a + b, inputs, elements) == Cat(Render(a, inputs, elements), Render(b, inputs, elements))
  {
    RenderConcat(a, b, |b|, inputs, elements);
  }

  /** Every element placeholder is for one of the first n elements. */
  ghost predicate Within(tags: seq<Tag>, n: nat) {
    forall k :: 0 <= k < |tags| && tags[k].Placeholder? && tags[k].key.Element? ==> tags[k].key.n < n
  }

  /** Elements added later change nothing. */
  lemma {:induction false} RenderKeeps(tags: seq<Tag>, n: nat, inputs: Inputs, elements: seq<Val>, elements': seq<Val>)
    requires n <= |tags| && elements <= elements' && Within(tags, |elements|)
    ensures RenderTo(tags, n, inputs, elements') == RenderTo(tags, n, inputs, elements)
  {
    if n > 0 {
      RenderKeeps(tags, n - 1, inputs, elements, elements');
    }
  }
}

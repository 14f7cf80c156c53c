/** What filling a template keeps of it and writes into it, said of the template's own tags (adapter/template.go
    expandConditionalBlocks, substitutePlaceholders). */
module SubstitutionFacts {
  import opened Bytes
  import opened Conditionals
  import opened Filling
  import opened JsonString
  import opened Rendering
  import opened Scanner
  import opened Sequences
  import opened Substitution
  import opened Template
  import opened Values

  // ---------- What is kept ----------

  /** A tag that is no conditional block's own, and what the conditional blocks around it ask for. */
  datatype Placed = Placed(tag: Tag, asked: seq<seq<Bytes>>)

  /** A template's tags, but for its conditional blocks' own, inside blocks that ask for this already. */
  function TagsIn(f: Forest, asked: seq<seq<Bytes>>): seq<Placed> {
    match f
    case Empty => []
    case Leaf(t, next) => [Placed(t, asked)] + TagsIn(next, asked)
    case Block(true, name, body, next) => TagsIn(body, asked + [name]) + TagsIn(next, asked)
    case Block(false, name, body, next) =>
      [Placed(IterOpen(name), asked)] + (TagsIn(body, asked) + ([Placed(Close(name), asked)] + TagsIn(next, asked)))
  }

  function JustTags(placed: seq<Placed>): seq<Tag> {
    seq(|placed|, i requires 0 <= i < |placed| => placed[i].tag)
  }

  /** One of the inputs is there, and is neither null nor the empty text. */
  ghost predicate Has(inputs: Inputs, names: seq<Bytes>) {
    exists name :: name in names && name in inputs && inputs[name] != Null && inputs[name] != Val.Text([])
  }

  ghost predicate HasAll(inputs: Inputs, asked: seq<seq<Bytes>>) {
    forall names :: names in asked ==> Has(inputs, names)
  }

  /** These are the tags at these places, and they are all that inputs grants what is asked for. */
  ghost predicate Keeps(placed: seq<Placed>, inputs: Inputs, kept: seq<Tag>, at: seq<nat>) {
    && PickedAt(JustTags(placed), kept, at)
    && forall k :: 0 <= k < |placed| ==> (k in at <==> HasAll(inputs, placed[k].asked))
  }

  lemma PresentMeans(inputs: Inputs, names: seq<Bytes>)
    ensures AnyPresent(inputs, names) <==> Has(inputs, names)
  {
    if AnyPresent(inputs, names) {
      var i :| 0 <= i < |names| && CondPresent(inputs, names[i]);
      assert names[i] in names;
    }
  }

  function Shifted(at: seq<nat>, n: nat): seq<nat> {
    seq(|at|, i requires 0 <= i < |at| => at[i] + n)
  }

  lemma KeepsBoth(a: seq<Placed>, b: seq<Placed>, inputs: Inputs, keptA: seq<Tag>, keptB: seq<Tag>, atA: seq<nat>,
                  atB: seq<nat>)
    requires Keeps(a, inputs, keptA, atA) && Keeps(b, inputs, keptB, atB)
    ensures Keeps(a + b, inputs, keptA + keptB, atA + Shifted(atB, |a|))
  {
    hide HasAll;
    var placed, kept, at := a + b, keptA + keptB, atA + Shifted(atB, |a|);
    forall i | 0 <= i < |kept| ensures at[i] < |placed| && kept[i] == JustTags(placed)[at[i]] {
      if i < |keptA| {
        assert kept[i] == JustTags(a)[atA[i]];
      } else {
        assert kept[i] == JustTags(b)[atB[i - |keptA|]];
      }
    }
    forall k: nat | k < |placed| ensures k in at <==> HasAll(inputs, placed[k].asked) {
      KeptEither(atA, atB, |a|, k);
      assert |atA| == |keptA| && forall i :: i in atA ==> i < |a|;
    }
  }

  lemma KeptEither(atA: seq<nat>, atB: seq<nat>, n: nat, k: nat)
    ensures k in atA + Shifted(atB, n) <==> k in atA || (k >= n && k - n in atB)
  {
    if k >= n && k - n in atB {
      var i :| 0 <= i < |atB| && atB[i] == k - n;
      assert Shifted(atB, n)[i] == k;
    }
    if k in Shifted(atB, n) {
      var i :| 0 <= i < |atB| && Shifted(atB, n)[i] == k;
      assert atB[i] == k - n;
    }
  }

  lemma KeepsOne(t: Tag, asked: seq<seq<Bytes>>, inputs: Inputs)
    requires HasAll(inputs, asked)
    ensures Keeps([Placed(t, asked)], inputs, [t], [0])
  {
  }

  /** Nothing is kept of a block whose input is not there. */
  lemma {:induction false} NothingKept(f: Forest, asked: seq<seq<Bytes>>, inputs: Inputs, names: seq<Bytes>)
    requires names in asked && !Has(inputs, names)
    ensures Keeps(TagsIn(f, asked), inputs, [], [])
    decreases f
  {
    hide Has;
    match f {
      case Empty =>
      case Leaf(t, next) =>
        NothingKept(next, asked, inputs, names);
        KeepsBoth([Placed(t, asked)], TagsIn(next, asked), inputs, [], [], [], []);
      case Block(cond, name, body, next) =>
        NothingKept(next, asked, inputs, names);
        if cond {
          NothingKept(body, asked + [name], inputs, names);
          KeepsBoth(TagsIn(body, asked + [name]), TagsIn(next, asked), inputs, [], [], [], []);
        } else {
          NothingKept(body, asked, inputs, names);
          KeepsBoth([Placed(Close(name), asked)], TagsIn(next, asked), inputs, [], [], [], []);
          KeepsBoth(TagsIn(body, asked), [Placed(Close(name), asked)] + TagsIn(next, asked), inputs, [], [], [], []);
          KeepsBoth([Placed(IterOpen(name), asked)],
            TagsIn(body, asked) + ([Placed(Close(name), asked)] + TagsIn(next, asked)), inputs, [], [], [], []);
        }
    }
  }

  lemma {:induction false} PrunedKeeps(f: Forest, asked: seq<seq<Bytes>>, inputs: Inputs) returns (at: seq<nat>)
    requires HasAll(inputs, asked)
    ensures Keeps(TagsIn(f, asked), inputs, Flat(Prune(f, inputs)), at)
    decreases f, 0
  {
    hide HasAll, Keeps, Has, AnyPresent;
    match f {
      case Empty =>
        at := [];
        KeepsNone(inputs);
      case Leaf(t, next) =>
        var later := PrunedKeeps(next, asked, inputs);
        KeepsOne(t, asked, inputs);
        KeepsBoth([Placed(t, asked)], TagsIn(next, asked), inputs, [t], Flat(Prune(next, inputs)), [0], later);
        at := [0] + Shifted(later, 1);
      case Block(cond, name, body, next) =>
        var later := PrunedKeeps(next, asked, inputs);
        if cond {
          PresentMeans(inputs, name);
          at := ConditionKeeps(name, body, next, asked, inputs, later);
        } else {
          var inner := PrunedKeeps(body, asked, inputs);
          at := IterationKeeps(name, body, next, asked, inputs, inner, later);
        }
    }
  }

  lemma KeepsNone(inputs: Inputs)
    ensures Keeps([], inputs, [], [])
  {
  }

  lemma {:induction false} ConditionKeeps(name: seq<Bytes>, body: Forest, next: Forest, asked: seq<seq<Bytes>>,
                                          inputs: Inputs, later: seq<nat>) returns (at: seq<nat>)
    requires HasAll(inputs, asked) && (AnyPresent(inputs, name) <==> Has(inputs, name))
    requires Keeps(TagsIn(next, asked), inputs, Flat(Prune(next, inputs)), later)
    ensures Keeps(TagsIn(Block(true, name, body, next), asked), inputs,
      Flat(Prune(Block(true, name, body, next), inputs)), at)
    decreases body, 1
  {
    hide Keeps, Has, AnyPresent;
    var inside := TagsIn(body, asked + [name]);
    if AnyPresent(inputs, name) {
      var inner := PrunedKeeps(body, asked + [name], inputs);
      KeepsBoth(inside, TagsIn(next, asked), inputs, Flat(Prune(body, inputs)), Flat(Prune(next, inputs)), inner,
        later);
      FlatOfAppend(Prune(body, inputs), Prune(next, inputs));
      at := inner + Shifted(later, |inside|);
    } else {
      NothingKept(body, asked + [name], inputs, name);
      KeepsBoth(inside, TagsIn(next, asked), inputs, [], Flat(Prune(next, inputs)), [], later);
      assert [] + Flat(Prune(next, inputs)) == Flat(Prune(next, inputs));
      at := [] + Shifted(later, |inside|);
    }
  }

  lemma IterationKeeps(name: seq<Bytes>, body: Forest, next: Forest, asked: seq<seq<Bytes>>, inputs: Inputs,
                       inner: seq<nat>, later: seq<nat>) returns (at: seq<nat>)
    requires HasAll(inputs, asked)
    requires Keeps(TagsIn(body, asked), inputs, Flat(Prune(body, inputs)), inner)
    requires Keeps(TagsIn(next, asked), inputs, Flat(Prune(next, inputs)), later)
    ensures Keeps(TagsIn(Block(false, name, body, next), asked), inputs,
      Flat(Prune(Block(false, name, body, next), inputs)), at)
  {
    hide HasAll, Keeps;
    var open, close := [Placed(IterOpen(name), asked)], [Placed(Close(name), asked)];
    var tail, flat := close + TagsIn(next, asked), [Close(name)] + Flat(Prune(next, inputs));
    KeepsOne(IterOpen(name), asked, inputs);
    KeepsOne(Close(name), asked, inputs);
    KeepsBoth(close, TagsIn(next, asked), inputs, [Close(name)], Flat(Prune(next, inputs)), [0], later);
    var end := [0] + Shifted(later, 1);
    KeepsBoth(TagsIn(body, asked), tail, inputs, Flat(Prune(body, inputs)), flat, inner, end);
    var rest := inner + Shifted(end, |TagsIn(body, asked)|);
    KeepsBoth(open, TagsIn(body, asked) + tail, inputs, [IterOpen(name)], Flat(Prune(body, inputs)) + flat, [0], rest);
    at := [0] + Shifted(rest, 1);
  }

  /** Of a well-nested template its expansion keeps, in order, just the tags whose every conditional block has its
      input, and of the conditional blocks' own tags none. */
  lemma ExpansionKeeps(f: Forest, inputs: Inputs) returns (at: seq<nat>)
    requires WellNested(f)
    ensures Expand(Flat(f), inputs).Expanded?
    ensures Keeps(TagsIn(f, []), inputs, Expand(Flat(f), inputs).tags, at)
  {
    ExpandIsPrune(f, inputs);
    at := PrunedKeeps(f, [], inputs);
  }

  // ---------- What is written ----------

  /** No block repeats anything, and placeholders name inputs. */
  predicate Repeatless(f: Forest) {
    match f
    case Empty => true
    case Leaf(t, next) => IsSimple(t) && Repeatless(next)
    case Block(cond, _, body, next) => cond && Repeatless(body) && Repeatless(next)
  }

  predicate IsSimple(t: Tag) {
    t.Lit? || (t.Placeholder? && t.key.Input?)
  }

  /** The tag's input is not there. */
  predicate Lacks(inputs: Inputs, t: Tag) {
    t.Placeholder? && t.key.Input? && t.key.name !in inputs
  }

  /** The pieces are the tags: literal text as it is, and for a placeholder the value of its input. */
  ghost predicate Filled(inputs: Inputs, tags: seq<Tag>, pieces: seq<Piece>) {
    && |pieces| == |tags|
    && forall i :: 0 <= i < |tags| ==>
         match tags[i]
         case Lit(text) => pieces[i] == Literal(text)
         case Placeholder(Input(name)) => name in inputs && pieces[i] == Hole(inputs[name])
         case _ => false
  }

  predicate IsRow(f: Forest) {
    match f
    case Empty => true
    case Leaf(t, next) => IsSimple(t) && IsRow(next)
    case Block(_, _, _, _) => false
  }

  lemma {:induction false} RepeatlessPrunes(f: Forest, inputs: Inputs)
    requires Repeatless(f)
    ensures Proper(f) && IsRow(Prune(f, inputs))
    decreases f
  {
    match f {
      case Empty =>
      case Leaf(_, next) => RepeatlessPrunes(next, inputs);
      case Block(_, _, body, next) =>
        RepeatlessPrunes(body, inputs);
        RepeatlessPrunes(next, inputs);
        RowInAppend(Prune(body, inputs), Prune(next, inputs));
    }
  }

  lemma {:induction false} RowInAppend(f: Forest, g: Forest)
    requires IsRow(f) && IsRow(g)
    ensures IsRow(Append(f, g))
    decreases f
  {
    match f {
      case Empty =>
      case Leaf(_, next) => RowInAppend(next, g);
    }
  }

  lemma {:induction false} RowRenders(ctx: Context, f: Forest, before: Bytes, inputs: Inputs)
    requires IsRow(f)
    ensures IterOnly(f)
    ensures var out := RenderForest(ctx, f, before, inputs, []);
      if exists t :: t in Flat(f) && Lacks(inputs, t) then out == None
      else out.Some? && Filled(inputs, Flat(f), out.value.pieces)
    decreases f
  {
    if f.Leaf? {
      var text := before + TextIn(f.tag, []);
      RowRenders(ctx, f.next, text, inputs);
      assert Flat(f) == [f.tag] + Flat(f.next);
      TagRenders(f.tag, inputs);
      var rest := RenderForest(ctx, f.next, text, inputs, []);
      if Lacks(inputs, f.tag) {
        assert f.tag in Flat(f);
      } else if t :| t in Flat(f.next) && Lacks(inputs, t) {
        assert t in Flat(f);
      } else {
        assert forall t :: t in Flat(f) ==> t == f.tag || t in Flat(f.next);
        FilledMore(inputs, f.tag, Flat(f.next), rest.value.pieces);
      }
    }
  }

  lemma TagRenders(t: Tag, inputs: Inputs)
    requires IsSimple(t)
    ensures RenderIn(t, inputs, []) == if Lacks(inputs, t) then None
      else Some([if t.Lit? then Literal(t.text) else Hole(inputs[t.key.name])])
  {
  }

  lemma FilledMore(inputs: Inputs, t: Tag, tags: seq<Tag>, pieces: seq<Piece>)
    requires IsSimple(t) && !Lacks(inputs, t) && Filled(inputs, tags, pieces)
    ensures Filled(inputs, [t] + tags, [if t.Lit? then Literal(t.text) else Hole(inputs[t.key.name])] + pieces)
  {
  }

  /** A template that repeats nothing fails exactly when an input is missing that one of its kept placeholders names;
      other missing inputs do not matter. Otherwise it is its kept text with those inputs' values. */
  lemma FillsKept(ctx: Context, f: Forest, inputs: Inputs)
      returns (at: seq<nat>, kept: seq<Tag>, pieces: seq<Piece>)
    requires Repeatless(f)
    ensures Proper(f) && Keeps(TagsIn(f, []), inputs, kept, at)
    ensures if exists t :: t in kept && Lacks(inputs, t) then Meaning(ctx, f, inputs) == None
      else Filled(inputs, kept, pieces) && Meaning(ctx, f, inputs) == Some(Output(ctx, pieces, |pieces|))
  {
    hide Keeps, Output, Filled;
    RepeatlessPrunes(f, inputs);
    ProperIsPruned(f, inputs);
    at := PrunedKeeps(f, [], inputs);
    kept := Flat(Prune(f, inputs));
    RowRenders(ctx, Prune(f, inputs), [], inputs);
    var out := RenderForest(ctx, Prune(f, inputs), [], inputs, []);
    pieces := if out.Some? then out.value.pieces else [];
  }
}

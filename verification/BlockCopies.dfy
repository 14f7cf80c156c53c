/** One step of expanding iteration blocks (adapter/template.go expandArray, expandElement): what a block's body
    becomes in each copy, and what is then still to be expanded. */
module BlockCopies {
  import opened Bytes
  import opened Decimals
  import opened Filling
  import opened JsonString
  import opened Rendering
  import opened Scanner
  import opened Separators
  import opened Template
  import opened Values

  // ---------- Expanding a body for one element ----------

  /** What t becomes in the copy for element i: values are left as placeholders for an entry of elements. */
  predicate Filled(t: Tag, i: nat, elem: Val, now: Tag, elements: seq<Val>)
  {
    match t
    case Index => now == Lit(Decimal(i))
    case Dot => StandsFor(now, elem, elements)
    case DotField(name) => if FieldNamed(elem, name).Some? then StandsFor(now, FieldNamed(elem, name).value, elements)
      else now == t
    case _ => now == t
  }

  predicate StandsFor(now: Tag, v: Val, elements: seq<Val>) {
    now.Placeholder? && now.key.Element? && now.key.n < |elements| && elements[now.key.n] == v
  }

  ghost predicate AllFilled(body: seq<Tag>, i: nat, elem: Val, now: seq<Tag>, elements: seq<Val>)
  {
    |now| == |body| && forall k :: 0 <= k < |body| ==> Filled(body[k], i, elem, now[k], elements)
  }

  /** Element values become placeholders: first the fields, then the element itself. */
  method ExpandElement(body: seq<Tag>, i: nat, elem: Val, elements: seq<Val>)
    returns (now: seq<Tag>, elements': seq<Val>)
    ensures AllFilled(body, i, elem, now, elements') && elements <= elements'
  {
    now := seq(|body|, k requires 0 <= k < |body| => if body[k].Index? then Lit(Decimal(i)) else body[k]);
    elements' := elements;
    for k := 0 to |body|
      invariant |now| == |body| && elements <= elements'
      invariant forall j :: 0 <= j < |body|
                  ==> if j >= k || body[j].Dot? then now[j] == (if body[j].Index? then Lit(Decimal(i)) else body[j])
                         else Filled(body[j], i, elem, now[j], elements')
    {
      if now[k].DotField? {
        var v := FieldNamed(elem, now[k].field);
        if v.Some? {
          elements' := elements' + [v.value];
          now := now[k := Placeholder(Element(|elements'| - 1))];
        }
      }
    }
    for k := 0 to |body|
      invariant |now| == |body| && elements <= elements'
      invariant forall j :: 0 <= j < |body|
                  ==> if j >= k && body[j].Dot? then now[j] == Dot else Filled(body[j], i, elem, now[j], elements')
    {
      if now[k].Dot? {
        elements' := elements' + [elem];
        now := now[k := Placeholder(Element(|elements'| - 1))];
      }
    }
  }

  // ---------- Tags in their copies ----------

  /** A tag of the template, in the copies it stands in. */
  datatype Placed = Placed(tag: Tag, env: Env)

  /** What a tag has become in its copies: a value is a placeholder for an entry of elements. */
  predicate Stands(p: Placed, now: Tag, elements: seq<Val>) {
    var t, env := p.tag, p.env;
    if t.Index? && env != [] then now == Lit(Decimal(env[0].index))
    else if t.Dot? && env != [] then StandsFor(now, env[0].elem, elements)
    else if t.DotField? && FieldOf(env, t.field).Some? then StandsFor(now, FieldOf(env, t.field).value, elements)
    else now == t
  }

  ghost predicate AllStand(row: seq<Placed>, now: seq<Tag>, elements: seq<Val>) {
    |row| == |now| && forall k :: 0 <= k < |row| ==> Stands(row[k], now[k], elements)
  }

  lemma StandSplit(a: seq<Placed>, b: seq<Placed>, now: seq<Tag>, elements: seq<Val>)
    requires AllStand(a + b, now, elements)
    ensures |now| == |a| + |b| && AllStand(a, now[..|a|], elements) && AllStand(b, now[|a|..], elements)
  {
    forall k | 0 <= k < |a| ensures Stands(a[k], now[k], elements) {
      assert (a + b)[k] == a[k];
    }
    forall k | 0 <= k < |b| ensures Stands(b[k], now[|a| + k], elements) {
      assert (a + b)[|a| + k] == b[k];
    }
  }

  lemma StandJoined(a: seq<Placed>, b: seq<Placed>, x: seq<Tag>, y: seq<Tag>, elements: seq<Val>)
    requires AllStand(a, x, elements) && AllStand(b, y, elements)
    ensures AllStand(a + b, x + y, elements)
  {
    forall k | 0 <= k < |a + b| ensures Stands((a + b)[k], (x + y)[k], elements) {
      assert (a + b)[k] == if k < |a| then a[k] else b[k - |a|];
    }
  }

  lemma StandStill(row: seq<Placed>, now: seq<Tag>, elements: seq<Val>, elements': seq<Val>)
    requires AllStand(row, now, elements) && elements <= elements'
    ensures AllStand(row, now, elements')
  {
    forall k | 0 <= k < |row| ensures Stands(row[k], now[k], elements') {
      assert Stands(row[k], now[k], elements);
    }
  }

  /** A body's tags in one more copy. */
  function InCopy(row: seq<Placed>, t: Turn): seq<Placed> {
    seq(|row|, k requires 0 <= k < |row| => Placed(row[k].tag, row[k].env + [t]))
  }

  lemma StandsInCopy(p: Placed, r: Tag, elements: seq<Val>, i: nat, elem: Val, now: Tag, elements': seq<Val>)
    requires Stands(p, r, elements) && elements <= elements' && Filled(r, i, elem, now, elements')
    ensures Stands(Placed(p.tag, p.env + [Turn(i, elem)]), now, elements')
  {
    assert (p.env + [Turn(i, elem)])[..|p.env|] == p.env;
  }

  lemma AllStandInCopy(row: seq<Placed>, body: seq<Tag>, elements: seq<Val>, i: nat, elem: Val, now: seq<Tag>,
                       elements': seq<Val>)
    requires AllStand(row, body, elements) && elements <= elements' && AllFilled(body, i, elem, now, elements')
    ensures AllStand(InCopy(row, Turn(i, elem)), now, elements')
  {
    hide Stands, Filled;
    forall k | 0 <= k < |row| ensures Stands(InCopy(row, Turn(i, elem))[k], now[k], elements') {
      StandsInCopy(row[k], body[k], elements, i, elem, now[k], elements');
    }
  }

  lemma StandRenders(p: Placed, now: Tag, inputs: Inputs, elements: seq<Val>)
    requires FromText(p.tag) && Stands(p, now, elements)
    ensures RenderTag(now, inputs, elements) == RenderIn(p.tag, inputs, p.env)
    ensures now.Placeholder? && now.key.Element? ==> now.key.n < |elements|
    ensures !now.IterOpen?
  {
  }

  // ---------- Texts ----------

  /** tags read like text, wherever they stand: every separator behind them comes out the same. */
  ghost predicate ReadsLike(tags: seq<Tag>, text: Bytes) {
    forall ctx, a, b :: Alike(ctx, a, b) ==> Alike(ctx, a + Source(tags), b + text)
  }

  lemma ReadsLikeItself(tags: seq<Tag>)
    ensures ReadsLike(tags, Source(tags))
  {
    forall ctx, a, b | Alike(ctx, a, b) ensures Alike(ctx, a + Source(tags), b + Source(tags)) {
      AlikeMore(ctx, a, b, Source(tags));
    }
  }

  lemma ReadsLikeJoined(s: seq<Tag>, x: Bytes, t: seq<Tag>, y: Bytes)
    requires ReadsLike(s, x) && ReadsLike(t, y)
    ensures ReadsLike(s + t, x + y)
  {
    SourceJoined(s, t);
    forall ctx, a, b | Alike(ctx, a, b) ensures Alike(ctx, a + Source(s + t), b + (x + y)) {
      Sequences.Joins(a, Source(s), Source(t));
      Sequences.Joins(b, x, y);
    }
  }

  /** What stands for a tag reads like its text. */
  lemma StandReadsLike(p: Placed, now: Tag, elements: seq<Val>)
    requires Stands(p, now, elements)
    ensures ReadsLike([now], TextIn(p.tag, p.env))
  {
    SourceOne(now);
    if now == p.tag || now.Lit? {
      ReadsLikeItself([now]);
    } else {
      forall ctx, a, b | Alike(ctx, a, b) ensures Alike(ctx, a + Source([now]), b + TextIn(p.tag, p.env)) {
        AlikeToken(ctx, a, b, now.key.n, 0);
      }
    }
  }

  function RowText(row: seq<Placed>): Bytes {
    if row == [] then [] else TextIn(row[0].tag, row[0].env) + RowText(row[1..])
  }

  lemma {:induction false} RowReadsLike(row: seq<Placed>, now: seq<Tag>, elements: seq<Val>)
    requires AllStand(row, now, elements)
    ensures ReadsLike(now, RowText(row))
  {
    hide ReadsLike, TextIn, Stands;
    if row == [] {
      ReadsLikeItself([]);
    } else {
      StandReadsLike(row[0], now[0], elements);
      RowReadsLike(row[1..], now[1..], elements);
      ReadsLikeJoined([now[0]], TextIn(row[0].tag, row[0].env), now[1..], RowText(row[1..]));
      assert now == [now[0]] + now[1..];
    }
  }

  /** The body of a block, as it stands, is like the text its structure says. */
  lemma {:induction false} BodyIsLike(tags: seq<Tag>, n: nat, env: Env, now: seq<Tag>, elements: seq<Val>)
    requires n <= |tags| == |now| && forall k :: 0 <= k < |tags| ==> Stands(Placed(tags[k], env), now[k], elements)
    ensures Like(SourceTo(now, n), TextTo(tags, n, env))
  {
    hide Like, SourceOf;
    if n == 0 {
      LikeItself([]);
    } else {
      BodyIsLike(tags, n - 1, env, now, elements);
      TagIsLike(Placed(tags[n - 1], env), now[n - 1], elements, SourceTo(now, n - 1), TextTo(tags, n - 1, env));
    }
  }

  lemma LikeItself(x: Bytes)
    ensures Like(x, x)
  {
  }

  lemma TagIsLike(p: Placed, now: Tag, elements: seq<Val>, x: Bytes, y: Bytes)
    requires Stands(p, now, elements) && Like(x, y)
    ensures Like(x + SourceOf(now), y + TextIn(p.tag, p.env))
  {
    hide Like;
    if now == p.tag || now.Lit? {
      LikeMore(x, y, SourceOf(now));
    } else {
      LikeToken(x, y, now.key.n, 0);
    }
  }

  // ---------- What is still to be expanded ----------

  /** A part of the template, in the copies it stands in. */
  datatype Todo = Todo(f: Forest, env: Env)

  ghost predicate AllIter(todo: seq<Todo>) {
    forall i :: 0 <= i < |todo| ==> IterOnly(todo[i].f)
  }

  function Row(f: Forest, env: Env): seq<Placed> {
    seq(|Flat(f)|, k requires 0 <= k < |Flat(f)| => Placed(Flat(f)[k], env))
  }

  function Rows(todo: seq<Todo>): seq<Placed> {
    if todo == [] then [] else Row(todo[0].f, todo[0].env) + Rows(todo[1..])
  }

  function RenderTodo(ctx: Context, todo: seq<Todo>, before: Bytes, inputs: Inputs): Option<Out>
    requires AllIter(todo)
  {
    if todo == [] then Some(Out([], before))
    else
      var first := RenderForest(ctx, todo[0].f, before, inputs, todo[0].env);
      if first == None then None else Onto(first.value.pieces, RenderTodo(ctx, todo[1..], first.value.text, inputs))
  }

  lemma {:induction false} RowsJoined(a: seq<Todo>, b: seq<Todo>)
    ensures Rows(a + b) == Rows(a) + Rows(b)
  {
    hide Row;
    if a == [] {
      assert a + b == b;
    } else {
      assert (a + b)[1..] == a[1..] + b;
      RowsJoined(a[1..], b);
    }
  }

  lemma OntoOnto(x: seq<Piece>, y: seq<Piece>, more: Option<Out>)
    ensures Onto(x, Onto(y, more)) == Onto(x + y, more)
  {
    if more.Some? {
      Sequences.Joins(x, y, more.value.pieces);
    }
  }

  lemma OntoNothing(more: Option<Out>)
    ensures Onto([], more) == more
  {
    if more.Some? {
      assert [] + more.value.pieces == more.value.pieces;
    }
  }

  lemma {:induction false} TodoJoined(ctx: Context, a: seq<Todo>, b: seq<Todo>, before: Bytes, inputs: Inputs)
    requires AllIter(a) && AllIter(b)
    ensures AllIter(a + b)
    ensures var x := RenderTodo(ctx, a, before, inputs);
      RenderTodo(ctx, a + b, before, inputs)
        == if x == None then None else Onto(x.value.pieces, RenderTodo(ctx, b, x.value.text, inputs))
  {
    hide RenderForest, IterOnly;
    if a == [] {
      assert a + b == b;
      OntoNothing(RenderTodo(ctx, b, before, inputs));
    } else {
      assert (a + b)[1..] == a[1..] + b && (a + b)[0] == a[0];
      var first := RenderForest(ctx, a[0].f, before, inputs, a[0].env);
      if first.Some? {
        TodoJoined(ctx, a[1..], b, first.value.text, inputs);
        var x := RenderTodo(ctx, a[1..], first.value.text, inputs);
        if x.Some? {
          OntoOnto(first.value.pieces, x.value.pieces, RenderTodo(ctx, b, x.value.text, inputs));
        }
      }
    }
  }

  lemma TodoOne(ctx: Context, t: Todo, before: Bytes, inputs: Inputs)
    requires IterOnly(t.f)
    ensures RenderTodo(ctx, [t], before, inputs) == RenderForest(ctx, t.f, before, inputs, t.env)
  {
    hide RenderForest;
    var first := RenderForest(ctx, t.f, before, inputs, t.env);
    if first.Some? {
      assert [t][1..] == [] && first.value.pieces + [] == first.value.pieces;
    }
  }

  // ---------- The copies of a block ----------

  function CopiesTodo(body: Forest, env: Env, elems: seq<Val>, n: nat, sep: Bytes): seq<Todo>
    requires n <= |elems|
  {
    if n == 0 then []
    else
      CopiesTodo(body, env, elems, n - 1, sep) + (if n == 1 then [] else [Todo(Leaf(Lit(sep), Empty), [])])
      + [Todo(body, env + [Turn(n - 1, elems[n - 1])])]
  }

  lemma SepOne(ctx: Context, sep: Bytes, before: Bytes, inputs: Inputs)
    ensures IterOnly(Leaf(Lit(sep), Empty))
    ensures RenderForest(ctx, Leaf(Lit(sep), Empty), before, inputs, []) == Some(Out([Literal(sep)], before + sep))
  {
    assert IterOnly(Empty) && RenderForest(ctx, Empty, before + sep, inputs, []) == Some(Out([], before + sep));
    assert [Literal(sep)] + [] == [Literal(sep)];
  }

  /** To expand the copies is to render them. */
  lemma {:induction false} CopiesAre(ctx: Context, body: Forest, before: Bytes, inputs: Inputs, env: Env,
                                     elems: seq<Val>, n: nat, sep: Bytes)
    requires IterOnly(body) && n <= |elems|
    ensures AllIter(CopiesTodo(body, env, elems, n, sep))
    ensures RenderTodo(ctx, CopiesTodo(body, env, elems, n, sep), before, inputs)
            == RenderCopies(ctx, body, before, inputs, env, elems, n, sep)
    decreases n
  {
    hide RenderForest, IterOnly;
    if n > 0 {
      CopiesAre(ctx, body, before, inputs, env, elems, n - 1, sep);
      var was := CopiesTodo(body, env, elems, n - 1, sep);
      var copy := Todo(body, env + [Turn(n - 1, elems[n - 1])]);
      SepOne(ctx, sep, before, inputs);
      var joined := was + if n == 1 then [] else [Todo(Leaf(Lit(sep), Empty), [])];
      JoinedWith(ctx, was, n, sep, before, inputs);
      TodoJoined(ctx, joined, [copy], before, inputs);
      var x := RenderTodo(ctx, joined, before, inputs);
      if x.Some? {
        TodoOne(ctx, copy, x.value.text, inputs);
      }
    }
  }

  lemma JoinedWith(ctx: Context, was: seq<Todo>, n: nat, sep: Bytes, before: Bytes, inputs: Inputs)
    requires AllIter(was) && n > 0
    ensures var joined := was + if n == 1 then [] else [Todo(Leaf(Lit(sep), Empty), [])];
      && AllIter(joined)
      && var x := RenderTodo(ctx, was, before, inputs);
         RenderTodo(ctx, joined, before, inputs)
         == if x == None then None
           else Some(if n == 1 then x.value else Out(x.value.pieces + [Literal(sep)], x.value.text + sep))
  {
    hide RenderForest, IterOnly;
    if n == 1 {
      assert was + [] == was;
    } else {
      SepOne(ctx, sep, before, inputs);
      var t := Todo(Leaf(Lit(sep), Empty), []);
      TodoJoined(ctx, was, [t], before, inputs);
      var x := RenderTodo(ctx, was, before, inputs);
      if x.Some? {
        TodoOne(ctx, t, x.value.text, inputs);
        SepOne(ctx, sep, x.value.text, inputs);
      }
    }
  }

  /** A block is its copies and then what comes after it. */
  lemma BlockUnfolds(ctx: Context, block: Forest, env: Env, tail: seq<Todo>, before: Bytes, inputs: Inputs)
    requires block.Block? && IterOnly(block) && AllIter(tail)
    requires block.name[0] in inputs && inputs[block.name[0]].List?
    ensures var elems, sep := inputs[block.name[0]].elems, IterationSeparator(ctx, before, BodySource(block.body, env));
      var now := CopiesTodo(block.body, env, elems, |elems|, sep) + ([Todo(block.next, env)] + tail);
      && AllIter([Todo(block, env)] + tail) && AllIter(now)
      && RenderTodo(ctx, [Todo(block, env)] + tail, before, inputs) == RenderTodo(ctx, now, before, inputs)
  {
    hide RenderCopies, IterationSeparator, BodySource;
    var elems, sep := inputs[block.name[0]].elems, IterationSeparator(ctx, before, BodySource(block.body, env));
    CopiesAre(ctx, block.body, before, inputs, env, elems, |elems|, sep);
    var copies := CopiesTodo(block.body, env, elems, |elems|, sep);
    var rest := [Todo(block.next, env)] + tail;
    TodoJoined(ctx, copies, rest, before, inputs);
    assert ([Todo(block, env)] + tail)[1..] == tail && rest[1..] == tail;
    var x := RenderTodo(ctx, copies, before, inputs);
    if x.Some? {
      var y := RenderForest(ctx, block.next, x.value.text, inputs, env);
      if y.Some? {
        OntoOnto(x.value.pieces, y.value.pieces, RenderTodo(ctx, tail, y.value.text, inputs));
      }
    }
  }

  lemma BlockFails(ctx: Context, block: Forest, env: Env, tail: seq<Todo>, before: Bytes, inputs: Inputs)
    requires block.Block? && IterOnly(block) && AllIter([Todo(block, env)] + tail)
    requires !(block.name[0] in inputs && inputs[block.name[0]].List?)
    ensures RenderTodo(ctx, [Todo(block, env)] + tail, before, inputs) == None
  {
  }
}

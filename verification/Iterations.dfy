/** Expanding iteration blocks (adapter/template.go expandIterationBlocks): the first one left, again and again,
    until the template comes to what its structure says. A block inside another is repeated with it. */
module Iterations {
  import opened BlockCopies
  import opened Bytes
  import opened Filling
  import opened JsonString
  import opened Rendering
  import opened Scanner
  import opened Separators
  import opened Template
  import opened Values

  // ---------- Down to the first block ----------

  function Size(todo: seq<Todo>): nat {
    if todo == [] then 0 else 1 + SizeOf(todo[0].f) + Size(todo[1..])
  }

  function SizeOf(f: Forest): nat {
    match f
    case Empty => 0
    case Leaf(_, next) => 1 + SizeOf(next)
    case Block(_, _, body, next) => 1 + SizeOf(next)
  }

  /** The tags before the first block. */
  function Leaves(todo: seq<Todo>): seq<Placed>
    decreases Size(todo)
  {
    if todo == [] || todo[0].f.Block? then []
    else if todo[0].f.Empty? then Leaves(todo[1..])
    else [Placed(todo[0].f.tag, todo[0].env)] + Leaves([Todo(todo[0].f.next, todo[0].env)] + todo[1..])
  }

  /** What is left from the first block on. */
  function FromBlock(todo: seq<Todo>): seq<Todo>
    decreases Size(todo)
  {
    if todo == [] || todo[0].f.Block? then todo
    else if todo[0].f.Empty? then FromBlock(todo[1..])
    else FromBlock([Todo(todo[0].f.next, todo[0].env)] + todo[1..])
  }

  lemma LeafFirst(todo: seq<Todo>)
    requires todo != [] && todo[0].f.Leaf?
    ensures Rows(todo) == [Placed(todo[0].f.tag, todo[0].env)] + Rows([Todo(todo[0].f.next, todo[0].env)] + todo[1..])
  {
    var f, env := todo[0].f, todo[0].env;
    var next := [Todo(f.next, env)] + todo[1..];
    assert next[1..] == todo[1..] && next[0] == Todo(f.next, env);
    assert Row(f, env) == [Placed(f.tag, env)] + Row(f.next, env);
    Sequences.Joins([Placed(f.tag, env)], Row(f.next, env), Rows(todo[1..]));
  }

  lemma EmptyFirst(todo: seq<Todo>)
    requires todo != [] && todo[0].f.Empty?
    ensures Rows(todo) == Rows(todo[1..])
  {
    assert Row(Empty, todo[0].env) == [];
  }

  lemma {:induction false} RowsSplit(todo: seq<Todo>)
    ensures Rows(todo) == Leaves(todo) + Rows(FromBlock(todo))
    ensures AllIter(todo) ==> AllIter(FromBlock(todo))
                              && forall k :: 0 <= k < |Leaves(todo)| ==> FromText(Leaves(todo)[k].tag)
    ensures FromBlock(todo) == [] || FromBlock(todo)[0].f.Block?
    decreases Size(todo)
  {
    hide Rows;
    if todo == [] || todo[0].f.Block? {
      assert [] + Rows(todo) == Rows(todo);
    } else if todo[0].f.Empty? {
      EmptyFirst(todo);
      RowsSplit(todo[1..]);
    } else {
      var next := [Todo(todo[0].f.next, todo[0].env)] + todo[1..];
      LeafFirst(todo);
      RowsSplit(next);
      Sequences.Joins([Placed(todo[0].f.tag, todo[0].env)], Leaves(next), Rows(FromBlock(next)));
    }
  }

  function PiecesOf(o: Option<Out>): Option<seq<Piece>> {
    if o.Some? then Some(o.value.pieces) else None
  }

  lemma LeafRendered(ctx: Context, todo: seq<Todo>, before: Bytes, inputs: Inputs)
    requires todo != [] && todo[0].f.Leaf? && AllIter(todo)
    ensures var t, env := todo[0].f.tag, todo[0].env;
      var next := [Todo(todo[0].f.next, env)] + todo[1..];
      && AllIter(next)
      && PiecesOf(RenderTodo(ctx, todo, before, inputs))
         == Cat(RenderIn(t, inputs, env), PiecesOf(RenderTodo(ctx, next, before + TextIn(t, env), inputs)))
  {
    hide RenderIn, TextIn;
    var t, env, f := todo[0].f.tag, todo[0].env, todo[0].f;
    var next := [Todo(f.next, env)] + todo[1..];
    assert next[1..] == todo[1..] && next[0] == Todo(f.next, env);
    var pieces := RenderIn(t, inputs, env);
    var rest := RenderForest(ctx, f.next, before + TextIn(t, env), inputs, env);
    if pieces.Some? && rest.Some? {
      OntoOnto(pieces.value, rest.value.pieces, RenderTodo(ctx, todo[1..], rest.value.text, inputs));
    }
  }

  lemma EmptyRendered(ctx: Context, todo: seq<Todo>, before: Bytes, inputs: Inputs)
    requires todo != [] && todo[0].f.Empty? && AllIter(todo)
    ensures AllIter(todo[1..]) && RenderTodo(ctx, todo, before, inputs) == RenderTodo(ctx, todo[1..], before, inputs)
  {
    OntoNothing(RenderTodo(ctx, todo[1..], before, inputs));
  }

  /** Down to the first block, what is to do comes to the tags that stand for its leaves. */
  lemma {:induction false} LeavesRender(ctx: Context, todo: seq<Todo>, now: seq<Tag>, before: Bytes, inputs: Inputs,
                                        elements: seq<Val>)
    requires AllIter(todo) && AllStand(Leaves(todo), now, elements)
    ensures AllIter(FromBlock(todo))
    ensures PiecesOf(RenderTodo(ctx, todo, before, inputs))
            == Cat(Render(now, inputs, elements),
              PiecesOf(RenderTodo(ctx, FromBlock(todo), before + RowText(Leaves(todo)), inputs)))
    decreases Size(todo)
  {
    hide RenderTodo, RenderIn, TextIn, Stands, Cat, Render, RenderTag, AllIter;
    RowsSplit(todo);
    if todo == [] || todo[0].f.Block? {
      assert before + [] == before && now == [];
      NothingRenders(inputs, elements);
      CatNothing(PiecesOf(RenderTodo(ctx, todo, before, inputs)));
    } else if todo[0].f.Empty? {
      EmptyRendered(ctx, todo, before, inputs);
      LeavesRender(ctx, todo[1..], now, before, inputs, elements);
    } else {
      var p, next := Placed(todo[0].f.tag, todo[0].env), [Todo(todo[0].f.next, todo[0].env)] + todo[1..];
      LeafRendered(ctx, todo, before, inputs);
      assert Leaves(todo)[0] == p && Leaves(todo)[1..] == Leaves(next);
      assert AllStand(Leaves(next), now[1..], elements);
      LeavesRender(ctx, next, now[1..], before + TextIn(p.tag, p.env), inputs, elements);
      StandRenders(p, now[0], inputs, elements);
      Sequences.Joins(before, TextIn(p.tag, p.env), RowText(Leaves(next)));
      RenderOneMore(now, inputs, elements);
      CatAssociates(RenderTag(now[0], inputs, elements), Render(now[1..], inputs, elements),
                    PiecesOf(RenderTodo(ctx, FromBlock(todo), before + RowText(Leaves(todo)), inputs)));
    }
  }

  lemma NothingRenders(inputs: Inputs, elements: seq<Val>)
    ensures Render([], inputs, elements) == Some([])
  {
  }

  lemma RenderOneMore(now: seq<Tag>, inputs: Inputs, elements: seq<Val>)
    requires now != []
    ensures Render(now, inputs, elements)
      == Cat(RenderTag(now[0], inputs, elements), Render(now[1..], inputs, elements))
  {
    RenderOne(now[0], inputs, elements);
    RenderJoined([now[0]], now[1..], inputs, elements);
    assert now == [now[0]] + now[1..];
  }

  lemma RenderOne(t: Tag, inputs: Inputs, elements: seq<Val>)
    ensures Render([t], inputs, elements) == RenderTag(t, inputs, elements)
  {
    CatNothing(RenderTag(t, inputs, elements));
    assert RenderTo([t], 0, inputs, elements) == Some([]);
  }

  // ---------- Opening tags ----------

  ghost predicate NoOpens(tags: seq<Tag>) {
    forall k :: 0 <= k < |tags| ==> !tags[k].IterOpen?
  }

  lemma NoOpensIn(a: seq<Tag>, b: seq<Tag>)
    ensures NoOpens(a + b) <==> NoOpens(a) && NoOpens(b)
  {
    forall k | 0 <= k < |a| ensures (a + b)[k] == a[k] {
    }
    forall k | 0 <= k < |b| ensures (a + b)[|a| + k] == b[k] {
    }
  }

  lemma WithinIn(a: seq<Tag>, b: seq<Tag>, n: nat)
    requires Within(a, n) && Within(b, n)
    ensures Within(a + b, n)
  {
  }

  method FirstIter(s: seq<Tag>) returns (r: int)
    ensures r < 0 ==> NoOpens(s)
    ensures r >= 0 ==> r < |s| && s[r].IterOpen? && NoOpens(s[..r])
  {
    for i := 0 to |s|
      invariant NoOpens(s[..i])
    {
      if s[i].IterOpen? {
        return i;
      }
      assert s[..i + 1] == s[..i] + [s[i]];
    }
    assert s[..|s|] == s;
    r := -1;
  }

  lemma LeavesAreClosed(row: seq<Placed>, now: seq<Tag>, elements: seq<Val>)
    requires AllStand(row, now, elements) && forall k :: 0 <= k < |row| ==> FromText(row[k].tag)
    ensures NoOpens(now) && Within(now, |elements|)
  {
    hide Stands, FromText;
    forall k | 0 <= k < |now|
        ensures !now[k].IterOpen? && (now[k].Placeholder? && now[k].key.Element? ==> now[k].key.n < |elements|) {
      StandRenders(row[k], now[k], map[], elements);
    }
  }

  // ---------- Where the first block is ----------

  /** result is what is done and what stands for the rest. */
  ghost predicate Made(result: seq<Tag>, elements: seq<Val>, at: nat, todo: seq<Todo>) {
    && at <= |result| && NoOpens(result[..at]) && Within(result[..at], |elements|)
    && AllIter(todo) && AllStand(Rows(todo), result[at..], elements)
  }

  function Bare(row: seq<Placed>): seq<Tag> {
    seq(|row|, k requires 0 <= k < |row| => row[k].tag)
  }

  lemma BareJoined(a: seq<Placed>, b: seq<Placed>)
    ensures Bare(a + b) == Bare(a) + Bare(b)
  {
  }

  lemma BareRow(f: Forest, env: Env)
    ensures Bare(Row(f, env)) == Flat(f)
  {
  }

  /** Two rows that open and close the same blocks. */
  ghost predicate SameTags(s: seq<Tag>, t: seq<Tag>) {
    |s| == |t| && forall k :: 0 <= k < |s| ==> s[k] == t[k] || (IsPlain(s[k]) && IsPlain(t[k]))
  }

  lemma {:induction false} SameClose(s: seq<Tag>, t: seq<Tag>, name: seq<Bytes>, i: nat, depth: nat)
    requires SameTags(s, t) && i <= |s|
    ensures CloseFrom(s, name, i, depth) == CloseFrom(t, name, i, depth)
    decreases |s| - i
  {
    if i < |s| {
      SameClose(s, t, name, i + 1, depth);
      SameClose(s, t, name, i + 1, depth + 1);
      if depth > 0 {
        SameClose(s, t, name, i + 1, depth - 1);
      }
    }
  }

  lemma StandsPlain(row: seq<Placed>, now: seq<Tag>, elements: seq<Val>)
    requires AllStand(row, now, elements)
    ensures SameTags(now, Bare(row))
  {
    forall k | 0 <= k < |now| ensures now[k] == Bare(row)[k] || (IsPlain(now[k]) && IsPlain(Bare(row)[k])) {
      assert Stands(row[k], now[k], elements);
    }
  }

  /** The rows of a list that begins with a block: its tags, its body's, and the rest. */
  lemma BlockRow(block: Forest, env: Env, tail: seq<Todo>)
    requires block.Block? && !block.cond
    ensures Rows([Todo(block, env)] + tail)
            == [Placed(IterOpen(block.name), env)]
              + (Row(block.body, env) + ([Placed(Close(block.name), env)] + (Row(block.next, env) + Rows(tail))))
  {
    var todo := [Todo(block, env)] + tail;
    assert todo[1..] == tail && todo[0] == Todo(block, env);
    assert Row(block, env) == [Placed(IterOpen(block.name), env)]
      + (Row(block.body, env) + ([Placed(Close(block.name), env)] + Row(block.next, env)));
    FiveParts([Placed(IterOpen(block.name), env)], Row(block.body, env), [Placed(Close(block.name), env)],
      Row(block.next, env), Rows(tail));
  }

  lemma FiveParts<T>(a: seq<T>, b: seq<T>, c: seq<T>, d: seq<T>, e: seq<T>)
    ensures (a + (b + (c + d))) + e == a + (b + (c + (d + e)))
  {
    Sequences.Joins(a, b + (c + d), e);
    Sequences.Joins(b, c + d, e);
    Sequences.Joins(c, d, e);
  }

  /** The tags of the first block: where they are, and what stands for its body and the rest. */
  ghost predicate BlockAt(result: seq<Tag>, elements: seq<Val>, open: nat, block: Forest, env: Env, tail: seq<Todo>) {
    && block.Block? && !block.cond && open + 1 + |Flat(block.body)| < |result|
    && result[open] == IterOpen(block.name)
    && AllStand(Row(block.body, env), result[open + 1..open + 1 + |Flat(block.body)|], elements)
    && AllStand(Row(block.next, env) + Rows(tail), result[open + 2 + |Flat(block.body)|..], elements)
  }

  lemma BlockParts(result: seq<Tag>, elements: seq<Val>, open: nat, block: Forest, env: Env, tail: seq<Todo>)
    requires block.Block? && !block.cond && open <= |result|
      && AllStand(Rows([Todo(block, env)] + tail), result[open..], elements)
    ensures BlockAt(result, elements, open, block, env, tail)
    ensures result[open + 1 + |Flat(block.body)|] == Close(block.name)
  {
    hide Stands;
    BlockRow(block, env, tail);
    var now, n := result[open..], |Flat(block.body)|;
    var rest := Row(block.next, env) + Rows(tail);
    var close := [Placed(Close(block.name), env)] + rest;
    StandSplit([Placed(IterOpen(block.name), env)], Row(block.body, env) + close, now, elements);
    StandSplit(Row(block.body, env), close, now[1..], elements);
    StandSplit([Placed(Close(block.name), env)], rest, now[1..][n..], elements);
    OneStands(Placed(IterOpen(block.name), env), now[..1], elements);
    OneStands(Placed(Close(block.name), env), now[1..][n..][..1], elements);
    assert now[1..][..n] == result[open + 1..open + 1 + n];
    assert now[1..][n..][1..] == result[open + 2 + n..];
    assert now[1..][n..][0] == result[open + 1 + n];
  }

  lemma OneStands(p: Placed, now: seq<Tag>, elements: seq<Val>)
    requires AllStand([p], now, elements) && (p.tag.IterOpen? || p.tag.Close?)
    ensures now == [p.tag]
  {
    assert Stands([p][0], now[0], elements);
  }

  /** The first opening tag is the one of the first block. */
  lemma FirstIsBlock(result: seq<Tag>, elements: seq<Val>, at: nat, todo: seq<Todo>, open: nat)
    requires Made(result, elements, at, todo)
    requires open < |result| && result[open].IterOpen? && NoOpens(result[..open])
    ensures FromBlock(todo) != [] && open == at + |Leaves(todo)|
    ensures AllStand(Leaves(todo), result[at..open], elements)
      && AllStand(Rows(FromBlock(todo)), result[open..], elements)
  {
    hide AllStand, NoOpens, Rows;
    RowsSplit(todo);
    var m := |Leaves(todo)|;
    SplitAt(result, elements, at, Leaves(todo), Rows(FromBlock(todo)));
    LeavesAreClosed(Leaves(todo), result[at..at + m], elements);
    OpensBehind(result, at, m, open);
    if FromBlock(todo) == [] {
      NothingOpens(result, elements, at + m);
    } else {
      var block, env, tail := FromBlock(todo)[0].f, FromBlock(todo)[0].env, FromBlock(todo)[1..];
      assert FromBlock(todo) == [Todo(block, env)] + tail;
      BlockParts(result, elements, at + m, block, env, tail);
      OpensNoLater(result, open, at + m);
    }
  }

  lemma SplitAt(result: seq<Tag>, elements: seq<Val>, at: nat, a: seq<Placed>, b: seq<Placed>)
    requires at <= |result| && AllStand(a + b, result[at..], elements)
    ensures at + |a| <= |result| && AllStand(a, result[at..at + |a|], elements)
      && AllStand(b, result[at + |a|..], elements)
  {
    StandSplit(a, b, result[at..], elements);
    assert result[at..][..|a|] == result[at..at + |a|] && result[at..][|a|..] == result[at + |a|..];
  }

  lemma OpensBehind(result: seq<Tag>, at: nat, m: nat, open: nat)
    requires at + m <= |result| && NoOpens(result[..at]) && NoOpens(result[at..at + m]) && open < |result|
      && result[open].IterOpen?
    ensures open >= at + m
  {
  }

  lemma OpensNoLater(result: seq<Tag>, open: nat, k: nat)
    requires open < |result| && NoOpens(result[..open]) && k < |result| && result[k].IterOpen?
    ensures open <= k
  {
  }

  lemma NothingOpens(result: seq<Tag>, elements: seq<Val>, k: nat)
    requires k <= |result| && AllStand(Rows([]), result[k..], elements)
    ensures k == |result|
  {
  }

  /** A block's closing tag is the one the program finds. */
  lemma ClosesThere(result: seq<Tag>, elements: seq<Val>, open: nat, block: Forest, env: Env, tail: seq<Todo>)
    requires open <= |result| && block.Block? && IterOnly(block)
      && AllStand(Rows([Todo(block, env)] + tail), result[open..], elements)
    ensures open + 1 + |Flat(block.body)| < |result|
    ensures CloseFrom(result, block.name, open + 1, 0) == open + 1 + |Flat(block.body)|
  {
    hide Rows, CloseFrom, Stands, AllStand;
    var row := Rows([Todo(block, env)] + tail);
    BlockParts(result, elements, open, block, env, tail);
    assert |result[open..]| == |row| by {
      CountsAgree(row, result[open..], elements);
    }
    var spec := result[..open] + Bare(row);
    SpecIsLike(result, elements, open, row);
    SpecLies(result[..open], block, env, tail);
    IterIsNested(block);
    BlockClosesAtItsOwn(spec, block.name, block.body, open + 1);
    SameClose(result, spec, block.name, open + 1, 0);
  }

  lemma CountsAgree(row: seq<Placed>, now: seq<Tag>, elements: seq<Val>)
    requires AllStand(row, now, elements)
    ensures |row| == |now|
  {
  }

  lemma SpecIsLike(result: seq<Tag>, elements: seq<Val>, open: nat, row: seq<Placed>)
    requires open <= |result| && AllStand(row, result[open..], elements)
    ensures SameTags(result, result[..open] + Bare(row))
  {
    hide Stands;
    StandsPlain(row, result[open..], elements);
    var spec := result[..open] + Bare(row);
    forall k | 0 <= k < |result| ensures result[k] == spec[k] || (IsPlain(result[k]) && IsPlain(spec[k])) {
      if k >= open {
        assert result[open..][k - open] == result[k] && spec[k] == Bare(row)[k - open];
      }
    }
  }

  lemma SpecLies(before: seq<Tag>, block: Forest, env: Env, tail: seq<Todo>)
    requires block.Block? && !block.cond
    ensures var spec, n := before + Bare(Rows([Todo(block, env)] + tail)), |Flat(block.body)|;
      && |before| + 1 + n < |spec| && LiesAt(spec, Flat(block.body), |before| + 1)
      && spec[|before| + 1 + n] == Close(block.name)
  {
    BlockRow(block, env, tail);
    var rest := Row(block.next, env) + Rows(tail);
    BareJoined([Placed(IterOpen(block.name), env)], Row(block.body, env) + ([Placed(Close(block.name), env)] + rest));
    BareJoined(Row(block.body, env), [Placed(Close(block.name), env)] + rest);
    BareJoined([Placed(Close(block.name), env)], rest);
    BareRow(block.body, env);
    var spec := before + ([IterOpen(block.name)] + (Flat(block.body) + ([Close(block.name)] + Bare(rest))));
    assert Bare([Placed(IterOpen(block.name), env)]) == [IterOpen(block.name)];
    assert Bare([Placed(Close(block.name), env)]) == [Close(block.name)];
    assert spec == before + Bare(Rows([Todo(block, env)] + tail));
    forall k | 0 <= k < |Flat(block.body)| ensures spec[|before| + 1 + k] == Flat(block.body)[k] {
    }
  }

  lemma {:induction false} IterIsNested(f: Forest)
    requires IterOnly(f)
    ensures WellNested(f)
    decreases f
  {
    match f {
      case Empty =>
      case Leaf(_, next) => IterIsNested(next);
      case Block(_, _, body, next) =>
        IterIsNested(body);
        IterIsNested(next);
    }
  }

  // ---------- One block ----------

  /** The body for each element, joined with sep. */
  method ExpandArray(body: seq<Tag>, elems: seq<Val>, elements: seq<Val>, sep: Bytes, ghost f: Forest, ghost env: Env)
      returns (now: seq<Tag>, elements': seq<Val>)
    requires AllStand(Row(f, env), body, elements)
    ensures elements <= elements' && AllStand(Rows(CopiesTodo(f, env, elems, |elems|, sep)), now, elements')
  {
    hide AllStand, AllFilled, Rows, Row;
    now, elements' := [], elements;
    NothingStands(elements);
    for n := 0 to |elems|
      invariant elements <= elements' && AllStand(Rows(CopiesTodo(f, env, elems, n, sep)), now, elements')
    {
      ghost var was, had := now, elements';
      var part;
      part, elements' := ExpandElement(body, n, elems[n], elements');
      OneMoreCopy(f, env, elems, n, sep, body, elements, was, had, part, elements');
      now := if n == 0 then now + part else now + [Lit(sep)] + part;
    }
  }

  lemma NothingStands(elements: seq<Val>)
    ensures AllStand(Rows([]), [], elements)
  {
  }

  lemma OneMoreCopy(f: Forest, env: Env, elems: seq<Val>, n: nat, sep: Bytes, body: seq<Tag>, elements: seq<Val>,
                    was: seq<Tag>, had: seq<Val>, part: seq<Tag>, elements': seq<Val>)
    requires n < |elems| && AllStand(Row(f, env), body, elements) && elements <= had <= elements'
    requires AllStand(Rows(CopiesTodo(f, env, elems, n, sep)), was, had)
      && AllFilled(body, n, elems[n], part, elements')
    ensures AllStand(Rows(CopiesTodo(f, env, elems, n + 1, sep)),
      if n == 0 then was + part else was + [Lit(sep)] + part, elements')
  {
    hide AllStand, AllFilled;
    var before, copy := CopiesTodo(f, env, elems, n, sep), Todo(f, env + [Turn(n, elems[n])]);
    StandStill(Rows(before), was, had, elements');
    AllStandInCopy(Row(f, env), body, elements, n, elems[n], part, elements');
    assert InCopy(Row(f, env), Turn(n, elems[n])) == Row(f, copy.env);
    OneRow(copy);
    if n == 0 {
      assert before + [] == before;
      RowsJoined(before, [copy]);
      StandJoined(Rows(before), Rows([copy]), was, part, elements');
    } else {
      var between := Todo(Leaf(Lit(sep), Empty), []);
      OneRow(between);
      SepStands(sep, elements');
      RowsJoined(before, [between]);
      RowsJoined(before + [between], [copy]);
      StandJoined(Rows(before), Rows([between]), was, [Lit(sep)], elements');
      StandJoined(Rows(before + [between]), Rows([copy]), was + [Lit(sep)], part, elements');
    }
  }

  lemma OneRow(t: Todo)
    ensures Rows([t]) == Row(t.f, t.env)
  {
    assert [t][1..] == [];
  }

  lemma SepStands(sep: Bytes, elements: seq<Val>)
    ensures AllStand(Row(Leaf(Lit(sep), Empty), []), [Lit(sep)], elements)
  {
    assert Flat(Leaf(Lit(sep), Empty)) == [Lit(sep)] + [];
  }

  // ---------- All of them ----------

  datatype Iterated = Iterated(tags: seq<Tag>) | NotAList(name: seq<Bytes>)

  /** How many blocks there are still to expand. */
  function Work(f: Forest, inputs: Inputs): nat
    decreases f, 0
  {
    match f
    case Empty => 0
    case Leaf(_, next) => Work(next, inputs)
    case Block(_, name, body, next) =>
      1 + WorkOfCopies(body, inputs,
        if |name| > 0 && name[0] in inputs && inputs[name[0]].List? then |inputs[name[0]].elems| else 0)
          + Work(next, inputs)
  }

  function WorkOfCopies(body: Forest, inputs: Inputs, n: nat): nat
    decreases body, n + 1
  {
    if n == 0 then 0 else WorkOfCopies(body, inputs, n - 1) + Work(body, inputs)
  }

  function AllWork(todo: seq<Todo>, inputs: Inputs): nat {
    if todo == [] then 0 else Work(todo[0].f, inputs) + AllWork(todo[1..], inputs)
  }

  lemma {:induction false} WorkJoined(a: seq<Todo>, b: seq<Todo>, inputs: Inputs)
    ensures AllWork(a + b, inputs) == AllWork(a, inputs) + AllWork(b, inputs)
  {
    hide Work;
    if a == [] {
      assert a + b == b;
    } else {
      assert (a + b)[1..] == a[1..] + b;
      WorkJoined(a[1..], b, inputs);
    }
  }

  lemma {:induction false} WorkBelow(todo: seq<Todo>, inputs: Inputs)
    ensures AllWork(FromBlock(todo), inputs) == AllWork(todo, inputs)
    decreases Size(todo)
  {
    if todo != [] && todo[0].f.Empty? {
      WorkBelow(todo[1..], inputs);
    } else if todo != [] && todo[0].f.Leaf? {
      var next := [Todo(todo[0].f.next, todo[0].env)] + todo[1..];
      assert next[1..] == todo[1..];
      WorkBelow(next, inputs);
    }
  }

  lemma {:induction false} WorkOfCopiesIs(body: Forest, env: Env, elems: seq<Val>, n: nat, sep: Bytes, inputs: Inputs)
    requires n <= |elems|
    ensures AllWork(CopiesTodo(body, env, elems, n, sep), inputs) == WorkOfCopies(body, inputs, n)
    decreases n
  {
    hide Work;
    if n > 0 {
      WorkOfCopiesIs(body, env, elems, n - 1, sep, inputs);
      var was, copy := CopiesTodo(body, env, elems, n - 1, sep), [Todo(body, env + [Turn(n - 1, elems[n - 1])])];
      var between := if n == 1 then [] else [Todo(Leaf(Lit(sep), Empty), [])];
      NoWork(sep, inputs);
      WorkJoined(was, between, inputs);
      WorkJoined(was + between, copy, inputs);
      assert copy[1..] == [];
    }
  }

  lemma NoWork(sep: Bytes, inputs: Inputs)
    ensures AllWork([Todo(Leaf(Lit(sep), Empty), [])], inputs) == 0 == AllWork([], inputs)
  {
    assert [Todo(Leaf(Lit(sep), Empty), [])][1..] == [];
    assert Work(Empty, inputs) == 0;
  }

  /** The result comes to the whole template, once what is still to do is expanded behind text. */
  ghost predicate Working(ctx: Context, f: Forest, inputs: Inputs, result: seq<Tag>, elements: seq<Val>, at: nat,
                          text: Bytes, todo: seq<Todo>)
    requires IterOnly(f)
  {
    && Made(result, elements, at, todo) && ReadsLike(result[..at], text)
    && Cat(Render(result[..at], inputs, elements), PiecesOf(RenderTodo(ctx, todo, text, inputs)))
      == PiecesOf(RenderForest(ctx, f, [], inputs, []))
  }

  lemma NothingDone(ctx: Context, f: Forest, inputs: Inputs)
    requires IterOnly(f)
    ensures Working(ctx, f, inputs, Flat(f), [], 0, [], [Todo(f, [])])
  {
    var todo := [Todo(f, [])];
    OneRow(todo[0]);
    assert Flat(f)[..0] == [] && Flat(f)[0..] == Flat(f);
    ReadsLikeItself([]);
    TodoOne(ctx, todo[0], [], inputs);
    CatNothing(PiecesOf(RenderTodo(ctx, todo, [], inputs)));
  }

  /** Down to the block at open, all is done. */
  lemma DownToBlock(ctx: Context, f: Forest, inputs: Inputs, result: seq<Tag>, elements: seq<Val>, at: nat, text: Bytes,
                    todo: seq<Todo>, open: nat)
    requires IterOnly(f) && Working(ctx, f, inputs, result, elements, at, text, todo)
    requires at <= open <= |result| && open == at + |Leaves(todo)|
    requires AllStand(Leaves(todo), result[at..open], elements)
      && AllStand(Rows(FromBlock(todo)), result[open..], elements)
    ensures Working(ctx, f, inputs, result, elements, open, text + RowText(Leaves(todo)), FromBlock(todo))
  {
    hide AllStand, RenderTodo, Render, RenderForest, ReadsLike, NoOpens, Within, Cat;
    RowsSplit(todo);
    var leaves, now := Leaves(todo), result[at..open];
    assert result[..open] == result[..at] + now;
    LeavesAreClosed(leaves, now, elements);
    NoOpensIn(result[..at], now);
    WithinIn(result[..at], now, |elements|);
    RowReadsLike(leaves, now, elements);
    ReadsLikeJoined(result[..at], text, now, RowText(leaves));
    LeavesRender(ctx, todo, now, text, inputs, elements);
    RenderJoined(result[..at], now, inputs, elements);
    CatAssociates(Render(result[..at], inputs, elements), Render(now, inputs, elements),
                  PiecesOf(RenderTodo(ctx, FromBlock(todo), text + RowText(leaves), inputs)));
  }

  lemma SeparatorIs(ctx: Context, done: seq<Tag>, text: Bytes, body: seq<Tag>, f: Forest, env: Env, elements: seq<Val>)
    requires ReadsLike(done, text) && AllStand(Row(f, env), body, elements)
    ensures IterationSeparator(ctx, Source(done), Source(body)) == IterationSeparator(ctx, text, BodySource(f, env))
  {
    hide IterationSeparator, SourceTo, TextTo, Stands;
    forall k | 0 <= k < |body| ensures Stands(Placed(Flat(f)[k], env), body[k], elements) {
      assert Stands(Row(f, env)[k], body[k], elements);
    }
    BodyIsLike(Flat(f), |body|, env, body, elements);
    LikeSeparate(ctx, Source(done), Source(body), BodySource(f, env));
    assert Alike(ctx, [], []);
    assert [] + Source(done) == Source(done) && [] + text == text;
    AlikeSeparate(ctx, Source(done), text, BodySource(f, env));
  }

  /** With the copies in its place the first block is what is to do next. */
  lemma BlockDone(ctx: Context, f: Forest, inputs: Inputs, result: seq<Tag>, elements: seq<Val>, open: nat, text: Bytes,
                  todo: seq<Todo>, copies: seq<Tag>, elements': seq<Val>)
    requires IterOnly(f) && todo != [] && todo[0].f.Block?
      && Working(ctx, f, inputs, result, elements, open, text, todo)
    requires IterOnly(todo[0].f) && todo[0].f.name[0] in inputs && inputs[todo[0].f.name[0]].List?
      && elements <= elements'
    requires AllStand(Rows(CopiesIn(ctx, inputs, text, todo[0])), copies, elements')
    ensures var close := open + 1 + |Flat(todo[0].f.body)|;
      close < |result|
        && Working(ctx, f, inputs, result[..open] + copies + result[close + 1..], elements', open, text,
             NowTodo(ctx, inputs, text, todo))
  {
    hide AllStand, RenderTodo, RenderTo, RenderForest, ReadsLike, NoOpens, Within, Cat, Rows, IterationSeparator,
      BodySource, CopiesTodo;
    var block, env, tail := todo[0].f, todo[0].env, todo[1..];
    var close := open + 1 + |Flat(block.body)|;
    assert todo == [Todo(block, env)] + tail;
    BlockParts(result, elements, open, block, env, tail);
    BlockUnfolds(ctx, block, env, tail, text, inputs);
    var rest := [Todo(block.next, env)] + tail;
    NextRow(block, env, tail);
    StandStill(Rows(rest), result[close + 1..], elements, elements');
    RowsJoined(CopiesIn(ctx, inputs, text, todo[0]), rest);
    StandJoined(Rows(CopiesIn(ctx, inputs, text, todo[0])), Rows(rest), copies, result[close + 1..], elements');
    var now := result[..open] + copies + result[close + 1..];
    assert now[..open] == result[..open] && now[open..] == copies + result[close + 1..];
    RenderKeeps(result[..open], open, inputs, elements, elements');
    WithinMore(result[..open], |elements|, |elements'|);
  }

  lemma WithinMore(tags: seq<Tag>, m: nat, n: nat)
    requires Within(tags, m) && m <= n
    ensures Within(tags, n)
  {
  }

  lemma NextRow(block: Forest, env: Env, tail: seq<Todo>)
    requires block.Block?
    ensures Rows([Todo(block.next, env)] + tail) == Row(block.next, env) + Rows(tail)
  {
    var rest := [Todo(block.next, env)] + tail;
    assert rest[1..] == tail;
  }

  function CopiesIn(ctx: Context, inputs: Inputs, text: Bytes, t: Todo): seq<Todo>
    requires t.f.Block? && |t.f.name| > 0 && t.f.name[0] in inputs && inputs[t.f.name[0]].List?
  {
    var elems := inputs[t.f.name[0]].elems;
    CopiesTodo(t.f.body, t.env, elems, |elems|, IterationSeparator(ctx, text, BodySource(t.f.body, t.env)))
  }

  function NowTodo(ctx: Context, inputs: Inputs, text: Bytes, todo: seq<Todo>): seq<Todo>
    requires todo != [] && todo[0].f.Block? && |todo[0].f.name| > 0 && todo[0].f.name[0] in inputs
      && inputs[todo[0].f.name[0]].List?
  {
    CopiesIn(ctx, inputs, text, todo[0]) + ([Todo(todo[0].f.next, todo[0].env)] + todo[1..])
  }

  lemma LessWork(ctx: Context, inputs: Inputs, text: Bytes, todo: seq<Todo>)
    requires todo != [] && todo[0].f.Block? && IterOnly(todo[0].f) && todo[0].f.name[0] in inputs
      && inputs[todo[0].f.name[0]].List?
    ensures AllWork(NowTodo(ctx, inputs, text, todo), inputs) < AllWork(todo, inputs)
  {
    hide IterationSeparator, BodySource, CopiesTodo, WorkOfCopies;
    var block, env := todo[0].f, todo[0].env;
    var elems := inputs[block.name[0]].elems;
    var rest := [Todo(block.next, env)] + todo[1..];
    assert rest[1..] == todo[1..];
    WorkOfCopiesIs(block.body, env, elems, |elems|, IterationSeparator(ctx, text, BodySource(block.body, env)), inputs);
    WorkJoined(CopiesIn(ctx, inputs, text, todo[0]), rest, inputs);
  }

  /** Expands the block that opens at open, the first one left. */
  method ExpandBlock(ctx: Context, result: seq<Tag>, open: nat, inputs: Inputs, elements: seq<Val>,
                     ghost f: Forest, ghost at: nat, ghost text: Bytes, ghost todo: seq<Todo>)
      returns (ok: bool, result': seq<Tag>, elements': seq<Val>, ghost text': Bytes, ghost todo': seq<Todo>)
    requires IterOnly(f) && Working(ctx, f, inputs, result, elements, at, text, todo)
    requires open < |result| && result[open].IterOpen? && NoOpens(result[..open])
    ensures ok ==> Working(ctx, f, inputs, result', elements', open, text', todo')
                   && AllWork(todo', inputs) < AllWork(todo, inputs)
    ensures !ok ==> RenderForest(ctx, f, [], inputs, []) == None
  {
    hide AllStand, RenderTodo, Render, RenderForest, ReadsLike, NoOpens, Rows, Row, IterationSeparator, Source, AllWork,
      CloseFrom, CopiesIn, NowTodo;
    FirstIsBlock(result, elements, at, todo, open);
    DownToBlock(ctx, f, inputs, result, elements, at, text, todo, open);
    RowsSplit(todo);
    WorkBelow(todo, inputs);
    todo' := FromBlock(todo);
    text' := text + RowText(Leaves(todo));
    ghost var block, env, tail := todo'[0].f, todo'[0].env, todo'[1..];
    assert todo' == [Todo(block, env)] + tail;
    BlockParts(result, elements, open, block, env, tail);
    ClosesThere(result, elements, open, block, env, tail);
    var close := FindBlockClose(result, result[open].name, open + 1);
    var key := result[open].name[0];
    result', elements' := result, elements;
    if key !in inputs || !inputs[key].List? {
      Fails(ctx, f, inputs, result, elements, open, text', block, env, tail);
      ok := false;
    } else {
      var body, copies := result[open + 1..close], [];
      var sep := IterationSeparator(ctx, Source(result[..open]), Source(body));
      SeparatorIs(ctx, result[..open], text', body, block.body, env, elements);
      CopiesAreThose(ctx, inputs, text', todo'[0]);
      copies, elements' := ExpandArray(body, inputs[key].elems, elements, sep, block.body, env);
      result' := result[..open] + copies + result[close + 1..];
      BlockDone(ctx, f, inputs, result, elements, open, text', todo', copies, elements');
      LessWork(ctx, inputs, text', todo');
      todo' := NowTodo(ctx, inputs, text', todo');
      ok := true;
    }
  }

  lemma CopiesAreThose(ctx: Context, inputs: Inputs, text: Bytes, t: Todo)
    requires t.f.Block? && |t.f.name| > 0 && t.f.name[0] in inputs && inputs[t.f.name[0]].List?
    ensures var elems := inputs[t.f.name[0]].elems;
      CopiesIn(ctx, inputs, text, t)
        == CopiesTodo(t.f.body, t.env, elems, |elems|, IterationSeparator(ctx, text, BodySource(t.f.body, t.env)))
  {
  }

  lemma Fails(ctx: Context, f: Forest, inputs: Inputs, result: seq<Tag>, elements: seq<Val>, open: nat, text: Bytes,
              block: Forest, env: Env, tail: seq<Todo>)
    requires IterOnly(f) && Working(ctx, f, inputs, result, elements, open, text, [Todo(block, env)] + tail)
    requires block.Block? && IterOnly(block) && !(block.name[0] in inputs && inputs[block.name[0]].List?)
    ensures RenderForest(ctx, f, [], inputs, []) == None
  {
    hide RenderForest;
    BlockFails(ctx, block, env, tail, text, inputs);
  }

  /** Expands the blocks one after another. The result, filled, is what the template's structure says. */
  method ExpandIterationBlocks(ctx: Context, tmpl: seq<Tag>, inputs: Inputs, ghost f: Forest)
    returns (r: Iterated, elements: seq<Val>)
    requires IterOnly(f) && tmpl == Flat(f)
    ensures r.Iterated? ==> NoOpens(r.tags)
                            && Render(r.tags, inputs, elements) == PiecesOf(RenderForest(ctx, f, [], inputs, []))
    ensures !r.Iterated? ==> RenderForest(ctx, f, [], inputs, []) == None
  {
    var result := tmpl;
    elements := [];
    ghost var at: nat, text: Bytes, todo := 0, [], [Todo(f, [])];
    NothingDone(ctx, f, inputs);
    hide Working, RenderForest, Render, AllWork, NoOpens;
    var open := FirstIter(result);
    while open >= 0
      invariant Working(ctx, f, inputs, result, elements, at, text, todo)
      invariant open < 0 ==> NoOpens(result)
      invariant open >= 0 ==> open < |result| && result[open].IterOpen? && NoOpens(result[..open])
      decreases AllWork(todo, inputs)
    {
      var ok, had, name := true, elements, result[open].name;
      ghost var more, next;
      ok, result, elements, more, next := ExpandBlock(ctx, result, open, inputs, elements, f, at, text, todo);
      if !ok {
        return NotAList(name), had;
      }
      at, text, todo := open, more, next;
      open := FirstIter(result);
    }
    AllIsDone(ctx, f, inputs, result, elements, at, text, todo);
    r := Iterated(result);
  }

  /** Without an opening tag, nothing is left to do but leaves. */
  lemma AllIsDone(ctx: Context, f: Forest, inputs: Inputs, result: seq<Tag>, elements: seq<Val>, at: nat, text: Bytes,
                  todo: seq<Todo>)
    requires IterOnly(f) && Working(ctx, f, inputs, result, elements, at, text, todo) && NoOpens(result)
    ensures Render(result, inputs, elements) == PiecesOf(RenderForest(ctx, f, [], inputs, []))
  {
    hide AllStand, Render, RenderForest, ReadsLike, Within, Cat, Rows;
    RowsSplit(todo);
    var m := |Leaves(todo)|;
    SplitAt(result, elements, at, Leaves(todo), Rows(FromBlock(todo)));
    NoBlockLeft(result, elements, at + m, FromBlock(todo));
    DownToBlock(ctx, f, inputs, result, elements, at, text, todo, at + m);
    NothingOpens(result, elements, at + m);
    assert result[..at + m] == result;
    CatNothing(Render(result, inputs, elements));
  }

  lemma NoBlockLeft(result: seq<Tag>, elements: seq<Val>, open: nat, todo: seq<Todo>)
    requires open <= |result| && AllIter(todo) && AllStand(Rows(todo), result[open..], elements) && NoOpens(result)
    requires todo == [] || todo[0].f.Block?
    ensures todo == []
  {
    if todo != [] {
      assert todo == [Todo(todo[0].f, todo[0].env)] + todo[1..];
      BlockParts(result, elements, open, todo[0].f, todo[0].env, todo[1..]);
    }
  }
}

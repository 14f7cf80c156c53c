/** What a block that writes a pair for each element of a list sends in a form body (adapter/template.go,
    adapter/render.go; docs/user/templates.md). */
module ListBlocks {
  import opened Ampersands
  import opened Bytes
  import opened Conditionals
  import opened Filling
  import opened JsonString
  import opened RenderQuery
  import opened Rendering
  import opened Scanner
  import opened Separators
  import opened Sequences
  import opened Substitution
  import opened Template
  import opened UrlEscape
  import opened Values

  // ---------- The pairs of an element ----------

  /** An element that is itself a list repeats the key; any other is one pair. */
  function ElementPairs(key: Bytes, v: Val): seq<Bytes> {
    if v.List? && v.elems != [] then ListPairs(key, v.elems, |v.elems|)
    else [key + [EQUALS] + EscapeList(v, true, [COMMA])]
  }

  function ElementTexts(v: Val): seq<Bytes> {
    if v.List? && v.elems != [] then seq(|v.elems|, i requires 0 <= i < |v.elems| => FormatValue(v.elems[i]))
    else if v.List? then [[]]
    else [FormatValue(v)]
  }

  /** The pairs of the first n. */
  function AllPairs(key: Bytes, vals: seq<Val>, n: nat): seq<Bytes>
    requires n <= |vals|
  {
    if n == 0 then [] else AllPairs(key, vals, n - 1) + ElementPairs(key, vals[n - 1])
  }

  predicate IsKey(key: Bytes) {
    key != [] && forall j :: 0 <= j < |key| ==> key[j] != EQUALS && key[j] != AMPERSAND
  }

  /** Each pair decodes to its element's text. */
  lemma PairsDecode(key: Bytes, v: Val)
    requires IsKey(key)
    ensures |ElementPairs(key, v)| == |ElementTexts(v)|
    ensures forall i :: 0 <= i < |ElementPairs(key, v)| ==> PairValue(ElementPairs(key, v)[i]) == Ok(ElementTexts(v)[i])
  {
    hide PairValue, FormatValue;
    if v.List? && v.elems != [] {
      ListPairsDecode(key, v.elems);
    } else if v.List? {
      EmptyDecodes(key);
    } else {
      PairDecodes(key, v);
    }
  }

  lemma EmptyDecodes(key: Bytes)
    requires IsKey(key)
    ensures PairValue(key + [EQUALS] + EscapeList(List([]), true, [COMMA])) == Ok([])
  {
    var pair := key + [EQUALS] + [];
    assert EscapeList(List([]), true, [COMMA]) == [];
    KeyIsCut(key, []);
    assert pair[|key| + 1..] == [];
  }

  // ---------- Item by item ----------

  /** The first n pieces byte by byte. */
  function ItemsTo(pieces: seq<Piece>, n: nat): seq<Item>
    requires n <= |pieces|
  {
    if n == 0 then [] else ItemsTo(pieces, n - 1) + PieceItems(pieces[n - 1])
  }

  function PieceItems(p: Piece): seq<Item> {
    if p.Literal? then BytesOf(p.text) else [Value(p.v)]
  }

  function BytesOf(text: Bytes): seq<Item> {
    seq(|text|, k requires 0 <= k < |text| => Byte(text[k]))
  }

  lemma {:induction false} ItemsCount(pieces: seq<Piece>, n: nat)
    requires n <= |pieces|
    ensures |ItemsTo(pieces, n)| == Offset(pieces, n)
  {
    if n > 0 {
      ItemsCount(pieces, n - 1);
    }
  }

  lemma {:induction false} ItemsLie(pieces: seq<Piece>, n: nat, k: nat)
    requires k < n <= |pieces|
    ensures PieceLies(ItemsTo(pieces, n), Offset(pieces, k), pieces[k])
    decreases n
  {
    ItemsCount(pieces, n - 1);
    if k < n - 1 {
      ItemsLie(pieces, n - 1, k);
    }
  }

  /** What is written of the pieces splits into these pairs. */
  function PairsOfPieces(pieces: seq<Piece>): Pairing {
    Pairs(ItemsTo(pieces, |pieces|), |ItemsTo(pieces, |pieces|)|)
  }

  lemma SplitsSo(pieces: seq<Piece>)
    ensures Split(Output(FormBody, pieces, |pieces|)) == Whole(PairsOfPieces(pieces))
  {
    hide PieceLies, ItemsTo, Split, Output, Pairs;
    var items := ItemsTo(pieces, |pieces|);
    ItemsCount(pieces, |pieces|);
    forall n: nat | n < |pieces| ensures PieceLies(items, Offset(pieces, n), pieces[n]) {
      ItemsLie(pieces, |pieces|, n);
    }
    FormSplitsIntoPairs(pieces, items);
  }

  lemma {:induction false} ItemsOfPrefix(a: seq<Piece>, b: seq<Piece>, n: nat)
    requires n <= |a|
    ensures ItemsTo(a + b, n) == ItemsTo(a, n)
  {
    if n > 0 {
      ItemsOfPrefix(a, b, n - 1);
    }
  }

  lemma ItemsMore(pieces: seq<Piece>, p: Piece)
    ensures ItemsTo(pieces + [p], |pieces| + 1) == ItemsTo(pieces, |pieces|) + PieceItems(p)
  {
    ItemsOfPrefix(pieces, [p], |pieces|);
  }

  // ---------- Pairs look back only ----------

  lemma {:induction false} PlainBackOf(a: seq<Item>, b: seq<Item>, n: nat)
    requires n <= |a|
    ensures PlainBack(a + b, n) == PlainBack(a, n)
  {
    if n > 0 {
      PlainBackOf(a, b, n - 1);
    }
  }

  lemma {:induction false} LiteralsOf(a: seq<Item>, b: seq<Item>, from: nat, n: nat)
    requires n <= |a|
    ensures Literals(a + b, from, n) == Literals(a, from, n)
  {
    if n > from {
      LiteralsOf(a, b, from, n - 1);
    }
  }

  lemma {:induction false} PairsOf(a: seq<Item>, b: seq<Item>, n: nat)
    requires n <= |a|
    ensures Pairs(a + b, n) == Pairs(a, n)
  {
    hide Repeated, Adding, NewPair;
    if n > 0 {
      PairsOf(a, b, n - 1);
      assert (a + b)[n - 1] == a[n - 1];
      if n > 1 {
        PlainBackOf(a, b, n - 2);
        LiteralsOf(a, b, PlainBack(a, n - 2), n - 2);
      }
    }
  }

  // ---------- One element ----------

  lemma {:induction false} KeyIsPlain(a: seq<Item>, key: Bytes, b: seq<Item>, n: nat)
    requires n <= |key| && IsKey(key) && (a == [] || a[|a| - 1] == Byte(AMPERSAND))
    ensures PlainBack(a + BytesOf(key) + b, |a| + n) == |a|
  {
    var items := a + BytesOf(key) + b;
    if n > 0 {
      assert items[|a| + n - 1] == Byte(key[n - 1]);
      KeyIsPlain(a, key, b, n - 1);
    } else if a != [] {
      assert items[|a| - 1] == Byte(AMPERSAND);
    }
  }

  lemma {:induction false} KeyIsRead(a: seq<Item>, key: Bytes, b: seq<Item>, n: nat)
    requires n <= |key|
    ensures Literals(a + BytesOf(key) + b, |a|, |a| + n) == key[..n]
  {
    if n > 0 {
      KeyIsRead(a, key, b, n - 1);
      assert (a + BytesOf(key) + b)[|a| + n - 1] == Byte(key[n - 1]);
      assert key[..n] == key[..n - 1] + [key[n - 1]];
    }
  }

  lemma {:induction false} KeyEndsNoPair(a: seq<Item>, key: Bytes, b: seq<Item>, n: nat)
    requires n <= |key| && IsKey(key)
    ensures Pairs(a + BytesOf(key) + b, |a| + n).done == Pairs(a, |a|).done
  {
    hide Repeated;
    var items := a + BytesOf(key) + b;
    if n > 0 {
      KeyEndsNoPair(a, key, b, n - 1);
      assert items[|a| + n - 1] == Byte(key[n - 1]);
    } else {
      assert items == a + (BytesOf(key) + b);
      PairsOf(a, BytesOf(key) + b, |a|);
    }
  }

  function PairItems(key: Bytes, v: Val): seq<Item> {
    BytesOf(key) + [Byte(EQUALS)] + [Value(v)]
  }

  /** Behind the beginning of a pair, key= leads to a value as a key does. */
  lemma KeyStands(a: seq<Item>, key: Bytes, v: Val)
    requires IsKey(key) && (a == [] || a[|a| - 1] == Byte(AMPERSAND))
    ensures var items, n := a + PairItems(key, v), |a| + |key| + 1;
      && n < |items| == n + 1 && items[n] == Value(v) && KeyBefore(items, n) && RenderQuery.Key(items, n) == key
      && Pairs(items, n).done == Pairs(a, |a|).done
  {
    hide Pairs;
    var tail := [Byte(EQUALS)] + [Value(v)];
    var items, n := a + BytesOf(key) + tail, |a| + |key| + 1;
    assert items == a + PairItems(key, v);
    KeyIsPlain(a, key, tail, |key|);
    KeyIsRead(a, key, tail, |key|);
    KeyEndsNoPair(a, key, tail, |key|);
    assert key[..|key|] == key;
    assert items[n - 1] == Byte(EQUALS) && items[n] == Value(v);
    assert a != [] ==> items[|a| - 1] == Byte(AMPERSAND);
    EqualsEndsNoPair(items, n);
  }

  /** There key= and a value are the value's pairs. */
  lemma OneElement(a: seq<Item>, key: Bytes, v: Val)
    requires IsKey(key) && (a == [] || a[|a| - 1] == Byte(AMPERSAND))
    ensures var items := a + PairItems(key, v);
      Whole(Pairs(items, |items|)) == Pairs(a, |a|).done + ElementPairs(key, v)
  {
    hide Repeated, Pairs, ListPairs, KeyBefore, PairItems, PairValue;
    var items, n := a + PairItems(key, v), |a| + |key| + 1;
    KeyStands(a, key, v);
    if v.List? && v.elems != [] {
      ListBecomesPairs(items, n, v.elems);
    } else if v.List? {
      EmptyList(items, n);
    } else {
      ValueBecomesPair(items, n, v);
    }
  }

  lemma EqualsEndsNoPair(items: seq<Item>, n: nat)
    requires 0 < n <= |items| && items[n - 1] == Byte(EQUALS)
    ensures Pairs(items, n).done == Pairs(items, n - 1).done
  {
  }

  lemma EmptyList(items: seq<Item>, n: nat)
    requires n < |items| && items[n] == Value(List([])) && KeyBefore(items, n)
    ensures Whole(Pairs(items, n + 1)) == Pairs(items, n).done + ElementPairs(RenderQuery.Key(items, n), List([]))
  {
    LastIsKey(items, n);
  }

  /** An ampersand ends the pair under way. */
  lemma AmpEnds(a: seq<Item>)
    ensures Pairs(a + [Byte(AMPERSAND)], |a| + 1) == Pairing(Whole(Pairs(a, |a|)), [])
  {
    PairsOf(a, [Byte(AMPERSAND)], |a|);
  }

  // ---------- All of them ----------

  /**
   * What the block for the first n values comes to behind before: each with an ampersand of its own,
   * or one between each two.
   */
  function PairPieces(before: seq<Piece>, key: Bytes, vals: seq<Val>, n: nat, amp: bool): seq<Piece>
    requires n <= |vals|
  {
    if n == 0 then before
    else
      PairPieces(before, key, vals, n - 1, amp) + (if n == 1 then [] else [Literal(if amp then [] else Amp)])
      + [Literal((if amp then Amp else []) + key + [EQUALS])] + [Hole(vals[n - 1])]
  }

  /** The items of one more value, which begins a pair. */
  lemma OneMoreItems(before: seq<Piece>, key: Bytes, vals: seq<Val>, n: nat, amp: bool)
    requires n < |vals|
    ensures var was, now := PairPieces(before, key, vals, n, amp), PairPieces(before, key, vals, n + 1, amp);
      ItemsTo(now, |now|) == ItemsTo(was, |was|) + (if amp || n > 0 then [Byte(AMPERSAND)] else [])
        + PairItems(key, vals[n])
  {
    hide ItemsTo, BytesOf, PairItems;
    var was, v := PairPieces(before, key, vals, n, amp), vals[n];
    var lit := Literal((if amp then Amp else []) + key + [EQUALS]);
    var begun := was + (if n == 0 then [] else [Literal(if amp then [] else Amp)]);
    assert PairPieces(before, key, vals, n + 1, amp) == begun + [lit] + [Hole(v)];
    SepItems(was, n, amp);
    ItemsMore(begun, lit);
    ItemsMore(begun + [lit], Hole(v));
    LiteralItems(key, amp);
    SpellsItems(ItemsTo(was, |was|), key, v, amp, n);
  }

  lemma SepItems(was: seq<Piece>, n: nat, amp: bool)
    ensures var begun := was + (if n == 0 then [] else [Literal(if amp then [] else Amp)]);
      ItemsTo(begun, |begun|)
        == ItemsTo(was, |was|) + (if n == 0 then [] else if amp then [] else [Byte(AMPERSAND)])
  {
    hide ItemsTo;
    if n == 0 {
      assert was + [] == was;
    } else {
      ItemsMore(was, Literal(if amp then [] else Amp));
      LiteralItems([], amp);
    }
  }

  lemma LiteralItems(key: Bytes, amp: bool)
    ensures BytesOf((if amp then Amp else []) + key + [EQUALS])
      == (if amp then [Byte(AMPERSAND)] else []) + BytesOf(key) + [Byte(EQUALS)]
    ensures BytesOf(if amp then [] else Amp) == if amp then [] else [Byte(AMPERSAND)]
  {
  }

  lemma SpellsItems(a: seq<Item>, key: Bytes, v: Val, amp: bool, n: nat)
    ensures a + (if n == 0 then [] else if amp then [] else [Byte(AMPERSAND)])
            + ((if amp then [Byte(AMPERSAND)] else []) + BytesOf(key) + [Byte(EQUALS)]) + [Value(v)]
            == a + (if amp || n > 0 then [Byte(AMPERSAND)] else []) + PairItems(key, v)
  {
  }

  /** Where a block's pairs begin: behind an ampersand of their own, or where a pair does. */
  ghost predicate Begins(before: seq<Piece>, amp: bool) {
    amp || (var items := ItemsTo(before, |before|); items == [] || items[|items| - 1] == Byte(AMPERSAND))
  }

  /** What was there before the block's pairs. */
  function Earlier(before: seq<Piece>, amp: bool): seq<Bytes> {
    if amp then Whole(PairsOfPieces(before)) else PairsOfPieces(before).done
  }

  lemma {:induction false} BlockPairs(before: seq<Piece>, key: Bytes, vals: seq<Val>, n: nat, amp: bool)
    requires 0 < n <= |vals| && IsKey(key) && Begins(before, amp)
    ensures Whole(PairsOfPieces(PairPieces(before, key, vals, n, amp))) == Earlier(before, amp) + AllPairs(key, vals, n)
  {
    hide Pairs, ElementPairs, PairItems, ItemsTo, Whole;
    var was, now := PairPieces(before, key, vals, n - 1, amp), PairPieces(before, key, vals, n, amp);
    OneMoreItems(before, key, vals, n - 1, amp);
    var a := ItemsTo(was, |was|);
    if n == 1 && !amp {
      assert a + [] == a;
      OneElement(a, key, vals[0]);
      assert AllPairs(key, vals, 0) + ElementPairs(key, vals[0]) == ElementPairs(key, vals[0]);
    } else {
      AmpEnds(a);
      OneElement(a + [Byte(AMPERSAND)], key, vals[n - 1]);
      if n > 1 {
        BlockPairs(before, key, vals, n - 1, amp);
        Joins(Earlier(before, amp), AllPairs(key, vals, n - 1), ElementPairs(key, vals[n - 1]));
      } else {
        assert AllPairs(key, vals, 0) + ElementPairs(key, vals[0]) == ElementPairs(key, vals[0]);
      }
    }
  }

  // ---------- In a template ----------

  /** The text a copy begins with. */
  function LeadOf(key: Bytes, amp: bool): Bytes {
    (if amp then Amp else []) + key + [EQUALS]
  }

  function PairBody(key: Bytes, t: Tag, amp: bool): Forest {
    Leaf(Lit(LeadOf(key, amp)), Leaf(t, Empty))
  }

  /** {{#name}}key={{.}}{{/name}}, or with a field for the element, or with an ampersand before key. */
  function PairBlock(name: Bytes, key: Bytes, t: Tag, amp: bool): Forest {
    Block(false, [name], PairBody(key, t, amp), Empty)
  }

  /** What the tag stands for in an element's copy. */
  function ValueOf(t: Tag, elem: Val): Option<Val> {
    match t
    case Dot => Some(elem)
    case DotField(field) => FieldNamed(elem, field)
    case _ => None
  }

  ghost predicate AllValues(t: Tag, elems: seq<Val>, vals: seq<Val>) {
    |vals| == |elems| && forall i :: 0 <= i < |elems| ==> ValueOf(t, elems[i]) == Some(vals[i])
  }

  lemma CopyRenders(ctx: Context, key: Bytes, t: Tag, amp: bool, before: Bytes, inputs: Inputs, turn: Turn, v: Val)
    requires ValueOf(t, turn.elem) == Some(v)
    ensures IterOnly(PairBody(key, t, amp))
    ensures PiecesOfOut(RenderForest(ctx, PairBody(key, t, amp), before, inputs, [turn]))
      == Some([Literal(LeadOf(key, amp))] + [Hole(v)])
  {
    var env := [turn];
    assert env[..|env| - 1] == [] && FieldOf([], if t.DotField? then t.field else []) == None;
    assert IterOnly(Empty) && IterOnly(Leaf(t, Empty));
    var text := before + TextIn(Lit(LeadOf(key, amp)), env);
    assert RenderForest(ctx, Empty, text + TextIn(t, env), inputs, env) == Some(Out([], text + TextIn(t, env)));
    assert [Hole(v)] + [] == [Hole(v)];
    assert PiecesOfOut(RenderForest(ctx, Leaf(t, Empty), text, inputs, env)) == Some([Hole(v)]);
  }

  function PiecesOfOut(o: Option<Out>): Option<seq<Piece>> {
    if o.Some? then Some(o.value.pieces) else None
  }

  lemma {:induction false} CopiesRender(ctx: Context, pieces: seq<Piece>, key: Bytes, t: Tag, amp: bool, before: Bytes,
                                        inputs: Inputs, elems: seq<Val>, vals: seq<Val>, n: nat)
    requires n <= |elems| && AllValues(t, elems, vals) && IterOnly(PairBody(key, t, amp))
    ensures var copies := RenderCopies(ctx, PairBody(key, t, amp), before, inputs, [], elems, n,
      if amp then [] else Amp);
      copies.Some? && pieces + copies.value.pieces == PairPieces(pieces, key, vals, n, amp)
  {
    hide RenderForest, PairBody, IterOnly;
    var sep := if amp then [] else Amp;
    if n == 0 {
      assert pieces + [] == pieces;
    } else {
      CopiesRender(ctx, pieces, key, t, amp, before, inputs, elems, vals, n - 1);
      var was := RenderCopies(ctx, PairBody(key, t, amp), before, inputs, [], elems, n - 1, sep).value;
      var now := if n == 1 then was else Out(was.pieces + [Literal(sep)], was.text + sep);
      assert [] + [Turn(n - 1, elems[n - 1])] == [Turn(n - 1, elems[n - 1])];
      CopyRenders(ctx, key, t, amp, now.text, inputs, Turn(n - 1, elems[n - 1]), vals[n - 1]);
      Behind(pieces, was.pieces,
        if n == 1 then [] else [Literal(sep)], [Literal(LeadOf(key, amp))], [Hole(vals[n - 1])]);
      assert n == 1 ==> was.pieces + [] == was.pieces;
    }
  }

  lemma Behind<T>(p: seq<T>, a: seq<T>, b: seq<T>, c: seq<T>, d: seq<T>)
    ensures p + ((a + b) + (c + d)) == (p + a) + b + c + d
  {
    Joins(p, a + b, c + d);
    Joins(p, a, b);
    Joins((p + a) + b, c, d);
  }

  // ---------- What joins the copies ----------

  lemma PairSource(key: Bytes, t: Tag, amp: bool)
    requires t.Dot? || t.DotField?
    ensures BodySource(PairBody(key, t, amp), []) == LeadOf(key, amp) + SourceOf(t) + []
    ensures Braced(SourceOf(t))
  {
    var tags := Flat(PairBody(key, t, amp));
    assert Flat(Leaf(t, Empty)) == [t] + [];
    assert tags == [Lit(LeadOf(key, amp)), t];
    assert TextTo(tags, 0, []) == [] && TextTo(tags, 1, []) == [] + LeadOf(key, amp);
    assert [] + LeadOf(key, amp) == LeadOf(key, amp);
    assert FieldOf([], if t.DotField? then t.field else []) == None;
    assert LeadOf(key, amp) + SourceOf(t) + [] == LeadOf(key, amp) + SourceOf(t);
  }

  lemma NoSpaceFirst(s: Bytes)
    requires s != [] && s[0] == AMPERSAND
    ensures TrimStart(s) == s
  {
    assert forall k :: 0 < k <= |s| ==> s[..k][0] == AMPERSAND;
  }

  lemma {:induction false} NoAmpAppears(s: Bytes)
    requires AMPERSAND !in s
    ensures AMPERSAND !in TrimStart(s)
    decreases |s|
  {
    if SpaceBefore(s) > 0 {
      NoAmpAppears(s[SpaceBefore(s)..]);
    }
  }

  /** The copies are joined as the pairs need it. */
  lemma JoinedSo(key: Bytes, t: Tag, amp: bool, text: Bytes)
    requires (t.Dot? || t.DotField?) && IsKey(key) && (amp || TrimSpace(AfterLast(text, AMPERSAND)) == [])
    ensures IterationSeparator(FormBody, text, BodySource(PairBody(key, t, amp), [])) == if amp then [] else Amp
  {
    hide TrimStart, TrimEnd, AfterLast, BodySource, PairBody, SourceOf;
    var lead, body := LeadOf(key, amp), BodySource(PairBody(key, t, amp), []);
    PairSource(key, t, amp);
    TrimAround(lead, SourceOf(t), []);
    NothingTrimmed();
    EndsOf(TrimStart(lead), SourceOf(t), []);
    assert lead[|lead| - 1] == EQUALS && body[|lead| - 1] == EQUALS;
    if amp {
      NoSpaceFirst(lead);
    } else {
      NoAmpAppears(lead);
    }
  }

  lemma NothingTrimmed()
    ensures TrimEnd([]) == []
  {
  }

  // ---------- Behind any template ----------

  lemma {:induction false} AppendRenders(ctx: Context, f: Forest, g: Forest, before: Bytes, inputs: Inputs, env: Env)
    requires IterOnly(f) && IterOnly(g)
    ensures IterOnly(Append(f, g))
    ensures var out := RenderForest(ctx, f, before, inputs, env);
      RenderForest(ctx, Append(f, g), before, inputs, env)
      == if out == None then None else Onto(out.value.pieces, RenderForest(ctx, g, out.value.text, inputs, env))
    decreases f
  {
    hide RenderIn, TextIn, IterationSeparator, RenderCopies;
    match f {
      case Empty => OntoEmpty(RenderForest(ctx, g, before, inputs, env));
      case Leaf(t, next) =>
        AppendRenders(ctx, next, g, before + TextIn(t, env), inputs, env);
        var pieces, out := RenderIn(t, inputs, env), RenderForest(ctx, next, before + TextIn(t, env), inputs, env);
        if pieces.Some? && out.Some? {
          OntoTwice(pieces.value, out.value.pieces, RenderForest(ctx, g, out.value.text, inputs, env));
        }
      case Block(_, name, body, next) =>
        if name[0] in inputs && inputs[name[0]].List? {
          var elems, sep := inputs[name[0]].elems, IterationSeparator(ctx, before, BodySource(body, env));
          var copies := RenderCopies(ctx, body, before, inputs, env, elems, |elems|, sep);
          if copies.Some? {
            AppendRenders(ctx, next, g, copies.value.text, inputs, env);
            var out := RenderForest(ctx, next, copies.value.text, inputs, env);
            if out.Some? {
              OntoTwice(copies.value.pieces, out.value.pieces, RenderForest(ctx, g, out.value.text, inputs, env));
            }
          }
        }
        IterInAppend(next, g);
    }
  }

  lemma OntoEmpty(more: Option<Out>)
    ensures Onto([], more) == more
  {
    if more.Some? {
      assert [] + more.value.pieces == more.value.pieces;
    }
  }

  lemma OntoTwice(x: seq<Piece>, y: seq<Piece>, more: Option<Out>)
    ensures Onto(x, Onto(y, more)) == Onto(x + y, more)
  {
    if more.Some? {
      Joins(x, y, more.value.pieces);
    }
  }

  lemma {:induction false} ProperInAppend(f: Forest, g: Forest)
    requires Proper(f) && Proper(g)
    ensures Proper(Append(f, g))
    decreases f
  {
    match f {
      case Empty =>
      case Leaf(_, next) => ProperInAppend(next, g);
      case Block(_, _, _, next) => ProperInAppend(next, g);
    }
  }

  /** Behind what comes to out, a copy of the block begins a pair. */
  ghost predicate BeginsPair(out: Out, amp: bool) {
    Begins(out.pieces, amp) && (amp || TrimSpace(AfterLast(out.text, AMPERSAND)) == [])
  }

  lemma BlockIsProper(name: Bytes, key: Bytes, t: Tag, amp: bool)
    requires t.Dot? || t.DotField?
    ensures Proper(PairBlock(name, key, t, amp)) && IterOnly(PairBlock(name, key, t, amp))
      && IterOnly(PairBody(key, t, amp))
  {
    assert Proper(Empty) && Proper(Leaf(t, Empty)) && Proper(PairBody(key, t, amp));
    assert IterOnly(Empty) && IterOnly(Leaf(t, Empty)) && IterOnly(PairBody(key, t, amp));
  }

  lemma BlockRenders(out: Out, name: Bytes, key: Bytes, t: Tag, amp: bool, inputs: Inputs, elems: seq<Val>,
                     vals: seq<Val>)
    requires (t.Dot? || t.DotField?) && IsKey(key) && BeginsPair(out, amp)
    requires name in inputs && inputs[name] == List(elems) && AllValues(t, elems, vals)
    ensures IterOnly(PairBlock(name, key, t, amp))
    ensures PiecesOfOut(Onto(out.pieces, RenderForest(FormBody, PairBlock(name, key, t, amp), out.text, inputs, [])))
            == Some(PairPieces(out.pieces, key, vals, |vals|, amp))
  {
    hide IterationSeparator, RenderCopies, BodySource, TrimSpace, AfterLast, PairPieces, PairBody, AllValues,
      RenderForest, IterOnly;
    BlockIsProper(name, key, t, amp);
    JoinedSo(key, t, amp, out.text);
    CopiesRender(FormBody, out.pieces, key, t, amp, out.text, inputs, elems, vals, |elems|);
    OnlyBlock(FormBody, name, PairBody(key, t, amp), out.text, inputs, elems);
    ValuesCount(t, elems, vals);
  }

  lemma ValuesCount(t: Tag, elems: seq<Val>, vals: seq<Val>)
    requires AllValues(t, elems, vals)
    ensures |vals| == |elems|
  {
  }

  /** A block with nothing behind it is its copies. */
  lemma OnlyBlock(ctx: Context, name: Bytes, body: Forest, text: Bytes, inputs: Inputs, elems: seq<Val>)
    requires IterOnly(body) && IterOnly(Block(false, [name], body, Empty)) && name in inputs
      && inputs[name] == List(elems)
    ensures PiecesOfOut(RenderForest(ctx, Block(false, [name], body, Empty), text, inputs, []))
            == PiecesOfOut(RenderCopies(ctx, body, text, inputs, [], elems, |elems|,
              IterationSeparator(ctx, text, BodySource(body, []))))
  {
    hide IterationSeparator, RenderCopies, BodySource;
    var copies := RenderCopies(ctx, body, text, inputs, [], elems, |elems|,
      IterationSeparator(ctx, text, BodySource(body, [])));
    if copies.Some? {
      assert RenderForest(ctx, Empty, copies.value.text, inputs, []) == Some(Out([], copies.value.text));
      assert copies.value.pieces + [] == copies.value.pieces;
    }
  }

  lemma PairBlockStays(name: Bytes, key: Bytes, t: Tag, amp: bool, inputs: Inputs)
    ensures Prune(PairBlock(name, key, t, amp), inputs) == PairBlock(name, key, t, amp)
  {
    assert Prune(Empty, inputs) == Empty && Prune(Leaf(t, Empty), inputs) == Leaf(t, Empty);
  }

  /** A template that ends in such a block sends what it sends without it, and then the pairs of each element, in
      order; an empty list adds nothing. Each pair decodes to its element's text. */
  lemma EachElementIsSent(g: Forest, out: Out, name: Bytes, key: Bytes, t: Tag, amp: bool, inputs: Inputs,
                          elems: seq<Val>, vals: seq<Val>)
    requires Proper(g) && IterOnly(Prune(g, inputs))
      && RenderForest(FormBody, Prune(g, inputs), [], inputs, []) == Some(out)
    requires BeginsPair(out, amp) && (t.Dot? || t.DotField?) && IsKey(key)
    requires name in inputs && inputs[name] == List(elems) && AllValues(t, elems, vals)
    ensures var f := Append(g, PairBlock(name, key, t, amp)); Proper(f) && Meaning(FormBody, f, inputs).Some?
    ensures var body := Meaning(FormBody, Append(g, PairBlock(name, key, t, amp)), inputs).value;
            var alone := Output(FormBody, out.pieces, |out.pieces|);
            var kept := if amp then Split(alone) else Split(alone)[..|Split(alone)| - 1];
            if elems == [] then body == alone else Split(body) == kept + AllPairs(key, vals, |vals|)
    ensures forall i, k :: 0 <= i < |vals| && 0 <= k < |ElementPairs(key, vals[i])| ==>
      |ElementTexts(vals[i])| == |ElementPairs(key, vals[i])|
        && PairValue(ElementPairs(key, vals[i])[k]) == Ok(ElementTexts(vals[i])[k])
  {
    hide RenderForest, PairPieces, Prune, Split, Output, ElementPairs, ElementTexts, PairValue, Pairs, Proper,
      IterOnly, PairBlock;
    var block := PairBlock(name, key, t, amp);
    BlockIsProper(name, key, t, amp);
    BlockRenders(out, name, key, t, amp, inputs, elems, vals);
    ProperInAppend(g, block);
    ProperIsPruned(g, inputs);
    PruneOfAppend(g, block, inputs);
    PairBlockStays(name, key, t, amp, inputs);
    AppendRenders(FormBody, Prune(g, inputs), block, [], inputs, []);
    var pieces := PairPieces(out.pieces, key, vals, |vals|, amp);
    SplitsSo(out.pieces);
    SplitsSo(pieces);
    if elems == [] {
      NoPieces(out.pieces, key, vals, amp);
    } else {
      BlockPairs(out.pieces, key, vals, |vals|, amp);
    }
    forall i | 0 <= i < |vals|
      ensures |ElementPairs(key, vals[i])| == |ElementTexts(vals[i])|
      ensures forall k :: 0 <= k < |ElementPairs(key, vals[i])|
                ==> PairValue(ElementPairs(key, vals[i])[k]) == Ok(ElementTexts(vals[i])[k])
    {
      PairsDecode(key, vals[i]);
    }
  }

  lemma NoPieces(before: seq<Piece>, key: Bytes, vals: seq<Val>, amp: bool)
    ensures PairPieces(before, key, vals, 0, amp) == before
  {
  }

  /** A pair begins at the start of a body, and behind a literal that ends in an ampersand. */
  lemma WherePairsBegin(pieces: seq<Piece>, literal: Bytes, text: Bytes, amp: bool)
    ensures BeginsPair(Out([], []), amp)
    ensures BeginsPair(Out(pieces + [Literal(literal + Amp)], text + Amp), amp)
  {
    ItemsMore(pieces, Literal(literal + Amp));
    var items := ItemsTo(pieces + [Literal(literal + Amp)], |pieces| + 1);
    assert items[|items| - 1] == Byte(AMPERSAND);
    assert AfterLast(text + Amp, AMPERSAND) == [];
  }
}

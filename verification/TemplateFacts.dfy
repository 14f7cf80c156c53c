/** What the scan of a JSON template reports, blocks and all, said of each token and of those before it
    (adapter/message_paths.go scanJSONTemplate). */
module TemplateFacts {
  import opened Decimals
  import opened JsonString
  import opened Sequences
  import opened TemplateScan

  // ---------- Where a token is ----------

  /** The places of the objects and arrays that are open before token n, from the outside in. */
  function Around(tokens: seq<Token>, n: nat): seq<nat>
    requires n <= |tokens|
  {
    if n == 0 then []
    else
      var before := Around(tokens, n - 1);
      match tokens[n - 1]
      case Open | OpenList => before + [n - 1]
      case Close | CloseList => if before == [] then [] else before[..|before| - 1]
      case _ => before
  }

  /** Token m is directly in the object or array that opens at p. */
  predicate In(tokens: seq<Token>, p: nat, m: nat)
    requires m <= |tokens|
  {
    Around(tokens, m) != [] && Around(tokens, m)[|Around(tokens, m)| - 1] == p
  }

  /** How many commas are directly in the array before token n: the place of the element it is in. */
  function Commas(tokens: seq<Token>, p: nat, n: nat): nat
    requires n <= |tokens|
  {
    if n == 0 then 0 else Commas(tokens, p, n - 1) + if In(tokens, p, n - 1) && tokens[n - 1] == Comma then 1 else 0
  }

  datatype Key = Awaited | Key(key: string)

  /** The key of the object's member that token n is in: the first string since the last comma, or * where it has a
      placeholder in it. A placeholder may stand for the key; the member's own key is then not known. */
  function KeyAt(tokens: seq<Token>, p: nat, n: nat): Key
    requires n <= |tokens|
  {
    if n == 0 then Awaited
    else
      var before := KeyAt(tokens, p, n - 1);
      if !In(tokens, p, n - 1) then before
      else
        match tokens[n - 1]
        case Comma => Awaited
        case Text(text, _, _, _) =>
          if before.Key? then before else if text.Some? then Key(text.value) else Key("*")
        case Hole(_) => if before.Key? then before else Key("")
        case _ => before
  }

  predicate OpensBlock(t: Token) {
    t.Conditional? || t.Iteration?
  }

  /** A block opened directly in p before token n. */
  predicate BlockIn(tokens: seq<Token>, p: nat, n: nat)
    requires n <= |tokens|
  {
    exists m :: 0 <= m < n && OpensBlock(tokens[m]) && In(tokens, p, m)
  }

  /** How many blocks are open before token n. */
  function Blocks(tokens: seq<Token>, n: nat): nat
    requires n <= |tokens|
  {
    if n == 0 then 0
    else if OpensBlock(tokens[n - 1]) then Blocks(tokens, n - 1) + 1
    else if tokens[n - 1] == EndBlock && Blocks(tokens, n - 1) > 0 then Blocks(tokens, n - 1) - 1
    else Blocks(tokens, n - 1)
  }

  predicate IsArray(tokens: seq<Token>, p: nat) {
    p < |tokens| && tokens[p] == OpenList
  }

  /** The way to what token n stands for: through each array by place, and through each object by key. */
  function PathTo(tokens: seq<Token>, n: nat): Path
    requires n <= |tokens|
  {
    seq(|Around(tokens, n)|, k requires 0 <= k < |Around(tokens, n)| => StepOf(tokens, Around(tokens, n)[k], n))
  }

  function StepOf(tokens: seq<Token>, p: nat, n: nat): string
    requires n <= |tokens|
  {
    if IsArray(tokens, p) then DecimalText(Commas(tokens, p, n))
    else match KeyAt(tokens, p, n) case Awaited => "" case Key(key) => key
  }

  /** The way to the object or array token n is directly in. */
  function OuterPath(tokens: seq<Token>, n: nat): Path
    requires n <= |tokens|
  {
    if PathTo(tokens, n) == [] then [] else PathTo(tokens, n)[..|PathTo(tokens, n)| - 1]
  }

  /** What is at token n may not be sent, or be sent more than once, or its place may be another: it is in a block, or
      in an array behind the start of one. */
  predicate Uncertain(tokens: seq<Token>, n: nat)
    requires n <= |tokens|
  {
    Blocks(tokens, n) > 0
    || exists k :: 0 <= k < |Around(tokens, n)| && IsArray(tokens, Around(tokens, n)[k])
                   && BlockIn(tokens, Around(tokens, n)[k], n)
  }

  /** Token n stands where a key goes. */
  predicate AsKey(tokens: seq<Token>, n: nat)
    requires n <= |tokens|
  {
    var around := Around(tokens, n);
    around != [] && !IsArray(tokens, around[|around| - 1]) && KeyAt(tokens, around[|around| - 1], n).Awaited?
  }

  // ---------- What a token reports, and where it may be ----------

  function ReportAt(tokens: seq<Token>, n: nat): seq<Event>
    requires n < |tokens|
  {
    var path, outer, block := PathTo(tokens, n), OuterPath(tokens, n), Uncertain(tokens, n);
    if Around(tokens, n) == [] then []
    else
      match tokens[n]
      case Open => [Container(path, AnObject, block)]
      case OpenList => [Container(path, AnArray, block)]
      case Bare(kind) => [Literal(path, kind, block)]
      case Iteration(input) => [Placeholder(input, outer, false, false, block)]
      case Hole(name) =>
        if AsKey(tokens, n) then [Placeholder(name, outer + ["*"], false, false, block)]
        else [Placeholder(name, path, true, true, block)]
      case Text(text, holes, elements, whole) =>
        if AsKey(tokens, n) && text.Some? then []
        else if AsKey(tokens, n) then
          seq(|holes|, i requires 0 <= i < |holes| => Placeholder(holes[i], outer + ["*"], false, false, block))
        else if holes == [] && !elements then [Literal(path, AString, block)]
        else
          seq(|holes|, i requires 0 <= i < |holes| =>
            Placeholder(holes[i], path, whole == Some(holes[i]), false, block))
      case _ => []
  }

  /** A closing bracket closes one of its own kind; other than brackets, only a bare literal may be outside. */
  predicate Fits(tokens: seq<Token>, n: nat)
    requires n < |tokens|
  {
    var around := Around(tokens, n);
    match tokens[n]
    case Open | OpenList | Bare(_) => true
    case Close => around != [] && !IsArray(tokens, around[|around| - 1])
    case CloseList => around != [] && IsArray(tokens, around[|around| - 1])
    case _ => around != []
  }

  // ---------- The frames say just that ----------

  predicate FrameIs(tokens: seq<Token>, p: nat, n: nat, f: Frame)
    requires n <= |tokens|
  {
    && (f.list <==> IsArray(tokens, p))
    && (f.list ==> f.index == Commas(tokens, p, n))
    && (!f.list ==>
          match KeyAt(tokens, p, n)
          case Awaited => f.keyNext && f.key == ""
          case Key(key) => !f.keyNext && f.key == key)
    && (f.shifted <==> f.list && BlockIn(tokens, p, n))
  }

  ghost predicate Told(tokens: seq<Token>, n: nat, s: State)
    requires n <= |tokens|
  {
    && |s.stack| == |Around(tokens, n)| && s.blocks == Blocks(tokens, n)
    && forall k :: 0 <= k < |s.stack| ==> FrameIs(tokens, Around(tokens, n)[k], n, s.stack[k])
  }

  lemma {:induction false} AroundAscends(tokens: seq<Token>, n: nat)
    requires n <= |tokens|
    ensures forall k :: 0 <= k < |Around(tokens, n)| ==> Around(tokens, n)[k] < n
    ensures forall j, k :: 0 <= j < k < |Around(tokens, n)| ==> Around(tokens, n)[j] < Around(tokens, n)[k]
  {
    if n > 0 {
      AroundAscends(tokens, n - 1);
    }
  }

  /** A token changes nothing for a container it is not directly in. */
  lemma OutsideSame(tokens: seq<Token>, p: nat, n: nat, f: Frame)
    requires n < |tokens| && FrameIs(tokens, p, n, f) && !In(tokens, p, n)
    ensures FrameIs(tokens, p, n + 1, f)
  {
    BlockInNext(tokens, p, n);
  }

  lemma BlockInNext(tokens: seq<Token>, p: nat, n: nat)
    requires n < |tokens|
    ensures BlockIn(tokens, p, n + 1) <==> BlockIn(tokens, p, n) || (OpensBlock(tokens[n]) && In(tokens, p, n))
  {
    hide In;
    if OpensBlock(tokens[n]) && In(tokens, p, n) {
      assert BlockIn(tokens, p, n + 1);
    }
  }

  /** What a token directly in an open container makes of its frame. */
  function FrameAfter(f: Frame, t: Token): Frame {
    match t
    case Comma => if f.list then f.(index := f.index + 1) else f.(keyNext := true, key := "")
    case Text(text, _, _, _) =>
      if !f.list && f.keyNext then f.(keyNext := false, key := if text.Some? then text.value else AnyKey) else f
    case Hole(_) => if !f.list && f.keyNext then f.(keyNext := false) else f
    case Conditional | Iteration(_) => f.(shifted := f.list)
    case _ => f
  }

  lemma DirectlyAfter(tokens: seq<Token>, p: nat, n: nat, f: Frame)
    requires n < |tokens| && FrameIs(tokens, p, n, f) && In(tokens, p, n)
    ensures FrameIs(tokens, p, n + 1, FrameAfter(f, tokens[n]))
  {
    BlockInNext(tokens, p, n);
  }

  /** A container begins with nothing in it. */
  lemma {:induction false} NothingBefore(tokens: seq<Token>, p: nat, n: nat)
    requires n <= p + 1 <= |tokens|
    ensures Commas(tokens, p, n) == 0 && KeyAt(tokens, p, n) == Awaited && !BlockIn(tokens, p, n)
  {
    forall m: nat | m < n ensures !In(tokens, p, m) {
      AroundAscends(tokens, m);
    }
    if n > 0 {
      NothingBefore(tokens, p, n - 1);
    }
  }

  lemma Begins(tokens: seq<Token>, n: nat)
    requires n < |tokens| && (tokens[n].Open? || tokens[n].OpenList?)
    ensures FrameIs(tokens, n, n + 1, Frame(tokens[n].OpenList?, "", tokens[n].Open?, 0, false))
  {
    NothingBefore(tokens, n, n + 1);
  }

  /** The frames below the innermost one are as they were. */
  lemma BelowSame(tokens: seq<Token>, n: nat, s: State, k: nat)
    requires n < |tokens| && Told(tokens, n, s) && k < |s.stack|
    ensures k < |s.stack| - 1 ==> FrameIs(tokens, Around(tokens, n)[k], n + 1, s.stack[k])
    ensures k == |s.stack| - 1 ==> FrameIs(tokens, Around(tokens, n)[k], n + 1, FrameAfter(s.stack[k], tokens[n]))
  {
    AroundAscends(tokens, n);
    if k < |s.stack| - 1 {
      OutsideSame(tokens, Around(tokens, n)[k], n, s.stack[k]);
    } else {
      DirectlyAfter(tokens, Around(tokens, n)[k], n, s.stack[k]);
    }
  }

  function StackAfter(stack: seq<Frame>, t: Token): seq<Frame> {
    if t.Open? || t.OpenList? then stack + [Frame(t.OpenList?, "", t.Open?, 0, false)]
    else if stack == [] then []
    else if t.Close? || t.CloseList? then stack[..|stack| - 1]
    else stack[|stack| - 1 := FrameAfter(stack[|stack| - 1], t)]
  }

  lemma NextStack(s: State, t: Token)
    requires Next(s, t).Some?
    ensures Next(s, t).value.stack == StackAfter(s.stack, t)
    ensures Next(s, t).value.blocks == if OpensBlock(t) then s.blocks + 1
      else if t == EndBlock && s.blocks > 0 then s.blocks - 1 else s.blocks
  {
  }

  lemma ToldNext(tokens: seq<Token>, n: nat, s: State)
    requires n < |tokens| && Told(tokens, n, s) && Next(s, tokens[n]).Some?
    ensures Told(tokens, n + 1, Next(s, tokens[n]).value)
  {
    hide FrameIs, Next;
    var t, r := tokens[n], Next(s, tokens[n]).value;
    NextStack(s, t);
    var was, now := Around(tokens, n), Around(tokens, n + 1);
    forall k | 0 <= k < |r.stack| ensures FrameIs(tokens, now[k], n + 1, r.stack[k]) {
      if k < |s.stack| {
        BelowSame(tokens, n, s, k);
        assert now[k] == was[k];
        assert t.Open? || t.OpenList? ==> FrameAfter(s.stack[k], t) == s.stack[k];
      } else {
        Begins(tokens, n);
      }
    }
  }

  lemma TakesIff(tokens: seq<Token>, n: nat, s: State)
    requires n < |tokens| && Told(tokens, n, s)
    ensures Next(s, tokens[n]).Some? <==> Fits(tokens, n)
  {
    var around := Around(tokens, n);
    if around != [] {
      assert FrameIs(tokens, around[|around| - 1], n, s.stack[|around| - 1]);
    }
  }

  lemma PathsAre(tokens: seq<Token>, n: nat, s: State)
    requires n <= |tokens| && Told(tokens, n, s)
    ensures ValuePath(s.stack) == PathTo(tokens, n)
    ensures s.stack != [] ==> ContainerPath(s.stack) == OuterPath(tokens, n)
    ensures InBlock(s) <==> Uncertain(tokens, n)
    ensures s.stack != [] ==> (!Top(s.stack).list && Top(s.stack).keyNext <==> AsKey(tokens, n))
  {
    var around := Around(tokens, n);
    forall k | 0 <= k < |around|
      ensures Segment(s.stack[k]) == StepOf(tokens, around[k], n)
      ensures s.stack[k].shifted <==> IsArray(tokens, around[k]) && BlockIn(tokens, around[k], n) {
      assert FrameIs(tokens, around[k], n, s.stack[k]);
    }
    if s.stack != [] {
      assert FrameIs(tokens, around[|around| - 1], n, s.stack[|around| - 1]);
      assert ContainerPath(s.stack) == PathTo(tokens, n)[..|around| - 1];
    }
    assert ValuePath(s.stack) == PathTo(tokens, n);
  }

  lemma ReportsNext(tokens: seq<Token>, n: nat, s: State)
    requires n < |tokens| && Told(tokens, n, s) && Next(s, tokens[n]).Some?
    ensures Next(s, tokens[n]).value.events == s.events + ReportAt(tokens, n)
  {
    hide PathTo, OuterPath, Uncertain, AsKey, InBlock, ValuePath, ContainerPath;
    PathsAre(tokens, n, s);
    assert s.events + [] == s.events;
  }

  function Reports(tokens: seq<Token>, n: nat): seq<seq<Event>>
    requires n <= |tokens|
  {
    seq(n, m requires 0 <= m < n => ReportAt(tokens, m))
  }

  lemma {:induction false} ScanIs(tokens: seq<Token>, n: nat)
    requires n <= |tokens|
    ensures Scanned(Start, tokens, n).Some? <==> forall m :: 0 <= m < n ==> Fits(tokens, m)
    ensures Scanned(Start, tokens, n).Some? ==>
      Told(tokens, n, Scanned(Start, tokens, n).value)
      && Scanned(Start, tokens, n).value.events == Flatten(Reports(tokens, n))
  {
    hide Next, Told, Fits, ReportAt;
    if n == 0 {
      StartsTold(tokens);
    } else {
      ScanIs(tokens, n - 1);
      if Scanned(Start, tokens, n - 1).Some? {
        var s := Scanned(Start, tokens, n - 1).value;
        TakesIff(tokens, n - 1, s);
        if Next(s, tokens[n - 1]).Some? {
          ToldNext(tokens, n - 1, s);
          ReportsNext(tokens, n - 1, s);
          FlattenConcat(Reports(tokens, n - 1), [ReportAt(tokens, n - 1)]);
          FlattenOne(ReportAt(tokens, n - 1));
          assert Reports(tokens, n) == Reports(tokens, n - 1) + [ReportAt(tokens, n - 1)];
        }
      }
    }
  }

  lemma StartsTold(tokens: seq<Token>)
    ensures Told(tokens, 0, Start)
  {
  }

  /** The scan reads a text exactly when it begins with an object, every token fits where it is and every bracket
      closes; it then reports what each token reports, in order. */
  lemma ScanMeans(tokens: seq<Token>)
    ensures IsTemplate(tokens) <==>
      tokens != [] && tokens[0] == Open && (forall m :: 0 <= m < |tokens| ==> Fits(tokens, m))
      && Around(tokens, |tokens|) == []
    ensures IsTemplate(tokens) ==>
      Scanned(Start, tokens, |tokens|).value.events == Flatten(Reports(tokens, |tokens|))
  {
    hide Fits, ReportAt;
    ScanIs(tokens, |tokens|);
  }
}

/** What the scan of a JSON template without blocks reports (adapter/message_paths.go): each value of the
    template, at the path it has in the body. */
module TemplateTrees {
  import opened Decimals
  import opened JsonString
  import opened Sequences
  import opened TemplateScan

  /** A template: Str is a string with the placeholders in it, Lit a number, boolean or null, and Whole a
      placeholder where a value goes. */
  datatype Tree =
    | Object(members: Members)
    | List(elems: Elems)
    | Str(text: Option<string>, holes: seq<string>, whole: Option<string>)
    | Lit(kind: Kind)
    | Whole(name: string)

  datatype Members = NoMembers | Member(key: string, val: Tree, rest: Members)

  datatype Elems = NoElems | Elem(val: Tree, rest: Elems)

  // ---------- As text, and what is reported of it ----------

  function TokensOf(t: Tree): seq<Token> {
    match t
    case Object(members) => [Open] + (MemberTokens(members, true) + [Close])
    case List(elems) => [OpenList] + (ElemTokens(elems, true) + [CloseList])
    case Str(text, holes, whole) => [Text(text, holes, false, whole)]
    case Lit(kind) => [Bare(kind)]
    case Whole(name) => [Hole(name)]
  }

  function MemberTokens(m: Members, first: bool): seq<Token> {
    match m
    case NoMembers => []
    case Member(key, val, rest) =>
      Before(first) + ([Text(Some(key), [], false, None)] + (TokensOf(val) + MemberTokens(rest, false)))
  }

  function ElemTokens(e: Elems, first: bool): seq<Token> {
    match e
    case NoElems => []
    case Elem(val, rest) => Before(first) + (TokensOf(val) + ElemTokens(rest, false))
  }

  function Before(first: bool): seq<Token> {
    if first then [] else [Comma]
  }

  function EventsOf(t: Tree, path: Path): seq<Event> {
    match t
    case Object(members) => [Container(path, AnObject, false)] + MemberEvents(members, path)
    case List(elems) => [Container(path, AnArray, false)] + ElemEvents(elems, path, 0)
    case Str(text, holes, whole) =>
      if holes == [] then [Literal(path, AString, false)] else ForEach(holes, path, whole, false)
    case Lit(kind) => [Literal(path, kind, false)]
    case Whole(name) => [Placeholder(name, path, true, true, false)]
  }

  function MemberEvents(m: Members, path: Path): seq<Event> {
    match m
    case NoMembers => []
    case Member(key, val, rest) => EventsOf(val, path + [key]) + MemberEvents(rest, path)
  }

  function ElemEvents(e: Elems, path: Path, i: nat): seq<Event> {
    match e
    case NoElems => []
    case Elem(val, rest) => EventsOf(val, path + [DecimalText(i)]) + ElemEvents(rest, path, i + 1)
  }

  // ---------- The scan reports just that ----------

  lemma {:induction false} ScannedJoin(s: State, a: seq<Token>, b: seq<Token>, n: nat)
    requires n <= |b|
    ensures Scanned(s, a + b, |a| + n)
      == if Scanned(s, a, |a|) == None then None else Scanned(Scanned(s, a, |a|).value, b, n)
  {
    hide Next;
    if n == 0 {
      ScannedPrefix(s, a, b, |a|);
    } else {
      ScannedJoin(s, a, b, n - 1);
    }
  }

  lemma {:induction false} ScannedPrefix(s: State, a: seq<Token>, b: seq<Token>, n: nat)
    requires n <= |a|
    ensures Scanned(s, a + b, n) == Scanned(s, a, n)
  {
    hide Next;
    if n > 0 {
      ScannedPrefix(s, a, b, n - 1);
    }
  }

  /** The tokens take the scan from s to r. */
  predicate Takes(s: State, tokens: seq<Token>, r: State) {
    Scanned(s, tokens, |tokens|) == Some(r)
  }

  lemma TakesOne(s: State, t: Token)
    ensures Next(s, t).Some? ==> Takes(s, [t], Next(s, t).value)
  {
    hide Next;
    assert Scanned(s, [t], 0) == Some(s);
  }

  lemma TakesNone(s: State)
    ensures Takes(s, [], s)
  {
  }

  lemma TakesBoth(s: State, a: seq<Token>, m: State, b: seq<Token>, r: State)
    requires Takes(s, a, m) && Takes(m, b, r)
    ensures Takes(s, a + b, r)
  {
    ScannedJoin(s, a, b, |b|);
  }

  /** Neither in a block nor behind one. */
  predicate Plain(s: State) {
    s.blocks == 0 && forall i :: 0 <= i < |s.stack| ==> !s.stack[i].shifted
  }

  /** Where a value may come next. */
  predicate AtValue(s: State) {
    Plain(s) && s.stack != [] && (Top(s.stack).list || !Top(s.stack).keyNext)
  }

  function On(below: seq<Frame>, f: Frame, events: seq<Event>): State {
    State(below + [f], 0, events)
  }

  lemma TopOn(below: seq<Frame>, f: Frame, g: Frame)
    ensures Top(below + [f]) == f && WithTop(below + [f], g) == below + [g]
  {
  }

  predicate Unshifted(stack: seq<Frame>) {
    forall i :: 0 <= i < |stack| ==> !stack[i].shifted
  }

  lemma OnIsPlain(below: seq<Frame>, f: Frame, events: seq<Event>)
    ensures Plain(On(below, f, events)) <==> Unshifted(below) && !f.shifted
  {
    var s := On(below, f, events);
    assert s.stack[|below|] == f;
    forall i | 0 <= i < |below| ensures s.stack[i] == below[i] {
    }
  }

  lemma PathOn(below: seq<Frame>, f: Frame)
    ensures ValuePath(below + [f]) == ValuePath(below) + [Segment(f)]
  {
  }

  lemma {:induction false} ScansTree(s: State, t: Tree)
    requires AtValue(s)
    ensures Takes(s, TokensOf(t), Emitting(s, EventsOf(t, ValuePath(s.stack))))
    decreases t, 0
  {
    var path := ValuePath(s.stack);
    assert !InBlock(s);
    match t {
      case Object(members) =>
        var f := Frame(false, "", true, 0, false);
        var o := On(s.stack, f, s.events + [Container(path, AnObject, false)]);
        TakesOne(s, Open);
        var g := ScansMembers(o, members, true, s.stack, f);
        ClosesAgain(s, On(s.stack, g, o.events + MemberEvents(members, path)), Close);
        Encloses(s, Open, o, MemberTokens(members, true),
          On(s.stack, g, o.events + MemberEvents(members, path)), Close);
        Joins(s.events, [Container(path, AnObject, false)], MemberEvents(members, path));
      case List(elems) =>
        var f := Frame(true, "", false, 0, false);
        var o := On(s.stack, f, s.events + [Container(path, AnArray, false)]);
        TakesOne(s, OpenList);
        var g := ScansElems(o, elems, true, 0, s.stack, f);
        ClosesAgain(s, On(s.stack, g, o.events + ElemEvents(elems, path, 0)), CloseList);
        Encloses(s, OpenList, o, ElemTokens(elems, true),
          On(s.stack, g, o.events + ElemEvents(elems, path, 0)), CloseList);
        Joins(s.events, [Container(path, AnArray, false)], ElemEvents(elems, path, 0));
      case Str(text, holes, whole) => TakesOne(s, Text(text, holes, false, whole));
      case Lit(kind) => TakesOne(s, Bare(kind));
      case Whole(name) => TakesOne(s, Hole(name));
    }
  }

  lemma ClosesAgain(s: State, inner: State, t: Token)
    requires inner.stack != [] && inner.stack[..|inner.stack| - 1] == s.stack && inner.blocks == s.blocks
    requires (t.Close? && !Top(inner.stack).list) || (t.CloseList? && Top(inner.stack).list)
    ensures Next(inner, t) == Some(s.(events := inner.events))
  {
  }

  lemma Encloses(s: State, open: Token, o: State, inside: seq<Token>, m: State, close: Token)
    requires Takes(s, [open], o) && Takes(o, inside, m) && Next(m, close).Some?
    ensures Takes(s, [open] + (inside + [close]), Next(m, close).value)
  {
    hide Next, Takes;
    TakesOne(m, close);
    TakesBoth(o, inside, m, [close], Next(m, close).value);
    TakesBoth(s, [open], o, inside + [close], Next(m, close).value);
  }

  /** The members of an object, after its brace or after one of them. */
  lemma {:induction false} ScansMembers(s: State, m: Members, first: bool, below: seq<Frame>, f: Frame)
    returns (g: Frame)
    requires s == On(below, f, s.events) && Unshifted(below) && !f.shifted && !f.list && (first ==> f.keyNext)
    ensures !g.list && !g.shifted
      && Takes(s, MemberTokens(m, first), On(below, g, s.events + MemberEvents(m, ValuePath(below))))
    decreases m, 1
  {
    match m {
      case NoMembers =>
        g := f;
        TakesNone(s);
        assert s.events + [] == s.events;
      case Member(key, val, rest) =>
        var path := ValuePath(below);
        var a := if first then s else On(below, f.(keyNext := true, key := ""), s.events);
        var h := (if first then f else f.(keyNext := true, key := "")).(keyNext := false, key := key);
        var b := On(below, h, s.events);
        AfterComma(s, first, below, f, a);
        TopOn(below, if first then f else f.(keyNext := true, key := ""), h);
        AfterKey(a, key, below, b);
        PathOn(below, h);
        TopOn(below, h, h);
        OnIsPlain(below, h, s.events);
        ScansTree(b, val);
        var c := On(below, h, s.events + EventsOf(val, path + [key]));
        g := ScansMembers(c, rest, false, below, h);
        var d := On(below, g, c.events + MemberEvents(rest, path));
        FourParts(s, Before(first), a, [Text(Some(key), [], false, None)], b, TokensOf(val), c,
          MemberTokens(rest, false), d);
        Joins(s.events, EventsOf(val, path + [key]), MemberEvents(rest, path));
    }
  }

  lemma AfterComma(s: State, first: bool, below: seq<Frame>, f: Frame, a: State)
    requires s == On(below, f, s.events) && !f.list
      && a == if first then s else On(below, f.(keyNext := true, key := ""), s.events)
    ensures Takes(s, Before(first), a)
  {
    if first {
      TakesNone(s);
    } else {
      TopOn(below, f, f.(keyNext := true, key := ""));
      TakesOne(s, Comma);
    }
  }

  lemma AfterKey(a: State, key: string, below: seq<Frame>, b: State)
    requires a.stack != [] && a == On(below, Top(a.stack), a.events) && !Top(a.stack).list && Top(a.stack).keyNext
    requires b == On(below, Top(a.stack).(keyNext := false, key := key), a.events)
    ensures Takes(a, [Text(Some(key), [], false, None)], b)
  {
    TopOn(below, Top(a.stack), Top(a.stack).(keyNext := false, key := key));
    TakesOne(a, Text(Some(key), [], false, None));
  }

  lemma FourParts(s: State, t0: seq<Token>, a: State, t1: seq<Token>, b: State, t2: seq<Token>, c: State,
                  t3: seq<Token>, d: State)
    requires Takes(s, t0, a) && Takes(a, t1, b) && Takes(b, t2, c) && Takes(c, t3, d)
    ensures Takes(s, t0 + (t1 + (t2 + t3)), d)
  {
    hide Takes;
    TakesBoth(b, t2, c, t3, d);
    TakesBoth(a, t1, b, t2 + t3, d);
    TakesBoth(s, t0, a, t1 + (t2 + t3), d);
  }

  /** The elements of an array from the i-th on. */
  lemma {:induction false} ScansElems(s: State, e: Elems, first: bool, i: nat, below: seq<Frame>, f: Frame)
    returns (g: Frame)
    requires s == On(below, f, s.events) && Unshifted(below) && !f.shifted && f.list
      && f.index + (if first then 0 else 1) == i
    ensures g.list && !g.shifted
      && Takes(s, ElemTokens(e, first), On(below, g, s.events + ElemEvents(e, ValuePath(below), i)))
    decreases e, 1
  {
    match e {
      case NoElems =>
        g := f;
        TakesNone(s);
        assert s.events + [] == s.events;
      case Elem(val, rest) =>
        var path := ValuePath(below);
        var h := f.(index := i);
        var b := On(below, h, s.events);
        AfterElemComma(s, first, below, f, b, h);
        PathOn(below, h);
        TopOn(below, h, h);
        OnIsPlain(below, h, s.events);
        ScansTree(b, val);
        var c := On(below, h, s.events + EventsOf(val, path + [DecimalText(i)]));
        g := ScansElems(c, rest, false, i + 1, below, h);
        var d := On(below, g, c.events + ElemEvents(rest, path, i + 1));
        ThreeParts(s, Before(first), b, TokensOf(val), c, ElemTokens(rest, false), d);
        Joins(s.events, EventsOf(val, path + [DecimalText(i)]), ElemEvents(rest, path, i + 1));
    }
  }

  lemma AfterElemComma(s: State, first: bool, below: seq<Frame>, f: Frame, b: State, h: Frame)
    requires s == On(below, f, s.events) && f.list && h == f.(index := f.index + if first then 0 else 1)
      && b == On(below, h, s.events)
    ensures Takes(s, Before(first), b)
  {
    if first {
      TakesNone(s);
    } else {
      TopOn(below, f, h);
      TakesOne(s, Comma);
    }
  }

  lemma ThreeParts(s: State, t0: seq<Token>, b: State, t2: seq<Token>, c: State, t3: seq<Token>, d: State)
    requires Takes(s, t0, b) && Takes(b, t2, c) && Takes(c, t3, d)
    ensures Takes(s, t0 + (t2 + t3), d)
  {
    hide Takes;
    TakesBoth(b, t2, c, t3, d);
    TakesBoth(s, t0, b, t2 + t3, d);
  }

  /** A template without blocks is read whole, and its values reported in order, each at its path. */
  lemma ScanReports(m: Members)
    ensures Takes(Start, TokensOf(Object(m)), State([], 0, MemberEvents(m, [])))
    ensures TokensOf(Object(m))[0] == Open
  {
    var f := Frame(false, "", true, 0, false);
    var o := On([], f, []);
    assert [] + [f] == [f];
    TakesOne(Start, Open);
    var g := ScansMembers(o, m, true, [], f);
    assert ValuePath([]) == [] && [] + MemberEvents(m, []) == MemberEvents(m, []);
    ClosesAgain(Start, On([], g, MemberEvents(m, [])), Close);
    Encloses(Start, Open, o, MemberTokens(m, true), On([], g, MemberEvents(m, [])), Close);
  }
}

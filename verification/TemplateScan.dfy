/** The scan of a JSON template that finds the path of each value in it (adapter/message_paths.go). */
module TemplateScan {
  import opened Decimals
  import opened JsonString

  /** What the scan meets in the text: a string, with its text when it holds no tag, the inputs its placeholders
      name, whether some name an iteration's element, and the placeholder it is nothing but, if so; a bare
      literal; a placeholder outside a string; and the tags of blocks. */
  datatype Token =
    | Open | OpenList | Close | CloseList | Comma
    | Text(text: Option<string>, holes: seq<string>, elements: bool, whole: Option<string>)
    | Bare(kind: Kind)
    | Hole(name: string)
    | Conditional | Iteration(input: string) | EndBlock | Element

  datatype Kind = AString | ANumber | ABoolean | ANull | AnObject | AnArray

  /** An open object or array. shifted is whether a block in it may move its later elements. */
  datatype Frame = Frame(list: bool, key: string, keyNext: bool, index: nat, shifted: bool)

  /** A path is the keys and indexes from the outside in. */
  type Path = seq<string>

  datatype Event =
    | Placeholder(name: string, path: Path, whole: bool, bare: bool, inBlock: bool)
    | Literal(path: Path, kind: Kind, inBlock: bool)
    | Container(path: Path, kind: Kind, inBlock: bool)

  datatype State = State(stack: seq<Frame>, blocks: nat, events: seq<Event>)

  const Start := State([], 0, [])

  const AnyKey := "*"

  function Segment(f: Frame): string {
    if f.list then DecimalText(f.index) else f.key
  }

  /** Where the next value belongs. */
  function ValuePath(stack: seq<Frame>): Path {
    seq(|stack|, i requires 0 <= i < |stack| => Segment(stack[i]))
  }

  /** Where the innermost open object or array belongs. */
  function ContainerPath(stack: seq<Frame>): Path
    requires stack != []
  {
    ValuePath(stack[..|stack| - 1])
  }

  function Top(stack: seq<Frame>): Frame
    requires stack != []
  {
    stack[|stack| - 1]
  }

  function WithTop(stack: seq<Frame>, f: Frame): seq<Frame>
    requires stack != []
  {
    stack[|stack| - 1 := f]
  }

  predicate InBlock(s: State) {
    s.blocks > 0 || exists i :: 0 <= i < |s.stack| && s.stack[i].shifted
  }

  /** A placeholder for each of the names, all at one path. */
  function ForEach(names: seq<string>, path: Path, whole: Option<string>, inBlock: bool): seq<Event> {
    seq(|names|, i requires 0 <= i < |names| => Placeholder(names[i], path, whole == Some(names[i]), false, inBlock))
  }

  function Emitting(s: State, more: seq<Event>): State {
    s.(events := s.events + more)
  }

  function AfterText(s: State, t: Token): State
    requires t.Text? && s.stack != []
  {
    var f := Top(s.stack);
    if !f.list && f.keyNext then
      if t.text.Some? then s.(stack := WithTop(s.stack, f.(keyNext := false, key := t.text.value)))
      else
        Emitting(s, ForEach(t.holes, ContainerPath(s.stack) + [AnyKey], None, InBlock(s)))
          .(stack := WithTop(s.stack, f.(keyNext := false, key := AnyKey)))
    else if t.holes == [] && !t.elements then Emitting(s, [Literal(ValuePath(s.stack), AString, InBlock(s))])
    else Emitting(s, ForEach(t.holes, ValuePath(s.stack), t.whole, InBlock(s)))
  }

  function AfterHole(s: State, name: string): State
    requires s.stack != []
  {
    var f := Top(s.stack);
    if !f.list && f.keyNext then
      Emitting(s, [Placeholder(name, ContainerPath(s.stack) + [AnyKey], false, false, InBlock(s))])
        .(stack := WithTop(s.stack, f.(keyNext := false)))
    else Emitting(s, [Placeholder(name, ValuePath(s.stack), true, true, InBlock(s))])
  }

  function Opening(s: State, kind: Kind): State {
    var at := if s.stack == [] then s else Emitting(s, [Container(ValuePath(s.stack), kind, InBlock(s))]);
    at.(stack := s.stack + [Frame(kind == AnArray, "", kind == AnObject, 0, false)])
  }

  /** What the scan may meet before it is in any object. */
  predicate Outermost(t: Token) {
    t.Open? || t.OpenList? || t.Bare?
  }

  /** The scan after one token; none where the text is no object with placeholders in it. */
  function Next(s: State, t: Token): Option<State> {
    if t.Open? then Some(Opening(s, AnObject))
    else if t.OpenList? then Some(Opening(s, AnArray))
    else if s.stack == [] then (if t.Bare? then Some(s) else None)
    else Inside(s, t)
  }

  function Inside(s: State, t: Token): Option<State>
    requires s.stack != [] && !t.Open? && !t.OpenList?
  {
    var f := Top(s.stack);
    match t
    case Bare(kind) => Some(Emitting(s, [Literal(ValuePath(s.stack), kind, InBlock(s))]))
    case Text(_, _, _, _) => Some(AfterText(s, t))
    case Hole(name) => Some(AfterHole(s, name))
    case Comma => Some(s.(stack := WithTop(s.stack,
      if f.list then f.(index := f.index + 1) else f.(keyNext := true, key := ""))))
    case Conditional => Some(s.(blocks := s.blocks + 1, stack := WithTop(s.stack, f.(shifted := f.list))))
    case Iteration(input) => Some(AfterIteration(s, input))
    case EndBlock => Some(s.(blocks := if s.blocks > 0 then s.blocks - 1 else 0))
    case Element => Some(s)
    case Close => if f.list then None else Some(s.(stack := s.stack[..|s.stack| - 1]))
    case CloseList => if f.list then Some(s.(stack := s.stack[..|s.stack| - 1])) else None
  }

  /** The list of an iteration fills the array or object its block is in. */
  function AfterIteration(s: State, input: string): State
    requires s.stack != []
  {
    var f := Top(s.stack);
    Emitting(s, [Placeholder(input, ContainerPath(s.stack), false, false, InBlock(s))])
      .(blocks := s.blocks + 1, stack := WithTop(s.stack, f.(shifted := f.list)))
  }

  /** The scan after the first n tokens. */
  function Scanned(s: State, tokens: seq<Token>, n: nat): Option<State>
    requires n <= |tokens|
  {
    if n == 0 then Some(s)
    else
      var before := Scanned(s, tokens, n - 1);
      if before == None then None else Next(before.value, tokens[n - 1])
  }

  // ---------- As it runs ----------

  /** The tokens are an object, with placeholders in it, whose containers all close. */
  predicate IsTemplate(tokens: seq<Token>) {
    && tokens != [] && tokens[0] == Open
    && Scanned(Start, tokens, |tokens|).Some?
    && Scanned(Start, tokens, |tokens|).value.stack == []
  }

  /** What is met in the tokens of an object with placeholders in it; none if they are no such object. */
  method ScanJSONTemplate(tokens: seq<Token>) returns (met: Option<seq<Event>>)
    ensures met == if IsTemplate(tokens) then Some(Scanned(Start, tokens, |tokens|).value.events) else None
  {
    var stack: seq<Frame>, blocks: nat, events: seq<Event> := [], 0, [];
    if tokens == [] || tokens[0] != Open {
      return None;
    }
    hide Next;
    for i := 0 to |tokens|
      invariant Scanned(Start, tokens, i) == Some(State(stack, blocks, events))
    {
      var taken;
      taken, stack, blocks, events := Take(stack, blocks, events, tokens[i]);
      if !taken {
        StaysFailed(Start, tokens, i + 1, |tokens|);
        return None;
      }
    }
    met := if stack == [] then Some(events) else None;
  }

  method Take(stack: seq<Frame>, blocks: nat, events: seq<Event>, t: Token)
    returns (ok: bool, stack': seq<Frame>, blocks': nat, events': seq<Event>)
    ensures Next(State(stack, blocks, events), t) == if ok then Some(State(stack', blocks', events')) else None
  {
    ok, stack', blocks', events' := true, stack, blocks, events;
    if stack == [] && !Outermost(t) {
      ok := false;
    } else if t.Close? || t.CloseList? {
      if Top(stack).list != t.CloseList? {
        ok := false;
      } else {
        stack' := stack[..|stack| - 1];
      }
    } else {
      stack', blocks', events' := Met(stack, blocks, events, t);
    }
  }

  /** A token that does not close anything. */
  method Met(stack: seq<Frame>, blocks: nat, events: seq<Event>, t: Token)
    returns (stack': seq<Frame>, blocks': nat, events': seq<Event>)
    requires !t.Close? && !t.CloseList? && (stack == [] ==> Outermost(t))
    ensures Next(State(stack, blocks, events), t) == Some(State(stack', blocks', events'))
  {
    stack', blocks', events' := stack, blocks, events;
    var inBlock := InBlock(State(stack, blocks, events));
    match t {
      case Open | OpenList =>
        if stack != [] {
          events' := events + [Container(ValuePath(stack), if t.Open? then AnObject else AnArray, inBlock)];
        }
        stack' := stack + [Frame(t.OpenList?, "", t.Open?, 0, false)];
      case Bare(kind) =>
        if stack != [] {
          events' := events + [Literal(ValuePath(stack), kind, inBlock)];
        }
      case Comma =>
        var f := Top(stack);
        stack' := WithTop(stack, if f.list then f.(index := f.index + 1) else f.(keyNext := true, key := ""));
      case Conditional =>
        blocks', stack' := blocks + 1, WithTop(stack, Top(stack).(shifted := Top(stack).list));
      case Iteration(input) =>
        events' := events + [Placeholder(input, ContainerPath(stack), false, false, inBlock)];
        blocks', stack' := blocks + 1, WithTop(stack, Top(stack).(shifted := Top(stack).list));
      case EndBlock =>
        if blocks > 0 {
          blocks' := blocks - 1;
        }
      case Element =>
      case Hole(name) =>
        if !Top(stack).list && Top(stack).keyNext {
          events' := events + [Placeholder(name, ContainerPath(stack) + [AnyKey], false, false, inBlock)];
          stack' := WithTop(stack, Top(stack).(keyNext := false));
        } else {
          events' := events + [Placeholder(name, ValuePath(stack), true, true, inBlock)];
        }
      case Text(_, _, _, _) =>
        var n := AfterText(State(stack, blocks, events), t);
        stack', events' := n.stack, n.events;
    }
  }

  lemma {:induction false} StaysFailed(s: State, tokens: seq<Token>, i: nat, n: nat)
    requires i <= n <= |tokens| && Scanned(s, tokens, i) == None
    ensures Scanned(s, tokens, n) == None
    decreases n
  {
    hide Next;
    if i < n {
      StaysFailed(s, tokens, i, n - 1);
    }
  }
}

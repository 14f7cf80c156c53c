/** The scanner that follows a template's literal text and escapes each value for the position it fills
    (adapter/render.go contextScanner). */
module Scanner {
  import opened Bytes
  import opened Sequences
  import opened UrlEscape
  import opened Values

  datatype Context = RawText | PathText | JsonBody | FormBody

  /** segment is the literal text since the last "?" or "&", and valued whether a value was inserted
      since; inString and escaped are about JSON string literals. */
  datatype State = State(inQuery: bool, segment: Bytes, valued: bool, inString: bool, escaped: bool)

  const Start := State(false, [], false, false, false)

  const QUESTION: byte := 63

  // ---------- Literal text ----------

  function FedJson(s: State, c: byte): State {
    if s.escaped then s.(escaped := false)
    else if s.inString && c == BACKSLASH then s.(escaped := true)
    else if c == QUOTE then s.(inString := !s.inString)
    else s
  }

  function FedPair(ctx: Context, s: State, c: byte): State {
    if ctx.PathText? && !s.inQuery then s.(inQuery := c == QUESTION)
    else if c == AMPERSAND then s.(segment := [], valued := false)
    else s.(segment := s.segment + [c])
  }

  function FedByte(ctx: Context, s: State, c: byte): State {
    match ctx
    case RawText => s
    case JsonBody => FedJson(s, c)
    case _ => FedPair(ctx, s, c)
  }

  /** The state after the first n bytes of literal. */
  function Fed(ctx: Context, s: State, literal: Bytes, n: nat): State
    requires n <= |literal|
  {
    if n == 0 then s else FedByte(ctx, Fed(ctx, s, literal, n - 1), literal[n - 1])
  }

  // ---------- Values ----------

  function FormatAll(elems: seq<Val>, query: bool): seq<Bytes>
  {
    seq(|elems|, i requires 0 <= i < |elems| =>
      if query then QueryEscape(FormatValue(elems[i])) else PathEscape(FormatValue(elems[i])))
  }

  /** A list's elements escaped and joined; any other value escaped whole. */
  function EscapeList(v: Val, query: bool, separator: Bytes): Bytes
  {
    if v.List? then Join(FormatAll(v.elems, query), separator)
    else if query then QueryEscape(FormatValue(v))
    else PathEscape(FormatValue(v))
  }

  /** Whether a list here repeats its key: right after key=, with nothing else in the pair. */
  predicate AfterKey(s: State) {
    && !s.valued && |s.segment| > 1 && s.segment[|s.segment| - 1] == EQUALS
    && EQUALS !in s.segment[..|s.segment| - 1]
  }

  function Separator(s: State): Bytes {
    if AfterKey(s) then [AMPERSAND] + s.segment else [COMMA]
  }

  function Rendered(ctx: Context, s: State, v: Val): Bytes
  {
    match ctx
    case RawText => FormatValue(v)
    case JsonBody => if s.inString then JsonStringContent(FormatValue(v)) else JsonValue(v)
    case PathText => if s.inQuery then EscapeList(v, true, Separator(s)) else EscapeList(v, false, [COMMA])
    case FormBody => EscapeList(v, true, Separator(s))
  }

  function AfterValue(ctx: Context, s: State): State {
    if ctx.FormBody? || (ctx.PathText? && s.inQuery) then s.(valued := true) else s
  }

  class ContextScanner {
    const ctx: Context
    var inQuery: bool
    var segment: Bytes
    var valued: bool
    var inString: bool
    var escaped: bool

    function Now(): State
      reads this
    {
      State(inQuery, segment, valued, inString, escaped)
    }

    constructor (c: Context)
      ensures ctx == c && Now() == Start
    {
      ctx, inQuery, segment, valued, inString, escaped := c, false, [], false, false, false;
    }

    /** Follows literal text; a substituted value is never fed. */
    method Feed(literal: Bytes)
      modifies this
      ensures Now() == Fed(ctx, old(Now()), literal, |literal|)
    {
      for i := 0 to |literal|
        invariant Now() == Fed(ctx, old(Now()), literal, i)
      {
        match ctx {
          case PathText => FeedPair(literal[i]);
          case FormBody => FeedPair(literal[i]);
          case JsonBody => FeedJson(literal[i]);
          case RawText =>
        }
      }
    }

    method FeedPair(c: byte)
      requires ctx.PathText? || ctx.FormBody?
      modifies this
      ensures Now() == FedPair(ctx, old(Now()), c)
    {
      if ctx.PathText? && !inQuery {
        inQuery := c == QUESTION;
      } else if c == AMPERSAND {
        segment, valued := [], false;
      } else {
        segment := segment + [c];
      }
    }

    method FeedJson(c: byte)
      modifies this
      ensures Now() == FedJson(old(Now()), c)
    {
      if escaped {
        escaped := false;
      } else if inString && c == BACKSLASH {
        escaped := true;
      } else if c == QUOTE {
        inString := !inString;
      }
    }

    method Escape(v: Val) returns (text: Bytes)
      modifies this
      ensures text == Rendered(ctx, old(Now()), v) && Now() == AfterValue(ctx, old(Now()))
    {
      match ctx {
        case PathText =>
          if !inQuery {
            text := EscapeList(v, false, [COMMA]);
          } else {
            text := EscapePair(v);
          }
        case FormBody => text := EscapePair(v);
        case JsonBody => text := if inString then JsonStringContent(FormatValue(v)) else JsonValue(v);
        case RawText => text := FormatValue(v);
      }
    }

    /** Joins a list with its repeated key where that is all the pair holds, and with commas elsewhere. */
    method EscapePair(v: Val) returns (text: Bytes)
      modifies this`valued
      ensures text == EscapeList(v, true, Separator(old(Now()))) && Now() == old(Now()).(valued := true)
    {
      var sep: Bytes := [COMMA];
      if |segment| > 0 && segment[|segment| - 1] == EQUALS {
        var key := segment[..|segment| - 1];
        if key != [] && !valued && EQUALS !in key {
          sep := [AMPERSAND] + (key + [EQUALS]);
          assert key + [EQUALS] == segment;
        }
      }
      valued := true;
      text := EscapeList(v, true, sep);
    }
  }
}

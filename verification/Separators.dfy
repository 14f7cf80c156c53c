/** What joins the copies an iteration block comes to (adapter/template.go iterationSeparator), and why the
    numbers of the element placeholders written before the block make no difference to it. */
module Separators {
  import opened Bytes
  import opened Decimals
  import opened Scanner
  import opened Template

  // ---------- The text of a template ----------

  const OPEN: byte := 123

  /** The text between a tag's braces. */
  function TagText(t: Tag): Bytes {
    match t
    case Lit(text) => text
    case Placeholder(Input(name)) => name
    case Placeholder(Element(n)) => [0] + Decimal(n)
    case DotField(f) => [46] + f
    case Dot => [46]
    case Index => [64, 105, 110, 100, 101, 120]
    case Close(name) => [47] + Sequences.Join(name, [124])
    case CondOpen(name) => [63] + Sequences.Join(name, [124])
    case IterOpen(name) => [35] + Sequences.Join(name, [124])
  }

  function SourceOf(t: Tag): Bytes {
    if t.Lit? then t.text else [OPEN, OPEN] + TagText(t) + [125, 125]
  }

  function SourceTo(tags: seq<Tag>, n: nat): Bytes
    requires n <= |tags|
  {
    if n == 0 then [] else SourceTo(tags, n - 1) + SourceOf(tags[n - 1])
  }

  function Source(tags: seq<Tag>): Bytes {
    SourceTo(tags, |tags|)
  }

  lemma {:induction false} SourcePrefix(a: seq<Tag>, b: seq<Tag>, n: nat)
    requires n <= |a|
    ensures SourceTo(a + b, n) == SourceTo(a, n)
  {
    hide SourceOf;
    if n > 0 {
      SourcePrefix(a, b, n - 1);
      assert (a + b)[n - 1] == a[n - 1];
    }
  }

  lemma {:induction false} SourceConcat(a: seq<Tag>, b: seq<Tag>, n: nat)
    requires n <= |b|
    ensures SourceTo(a + b, |a| + n) == Source(a) + SourceTo(b, n)
  {
    hide SourceOf;
    if n == 0 {
      SourcePrefix(a, b, |a|);
      assert Source(a) + [] == Source(a);
    } else {
      SourceConcat(a, b, n - 1);
      assert (a + b)[|a| + n - 1] == b[n - 1];
      Sequences.Joins(Source(a), SourceTo(b, n - 1), SourceOf(b[n - 1]));
    }
  }

  lemma SourceJoined(a: seq<Tag>, b: seq<Tag>)
    ensures Source(a + b) == Source(a) + Source(b)
  {
    SourceConcat(a, b, |b|);
  }

  lemma SourceOne(t: Tag)
    ensures Source([t]) == SourceOf(t)
  {
    assert SourceTo([t], 0) + SourceOf(t) == SourceOf(t);
  }

  // ---------- White space ----------

  /** Three bytes that are a space in UTF-8. */
  predicate IsWideSpace(a: byte, b: byte, c: byte) {
    || (a == 0xE1 && b == 0x9A && c == 0x80)
    || (a == 0xE2 && b == 0x80 && (0x80 <= c <= 0x8A || c == 0xA8 || c == 0xA9 || c == 0xAF))
    || (a == 0xE2 && b == 0x81 && c == 0x9F)
    || (a == 0xE3 && b == 0x80 && c == 0x80)
  }

  predicate IsSpacing(s: Bytes) {
    || (|s| == 1 && (9 <= s[0] <= 13 || s[0] == SPACE))
    || (|s| == 2 && s[0] == 0xC2 && (s[1] == 0x85 || s[1] == 0xA0))
    || (|s| == 3 && IsWideSpace(s[0], s[1], s[2]))
  }

  /** How many bytes the white space s begins with takes; none when it begins with none. */
  function SpaceBefore(s: Bytes): (n: nat)
    ensures n <= |s| && (n > 0 ==> IsSpacing(s[..n]))
  {
    if |s| > 0 && IsSpacing(s[..1]) then 1
    else if |s| > 1 && IsSpacing(s[..2]) then 2 else if |s| > 2 && IsSpacing(s[..3]) then 3 else 0
  }

  function SpaceAfter(s: Bytes): (n: nat)
    ensures n <= |s| && (n > 0 ==> IsSpacing(s[|s| - n..]))
  {
    if |s| > 0 && IsSpacing(s[|s| - 1..]) then 1
    else if |s| > 1 && IsSpacing(s[|s| - 2..]) then 2 else if |s| > 2 && IsSpacing(s[|s| - 3..]) then 3 else 0
  }

  function TrimStart(s: Bytes): Bytes
    decreases |s|
  {
    if SpaceBefore(s) > 0 then TrimStart(s[SpaceBefore(s)..]) else s
  }

  function TrimEnd(s: Bytes): Bytes
    decreases |s|
  {
    if SpaceAfter(s) > 0 then TrimEnd(s[..|s| - SpaceAfter(s)]) else s
  }

  function TrimSpace(s: Bytes): Bytes {
    TrimEnd(TrimStart(s))
  }

  lemma {:induction false} TrimStartKeeps(s: Bytes, b: byte)
    requires b in s && 32 < b < 128
    ensures b in TrimStart(s)
    decreases |s|
  {
    var n := SpaceBefore(s);
    if n > 0 {
      assert s == s[..n] + s[n..];
      assert b !in s[..n];
      TrimStartKeeps(s[n..], b);
    }
  }

  lemma {:induction false} TrimEndKeeps(s: Bytes, b: byte)
    requires b in s && 32 < b < 128
    ensures b in TrimEnd(s)
    decreases |s|
  {
    var n := SpaceAfter(s);
    if n > 0 {
      assert s == s[..|s| - n] + s[|s| - n..];
      assert b !in s[|s| - n..];
      TrimEndKeeps(s[..|s| - n], b);
    }
  }

  lemma TrimKeeps(s: Bytes, b: byte)
    requires b in s && 32 < b < 128
    ensures b in TrimSpace(s)
  {
    TrimStartKeeps(s, b);
    TrimEndKeeps(TrimStart(s), b);
  }

  // ---------- The separator ----------

  /** The text after the last b, or the whole of it. */
  function AfterLast(s: Bytes, b: byte): Bytes {
    if s == [] then [] else if s[|s| - 1] == b then [] else AfterLast(s[..|s| - 1], b) + [s[|s| - 1]]
  }

  /** The text after the first b, where there is one. */
  function AfterFirst(s: Bytes, b: byte): Bytes {
    if s == [] then [] else if s[0] == b then s[1..] else AfterFirst(s[1..], b)
  }

  function PairSeparator(pair: Bytes, body: Bytes): Bytes {
    var trimmed := TrimSpace(body);
    if trimmed != [] && (trimmed[0] == AMPERSAND || trimmed[|trimmed| - 1] == AMPERSAND) then []
    else if TrimSpace(pair) == [] && EQUALS in body then [AMPERSAND]
    else [COMMA]
  }

  /** What joins the copies of body behind the text before. */
  function IterationSeparator(ctx: Context, before: Bytes, body: Bytes): Bytes {
    match ctx
    case FormBody => PairSeparator(AfterLast(before, AMPERSAND), body)
    case PathText =>
      if QUESTION in before then PairSeparator(AfterLast(AfterFirst(before, QUESTION), AMPERSAND), body) else [COMMA]
    case _ => [COMMA]
  }

  lemma {:induction false} AfterLastOf(s: Bytes, t: Bytes, b: byte)
    ensures AfterLast(s + t, b) == if b in t then AfterLast(t, b) else AfterLast(s, b) + t
  {
    if t == [] {
      assert s + t == s && AfterLast(s, b) + t == AfterLast(s, b);
    } else {
      var n := |t| - 1;
      assert (s + t)[..|s + t| - 1] == s + t[..n];
      assert t == t[..n] + [t[n]];
      AfterLastOf(s, t[..n], b);
      Sequences.Joins(AfterLast(s, b), t[..n], [t[n]]);
    }
  }

  lemma {:induction false} AfterFirstOf(s: Bytes, t: Bytes, b: byte)
    ensures AfterFirst(s + t, b) == if b in s then AfterFirst(s, b) + t else AfterFirst(t, b)
  {
    if s == [] {
      assert s + t == t;
    } else {
      assert (s + t)[1..] == s[1..] + t;
      assert s == [s[0]] + s[1..];
      AfterFirstOf(s[1..], t, b);
    }
  }

  // ---------- Texts that look alike ----------

  /** Whatever follows them, a and b decide on the same separators. */
  ghost predicate Alike(ctx: Context, a: Bytes, b: Bytes) {
    forall x, body :: IterationSeparator(ctx, a + x, body) == IterationSeparator(ctx, b + x, body)
  }

  function Token(n: nat): Bytes {
    SourceOf(Placeholder(Element(n)))
  }

  lemma {:induction false} DecimalsAreDigits(n: nat)
    ensures forall i :: 0 <= i < |Decimal(n)| ==> 48 <= Decimal(n)[i] <= 57
  {
    if n >= 10 {
      DecimalsAreDigits(n / 10);
    }
  }

  lemma TokenIsPlain(n: nat)
    ensures OPEN in Token(n) && AMPERSAND !in Token(n) && QUESTION !in Token(n)
  {
    DecimalsAreDigits(n);
    assert Token(n)[0] == OPEN;
  }

  /** Two pairs that go on alike after an element placeholder. */
  lemma PairsAlike(s: Bytes, m: nat, n: nat, x: Bytes, body: Bytes)
    ensures PairSeparator(AfterLast(s + (Token(m) + x), AMPERSAND), body)
      == PairSeparator(AfterLast(s + (Token(n) + x), AMPERSAND), body)
  {
    forall k | k == m || k == n
      ensures AfterLast(s + (Token(k) + x), AMPERSAND)
        == if AMPERSAND in x then AfterLast(x, AMPERSAND) else AfterLast(s, AMPERSAND) + (Token(k) + x)
      ensures AMPERSAND !in x ==> TrimSpace(AfterLast(s + (Token(k) + x), AMPERSAND)) != []
    {
      TokenIsPlain(k);
      AfterLastOf(s, Token(k) + x, AMPERSAND);
      AfterLastOf(Token(k), x, AMPERSAND);
      if AMPERSAND !in x {
        TrimKeeps(AfterLast(s, AMPERSAND) + (Token(k) + x), OPEN);
      }
    }
  }

  lemma TokensAlike(ctx: Context, s: Bytes, m: nat, n: nat, x: Bytes, body: Bytes)
    ensures IterationSeparator(ctx, s + (Token(m) + x), body) == IterationSeparator(ctx, s + (Token(n) + x), body)
  {
    PairsAlike(s, m, n, x, body);
    if ctx.PathText? {
      forall k | k == m || k == n
        ensures QUESTION in s + (Token(k) + x) <==> QUESTION in s || QUESTION in x
        ensures AfterFirst(s + (Token(k) + x), QUESTION)
          == if QUESTION in s then AfterFirst(s, QUESTION) + (Token(k) + x) else AfterFirst(x, QUESTION)
      {
        TokenIsPlain(k);
        AfterFirstOf(s, Token(k) + x, QUESTION);
        AfterFirstOf(Token(k), x, QUESTION);
      }
      PairsAlike(AfterFirst(s, QUESTION), m, n, x, body);
    }
  }

  lemma AlikeMore(ctx: Context, a: Bytes, b: Bytes, t: Bytes)
    requires Alike(ctx, a, b)
    ensures Alike(ctx, a + t, b + t)
  {
    forall x, body ensures IterationSeparator(ctx, a + t + x, body) == IterationSeparator(ctx, b + t + x, body) {
      Sequences.Joins(a, t, x);
      Sequences.Joins(b, t, x);
    }
  }

  lemma AlikeToken(ctx: Context, a: Bytes, b: Bytes, m: nat, n: nat)
    requires Alike(ctx, a, b)
    ensures Alike(ctx, a + Token(m), b + Token(n))
  {
    forall x, body ensures IterationSeparator(ctx, a + Token(m) + x, body)
        == IterationSeparator(ctx, b + Token(n) + x, body) {
      Sequences.Joins(a, Token(m), x);
      Sequences.Joins(b, Token(n), x);
      TokensAlike(ctx, b, m, n, x, body);
    }
  }

  lemma AlikeSeparate(ctx: Context, a: Bytes, b: Bytes, body: Bytes)
    requires Alike(ctx, a, b)
    ensures IterationSeparator(ctx, a, body) == IterationSeparator(ctx, b, body)
  {
    assert a + [] == a && b + [] == b;
  }

  // ---------- Bodies that look alike ----------

  const SHUT: byte := 125

  /** Text that begins and ends with a placeholder. */
  predicate Braced(m: Bytes) {
    |m| >= 2 && m[0] == OPEN && m[|m| - 1] == SHUT
  }

  /** x and y are the same text up to where their first placeholders begin, and from where their last end. */
  ghost predicate SameEnds(u: Bytes, m: Bytes, n: Bytes, w: Bytes, x: Bytes, y: Bytes) {
    x == u + m + w && y == u + n + w && Braced(m) && Braced(n) && (EQUALS in m <==> EQUALS in n)
  }

  ghost predicate Like(x: Bytes, y: Bytes) {
    x == y || exists u, m, n, w :: SameEnds(u, m, n, w, x, y)
  }

  lemma {:induction false} TrimStartStops(u: Bytes, r: Bytes)
    requires r != [] && r[0] == OPEN
    ensures TrimStart(u + r) == TrimStart(u) + r
    decreases |u|
  {
    SpaceStops(u, r);
    var k := SpaceBefore(u);
    if k > 0 {
      assert (u + r)[k..] == u[k..] + r;
      TrimStartStops(u[k..], r);
    }
  }

  lemma SpaceStops(u: Bytes, r: Bytes)
    requires r != [] && r[0] == OPEN
    ensures SpaceBefore(u + r) == SpaceBefore(u)
  {
    hide IsSpacing;
    SpacingStops(u, r, 1);
    SpacingStops(u, r, 2);
    SpacingStops(u, r, 3);
  }

  lemma SpacingStops(u: Bytes, r: Bytes, k: nat)
    requires r != [] && r[0] == OPEN && k > 0
    ensures (k <= |u + r| && IsSpacing((u + r)[..k])) <==> (k <= |u| && IsSpacing(u[..k]))
  {
    if k <= |u| {
      assert (u + r)[..k] == u[..k];
    } else if k <= |u + r| {
      assert (u + r)[..k][|u|] == OPEN;
    }
  }

  lemma {:induction false} TrimEndStops(r: Bytes, w: Bytes)
    requires r != [] && r[|r| - 1] == SHUT
    ensures TrimEnd(r + w) == r + TrimEnd(w)
    decreases |w|
  {
    SpaceStopsBack(r, w);
    var k := SpaceAfter(w);
    if k > 0 {
      assert (r + w)[..|r + w| - k] == r + w[..|w| - k];
      TrimEndStops(r, w[..|w| - k]);
    }
  }

  lemma SpaceStopsBack(r: Bytes, w: Bytes)
    requires r != [] && r[|r| - 1] == SHUT
    ensures SpaceAfter(r + w) == SpaceAfter(w)
  {
    hide IsSpacing;
    SpacingStopsBack(r, w, 1);
    SpacingStopsBack(r, w, 2);
    SpacingStopsBack(r, w, 3);
  }

  lemma SpacingStopsBack(r: Bytes, w: Bytes, k: nat)
    requires r != [] && r[|r| - 1] == SHUT && k > 0
    ensures (k <= |r + w| && IsSpacing((r + w)[|r + w| - k..])) <==> (k <= |w| && IsSpacing(w[|w| - k..]))
  {
    var n := |r + w|;
    if k <= |w| {
      assert (r + w)[n - k..] == w[|w| - k..];
    } else if k <= n {
      assert (r + w)[n - k..][k - |w| - 1] == SHUT;
    }
  }

  lemma TrimAround(u: Bytes, m: Bytes, w: Bytes)
    requires Braced(m)
    ensures TrimSpace(u + m + w) == TrimStart(u) + m + TrimEnd(w)
  {
    Sequences.Joins(u, m, w);
    TrimStartStops(u, m + w);
    Sequences.Joins(TrimStart(u), m, w);
    TrimEndStops(TrimStart(u) + m, w);
  }

  /** Bodies that look alike are joined alike. */
  lemma LikeSeparate(ctx: Context, before: Bytes, x: Bytes, y: Bytes)
    requires Like(x, y)
    ensures IterationSeparator(ctx, before, x) == IterationSeparator(ctx, before, y)
  {
    hide TrimStart, TrimEnd, TrimSpace, AfterLast, AfterFirst;
    if x != y {
      var u, m, n, w :| SameEnds(u, m, n, w, x, y);
      TrimAround(u, m, w);
      TrimAround(u, n, w);
      EndsOf(TrimStart(u), m, TrimEnd(w));
      EndsOf(TrimStart(u), n, TrimEnd(w));
      assert EQUALS in x <==> EQUALS in y;
    }
  }

  lemma EndsOf(u: Bytes, m: Bytes, w: Bytes)
    requires Braced(m)
    ensures var x := u + m + w;
      x != [] && x[0] == (if u == [] then OPEN else u[0]) && x[|x| - 1] == (if w == [] then SHUT else w[|w| - 1])
  {
  }

  lemma LikeMore(x: Bytes, y: Bytes, t: Bytes)
    requires Like(x, y)
    ensures Like(x + t, y + t)
  {
    if x != y {
      var u, m, n, w :| SameEnds(u, m, n, w, x, y);
      Sequences.Joins(u + m, w, t);
      Sequences.Joins(u + n, w, t);
      assert SameEnds(u, m, n, w + t, x + t, y + t);
    }
  }

  lemma LikeToken(x: Bytes, y: Bytes, m: nat, n: nat)
    requires Like(x, y)
    ensures Like(x + Token(m), y + Token(n))
  {
    TokenIsBraced(m);
    TokenIsBraced(n);
    if x == y {
      assert x + Token(m) + [] == x + Token(m) && x + Token(n) + [] == x + Token(n);
      assert SameEnds(x, Token(m), Token(n), [], x + Token(m), x + Token(n));
    } else {
      var u, a, b, w :| SameEnds(u, a, b, w, x, y);
      TokenBehind(u, a, w, Token(m));
      TokenBehind(u, b, w, Token(n));
      assert SameEnds(u, a + w + Token(m), b + w + Token(n), [], x + Token(m), y + Token(n));
    }
  }

  lemma TokenBehind(u: Bytes, a: Bytes, w: Bytes, t: Bytes)
    requires Braced(a) && Braced(t)
    ensures u + a + w + t == u + (a + w + t) + [] && Braced(a + w + t)
  {
    assert u + a + w + t == u + (a + w + t);
  }

  lemma TokenIsBraced(n: nat)
    ensures Braced(Token(n)) && EQUALS !in Token(n)
  {
    DecimalsAreDigits(n);
  }
}

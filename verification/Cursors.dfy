/** The cursors of a paging step: read from a response, sent in a request, and told apart (engine/repeat.go). */
module Cursors {
  import opened Ampersands
  import opened Bytes
  import opened Sequences

  /** A value a response gave or a request sends, as paging and collecting tell values apart. */
  datatype Out = Null | Text(s: Bytes) | Whole(i: int) | Fraction(r: real) | ListOf(items: seq<Out>)
    | Other(text: Bytes)

  type Outs = map<Bytes, Out>

  /** One entry of a next map: the input it sets, and the output it sets it from. */
  datatype Link = Link(input: Bytes, output: Bytes)

  /** A next map's entries in the order of their inputs' names, which are distinct. */
  ghost predicate LinksOk(next: seq<Link>) {
    forall i, j :: 0 <= i < j < |next| ==> next[i].input != next[j].input
  }

  /** A value as a cursor: an empty text is none, as null is and a missing output. */
  function CursorOf(outs: Outs, name: Bytes): Out {
    if name in outs && outs[name] != Text([]) then outs[name] else Null
  }

  /** The cursors a response gives, one for each link. */
  function CursorValues(outs: Outs, next: seq<Link>): seq<Out> {
    seq(|next|, i requires 0 <= i < |next| => CursorOf(outs, next[i].output))
  }

  /** The cursors a request carries. */
  function SentCursors(inputs: Outs, next: seq<Link>): seq<Out> {
    seq(|next|, i requires 0 <= i < |next| => CursorOf(inputs, next[i].input))
  }

  ghost predicate Exhausted(c: seq<Out>) {
    forall i :: 0 <= i < |c| ==> c[i] == Null
  }

  method ReadCursors(outs: Outs, next: seq<Link>) returns (c: seq<Out>, exhausted: bool)
    ensures c == CursorValues(outs, next) && (exhausted <==> Exhausted(c))
  {
    c, exhausted := [], true;
    for i := 0 to |next|
      invariant |c| == i && forall k :: 0 <= k < i ==> c[k] == CursorOf(outs, next[k].output)
      invariant exhausted <==> forall k :: 0 <= k < i ==> c[k] == Null
    {
      var v := CursorOf(outs, next[i].output);
      c := c + [v];
      if v != Null {
        exhausted := false;
      }
    }
  }

  // ---------- What the next request sends ----------

  /** inputs with the first n cursors set, or removed where there is none. */
  function WithFirst(inputs: Outs, next: seq<Link>, c: seq<Out>, n: nat): Outs
    requires n <= |next| == |c|
  {
    if n == 0 then inputs
    else if c[n - 1] == Null then WithFirst(inputs, next, c, n - 1) - {next[n - 1].input}
    else WithFirst(inputs, next, c, n - 1)[next[n - 1].input := c[n - 1]]
  }

  method WithCursors(inputs: Outs, next: seq<Link>, c: seq<Out>) returns (out: Outs)
    requires |next| == |c|
    ensures out == WithFirst(inputs, next, c, |next|)
  {
    out := inputs;
    for i := 0 to |next|
      invariant out == WithFirst(inputs, next, c, i)
    {
      if c[i] == Null {
        out := out - {next[i].input};
      } else {
        out := out[next[i].input := c[i]];
      }
    }
  }

  lemma {:induction false} WithFirstAt(inputs: Outs, next: seq<Link>, c: seq<Out>, n: nat, name: Bytes)
    requires LinksOk(next) && n <= |next| == |c|
    ensures forall i :: 0 <= i < n && next[i].input == name ==>
              (c[i] == Null ==> name !in WithFirst(inputs, next, c, n)) &&
              (c[i] != Null ==> name in WithFirst(inputs, next, c, n) && WithFirst(inputs, next, c, n)[name] == c[i])
    ensures (forall i :: 0 <= i < n ==> next[i].input != name) ==>
              (name in inputs <==> name in WithFirst(inputs, next, c, n))
                && (name in inputs ==> WithFirst(inputs, next, c, n)[name] == inputs[name])
  {
    if n > 0 {
      WithFirstAt(inputs, next, c, n - 1, name);
    }
  }

  /** A request carries the very cursors the response before it gave, and changes no other input. */
  lemma CursorsArriveWhole(inputs: Outs, outs: Outs, next: seq<Link>, other: Bytes)
    requires LinksOk(next)
    ensures var sent := WithFirst(inputs, next, CursorValues(outs, next), |next|);
      && SentCursors(sent, next) == CursorValues(outs, next)
      && ((forall i :: 0 <= i < |next| ==> next[i].input != other) ==>
           (other in inputs <==> other in sent) && (other in inputs ==> sent[other] == inputs[other]))
  {
    var c := CursorValues(outs, next);
    var sent := WithFirst(inputs, next, c, |next|);
    forall i | 0 <= i < |next| ensures CursorOf(sent, next[i].input) == c[i] {
      WithFirstAt(inputs, next, c, |next|, next[i].input);
    }
    WithFirstAt(inputs, next, c, |next|, other);
  }

  // ---------- Telling sets of cursors apart ----------

  const Eq: Bytes := [EQUALS]

  /** One set cursor, as name=value. */
  function Part(text: Out -> Bytes, link: Link, v: Out): Bytes {
    link.input + (Eq + text(v))
  }

  function Parts(text: Out -> Bytes, next: seq<Link>, c: seq<Out>, n: nat): seq<Bytes>
    requires n <= |next| == |c|
  {
    if n == 0 then []
    else Parts(text, next, c, n - 1) +
         if c[n - 1] == Null then [] else [Part(text, next[n - 1], c[n - 1])]
  }

  /** A set of cursors' identity, by which a repeated one is caught; empty when none is set. */
  function CursorKey(text: Out -> Bytes, next: seq<Link>, c: seq<Out>): Bytes
    requires |next| == |c|
  {
    Join(Parts(text, next, c, |next|), Amp)
  }

  method ComputeKey(text: Out -> Bytes, next: seq<Link>, c: seq<Out>) returns (key: Bytes)
    requires |next| == |c|
    ensures key == CursorKey(text, next, c)
  {
    var parts: seq<Bytes> := [];
    for i := 0 to |next|
      invariant parts == Parts(text, next, c, i)
    {
      if c[i] != Null {
        parts := parts + [Part(text, next[i], c[i])];
      }
    }
    key := Join(parts, Amp);
  }

  lemma {:induction false} SomePart(text: Out -> Bytes, next: seq<Link>, c: seq<Out>, n: nat)
    requires n <= |next| == |c|
    ensures Parts(text, next, c, n) == [] <==> forall i :: 0 <= i < n ==> c[i] == Null
    ensures forall p :: p in Parts(text, next, c, n) ==> p != []
  {
    if n > 0 {
      SomePart(text, next, c, n - 1);
    }
  }

  lemma {:induction false} JoinNotEmpty(parts: seq<Bytes>, n: nat)
    requires 0 < n <= |parts| && parts[0] != []
    ensures JoinTo(parts, Amp, n) != []
  {
    if n > 1 {
      JoinNotEmpty(parts, n - 1);
    }
  }

  /** Only a set in which no cursor is set has an empty key. */
  lemma KeyIsEmpty(text: Out -> Bytes, next: seq<Link>, c: seq<Out>)
    requires |next| == |c|
    ensures CursorKey(text, next, c) == [] <==> Exhausted(c)
  {
    SomePart(text, next, c, |next|);
    var parts := Parts(text, next, c, |next|);
    if parts != [] {
      assert parts[0] in parts;
      JoinNotEmpty(parts, |parts|);
    }
  }

  /** With a single cursor, equal keys are equal cursors as far as their text shows. */
  lemma OneCursorRepeats(text: Out -> Bytes, next: seq<Link>, c: seq<Out>, d: seq<Out>)
    requires |next| == |c| == |d| == 1 && CursorKey(text, next, c) == CursorKey(text, next, d)
    ensures (c[0] == Null <==> d[0] == Null) && (c[0] != Null ==> text(c[0]) == text(d[0]))
  {
    KeyIsEmpty(text, next, c);
    KeyIsEmpty(text, next, d);
    if c[0] != Null && d[0] != Null {
      OneKey(text, next, c);
      OneKey(text, next, d);
      PartTells(text, next[0], c[0], d[0]);
    }
  }

  lemma OneKey(text: Out -> Bytes, next: seq<Link>, c: seq<Out>)
    requires |next| == |c| == 1 && c[0] != Null
    ensures CursorKey(text, next, c) == Part(text, next[0], c[0])
  {
    assert Parts(text, next, c, 0) == [];
    assert Parts(text, next, c, 1) == [Part(text, next[0], c[0])];
  }

  lemma PartTells(text: Out -> Bytes, link: Link, v: Out, u: Out)
    requires Part(text, link, v) == Part(text, link, u)
    ensures text(v) == text(u)
  {
    assert Part(text, link, v)[|link.input| + 1..] == text(v);
    assert Part(text, link, u)[|link.input| + 1..] == text(u);
  }

  // ---------- When keys do not ----------

  /** A text reads as itself. */
  ghost predicate ReadsTexts(text: Out -> Bytes) {
    forall s :: text(Text(s)) == s
  }

  const One: Bytes := [49]

  /** Every cursor the same text. */
  function AllOnes(next: seq<Link>): seq<Out> {
    seq(|next|, _ => Text(One))
  }

  lemma {:induction false} JoinBegins(parts: seq<Bytes>, n: nat)
    requires 0 < n <= |parts|
    ensures |parts[0]| <= |JoinTo(parts, Amp, n)| && JoinTo(parts, Amp, n)[..|parts[0]|] == parts[0]
  {
    if n > 1 {
      JoinBegins(parts, n - 1);
    }
  }

  lemma {:induction false} OnesParts(text: Out -> Bytes, next: seq<Link>, n: nat)
    requires n <= |next|
    ensures |Parts(text, next, AllOnes(next), n)| == n
    ensures n > 0 ==> Parts(text, next, AllOnes(next), n)[0] == Part(text, next[0], Text(One))
  {
    if n > 0 {
      OnesParts(text, next, n - 1);
    }
  }

  lemma {:induction false} OnlyFirst(text: Out -> Bytes, next: seq<Link>, v: Out, n: nat)
    requires 0 < n <= |next| && v != Null
    ensures Parts(text, next, FirstAlone(next, v), n) == [Part(text, next[0], v)]
  {
    if n > 1 {
      OnlyFirst(text, next, v, n - 1);
    } else {
      assert Parts(text, next, FirstAlone(next, v), 0) == [];
    }
  }

  /** The first cursor alone. */
  function FirstAlone(next: seq<Link>, v: Out): seq<Out> {
    seq(|next|, i => if i == 0 then v else Null)
  }

  lemma Begun(key: Bytes, name: Bytes)
    requires |name| + 2 <= |key| && key[..|name| + 2] == name + (Eq + One)
    ensures key == name + (Eq + key[|name| + 1..]) && key[|name| + 1..] != []
  {
    forall i | 0 <= i < |name| + 2 ensures key[i] == (name + (Eq + One))[i] {
      assert key[..|name| + 2][i] == key[i];
    }
  }

  /** Of several cursors, each 1, the key is also that of a first one alone whose text goes on like theirs. */
  lemma SeveralCollide(text: Out -> Bytes, next: seq<Link>) returns (t: Bytes)
    requires ReadsTexts(text) && |next| >= 2
    ensures t != [] && CursorKey(text, next, FirstAlone(next, Text(t))) == CursorKey(text, next, AllOnes(next))
  {
    var n, d := |next|, AllOnes(next);
    OnesParts(text, next, n);
    var parts := Parts(text, next, d, n);
    JoinBegins(parts, n);
    var key, name := CursorKey(text, next, d), next[0].input;
    assert parts[0] == name + (Eq + One);
    t := key[|name| + 1..];
    Begun(key, name);
    OnlyFirst(text, next, Text(t), n);
  }

  /** Equal keys are equal cursors, as far as their texts show, exactly when there is at most one to send. */
  lemma KeysTellIffOne(text: Out -> Bytes, next: seq<Link>)
    requires ReadsTexts(text)
    ensures (forall c: seq<Out>, d: seq<Out> ::
               |c| == |d| == |next| && CursorKey(text, next, c) == CursorKey(text, next, d)
               ==> SameTexts(text, c, d, |next|))
            <==> |next| <= 1
  {
    hide CursorKey;
    if |next| <= 1 {
      forall c: seq<Out>, d: seq<Out> | |c| == |d| == |next| && CursorKey(text, next, c) == CursorKey(text, next, d)
          ensures SameTexts(text, c, d, |next|) {
        if |next| == 1 {
          OneCursorRepeats(text, next, c, d);
        }
      }
    } else {
      var t := SeveralCollide(text, next);
      assert !SameTexts(text, FirstAlone(next, Text(t)), AllOnes(next), |next|) by {
        assert FirstAlone(next, Text(t))[1] == Null && AllOnes(next)[1] == Text(One);
      }
    }
  }

  // ---------- When keys tell every set apart ----------

  predicate NoEq(s: Bytes) {
    forall i :: 0 <= i < |s| ==> s[i] != EQUALS
  }

  /** No name has an equals sign or an ampersand, and no cursor's text an ampersand. */
  ghost predicate Plainly(text: Out -> Bytes, next: seq<Link>, c: seq<Out>) {
    |next| == |c| && forall i :: 0 <= i < |next| ==> NoEq(next[i].input) && NoAmp(next[i].input) && NoAmp(text(c[i]))
  }

  lemma NameEnds(a: Bytes, x: Bytes, s: Bytes)
    requires NoEq(a) && s == a + (Eq + x)
    ensures |a| < |s| && s[|a|] == EQUALS && s[..|a|] == a && forall k :: 0 <= k < |a| ==> s[k] != EQUALS
  {
  }

  lemma NamesTell(a: Bytes, b: Bytes, x: Bytes, y: Bytes)
    requires NoEq(a) && NoEq(b) && a + (Eq + x) == b + (Eq + y)
    ensures a == b
  {
    NameEnds(a, x, a + (Eq + x));
    NameEnds(b, y, a + (Eq + x));
  }

  lemma {:induction false} PartsPlain(text: Out -> Bytes, next: seq<Link>, c: seq<Out>, n: nat)
    requires Plainly(text, next, c) && n <= |next|
    ensures NoAmps(Parts(text, next, c, n))
  {
    if n > 0 {
      PartsPlain(text, next, c, n - 1);
    }
  }

  lemma {:induction false} WhosePart(text: Out -> Bytes, next: seq<Link>, c: seq<Out>, n: nat)
    requires n <= |next| == |c| && Parts(text, next, c, n) != []
    ensures var p := Parts(text, next, c, n); exists i :: 0 <= i < n && p[|p| - 1] == Part(text, next[i], c[i])
  {
    if c[n - 1] == Null {
      WhosePart(text, next, c, n - 1);
    }
  }

  ghost predicate SameTexts(text: Out -> Bytes, c: seq<Out>, d: seq<Out>, n: nat)
    requires n <= |c| == |d|
  {
    forall i :: 0 <= i < n ==> (c[i] == Null <==> d[i] == Null) && (c[i] != Null ==> text(c[i]) == text(d[i]))
  }

  lemma NotLater(text: Out -> Bytes, next: seq<Link>, c: seq<Out>, d: seq<Out>, n: nat)
    requires Plainly(text, next, c) && Plainly(text, next, d) && LinksOk(next) && 0 < n <= |next| && c[n - 1] != Null
    ensures d[n - 1] == Null ==> Parts(text, next, c, n) != Parts(text, next, d, n)
  {
    if d[n - 1] == Null && Parts(text, next, d, n) != [] {
      WhosePart(text, next, d, n - 1);
      var p := Parts(text, next, d, n);
      var i :| 0 <= i < n - 1 && p[|p| - 1] == Part(text, next[i], d[i]);
      if Part(text, next[n - 1], c[n - 1]) == Part(text, next[i], d[i]) {
        NamesTell(next[n - 1].input, next[i].input, text(c[n - 1]), text(d[i]));
      }
    }
  }

  lemma LastTells(text: Out -> Bytes, next: seq<Link>, c: seq<Out>, d: seq<Out>, n: nat)
    requires Plainly(text, next, c) && Plainly(text, next, d) && LinksOk(next) && 0 < n <= |next|
    requires Parts(text, next, c, n) == Parts(text, next, d, n)
    ensures (c[n - 1] == Null <==> d[n - 1] == Null) && (c[n - 1] != Null ==> text(c[n - 1]) == text(d[n - 1]))
    ensures Parts(text, next, c, n - 1) == Parts(text, next, d, n - 1)
  {
    if c[n - 1] != Null {
      NotLater(text, next, c, d, n);
      LastPart(text, next, c, n);
      LastPart(text, next, d, n);
      PartTells(text, next[n - 1], c[n - 1], d[n - 1]);
    }
    if d[n - 1] != Null {
      NotLater(text, next, d, c, n);
    }
    NoLastPart(text, next, c, n);
    NoLastPart(text, next, d, n);
  }

  lemma NoLastPart(text: Out -> Bytes, next: seq<Link>, c: seq<Out>, n: nat)
    requires 0 < n <= |next| == |c|
    ensures c[n - 1] == Null ==> Parts(text, next, c, n) == Parts(text, next, c, n - 1)
  {
    assert Parts(text, next, c, n - 1) + [] == Parts(text, next, c, n - 1);
  }

  lemma LastPart(text: Out -> Bytes, next: seq<Link>, c: seq<Out>, n: nat)
    requires 0 < n <= |next| == |c| && c[n - 1] != Null
    ensures var p := Parts(text, next, c, n);
      p != [] && p[..|p| - 1] == Parts(text, next, c, n - 1) && p[|p| - 1] == Part(text, next[n - 1], c[n - 1])
  {
  }

  lemma {:induction false} PartsTell(text: Out -> Bytes, next: seq<Link>, c: seq<Out>, d: seq<Out>, n: nat)
    requires Plainly(text, next, c) && Plainly(text, next, d) && LinksOk(next) && n <= |next|
    requires Parts(text, next, c, n) == Parts(text, next, d, n)
    ensures SameTexts(text, c, d, n)
  {
    hide Parts;
    if n > 0 {
      LastTells(text, next, c, d, n);
      PartsTell(text, next, c, d, n - 1);
    }
  }

  /** Where no text holds an ampersand, equal keys are the same cursors. */
  lemma KeysTell(text: Out -> Bytes, next: seq<Link>, c: seq<Out>, d: seq<Out>)
    requires Plainly(text, next, c) && Plainly(text, next, d) && LinksOk(next)
    requires CursorKey(text, next, c) == CursorKey(text, next, d)
    ensures SameTexts(text, c, d, |next|)
  {
    var n := |next|;
    var p, q := Parts(text, next, c, n), Parts(text, next, d, n);
    KeyIsEmpty(text, next, c);
    KeyIsEmpty(text, next, d);
    SomePart(text, next, c, n);
    SomePart(text, next, d, n);
    if p != [] {
      PartsPlain(text, next, c, n);
      PartsPlain(text, next, d, n);
      SplitOfJoin(p);
      SplitOfJoin(q);
    }
    PartsTell(text, next, c, d, n);
  }
}

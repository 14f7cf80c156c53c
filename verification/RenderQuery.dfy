/** Values in a query string or a form body (adapter/render.go): what is written splits into the
    template's own pairs, and a repeat for each element of a list right after its key. */
module RenderQuery {
  import opened Ampersands
  import opened Bytes
  import opened Filling
  import opened Scanner
  import opened Sequences
  import opened UrlEscape
  import opened Values

  /** A template byte by byte. */
  datatype Item = Byte(b: byte) | Value(v: Val)

  function NextState(ctx: Context, s: State, i: Item): State {
    match i
    case Byte(b) => FedByte(ctx, s, b)
    case Value(_) => AfterValue(ctx, s)
  }

  function ItemState(ctx: Context, items: seq<Item>, n: nat): State
    requires n <= |items|
  {
    if n == 0 then Start else NextState(ctx, ItemState(ctx, items, n - 1), items[n - 1])
  }

  function ItemText(ctx: Context, s: State, i: Item): Bytes {
    match i
    case Byte(b) => [b]
    case Value(v) => Rendered(ctx, s, v)
  }

  /** What is written for the first n items. */
  function Written(ctx: Context, items: seq<Item>, n: nat): Bytes
    requires n <= |items|
  {
    if n == 0 then [] else Written(ctx, items, n - 1) + ItemText(ctx, ItemState(ctx, items, n - 1), items[n - 1])
  }

  // ---------- The template's pairs ----------

  predicate IsByte(i: Item, b: byte) {
    i.Byte? && i.b == b
  }

  predicate IsPlain(i: Item) {
    i.Byte? && i.b != AMPERSAND && i.b != EQUALS
  }

  /** How far back from n plain text goes: no value, no separator, no equals sign. */
  function PlainBack(items: seq<Item>, n: nat): (k: nat)
    requires n <= |items|
    ensures k <= n
  {
    if n == 0 || !IsPlain(items[n - 1]) then n else PlainBack(items, n - 1)
  }

  /** The bytes among the items from a to n. */
  function Literals(items: seq<Item>, a: nat, n: nat): Bytes
    requires n <= |items|
  {
    if n <= a then [] else Literals(items, a, n - 1) + if items[n - 1].Byte? then [items[n - 1].b] else []
  }

  /** Whether item n comes right after key=, which begins a pair of the template. */
  predicate KeyBefore(items: seq<Item>, n: nat)
    requires n <= |items|
  {
    n > 0 && IsByte(items[n - 1], EQUALS) && PairBegins(items, PlainBack(items, n - 1), n - 1)
  }

  predicate PairBegins(items: seq<Item>, k: nat, n: nat)
    requires k <= |items|
  {
    k < n && (k == 0 || IsByte(items[k - 1], AMPERSAND))
  }

  function Key(items: seq<Item>, n: nat): Bytes
    requires 0 < n <= |items|
  {
    Literals(items, PlainBack(items, n - 1), n - 1)
  }

  /** Pairs that are done, and the one under way. */
  datatype Pairing = Pairing(done: seq<Bytes>, last: Bytes)

  function Whole(p: Pairing): seq<Bytes> {
    p.done + [p.last]
  }

  function Adding(p: Pairing, text: Bytes): Pairing {
    p.(last := p.last + text)
  }

  function NewPair(p: Pairing, text: Bytes): Pairing {
    Pairing(p.done + [p.last], text)
  }

  function Escape(v: Val): Bytes {
    QueryEscape(FormatValue(v))
  }

  function PairOf(key: Bytes, v: Val): Bytes {
    key + [EQUALS] + Escape(v)
  }

  /** The first n elements of a list right after key=: the first ends the pair under way, each other is
      a pair of its own. */
  function Repeated(p: Pairing, key: Bytes, elems: seq<Val>, n: nat): Pairing
    requires 0 < n <= |elems|
  {
    if n == 1 then Adding(p, Escape(elems[0])) else NewPair(Repeated(p, key, elems, n - 1), PairOf(key, elems[n - 1]))
  }

  /** The pairs of the first n items: those the template separates, and the repeats. */
  function Pairs(items: seq<Item>, n: nat): Pairing
    requires n <= |items|
  {
    if n == 0 then Pairing([], [])
    else
      var p := Pairs(items, n - 1);
      match items[n - 1]
      case Byte(b) => if b == AMPERSAND then NewPair(p, []) else Adding(p, [b])
      case Value(v) =>
        if v.List? && v.elems != [] && KeyBefore(items, n - 1) then Repeated(p, Key(items, n - 1), v.elems, |v.elems|)
        else Adding(p, EscapeList(v, true, [COMMA]))
  }

  // ---------- What the scanner knows of the pair ----------

  /** Where the pair item n is in begins. */
  function PairStart(items: seq<Item>, n: nat): (a: nat)
    requires n <= |items|
    ensures a <= n
  {
    if n == 0 || IsByte(items[n - 1], AMPERSAND) then n else PairStart(items, n - 1)
  }

  /** Whether a value is among the items from a to n. */
  predicate HasValue(items: seq<Item>, a: nat, n: nat)
    requires n <= |items|
  {
    n > a && (items[n - 1].Value? || HasValue(items, a, n - 1))
  }

  lemma {:induction false} PairStartBounds(items: seq<Item>, n: nat)
    requires n <= |items|
    ensures PairStart(items, n) <= n && (PairStart(items, n) > 0 ==> IsByte(items[PairStart(items, n) - 1], AMPERSAND))
  {
    if n > 0 && !IsByte(items[n - 1], AMPERSAND) {
      PairStartBounds(items, n - 1);
    }
  }

  lemma {:induction false} PlainBackBounds(items: seq<Item>, n: nat)
    requires n <= |items|
    ensures var k := PlainBack(items, n); k <= n && (k > 0 ==> !IsPlain(items[k - 1])) && !HasValue(items, k, n)
    ensures forall j :: 0 <= j < |Literals(items, PlainBack(items, n), n)| ==>
      Literals(items, PlainBack(items, n), n)[j] != EQUALS && Literals(items, PlainBack(items, n), n)[j] != AMPERSAND
    ensures |Literals(items, PlainBack(items, n), n)| == n - PlainBack(items, n)
  {
    if n > 0 && IsPlain(items[n - 1]) {
      PlainBackBounds(items, n - 1);
    }
  }

  ghost predicate KnowsPair(s: State, items: seq<Item>, n: nat)
    requires n <= |items|
  {
    s.segment == Literals(items, PairStart(items, n), n) && s.valued == HasValue(items, PairStart(items, n), n)
  }

  lemma {:induction false} ScannerKnowsPair(items: seq<Item>, n: nat)
    requires n <= |items|
    ensures KnowsPair(ItemState(FormBody, items, n), items, n)
  {
    if n > 0 {
      ScannerKnowsPair(items, n - 1);
      KnowsNext(ItemState(FormBody, items, n - 1), items, n);
    }
  }

  lemma KnowsNext(s: State, items: seq<Item>, n: nat)
    requires 0 < n <= |items| && KnowsPair(s, items, n - 1)
    ensures KnowsPair(NextState(FormBody, s, items[n - 1]), items, n)
  {
    PairStartBounds(items, n - 1);
  }

  /** Plain text from k back to the start of its pair: the pair starts there. */
  lemma {:induction false} PairStartIsBack(items: seq<Item>, n: nat)
    requires n <= |items| && PairBegins(items, PlainBack(items, n), n + 1)
    ensures PairStart(items, n) == PlainBack(items, n)
  {
    if n > 0 && IsPlain(items[n - 1]) {
      PairStartIsBack(items, n - 1);
    } else {
      PairStartBounds(items, n);
    }
  }

  lemma KeyMeansAfterKey(s: State, items: seq<Item>, n: nat)
    requires n <= |items| && KnowsPair(s, items, n) && KeyBefore(items, n)
    ensures AfterKey(s) && s.segment == Key(items, n) + [EQUALS]
  {
    PairStartIsBack(items, n - 1);
    PlainBackBounds(items, n - 1);
    SegmentIsAfterKey(s, Key(items, n));
  }

  lemma SegmentIsAfterKey(s: State, key: Bytes)
    requires s.segment == key + [EQUALS] && key != [] && (forall j :: 0 <= j < |key| ==> key[j] != EQUALS) && !s.valued
    ensures AfterKey(s)
  {
    assert s.segment[..|s.segment| - 1] == key;
  }

  /** A stretch without values and equals signs, in one pair, is plain. */
  lemma {:induction false} StretchIsPlain(items: seq<Item>, n: nat)
    requires n <= |items| && !HasValue(items, PairStart(items, n), n)
    requires forall j :: 0 <= j < |Literals(items, PairStart(items, n), n)|
               ==> Literals(items, PairStart(items, n), n)[j] != EQUALS
    ensures PlainBack(items, n) == PairStart(items, n)
  {
    PairStartBounds(items, n);
    var a := PairStart(items, n);
    if a < n {
      var l := Literals(items, a, n);
      assert l[|l| - 1] == items[n - 1].b;
      var shorter := Literals(items, a, n - 1);
      forall j | 0 <= j < |shorter| ensures shorter[j] != EQUALS {
        assert l[j] == shorter[j];
      }
      StretchIsPlain(items, n - 1);
    }
  }

  lemma AfterKeyMeansKey(s: State, items: seq<Item>, n: nat)
    requires n <= |items| && KnowsPair(s, items, n) && AfterKey(s)
    ensures KeyBefore(items, n)
  {
    PairStartBounds(items, n);
    var a := PairStart(items, n);
    var l := Literals(items, a, n - 1);
    assert s.segment == l + [items[n - 1].b];
    assert s.segment[..|s.segment| - 1] == l;
    StretchIsPlain(items, n - 1);
  }

  // ---------- The text is the pairs, joined ----------

  function TextOf(p: Pairing): Bytes {
    Lead(p.done, |p.done|) + p.last
  }

  lemma TextOfAdding(p: Pairing, text: Bytes)
    ensures TextOf(Adding(p, text)) == TextOf(p) + text
  {
    Joins(Lead(p.done, |p.done|), p.last, text);
  }

  lemma TextOfNewPair(p: Pairing, text: Bytes)
    ensures TextOf(NewPair(p, text)) == TextOf(p) + (Amp + text)
  {
    var n := |p.done|;
    LeadSame(p.done + [p.last], p.done, n);
    assert (p.done + [p.last])[n] == p.last;
    Joins(Lead(p.done, n), p.last, Amp);
    Joins(TextOf(p), Amp, text);
  }

  lemma {:induction false} TextOfRepeated(p: Pairing, key: Bytes, elems: seq<Val>, n: nat)
    requires 0 < n <= |elems|
    ensures TextOf(Repeated(p, key, elems, n)) == TextOf(p) + JoinTo(FormatAll(elems, true), Amp + (key + [EQUALS]), n)
  {
    if n == 1 {
      TextOfAdding(p, Escape(elems[0]));
    } else {
      TextOfRepeated(p, key, elems, n - 1);
      TextOfNewPair(Repeated(p, key, elems, n - 1), PairOf(key, elems[n - 1]));
      RepeatText(TextOf(p), JoinTo(FormatAll(elems, true), Amp + (key + [EQUALS]), n - 1), key, Escape(elems[n - 1]));
    }
  }

  lemma RepeatText(p: Bytes, joined: Bytes, key: Bytes, text: Bytes)
    ensures p + joined + (Amp + (key + [EQUALS] + text)) == p + (joined + (Amp + (key + [EQUALS]) + text))
  {
    Joins(Amp, key + [EQUALS], text);
    Joins(p, joined, Amp + (key + [EQUALS]) + text);
  }

  /** The text written is the template's pairs, joined. */
  lemma {:induction false} TextIsPairs(items: seq<Item>, n: nat)
    requires n <= |items|
    ensures Written(FormBody, items, n) == TextOf(Pairs(items, n))
  {
    hide Pairs, TextOf, KnowsPair, Rendered;
    if n == 0 {
      NothingPaired(items);
    } else {
      TextIsPairs(items, n - 1);
      if items[n - 1].Byte? {
        ByteIsPaired(Pairs(items, n - 1), items, n, items[n - 1].b);
      } else {
        ScannerKnowsPair(items, n - 1);
        ValueIsPaired(Pairs(items, n - 1), ItemState(FormBody, items, n - 1), items, n, items[n - 1].v);
      }
    }
  }

  lemma NothingPaired(items: seq<Item>)
    ensures TextOf(Pairs(items, 0)) == []
  {
  }

  lemma ByteIsPaired(p: Pairing, items: seq<Item>, n: nat, b: byte)
    requires 0 < n <= |items| && items[n - 1] == Byte(b) && p == Pairs(items, n - 1)
    ensures TextOf(Pairs(items, n)) == TextOf(p) + [b]
  {
    if b == AMPERSAND {
      TextOfNewPair(p, []);
      assert Amp + [] == Amp;
    } else {
      TextOfAdding(p, [b]);
    }
  }

  lemma ValueIsPaired(p: Pairing, s: State, items: seq<Item>, n: nat, v: Val)
    requires 0 < n <= |items| && items[n - 1] == Value(v) && p == Pairs(items, n - 1) && KnowsPair(s, items, n - 1)
    ensures TextOf(Pairs(items, n)) == TextOf(p) + Rendered(FormBody, s, v)
  {
    hide Rendered, EscapeList, TextOf, Repeated, Adding, AfterKey, KnowsPair, Key;
    if v.List? && v.elems != [] && KeyBefore(items, n - 1) {
      KeyMeansAfterKey(s, items, n - 1);
      TextOfRepeated(p, Key(items, n - 1), v.elems, |v.elems|);
      RepeatedIsRendered(s, Key(items, n - 1), v);
    } else {
      if AfterKey(s) {
        AfterKeyMeansKey(s, items, n - 1);
      }
      TextOfAdding(p, EscapeList(v, true, [COMMA]));
      NotRepeated(s, v);
    }
  }

  lemma RepeatedIsRendered(s: State, key: Bytes, v: Val)
    requires v.List? && AfterKey(s) && s.segment == key + [EQUALS]
    ensures Rendered(FormBody, s, v) == JoinTo(FormatAll(v.elems, true), Amp + (key + [EQUALS]), |v.elems|)
  {
  }

  /** A list that repeats no key, and anything that is no list, is joined with commas. */
  lemma NotRepeated(s: State, v: Val)
    requires v.List? && v.elems != [] ==> !AfterKey(s)
    ensures Rendered(FormBody, s, v) == EscapeList(v, true, [COMMA])
  {
  }

  // ---------- No value adds a separator ----------

  ghost predicate Separate(p: Pairing) {
    NoAmp(p.last) && NoAmps(p.done)
  }

  lemma EscapedHasNoAmp(x: Bytes)
    ensures NoAmp(QueryEscape(x))
  {
    QueryEscapeIsPlain(x);
  }

  lemma {:induction false} JoinHasNoAmp(elems: seq<Val>, n: nat)
    requires n <= |elems|
    ensures NoAmp(JoinTo(FormatAll(elems, true), [COMMA], n))
  {
    if n > 0 {
      JoinHasNoAmp(elems, n - 1);
      EscapedHasNoAmp(FormatValue(elems[n - 1]));
    }
  }

  lemma ListHasNoAmp(v: Val)
    ensures NoAmp(EscapeList(v, true, [COMMA]))
  {
    if v.List? {
      JoinHasNoAmp(v.elems, |v.elems|);
    } else {
      EscapedHasNoAmp(FormatValue(v));
    }
  }

  lemma {:induction false} RepeatedIsSeparate(p: Pairing, key: Bytes, elems: seq<Val>, n: nat)
    requires Separate(p) && NoAmp(key) && 0 < n <= |elems|
    ensures Separate(Repeated(p, key, elems, n))
  {
    EscapedHasNoAmp(FormatValue(elems[n - 1]));
    if n > 1 {
      RepeatedIsSeparate(p, key, elems, n - 1);
    }
  }

  lemma {:induction false} PairsAreSeparate(items: seq<Item>, n: nat)
    requires n <= |items|
    ensures Separate(Pairs(items, n))
  {
    if n > 0 {
      PairsAreSeparate(items, n - 1);
      if items[n - 1].Value? {
        ValueIsSeparate(Pairs(items, n - 1), items, n, items[n - 1].v);
      }
    }
  }

  lemma ValueIsSeparate(p: Pairing, items: seq<Item>, n: nat, v: Val)
    requires 0 < n <= |items| && items[n - 1] == Value(v) && p == Pairs(items, n - 1) && Separate(p)
    ensures Separate(Pairs(items, n))
  {
    ListHasNoAmp(v);
    if v.List? && v.elems != [] && KeyBefore(items, n - 1) {
      PlainBackBounds(items, n - 2);
      RepeatedIsSeparate(p, Key(items, n - 1), v.elems, |v.elems|);
    }
  }

  /** A rendered form body, split at its ampersands, is the template's pairs and the repeats. */
  lemma BodySplitsIntoPairs(items: seq<Item>)
    ensures Split(Written(FormBody, items, |items|)) == Whole(Pairs(items, |items|))
  {
    var p := Pairs(items, |items|);
    TextIsPairs(items, |items|);
    PairsAreSeparate(items, |items|);
    SplitsIntoParts(p.done, p.last);
  }

  // ---------- What the pairs decode to ----------

  /** The value of a pair: what follows its first equals sign, decoded. */
  function PairValue(pair: Bytes): Result {
    var i := IndexFrom(pair, [EQUALS], 0);
    if i < 0 then Malformed else Unescape(pair[i + 1..], true)
  }

  lemma KeyIsCut(key: Bytes, rest: Bytes)
    requires forall j :: 0 <= j < |key| ==> key[j] != EQUALS
    ensures IndexFrom(key + [EQUALS] + rest, [EQUALS], 0) == |key|
  {
    var s := key + [EQUALS] + rest;
    assert s[|key|..|key| + 1] == [EQUALS];
    assert Occurs(s, [EQUALS], |key|);
    forall k: nat | k < |key| ensures !Occurs(s, [EQUALS], k) {
      assert s[k..k + 1][0] == key[k];
    }
  }

  /** A pair made of a key and a value decodes to the value's text. */
  lemma PairDecodes(key: Bytes, v: Val)
    requires forall j :: 0 <= j < |key| ==> key[j] != EQUALS
    ensures PairValue(PairOf(key, v)) == Ok(FormatValue(v))
  {
    KeyIsCut(key, Escape(v));
    assert PairOf(key, v)[|key| + 1..] == Escape(v);
    QueryRoundTrip(FormatValue(v));
  }

  /** The pairs a list makes of the pair key=. */
  function ListPairs(key: Bytes, elems: seq<Val>, n: nat): (r: seq<Bytes>)
    requires n <= |elems|
    ensures |r| == n && forall i :: 0 <= i < n ==> r[i] == PairOf(key, elems[i])
  {
    seq(n, i requires 0 <= i < n => PairOf(key, elems[i]))
  }

  lemma {:induction false} RepeatedIsListPairs(p: Pairing, key: Bytes, elems: seq<Val>, n: nat)
    requires 0 < n <= |elems| && p.last == key + [EQUALS]
    ensures Whole(Repeated(p, key, elems, n)) == p.done + ListPairs(key, elems, n)
  {
    hide Escape;
    if n > 1 {
      RepeatedIsListPairs(p, key, elems, n - 1);
      assert ListPairs(key, elems, n) == ListPairs(key, elems, n - 1) + [PairOf(key, elems[n - 1])];
    }
  }

  /** The pair under way right after key= is key=. */
  lemma {:induction false} PlainIsLast(items: seq<Item>, n: nat)
    requires n <= |items| && PairBegins(items, PlainBack(items, n), n + 1)
    ensures Pairs(items, n).last == Literals(items, PlainBack(items, n), n)
  {
    if n > 0 && IsPlain(items[n - 1]) {
      PlainIsLast(items, n - 1);
    }
  }

  /** A list right after key= becomes a pair for each element, which decodes to the element's text. */
  lemma ListBecomesPairs(items: seq<Item>, n: nat, elems: seq<Val>)
    requires n < |items| && items[n] == Value(List(elems)) && elems != [] && KeyBefore(items, n)
    ensures Whole(Pairs(items, n + 1)) == Pairs(items, n).done + ListPairs(Key(items, n), elems, |elems|)
    ensures forall i :: 0 <= i < |elems|
              ==> PairValue(ListPairs(Key(items, n), elems, |elems|)[i]) == Ok(FormatValue(elems[i]))
  {
    hide Pairs, Repeated, Key, PairValue, FormatValue;
    LastIsKey(items, n);
    ListIsTaken(items, n, elems);
    RepeatedIsListPairs(Pairs(items, n), Key(items, n), elems, |elems|);
    ListPairsDecode(Key(items, n), elems);
  }

  lemma LastIsKey(items: seq<Item>, n: nat)
    requires n <= |items| && KeyBefore(items, n)
    ensures Pairs(items, n).last == Key(items, n) + [EQUALS]
      && forall j :: 0 <= j < |Key(items, n)| ==> Key(items, n)[j] != EQUALS
  {
    PlainIsLast(items, n - 1);
    PlainBackBounds(items, n - 1);
  }

  lemma ListIsTaken(items: seq<Item>, n: nat, elems: seq<Val>)
    requires n < |items| && items[n] == Value(List(elems)) && elems != [] && KeyBefore(items, n)
    ensures Pairs(items, n + 1) == Repeated(Pairs(items, n), Key(items, n), elems, |elems|)
  {
    hide Repeated, KeyBefore, Key;
  }

  lemma ListPairsDecode(key: Bytes, elems: seq<Val>)
    requires forall j :: 0 <= j < |key| ==> key[j] != EQUALS
    ensures forall i :: 0 <= i < |elems| ==> PairValue(ListPairs(key, elems, |elems|)[i]) == Ok(FormatValue(elems[i]))
  {
    hide PairValue, PairOf, FormatValue;
    forall i | 0 <= i < |elems| ensures PairValue(ListPairs(key, elems, |elems|)[i]) == Ok(FormatValue(elems[i])) {
      PairDecodes(key, elems[i]);
    }
  }

  /** So does any other value right after key=. */
  lemma ValueBecomesPair(items: seq<Item>, n: nat, v: Val)
    requires n < |items| && items[n] == Value(v) && !v.List? && KeyBefore(items, n)
    ensures Pairs(items, n + 1) == Pairing(Pairs(items, n).done, PairOf(Key(items, n), v))
    ensures PairValue(PairOf(Key(items, n), v)) == Ok(FormatValue(v))
  {
    PlainIsLast(items, n - 1);
    PlainBackBounds(items, n - 1);
    PairDecodes(Key(items, n), v);
  }

  // ---------- A path and its query ----------

  /** q is the template's first question mark, and rest the template after it. */
  ghost predicate QueryOf(items: seq<Item>, q: nat, rest: seq<Item>) {
    && q < |items| && IsByte(items[q], QUESTION) && NoQuestionIn(items, q)
    && |rest| == |items| - q - 1 && forall k :: 0 <= k < |rest| ==> rest[k] == items[q + 1 + k]
  }

  ghost predicate NoQuestionIn(items: seq<Item>, n: nat)
    requires n <= |items|
  {
    forall j :: 0 <= j < n ==> !IsByte(items[j], QUESTION)
  }

  lemma {:induction false} NotInQuery(items: seq<Item>, n: nat)
    requires n <= |items| && NoQuestionIn(items, n)
    ensures ItemState(PathText, items, n) == Start
  {
    if n > 0 {
      NotInQuery(items, n - 1);
    }
  }

  lemma {:induction false} QueryState(items: seq<Item>, q: nat, rest: seq<Item>, n: nat, p: nat)
    requires QueryOf(items, q, rest) && n <= |rest| && p == q + 1 + n
    ensures ItemState(PathText, items, p) == ItemState(FormBody, rest, n).(inQuery := true)
  {
    if n == 0 {
      NotInQuery(items, q);
    } else {
      QueryState(items, q, rest, n - 1, p - 1);
      assert rest[n - 1] == items[q + 1 + (n - 1)];
    }
  }

  /** In the query, a path's text is written as a form body's is. */
  lemma SameText(s: State, i: Item)
    ensures ItemText(PathText, s.(inQuery := true), i) == ItemText(FormBody, s, i)
  {
  }

  lemma WrittenNext(ctx: Context, items: seq<Item>, n: nat, text: Bytes)
    requires 0 < n <= |items| && text == ItemText(ctx, ItemState(ctx, items, n - 1), items[n - 1])
    ensures Written(ctx, items, n) == Written(ctx, items, n - 1) + text
  {
  }

  /** From the first question mark on, the rest of a path is rendered like a form body. */
  lemma {:induction false} QueryIsABody(items: seq<Item>, q: nat, rest: seq<Item>, n: nat, p: nat)
    requires QueryOf(items, q, rest) && n <= |rest| && p == q + 1 + n
    ensures Written(PathText, items, p) == Written(PathText, items, q) + [QUESTION] + Written(FormBody, rest, n)
  {
    hide ItemText, Rendered;
    if n == 0 {
      QueryBegins(items, q, rest);
    } else {
      QueryIsABody(items, q, rest, n - 1, p - 1);
      QueryGrows(items, q, rest, n, p);
    }
  }

  lemma QueryBegins(items: seq<Item>, q: nat, rest: seq<Item>)
    requires QueryOf(items, q, rest)
    ensures Written(PathText, items, q + 1) == Written(PathText, items, q) + [QUESTION] + Written(FormBody, rest, 0)
  {
    WrittenNext(PathText, items, q + 1, [QUESTION]);
    assert Written(PathText, items, q) + [QUESTION] + [] == Written(PathText, items, q) + [QUESTION];
  }

  lemma QueryGrows(items: seq<Item>, q: nat, rest: seq<Item>, n: nat, p: nat)
    requires QueryOf(items, q, rest) && 0 < n <= |rest| && p == q + 1 + n
    requires Written(PathText, items, p - 1)
      == Written(PathText, items, q) + [QUESTION] + Written(FormBody, rest, n - 1)
    ensures Written(PathText, items, p) == Written(PathText, items, q) + [QUESTION] + Written(FormBody, rest, n)
  {
    var s := ItemState(FormBody, rest, n - 1);
    var text := ItemText(FormBody, s, rest[n - 1]);
    QueryState(items, q, rest, n - 1, p - 1);
    SameText(s, rest[n - 1]);
    assert rest[n - 1] == items[q + 1 + (n - 1)] == items[p - 1];
    WrittenNext(PathText, items, p, text);
    WrittenNext(FormBody, rest, n, text);
    Joins(Written(PathText, items, q) + [QUESTION], Written(FormBody, rest, n - 1), text);
  }

  predicate NoQuestion(s: Bytes) {
    forall i :: 0 <= i < |s| ==> s[i] != QUESTION
  }

  lemma {:induction false} PathEscapeHasNoQuestion(s: Bytes)
    ensures NoQuestion(PathEscape(s))
  {
    if s != [] {
      PathEscapeHasNoQuestion(s[1..]);
    }
  }

  lemma {:induction false} JoinHasNoQuestion(elems: seq<Val>, n: nat)
    requires n <= |elems|
    ensures NoQuestion(JoinTo(FormatAll(elems, false), [COMMA], n))
  {
    if n > 0 {
      JoinHasNoQuestion(elems, n - 1);
      PathEscapeHasNoQuestion(FormatValue(elems[n - 1]));
    }
  }

  lemma PathValueHasNoQuestion(v: Val)
    ensures NoQuestion(EscapeList(v, false, [COMMA]))
  {
    if v.List? {
      JoinHasNoQuestion(v.elems, |v.elems|);
    } else {
      PathEscapeHasNoQuestion(FormatValue(v));
    }
  }

  /** No value brings the query on: the first question mark written is the template's own. */
  lemma {:induction false} PathHasNoQuestion(items: seq<Item>, n: nat)
    requires n <= |items| && NoQuestionIn(items, n)
    ensures NoQuestion(Written(PathText, items, n))
  {
    if n > 0 {
      PathHasNoQuestion(items, n - 1);
      NotInQuery(items, n - 1);
      if items[n - 1].Value? {
        PathValueHasNoQuestion(items[n - 1].v);
      }
    }
  }

  const SLASH: byte := 47

  lemma {:induction false} PathEscapeHasNoSlash(s: Bytes)
    ensures SLASH !in PathEscape(s)
  {
    if s != [] {
      PathEscapeHasNoSlash(s[1..]);
    }
  }

  /** A value in a path stays in the template's segment, and reads back as it was. */
  lemma PathValueReadsBack(v: Val)
    requires !v.List?
    ensures SLASH !in EscapeList(v, false, [COMMA])
      && Unescape(EscapeList(v, false, [COMMA]), false) == Ok(FormatValue(v))
  {
    PathEscapeHasNoSlash(FormatValue(v));
    PathRoundTrip(FormatValue(v));
  }

  /** A rendered URL has its query where the template has it, and the query splits into the template's
      pairs and the repeats. */
  lemma UrlSplitsIntoPairs(items: seq<Item>, q: nat, rest: seq<Item>)
    requires QueryOf(items, q, rest)
    ensures NoQuestion(Written(PathText, items, q))
    ensures Written(PathText, items, |items|)
      == Written(PathText, items, q) + [QUESTION] + Written(FormBody, rest, |rest|)
    ensures Split(Written(FormBody, rest, |rest|)) == Whole(Pairs(rest, |rest|))
  {
    QueryIsABody(items, q, rest, |rest|, |items|);
    PathHasNoQuestion(items, q);
    BodySplitsIntoPairs(rest);
  }

  // ---------- The same for templates in pieces ----------

  /** How many items the first n pieces are. */
  function Offset(pieces: seq<Piece>, n: nat): nat
    requires n <= |pieces|
  {
    if n == 0 then 0 else Offset(pieces, n - 1) + Width(pieces[n - 1])
  }

  /** items are the pieces, their literals byte by byte. */
  ghost predicate SpellOut(items: seq<Item>, pieces: seq<Piece>) {
    |items| == Offset(pieces, |pieces|)
      && forall n: nat :: n < |pieces| ==> PieceLies(items, Offset(pieces, n), pieces[n])
  }

  ghost predicate PieceLies(items: seq<Item>, at: nat, p: Piece) {
    match p
    case Literal(text) => Spells(items, at, text)
    case Hole(v) => at < |items| && items[at] == Value(v)
  }

  /** From at on, items spell text. */
  ghost predicate Spells(items: seq<Item>, at: nat, text: Bytes) {
    at + |text| <= |items| && forall k :: 0 <= k < |text| ==> items[at + k] == Byte(text[k])
  }

  lemma {:induction false} SpelledState(ctx: Context, items: seq<Item>, at: nat, text: Bytes, n: nat)
    requires Spells(items, at, text) && n <= |text|
    ensures ItemState(ctx, items, at + n) == Fed(ctx, ItemState(ctx, items, at), text, n)
  {
    if n > 0 {
      SpelledState(ctx, items, at, text, n - 1);
      assert items[at + (n - 1)] == Byte(text[n - 1]);
    }
  }

  lemma ByteWritten(ctx: Context, items: seq<Item>, n: nat, b: byte)
    requires 0 < n <= |items| && items[n - 1] == Byte(b)
    ensures Written(ctx, items, n) == Written(ctx, items, n - 1) + [b]
  {
  }

  lemma {:induction false} SpelledText(ctx: Context, items: seq<Item>, at: nat, text: Bytes, n: nat)
    requires Spells(items, at, text) && n <= |text|
    ensures Written(ctx, items, at + n) == Written(ctx, items, at) + text[..n]
  {
    hide ItemText;
    if n > 0 {
      SpelledText(ctx, items, at, text, n - 1);
      assert items[at + (n - 1)] == Byte(text[n - 1]);
      ByteWritten(ctx, items, at + n, text[n - 1]);
      assert text[..n] == text[..n - 1] + [text[n - 1]];
      Joins(Written(ctx, items, at), text[..n - 1], [text[n - 1]]);
    }
  }

  lemma LiteralIsItems(ctx: Context, items: seq<Item>, at: nat, text: Bytes)
    requires Spells(items, at, text)
    ensures ItemState(ctx, items, at + |text|) == Fed(ctx, ItemState(ctx, items, at), text, |text|)
    ensures Written(ctx, items, at + |text|) == Written(ctx, items, at) + text
  {
    hide ItemText, FedByte;
    SpelledState(ctx, items, at, text, |text|);
    SpelledText(ctx, items, at, text, |text|);
    assert text[..|text|] == text;
  }

  lemma HoleIsItem(ctx: Context, items: seq<Item>, at: nat, v: Val)
    requires at < |items| && items[at] == Value(v)
    ensures ItemState(ctx, items, at + 1) == AfterValue(ctx, ItemState(ctx, items, at))
    ensures Written(ctx, items, at + 1) == Written(ctx, items, at) + Rendered(ctx, ItemState(ctx, items, at), v)
  {
  }

  function Width(p: Piece): nat {
    if p.Literal? then |p.text| else 1
  }

  lemma PieceIsItems(ctx: Context, items: seq<Item>, at: nat, p: Piece)
    requires PieceLies(items, at, p)
    ensures at + Width(p) <= |items|
    ensures ItemState(ctx, items, at + Width(p)) ==
            if p.Literal? then Fed(ctx, ItemState(ctx, items, at), p.text, |p.text|)
            else AfterValue(ctx, ItemState(ctx, items, at))
    ensures Written(ctx, items, at + Width(p)) == Written(ctx, items, at) + PieceText(ctx, ItemState(ctx, items, at), p)
  {
    if p.Literal? {
      LiteralIsItems(ctx, items, at, p.text);
    } else {
      HoleIsItem(ctx, items, at, p.v);
    }
  }

  lemma NothingYet(ctx: Context, items: seq<Item>, pieces: seq<Piece>)
    ensures ItemState(ctx, items, 0) == StateAt(ctx, pieces, 0) && Written(ctx, items, 0) == Output(ctx, pieces, 0)
  {
  }

  /** Piece by piece and byte by byte the same is written. */
  lemma {:induction false} PiecesAreItems(ctx: Context, items: seq<Item>, pieces: seq<Piece>, n: nat, at: nat)
    requires SpellOut(items, pieces) && n <= |pieces| && at == Offset(pieces, n)
    ensures at <= |items|
    ensures ItemState(ctx, items, at) == StateAt(ctx, pieces, n)
    ensures Written(ctx, items, at) == Output(ctx, pieces, n)
  {
    hide PieceLies, PieceText, Written, ItemState, Fed;
    if n == 0 {
      NothingYet(ctx, items, pieces);
    } else {
      var before, p := Offset(pieces, n - 1), pieces[n - 1];
      PiecesAreItems(ctx, items, pieces, n - 1, before);
      assert PieceLies(items, before, p);
      PieceIsItems(ctx, items, before, p);
      assert at == before + Width(p);
    }
  }

  /** A rendered form body splits into the template's pairs and the repeats. */
  lemma FormSplitsIntoPairs(pieces: seq<Piece>, items: seq<Item>)
    requires SpellOut(items, pieces)
    ensures Split(Output(FormBody, pieces, |pieces|)) == Whole(Pairs(items, |items|))
  {
    PiecesAreItems(FormBody, items, pieces, |pieces|, |items|);
    BodySplitsIntoPairs(items);
  }
}

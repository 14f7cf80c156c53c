/** What a form body is, said of the values sent and of the bytes written (adapter/form.go). */
module FormFacts {
  import opened Bytes
  import opened Decimals
  import opened Form
  import opened FormTheorems
  import opened Sequences
  import opened UrlFacts

  // ---------- Which pairs are sent ----------

  function EntriesFrom(e: Entries, i: nat): Entries {
    if i == 0 || e.NoEntries? then e else EntriesFrom(e.rest, i - 1)
  }

  function ElemsFrom(e: Elems, i: nat): Elems {
    if i == 0 || e.NoElems? then e else ElemsFrom(e.rest, i - 1)
  }

  /** A key that ends in [] without it. */
  function Bare(key: Bytes): Bytes {
    if |key| >= 2 && key[|key| - 2..] == [91, 93] then key[..|key| - 2] else key
  }

  /** Going down v by these places, entries of maps and elements of lists, there is a scalar, and pair is what is sent
      for it: its text, under key with the name of each entry passed in brackets, and with the place of each element
      passed that is itself a map or a list. */
  predicate LeadsTo(key: Bytes, v: FormValue, places: seq<nat>, pair: Pair)
    decreases |places|
  {
    if places == [] then v == Scalar(pair.value) && pair.key == key
    else
      match v
      case Dict(entries) =>
        var e := EntriesFrom(entries, places[0]);
        e.Entry? && LeadsTo(key + ([91] + e.name + [93]), e.value, places[1..], pair)
      case Multi(elems) =>
        var e := ElemsFrom(elems, places[0]);
        && e.Elem?
        && var at := if e.value.Dict? || e.value.Multi? then Bare(key) + ([91] + Decimal(places[0]) + [93]) else key;
           LeadsTo(at, e.value, places[1..], pair)
      case _ => false
  }

  ghost predicate Earlier(a: seq<nat>, b: seq<nat>) {
    exists k :: 0 <= k < |a| && k < |b| && a[..k] == b[..k] && a[k] < b[k]
  }

  /** These pairs are those of the scalars in v from place i on, in order. */
  ghost predicate SendsFrom(key: Bytes, v: FormValue, i: nat, pairs: seq<Pair>, at: seq<seq<nat>>) {
    && |at| == |pairs|
    && (forall k :: 0 <= k < |at| ==> LeadsTo(key, v, at[k], pairs[k]) && at[k] != [] && at[k][0] >= i)
    && (forall j, k :: 0 <= j < k < |at| ==> Earlier(at[j], at[k]))
    && (forall p, pair :: LeadsTo(key, v, p, pair) && p != [] && p[0] >= i ==> p in at)
  }

  ghost predicate SendsAll(key: Bytes, v: FormValue, pairs: seq<Pair>, at: seq<seq<nat>>) {
    && |at| == |pairs|
    && (forall k :: 0 <= k < |at| ==> LeadsTo(key, v, at[k], pairs[k]))
    && (forall j, k :: 0 <= j < k < |at| ==> Earlier(at[j], at[k]))
    && (forall p, pair :: LeadsTo(key, v, p, pair) ==> p in at)
  }

  /** The pairs a value sends are one for each scalar in it, in order. */
  lemma {:induction false} PairsAreScalars(key: Bytes, v: FormValue) returns (at: seq<seq<nat>>)
    ensures SendsAll(key, v, PairsOf(key, v), at)
    decreases v, 0
  {
    match v {
      case Nil =>
        at := [];
      case Scalar(text) =>
        at := [[]];
      case Dict(entries) =>
        at := EntriesAreScalars(key, entries, entries, 0);
      case Multi(elems) =>
        at := ElemsAreScalars(key, elems, elems, 0);
    }
  }

  lemma {:induction false} NextEntry(e: Entries, i: nat)
    requires EntriesFrom(e, i).Entry?
    ensures EntriesFrom(e, i + 1) == EntriesFrom(e, i).rest
  {
    if i > 0 {
      NextEntry(e.rest, i - 1);
    }
  }

  lemma {:induction false} NextElem(e: Elems, i: nat)
    requires ElemsFrom(e, i).Elem?
    ensures ElemsFrom(e, i + 1) == ElemsFrom(e, i).rest
  {
    if i > 0 {
      NextElem(e.rest, i - 1);
    }
  }

  lemma {:induction false} NoEntriesOn(e: Entries, i: nat, j: nat)
    requires EntriesFrom(e, i).NoEntries? && i <= j
    ensures EntriesFrom(e, j).NoEntries?
  {
    if i > 0 && e.Entry? {
      NoEntriesOn(e.rest, i - 1, j - 1);
    }
  }

  lemma {:induction false} NoElemsOn(e: Elems, i: nat, j: nat)
    requires ElemsFrom(e, i).NoElems? && i <= j
    ensures ElemsFrom(e, j).NoElems?
  {
    if i > 0 && e.Elem? {
      NoElemsOn(e.rest, i - 1, j - 1);
    }
  }

  lemma {:induction false} EntriesAreScalars(key: Bytes, all: Entries, e: Entries, i: nat)
      returns (at: seq<seq<nat>>)
    requires EntriesFrom(all, i) == e
    ensures SendsFrom(key, Dict(all), i, EntryPairs(key, e), at)
    decreases e, 1
  {
    if e.NoEntries? {
      at := [];
      forall j: nat | i <= j ensures EntriesFrom(all, j).NoEntries? {
        NoEntriesOn(all, i, j);
      }
    } else {
      NextEntry(all, i);
      var sub := PairsAreScalars(SubKey(key, e.name), e.value);
      var rest := EntriesAreScalars(key, all, e.rest, i + 1);
      at := Under(i, sub) + rest;
      forall p: seq<nat>, pair ensures LeadsTo(key, Dict(all), [i] + p, pair)
          == LeadsTo(SubKey(key, e.name), e.value, p, pair) {
        assert ([i] + p)[1..] == p;
      }
      FirstThenRest(key, Dict(all), i, SubKey(key, e.name), e.value, PairsOf(SubKey(key, e.name), e.value), sub,
        EntryPairs(key, e.rest), rest);
    }
  }

  lemma {:induction false} ElemsAreScalars(key: Bytes, all: Elems, e: Elems, i: nat) returns (at: seq<seq<nat>>)
    requires ElemsFrom(all, i) == e
    ensures SendsFrom(key, Multi(all), i, ElemPairs(key, e, i), at)
    decreases e, 1
  {
    if e.NoElems? {
      at := [];
      forall j: nat | i <= j ensures ElemsFrom(all, j).NoElems? {
        NoElemsOn(all, i, j);
      }
    } else {
      NextElem(all, i);
      IndexedIs(key, i);
      var below := if IsNested(e.value) then IndexedKey(key, i) else key;
      var sub := PairsAreScalars(below, e.value);
      var rest := ElemsAreScalars(key, all, e.rest, i + 1);
      at := Under(i, sub) + rest;
      forall p: seq<nat>, pair ensures LeadsTo(key, Multi(all), [i] + p, pair) == LeadsTo(below, e.value, p, pair) {
        assert ([i] + p)[1..] == p;
      }
      FirstThenRest(key, Multi(all), i, below, e.value, PairsOf(below, e.value), sub,
        ElemPairs(key, e.rest, i + 1), rest);
    }
  }

  lemma IndexedIs(key: Bytes, i: nat)
    ensures IndexedKey(key, i) == Bare(key) + ([91] + Decimal(i) + [93])
  {
    if |key| >= 2 {
      assert key[|key| - 2..] == [key[|key| - 2], key[|key| - 1]];
    }
  }

  function Under(i: nat, places: seq<seq<nat>>): seq<seq<nat>> {
    seq(|places|, k requires 0 <= k < |places| => [i] + places[k])
  }

  /** What is sent from place i on is what the value there sends, and then what is sent from the next place on. */
  lemma FirstThenRest(key: Bytes, v: FormValue, i: nat, below: Bytes, child: FormValue, first: seq<Pair>,
                      sub: seq<seq<nat>>, later: seq<Pair>, rest: seq<seq<nat>>)
    requires SendsAll(below, child, first, sub) && SendsFrom(key, v, i + 1, later, rest)
    requires forall p, pair :: LeadsTo(key, v, [i] + p, pair) == LeadsTo(below, child, p, pair)
    ensures SendsFrom(key, v, i, first + later, Under(i, sub) + rest)
  {
    hide LeadsTo, Earlier;
    var pairs, at := first + later, Under(i, sub) + rest;
    forall k | 0 <= k < |at| ensures LeadsTo(key, v, at[k], pairs[k]) && at[k] != [] && at[k][0] >= i {
      if k < |sub| {
        assert at[k] == [i] + sub[k] && pairs[k] == first[k];
      } else {
        assert at[k] == rest[k - |sub|] && pairs[k] == later[k - |sub|];
      }
    }
    InOrder(i, sub, rest);
    forall p, pair | LeadsTo(key, v, p, pair) && p != [] && p[0] >= i ensures p in at {
      if p[0] == i {
        assert p == [i] + p[1..];
        assert LeadsTo(below, child, p[1..], pair);
      }
      InEither(i, sub, rest, p);
    }
  }

  lemma InOrder(i: nat, sub: seq<seq<nat>>, rest: seq<seq<nat>>)
    requires forall j, k :: 0 <= j < k < |sub| ==> Earlier(sub[j], sub[k])
    requires forall j, k :: 0 <= j < k < |rest| ==> Earlier(rest[j], rest[k])
    requires forall k :: 0 <= k < |rest| ==> rest[k] != [] && rest[k][0] > i
    ensures var at := Under(i, sub) + rest;
      forall j, k :: 0 <= j < k < |at| ==> Earlier(at[j], at[k])
  {
    hide Earlier;
    var at := Under(i, sub) + rest;
    forall j, k | 0 <= j < k < |at| ensures Earlier(at[j], at[k]) {
      if k < |sub| {
        EarlierUnder(i, sub[j], sub[k]);
      } else if j < |sub| {
        EarlierAtOnce([i] + sub[j], rest[k - |sub|]);
      } else {
        assert at[j] == rest[j - |sub|] && at[k] == rest[k - |sub|];
      }
    }
  }

  lemma InEither(i: nat, sub: seq<seq<nat>>, rest: seq<seq<nat>>, p: seq<nat>)
    requires p != [] && (if p[0] == i then p[1..] in sub else p in rest)
    ensures p in Under(i, sub) + rest
  {
    if p[0] == i {
      var k :| 0 <= k < |sub| && sub[k] == p[1..];
      assert Under(i, sub)[k] == p;
    }
  }

  lemma EarlierUnder(i: nat, a: seq<nat>, b: seq<nat>)
    requires Earlier(a, b)
    ensures Earlier([i] + a, [i] + b)
  {
    var k :| 0 <= k < |a| && k < |b| && a[..k] == b[..k] && a[k] < b[k];
    assert ([i] + a)[..k + 1] == [i] + a[..k] && ([i] + b)[..k + 1] == [i] + b[..k];
    assert ([i] + a)[k + 1] < ([i] + b)[k + 1];
  }

  lemma EarlierAtOnce(a: seq<nat>, b: seq<nat>)
    requires a != [] && b != [] && a[0] < b[0]
    ensures Earlier(a, b)
  {
    assert a[..0] == b[..0];
  }

  // ---------- How pairs are written ----------

  /** A key's byte: brackets are kept, any other byte is as in a query. */
  predicate WrittenInKey(b: byte, t: Bytes) {
    if b == 91 || b == 93 then t == [b] else WrittenInQuery(b, t)
  }

  lemma {:induction false} KeyBytes(s: Bytes) returns (parts: seq<Bytes>)
    ensures |parts| == |s| && KeyEscape(s) == Flatten(parts)
    ensures forall i :: 0 <= i < |s| ==> WrittenInKey(s[i], parts[i])
  {
    parts := [];
    if s != [] {
      var rest := KeyBytes(s[1..]);
      PercentIsInHex(s[0]);
      parts := [KeyByte(s[0])] + rest;
      assert parts[1..] == rest;
      forall i | 0 <= i < |s| ensures WrittenInKey(s[i], parts[i]) {
        assert i > 0 ==> WrittenInKey(s[1..][i - 1], rest[i - 1]);
      }
    }
  }

  /** A pair is its key, an equals sign and its value, each written byte by byte. */
  lemma PairIsWritten(p: Pair) returns (key: seq<Bytes>, value: seq<Bytes>)
    ensures PairText(p) == Flatten(key) + [61] + Flatten(value) && |key| == |p.key| && |value| == |p.value|
    ensures forall i :: 0 <= i < |key| ==> WrittenInKey(p.key[i], key[i])
    ensures forall i :: 0 <= i < |value| ==> WrittenInQuery(p.value[i], value[i])
  {
    RestoreIsKeyEscape(p.key);
    key := KeyBytes(p.key);
    value := QueryBytes(p.value);
  }

  /** A body is its pairs in order, with an ampersand between any two. */
  lemma BodyGrows(pairs: seq<Pair>, p: Pair)
    ensures BodyOf([]) == [] && BodyOf([p]) == PairText(p)
    ensures pairs != [] ==> BodyOf(pairs + [p]) == BodyOf(pairs) + ([38] + PairText(p))
  {
    var texts := PairTexts(pairs + [p]);
    JoinSame(PairTexts(pairs), texts, [AMPERSAND], |pairs|);
  }

  lemma {:induction false} JoinSame(a: seq<Bytes>, b: seq<Bytes>, separator: Bytes, n: nat)
    requires n <= |a| && n <= |b| && forall i :: 0 <= i < n ==> a[i] == b[i]
    ensures JoinTo(a, separator, n) == JoinTo(b, separator, n)
  {
    if n > 1 {
      JoinSame(a, b, separator, n - 1);
    }
  }
}

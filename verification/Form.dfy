/** Sending values in a form body (adapter/form.go): a pair for each scalar, its key saying where it
    belongs. */
module Form {
  import opened Bytes
  import opened Decimals
  import opened Sequences
  import opened UrlEscape

  const OPEN: byte := 91
  const CLOSE: byte := 93

  /** An input value as a form sees it. A map's names are in the order they are sent, which is sorted. */
  datatype FormValue =
    | Nil
    | Scalar(text: Bytes)
    | Dict(entries: Entries)
    | Multi(elems: Elems)

  datatype Entries = NoEntries | Entry(name: Bytes, value: FormValue, rest: Entries)

  datatype Elems = NoElems | Elem(value: FormValue, rest: Elems)

  datatype Pair = Pair(key: Bytes, value: Bytes)

  predicate IsNested(v: FormValue) {
    v.Dict? || v.Multi?
  }

  function SubKey(key: Bytes, name: Bytes): Bytes {
    key + ([OPEN] + name + [CLOSE])
  }

  predicate EndsInBrackets(key: Bytes) {
    |key| >= 2 && key[|key| - 2] == OPEN && key[|key| - 1] == CLOSE
  }

  /** The key element i has, in a list that is sent under key. */
  function IndexedKey(key: Bytes, i: nat): Bytes {
    SubKey(if EndsInBrackets(key) then key[..|key| - 2] else key, Decimal(i))
  }

  // ---------- The pairs a value sends ----------

  /** A scalar is sent under the key itself, a map's entries each under the key with its name in brackets, and
      a list's elements under the key again, those that nest under the key with their index. */
  function PairsOf(key: Bytes, v: FormValue): seq<Pair>
    decreases v, 0
  {
    match v
    case Nil => []
    case Scalar(text) => [Pair(key, text)]
    case Dict(entries) => EntryPairs(key, entries)
    case Multi(elems) => ElemPairs(key, elems, 0)
  }

  function EntryPairs(key: Bytes, e: Entries): seq<Pair>
    decreases e, 1
  {
    if e.NoEntries? then [] else PairsOf(SubKey(key, e.name), e.value) + EntryPairs(key, e.rest)
  }

  function ElemPairs(key: Bytes, e: Elems, i: nat): seq<Pair>
    decreases e, 1
  {
    if e.NoElems? then []
    else PairsOf(if IsNested(e.value) then IndexedKey(key, i) else key, e.value) + ElemPairs(key, e.rest, i + 1)
  }

  /** Appends the pairs v sends under key. */
  method AppendFormValue(key: Bytes, v: FormValue, pairs: seq<Pair>) returns (r: seq<Pair>)
    ensures r == pairs + PairsOf(key, v)
    decreases v, 0
  {
    match v {
      case Nil =>
        r := pairs;
      case Dict(entries) =>
        r := pairs;
        var rest := entries;
        while rest.Entry?
          invariant r + EntryPairs(key, rest) == pairs + EntryPairs(key, entries)
          invariant rest == entries || rest < entries
          decreases rest
        {
          ghost var was := r;
          r := AppendFormValue(SubKey(key, rest.name), rest.value, r);
          Joins(was, PairsOf(SubKey(key, rest.name), rest.value), EntryPairs(key, rest.rest));
          rest := rest.rest;
        }
      case Multi(elems) =>
        r := pairs;
        var rest, i := elems, 0;
        while rest.Elem?
          invariant i >= 0 && r + ElemPairs(key, rest, i) == pairs + ElemPairs(key, elems, 0)
          invariant rest == elems || rest < elems
          decreases rest
        {
          ghost var was := r;
          var at := if IsNested(rest.value) then IndexedKey(key, i) else key;
          r := AppendFormValue(at, rest.value, r);
          Joins(was, PairsOf(at, rest.value), ElemPairs(key, rest.rest, i + 1));
          rest, i := rest.rest, i + 1;
        }
      case Scalar(text) =>
        r := pairs + [Pair(key, text)];
    }
  }

  // ---------- One pair's text ----------

  const ESCAPED_OPEN: Bytes := [37, 53, 66]
  const ESCAPED_CLOSE: Bytes := [37, 53, 68]

  predicate StartsWith(s: Bytes, prefix: Bytes) {
    |prefix| <= |s| && s[..|prefix|] == prefix
  }

  /** Brackets that were escaped are put back. */
  function RestoreBrackets(s: Bytes): Bytes {
    if s == [] then []
    else if StartsWith(s, ESCAPED_OPEN) then [OPEN] + RestoreBrackets(s[3..])
    else if StartsWith(s, ESCAPED_CLOSE) then [CLOSE] + RestoreBrackets(s[3..])
    else [s[0]] + RestoreBrackets(s[1..])
  }

  function PairText(p: Pair): Bytes {
    RestoreBrackets(QueryEscape(p.key)) + [EQUALS] + QueryEscape(p.value)
  }

  function PairTexts(pairs: seq<Pair>): (r: seq<Bytes>)
    ensures |r| == |pairs|
  {
    seq(|pairs|, i requires 0 <= i < |pairs| => PairText(pairs[i]))
  }

  /** The body that is sent. */
  function BodyOf(pairs: seq<Pair>): Bytes {
    Join(PairTexts(pairs), [AMPERSAND])
  }
}

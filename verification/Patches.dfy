/** Setting and removing values in a JSON body by path (adapter/request_fields.go patchBody, removeIndex, child). */
module Patches {
  import opened Decimals
  import opened JsonString

  /** A decoded body. Leaf is a string, a number, a boolean or null. */
  datatype Doc = Leaf(text: string) | Obj(fields: map<string, Doc>) | Arr(elems: seq<Doc>)

  /** A path's segments, each a key or an index. */
  type Path = seq<string>

  // ---------- Indexes ----------

  predicate IsDigit(c: char) {
    '0' <= c <= '9'
  }

  predicate AllDigits(s: string) {
    s != [] && forall i :: 0 <= i < |s| ==> IsDigit(s[i])
  }

  /** The number the first n digits of s write. */
  function DigitsValue(s: string, n: nat): nat
    requires n <= |s| && forall i :: 0 <= i < |s| ==> IsDigit(s[i])
  {
    if n == 0 then 0 else DigitsValue(s, n - 1) * 10 + (s[n - 1] as int - '0' as int)
  }

  /** A segment as an index: digits, with a sign or without, whatever their size. */
  function Number(s: string): Option<int> {
    if s == [] then None
    else if s[0] == '+' || s[0] == '-' then
      if AllDigits(s[1..])
      then Some(if s[0] == '-' then -(DigitsValue(s[1..], |s| - 1) as int) else DigitsValue(s[1..], |s| - 1))
      else None
    else if AllDigits(s) then Some(DigitsValue(s, |s|))
    else None
  }

  function Index(key: string, n: nat): (i: Option<nat>)
    ensures i.Some? ==> i.value < n
  {
    var a := Number(key);
    if a.Some? && 0 <= a.value < n then Some(a.value) else None
  }

  lemma {:induction false} PrefixValue(s: string, t: string, n: nat)
    requires n <= |s| && n <= |t| && (forall i :: 0 <= i < |s| ==> IsDigit(s[i]))
      && (forall i :: 0 <= i < |t| ==> IsDigit(t[i]))
    requires forall i :: 0 <= i < n ==> s[i] == t[i]
    ensures DigitsValue(s, n) == DigitsValue(t, n)
  {
    if n > 0 {
      PrefixValue(s, t, n - 1);
    }
  }

  lemma {:induction false} DecimalIsNumber(n: nat)
    ensures AllDigits(DecimalText(n)) && DigitsValue(DecimalText(n), |DecimalText(n)|) == n
  {
    TextParts(n);
    var s := DecimalText(n);
    if n >= 10 {
      DecimalIsNumber(n / 10);
      assert s == DecimalText(n / 10) + [Digit(n % 10)];
      PrefixValue(s, DecimalText(n / 10), |s| - 1);
    } else {
      assert DigitsValue(s, 0) == 0;
    }
  }

  /** An index written in decimal is itself. */
  lemma IndexOfDecimal(i: nat, n: nat)
    ensures Index(DecimalText(i), n) == if i < n then Some(i) else None
  {
    DecimalIsNumber(i);
    assert IsDigit(DecimalText(i)[0]);
  }

  // ---------- Reading ----------

  function Child(d: Doc, key: string): Option<Doc> {
    match d
    case Leaf(_) => None
    case Obj(fields) => if key in fields then Some(fields[key]) else None
    case Arr(elems) => var i := Index(key, |elems|); if i.Some? then Some(elems[i.value]) else None
  }

  /** What d has at the path from its segment i on. */
  function Get(d: Doc, p: Path, i: nat): Option<Doc>
    requires i <= |p|
    decreases |p| - i
  {
    if i == |p| then Some(d)
    else
      var c := Child(d, p[i]);
      if c == None then None else Get(c.value, p, i + 1)
  }

  // ---------- Changing ----------

  /** d with another child at a key it can have one at. */
  function With(d: Doc, key: string, c: Doc): Option<Doc> {
    match d
    case Leaf(_) => None
    case Obj(fields) => Some(Obj(fields[key := c]))
    case Arr(elems) => var i := Index(key, |elems|); if i.Some? then Some(Arr(elems[i.value := c])) else None
  }

  function Without(d: Doc, key: string): Option<Doc> {
    match d
    case Leaf(_) => None
    case Obj(fields) => if key in fields then Some(Obj(fields - {key})) else None
    case Arr(elems) =>
      var i := Index(key, |elems|);
      if i.Some? then Some(Arr(elems[..i.value] + elems[i.value + 1..])) else None
  }

  datatype Op = Set(value: Doc) | Remove

  /** What a patch makes of the node that holds the path's last segment. */
  function Change(d: Doc, key: string, op: Op): Option<Doc> {
    match op
    case Set(value) => With(d, key, value)
    case Remove => Without(d, key)
  }

  /** A document after a patch; none where it has nothing to patch. */
  function Patched(d: Doc, p: Path, i: nat, op: Op): Option<Doc>
    requires i < |p|
    decreases |p| - i
  {
    if i == |p| - 1 then Change(d, p[i], op)
    else
      var c := Child(d, p[i]);
      if c == None then None
      else
        var r := Patched(c.value, p, i + 1, op);
        if r == None then None else With(d, p[i], r.value)
  }

  // ---------- As it runs ----------

  /** A segment of a path as it is split: a key or an index, or a query, a wildcard or the like. */
  datatype Segment = Plain(key: string) | Special

  function Keys(segs: seq<Segment>): Path {
    seq(|segs|, i requires 0 <= i < |segs| => if segs[i].Plain? then segs[i].key else "")
  }

  datatype Reply = Body(doc: Doc) | NothingThere | NotPlain | EmptyPath | NotJson

  /** Puts a changed node back at the end of the first n segments: what changing it in place does. */
  method PutBack(d: Doc, p: Path, n: nat, parents: seq<Doc>, changed: Doc, ghost op: Op) returns (r: Doc)
    requires n < |p| && |parents| == n + 1 && Descends(d, p, parents) && Change(parents[n], p[n], op) == Some(changed)
      && n == |p| - 1
    ensures Patched(d, p, 0, op) == Some(r)
  {
    r := changed;
    var k := n;
    while k > 0
      invariant 0 <= k <= n && Patched(parents[k], p, k, op) == Some(r)
    {
      k := k - 1;
      assert StepsDown(p, parents, k);
      r := With(parents[k], p[k], r).value;
    }
  }

  /** The nodes on the way down the path. */
  ghost predicate Descends(d: Doc, p: Path, parents: seq<Doc>) {
    && 0 < |parents| <= |p| && parents[0] == d
    && forall k: nat :: k + 1 < |parents| ==> StepsDown(p, parents, k)
  }

  ghost predicate StepsDown(p: Path, parents: seq<Doc>, k: nat)
    requires k + 1 < |parents| <= |p|
  {
    Child(parents[k], p[k]) == Some(parents[k + 1])
  }

  lemma {:induction false} PatchedFrom(d: Doc, p: Path, parents: seq<Doc>, k: nat, op: Op)
    requires Descends(d, p, parents) && k < |parents| && Patched(parents[k], p, k, op) == None
    ensures Patched(d, p, 0, op) == None
  {
    if k > 0 {
      assert StepsDown(p, parents, k - 1);
      PatchedFrom(d, p, parents, k - 1, op);
    }
  }

  /** Patches a body, which decodes to decoded if it is JSON. */
  method PatchBody(decoded: Option<Doc>, segs: seq<Segment>, op: Op) returns (r: Reply)
    ensures r == NotJson <==> decoded == None
    ensures r == EmptyPath <==> decoded.Some? && segs == []
    ensures r == NotPlain <==> decoded.Some? && exists i :: 0 <= i < |segs| && segs[i].Special?
    ensures r.Body? || r == NothingThere ==>
              r == if Patched(decoded.value, Keys(segs), 0, op).Some?
                then Body(Patched(decoded.value, Keys(segs), 0, op).value) else NothingThere
  {
    if decoded == None {
      return NotJson;
    }
    if segs == [] {
      return EmptyPath;
    }
    for i := 0 to |segs|
      invariant forall k :: 0 <= k < i ==> segs[k].Plain?
    {
      if segs[i].Special? {
        return NotPlain;
      }
    }
    r := PatchAt(decoded.value, Keys(segs), op);
  }

  method PatchAt(d: Doc, p: Path, op: Op) returns (r: Reply)
    requires p != []
    ensures r == if Patched(d, p, 0, op).Some? then Body(Patched(d, p, 0, op).value) else NothingThere
  {
    var parent, parents := d, [d];
    for i := 0 to |p| - 1
      invariant Descends(d, p, parents) && |parents| == i + 1 && parent == parents[i]
    {
      var next := Child(parent, p[i]);
      if next == None {
        PatchedFrom(d, p, parents, i, op);
        return NothingThere;
      }
      ghost var was := parents;
      parent := next.value;
      parents := parents + [parent];
      forall k: nat | k + 1 < |parents| ensures StepsDown(p, parents, k) {
        assert k + 1 < |was| ==> StepsDown(p, was, k);
      }
    }
    var changed := Change(parent, p[|p| - 1], op);
    if changed == None {
      PatchedFrom(d, p, parents, |p| - 1, op);
      return NothingThere;
    }
    var doc := PutBack(d, p, |p| - 1, parents, changed.value, op);
    r := Body(doc);
  }
}

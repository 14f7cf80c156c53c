/** Request templates as the tags and text they are made of (adapter/template.go), and the values that
    fill them. */
module Template {
  import opened Bytes
  import opened Values

  /** What a placeholder is for: a step input, or an element value an iteration block left. */
  datatype Key = Input(name: Bytes) | Element(n: nat)

  /** name holds the keys of a block's tag: {{?a|b}} has two. */
  datatype Tag =
    | Lit(text: Bytes)
    | Placeholder(key: Key)
    | CondOpen(name: seq<Bytes>)
    | IterOpen(name: seq<Bytes>)
    | Close(name: seq<Bytes>)
    | Dot
    | DotField(field: Bytes)
    | Index

  type Inputs = map<Bytes, Val>

  /** Whether an input is there with a value that is not empty. */
  predicate CondPresent(inputs: Inputs, key: Bytes) {
    key in inputs && (if inputs[key].Text? then inputs[key].s != [] else !inputs[key].Null?)
  }

  predicate AnyPresent(inputs: Inputs, name: seq<Bytes>) {
    exists i :: 0 <= i < |name| && CondPresent(inputs, name[i])
  }

  predicate Opens(t: Tag, name: seq<Bytes>) {
    (t.CondOpen? || t.IterOpen?) && t.name == name
  }

  predicate Closes(t: Tag, name: seq<Bytes>) {
    t.Close? && t.name == name
  }

  // ---------- Well-nested templates ----------

  /** A template whose every block is closed inside the block it was opened in. */
  datatype Forest =
    | Empty
    | Leaf(tag: Tag, next: Forest)
    | Block(cond: bool, name: seq<Bytes>, body: Forest, next: Forest)

  predicate IsPlain(t: Tag) {
    !t.CondOpen? && !t.IterOpen? && !t.Close?
  }

  predicate WellNested(f: Forest) {
    match f
    case Empty => true
    case Leaf(t, next) => IsPlain(t) && WellNested(next)
    case Block(_, _, body, next) => WellNested(body) && WellNested(next)
  }

  function OpenTag(cond: bool, name: seq<Bytes>): Tag {
    if cond then CondOpen(name) else IterOpen(name)
  }

  function Flat(f: Forest): seq<Tag> {
    match f
    case Empty => []
    case Leaf(t, next) => [t] + Flat(next)
    case Block(cond, name, body, next) => [OpenTag(cond, name)] + (Flat(body) + ([Close(name)] + Flat(next)))
  }

  function Append(f: Forest, g: Forest): Forest {
    match f
    case Empty => g
    case Leaf(t, next) => Leaf(t, Append(next, g))
    case Block(cond, name, body, next) => Block(cond, name, body, Append(next, g))
  }

  // ---------- Where a block closes ----------

  /** The first closing tag for name from i on that depth others do not take first, or -1. */
  function CloseFrom(s: seq<Tag>, name: seq<Bytes>, i: nat, depth: nat): (r: int)
    requires i <= |s|
    ensures r < 0 || (i <= r < |s| && Closes(s[r], name))
    decreases |s| - i
  {
    if i == |s| then -1
    else if Closes(s[i], name) then (if depth == 0 then i else CloseFrom(s, name, i + 1, depth - 1))
    else CloseFrom(s, name, i + 1, if Opens(s[i], name) then depth + 1 else depth)
  }

  /** The closing tag of a block for name that opened just before from. */
  method FindBlockClose(s: seq<Tag>, name: seq<Bytes>, from: nat) returns (r: int)
    requires from <= |s|
    ensures r == CloseFrom(s, name, from, 0)
  {
    var depth := 0;
    for i := from to |s|
      invariant depth >= 0 && CloseFrom(s, name, i, depth) == CloseFrom(s, name, from, 0)
    {
      if Closes(s[i], name) {
        if depth == 0 {
          return i;
        }
        depth := depth - 1;
      } else if Opens(s[i], name) {
        depth := depth + 1;
      }
    }
    r := -1;
  }

  /** part lies in s at i. */
  predicate LiesAt(s: seq<Tag>, part: seq<Tag>, i: nat) {
    i + |part| <= |s| && forall k :: 0 <= k < |part| ==> s[i + k] == part[k]
  }

  lemma LiesAtParts(s: seq<Tag>, a: seq<Tag>, b: seq<Tag>, i: nat)
    requires LiesAt(s, a + b, i)
    ensures LiesAt(s, a, i) && LiesAt(s, b, i + |a|)
  {
    forall k | 0 <= k < |a| ensures s[i + k] == a[k] {
      assert (a + b)[k] == a[k];
    }
    forall k | 0 <= k < |b| ensures s[i + |a| + k] == b[k] {
      assert (a + b)[|a| + k] == b[k];
    }
  }

  lemma LiesFirst(s: seq<Tag>, t: Tag, rest: seq<Tag>, i: nat)
    requires LiesAt(s, [t] + rest, i)
    ensures i < |s| && s[i] == t && LiesAt(s, rest, i + 1)
  {
    LiesAtParts(s, [t], rest, i);
    assert [t][0] == t;
  }

  /** Where the parts of a block lie. */
  lemma BlockLies(s: seq<Tag>, cond: bool, name: seq<Bytes>, body: seq<Tag>, next: seq<Tag>, i: nat)
    requires LiesAt(s, [OpenTag(cond, name)] + (body + ([Close(name)] + next)), i)
    ensures i + |body| + 2 <= |s| && s[i] == OpenTag(cond, name) && s[i + 1 + |body|] == Close(name)
    ensures LiesAt(s, body, i + 1) && LiesAt(s, next, i + 2 + |body|)
  {
    LiesFirst(s, OpenTag(cond, name), body + ([Close(name)] + next), i);
    LiesAtParts(s, body, [Close(name)] + next, i + 1);
    LiesFirst(s, Close(name), next, i + 1 + |body|);
  }

  lemma BlockIsBalanced(s: seq<Tag>, name: seq<Bytes>, cond: bool, n: seq<Bytes>, i: nat, j: nat, depth: nat)
    requires i < j < |s| && s[i] == OpenTag(cond, n) && s[j] == Close(n)
    requires forall d: nat :: CloseFrom(s, name, i + 1, d) == CloseFrom(s, name, j, d)
    ensures CloseFrom(s, name, i, depth) == CloseFrom(s, name, j + 1, depth)
  {
    var d := if n == name then depth + 1 else depth;
    assert CloseFrom(s, name, i + 1, d) == CloseFrom(s, name, j, d);
  }

  /** A well-nested stretch neither closes what is open nor leaves anything open. */
  lemma {:induction false} StretchIsBalanced(s: seq<Tag>, name: seq<Bytes>, f: Forest, i: nat, depth: nat)
    requires WellNested(f) && LiesAt(s, Flat(f), i)
    ensures CloseFrom(s, name, i, depth) == CloseFrom(s, name, i + |Flat(f)|, depth)
    decreases f
  {
    match f {
      case Empty =>
      case Leaf(t, next) =>
        LiesFirst(s, t, Flat(next), i);
        StretchIsBalanced(s, name, next, i + 1, depth);
      case Block(cond, n, body, next) =>
        BlockLies(s, cond, n, Flat(body), Flat(next), i);
        var j := i + 1 + |Flat(body)|;
        forall d: nat ensures CloseFrom(s, name, i + 1, d) == CloseFrom(s, name, j, d) {
          StretchIsBalanced(s, name, body, i + 1, d);
        }
        BlockIsBalanced(s, name, cond, n, i, j, depth);
        StretchIsBalanced(s, name, next, j + 1, depth);
    }
  }

  /** A block closes at its own closing tag, whatever blocks of the same name are inside it. */
  lemma BlockClosesAtItsOwn(s: seq<Tag>, name: seq<Bytes>, body: Forest, i: nat)
    requires WellNested(body) && LiesAt(s, Flat(body), i) && i + |Flat(body)| < |s|
      && s[i + |Flat(body)|] == Close(name)
    ensures CloseFrom(s, name, i, 0) == i + |Flat(body)|
  {
    StretchIsBalanced(s, name, body, i, 0);
  }
}

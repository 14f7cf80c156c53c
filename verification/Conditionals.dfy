/** Expanding conditional blocks, leftmost first (adapter/template.go expandConditionalBlocks), and what
    it comes to for a well-nested template. */
module Conditionals {
  import opened Bytes
  import opened Template

  datatype Expansion = Expanded(tags: seq<Tag>) | Unclosed(name: seq<Bytes>)

  /** The first conditional opening tag from i on, or -1. */
  function FirstCond(s: seq<Tag>, i: nat): (r: int)
    requires i <= |s|
    ensures r < 0 || (i <= r < |s| && s[r].CondOpen?)
    decreases |s| - i
  {
    if i == |s| then -1 else if s[i].CondOpen? then i else FirstCond(s, i + 1)
  }

  /** s without the block from a to b, or with its body kept. */
  function Round(s: seq<Tag>, a: nat, b: nat, keep: bool): (r: seq<Tag>)
    requires a < b < |s|
    ensures |r| <= |s| - 2
  {
    s[..a] + (if keep then s[a + 1..b] else []) + s[b + 1..]
  }

  datatype Step = Done | Stuck(name: seq<Bytes>) | Next(tags: seq<Tag>)

  /** A round removes the leftmost conditional block or its tags, so the template shrinks. */
  function NextRound(s: seq<Tag>, inputs: Inputs): (r: Step)
    ensures r.Next? ==> |r.tags| < |s|
  {
    var open := FirstCond(s, 0);
    if open < 0 then Done
    else
      var close := CloseFrom(s, s[open].name, open + 1, 0);
      if close < 0 then Stuck(s[open].name) else Next(Round(s, open, close, AnyPresent(inputs, s[open].name)))
  }

  function Expand(s: seq<Tag>, inputs: Inputs): Expansion
    decreases |s|
  {
    match NextRound(s, inputs)
    case Done => Expanded(s)
    case Stuck(name) => Unclosed(name)
    case Next(tags) => Expand(tags, inputs)
  }

  method FindFirst(s: seq<Tag>) returns (r: int)
    ensures r == FirstCond(s, 0)
  {
    for i := 0 to |s|
      invariant FirstCond(s, 0) == FirstCond(s, i)
    {
      if s[i].CondOpen? {
        return i;
      }
    }
    r := -1;
  }

  method ResolveBlock(s: seq<Tag>, open: nat, close: nat, keep: bool) returns (r: seq<Tag>)
    requires open < close < |s|
    ensures r == Round(s, open, close, keep)
  {
    if keep {
      r := s[..open] + s[open + 1..close] + s[close + 1..];
    } else {
      r := s[..open] + s[close + 1..];
    }
  }

  method ExpandConditionalBlocks(tmpl: seq<Tag>, inputs: Inputs) returns (r: Expansion)
    ensures r == Expand(tmpl, inputs)
    ensures r.Expanded? ==> FirstCond(r.tags, 0) < 0
  {
    var result := tmpl;
    var open := FindFirst(result);
    while open >= 0
      invariant open == FirstCond(result, 0) && Expand(result, inputs) == Expand(tmpl, inputs)
      decreases |result|
    {
      var name := result[open].name;
      var close := FindBlockClose(result, name, open + 1);
      if close < 0 {
        return Unclosed(name);
      }
      ghost var was := result;
      result := ResolveBlock(result, open, close, AnyPresent(inputs, name));
      RoundExpands(was, inputs, open, close, name, result);
      ExpandsOn(was, inputs, result);
      open := FindFirst(result);
    }
    r := Expanded(result);
  }

  // ---------- What it means ----------

  /** The body of a block whose key is present takes its place; other conditional blocks are gone. */
  function Prune(f: Forest, inputs: Inputs): Forest {
    match f
    case Empty => Empty
    case Leaf(t, next) => Leaf(t, Prune(next, inputs))
    case Block(cond, name, body, next) =>
      if !cond then Block(false, name, Prune(body, inputs), Prune(next, inputs))
      else if AnyPresent(inputs, name) then Append(Prune(body, inputs), Prune(next, inputs))
      else Prune(next, inputs)
  }

  predicate HasCond(f: Forest) {
    match f
    case Empty => false
    case Leaf(_, next) => HasCond(next)
    case Block(cond, _, body, next) => cond || HasCond(body) || HasCond(next)
  }

  /** The leftmost conditional block: its name and body, and the text before and after it. */
  function NameOf(f: Forest): seq<Bytes>
    requires HasCond(f)
  {
    match f
    case Leaf(_, next) => NameOf(next)
    case Block(cond, name, body, next) => if cond then name else if HasCond(body) then NameOf(body) else NameOf(next)
  }

  function BodyOf(f: Forest): Forest
    requires HasCond(f)
  {
    match f
    case Leaf(_, next) => BodyOf(next)
    case Block(cond, _, body, next) => if cond then body else if HasCond(body) then BodyOf(body) else BodyOf(next)
  }

  function Before(f: Forest): seq<Tag>
    requires HasCond(f)
  {
    match f
    case Leaf(t, next) => [t] + Before(next)
    case Block(cond, name, body, next) =>
      if cond then []
      else if HasCond(body) then [IterOpen(name)] + Before(body)
      else [IterOpen(name)] + (Flat(body) + ([Close(name)] + Before(next)))
  }

  function After(f: Forest): seq<Tag>
    requires HasCond(f)
  {
    match f
    case Leaf(_, next) => After(next)
    case Block(cond, name, body, next) =>
      if cond then Flat(next) else if HasCond(body) then After(body) + ([Close(name)] + Flat(next)) else After(next)
  }

  function Around(before: seq<Tag>, name: seq<Bytes>, body: seq<Tag>, after: seq<Tag>): seq<Tag> {
    before + ([CondOpen(name)] + (body + ([Close(name)] + after)))
  }

  /** f with its leftmost conditional block resolved. */
  function Splice(f: Forest, inputs: Inputs): Forest
    requires HasCond(f)
  {
    match f
    case Leaf(t, next) => Leaf(t, Splice(next, inputs))
    case Block(cond, name, body, next) =>
      if cond then (if AnyPresent(inputs, name) then Append(body, next) else next)
      else if HasCond(body) then Block(false, name, Splice(body, inputs), next)
      else Block(false, name, body, Splice(next, inputs))
  }

  lemma Prepends(pre: seq<Tag>, before: seq<Tag>, rest: seq<Tag>)
    ensures pre + (before + rest) == pre + before + rest
  {
  }

  lemma AroundAppends(before: seq<Tag>, name: seq<Bytes>, body: seq<Tag>, after: seq<Tag>, more: seq<Tag>)
    ensures Around(before, name, body, after) + more == Around(before, name, body, after + more)
  {
    assert [Close(name)] + after + more == [Close(name)] + (after + more);
    assert body + ([Close(name)] + after) + more == body + ([Close(name)] + (after + more));
    Prepends([CondOpen(name)], body + ([Close(name)] + after), more);
    Prepends(before, [CondOpen(name)] + (body + ([Close(name)] + after)), more);
  }

  lemma AroundPrepends(pre: seq<Tag>, before: seq<Tag>, name: seq<Bytes>, body: seq<Tag>, after: seq<Tag>)
    ensures pre + Around(before, name, body, after) == Around(pre + before, name, body, after)
  {
    Prepends(pre, before, [CondOpen(name)] + (body + ([Close(name)] + after)));
  }

  lemma {:induction false} FlatAround(f: Forest)
    requires HasCond(f)
    ensures Flat(f) == Around(Before(f), NameOf(f), Flat(BodyOf(f)), After(f))
    decreases f
  {
    match f {
      case Leaf(t, next) =>
        FlatAround(next);
        AroundPrepends([t], Before(next), NameOf(next), Flat(BodyOf(next)), After(next));
      case Block(cond, name, body, next) =>
        if cond {
          assert [] + ([CondOpen(name)] + (Flat(body) + ([Close(name)] + Flat(next)))) == Flat(f);
        } else if HasCond(body) {
          FlatAround(body);
          AroundAppends(Before(body), NameOf(body), Flat(BodyOf(body)), After(body), [Close(name)] + Flat(next));
          AroundPrepends([IterOpen(name)], Before(body), NameOf(body), Flat(BodyOf(body)),
            After(body) + ([Close(name)] + Flat(next)));
        } else {
          FlatAround(next);
          AroundPrepends([Close(name)], Before(next), NameOf(next), Flat(BodyOf(next)), After(next));
          AroundPrepends(Flat(body), [Close(name)] + Before(next), NameOf(next), Flat(BodyOf(next)), After(next));
          AroundPrepends([IterOpen(name)], Flat(body) + ([Close(name)] + Before(next)), NameOf(next),
            Flat(BodyOf(next)), After(next));
        }
    }
  }

  lemma {:induction false} FlatOfAppend(f: Forest, g: Forest)
    ensures Flat(Append(f, g)) == Flat(f) + Flat(g)
    ensures WellNested(f) && WellNested(g) ==> WellNested(Append(f, g))
    decreases f
  {
    match f {
      case Empty =>
      case Leaf(t, next) => FlatOfAppend(next, g);
      case Block(cond, name, body, next) => FlatOfAppend(next, g);
    }
  }

  /** What a round leaves of the leftmost block. */
  function Kept(f: Forest, inputs: Inputs): seq<Tag>
    requires HasCond(f)
  {
    if AnyPresent(inputs, NameOf(f)) then Flat(BodyOf(f)) else []
  }

  lemma {:induction false} SpliceAround(f: Forest, inputs: Inputs)
    requires HasCond(f) && WellNested(f)
    ensures Flat(Splice(f, inputs)) == Before(f) + (Kept(f, inputs) + After(f))
    ensures WellNested(Splice(f, inputs)) && WellNested(BodyOf(f))
    decreases f
  {
    match f {
      case Leaf(t, next) =>
        SpliceAround(next, inputs);
        Prepends([t], Before(next), Kept(next, inputs) + After(next));
      case Block(cond, name, body, next) =>
        if cond {
          FlatOfAppend(body, next);
          assert [] + (Kept(f, inputs) + Flat(next)) == Kept(f, inputs) + Flat(next);
        } else if HasCond(body) {
          SpliceAround(body, inputs);
          SplicedBody(name, Before(body), Kept(body, inputs), After(body), [Close(name)] + Flat(next));
        } else {
          SpliceAround(next, inputs);
          Prepends([Close(name)], Before(next), Kept(next, inputs) + After(next));
          Prepends(Flat(body), [Close(name)] + Before(next), Kept(next, inputs) + After(next));
          Prepends([IterOpen(name)], Flat(body) + ([Close(name)] + Before(next)), Kept(next, inputs) + After(next));
        }
    }
  }

  lemma SplicedBody(name: seq<Bytes>, before: seq<Tag>, kept: seq<Tag>, after: seq<Tag>, more: seq<Tag>)
    ensures [IterOpen(name)] + (before + (kept + after) + more) == [IterOpen(name)] + before + (kept + (after + more))
  {
    assert before + (kept + after) + more == before + (kept + (after + more));
    Prepends([IterOpen(name)], before, kept + (after + more));
  }

  /** The leftmost conditional tag of the text opens that block, and its own tag closes it. */
  lemma {:induction false} NoCondBefore(f: Forest)
    requires HasCond(f) && WellNested(f)
    ensures NoCond(Before(f))
    decreases f
  {
    match f {
      case Leaf(t, next) => NoCondBefore(next);
      case Block(cond, name, body, next) =>
        if !cond {
          if HasCond(body) {
            NoCondBefore(body);
          } else {
            NoCondBefore(next);
            NoCondInFlat(body);
          }
        }
    }
  }

  lemma {:induction false} NoCondInFlat(f: Forest)
    requires !HasCond(f) && WellNested(f)
    ensures NoCond(Flat(f))
    decreases f
  {
    match f {
      case Empty =>
      case Leaf(t, next) => NoCondInFlat(next);
      case Block(_, _, body, next) =>
        NoCondInFlat(body);
        NoCondInFlat(next);
    }
  }

  lemma {:induction false} FirstCondIs(s: seq<Tag>, i: nat, n: nat)
    requires i <= n <= |s| && (forall k :: i <= k < n ==> !s[k].CondOpen?) && (n < |s| ==> s[n].CondOpen?)
    ensures FirstCond(s, i) == if n < |s| then n else -1
    decreases n - i
  {
    if i < n {
      FirstCondIs(s, i + 1, n);
    }
  }

  lemma AroundLies(before: seq<Tag>, name: seq<Bytes>, body: seq<Tag>, after: seq<Tag>)
    ensures var s, n := Around(before, name, body, after), |before|;
      && |s| == n + |body| + |after| + 2 && s[..n] == before && s[n] == CondOpen(name)
      && s[n + 1..n + 1 + |body|] == body
      && s[n + 1 + |body|] == Close(name) && s[n + 2 + |body|..] == after
  {
  }

  lemma RoundOfAround(before: seq<Tag>, name: seq<Bytes>, body: seq<Tag>, after: seq<Tag>, keep: bool)
    ensures Round(Around(before, name, body, after), |before|, |before| + 1 + |body|, keep)
      == before + ((if keep then body else []) + after)
  {
    AroundLies(before, name, body, after);
  }

  ghost predicate NoCond(s: seq<Tag>) {
    forall k :: 0 <= k < |s| ==> !s[k].CondOpen?
  }

  /** The leftmost conditional tag of such a text opens the block, and the block's own tag closes it. */
  lemma AroundFound(s: seq<Tag>, before: seq<Tag>, name: seq<Bytes>, body: Forest, after: seq<Tag>)
    requires s == Around(before, name, Flat(body), after) && NoCond(before) && WellNested(body)
    ensures |before| + 1 + |Flat(body)| < |s| && s[|before|] == CondOpen(name)
    ensures FirstCond(s, 0) == |before| && CloseFrom(s, name, |before| + 1, 0) == |before| + 1 + |Flat(body)|
  {
    AroundParts(s, before, name, Flat(body), after);
    FirstAfter(s, before);
    BlockClosesAtItsOwn(s, name, body, |before| + 1);
  }

  lemma AroundParts(s: seq<Tag>, before: seq<Tag>, name: seq<Bytes>, body: seq<Tag>, after: seq<Tag>)
    requires s == Around(before, name, body, after)
    ensures var n := |before|;
      && n + 1 + |body| < |s| && s[..n] == before && s[n] == CondOpen(name) && s[n + 1 + |body|] == Close(name)
      && LiesAt(s, body, n + 1)
  {
    AroundLies(before, name, body, after);
    BodyLies(s, body, |before| + 1);
  }

  lemma FirstAfter(s: seq<Tag>, before: seq<Tag>)
    requires |before| < |s| && s[..|before|] == before && NoCond(before) && s[|before|].CondOpen?
    ensures FirstCond(s, 0) == |before|
  {
    forall k | 0 <= k < |before| ensures !s[k].CondOpen? {
      assert s[k] == s[..|before|][k];
    }
    FirstCondIs(s, 0, |before|);
  }

  lemma BodyLies(s: seq<Tag>, body: seq<Tag>, i: nat)
    requires i + |body| <= |s| && s[i..i + |body|] == body
    ensures LiesAt(s, body, i)
  {
    forall k | 0 <= k < |body| ensures s[i + k] == body[k] {
      assert s[i..i + |body|][k] == body[k];
    }
  }

  lemma {:induction false} PruneOfAppend(f: Forest, g: Forest, inputs: Inputs)
    ensures Prune(Append(f, g), inputs) == Append(Prune(f, inputs), Prune(g, inputs))
    decreases f
  {
    match f {
      case Empty =>
      case Leaf(t, next) => PruneOfAppend(next, g, inputs);
      case Block(cond, name, body, next) =>
        PruneOfAppend(next, g, inputs);
        AppendAssociates(Prune(body, inputs), Prune(next, inputs), Prune(g, inputs));
    }
  }

  lemma {:induction false} AppendAssociates(a: Forest, b: Forest, c: Forest)
    ensures Append(Append(a, b), c) == Append(a, Append(b, c))
    decreases a
  {
    match a {
      case Empty =>
      case Leaf(_, next) => AppendAssociates(next, b, c);
      case Block(_, _, _, next) => AppendAssociates(next, b, c);
    }
  }

  /** A round changes nothing about what the template comes to. */
  lemma {:induction false} SplicePrunes(f: Forest, inputs: Inputs)
    requires HasCond(f)
    ensures Prune(Splice(f, inputs), inputs) == Prune(f, inputs)
    decreases f
  {
    match f {
      case Leaf(_, next) => SplicePrunes(next, inputs);
      case Block(cond, _, body, next) =>
        if cond {
          PruneOfAppend(body, next, inputs);
        } else if HasCond(body) {
          SplicePrunes(body, inputs);
        } else {
          SplicePrunes(next, inputs);
        }
    }
  }

  lemma {:induction false} NothingToPrune(f: Forest, inputs: Inputs)
    requires !HasCond(f)
    ensures Prune(f, inputs) == f
    decreases f
  {
    match f {
      case Empty =>
      case Leaf(_, next) => NothingToPrune(next, inputs);
      case Block(_, _, body, next) =>
        NothingToPrune(body, inputs);
        NothingToPrune(next, inputs);
    }
  }

  lemma {:induction false} PrunedHasNoCond(f: Forest, inputs: Inputs)
    requires WellNested(f)
    ensures !HasCond(Prune(f, inputs)) && WellNested(Prune(f, inputs))
    decreases f
  {
    match f {
      case Empty =>
      case Leaf(_, next) => PrunedHasNoCond(next, inputs);
      case Block(_, _, body, next) =>
        PrunedHasNoCond(body, inputs);
        PrunedHasNoCond(next, inputs);
        NoCondInAppend(Prune(body, inputs), Prune(next, inputs));
    }
  }

  lemma {:induction false} NoCondInAppend(f: Forest, g: Forest)
    requires !HasCond(f) && !HasCond(g) && WellNested(f) && WellNested(g)
    ensures !HasCond(Append(f, g)) && WellNested(Append(f, g))
    decreases f
  {
    match f {
      case Empty =>
      case Leaf(_, next) => NoCondInAppend(next, g);
      case Block(_, _, _, next) => NoCondInAppend(next, g);
    }
  }

  /** Expanding the text leftmost first is pruning the structure. */
  lemma {:induction false} ExpandIsPrune(f: Forest, inputs: Inputs)
    requires WellNested(f)
    ensures Expand(Flat(f), inputs) == Expanded(Flat(Prune(f, inputs)))
    decreases |Flat(f)|
  {
    if HasCond(f) {
      OneRound(f, inputs);
      SplicePrunes(f, inputs);
      ExpandIsPrune(Splice(f, inputs), inputs);
    } else {
      NoCondInFlat(f);
      FirstCondIs(Flat(f), 0, |Flat(f)|);
      NothingToPrune(f, inputs);
    }
  }

  lemma OneRound(f: Forest, inputs: Inputs)
    requires WellNested(f) && HasCond(f)
    ensures WellNested(Splice(f, inputs)) && |Flat(Splice(f, inputs))| < |Flat(f)|
    ensures Expand(Flat(f), inputs) == Expand(Flat(Splice(f, inputs)), inputs)
  {
    SpliceAround(f, inputs);
    SpliceIsNext(f, inputs);
    ExpandsOn(Flat(f), inputs, Flat(Splice(f, inputs)));
  }

  lemma SpliceIsNext(f: Forest, inputs: Inputs)
    requires WellNested(f) && HasCond(f)
    ensures NextRound(Flat(f), inputs) == Next(Flat(Splice(f, inputs)))
  {
    SpliceAround(f, inputs);
    FlatAround(f);
    NoCondBefore(f);
    NextOfAround(Flat(f), Flat(Splice(f, inputs)), inputs, Before(f), NameOf(f), BodyOf(f), After(f));
  }

  lemma NextOfAround(s: seq<Tag>, next: seq<Tag>, inputs: Inputs, before: seq<Tag>, name: seq<Bytes>, body: Forest,
                     after: seq<Tag>)
    requires s == Around(before, name, Flat(body), after) && NoCond(before) && WellNested(body)
    requires next == before + ((if AnyPresent(inputs, name) then Flat(body) else []) + after)
    ensures NextRound(s, inputs) == Next(next)
  {
    RoundAround(s, next, inputs, before, name, body, after);
    RoundExpands(s, inputs, |before|, |before| + 1 + |Flat(body)|, name, next);
  }

  lemma RoundAround(s: seq<Tag>, next: seq<Tag>, inputs: Inputs, before: seq<Tag>, name: seq<Bytes>, body: Forest,
                    after: seq<Tag>)
    requires s == Around(before, name, Flat(body), after) && NoCond(before) && WellNested(body)
    requires next == before + ((if AnyPresent(inputs, name) then Flat(body) else []) + after)
    ensures RoundLeads(s, next, inputs, |before|, |before| + 1 + |Flat(body)|, name)
  {
    AroundFound(s, before, name, body, after);
    RoundOfAround(before, name, Flat(body), after, AnyPresent(inputs, name));
  }

  /** The round from s to next is the one for the block from open to close. */
  ghost predicate RoundLeads(s: seq<Tag>, next: seq<Tag>, inputs: Inputs, open: nat, close: nat, name: seq<Bytes>) {
    && FirstCond(s, 0) == open && open < close < |s| && s[open] == CondOpen(name)
    && CloseFrom(s, name, open + 1, 0) == close
    && next == Round(s, open, close, AnyPresent(inputs, name))
  }

  lemma RoundExpands(s: seq<Tag>, inputs: Inputs, open: nat, close: nat, name: seq<Bytes>, next: seq<Tag>)
    requires RoundLeads(s, next, inputs, open, close, name)
    ensures NextRound(s, inputs) == Next(next)
  {
  }

  lemma ExpandsOn(s: seq<Tag>, inputs: Inputs, next: seq<Tag>)
    requires NextRound(s, inputs) == Next(next)
    ensures |next| < |s| && Expand(s, inputs) == Expand(next, inputs)
  {
  }
}

/**
 * The prefixes, the output map and the insertion places that composing a list of addons keeps
 * track of (intent/compose.go).
 */
module Compose {
  import opened Addons
  import opened Decimals

  // ---------- Prefixes ----------

  /** The prefix of the i-th addon's IDs. */
  function Prefix(i: nat): string {
    "inc" + DecimalText(i) + "_"
  }

  lemma {:induction false} DigitsOnly(n: nat, k: nat)
    requires k < |DecimalText(n)|
    ensures DecimalText(n)[k] != '_' && DecimalText(n)[k] != '.'
    decreases n
  {
    TextParts(n);
    if k < |DecimalText(n)| - 1 {
      DigitsOnly(n / 10, k);
    }
  }

  lemma PrefixHas(i: nat)
    ensures Prefix(i) != "" && NoDot(Prefix(i)) && |Prefix(i)| == |DecimalText(i)| + 4
    ensures Prefix(i)[|Prefix(i)| - 1] == '_' && forall k :: 0 <= k < |Prefix(i)| - 1 ==> Prefix(i)[k] != '_'
  {
    forall k | 0 <= k < |DecimalText(i)| ensures DecimalText(i)[k] != '_' && DecimalText(i)[k] != '.' {
      DigitsOnly(i, k);
    }
  }

  /** No two addons' IDs are alike, whatever their steps are called. */
  lemma PrefixesApart(i: nat, j: nat, name: string)
    requires i != j
    ensures !StartsWith(Prefix(j), Prefix(i) + name)
  {
    PrefixHas(i);
    PrefixHas(j);
    var s := Prefix(i) + name;
    if StartsWith(Prefix(j), s) {
      assert s[|Prefix(i)| - 1] == '_' && s[|Prefix(j)| - 1] == '_';
      SameLength(Prefix(i), Prefix(j), s);
      assert Prefix(i)[3..|Prefix(i)| - 1] == DecimalText(i) && Prefix(j)[3..|Prefix(j)| - 1] == DecimalText(j);
      TextsDiffer(i, j);
    }
  }

  lemma SameLength(a: string, b: string, s: string)
    requires |a| > 0 && |b| > 0 && StartsWith(a, s) && StartsWith(b, s)
    requires a[|a| - 1] == '_' && forall k :: 0 <= k < |a| - 1 ==> a[k] != '_'
    requires b[|b| - 1] == '_' && forall k :: 0 <= k < |b| - 1 ==> b[k] != '_'
    ensures a == b
  {
    assert forall k :: 0 <= k < |a| ==> s[k] == a[k];
    assert forall k :: 0 <= k < |b| ==> s[k] == b[k];
    assert |a| == |b|;
  }

  lemma HeadStarts(p: string, ref: string)
    ensures StartsWith(p, Head(ref)) ==> StartsWith(p, ref)
  {
  }

  lemma ShortEnough(p: string, id: string, s: string)
    requires NoDot(p) && StartsWith(p, s) && |id| < |s| && s[|id|] == '.'
    ensures |p| <= |id|
  {
    assert forall k :: 0 <= k < |p| ==> p[k] == s[k];
  }

  /** A reference to a step begins with an addon's prefix only when the step's ID does. */
  lemma RefStarts(p: string, id: string, rest: string)
    requires NoDot(p) && |rest| > 0 && rest[0] == '.'
    ensures StartsWith(p, id + rest) ==> StartsWith(p, id)
  {
    var s := id + rest;
    if StartsWith(p, s) {
      ShortEnough(p, id, s);
      assert s[..|p|] == id[..|p|];
    }
  }

  // ---------- What a plan's steps give ----------

  function OutputsOf(s: Step, given: map<string, seq<string>>, before: map<string, string>, n: nat): map<string, string>
    requires s.node in given && n <= |given[s.node]|
  {
    if n == 0 then before
    else OutputsOf(s, given, before, n - 1)[given[s.node][n - 1] := IdOf(s) + ("." + given[s.node][n - 1])]
  }

  /** For each output the last of the first n steps that gives it, those expected to fail passed over. */
  function OutputMap(steps: seq<Step>, given: map<string, seq<string>>, n: nat): map<string, string>
    requires n <= |steps|
  {
    if n == 0 then map[]
    else
      var before, s := OutputMap(steps, given, n - 1), steps[n - 1];
      if s.failing || s.node !in given then before else OutputsOf(s, given, before, |given[s.node]|)
  }

  ghost predicate Gives(s: Step, given: map<string, seq<string>>, output: string) {
    !s.failing && s.node in given && output in given[s.node]
  }

  lemma {:induction false} OutputsOfIs(s: Step, given: map<string, seq<string>>, before: map<string, string>, n: nat,
                                       output: string)
    requires s.node in given && n <= |given[s.node]|
    ensures var m := OutputsOf(s, given, before, n);
      if exists k :: 0 <= k < n && given[s.node][k] == output then output in m && m[output] == IdOf(s) + ("." + output)
      else (output in m <==> output in before) && (output in m ==> m[output] == before[output])
  {
    if n > 0 {
      OutputsOfIs(s, given, before, n - 1, output);
    }
  }

  /** The last step to give an output is the one an input of its name is wired to. */
  lemma {:induction false} LastGiverWins(steps: seq<Step>, given: map<string, seq<string>>, n: nat, output: string)
    returns (at: int)
    requires n <= |steps|
    ensures at < 0 <==> output !in OutputMap(steps, given, n)
    ensures at < 0 ==> forall k :: 0 <= k < n ==> !Gives(steps[k], given, output)
    ensures at >= 0 ==> at < n && Gives(steps[at], given, output)
                        && OutputMap(steps, given, n)[output] == IdOf(steps[at]) + ("." + output)
    ensures forall k :: 0 <= at < k < n ==> !Gives(steps[k], given, output)
  {
    if n == 0 {
      at := -1;
    } else {
      at := LastGiverWins(steps, given, n - 1, output);
      var s := steps[n - 1];
      if !s.failing && s.node in given {
        OutputsOfIs(s, given, OutputMap(steps, given, n - 1), |given[s.node]|, output);
        if output in given[s.node] {
          at := n - 1;
        }
      }
    }
  }

  const AFTER := "$after."

  /** An addon's wires, with the insertion step's ID for $after. */
  function ResolvedWire(wire: map<string, string>, after: string): map<string, string> {
    map k | k in wire :: if StartsWith(AFTER, wire[k]) then after + wire[k][|AFTER| - 1..] else wire[k]
  }

  // ---------- Where an addon goes ----------

  /** The last of the first n steps on the node, or "". */
  function StepByNode(steps: seq<Step>, node: string, n: nat): string
    requires n <= |steps|
  {
    if n == 0 then "" else if steps[n - 1].node == node then IdOf(steps[n - 1]) else StepByNode(steps, node, n - 1)
  }

  lemma {:induction false} StepByNodeIs(steps: seq<Step>, node: string, n: nat)
    requires n <= |steps|
    ensures StepByNode(steps, node, n) != "" ==> exists k :: 0 <= k < n && IdOf(steps[k]) == StepByNode(steps, node, n)
  {
    if n > 0 {
      StepByNodeIs(steps, node, n - 1);
    }
  }

  method FindStepByNode(steps: seq<Step>, node: string) returns (last: string)
    ensures last == StepByNode(steps, node, |steps|)
  {
    last := "";
    for i := 0 to |steps|
      invariant last == StepByNode(steps, node, i)
    {
      if steps[i].node == node {
        last := IdOf(steps[i]);
      }
    }
  }

  /** Where an addon goes of the nodes it may follow: behind the addons that went there, or else the
      last step on the node; and under which node it does. */
  function Place(steps: seq<Step>, nodes: seq<string>, last: map<string, string>, i: nat): (string, string)
    requires i <= |nodes|
    decreases |nodes| - i
  {
    if i == |nodes| then ("", "")
    else if nodes[i] in last then (last[nodes[i]], nodes[i])
    else if StepByNode(steps, nodes[i], |steps|) != "" then (StepByNode(steps, nodes[i], |steps|), nodes[i])
    else Place(steps, nodes, last, i + 1)
  }

  method FindPlace(steps: seq<Step>, nodes: seq<string>, last: map<string, string>)
    returns (after: string, matched: string)
    ensures (after, matched) == Place(steps, nodes, last, 0)
  {
    for i := 0 to |nodes|
      invariant Place(steps, nodes, last, 0) == Place(steps, nodes, last, i)
    {
      if nodes[i] in last {
        return last[nodes[i]], nodes[i];
      }
      var step := FindStepByNode(steps, nodes[i]);
      if step != "" {
        return step, nodes[i];
      }
    }
    after, matched := "", "";
  }

  lemma {:induction false} PlaceIsAStep(steps: seq<Step>, nodes: seq<string>, last: map<string, string>, i: nat)
    requires i <= |nodes| && forall n :: n in last ==> last[n] in IdsOf(steps)
    ensures Place(steps, nodes, last, i).0 != "" ==> Place(steps, nodes, last, i).0 in IdsOf(steps)
    decreases |nodes| - i
  {
    if i < |nodes| {
      StepByNodeIs(steps, nodes[i], |steps|);
      PlaceIsAStep(steps, nodes, last, i + 1);
    }
  }
}

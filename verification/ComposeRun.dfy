/** Composing a plan with its addons, edited in place (intent/compose.go). */
module ComposeRun {
  import opened AddonLists
  import opened AddonMerges
  import opened AddonOrder
  import opened AddonPlans
  import opened Addons
  import opened Compose
  import opened JsonString

  method CollectIds(steps: seq<Step>) returns (ids: set<string>)
    ensures ids == IdsOf(steps)
  {
    ids := {};
    for i := 0 to |steps|
      invariant ids == set k | 0 <= k < i :: IdOf(steps[k])
    {
      ids := ids + {IdOf(steps[i])};
    }
  }

  /** A step's dependencies and references under its addon's names. */
  method RenameOne(s: Step, ids: set<string>, prefix: string) returns (r: Step)
    ensures r == RenameStep(ids, prefix, s)
  {
    var dependsOn, refs := s.dependsOn, s.refs;
    for j := 0 to |s.dependsOn|
      invariant |dependsOn| == |s.dependsOn|
      invariant forall k :: 0 <= k < |dependsOn|
                  ==> dependsOn[k] == if k < j then Rename(ids, prefix, s.dependsOn[k]) else s.dependsOn[k]
    {
      if s.dependsOn[j] in ids {
        dependsOn := dependsOn[j := prefix + s.dependsOn[j]];
      }
    }
    for j := 0 to |s.refs|
      invariant |refs| == |s.refs|
      invariant forall k :: 0 <= k < |refs|
                  ==> refs[k] == if k < j then RenameRef(ids, prefix, s.refs[k]) else s.refs[k]
    {
      if Head(s.refs[j]) in ids {
        refs := refs[j := prefix + s.refs[j]];
      }
    }
    r := Step(if s.id != "" then prefix + s.id else prefix + s.node, s.node, dependsOn, refs, s.markers, s.failing);
  }

  method RenameOneCheck(c: Check, ids: set<string>, prefix: string) returns (r: Check)
    ensures r == RenameCheck(ids, prefix, c)
  {
    var refs := c.refs;
    for j := 0 to |c.refs|
      invariant |refs| == |c.refs|
      invariant forall k :: 0 <= k < |refs|
                  ==> refs[k] == if k < j then RenameRef(ids, prefix, c.refs[k]) else c.refs[k]
    {
      if Head(c.refs[j]) in ids {
        refs := refs[j := prefix + c.refs[j]];
      }
    }
    r := c.(refs := refs);
  }

  method WireOne(s: Step, wire: map<string, string>, outputs: map<string, string>) returns (r: Step)
    ensures r == WireStep(s, wire, outputs)
  {
    var refs: seq<string>, markers: seq<string> := s.refs, [];
    for j := 0 to |s.markers|
      invariant refs == WiredRefs(s, wire, outputs, j) && markers == LeftMarkers(s, wire, outputs, j)
    {
      var input := s.markers[j];
      if input in wire {
        if wire[input] != MANUAL {
          refs := refs + [wire[input]];
        }
      } else if input in outputs {
        refs := refs + [outputs[input]];
      } else {
        markers := markers + [input];
      }
    }
    r := s.(refs := refs, markers := markers);
  }

  method IsRootStep(s: Step, ids: set<string>) returns (r: bool)
    ensures r <==> IsRoot(s, ids)
  {
    for j := 0 to |s.dependsOn|
      invariant forall k :: 0 <= k < j ==> s.dependsOn[k] !in ids
    {
      if s.dependsOn[j] in ids {
        return false;
      }
    }
    r := true;
  }

  method InjectOne(s: Step, ids: set<string>, externalOnly: bool) returns (r: Step)
    ensures r == InjectStep(s, ids, externalOnly)
  {
    var dependsOn := s.dependsOn;
    for j := 0 to |s.refs|
      invariant dependsOn == DepsWith(ids, externalOnly, IdOf(s), s.dependsOn, s.refs, j)
    {
      var step := Head(s.refs[j]);
      if step != "" && step != IdOf(s) && step !in dependsOn && (step in ids) != externalOnly {
        dependsOn := dependsOn + [step];
      }
    }
    r := s.(dependsOn := dependsOn);
  }

  class Plan {
    var steps: seq<Step>
    var cleanup: seq<CleanupStep>
    var checks: seq<Check>

    constructor (steps: seq<Step>, cleanup: seq<CleanupStep>, checks: seq<Check>)
      ensures this.steps == steps && this.cleanup == cleanup && this.checks == checks
    {
      this.steps, this.cleanup, this.checks := steps, cleanup, checks;
    }

    method PrefixStepRefs(prefix: string)
      modifies `steps, `checks
      ensures steps == Renamed(old(steps), prefix) && checks == RenamedChecks(IdsOf(old(steps)), prefix, old(checks))
    {
      var ids := CollectIds(steps);
      for i := 0 to |checks|
        invariant |checks| == |old(checks)| && steps == old(steps)
        invariant forall k :: 0 <= k < |checks|
                    ==> checks[k] == if k < i then RenameCheck(ids, prefix, old(checks)[k]) else old(checks)[k]
      {
        var c := RenameOneCheck(checks[i], ids, prefix);
        checks := checks[i := c];
      }
      for i := 0 to |steps|
        invariant |steps| == |old(steps)| && ids == IdsOf(old(steps))
          && checks == RenamedChecks(ids, prefix, old(checks))
        invariant forall k :: 0 <= k < |steps|
                    ==> steps[k] == if k < i then RenameStep(ids, prefix, old(steps)[k]) else old(steps)[k]
      {
        var s := RenameOne(steps[i], ids, prefix);
        steps := steps[i := s];
      }
    }

    method AutoWirePlaceholders(wire: map<string, string>, outputs: map<string, string>)
      modifies `steps
      ensures steps == Wired(old(steps), wire, outputs)
    {
      for i := 0 to |steps|
        invariant |steps| == |old(steps)|
        invariant forall k :: 0 <= k < |steps|
                    ==> steps[k] == if k < i then WireStep(old(steps)[k], wire, outputs) else old(steps)[k]
      {
        var s := WireOne(steps[i], wire, outputs);
        steps := steps[i := s];
      }
    }

    method AddInsertionDeps(after: string)
      modifies `steps
      ensures steps == Inserted(old(steps), after)
    {
      if after == "" {
        return;
      }
      var ids := CollectIds(steps);
      for i := 0 to |steps|
        invariant |steps| == |old(steps)| && ids == IdsOf(old(steps))
        invariant forall k :: 0 <= k < |steps|
                    ==> steps[k] == if k < i then InsertStep(old(steps)[k], ids, after) else old(steps)[k]
      {
        var root := IsRootStep(steps[i], ids);
        if root {
          steps := steps[i := steps[i].(dependsOn := steps[i].dependsOn + [after])];
        }
      }
    }

    method InjectReferenceDeps(externalOnly: bool)
      modifies `steps
      ensures steps == Injected(old(steps), externalOnly)
    {
      var ids := CollectIds(steps);
      for i := 0 to |steps|
        invariant |steps| == |old(steps)| && ids == IdsOf(old(steps))
        invariant forall k :: 0 <= k < |steps|
                    ==> steps[k] == if k < i then InjectStep(old(steps)[k], ids, externalOnly) else old(steps)[k]
      {
        var s := InjectOne(steps[i], ids, externalOnly);
        steps := steps[i := s];
      }
    }

    method SpliceSteps(addon: seq<Step>, after: string)
      modifies `steps
      ensures steps == Spliced(old(steps), addon, after)
    {
      if addon == [] {
        NothingSpliced(steps, after);
        return;
      }
      var at := |steps|;
      for i := 0 to |steps|
        invariant steps == old(steps) && at == |steps| && PlaceAfter(steps, after, 0) == PlaceAfter(steps, after, i)
      {
        if IdOf(steps[i]) == after {
          at := i + 1;
          break;
        }
      }
      steps := steps[..at] + addon + steps[at..];
    }

    method MergeCleanup(more: seq<CleanupStep>)
      modifies `cleanup
      ensures cleanup == MergedCleanup(old(cleanup), more, |more|)
    {
      if more == [] {
        return;
      }
      var existing: set<string> := {};
      for i := 0 to |cleanup|
        invariant cleanup == old(cleanup) && existing == set k | 0 <= k < i :: cleanup[k].node
      {
        existing := existing + {cleanup[i].node};
      }
      for i := 0 to |more|
        invariant cleanup == MergedCleanup(old(cleanup), more, i)
          && existing == set k | 0 <= k < |cleanup| :: cleanup[k].node
      {
        if more[i].node !in existing {
          ghost var was := cleanup;
          cleanup := cleanup + [more[i]];
          existing := existing + {more[i].node};
          forall n ensures n in existing <==> exists k :: 0 <= k < |cleanup| && cleanup[k].node == n {
            assert cleanup[|was|].node == more[i].node && forall k :: 0 <= k < |was| ==> cleanup[k] == was[k];
          }
        }
      }
    }

    method MergeVerification(more: seq<Check>)
      modifies `checks
      ensures checks == MergedChecks(old(checks), more)
    {
      if more == [] {
        NoneReplaced(checks, |checks|);
        return;
      }
      var replaced: set<string> := {};
      for i := 0 to |more|
        invariant replaced == set k | 0 <= k < i :: more[k].node
      {
        replaced := replaced + {more[i].node};
      }
      var merged: seq<Check> := [];
      for i := 0 to |checks|
        invariant checks == old(checks) && merged == NotReplaced(checks, more, i)
      {
        if checks[i].node !in replaced {
          merged := merged + [checks[i]];
        }
      }
      checks := merged + more;
    }

    method BuildOutputMap(given: map<string, seq<string>>) returns (outputs: map<string, string>)
      ensures outputs == OutputMap(steps, given, |steps|)
    {
      outputs := map[];
      for i := 0 to |steps|
        invariant outputs == OutputMap(steps, given, i)
      {
        var s := steps[i];
        if !s.failing && s.node in given {
          ghost var before := outputs;
          for j := 0 to |given[s.node]|
            invariant outputs == OutputsOf(s, given, before, j)
          {
            outputs := outputs[given[s.node][j] := IdOf(s) + ("." + given[s.node][j])];
          }
        }
      }
    }
  }

  lemma {:induction false} NoneReplaced(checks: seq<Check>, n: nat)
    requires n <= |checks|
    ensures NotReplaced(checks, [], n) == checks[..n]
  {
    if n > 0 {
      NoneReplaced(checks, n - 1);
    }
  }

  lemma NothingSpliced(steps: seq<Step>, after: string)
    ensures Spliced(steps, [], after) == steps
  {
    var at := PlaceAfter(steps, after, 0);
    assert steps == steps[..at] + steps[at..] && steps[..at] + [] == steps[..at];
  }

  // ---------- The list ----------

  /** Makes one addon's plan from its template. */
  method MakeAddon(a: Addon, i: nat, outputs: map<string, string>, after: string) returns (sub: Plan)
    requires a.template.Some?
    ensures fresh(sub) && sub.steps
      == AddonSteps(a.template.value, Prefix(i), ResolvedWire(a.wire, after), outputs, after)
    ensures sub.cleanup == a.cleanup && sub.checks == ChecksOf(a, i)
  {
    hide RenamedChecks;
    sub := new Plan(a.template.value, a.cleanup, a.checks);
    sub.PrefixStepRefs(Prefix(i));
    sub.AutoWirePlaceholders(ResolvedWire(a.wire, after), outputs);
    sub.AddInsertionDeps(after);
    sub.InjectReferenceDeps(true);
  }

  /** Adds one addon to the plan, or says why it cannot be. */
  method AddAddon(parent: Plan, a: Addon, i: nat, last: map<string, string>, given: map<string, seq<string>>,
                  ghost placed: seq<string>)
    returns (failure: Option<Failure>, last': map<string, string>, ghost placed': seq<string>)
    modifies parent
    ensures AddOne(Going(old(parent.steps), last, placed), a, i, given)
            == if failure == None then Going(parent.steps, last', placed') else Stopped(failure.value, parent.steps, i)
    ensures failure == None ==>
              && |placed'| == |placed| + 1
              && parent.cleanup == MergedCleanup(old(parent.cleanup), a.cleanup, |a.cleanup|)
              && parent.checks == MergedChecks(old(parent.checks), ChecksOf(a, i))
    ensures failure.Some? ==> parent.cleanup == old(parent.cleanup) && parent.checks == old(parent.checks)
  {
    hide AddonSteps, Spliced, ResolvedWire, OutputMap, Prefix, MergedCleanup, MergedChecks, ChecksOf;
    last', placed' := last, placed;
    if a.template == None {
      return Some(NoTemplate), last, placed;
    }
    var after, matched := FindPlace(parent.steps, a.nodes, last);
    if after == "" {
      return Some(NoPlace), last, placed;
    }
    if a.template.value == [] {
      return Some(NotLoaded), last, placed;
    }
    var outputs := parent.BuildOutputMap(given);
    var sub := MakeAddon(a, i, outputs, after);
    AddonCount(a.template.value, Prefix(i), ResolvedWire(a.wire, after), outputs, after);
    parent.SpliceSteps(sub.steps, after);
    parent.MergeCleanup(sub.cleanup);
    parent.MergeVerification(sub.checks);
    last' := last[matched := IdOf(sub.steps[|sub.steps| - 1])];
    placed' := placed + [after];
    failure := None;
  }

  /** Adds the addons in the order of their priority, until one cannot be. */
  method ComposeAddonList(parent: Plan, addons: seq<Addon>, given: map<string, seq<string>>)
    returns (failure: Option<Failure>, ghost end: Progress)
    modifies parent
    ensures end == AddAll(old(parent.steps), ByPriority(addons, |addons|), given, |ByPriority(addons, |addons|)|)
    ensures parent.steps == end.steps && failure == if end.Going? then None else Some(end.failure)
    ensures Added(end) <= |ByPriority(addons, |addons|)|
    ensures parent.cleanup == CleanupAfter(old(parent.cleanup), ByPriority(addons, |addons|), Added(end))
    ensures parent.checks == ChecksAfter(old(parent.checks), ByPriority(addons, |addons|), Added(end))
  {
    hide AddOne, MergedCleanup, MergedChecks, ChecksOf;
    var sorted: seq<Addon> := [];
    for i := 0 to |addons|
      invariant sorted == ByPriority(addons, i)
      invariant parent.steps == old(parent.steps) && parent.cleanup == old(parent.cleanup)
        && parent.checks == old(parent.checks)
    {
      sorted := Insert(sorted, addons[i]);
    }
    var last: map<string, string> := map[];
    ghost var placed: seq<string> := [];
    for i := 0 to |sorted|
      invariant AddAll(old(parent.steps), sorted, given, i) == Going(parent.steps, last, placed) && |placed| == i
      invariant parent.cleanup == CleanupAfter(old(parent.cleanup), sorted, i)
      invariant parent.checks == ChecksAfter(old(parent.checks), sorted, i)
    {
      failure, last, placed := AddAddon(parent, sorted[i], i, last, given, placed);
      if failure.Some? {
        end := Stopped(failure.value, parent.steps, i);
        StopsAt(old(parent.steps), sorted, given, i, end);
        return;
      }
    }
    failure, end := None, Going(parent.steps, last, placed);
  }

  /** Once an addon could not be added, no later one is. */
  lemma {:induction false} StaysStopped(steps: seq<Step>, addons: seq<Addon>, given: map<string, seq<string>>, i: nat,
                                        n: nat)
    requires i <= n <= |addons| && AddAll(steps, addons, given, i).Stopped?
    ensures AddAll(steps, addons, given, n) == AddAll(steps, addons, given, i)
    decreases n
  {
    hide AddOne;
    if i < n {
      StaysStopped(steps, addons, given, i, n - 1);
    }
  }

  lemma StopsAt(steps: seq<Step>, addons: seq<Addon>, given: map<string, seq<string>>, i: nat, p: Progress)
    requires i < |addons| && AddAll(steps, addons, given, i).Going?
    requires p == AddOne(AddAll(steps, addons, given, i), addons[i], i, given) && p.Stopped?
    ensures AddAll(steps, addons, given, |addons|) == p
  {
    hide AddOne;
    StaysStopped(steps, addons, given, i + 1, |addons|);
  }
}

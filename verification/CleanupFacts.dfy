/** What a cleanup does, said of the graph, the answers and the run's own steps (engine/cleanup.go,
    engine/cleanup_skip.go, engine/engine.go runCleanup): which cleanups it runs and in what order, what each of
    them records, where a chain goes on, and why an entry is left out. */
module CleanupFacts {
  import opened Cleanup
  import opened CleanupChain
  import opened CleanupPlan
  import opened CleanupSkip
  import opened JsonString
  import opened RunStates
  import opened Sequences

  // ---------- A chain's steps ----------

  /** The step got what it asked for: a status below 400, no error found in the body, and nothing worse than breaking
      the specification. */
  predicate WentWell(r: Result) {
    (r.problem == Fine || r.problem == OasFailed) && r.status < 400 && !r.bodyError
  }

  /** Its node declares a cleanup of its own, which may run. */
  predicate HasAnother(w: Setting, node: string) {
    node in w.graph && w.graph[node].cleanup.node != "" && w.allow(w.graph[node].cleanup.node)
  }

  /** A chain goes on behind a step exactly when that went well and its node has another cleanup: that one is the
      next step, or is left out. */
  lemma GoesOnIff(w: Setting, c: Chain, k: nat)
    requires ChainOk(w, c) && k < |c.results| && !c.results[k].problem.CleanupCycle?
    ensures WentWell(c.results[k]) && HasAnother(w, c.results[k].node) <==> k + 1 < |c.results| || c.skip.Some?
    ensures k + 1 < |c.results| ==>
              && c.results[k + 1].node == w.graph[c.results[k].node].cleanup.node
              && c.results[k + 1].cleanupFor == c.results[k].id
    ensures k + 1 == |c.results| && c.skip.Some? ==>
              && c.skip.value.node == w.graph[c.results[k].node].cleanup.node
              && c.skip.value.cleanupFor == c.results[k].id
  {
    hide Decides, InputsOf, Ran, CameAround;
    if k + 1 < |c.results| {
      EachLinksBack(w, c.first, c.firstFor, c.base, c.results, k);
    } else {
      assert Last(c.results) == c.results[k];
      EntryGivesOne(w, c);
    }
  }

  /** A step records the answer to its own request: the next one the run gets. A node the graph does not have, or a
      request without a response, is a failure to send. */
  lemma RecordIs(w: Setting, c: Chain, k: nat)
    requires ChainOk(w, c) && k < |c.results| && !c.results[k].problem.CleanupCycle?
    ensures var r, a := c.results[k], w.answers(c.base + k);
      if r.node !in w.graph || a.NoAnswer? then r.problem == SendFailed && r.outputs == map[]
      else
        && r.outputs == a.outputs && r.status == a.status && (r.bodyError <==> a.status < 400 && a.bodyError)
        && (r.problem == OasFailed <==> w.strict && a.oasErrors > 0) && (r.problem == Fine || r.problem == OasFailed)
    ensures c.results[k].cleanupFor == if k == 0 then c.firstFor else c.results[k - 1].id
  {
    hide Decides, InputsOf;
    var r, prior := c.results[k], c.results[..k];
    assert StepOf(w, c.first, c.firstFor, c.base, prior, r);
    assert Ran(w, c.first, c.firstFor, c.base, prior, r);
    assert r.(id := "").outputs == r.outputs && r.(id := "").problem == r.problem && r.(id := "").status == r.status
      && r.(id := "").bodyError == r.bodyError && r.(id := "").cleanupFor == r.cleanupFor;
  }

  // ---------- Why an entry is left out ----------

  /** Main step i, behind the one that registered the entry, did the entry's work: it is on the cleanup's node, or on
      one that releases it, succeeded as it should, and sent what the cleanup would, with at least one such input. */
  ghost predicate DidItsWork(w: Setting, entry: Entry, inputs: Outputs, i: nat) {
    && i < |w.mainSteps| && entry.forNode in w.graph
    && (exists k :: 0 <= k < i && w.mainSteps[k].id == entry.forStep)
    && var step, pairing := w.mainSteps[i], w.graph[entry.forNode].cleanup;
       && (step.node == entry.nodeName || step.node in pairing.releasedBy)
       && step.problem == Fine && step.status < 400 && !step.bodyError && !step.expectFailure
       && step.node in w.graph
       && (exists j :: 0 <= j < |w.graph[step.node].inputs| && w.graph[step.node].inputs[j].name in inputs)
       && forall j :: 0 <= j < |w.graph[step.node].inputs| && w.graph[step.node].inputs[j].name in inputs ==>
            var input := w.graph[step.node].inputs[j];
            input.name in step.inputs && w.same(inputs[input.name], step.inputs[input.name], input.typ)
  }

  lemma WorkIs(w: Setting, entry: Entry, inputs: Outputs, i: nat)
    requires IsPairing(w.graph, entry)
    ensures Releases(w, entry, inputs, i) <==> DidItsWork(w, entry, inputs, i)
  {
    if i < |w.mainSteps| && w.mainSteps[i].node in w.graph {
      var declared := w.graph[w.mainSteps[i].node].inputs;
      if DidItsWork(w, entry, inputs, i) {
        forall j | 0 <= j < |declared| ensures SentSame(w.same, declared[j], inputs, w.mainSteps[i].inputs) {
        }
      }
    }
  }

  /** The graph pairs the two nodes. */
  predicate Paired(w: Setting, entry: Entry) {
    entry.forNode in w.graph && entry.nodeName in w.graph && w.graph[entry.forNode].cleanup.node == entry.nodeName
  }

  /** The pairing's condition, read from the outputs of the step that registered the entry, does not hold. */
  predicate ConditionFails(w: Setting, entry: Entry) {
    entry.forNode in w.graph && w.graph[entry.forNode].cleanup.when != ""
    && w.eval(w.graph[entry.forNode].cleanup.when, OutputsOf(w.stored, entry.forStep)).DoesNot?
  }

  /** The first entry of a chain is left out exactly when the graph pairs it and a later main step did its work, the
      first of which it names, or else the pairing's condition does not hold. */
  lemma LeftOutIff(w: Setting, c: Chain)
    requires ChainOk(w, c)
    ensures var entry, inputs := c.first, InputsOf(w, c.first, []);
      && (c.results == [] <==>
            Paired(w, entry) && ((exists i: nat :: DidItsWork(w, entry, inputs, i)) || ConditionFails(w, entry)))
      && (c.results == [] && (exists i: nat :: DidItsWork(w, entry, inputs, i)) ==>
            exists i: nat ::
              && DidItsWork(w, entry, inputs, i) && (forall j: nat :: j < i ==> !DidItsWork(w, entry, inputs, j))
              && c.skip == Some(Released(entry.nodeName, c.firstFor, w.mainSteps[i].id)))
      && (c.results == [] && (forall i: nat :: !DidItsWork(w, entry, inputs, i)) ==>
            c.skip == Some(WhenFalse(entry.nodeName, c.firstFor, w.graph[entry.forNode].cleanup.when)))
  {
    hide InputsOf, DidItsWork, Releases;
    var entry, inputs := c.first, InputsOf(w, c.first, []);
    assert Reversed([]) == [];
    if IsPairing(w.graph, entry) {
      forall i: nat ensures Releases(w, entry, inputs, i) <==> DidItsWork(w, entry, inputs, i) {
        WorkIs(w, entry, inputs, i);
      }
    }
    if c.results != [] {
      var r := c.results[0];
      assert c.results[..0] == [];
      assert StepOf(w, c.first, c.firstFor, c.base, c.results[..0], r);
      assert Ran(w, c.first, c.firstFor, c.base, [], r);
      assert EntryOf(c.first, [], r.node) == entry;
    } else {
      assert DecidesAfter(w, c.first, c.firstFor, [], c.skip.value.node, Skipped(c.skip.value));
    }
  }

  /** Further on in a chain only a condition leaves a step out: the one of the pairing it comes by, read from the
      outputs of the step before. */
  lemma LeftOutLater(w: Setting, c: Chain)
    requires ChainOk(w, c) && c.results != [] && c.skip.Some?
    ensures var last := Last(c.results);
      && last.node in w.graph && w.graph[last.node].cleanup.node in w.graph
      && var pairing := w.graph[last.node].cleanup;
         && pairing.when != "" && w.eval(pairing.when, last.outputs).DoesNot?
         && c.skip.value == WhenFalse(pairing.node, last.id, pairing.when)
  {
    hide InputsOf, Releases;
    var s := c.skip.value;
    assert DecidesAfter(w, c.first, c.firstFor, c.results, s.node, Skipped(s));
    assert Reversed(c.results)[0] == Last(c.results);
    EntryGivesOne(w, c);
  }

  // ---------- The whole of a cleanup ----------

  lemma {:induction false} OwnPick(declared: seq<Declared>, paired: set<string>, passed: bool, n: nat)
      returns (at: seq<nat>)
    requires n <= |declared|
    ensures |at| == |OnTheirOwn(declared, paired, passed, n)| && forall i, j :: 0 <= i < j < |at| ==> at[i] < at[j]
    ensures forall i :: 0 <= i < |at| ==>
              at[i] < n && OnTheirOwn(declared, paired, passed, n)[i] == Entry(declared[at[i]].node, "", "")
    ensures forall k :: 0 <= k < n ==> (k in at <==>
              declared[k].node !in paired
              && (declared[k].runOn == "" || declared[k].runOn == "always"
                  || declared[k].runOn == if passed then "success" else "failure"))
  {
    at := [];
    if n > 0 {
      at := OwnPick(declared, paired, passed, n - 1);
      if declared[n - 1].node !in paired && RunOnMatches(declared[n - 1].runOn, passed) {
        at := at + [n - 1];
      }
    }
  }

  lemma {:induction false} KeptPick(entries: seq<Entry>, keep: Entry -> bool, n: nat) returns (at: seq<nat>)
    requires n <= |entries|
    ensures PickedAt(entries[..n], Kept(entries, keep, n), at)
    ensures forall k :: 0 <= k < n ==> (k in at <==> keep(entries[k]))
  {
    hide PickedAt;
    at := [];
    NothingPicked(entries[..0]);
    if n > 0 {
      at := KeptPick(entries, keep, n - 1);
      at := PickedMore(entries[..n - 1], Kept(entries, keep, n - 1), at, entries[n - 1], keep(entries[n - 1]));
      assert entries[..n] == entries[..n - 1] + [entries[n - 1]];
    }
  }

  /** The steps that can release a cleanup are the plan's own, in order. */
  lemma {:induction false} MainStepsAre(steps: seq<Result>, planIDs: set<string>, n: nat) returns (at: seq<nat>)
    requires n <= |steps|
    ensures PickedAt(steps[..n], MainOf(steps, planIDs, n), at)
    ensures forall k :: 0 <= k < n ==> (k in at <==> steps[k].id in planIDs)
  {
    hide PickedAt;
    at := [];
    NothingPicked(steps[..0]);
    if n > 0 {
      at := MainStepsAre(steps, planIDs, n - 1);
      at := PickedMore(steps[..n - 1], MainOf(steps, planIDs, n - 1), at, steps[n - 1], steps[n - 1].id in planIDs);
      assert steps[..n] == steps[..n - 1] + [steps[n - 1]];
    }
  }

  /** What a run's cleanup begins, in order: each cleanup step of the plan that is paired with none of its nodes and
      asks for this outcome, as declared; and then, from the last pushed, each entry of the stack that may run. */
  lemma WhatBegins(declared: seq<Declared>, paired: set<string>, passed: bool, entries: seq<Entry>, w: Setting,
                   chains: seq<Chain>)
      returns (own: seq<nat>, stacked: seq<nat>)
    requires InOrder(chains, OnTheirOwn(declared, paired, passed, |declared|),
      Kept(entries, ByNode(w.allow), |entries|))
    ensures |chains| == |own| + |stacked|
    ensures forall i, j :: 0 <= i < j < |own| ==> own[i] < own[j]
    ensures forall i, j :: 0 <= i < j < |stacked| ==> stacked[i] < stacked[j]
    ensures forall k :: 0 <= k < |declared| ==> (k in own <==>
              declared[k].node !in paired
              && (declared[k].runOn == "" || declared[k].runOn == "always"
                  || declared[k].runOn == if passed then "success" else "failure"))
    ensures forall k :: 0 <= k < |entries| ==> (k in stacked <==> w.allow(entries[k].nodeName))
    ensures forall k :: 0 <= k < |own| ==>
              own[k] < |declared| && chains[k].first == Entry(declared[own[k]].node, "", "") && chains[k].firstFor == ""
    ensures forall k :: |own| <= k < |chains| ==>
              var at := stacked[|chains| - 1 - k];
              at < |entries| && chains[k].first == entries[at] && chains[k].firstFor == entries[at].forStep
  {
    own := OwnPick(declared, paired, passed, |declared|);
    stacked := KeptPick(entries, ByNode(w.allow), |entries|);
    assert entries[..|entries|] == entries;
    hide OnTheirOwn, Kept;
    var a, b := OnTheirOwn(declared, paired, passed, |declared|), Kept(entries, ByNode(w.allow), |entries|);
    forall k | 0 <= k < |own|
      ensures chains[k].first == Entry(declared[own[k]].node, "", "") && chains[k].firstFor == "" {
      assert Began(chains[k], Begun(a, b, k), "");
    }
    forall k | |own| <= k < |chains|
      ensures chains[k].first == b[|chains| - 1 - k] && chains[k].firstFor == b[|chains| - 1 - k].forStep {
      assert Began(chains[k], Begun(a, b, k), Begun(a, b, k).forStep);
    }
  }
}

/** Running cleanup entries and their chains (engine/cleanup.go). */
module CleanupRunning {
  import opened Cleanup
  import opened CleanupChain
  import opened CleanupSkip
  import opened JsonString
  import opened RunStates
  import opened Sequences

  function OneSkip(skip: Option<Skip>): seq<Skip> {
    if skip.Some? then [skip.value] else []
  }

  /** All the chain's steps but the first n of it are right, and it ends where it must. */
  ghost predicate WholeFrom(w: Setting, first: Entry, firstFor: string, sent: nat, all: seq<Result>, n: nat,
                            skip: Option<Skip>) {
    StepsFrom(w, first, firstFor, sent, all, n) && Ends(w, first, firstFor, all, skip)
  }

  // ---------- Steps of the proof ----------

  lemma SkipIsOfEntry(w: Setting, entry: Entry, cleanupFor: string, inputs: Outputs, before: seq<Result>, s: Skip)
    requires Decides(w, entry, cleanupFor, inputs, before, Skipped(s))
    ensures s.node == entry.nodeName && s.cleanupFor == cleanupFor && IsPairing(w.graph, entry)
  {
  }

  /** The entry's own step is the chain's next. */
  ghost predicate EntryFits(w: Setting, first: Entry, firstFor: string, done: seq<Result>, entry: Entry,
                            cleanupFor: string) {
    && entry.nodeName !in NodesOf(done) && ComesTo(w, first, done, entry.nodeName)
    && entry == EntryOf(first, done, entry.nodeName) && cleanupFor == LinkOf(firstFor, done)
  }

  lemma SkippedEnds(w: Setting, first: Entry, firstFor: string, sent: nat, done: seq<Result>, entry: Entry,
                    cleanupFor: string, s: Skip)
    requires EntryFits(w, first, firstFor, done, entry, cleanupFor)
    requires Decides(w, entry, cleanupFor, InputsOf(w, entry, Reversed(done)), Reversed(done), Skipped(s))
    ensures WholeFrom(w, first, firstFor, sent, done + [], |done|, Some(s))
  {
    SkipIsOfEntry(w, entry, cleanupFor, InputsOf(w, entry, Reversed(done)), Reversed(done), s);
    hide Decides, InputsOf, Reversed, ComesTo, NodesOf;
    assert done + [] == done;
  }

  lemma StepFits(w: Setting, first: Entry, firstFor: string, sent: nat, done: seq<Result>, entry: Entry,
                 cleanupFor: string, r: Result)
    requires EntryFits(w, first, firstFor, done, entry, cleanupFor)
    requires Decides(w, entry, cleanupFor, InputsOf(w, entry, Reversed(done)), Reversed(done), Runs(r.whenUnread))
    requires r.(id := "") == Recorded(w, w.answers(sent + |done|), entry, cleanupFor,
      InputsOf(w, entry, Reversed(done)), r.whenUnread)
    ensures StepOf(w, first, firstFor, sent, done, r)
  {
    hide Decides, InputsOf, Reversed, ComesTo, NodesOf;
    assert r.(id := "").node == entry.nodeName;
  }

  lemma OneStep(w: Setting, first: Entry, firstFor: string, sent: nat, done: seq<Result>, r: Result)
    requires StepOf(w, first, firstFor, sent, done, r)
    ensures StepsFrom(w, first, firstFor, sent, done + [r], |done|)
  {
    hide StepOf;
    assert (done + [r])[..|done|] == done;
  }

  lemma StepThenRest(w: Setting, first: Entry, firstFor: string, sent: nat, done: seq<Result>, r: Result,
                     rest: seq<Result>, skip: Option<Skip>)
    requires StepOf(w, first, firstFor, sent, done, r)
    requires WholeFrom(w, first, firstFor, sent, done + [r] + rest, |done| + 1, skip)
    ensures WholeFrom(w, first, firstFor, sent, done + ([r] + rest), |done|, skip)
  {
    hide StepOf, Ends;
    Joins(done, [r], rest);
    var all := done + [r] + rest;
    assert all[..|done|] == done && all[|done|] == r;
  }

  lemma EndsThere(w: Setting, first: Entry, firstFor: string, sent: nat, done: seq<Result>, r: Result)
    requires StepOf(w, first, firstFor, sent, done, r) && Next(w, r) == None
    ensures WholeFrom(w, first, firstFor, sent, done + [r], |done|, None)
  {
    hide StepOf, Next;
    OneStep(w, first, firstFor, sent, done, r);
    assert Last(done + [r]) == r;
  }

  lemma ComesAround(w: Setting, first: Entry, firstFor: string, sent: nat, done: seq<Result>, r: Result, g: Result)
    requires StepOf(w, first, firstFor, sent, done, r) && Next(w, r) == Some(g.node)
      && CameAround(firstFor, done + [r], g)
    ensures WholeFrom(w, first, firstFor, sent, done + ([r] + [g]), |done|, None)
  {
    var prior := done + [r];
    assert Last(prior) == r;
    assert StepOf(w, first, firstFor, sent, prior, g);
    assert Next(w, g) == None;
    hide StepOf, CameAround, Next;
    EndsThere(w, first, firstFor, sent, prior, g);
    StepThenRest(w, first, firstFor, sent, done, r, [g], None);
  }

  lemma ReversedNext(done: seq<Result>, r: Result)
    ensures Reversed(done + [r]) == [r] + Reversed(done)
    ensures NodesOf(done + [r]) == NodesOf(done) + {r.node}
  {
    var all := done + [r];
    forall n | n in NodesOf(all) ensures n in NodesOf(done) + {r.node} {
      var i :| 0 <= i < |all| && all[i].node == n;
      assert i < |done| ==> done[i].node == n;
    }
    forall n | n in NodesOf(done) + {r.node} ensures n in NodesOf(all) {
      assert all[|done|].node == r.node;
      if n in NodesOf(done) {
        var i :| 0 <= i < |done| && done[i].node == n;
        assert all[i].node == n;
      }
    }
  }

  lemma NextFits(w: Setting, first: Entry, firstFor: string, done: seq<Result>, r: Result, entry: Entry, next: string)
    requires entry == EntryOf(first, done, entry.nodeName) && r.node == entry.nodeName && Next(w, r) == Some(next)
    requires next !in NodesOf(done + [r])
    ensures EntryFits(w, first, firstFor, done + [r], Entry(next, entry.nodeName, entry.forStep), r.id)
  {
    hide Next, NodesOf;
    assert Last(done + [r]) == r;
  }

  lemma NamedNone(taken: set<string>)
    ensures NamedFrom(taken, []) && taken + IdsOf([]) == taken
  {
  }

  lemma RecordedWhose(w: Setting, answer: Answer, entry: Entry, cleanupFor: string, inputs: Outputs, unread: bool)
    ensures var r := Recorded(w, answer, entry, cleanupFor, inputs, unread);
      r.node == entry.nodeName && r.whenUnread == unread && r.cleanupFor == cleanupFor
  {
  }

  lemma SentByOne(w: Setting, r: Result)
    ensures SentBy(w, [r], 1) == if Sent(w, r) then 1 else 0
  {
    assert SentBy(w, [r], 0) == 0;
  }

  lemma AroundAt(firstFor: string, done: seq<Result>, r: Result, g: Result, i: nat, names: seq<string>)
    requires i <= |done| && Reversed(done + [r])[i].node == g.node && g.(id := "") == Stopped(g.node, r.id, names)
    requires names == NamesOf((done + [r])[|done + [r]| - 1 - i..]) + [g.node]
    ensures CameAround(firstFor, done + [r], g)
  {
    var prior, j := done + [r], |done + [r]| - 1 - i;
    assert Reversed(prior)[i] == prior[j] && Last(prior) == r;
    assert g.(id := "").problem == g.problem == CleanupCycle(names);
  }

  /** The place of the node's first step in chain, or -1. */
  method IndexOfNode(chain: seq<Result>, node: string) returns (i: int)
    ensures -1 <= i < |chain|
    ensures i >= 0 ==> chain[i].node == node
    ensures i < 0 <==> node !in NodesOf(chain)
  {
    for k := 0 to |chain|
      invariant forall x :: 0 <= x < k ==> chain[x].node != node
    {
      if chain[k].node == node {
        return k;
      }
    }
    i := -1;
  }

  lemma SameNodes(done: seq<Result>)
    ensures NodesOf(Reversed(done)) == NodesOf(done)
  {
    var back := Reversed(done);
    forall n | n in NodesOf(done) ensures n in NodesOf(back) {
      var i :| 0 <= i < |done| && done[i].node == n;
      assert back[|done| - 1 - i].node == n;
    }
  }

  /** The nodes from the one at i of the chain to its nearest, and then next. */
  method WayBack(chain: seq<Result>, ghost done: seq<Result>, i: nat, next: string) returns (names: seq<string>)
    requires chain == Reversed(done) && i < |chain|
    ensures names == NamesOf(done[|done| - 1 - i..]) + [next]
  {
    names := [];
    var j: int := i;
    while j >= 0
      invariant -1 <= j <= i
      invariant |names| == i - j && forall k :: 0 <= k < |names| ==> names[k] == done[|done| - 1 - i + k].node
    {
      names := names + [chain[j].node];
      j := j - 1;
    }
    assert names == NamesOf(done[|done| - 1 - i..]);
    names := names + [next];
  }

  // ---------- A run's cleanup ----------

  class CleanupRun {
    const w: Setting
    var ids: set<string>
    var skips: seq<Skip>
    var sent: nat

    constructor (w: Setting, taken: set<string>)
      ensures this.w == w && ids == taken && skips == [] && sent == 0
    {
      this.w, ids, skips, sent := w, taken, [], 0;
    }

    /** The node's first free candidate. */
    method NextID(node: string) returns (id: string)
      modifies `ids
      ensures FirstFree(node, id, old(ids)) && ids == old(ids) + {id}
    {
      id := node;
      ghost var at: nat := 1;
      var n: nat := 2;
      while id in ids
        invariant n == at + 1 && at >= 1 && id == Candidate(node, at) && ids == old(ids)
        invariant forall k: nat :: 1 <= k < at ==> Candidate(node, k) in ids
        decreases ids - Tried(node, at)
      {
        TryAnother(node, at, ids);
        at := at + 1;
        id := Candidate(node, n);
        n := n + 1;
      }
      ids := ids + {id};
    }

    /** Sends a cleanup step and records what came of it under an ID of its own. */
    method SendEntry(entry: Entry, cleanupFor: string, inputs: Outputs, unread: bool) returns (r: Result)
      modifies `ids, `sent
      ensures r.(id := "") == Recorded(w, w.answers(old(sent)), entry, cleanupFor, inputs, unread)
      ensures FirstFree(r.node, r.id, old(ids)) && ids == old(ids) + {r.id}
      ensures sent == old(sent) + if Sent(w, r) then 1 else 0
    {
      var answer := w.answers(sent);
      if entry.nodeName !in w.graph || answer.NoAnswer? {
        r := Result("", entry.nodeName, cleanupFor, inputs, map[], SendFailed, 0, false, false, unread);
      } else {
        r := Result("", entry.nodeName, cleanupFor, inputs, answer.outputs, Fine, answer.status,
                    answer.status < 400 && answer.bodyError, false, unread);
        if w.strict && answer.oasErrors > 0 {
          r := r.(problem := OasFailed);
        }
      }
      if entry.nodeName in w.graph {
        sent := sent + 1;
      }
      var id := NextID(entry.nodeName);
      r := r.(id := id);
    }

    method Stop(next: string, cleanupFor: string, names: seq<string>) returns (r: Result)
      modifies `ids
      ensures r.(id := "") == Stopped(next, cleanupFor, names)
      ensures FirstFree(r.node, r.id, old(ids)) && ids == old(ids) + {r.id}
    {
      var id := NextID(next);
      r := Stopped(next, cleanupFor, names).(id := id);
    }

    method ResolveFor(entry: Entry, ancestors: seq<Result>) returns (inputs: Outputs)
      ensures inputs == InputsOf(w, entry, ancestors)
    {
      inputs := map[];
      if entry.nodeName in w.graph {
        var sources := OutputSources(w.owner, w.stored.order, entry.forStep);
        inputs := ResolveCleanupInputs(w, w.graph[entry.nodeName], entry, ancestors, sources);
      }
    }

    /** Sends the entry that is a chain's next. */
    method SendStep(entry: Entry, cleanupFor: string, inputs: Outputs, unread: bool, ghost ancestors: seq<Result>,
                    ghost first: Entry, ghost firstFor: string, ghost base: nat, ghost done: seq<Result>)
                    returns (r: Result)
      requires EntryFits(w, first, firstFor, done, entry, cleanupFor) && ancestors == Reversed(done)
        && sent == base + |done|
      requires inputs == InputsOf(w, entry, ancestors) && Decides(w, entry, cleanupFor, inputs, ancestors, Runs(unread))
      modifies `ids, `sent
      ensures StepOf(w, first, firstFor, base, done, r) && r.node == entry.nodeName
      ensures FirstFree(r.node, r.id, old(ids)) && ids == old(ids) + {r.id}
      ensures sent == old(sent) + if Sent(w, r) then 1 else 0
    {
      hide WholeFrom, StepOf, Decides, InputsOf, Recorded, FirstFree, NodesOf, Reversed;
      r := SendEntry(entry, cleanupFor, inputs, unread);
      RecordedWhose(w, w.answers(base + |done|), entry, cleanupFor, inputs, unread);
      assert r.(id := "").node == entry.nodeName && r.(id := "").whenUnread == unread;
      StepFits(w, first, firstFor, base, done, entry, cleanupFor, r);
    }

    /** Runs the entry and what its cleanup cleans up in turn. done is what the chain begun for first has
        run so far, and ancestors the same, latest first. */
    method RunCleanupChain(entry: Entry, cleanupFor: string, ancestors: seq<Result>,
                           ghost first: Entry, ghost firstFor: string, ghost base: nat, ghost done: seq<Result>)
      returns (results: seq<Result>, ghost skip: Option<Skip>)
      requires EntryFits(w, first, firstFor, done, entry, cleanupFor) && ancestors == Reversed(done)
        && sent == base + |done|
      modifies this
      ensures WholeFrom(w, first, firstFor, base, done + results, |done|, skip)
      ensures skips == old(skips) + OneSkip(skip)
      ensures NamedFrom(old(ids), results) && ids == old(ids) + IdsOf(results)
      ensures sent == old(sent) + SentBy(w, results, |results|)
      decreases w.graph.Keys - NodesOf(done), 1
    {
      hide WholeFrom, StepOf, Decides, InputsOf, Recorded, FirstFree, NodesOf;
      var inputs := ResolveFor(entry, ancestors);
      var d := DecideSkip(w, entry, cleanupFor, inputs, ancestors);
      if d.Skipped? {
        SkippedEnds(w, first, firstFor, base, done, entry, cleanupFor, d.skip);
        NamedNone(ids);
        skips := skips + [d.skip];
        return [], Some(d.skip);
      }
      var r := SendStep(entry, cleanupFor, inputs, d.unread, ancestors, first, firstFor, base, done);
      NamedOne(old(ids), r);
      var rest;
      rest, skip := FollowOn(entry, r, ancestors, first, firstFor, base, done);
      NamedJoin(old(ids), [r], rest);
      IdsJoin([r], rest);
      SentByJoin(w, [r], rest, |rest|);
      SentByOne(w, r);
      results := [r] + rest;
    }

    /** Stops a chain at the node that stands at i of it. */
    method Guard(chain: seq<Result>, i: nat, next: string, r: Result, ghost firstFor: string, ghost done: seq<Result>)
      returns (g: Result)
      requires chain == Reversed(done + [r]) && i < |chain| && chain[i].node == next
      modifies `ids
      ensures CameAround(firstFor, done + [r], g) && g.node == next
      ensures FirstFree(g.node, g.id, old(ids)) && ids == old(ids) + {g.id}
    {
      var names := WayBack(chain, done + [r], i, next);
      g := Stop(next, r.id, names);
      hide FirstFree;
      assert g.(id := "").node == next;
      AroundAt(firstFor, done, r, g, i, names);
    }

    /** After a cleanup step: its own node's cleanup, when it has one to run. */
    method FollowOn(entry: Entry, r: Result, ancestors: seq<Result>,
                    ghost first: Entry, ghost firstFor: string, ghost base: nat, ghost done: seq<Result>)
      returns (rest: seq<Result>, ghost skip: Option<Skip>)
      requires entry == EntryOf(first, done, entry.nodeName) && r.node == entry.nodeName && r.node !in NodesOf(done)
      requires StepOf(w, first, firstFor, base, done, r) && ancestors == Reversed(done)
      requires sent == base + |done| + if Sent(w, r) then 1 else 0
      modifies this
      ensures WholeFrom(w, first, firstFor, base, done + ([r] + rest), |done|, skip)
      ensures skips == old(skips) + OneSkip(skip)
      ensures NamedFrom(old(ids), rest) && ids == old(ids) + IdsOf(rest)
      ensures sent == old(sent) + SentBy(w, rest, |rest|)
      decreases w.graph.Keys - NodesOf(done), 0
    {
      hide WholeFrom, StepOf, InputsOf, FirstFree, NodesOf, Reversed;
      assert [r] + [] == [r];
      NamedNone(ids);
      if r.node !in w.graph || w.graph[r.node].cleanup.node == "" || !Succeeded(r) {
        EndsThere(w, first, firstFor, base, done, r);
        return [], None;
      }
      var next := w.graph[r.node].cleanup.node;
      if !w.allow(next) {
        EndsThere(w, first, firstFor, base, done, r);
        return [], None;
      }
      ReversedNext(done, r);
      SameNodes(done + [r]);
      var chain := [r] + ancestors;
      var i := IndexOfNode(chain, next);
      if i >= 0 {
        var g := Guard(chain, i, next, r, firstFor, done);
        ComesAround(w, first, firstFor, base, done, r, g);
        NamedOne(old(ids), g);
        SentByOne(w, g);
        return [g], None;
      }
      NextFits(w, first, firstFor, done, r, entry, next);
      rest, skip := RunCleanupChain(Entry(next, entry.nodeName, entry.forStep), r.id, chain, first, firstFor, base,
        done + [r]);
      StepThenRest(w, first, firstFor, base, done, r, rest, skip);
    }
  }
}

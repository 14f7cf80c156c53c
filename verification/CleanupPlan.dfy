/**
 * A run's whole cleanup: which nodes run from the stack, and in what order everything runs
 * (engine/engine.go runCleanup).
 */
module CleanupPlan {
  import opened Cleanup
  import opened CleanupChain
  import opened CleanupRunning
  import opened CleanupSkip
  import opened JsonString
  import opened Sequences

  // ---------- Paired nodes ----------

  /** The node that cleans up after a node, or "". */
  function After(g: Graph, node: string): string {
    if node in g then g[node].cleanup.node else ""
  }

  /** s holds the cleanup of every step's node, and of every node in it. */
  ghost predicate Closed(g: Graph, steps: seq<string>, s: set<string>) {
    && (forall i :: 0 <= i < |steps| ==> ClosedAt(g, s, steps[i]))
    && (forall n :: n in s ==> ClosedAt(g, s, n))
  }

  predicate ClosedAt(g: Graph, s: set<string>, n: string) {
    After(g, n) == "" || After(g, n) in s
  }

  ghost predicate InEveryClosed(g: Graph, steps: seq<string>, n: string) {
    forall s :: Closed(g, steps, s) ==> n in s
  }

  /** The graph's cleanup of each step's node and what its chain reaches: the least closed set. */
  method PairedCleanupNodes(g: Graph, steps: seq<string>) returns (paired: set<string>)
    ensures Closed(g, steps, paired)
    ensures forall n :: n in paired ==> n != "" && InEveryClosed(g, steps, n)
  {
    paired := {};
    ghost var all := set n | n in g :: g[n].cleanup.node;
    for i := 0 to |steps|
      invariant paired <= all
      invariant forall k :: 0 <= k < i ==> ClosedAt(g, paired, steps[k])
      invariant forall n :: n in paired ==> n != "" && InEveryClosed(g, steps, n) && ClosedAt(g, paired, n)
    {
      var cur := steps[i];
      while cur in g && g[cur].cleanup.node != "" && g[cur].cleanup.node !in paired
        invariant paired <= all && (cur == steps[i] || cur in paired)
        invariant forall k :: 0 <= k < i ==> ClosedAt(g, paired, steps[k])
        invariant cur == steps[i] || ClosedAt(g, paired, steps[i])
        invariant forall n :: n in paired
                    ==> n != "" && InEveryClosed(g, steps, n) && (n == cur || ClosedAt(g, paired, n))
        decreases all - paired
      {
        var next := g[cur].cleanup.node;
        forall s | Closed(g, steps, s) ensures next in s {
          assert ClosedAt(g, s, cur);
        }
        paired := paired + {next};
        cur := next;
      }
    }
  }

  // ---------- What runs ----------

  /** A plan-level cleanup step. */
  datatype Declared = Declared(node: string, runOn: string)

  predicate RunOnMatches(runOn: string, passed: bool) {
    runOn == "" || runOn == "always" || (runOn == "success" && passed) || (runOn == "failure" && !passed)
  }

  /** Of the first n declared steps, those that run on their own. */
  function OnTheirOwn(declared: seq<Declared>, paired: set<string>, passed: bool, n: nat): seq<Entry>
    requires n <= |declared|
  {
    if n == 0 then []
    else OnTheirOwn(declared, paired, passed, n - 1)
         + if declared[n - 1].node !in paired
           && RunOnMatches(declared[n - 1].runOn, passed) then [Entry(declared[n - 1].node, "", "")] else []
  }

  /** A paired node the plan declares runs only when one of its declarations matches the outcome. */
  ghost predicate Allowed(declared: seq<Declared>, paired: set<string>, passed: bool, node: string) {
    || node !in paired
    || (forall i :: 0 <= i < |declared| ==> declared[i].node != node)
    || (exists i :: 0 <= i < |declared| && declared[i].node == node && RunOnMatches(declared[i].runOn, passed))
  }

  method Split(declared: seq<Declared>, paired: set<string>, passed: bool)
    returns (own: seq<Entry>, allow: string -> bool)
    ensures own == OnTheirOwn(declared, paired, passed, |declared|)
    ensures forall node :: allow(node) <==> Allowed(declared, paired, passed, node)
  {
    own := [];
    var listed: set<string>, selected: set<string> := {}, {};
    for i := 0 to |declared|
      invariant own == OnTheirOwn(declared, paired, passed, i)
      invariant forall n :: n in listed <==> n in paired && exists k :: 0 <= k < i && declared[k].node == n
      invariant forall n :: n in selected <==>
                  n in paired
                  && exists k :: 0 <= k < i && declared[k].node == n && RunOnMatches(declared[k].runOn, passed)
    {
      var matches := RunOnMatches(declared[i].runOn, passed);
      if declared[i].node in paired {
        listed := listed + {declared[i].node};
        if matches {
          selected := selected + {declared[i].node};
        }
      } else if matches {
        own := own + [Entry(declared[i].node, "", "")];
      }
    }
    allow := node => node !in listed || node in selected;
  }

  // ---------- What ran ----------

  /** A chain a run's cleanup ran: what it began with, how many requests came before it, its results,
      and the entry that ended it when one was skipped. */
  datatype Chain = Chain(first: Entry, firstFor: string, base: nat, results: seq<Result>, skip: Option<Skip>)

  ghost predicate ChainOk(w: Setting, c: Chain) {
    WholeFrom(w, c.first, c.firstFor, c.base, c.results, 0, c.skip)
  }

  function ResultsIn(chains: seq<Chain>, n: nat): seq<Result>
    requires n <= |chains|
  {
    if n == 0 then [] else ResultsIn(chains, n - 1) + chains[n - 1].results
  }

  function SkipsIn(chains: seq<Chain>, n: nat): seq<Skip>
    requires n <= |chains|
  {
    if n == 0 then [] else SkipsIn(chains, n - 1) + OneSkip(chains[n - 1].skip)
  }

  /** Where a run's cleanup stands: its IDs, its skips, and the requests it sent. */
  datatype Standing = Standing(ids: set<string>, skips: seq<Skip>, sent: nat)

  /** Running these chains one after the other took the cleanup from a to b. */
  ghost predicate TookTo(w: Setting, chains: seq<Chain>, a: Standing, b: Standing) {
    var results := ResultsIn(chains, |chains|);
    && (forall i :: 0 <= i < |chains| ==> ChainOk(w, chains[i]) && InTurn(w, chains, a.sent, i))
    && NamedFrom(a.ids, results) && b.ids == a.ids + IdsOf(results)
    && b.skips == a.skips + SkipsIn(chains, |chains|)
    && b.sent == a.sent + SentBy(w, results, |results|)
  }

  /** The answers chain i got are those after the answers the chains before it got. */
  ghost predicate InTurn(w: Setting, chains: seq<Chain>, sent: nat, i: nat)
    requires i < |chains|
  {
    chains[i].base == sent + SentBy(w, ResultsIn(chains, i), |ResultsIn(chains, i)|)
  }

  lemma {:induction false} InPrefix(chains: seq<Chain>, c: Chain, n: nat)
    requires n <= |chains|
    ensures ResultsIn(chains + [c], n) == ResultsIn(chains, n) && SkipsIn(chains + [c], n) == SkipsIn(chains, n)
  {
    if n > 0 {
      InPrefix(chains, c, n - 1);
    }
  }

  lemma OneMore(chains: seq<Chain>, c: Chain)
    ensures ResultsIn(chains + [c], |chains| + 1) == ResultsIn(chains, |chains|) + c.results
    ensures SkipsIn(chains + [c], |chains| + 1) == SkipsIn(chains, |chains|) + OneSkip(c.skip)
  {
    InPrefix(chains, c, |chains|);
  }

  lemma GoOn(w: Setting, chains: seq<Chain>, c: Chain, start: nat, sent: nat)
    requires forall i :: 0 <= i < |chains| ==> ChainOk(w, chains[i]) && InTurn(w, chains, start, i)
    requires ChainOk(w, c) && c.base == sent
      == start + SentBy(w, ResultsIn(chains, |chains|), |ResultsIn(chains, |chains|)|)
    ensures forall i :: 0 <= i < |chains + [c]| ==> ChainOk(w, (chains + [c])[i]) && InTurn(w, chains + [c], start, i)
  {
    hide ChainOk, SentBy;
    forall i | 0 <= i < |chains + [c]| ensures ChainOk(w, (chains + [c])[i]) && InTurn(w, chains + [c], start, i) {
      InPrefix(chains, c, i);
      assert i < |chains| ==> InTurn(w, chains, start, i) && (chains + [c])[i] == chains[i];
    }
  }

  lemma TakesOn(w: Setting, chains: seq<Chain>, c: Chain, a: Standing, b: Standing, b': Standing)
    requires TookTo(w, chains, a, b) && ChainOk(w, c) && c.base == b.sent
    requires NamedFrom(b.ids, c.results) && b'.ids == b.ids + IdsOf(c.results)
    requires b'.skips == b.skips + OneSkip(c.skip) && b'.sent == b.sent + SentBy(w, c.results, |c.results|)
    ensures TookTo(w, chains + [c], a, b')
  {
    hide ChainOk, InTurn, NamedFrom, IdsOf, SentBy, OneSkip;
    var before := ResultsIn(chains, |chains|);
    GoOn(w, chains, c, a.sent, b.sent);
    OneMore(chains, c);
    NamedJoin(a.ids, before, c.results);
    IdsJoin(before, c.results);
    SentByJoin(w, before, c.results, |c.results|);
    Joins(a.skips, SkipsIn(chains, |chains|), OneSkip(c.skip));
  }

  lemma TookNowhere(w: Setting, a: Standing)
    ensures TookTo(w, [], a, a)
  {
  }

  ghost function At(run: CleanupRun): Standing
    reads run
  {
    Standing(run.ids, run.skips, run.sent)
  }

  /** Runs an entry's chain from its start. */
  method RunOne(run: CleanupRun, entry: Entry, cleanupFor: string, ghost chains: seq<Chain>, ghost a: Standing)
    returns (results: seq<Result>, ghost c: Chain)
    requires TookTo(run.w, chains, a, At(run))
    modifies run
    ensures TookTo(run.w, chains + [c], a, At(run))
    ensures c.first == entry && c.firstFor == cleanupFor && c.base == old(run.sent) && c.results == results
  {
    hide TookTo, StepsFrom, Ends, NamedFrom, IdsOf, SentBy, OneSkip, Decides;
    ghost var was := At(run);
    ghost var skip;
    results, skip := run.RunCleanupChain(entry, cleanupFor, [], entry, cleanupFor, run.sent, []);
    c := Chain(entry, cleanupFor, was.sent, results, skip);
    assert [] + results == results;
    TakesOn(run.w, chains, c, a, was, At(run));
  }

  ghost predicate Began(c: Chain, entry: Entry, cleanupFor: string) {
    c.first == entry && c.firstFor == cleanupFor
  }

  /** Entry by entry from the last pushed, each with its chain, whatever fails. */
  method RunCleanupStack(run: CleanupRun, entries: seq<Entry>, ghost earlier: seq<Chain>, ghost a: Standing)
    returns (results: seq<Result>, ghost chains: seq<Chain>)
    requires TookTo(run.w, earlier, a, At(run))
    modifies run
    ensures TookTo(run.w, earlier + chains, a, At(run))
    ensures |chains| == |entries| && results == ResultsIn(chains, |chains|)
    ensures forall i :: 0 <= i < |chains|
              ==> Began(chains[i], entries[|entries| - 1 - i], entries[|entries| - 1 - i].forStep)
  {
    hide TookTo;
    results, chains := [], [];
    assert earlier + chains == earlier;
    var i := |entries|;
    while i > 0
      invariant 0 <= i <= |entries| && |chains| == |entries| - i
      invariant TookTo(run.w, earlier + chains, a, At(run)) && results == ResultsIn(chains, |chains|)
      invariant forall k :: 0 <= k < |chains|
                  ==> Began(chains[k], entries[|entries| - 1 - k], entries[|entries| - 1 - k].forStep)
    {
      i := i - 1;
      var more; ghost var c;
      more, c := RunOne(run, entries[i], entries[i].forStep, earlier + chains, a);
      Joins(earlier, chains, [c]);
      OneMore(chains, c);
      results := results + more;
      chains := chains + [c];
    }
  }

  method RunOwn(run: CleanupRun, entries: seq<Entry>, ghost a: Standing)
    returns (results: seq<Result>, ghost chains: seq<Chain>)
    requires a == At(run)
    modifies run
    ensures TookTo(run.w, chains, a, At(run))
    ensures |chains| == |entries| && results == ResultsIn(chains, |chains|)
    ensures forall i :: 0 <= i < |chains| ==> Began(chains[i], entries[i], "")
  {
    hide TookTo;
    results, chains := [], [];
    TookNowhere(run.w, a);
    for i := 0 to |entries|
      invariant |chains| == i
      invariant TookTo(run.w, chains, a, At(run)) && results == ResultsIn(chains, |chains|)
      invariant forall k :: 0 <= k < i ==> Began(chains[k], entries[k], "")
    {
      var more; ghost var c;
      more, c := RunOne(run, entries[i], "", chains, a);
      OneMore(chains, c);
      results := results + more;
      chains := chains + [c];
    }
  }

  lemma {:induction false} InJoin(a: seq<Chain>, b: seq<Chain>, n: nat)
    requires n <= |b|
    ensures ResultsIn(a + b, |a| + n) == ResultsIn(a, |a|) + ResultsIn(b, n)
  {
    if n == 0 {
      InFront(a, b, |a|);
    } else {
      InJoin(a, b, n - 1);
      Joins(ResultsIn(a, |a|), ResultsIn(b, n - 1), b[n - 1].results);
    }
  }

  lemma {:induction false} InFront(a: seq<Chain>, b: seq<Chain>, n: nat)
    requires n <= |a|
    ensures ResultsIn(a + b, n) == ResultsIn(a, n)
  {
    if n > 0 {
      InFront(a, b, n - 1);
    }
  }

  // ---------- A run's cleanup ----------

  /** Of the first n step results, the plan's own main steps'. */
  function MainOf(steps: seq<Result>, planIDs: set<string>, n: nat): seq<Result>
    requires n <= |steps|
  {
    if n == 0 then [] else MainOf(steps, planIDs, n - 1) + if steps[n - 1].id in planIDs then [steps[n - 1]] else []
  }

  method MainSteps(steps: seq<Result>, planIDs: set<string>) returns (r: seq<Result>)
    ensures r == MainOf(steps, planIDs, |steps|)
  {
    r := [];
    for i := 0 to |steps|
      invariant r == MainOf(steps, planIDs, i)
    {
      if steps[i].id in planIDs {
        r := r + [steps[i]];
      }
    }
  }

  /** The entry begun k-th: the plan's own steps in their order, and then the stack from its top. */
  function Begun(own: seq<Entry>, stacked: seq<Entry>, k: nat): Entry
    requires k < |own| + |stacked|
  {
    if k < |own| then own[k] else stacked[|stacked| - 1 - (k - |own|)]
  }

  ghost predicate InOrder(chains: seq<Chain>, own: seq<Entry>, stacked: seq<Entry>) {
    && |chains| == |own| + |stacked|
    && forall k :: 0 <= k < |chains|
         ==> Began(chains[k], Begun(own, stacked, k), if k < |own| then "" else Begun(own, stacked, k).forStep)
  }

  lemma OrderJoins(a: seq<Chain>, b: seq<Chain>, own: seq<Entry>, stacked: seq<Entry>)
    requires |a| == |own| && forall i :: 0 <= i < |a| ==> Began(a[i], own[i], "")
    requires |b| == |stacked|
      && forall i :: 0 <= i < |b| ==> Began(b[i], stacked[|stacked| - 1 - i], stacked[|stacked| - 1 - i].forStep)
    ensures InOrder(a + b, own, stacked)
  {
    hide Began;
    var all := a + b;
    forall k | 0 <= k < |all|
        ensures Began(all[k], Begun(own, stacked, k), if k < |own| then "" else Begun(own, stacked, k).forStep) {
      assert all[k] == if k < |a| then a[k] else b[k - |a|];
    }
  }

  function ByNode(allow: string -> bool): Entry -> bool {
    (entry: Entry) => allow(entry.nodeName)
  }

  /** base is the run's setting but for its main steps and for which nodes a chain may reach. */
  method RunCleanup(base: Setting, declared: seq<Declared>, planNodes: seq<string>, planIDs: set<string>,
                    taken: set<string>, stack: CleanupStack, passed: bool, steps: seq<Result>)
    returns (results: seq<Result>, skips: seq<Skip>, ghost w: Setting, ghost paired: set<string>,
      ghost chains: seq<Chain>, ghost end: Standing)
    modifies stack
    ensures Closed(base.graph, planNodes, paired) && forall n :: n in paired ==> InEveryClosed(base.graph, planNodes, n)
    ensures w == base.(allow := w.allow, mainSteps := MainOf(steps, planIDs, |steps|))
    ensures forall node :: w.allow(node) <==> Allowed(declared, paired, passed, node)
    ensures InOrder(chains, OnTheirOwn(declared, paired, passed, |declared|),
      Kept(old(stack.entries), ByNode(w.allow), |old(stack.entries)|))
    ensures TookTo(w, chains, Standing(taken, [], 0), end)
    ensures results == ResultsIn(chains, |chains|) && skips == end.skips
  {
    hide TookTo, Closed, InEveryClosed, Allowed, Began;
    var pairedNodes := PairedCleanupNodes(base.graph, planNodes);
    paired := pairedNodes;
    var own, allow := Split(declared, pairedNodes, passed);
    stack.Filter(ByNode(allow));
    var main := MainSteps(steps, planIDs);
    var setting := base.(allow := allow, mainSteps := main);
    w := setting;
    var run := new CleanupRun(setting, taken);
    ghost var start := At(run);
    ghost var first; ghost var second;
    results, first := RunOwn(run, own, start);
    var more;
    more, second := RunCleanupStack(run, stack.entries, first, start);
    chains := first + second;
    OrderJoins(first, second, own, stack.entries);
    InJoin(first, second, |second|);
    results := results + more;
    skips := run.skips;
    end := At(run);
  }

  // ---------- What holds of every cleanup ----------

  lemma FirstOfChain(w: Setting, c: Chain)
    requires ChainOk(w, c) && c.results != []
    ensures c.results[0].node == c.first.nodeName && c.results[0].cleanupFor == c.firstFor
  {
    hide Ends, Decides, InputsOf, Recorded;
    var r := c.results[0];
    assert StepOf(w, c.first, c.firstFor, c.base, c.results[..0], r);
    assert Ran(w, c.first, c.firstFor, c.base, c.results[..0], r);
    RecordedWhose(w, w.answers(c.base + 0), c.first, c.firstFor, InputsOf(w, c.first, Reversed([])), r.whenUnread);
    assert r.(id := "").cleanupFor == r.cleanupFor;
  }

  /** An entry gives exactly one of a result and a skip. */
  lemma EntryGivesOne(w: Setting, c: Chain)
    requires ChainOk(w, c)
    ensures c.results == [] ==> c.skip.Some? && c.skip.value.node == c.first.nodeName
                                && c.skip.value.cleanupFor == c.firstFor
    ensures c.results != [] ==> c.results[0].node == c.first.nodeName && c.results[0].cleanupFor == c.firstFor
    ensures c.results != [] && c.skip.Some?
      ==> c.skip.value.cleanupFor == Last(c.results).id && c.skip.value.node != c.first.nodeName
  {
    if c.results != [] {
      FirstOfChain(w, c);
      hide StepsFrom, Decides, InputsOf, Reversed, ComesTo;
      assert c.results[0].node in NodesOf(c.results);
    }
  }

  lemma {:induction false} WhoseResult(chains: seq<Chain>, n: nat, k: nat) returns (i: nat, j: nat)
    requires n <= |chains| && k < |ResultsIn(chains, n)|
    ensures i < n && j < |chains[i].results| && chains[i].results[j] == ResultsIn(chains, n)[k]
  {
    var before := ResultsIn(chains, n - 1);
    if k < |before| {
      i, j := WhoseResult(chains, n - 1, k);
    } else {
      i, j := n - 1, k - |before|;
    }
  }

  /** In a graph without cleanup cycles no chain is ever stopped at runtime, and no two steps share an ID. */
  lemma CleanupIsSound(w: Setting, chains: seq<Chain>, a: Standing, b: Standing, k: nat)
    requires TookTo(w, chains, a, b) && k < |ResultsIn(chains, |chains|)|
    requires forall n :: n in w.graph && n != "" ==> w.graph[n].cleanup.node != n
    requires forall c :: !(CleanupCycles.IsCycle(PairingsOf(w.graph), c) && |c| > 1 && CleanupCycles.IsCanonical(c))
    ensures var r := ResultsIn(chains, |chains|);
      !r[k].problem.CleanupCycle? && r[k].id !in a.ids && forall i :: 0 <= i < k ==> r[i].id != r[k].id
  {
    hide NamedFrom, StepsFrom, Ends;
    var x, y := WhoseResult(chains, |chains|, k);
    GuardIsDead(w, chains[x].first, chains[x].firstFor, chains[x].base, chains[x].results, y);
    var r := ResultsIn(chains, |chains|);
    NamedApart(a.ids, r, k, k);
    forall i | 0 <= i < k ensures r[i].id != r[k].id {
      NamedApart(a.ids, r, i, k);
    }
  }
}

/** One cleanup entry and its chain (engine/cleanup.go): what each step must be, and where the chain ends. */
module CleanupChain {
  import opened CleanupCycles
  import opened CleanupSkip
  import opened JsonString
  import opened RunStates
  import opened TopoOrder

  /** The latest first. */
  function Reversed(prior: seq<Result>): seq<Result> {
    seq(|prior|, i requires 0 <= i < |prior| => prior[|prior| - 1 - i])
  }

  function NodesOf(rs: seq<Result>): set<string> {
    set i | 0 <= i < |rs| :: rs[i].node
  }

  function NamesOf(rs: seq<Result>): seq<string> {
    seq(|rs|, i requires 0 <= i < |rs| => rs[i].node)
  }

  function Last(rs: seq<Result>): Result
    requires rs != []
  {
    rs[|rs| - 1]
  }

  /** A status below 400, and no error found in the body; breaking the specification is no failure here. */
  predicate Succeeded(r: Result) {
    (r.problem == Fine || r.problem == OasFailed) && r.status < 400 && !r.bodyError
  }

  /** What the cleanup of a cleanup step cleans up next. */
  function Next(w: Setting, r: Result): Option<string> {
    if r.node in w.graph && w.graph[r.node].cleanup.node != "" && Succeeded(r) && w.allow(w.graph[r.node].cleanup.node)
    then Some(w.graph[r.node].cleanup.node)
    else None
  }

  /** The entry of node, after prior. */
  function EntryOf(first: Entry, prior: seq<Result>, node: string): Entry {
    if prior == [] then first else Entry(node, Last(prior).node, first.forStep)
  }

  function LinkOf(firstFor: string, prior: seq<Result>): string {
    if prior == [] then firstFor else Last(prior).id
  }

  function InputsOf(w: Setting, entry: Entry, before: seq<Result>): Outputs {
    if entry.nodeName in w.graph then Inputs(w.graph[entry.nodeName].inputs, Supply(w, entry, before)) else map[]
  }

  /** A request's record, once its answer is in; a node the graph does not have sends none. */
  function Recorded(w: Setting, answer: Answer, entry: Entry, cleanupFor: string, inputs: Outputs,
                    unread: bool): Result {
    if entry.nodeName !in w.graph || answer.NoAnswer? then
      Result("", entry.nodeName, cleanupFor, inputs, map[], SendFailed, 0, false, false, unread)
    else
      Result("", entry.nodeName, cleanupFor, inputs, answer.outputs,
        if w.strict && answer.oasErrors > 0 then OasFailed else Fine,
             answer.status, answer.status < 400 && answer.bodyError, false, unread)
  }

  /** The step at which a chain came back to a node it had run. */
  function Stopped(node: string, cleanupFor: string, names: seq<string>): Result {
    Result("", node, cleanupFor, map[], map[], CleanupCycle(names), 0, false, false, false)
  }

  predicate Sent(w: Setting, r: Result) {
    r.node in w.graph && !r.problem.CleanupCycle?
  }

  // ---------- The steps of a chain ----------

  /** The chain begun for first comes to node after prior. */
  predicate ComesTo(w: Setting, first: Entry, prior: seq<Result>, node: string) {
    if prior == [] then node == first.nodeName else Next(w, Last(prior)) == Some(node)
  }

  ghost predicate DecidesAfter(w: Setting, first: Entry, firstFor: string, prior: seq<Result>, node: string,
                               d: Decision) {
    var entry := EntryOf(first, prior, node);
    var before := Reversed(prior);
    Decides(w, entry, LinkOf(firstFor, prior), InputsOf(w, entry, before), before, d)
  }

  /** A step that ran: needed, with what it resolved, and with the answer that was next. */
  ghost predicate Ran(w: Setting, first: Entry, firstFor: string, sent: nat, prior: seq<Result>, r: Result) {
    var entry := EntryOf(first, prior, r.node);
    && r.node !in NodesOf(prior)
    && DecidesAfter(w, first, firstFor, prior, r.node, Runs(r.whenUnread))
    && r.(id := "") == Recorded(w, w.answers(sent + |prior|), entry, LinkOf(firstFor, prior),
                                InputsOf(w, entry, Reversed(prior)), r.whenUnread)
  }

  /** The node ran before in this chain, and the names are the way back to it. */
  ghost predicate CameAround(firstFor: string, prior: seq<Result>, r: Result) {
    && r.problem.CleanupCycle?
    && r.(id := "") == Stopped(r.node, LinkOf(firstFor, prior), r.problem.names)
    && exists j: nat :: j < |prior| && prior[j].node == r.node && r.problem.names == NamesOf(prior[j..]) + [r.node]
  }

  ghost predicate StepOf(w: Setting, first: Entry, firstFor: string, sent: nat, prior: seq<Result>, r: Result) {
    && ComesTo(w, first, prior, r.node)
    && (Ran(w, first, firstFor, sent, prior, r) || CameAround(firstFor, prior, r))
  }

  /** From step n on, each is what the ones before make it. */
  ghost predicate StepsFrom(w: Setting, first: Entry, firstFor: string, sent: nat, all: seq<Result>, n: nat) {
    forall k: nat :: n <= k < |all| ==> StepOf(w, first, firstFor, sent, all[..k], all[k])
  }

  /** After its last step a chain goes nowhere, or what it comes to is no longer needed. */
  ghost predicate Ends(w: Setting, first: Entry, firstFor: string, all: seq<Result>, skip: Option<Skip>) {
    match skip
    case None => all != [] && Next(w, Last(all)) == None
    case Some(s) =>
      s.node !in NodesOf(all) && ComesTo(w, first, all, s.node)
      && DecidesAfter(w, first, firstFor, all, s.node, Skipped(s))
  }

  // ---------- What every chain is ----------

  /** Each step links to the one before it, whose node's cleanup it is and which did its job. */
  lemma EachLinksBack(w: Setting, first: Entry, firstFor: string, sent: nat, all: seq<Result>, k: nat)
    requires StepsFrom(w, first, firstFor, sent, all, 0) && k + 1 < |all|
    ensures all[k + 1].cleanupFor == all[k].id && Succeeded(all[k]) && all[k].node in w.graph
    ensures all[k + 1].node == w.graph[all[k].node].cleanup.node != "" && w.allow(all[k + 1].node)
    ensures !all[k].problem.CleanupCycle? && all[k].node !in NodesOf(all[..k])
  {
    assert StepOf(w, first, firstFor, sent, all[..k + 1], all[k + 1]);
    assert Last(all[..k + 1]) == all[k];
    assert StepOf(w, first, firstFor, sent, all[..k], all[k]);
  }

  lemma RanOnce(w: Setting, first: Entry, firstFor: string, sent: nat, all: seq<Result>, i: nat, k: nat)
    requires StepsFrom(w, first, firstFor, sent, all, 0) && i < k < |all| - 1
    ensures all[i].node != all[k].node
  {
    EachLinksBack(w, first, firstFor, sent, all, k);
    assert all[..k][i].node == all[i].node;
  }

  function PairingsOf(g: Graph): Pairings {
    map n | n in g :: g[n].cleanup.node
  }

  /** Between a node's two visits each node's cleanup is the next one's. */
  lemma GuardedLeads(w: Setting, first: Entry, firstFor: string, sent: nat, all: seq<Result>, j: nat, i: nat)
    requires StepsFrom(w, first, firstFor, sent, all, 0) && j + i < |all| - 1 && all[j].node == Last(all).node
    ensures var n := all[j + i].node;
      n in w.graph && n != "" && w.graph[n].cleanup.node
        == if j + i + 1 < |all| - 1 then all[j + i + 1].node else all[j].node
  {
    hide StepsFrom, Next, Succeeded;
    EachLinksBack(w, first, firstFor, sent, all, j + i);
    NotUnnamed(w, first, firstFor, sent, all, j, i);
  }

  lemma GuardedOnce(w: Setting, first: Entry, firstFor: string, sent: nat, all: seq<Result>, j: nat, c: seq<string>)
    requires StepsFrom(w, first, firstFor, sent, all, 0) && j < |all| - 1 && c == NamesOf(all[j..|all| - 1])
    ensures Distinct(c)
  {
    hide StepsFrom;
    forall a: nat, b: nat | a < b < |c| ensures c[a] != c[b] {
      RanOnce(w, first, firstFor, sent, all, j + a, j + b);
    }
  }

  /** A chain's nodes from j on, when its last step comes back to the node at j. */
  lemma GuardedIsCycle(w: Setting, first: Entry, firstFor: string, sent: nat, all: seq<Result>, j: nat)
    requires StepsFrom(w, first, firstFor, sent, all, 0) && j < |all| - 1 && all[j].node == Last(all).node
    ensures IsCycle(PairingsOf(w.graph), NamesOf(all[j..|all| - 1]))
  {
    hide StepsFrom, Next, Succeeded;
    var c := NamesOf(all[j..|all| - 1]);
    forall i: nat | i < |c| ensures Leads(PairingsOf(w.graph), c, i) {
      GuardedLeads(w, first, firstFor, sent, all, j, i);
    }
    GuardedOnce(w, first, firstFor, sent, all, j, c);
  }

  /** What a chain comes to has a name, as the node it comes back to. */
  lemma NotUnnamed(w: Setting, first: Entry, firstFor: string, sent: nat, all: seq<Result>, j: nat, i: nat)
    requires StepsFrom(w, first, firstFor, sent, all, 0) && j + i < |all| - 1 && all[j].node == Last(all).node
    ensures all[j + i].node != ""
  {
    EachLinksBack(w, first, firstFor, sent, all, if i == 0 then |all| - 2 else j + i - 1);
  }

  /** The runtime guard stops a chain only in a graph whose pairings loop. */
  lemma GuardMeansCycle(w: Setting, first: Entry, firstFor: string, sent: nat, all: seq<Result>, k: nat)
    requires StepsFrom(w, first, firstFor, sent, all, 0) && k < |all| && all[k].problem.CleanupCycle?
    ensures HasCycle(PairingsOf(w.graph))
  {
    if k + 1 < |all| {
      EachLinksBack(w, first, firstFor, sent, all, k);
    } else {
      assert StepOf(w, first, firstFor, sent, all[..k], all[k]);
      var j: nat :| j < |all[..k]| && all[..k][j].node == all[k].node;
      GuardedIsCycle(w, first, firstFor, sent, all, j);
    }
  }

  /** In a graph that passes the static checks the guard is dead code. */
  lemma GuardIsDead(w: Setting, first: Entry, firstFor: string, sent: nat, all: seq<Result>, k: nat)
    requires StepsFrom(w, first, firstFor, sent, all, 0) && k < |all|
    requires forall n :: n in w.graph && n != "" ==> w.graph[n].cleanup.node != n
    requires forall c :: !(IsCycle(PairingsOf(w.graph), c) && |c| > 1 && IsCanonical(c))
    ensures !all[k].problem.CleanupCycle?
  {
    NothingReportedMeansNone(PairingsOf(w.graph));
    if all[k].problem.CleanupCycle? {
      GuardMeansCycle(w, first, firstFor, sent, all, k);
    }
  }
}

/** Which cleanup entries are no longer needed, and what a cleanup sends (engine/cleanup_skip.go). */
module CleanupSkip {
  import opened JsonString
  import opened RunStates
  import opened Values

  datatype Input = Input(name: string, typ: string)

  /** A node's cleanup: its node, "" for none, when it is needed, and the nodes that make it needless. */
  datatype Pairing = Pairing(node: string, when: string, releasedBy: seq<string>)

  datatype Node = Node(inputs: seq<Input>, cleanup: Pairing)

  type Graph = map<string, Node>

  /** A cleanup to run: its node, and the node and the step that registered it. */
  datatype Entry = Entry(nodeName: string, forNode: string, forStep: string)

  datatype Problem = Fine | SendFailed | OasFailed | CleanupCycle(names: seq<string>)

  datatype Result = Result(id: string, node: string, cleanupFor: string, inputs: Outputs, outputs: Outputs,
                           problem: Problem, status: int, bodyError: bool, expectFailure: bool, whenUnread: bool)

  datatype Skip =
    | Released(node: string, cleanupFor: string, releasedBy: string)
    | WhenFalse(node: string, cleanupFor: string, when: string)

  /** What a condition came to. */
  datatype Truth = Holds | DoesNot | Unreadable

  /** What a request came to: nothing, or a response, with the specification's errors in it. */
  datatype Answer = NoAnswer | Response(status: int, bodyError: bool, outputs: Outputs, oasErrors: nat)

  /** What a run's cleanup works on. eval reads a condition, same compares two values of a type,
      and answers is what each request to come will get. */
  datatype Setting = Setting(
    graph: Graph,
    stored: Stored,
    owner: map<string, string>,
    mainSteps: seq<Result>,
    allow: string -> bool,
    strict: bool,
    eval: (string, Outputs) -> Truth,
    same: (Val, Val, string) -> bool,
    answers: nat -> Answer)

  // ---------- What a cleanup sends ----------

  /** The steps whose outputs an entry reads, first to last: the chain's before it, the one that
      registered it, and those of its case and the happy path. */
  function Supply(w: Setting, entry: Entry, before: seq<Result>): seq<Outputs> {
    var source := if entry.forStep == "" then entry.forNode else entry.forStep;
    var sources := Sources(w.owner, w.stored.order, entry.forStep);
    seq(|before|, i requires 0 <= i < |before| => before[i].outputs) + [OutputsOf(w.stored, source)]
    + seq(|sources|, i requires 0 <= i < |sources| => OutputsOf(w.stored, sources[i]))
  }

  /** The value of the first of the outputs from i on that have the name. */
  function Nearest(supply: seq<Outputs>, name: string, i: nat): Option<Val>
    requires i <= |supply|
    decreases |supply| - i
  {
    if i == |supply| then None else if name in supply[i] then Some(supply[i][name]) else Nearest(supply, name, i + 1)
  }

  ghost predicate FirstWith(supply: seq<Outputs>, name: string, i: nat) {
    i < |supply| && name in supply[i] && forall j :: 0 <= j < i ==> name !in supply[j]
  }

  lemma {:induction false} NearestFrom(supply: seq<Outputs>, name: string, i: nat)
    requires i <= |supply| && forall j :: 0 <= j < i ==> name !in supply[j]
    ensures Nearest(supply, name, i) == Nearest(supply, name, 0)
    decreases i
  {
    if i > 0 {
      NearestFrom(supply, name, i - 1);
    }
  }

  /** A name gets the value of the nearest step that has it, and none only when no step does. */
  lemma NearestIsFirst(supply: seq<Outputs>, name: string, i: nat)
    requires FirstWith(supply, name, i)
    ensures Nearest(supply, name, 0) == Some(supply[i][name])
  {
    NearestFrom(supply, name, i);
  }

  lemma NearestOfNone(supply: seq<Outputs>, name: string)
    requires forall j :: 0 <= j < |supply| ==> name !in supply[j]
    ensures Nearest(supply, name, 0) == None
  {
    NearestFrom(supply, name, |supply|);
  }

  method Lookup(w: Setting, entry: Entry, before: seq<Result>, sources: seq<string>, name: string)
    returns (r: Option<Val>)
    requires sources == Sources(w.owner, w.stored.order, entry.forStep)
    ensures r == Nearest(Supply(w, entry, before), name, 0)
  {
    ghost var supply := Supply(w, entry, before);
    for i := 0 to |before|
      invariant forall j :: 0 <= j < i ==> name !in supply[j]
    {
      if name in before[i].outputs {
        NearestIsFirst(supply, name, i);
        return Some(before[i].outputs[name]);
      }
    }
    var source := if entry.forStep == "" then entry.forNode else entry.forStep;
    var own := OutputsOf(w.stored, source);
    if name in own {
      NearestIsFirst(supply, name, |before|);
      return Some(own[name]);
    }
    for i := 0 to |sources|
      invariant forall j :: 0 <= j < |before| + 1 + i ==> name !in supply[j]
    {
      var outputs := OutputsOf(w.stored, sources[i]);
      assert supply[|before| + 1 + i] == outputs;
      if name in outputs {
        NearestIsFirst(supply, name, |before| + 1 + i);
        return Some(outputs[name]);
      }
    }
    NearestOfNone(supply, name);
    r := None;
  }

  function Declared(inputs: seq<Input>): set<string> {
    set i | 0 <= i < |inputs| :: inputs[i].name
  }

  /** Every declared input that some step has a value for, with the nearest one's. */
  function Inputs(declared: seq<Input>, supply: seq<Outputs>): Outputs {
    map name | name in Declared(declared) && Nearest(supply, name, 0).Some? :: Nearest(supply, name, 0).value
  }

  method ResolveCleanupInputs(w: Setting, node: Node, entry: Entry, before: seq<Result>, sources: seq<string>)
    returns (inputs: Outputs)
    requires sources == Sources(w.owner, w.stored.order, entry.forStep)
    ensures inputs == Inputs(node.inputs, Supply(w, entry, before))
  {
    ghost var supply := Supply(w, entry, before);
    inputs := map[];
    for i := 0 to |node.inputs|
      invariant inputs == Inputs(node.inputs[..i], supply)
    {
      var r := Lookup(w, entry, before, sources, node.inputs[i].name);
      DeclaredNext(node.inputs, i);
      if r.Some? {
        inputs := inputs[node.inputs[i].name := r.value];
      }
    }
    assert node.inputs[..|node.inputs|] == node.inputs;
  }

  lemma DeclaredNext(inputs: seq<Input>, i: nat)
    requires i < |inputs|
    ensures Declared(inputs[..i + 1]) == Declared(inputs[..i]) + {inputs[i].name}
  {
    var a, b := inputs[..i], inputs[..i + 1];
    forall name | name in Declared(b) ensures name in Declared(a) + {inputs[i].name} {
      var k :| 0 <= k < |b| && b[k].name == name;
      if k < i {
        assert a[k] == b[k];
      }
    }
    forall name | name in Declared(a) ensures name in Declared(b) {
      var k :| 0 <= k < |a| && a[k].name == name;
      assert b[k] == a[k];
    }
    assert b[i] == inputs[i];
  }

  // ---------- Released already ----------

  predicate SentSame(same: (Val, Val, string) -> bool, input: Input, cleanup: Outputs, sent: Outputs) {
    input.name in cleanup ==> input.name in sent && same(cleanup[input.name], sent[input.name], input.typ)
  }

  /** The two share an input, and every input they share has the same value. */
  ghost predicate SharesAll(same: (Val, Val, string) -> bool, declared: seq<Input>, cleanup: Outputs, sent: Outputs) {
    && (exists i :: 0 <= i < |declared| && declared[i].name in cleanup)
    && (forall i :: 0 <= i < |declared| ==> SentSame(same, declared[i], cleanup, sent))
  }

  method SameSharedInputs(same: (Val, Val, string) -> bool, declared: seq<Input>, cleanup: Outputs, sent: Outputs)
    returns (r: bool)
    ensures r <==> SharesAll(same, declared, cleanup, sent)
  {
    var compared := 0;
    for i := 0 to |declared|
      invariant forall j :: 0 <= j < i ==> SentSame(same, declared[j], cleanup, sent)
      invariant compared > 0 <==> exists j :: 0 <= j < i && declared[j].name in cleanup
    {
      var input := declared[i];
      if input.name in cleanup {
        if input.name !in sent || !same(cleanup[input.name], sent[input.name], input.typ) {
          assert !SentSame(same, declared[i], cleanup, sent);
          return false;
        }
        compared := compared + 1;
      }
    }
    r := compared > 0;
  }

  predicate StepReleased(r: Result) {
    r.problem == Fine && r.status < 400 && !r.bodyError && !r.expectFailure
  }

  /** The graph pairs the entry's node with the node that registered it. */
  predicate IsPairing(g: Graph, entry: Entry) {
    entry.forNode in g && entry.nodeName in g && g[entry.forNode].cleanup.node == entry.nodeName
  }

  /** Main step i came after the registering one and did the entry's work, with the entry's inputs. */
  ghost predicate Releases(w: Setting, entry: Entry, inputs: Outputs, i: nat)
    requires IsPairing(w.graph, entry)
  {
    && i < |w.mainSteps|
    && (exists k :: 0 <= k < i && w.mainSteps[k].id == entry.forStep)
    && CouldRelease(w, entry, inputs, w.mainSteps[i])
  }

  ghost predicate CouldRelease(w: Setting, entry: Entry, inputs: Outputs, step: Result)
    requires IsPairing(w.graph, entry)
  {
    && (step.node == entry.nodeName || step.node in w.graph[entry.forNode].cleanup.releasedBy)
    && step.node in w.graph && StepReleased(step)
    && SharesAll(w.same, w.graph[step.node].inputs, inputs, step.inputs)
  }

  ghost predicate FirstToRelease(w: Setting, entry: Entry, inputs: Outputs, i: nat)
    requires IsPairing(w.graph, entry)
  {
    Releases(w, entry, inputs, i) && forall j: nat :: j < i ==> !Releases(w, entry, inputs, j)
  }

  ghost predicate NoneReleases(w: Setting, entry: Entry, inputs: Outputs)
    requires IsPairing(w.graph, entry)
  {
    forall i: nat :: !Releases(w, entry, inputs, i)
  }

  method IndexOfStep(steps: seq<Result>, id: string) returns (r: int)
    ensures -1 <= r < |steps|
    ensures r >= 0 ==> steps[r].id == id
    ensures forall i :: 0 <= i < (if r >= 0 then r else |steps|) ==> steps[i].id != id
  {
    for i := 0 to |steps|
      invariant forall k :: 0 <= k < i ==> steps[k].id != id
    {
      if steps[i].id == id {
        return i;
      }
    }
    r := -1;
  }

  method Matches(w: Setting, entry: Entry, inputs: Outputs, step: Result) returns (r: bool)
    requires IsPairing(w.graph, entry)
    ensures r <==> CouldRelease(w, entry, inputs, step)
  {
    if step.node != entry.nodeName && step.node !in w.graph[entry.forNode].cleanup.releasedBy {
      return false;
    }
    if step.node !in w.graph || !StepReleased(step) {
      return false;
    }
    r := SameSharedInputs(w.same, w.graph[step.node].inputs, inputs, step.inputs);
  }

  method ReleasingStep(w: Setting, entry: Entry, inputs: Outputs) returns (r: Option<string>)
    requires IsPairing(w.graph, entry)
    ensures r == None <==> NoneReleases(w, entry, inputs)
    ensures r.Some? ==> exists i: nat :: FirstToRelease(w, entry, inputs, i) && r.value == w.mainSteps[i].id
  {
    var registered := IndexOfStep(w.mainSteps, entry.forStep);
    if registered < 0 {
      return None;
    }
    for i := registered + 1 to |w.mainSteps|
      invariant forall j: nat :: j < i ==> !Releases(w, entry, inputs, j)
    {
      var matches := Matches(w, entry, inputs, w.mainSteps[i]);
      if matches {
        assert w.mainSteps[registered].id == entry.forStep;
        assert FirstToRelease(w, entry, inputs, i);
        return Some(w.mainSteps[i].id);
      }
    }
    r := None;
  }

  // ---------- The decision ----------

  /** Runs, with whether its condition could not be read, or is skipped. */
  datatype Decision = Runs(unread: bool) | Skipped(skip: Skip)

  /** What the entry's condition reads: the chain's step before it, or else the one that registered it. */
  function ConditionOutputs(w: Setting, entry: Entry, before: seq<Result>): Outputs {
    if before != [] then before[0].outputs else OutputsOf(w.stored, entry.forStep)
  }

  /** No later main step has released what the entry would; an entry no main step registered cannot be. */
  ghost predicate StillHeld(w: Setting, entry: Entry, inputs: Outputs, before: seq<Result>)
    requires IsPairing(w.graph, entry)
  {
    before == [] ==> NoneReleases(w, entry, inputs)
  }

  function ConditionIs(w: Setting, entry: Entry, before: seq<Result>): Truth
    requires IsPairing(w.graph, entry)
  {
    var when := w.graph[entry.forNode].cleanup.when;
    if when == "" then Holds else w.eval(when, ConditionOutputs(w, entry, before))
  }

  /** A released entry is skipped before its condition is read; one that cannot be read lets it run; a
      cleanup the graph does not pair is never skipped. */
  ghost predicate Decides(w: Setting, entry: Entry, cleanupFor: string, inputs: Outputs, before: seq<Result>,
                          d: Decision) {
    if !IsPairing(w.graph, entry) then d == Runs(false)
    else if !StillHeld(w, entry, inputs, before) then
      exists i: nat :: FirstToRelease(w, entry, inputs, i)
        && d == Skipped(Released(entry.nodeName, cleanupFor, w.mainSteps[i].id))
    else match ConditionIs(w, entry, before)
      case Holds => d == Runs(false)
      case Unreadable => d == Runs(true)
      case DoesNot => d == Skipped(WhenFalse(entry.nodeName, cleanupFor, w.graph[entry.forNode].cleanup.when))
  }

  method DecideSkip(w: Setting, entry: Entry, cleanupFor: string, inputs: Outputs, before: seq<Result>)
    returns (d: Decision)
    ensures Decides(w, entry, cleanupFor, inputs, before, d)
  {
    if !IsPairing(w.graph, entry) {
      return Runs(false);
    }
    var pairing := w.graph[entry.forNode].cleanup;
    if before == [] {
      var releaser := ReleasingStep(w, entry, inputs);
      if releaser.Some? {
        return Skipped(Released(entry.nodeName, cleanupFor, releaser.value));
      }
    }
    if pairing.when == "" {
      return Runs(false);
    }
    match w.eval(pairing.when, ConditionOutputs(w, entry, before)) {
      case Unreadable => d := Runs(true);
      case DoesNot => d := Skipped(WhenFalse(entry.nodeName, cleanupFor, pairing.when));
      case Holds => d := Runs(false);
    }
  }

  /** An entry is decided in one way. */
  lemma OneDecision(w: Setting, entry: Entry, cleanupFor: string, inputs: Outputs, before: seq<Result>, d: Decision,
                    e: Decision)
    requires Decides(w, entry, cleanupFor, inputs, before, d) && Decides(w, entry, cleanupFor, inputs, before, e)
    ensures d == e
  {
    if IsPairing(w.graph, entry) && !StillHeld(w, entry, inputs, before) {
      var i: nat :| FirstToRelease(w, entry, inputs, i)
        && d == Skipped(Released(entry.nodeName, cleanupFor, w.mainSteps[i].id));
      var j: nat :| FirstToRelease(w, entry, inputs, j)
        && e == Skipped(Released(entry.nodeName, cleanupFor, w.mainSteps[j].id));
      assert !(i < j) && !(j < i);
    }
  }
}

/** The order in which a plan's steps run: Kahn's algorithm over dependsOn, always taking the ready
    step that comes first in the plan (engine/scheduler.go).

    Step IDs are unique in a plan that reached the scheduler. The engine keys an edge by its two IDs
    joined with an arrow; the model keys it by the pair. */
module Scheduler {
  import opened TopoOrder
  import opened EdgeCounts

  datatype Step = Step(id: string, dependsOn: seq<string>)

  /** The sorted steps, or the steps a dependency cycle keeps from ever becoming ready. */
  datatype Schedule = Sorted(steps: seq<Step>) | Stuck(ids: set<string>)

  ghost predicate UniqueIds(steps: seq<Step>) {
    forall i, j :: 0 <= i < |steps| && 0 <= j < |steps| && steps[i].id == steps[j].id ==> i == j
  }

  function Ids(steps: seq<Step>): seq<string> {
    seq(|steps|, i requires 0 <= i < |steps| => steps[i].id)
  }

  function IdSet(steps: seq<Step>): set<string> {
    set s | s in steps :: s.id
  }

  /** (d, s) when step s names step d in its dependsOn. */
  function DepEdges(steps: seq<Step>): set<(string, string)> {
    set s, d | s in steps && d in s.dependsOn :: (d, s.id)
  }

  /** The place of a step in the plan. */
  function Position(steps: seq<Step>, id: string): nat {
    if steps == [] || steps[0].id == id then 0 else 1 + Position(steps[1..], id)
  }

  function PlanOrder(steps: seq<Step>): (string, string) -> bool {
    (a, b) => Position(steps, a) < Position(steps, b)
  }

  ghost predicate TakesFirstReady(steps: seq<Step>, order: seq<string>) {
    Greedy(order, IdSet(steps), DepEdges(steps), PlanOrder(steps))
  }

  ghost predicate RespectsDependencies(steps: seq<Step>, order: seq<string>) {
    Topological(order, IdSet(steps), DepEdges(steps))
  }

  ghost predicate HasCycle(steps: seq<Step>) {
    Cyclic(IdSet(steps), DepEdges(steps))
  }

  /** The IDs of the steps on a dependency cycle, or behind one. */
  ghost function BlockedIds(steps: seq<Step>): set<string> {
    set id | id in IdSet(steps) && Blocked(IdSet(steps), DepEdges(steps), id)
  }

  lemma {:induction false} PositionOf(steps: seq<Step>, i: nat)
    requires UniqueIds(steps) && i < |steps|
    ensures Position(steps, steps[i].id) == i && steps[i].id in IdSet(steps)
  {
    assert steps[i] in steps;
    if i > 0 {
      assert steps[0].id != steps[i].id;
      PositionOf(steps[1..], i - 1);
    }
  }

  lemma PositionIsIndex(steps: seq<Step>, id: string)
    requires UniqueIds(steps) && id in IdSet(steps)
    ensures Position(steps, id) < |steps| && steps[Position(steps, id)].id == id
  {
    var s :| s in steps && s.id == id;
    var i :| 0 <= i < |steps| && steps[i] == s;
    PositionOf(steps, i);
  }

  lemma PlanOrderIsStrict(steps: seq<Step>)
    requires UniqueIds(steps)
    ensures StrictOrder(IdSet(steps), PlanOrder(steps))
  {
    forall x, y | x in IdSet(steps) && y in IdSet(steps) && x != y
      ensures PlanOrder(steps)(x, y) || PlanOrder(steps)(y, x)
    {
      PositionIsIndex(steps, x);
      PositionIsIndex(steps, y);
    }
  }

  lemma {:induction false} IdCount(steps: seq<Step>)
    requires UniqueIds(steps)
    ensures |IdSet(steps)| == |steps|
  {
    DistinctCount(Ids(steps));
    forall id ensures id in IdSet(steps) <==> id in Elements(Ids(steps)) {
      if id in IdSet(steps) {
        PositionIsIndex(steps, id);
        assert Ids(steps)[Position(steps, id)] == id;
      }
      if id in Elements(Ids(steps)) {
        var i :| 0 <= i < |steps| && Ids(steps)[i] == id;
        assert steps[i] in steps;
      }
    }
    assert IdSet(steps) == Elements(Ids(steps));
  }

  // ---------- The edges, counted once each ----------

  function Dependents(dependents: map<string, seq<string>>, id: string): seq<string> {
    if id in dependents then dependents[id] else []
  }

  /** Every edge added so far is keyed, counted at its head, and listed at its tail. */
  ghost predicate Wired(ids: set<string>, added: seq<(string, string)>, edges: set<(string, string)>,
                        inDegree: map<string, int>, dependents: map<string, seq<string>>)
  {
    && Distinct(added)
    && (forall e :: e in edges <==> e in added)
    && Counted(ids, added, [], inDegree)
    && ListedBy(dependents, added)
  }

  ghost predicate ListedBy(dependents: map<string, seq<string>>, added: seq<(string, string)>) {
    forall id :: Dependents(dependents, id) == Heads(added, id)
  }

  ghost predicate Counted(ids: set<string>, added: seq<(string, string)>, done: seq<string>,
                          inDegree: map<string, int>) {
    inDegree.Keys == ids && forall id :: id in ids ==> inDegree[id] == CountTo(added, done, id)
  }

  method AddEdge(ids: set<string>, ghost added: seq<(string, string)>, edges: set<(string, string)>,
                 inDegree: map<string, int>, dependents: map<string, seq<string>>, from: string, to: string)
      returns (edges': set<(string, string)>, inDegree': map<string, int>, dependents': map<string, seq<string>>)
    requires Wired(ids, added, edges, inDegree, dependents) && to in ids
    ensures Wired(ids, if from == to || (from, to) in edges then added else added + [(from, to)],
      edges', inDegree', dependents')
  {
    edges', inDegree', dependents' := edges, inDegree, dependents;
    if from != to && (from, to) !in edges {
      edges' := edges + {(from, to)};
      inDegree' := inDegree[to := inDegree[to] + 1];
      dependents' := dependents[from := Dependents(dependents, from) + [to]];
      CountedAfter(ids, added, inDegree, from, to);
      HeadsAfter(added, dependents, from, to);
      DistinctAppend(added, (from, to));
    }
  }

  lemma CountedAfter(ids: set<string>, added: seq<(string, string)>, inDegree: map<string, int>, from: string,
                     to: string)
    requires Counted(ids, added, [], inDegree) && to in ids
    ensures Counted(ids, added + [(from, to)], [], inDegree[to := inDegree[to] + 1])
  {
    forall id ensures CountTo(added + [(from, to)], [], id) == CountTo(added, [], id) + (if id == to then 1 else 0) {
      AddCounts(added, (from, to), [], id);
    }
  }

  lemma HeadsAfter(added: seq<(string, string)>, dependents: map<string, seq<string>>, from: string, to: string)
    requires ListedBy(dependents, added)
    ensures ListedBy(dependents[from := Dependents(dependents, from) + [to]], added + [(from, to)])
  {
    forall id ensures Heads(added + [(from, to)], id) == Heads(added, id) + (if id == from then [to] else []) {
      AddCounts(added, (from, to), [], id);
    }
  }

  method Wire(steps: seq<Step>, stepSet: set<string>)
      returns (edges: set<(string, string)>, inDegree: map<string, int>, dependents: map<string, seq<string>>,
        ghost added: seq<(string, string)>)
    requires stepSet == IdSet(steps)
    ensures Wired(stepSet, added, edges, inDegree, dependents)
    ensures Adds(added, IdSet(steps), DepEdges(steps))
  {
    inDegree := map id | id in stepSet :: 0;
    edges, dependents, added := {}, map[], [];
    for j := 0 to |steps|
      invariant Wired(stepSet, added, edges, inDegree, dependents)
      invariant AddedUpTo(steps, added, j, 0)
    {
      assert steps[j] in steps;
      for d := 0 to |steps[j].dependsOn|
        invariant Wired(stepSet, added, edges, inDegree, dependents)
        invariant AddedUpTo(steps, added, j, d)
      {
        if steps[j].dependsOn[d] in stepSet {
          ghost var before := added;
          ghost var isNew := steps[j].dependsOn[d] != steps[j].id && (steps[j].dependsOn[d], steps[j].id) !in edges;
          edges, inDegree, dependents :=
            AddEdge(stepSet, added, edges, inDegree, dependents, steps[j].dependsOn[d], steps[j].id);
          added := if isNew then added + [(steps[j].dependsOn[d], steps[j].id)] else added;
          OneMoreAdded(steps, before, added, j, d);
        } else {
          OneMoreAdded(steps, added, added, j, d);
        }
      }
      NextStepAdded(steps, added, j);
    }
    AllAdded(steps, added);
  }

  lemma OneMoreAdded(steps: seq<Step>, added: seq<(string, string)>, added': seq<(string, string)>, j: nat, d: nat)
    requires j < |steps| && d < |steps[j].dependsOn| && AddedUpTo(steps, added, j, d)
    requires var from, to := steps[j].dependsOn[d], steps[j].id;
      || (added' == added && (from !in IdSet(steps) || from == to || (from, to) in added))
      || (added' == added + [(from, to)] && from in IdSet(steps) && from != to)
    ensures AddedUpTo(steps, added', j, d + 1)
  {
    assert steps[j] in steps;
    forall b: nat, c: nat | NamedBy(steps, j, d + 1, b, c) && steps[b].dependsOn[c] in IdSet(steps)
        && steps[b].dependsOn[c] != steps[b].id
      ensures (steps[b].dependsOn[c], steps[b].id) in added'
    {
      if b != j || c != d {
        assert NamedBy(steps, j, d, b, c);
      }
    }
  }

  lemma NextStepAdded(steps: seq<Step>, added: seq<(string, string)>, j: nat)
    requires j < |steps| && AddedUpTo(steps, added, j, |steps[j].dependsOn|)
    ensures AddedUpTo(steps, added, j + 1, 0)
  {
    forall b: nat, c: nat | NamedBy(steps, j + 1, 0, b, c) ensures NamedBy(steps, j, |steps[j].dependsOn|, b, c) {
    }
  }

  lemma AllAdded(steps: seq<Step>, added: seq<(string, string)>)
    requires AddedUpTo(steps, added, |steps|, 0) && Distinct(added)
    ensures Adds(added, IdSet(steps), DepEdges(steps))
  {
    forall x, y | Precedes(IdSet(steps), DepEdges(steps), x, y) ensures (x, y) in added {
      var s :| s in steps && x in s.dependsOn && s.id == y;
      var b, c :| 0 <= b < |steps| && steps[b] == s && 0 <= c < |s.dependsOn| && s.dependsOn[c] == x;
      assert NamedBy(steps, |steps|, 0, b, c);
    }
  }

  ghost predicate NamedBy(steps: seq<Step>, j: nat, d: nat, b: nat, c: nat) {
    b < |steps| && c < |steps[b].dependsOn| && (b < j || (b == j && c < d))
  }

  /** The sort has added the edges of the steps before j, and of step j's dependencies before d. */
  ghost predicate AddedUpTo(steps: seq<Step>, added: seq<(string, string)>, j: nat, d: nat) {
    && (forall x, y :: (x, y) in added ==> Precedes(IdSet(steps), DepEdges(steps), x, y))
    && (forall b: nat, c: nat :: NamedBy(steps, j, d, b, c) && steps[b].dependsOn[c] in IdSet(steps)
                                   && steps[b].dependsOn[c] != steps[b].id ==>
          (steps[b].dependsOn[c], steps[b].id) in added)
  }

  // ---------- Kahn's loop ----------

  ghost predicate Free(added: seq<(string, string)>, order: seq<string>, id: string) {
    id !in order && CountTo(added, order, id) == 0
  }

  /** ready holds the plan indices of the steps with no dependency left. */
  ghost predicate Listed(steps: seq<Step>, added: seq<(string, string)>, order: seq<string>, ready: seq<nat>) {
    && Distinct(ready)
    && (forall k :: k in ready ==> k < |steps|)
    && (forall k: nat :: k < |steps| ==> (k in ready <==> Free(added, order, steps[k].id)))
  }

  /** The same, part-way through the dependents of sid: those already seen count one dependency less. */
  ghost predicate PartListed(steps: seq<Step>, added: seq<(string, string)>, order: seq<string>, sid: string,
                             seen: seq<string>, ready: seq<nat>) {
    && Distinct(ready)
    && (forall k :: k in ready ==> k < |steps|)
    && (forall k: nat :: k < |steps| ==>
          (k in ready <==> steps[k].id != sid && steps[k].id !in order
                           && CountTo(added, order, steps[k].id) == if steps[k].id in seen then 1 else 0))
  }

  /** No step waiting on sid has been taken or is sid itself. */
  ghost predicate NoneTaken(ids: set<string>, added: seq<(string, string)>, order: seq<string>, sid: string) {
    forall dep :: (sid, dep) in added ==> dep in ids && dep != sid && dep !in order
  }

  /** Taking a step brings its dependents one dependency closer, and readies those with none left. */
  method Release(steps: seq<Step>, stepIndex: map<string, nat>, ghost added: seq<(string, string)>,
                 ghost order: seq<string>, sid: string, deps: seq<string>, inDegree: map<string, int>, ready: seq<nat>)
      returns (inDegree': map<string, int>, ready': seq<nat>)
    requires UniqueIds(steps) && Distinct(added) && sid !in order
    requires Indexed(steps, stepIndex)
    requires NoneTaken(IdSet(steps), added, order, sid)
    requires deps == Heads(added, sid)
    requires Counted(IdSet(steps), added, order, inDegree)
    requires PartListed(steps, added, order, sid, [], ready)
    ensures Counted(IdSet(steps), added, order + [sid], inDegree')
    ensures Listed(steps, added, order + [sid], ready')
  {
    hide Heads, NoneTaken, Listed, PartListed, UniqueIds;
    inDegree', ready' := inDegree, ready;
    for d := 0 to |deps|
      invariant PartCounted(IdSet(steps), added, order, deps[..d], inDegree')
      invariant PartListed(steps, added, order, sid, deps[..d], ready')
    {
      NextHead(IdSet(steps), added, order, sid, deps, d);
      inDegree', ready' := ReleaseOne(steps, stepIndex, added, order, sid, deps[..d], deps[d], inDegree', ready');
      assert deps[..d + 1] == deps[..d] + [deps[d]];
    }
    assert deps[..|deps|] == deps;
    ReleaseDone(steps, added, order, sid, deps, inDegree', ready');
  }

  lemma NextHead(ids: set<string>, added: seq<(string, string)>, order: seq<string>, sid: string, deps: seq<string>,
                 d: nat)
    requires Distinct(added) && NoneTaken(ids, added, order, sid) && deps == Heads(added, sid) && d < |deps|
    ensures (sid, deps[d]) in added && deps[d] !in deps[..d]
    ensures deps[d] in ids && deps[d] != sid && deps[d] !in order
  {
    HeadsAre(added, sid);
    assert deps[d] in deps;
  }

  method ReleaseOne(steps: seq<Step>, stepIndex: map<string, nat>, ghost added: seq<(string, string)>,
                    ghost order: seq<string>, ghost sid: string, ghost seen: seq<string>, dep: string,
                    inDegree: map<string, int>, ready: seq<nat>)
      returns (inDegree': map<string, int>, ready': seq<nat>)
    requires UniqueIds(steps) && (sid, dep) in added && dep !in seen && sid !in order
    requires dep != sid && dep !in order && dep in IdSet(steps)
    requires dep in stepIndex && stepIndex[dep] == Position(steps, dep)
    requires PartCounted(IdSet(steps), added, order, seen, inDegree)
    requires PartListed(steps, added, order, sid, seen, ready)
    ensures PartCounted(IdSet(steps), added, order, seen + [dep], inDegree')
    ensures PartListed(steps, added, order, sid, seen + [dep], ready')
  {
    inDegree' := inDegree[dep := inDegree[dep] - 1];
    ready' := ready;
    PartListedAfter(steps, added, order, sid, seen, dep, ready);
    if inDegree'[dep] == 0 {
      ready' := ready + [stepIndex[dep]];
    }
  }

  ghost predicate PartCounted(ids: set<string>, added: seq<(string, string)>, order: seq<string>, seen: seq<string>,
                              inDegree: map<string, int>) {
    inDegree.Keys == ids && forall id :: id in ids
                              ==> inDegree[id] == CountTo(added, order, id) - (if id in seen then 1 else 0)
  }

  lemma PartListedAfter(steps: seq<Step>, added: seq<(string, string)>, order: seq<string>, sid: string,
                        seen: seq<string>, dep: string, ready: seq<nat>)
    requires UniqueIds(steps) && PartListed(steps, added, order, sid, seen, ready)
    requires (sid, dep) in added && dep !in seen && dep != sid && dep !in order && sid !in order && dep in IdSet(steps)
    ensures var ready' := if CountTo(added, order, dep) == 1 then ready + [Position(steps, dep)] else ready;
      PartListed(steps, added, order, sid, seen + [dep], ready')
  {
    CountIsZero(added, order, dep);
    PositionIsIndex(steps, dep);
    DistinctAppend(ready, Position(steps, dep));
  }

  lemma ReleaseDone(steps: seq<Step>, added: seq<(string, string)>, order: seq<string>, sid: string, deps: seq<string>,
                    inDegree: map<string, int>, ready: seq<nat>)
    requires Distinct(added) && sid !in order && NoneTaken(IdSet(steps), added, order, sid) && deps == Heads(added, sid)
    requires PartCounted(IdSet(steps), added, order, deps, inDegree)
    requires PartListed(steps, added, order, sid, deps, ready)
    ensures Counted(IdSet(steps), added, order + [sid], inDegree)
    ensures Listed(steps, added, order + [sid], ready)
  {
    HeadsAre(added, sid);
    forall id ensures CountTo(added, order + [sid], id) == CountTo(added, order, id) - (if id in deps then 1 else 0) {
      TakeLowers(added, order, sid, id);
    }
  }

  lemma DependentsNotTaken(steps: seq<Step>, added: seq<(string, string)>, order: seq<string>, sid: string)
    requires Adds(added, IdSet(steps), DepEdges(steps)) && TakesFirstReady(steps, order) && sid !in order
    ensures NoneTaken(IdSet(steps), added, order, sid)
  {
    GreedyPrefix(order, IdSet(steps), DepEdges(steps), PlanOrder(steps));
    forall dep, j | (sid, dep) in added && 0 <= j < |order| ensures order[j] != dep {
      assert Precedes(IdSet(steps), DepEdges(steps), sid, dep);
      assert sid !in order[..j];
    }
  }

  lemma FreeIsReady(steps: seq<Step>, added: seq<(string, string)>, order: seq<string>, ready: seq<nat>)
    requires UniqueIds(steps) && Adds(added, IdSet(steps), DepEdges(steps)) && Listed(steps, added, order, ready)
    ensures forall id :: id in IdSet(steps) ==>
      (Position(steps, id) in ready <==> Ready(order, IdSet(steps), DepEdges(steps), id))
  {
    forall id | id in IdSet(steps)
        ensures Position(steps, id) in ready <==> Ready(order, IdSet(steps), DepEdges(steps), id) {
      PositionIsIndex(steps, id);
      ReadyIsCountZero(added, IdSet(steps), DepEdges(steps), order, id);
    }
  }

  lemma FirstReadyIsLeast(steps: seq<Step>, added: seq<(string, string)>, order: seq<string>, ready: seq<nat>,
                          first: nat)
    requires UniqueIds(steps) && Adds(added, IdSet(steps), DepEdges(steps)) && Listed(steps, added, order, ready)
    requires first < |ready| && forall j :: 0 <= j < |ready| ==> ready[first] <= ready[j]
    ensures ready[first] in ready
    ensures LeastReady(order, IdSet(steps), DepEdges(steps), PlanOrder(steps), steps[ready[first]].id)
  {
    var idx := ready[first];
    assert idx in ready;
    PositionOf(steps, idx);
    FreeIsReady(steps, added, order, ready);
    forall y | y in IdSet(steps) && Ready(order, IdSet(steps), DepEdges(steps), y) && y != steps[idx].id
      ensures PlanOrder(steps)(steps[idx].id, y)
    {
      PositionIsIndex(steps, y);
    }
  }

  method FirstOf(ready: seq<nat>) returns (first: nat)
    requires |ready| > 0
    ensures first < |ready| && forall j :: 0 <= j < |ready| ==> ready[first] <= ready[j]
  {
    first := 0;
    for j := 0 to |ready|
      invariant first < |ready| && forall k :: 0 <= k < j ==> ready[first] <= ready[k]
    {
      if ready[j] < ready[first] {
        first := j;
      }
    }
  }

  ghost predicate Indexed(steps: seq<Step>, stepIndex: map<string, nat>) {
    stepIndex.Keys == IdSet(steps) && forall id :: id in stepIndex ==> stepIndex[id] == Position(steps, id)
  }

  method IndexSteps(steps: seq<Step>) returns (stepIndex: map<string, nat>)
    requires UniqueIds(steps)
    ensures Indexed(steps, stepIndex)
  {
    stepIndex := map[];
    for i := 0 to |steps|
      invariant forall id :: id in stepIndex <==> exists k: nat :: k < i && steps[k].id == id
      invariant forall id :: id in stepIndex ==> stepIndex[id] == Position(steps, id)
    {
      PositionOf(steps, i);
      stepIndex := stepIndex[steps[i].id := i];
    }
    forall id ensures id in stepIndex <==> id in IdSet(steps) {
      if id in IdSet(steps) {
        PositionIsIndex(steps, id);
      }
    }
  }

  method FirstReady(steps: seq<Step>, inDegree: map<string, int>, ghost added: seq<(string, string)>)
    returns (ready: seq<nat>)
    requires UniqueIds(steps) && Counted(IdSet(steps), added, [], inDegree)
    ensures Listed(steps, added, [], ready)
  {
    ready := [];
    for i := 0 to |steps|
      invariant Distinct(ready) && (forall k :: k in ready ==> k < i)
      invariant forall k: nat :: k < i ==> (k in ready <==> Free(added, [], steps[k].id))
    {
      assert steps[i] in steps;
      if inDegree[steps[i].id] == 0 {
        DistinctAppend(ready, i);
        ready := ready + [i];
      }
    }
  }

  /** Succeeds exactly when no dependency cycle exists. The order always takes the ready step that
      comes first in the plan; on a cycle, the error names the steps on or behind one. */
  method TopologicalSort(steps: seq<Step>) returns (r: Schedule, ghost order: seq<string>)
    requires UniqueIds(steps)
    ensures TakesFirstReady(steps, order)
    ensures r.Sorted? <==> !HasCycle(steps)
    ensures r.Sorted? ==> ListsSteps(steps, r.steps, order) && RespectsDependencies(steps, order)
    ensures r.Stuck? ==> r.ids == BlockedIds(steps)
  {
    var stepIndex, inDegree, dependents, ready;
    ghost var added;
    stepIndex, inDegree, dependents, ready, added := Prepare(steps);
    var sorted: seq<Step> := [];
    order := [];
    while |ready| > 0
      invariant TakesFirstReady(steps, order) && |order| <= |steps|
      invariant Counted(IdSet(steps), added, order, inDegree) && Listed(steps, added, order, ready)
      invariant ListsSteps(steps, sorted, order)
      decreases |steps| - |order|
    {
      var idx;
      ghost var was := order;
      inDegree, ready, idx, order := TakeOne(steps, stepIndex, added, order, dependents, inDegree, ready);
      OneMoreListed(steps, sorted, was, idx);
      sorted := sorted + [steps[idx]];
    }
    Conclude(steps, added, order, inDegree, ready);
    if |sorted| != |steps| {
      r := Stuck(set id | id in inDegree && inDegree[id] > 0);
    } else {
      r := Sorted(sorted);
    }
  }

  method Prepare(steps: seq<Step>)
      returns (stepIndex: map<string, nat>, inDegree: map<string, int>, dependents: map<string, seq<string>>,
        ready: seq<nat>, ghost added: seq<(string, string)>)
    requires UniqueIds(steps)
    ensures Adds(added, IdSet(steps), DepEdges(steps))
    ensures Indexed(steps, stepIndex) && ListedBy(dependents, added)
    ensures Counted(IdSet(steps), added, [], inDegree) && Listed(steps, added, [], ready)
  {
    var edges;
    stepIndex := IndexSteps(steps);
    edges, inDegree, dependents, added := Wire(steps, IdSet(steps));
    ready := FirstReady(steps, inDegree, added);
  }

  /** sorted holds the plan's own steps, under the IDs order gives. */
  ghost predicate ListsSteps(steps: seq<Step>, sorted: seq<Step>, order: seq<string>) {
    Ids(sorted) == order && forall s :: s in sorted ==> s in steps
  }

  lemma OneMoreListed(steps: seq<Step>, sorted: seq<Step>, order: seq<string>, idx: nat)
    requires ListsSteps(steps, sorted, order) && idx < |steps|
    ensures ListsSteps(steps, sorted + [steps[idx]], order + [steps[idx].id])
  {
  }

  /** Takes the ready step of the least index. */
  method TakeOne(steps: seq<Step>, stepIndex: map<string, nat>, ghost added: seq<(string, string)>,
                 ghost order: seq<string>, dependents: map<string, seq<string>>, inDegree: map<string, int>,
                 ready: seq<nat>)
      returns (inDegree': map<string, int>, ready': seq<nat>, idx: nat, ghost order': seq<string>)
    requires UniqueIds(steps) && Adds(added, IdSet(steps), DepEdges(steps)) && |ready| > 0
    requires Indexed(steps, stepIndex)
    requires ListedBy(dependents, added)
    requires TakesFirstReady(steps, order)
    requires Counted(IdSet(steps), added, order, inDegree) && Listed(steps, added, order, ready)
    ensures idx < |steps| && order' == order + [steps[idx].id]
    ensures TakesFirstReady(steps, order') && |order'| <= |steps|
    ensures Counted(IdSet(steps), added, order', inDegree') && Listed(steps, added, order', ready')
  {
    var first := FirstOf(ready);
    TakeFirst(steps, added, order, ready, first);
    RestIsPartListed(steps, added, order, ready, first);
    idx := ready[first];
    var sid := steps[idx].id;
    order' := order + [sid];
    inDegree', ready' := Release(steps, stepIndex, added, order, sid, Dependents(dependents, sid), inDegree,
      ready[..first] + ready[first + 1..]);
  }

  lemma Conclude(steps: seq<Step>, added: seq<(string, string)>, order: seq<string>, inDegree: map<string, int>,
                 ready: seq<nat>)
    requires UniqueIds(steps) && Adds(added, IdSet(steps), DepEdges(steps)) && TakesFirstReady(steps, order)
    requires Counted(IdSet(steps), added, order, inDegree) && Listed(steps, added, order, ready) && ready == []
    ensures |order| == |steps| <==> !HasCycle(steps)
    ensures |order| == |steps| ==> RespectsDependencies(steps, order)
    ensures (set id | id in inDegree && inDegree[id] > 0) == BlockedIds(steps)
  {
    IdCount(steps);
    FreeIsReady(steps, added, order, ready);
    assert Exhausted(order, IdSet(steps), DepEdges(steps));
    KahnCompletesIffAcyclic(order, IdSet(steps), DepEdges(steps), PlanOrder(steps));
    if |order| == |steps| {
      GreedyCompleteIsTopological(order, IdSet(steps), DepEdges(steps), PlanOrder(steps));
    }
    StuckAreBlocked(steps, added, order, inDegree);
  }

  lemma TakeFirst(steps: seq<Step>, added: seq<(string, string)>, order: seq<string>, ready: seq<nat>, first: nat)
    requires UniqueIds(steps) && Adds(added, IdSet(steps), DepEdges(steps)) && Listed(steps, added, order, ready)
    requires TakesFirstReady(steps, order)
    requires first < |ready| && forall j :: 0 <= j < |ready| ==> ready[first] <= ready[j]
    ensures ready[first] < |steps|
    ensures var sid := steps[ready[first]].id;
      && sid in IdSet(steps) && sid !in order
      && NoneTaken(IdSet(steps), added, order, sid)
      && TakesFirstReady(steps, order + [sid]) && |order| < |steps|
  {
    FirstReadyIsLeast(steps, added, order, ready, first);
    var sid := steps[ready[first]].id;
    GreedyExtend(order, IdSet(steps), DepEdges(steps), PlanOrder(steps), sid);
    DependentsNotTaken(steps, added, order, sid);
    OrderFits(steps, order + [sid]);
  }

  lemma OrderFits(steps: seq<Step>, order: seq<string>)
    requires UniqueIds(steps) && TakesFirstReady(steps, order)
    ensures |order| <= |steps|
  {
    GreedyPrefix(order, IdSet(steps), DepEdges(steps), PlanOrder(steps));
    DistinctSubsetIsAll(order, IdSet(steps));
    IdCount(steps);
  }

  lemma RestIsPartListed(steps: seq<Step>, added: seq<(string, string)>, order: seq<string>, ready: seq<nat>,
                         first: nat)
    requires UniqueIds(steps) && Listed(steps, added, order, ready) && first < |ready| && ready[first] < |steps|
    ensures PartListed(steps, added, order, steps[ready[first]].id, [], ready[..first] + ready[first + 1..])
  {
    TakeOut(ready, first);
    var rest := ready[..first] + ready[first + 1..];
    forall k: nat | k < |steps|
        ensures k in rest <==> steps[k].id != steps[ready[first]].id && Free(added, order, steps[k].id) {
      assert k in rest <==> k in ready && k != ready[first];
      assert k == ready[first] <==> steps[k].id == steps[ready[first]].id;
    }
    forall k | k in rest ensures k < |steps| {
      assert k in ready;
    }
  }

  lemma TakeOut<T>(s: seq<T>, i: nat)
    requires Distinct(s) && i < |s|
    ensures Distinct(s[..i] + s[i + 1..])
    ensures forall x :: x in s[..i] + s[i + 1..] <==> x in s && x != s[i]
  {
    var t := s[..i] + s[i + 1..];
    forall x | x in s && x != s[i] ensures x in t {
      var k :| 0 <= k < |s| && s[k] == x;
      assert t[if k < i then k else k - 1] == x;
    }
  }

  lemma StuckAreBlocked(steps: seq<Step>, added: seq<(string, string)>, order: seq<string>, inDegree: map<string, int>)
    requires TakesFirstReady(steps, order) && Adds(added, IdSet(steps), DepEdges(steps))
    requires Counted(IdSet(steps), added, order, inDegree)
    requires Exhausted(order, IdSet(steps), DepEdges(steps))
    ensures (set id | id in inDegree && inDegree[id] > 0) == BlockedIds(steps)
  {
    KahnLeavesTheBlocked(order, IdSet(steps), DepEdges(steps), PlanOrder(steps));
    GreedyPrefix(order, IdSet(steps), DepEdges(steps), PlanOrder(steps));
    forall id | id in IdSet(steps) ensures CountTo(added, order, id) > 0 <==> id !in order {
      ReadyIsCountZero(added, IdSet(steps), DepEdges(steps), order, id);
      if id in order {
        CountIsZero(added, order, id);
        var j :| 0 <= j < |order| && order[j] == id;
        forall y | (y, id) in added ensures y in order {
          assert Precedes(IdSet(steps), DepEdges(steps), y, id);
          assert y in order[..j];
        }
      }
    }
  }

  // ---------- What the order is ----------

  /** Of all orders that respect the dependencies, the schedule is the first, letter by letter, in
      plan order; so it is the only result the sort can give. */
  lemma ScheduleIsLexLeast(steps: seq<Step>, order: seq<string>, other: seq<string>)
    requires UniqueIds(steps) && TakesFirstReady(steps, order) && |order| == |steps|
    requires RespectsDependencies(steps, other)
    ensures order == other || LexBefore(order, other, PlanOrder(steps))
  {
    IdCount(steps);
    DistinctSubsetIsAll(other, IdSet(steps));
    GreedyIsLexLeast(order, other, IdSet(steps), DepEdges(steps), PlanOrder(steps));
  }

  /** A plan whose every step comes after its dependencies runs as written. */
  lemma OrderedPlanRunsAsWritten(steps: seq<Step>, order: seq<string>)
    requires UniqueIds(steps) && TakesFirstReady(steps, order) && |order| == |steps|
    requires forall i, j :: 0 <= i < |steps| && 0 <= j < |steps| && steps[i].id in steps[j].dependsOn ==> i <= j
    ensures order == Ids(steps)
  {
    var nodes, ids := IdSet(steps), Ids(steps);
    forall k: nat | k < |ids| ensures TookLeast(ids, nodes, DepEdges(steps), PlanOrder(steps), k) {
      PositionOf(steps, k);
      forall y | y in nodes && y !in ids[..k] && y != ids[k] ensures PlanOrder(steps)(ids[k], y) {
        PositionIsIndex(steps, y);
        assert ids[Position(steps, y)] == y;
      }
      forall y | y in nodes && Precedes(nodes, DepEdges(steps), y, ids[k]) ensures y in ids[..k] {
        PositionIsIndex(steps, y);
        var s :| s in steps && y in s.dependsOn && s.id == ids[k];
        var b :| 0 <= b < |steps| && steps[b] == s;
        assert b == k;
        assert ids[..k][Position(steps, y)] == y;
      }
    }
    PlanOrderIsStrict(steps);
    GreedyAgree(order, ids, nodes, DepEdges(steps), PlanOrder(steps), |steps|);
    assert order[..|steps|] == order && ids[..|steps|] == ids;
  }
}

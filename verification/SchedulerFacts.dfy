/** What the scheduler's result is, said of the plan's steps alone (engine/scheduler.go TopologicalSort). */
module SchedulerFacts {
  import opened TopoOrder
  import opened Scheduler

  /** s holds the plan's steps, each once, and every step behind the other steps it names in its dependsOn. */
  ghost predicate InOrder(steps: seq<Step>, s: seq<Step>) {
    && (forall x :: x in s <==> x in steps)
    && (forall i, j :: 0 <= i < j < |s| ==> s[i] != s[j])
    && (forall i, j :: 0 <= i < |s| && 0 <= j < |s| && i != j && s[i].id in s[j].dependsOn ==> i < j)
  }

  /** x stands in the plan before y. */
  ghost predicate WrittenBefore(steps: seq<Step>, x: Step, y: Step) {
    exists a, b :: 0 <= a < b < |steps| && steps[a] == x && steps[b] == y
  }

  /** Where s and t part, s has the step the plan has first. */
  ghost predicate FollowsThePlanLonger(steps: seq<Step>, s: seq<Step>, t: seq<Step>) {
    exists k :: 0 <= k < |s| && k < |t| && s[..k] == t[..k] && WrittenBefore(steps, s[k], t[k])
  }

  /** Each of these steps waits for another of them. */
  ghost predicate Deadlocked(steps: seq<Step>, ids: set<string>) {
    forall id :: id in ids ==> WaitsFor(steps, id, ids)
  }

  ghost predicate WaitsFor(steps: seq<Step>, id: string, ids: set<string>) {
    exists s, d :: s in steps && s.id == id && d in s.dependsOn && d != id && d in ids
  }

  ghost predicate AreIds(steps: seq<Step>, ids: set<string>) {
    forall id :: id in ids ==> IsId(steps, id)
  }

  ghost predicate IsId(steps: seq<Step>, id: string) {
    exists s :: s in steps && s.id == id
  }

  lemma SameId(steps: seq<Step>, s: Step, t: Step)
    requires UniqueIds(steps) && s in steps && t in steps && s.id == t.id
    ensures s == t
  {
    var i :| 0 <= i < |steps| && steps[i] == s;
    var j :| 0 <= j < |steps| && steps[j] == t;
    assert i == j;
  }

  lemma WaitsMeans(steps: seq<Step>, s: Step, t: Step)
    requires UniqueIds(steps) && s in steps && t in steps
    ensures Precedes(IdSet(steps), DepEdges(steps), s.id, t.id) <==> s != t && s.id in t.dependsOn
  {
    if s.id == t.id {
      SameId(steps, s, t);
    }
    if Precedes(IdSet(steps), DepEdges(steps), s.id, t.id) {
      var u :| u in steps && s.id in u.dependsOn && u.id == t.id;
      SameId(steps, u, t);
    }
  }

  lemma InOrderRespects(steps: seq<Step>, s: seq<Step>)
    requires UniqueIds(steps) && InOrder(steps, s)
    ensures RespectsDependencies(steps, Ids(s)) && |s| == |steps|
  {
    var ids := Ids(s);
    forall i, j | 0 <= i < j < |ids| ensures ids[i] != ids[j] {
      assert s[i] in s && s[j] in s;
      if ids[i] == ids[j] {
        SameId(steps, s[i], s[j]);
      }
    }
    forall x ensures x in ids <==> x in IdSet(steps) {
      if x in ids {
        var i :| 0 <= i < |ids| && ids[i] == x;
        assert s[i] in s;
      }
      if x in IdSet(steps) {
        var t :| t in steps && t.id == x;
        var i :| 0 <= i < |s| && s[i] == t;
        assert ids[i] == x;
      }
    }
    forall i, j | 0 <= i < |ids| && 0 <= j < |ids| && Precedes(IdSet(steps), DepEdges(steps), ids[i], ids[j])
      ensures i < j {
      assert s[i] in s && s[j] in s;
      WaitsMeans(steps, s[i], s[j]);
    }
    DistinctSubsetIsAll(ids, IdSet(steps));
    IdCount(steps);
  }

  lemma RespectsInOrder(steps: seq<Step>, s: seq<Step>)
    requires UniqueIds(steps) && ListsSteps(steps, s, Ids(s)) && RespectsDependencies(steps, Ids(s))
    ensures InOrder(steps, s)
  {
    var ids := Ids(s);
    forall i, j | 0 <= i < j < |s| ensures s[i] != s[j] {
      assert ids[i] != ids[j];
    }
    forall i, j | 0 <= i < |s| && 0 <= j < |s| && i != j && s[i].id in s[j].dependsOn ensures i < j {
      assert s[i] in s && s[j] in s;
      WaitsMeans(steps, s[i], s[j]);
      assert ids[i] == s[i].id && ids[j] == s[j].id && ids[i] != ids[j];
    }
    forall x | x in steps ensures x in s {
      assert x.id in ids;
      var i :| 0 <= i < |ids| && ids[i] == x.id;
      assert s[i] in s;
      SameId(steps, s[i], x);
    }
  }

  lemma PlanOrderMeans(steps: seq<Step>, x: Step, y: Step)
    requires UniqueIds(steps) && x in steps && y in steps && PlanOrder(steps)(x.id, y.id)
    ensures WrittenBefore(steps, x, y)
  {
    var i :| 0 <= i < |steps| && steps[i] == x;
    var j :| 0 <= j < |steps| && steps[j] == y;
    PositionOf(steps, i);
    PositionOf(steps, j);
  }

  lemma Longer(steps: seq<Step>, s: seq<Step>, t: seq<Step>)
    requires UniqueIds(steps) && InOrder(steps, s) && InOrder(steps, t)
    requires Ids(s) == Ids(t) || LexBefore(Ids(s), Ids(t), PlanOrder(steps))
    ensures s == t || FollowsThePlanLonger(steps, s, t)
  {
    if Ids(s) == Ids(t) {
      SameUpTo(steps, s, t, |s|);
    } else {
      var k :| 0 <= k < |s| && k < |t| && Ids(s)[..k] == Ids(t)[..k] && PlanOrder(steps)(Ids(s)[k], Ids(t)[k]);
      SameUpTo(steps, s, t, k);
      assert s[k] in s && t[k] in t;
      PlanOrderMeans(steps, s[k], t[k]);
    }
  }

  lemma SameUpTo(steps: seq<Step>, s: seq<Step>, t: seq<Step>, k: nat)
    requires UniqueIds(steps) && InOrder(steps, s) && InOrder(steps, t)
    requires k <= |s| && k <= |t| && Ids(s)[..k] == Ids(t)[..k]
    ensures s[..k] == t[..k]
    ensures Ids(s) == Ids(t) ==> |s| == |t|
  {
    assert Ids(s) == Ids(t) ==> |Ids(s)| == |Ids(t)|;
    forall i | 0 <= i < k ensures s[i] == t[i] {
      assert s[i] in s && t[i] in t;
      assert Ids(s)[..k][i] == s[i].id && Ids(t)[..k][i] == t[i].id;
      SameId(steps, s[i], t[i]);
    }
  }

  /** What the sort promises of its result. */
  ghost predicate IsSchedule(steps: seq<Step>, r: Schedule, order: seq<string>) {
    && TakesFirstReady(steps, order)
    && (r.Sorted? <==> !HasCycle(steps))
    && (r.Sorted? ==> ListsSteps(steps, r.steps, order) && RespectsDependencies(steps, order))
    && (r.Stuck? ==> r.ids == BlockedIds(steps))
  }

  /** A sorted plan is in order; of all the ways to put it in order, it is the one that follows the plan as
      written the longest. */
  lemma SortedIsFirstInOrder(steps: seq<Step>, r: Schedule, order: seq<string>)
    requires UniqueIds(steps) && IsSchedule(steps, r, order) && r.Sorted?
    ensures InOrder(steps, r.steps)
    ensures forall s :: InOrder(steps, s) ==> r.steps == s || FollowsThePlanLonger(steps, r.steps, s)
  {
    RespectsInOrder(steps, r.steps);
    forall s | InOrder(steps, s) ensures r.steps == s || FollowsThePlanLonger(steps, r.steps, s) {
      InOrderRespects(steps, r.steps);
      InOrderRespects(steps, s);
      ScheduleIsLexLeast(steps, order, Ids(s));
      Longer(steps, r.steps, s);
    }
  }

  /** A plan cannot be sorted exactly when no order of its steps does. The error then names the most
      steps that all wait for one another: a deadlock, and one that holds every other. */
  lemma StuckIsDeadlock(steps: seq<Step>, r: Schedule, order: seq<string>)
    requires UniqueIds(steps) && IsSchedule(steps, r, order)
    ensures r.Stuck? <==> forall s :: !InOrder(steps, s)
    ensures r.Stuck? ==> r.ids != {} && AreIds(steps, r.ids) && Deadlocked(steps, r.ids)
    ensures r.Stuck? ==> forall ids: set<string> :: AreIds(steps, ids) && Deadlocked(steps, ids) ==> ids <= r.ids
  {
    hide InOrder, AreIds, Deadlocked;
    if r.Sorted? {
      SortedIsFirstInOrder(steps, r, order);
    } else {
      CyclicHasNoOrder(steps);
      BlockedWait(steps);
      forall ids: set<string> | AreIds(steps, ids) && Deadlocked(steps, ids) ensures ids <= r.ids {
        DeadlockIsBlocked(steps, ids);
      }
    }
  }

  lemma CyclicHasNoOrder(steps: seq<Step>)
    requires UniqueIds(steps) && HasCycle(steps)
    ensures BlockedIds(steps) != {} && forall s :: !InOrder(steps, s)
  {
    forall s ensures !InOrder(steps, s) {
      if InOrder(steps, s) {
        InOrderRespects(steps, s);
        TopologicalIsAcyclic(Ids(s), IdSet(steps), DepEdges(steps));
      }
    }
    CyclicIffBlocked(IdSet(steps), DepEdges(steps));
    var id :| id in IdSet(steps) && Blocked(IdSet(steps), DepEdges(steps), id);
    assert id in BlockedIds(steps);
  }

  lemma BlockedWait(steps: seq<Step>)
    ensures AreIds(steps, BlockedIds(steps)) && Deadlocked(steps, BlockedIds(steps))
  {
    forall id | id in BlockedIds(steps) ensures IsId(steps, id) && WaitsFor(steps, id, BlockedIds(steps)) {
      var d := BlockedBehind(IdSet(steps), DepEdges(steps), id);
      assert d in BlockedIds(steps);
      var s :| s in steps && d in s.dependsOn && s.id == id;
    }
  }

  /** A blocked node waits for a blocked node. */
  lemma BlockedBehind<T(!new)>(nodes: set<T>, edges: set<(T, T)>, x: T) returns (y: T)
    requires Blocked(nodes, edges, x)
    ensures Precedes(nodes, edges, y, x) && Blocked(nodes, edges, y)
  {
    var p :| WalkTo(nodes, edges, p, x);
    var n := |p| - 1;
    var i, j :| 0 <= i < j < |p| && p[i] == p[j];
    assert Linked(nodes, edges, p, n - 1);
    y := p[n - 1];
    if j < n {
      PathUpTo(nodes, edges, p, n);
      assert p[..n][i] == p[..n][j];
      assert WalkTo(nodes, edges, p[..n], y);
    } else {
      RoundAgain(nodes, edges, p, i);
    }
  }

  lemma PathUpTo<T>(nodes: set<T>, edges: set<(T, T)>, p: seq<T>, n: nat)
    requires Path(nodes, edges, p) && n <= |p|
    ensures Path(nodes, edges, p[..n])
  {
    forall i: nat | i < n - 1 ensures Linked(nodes, edges, p[..n], i) {
      assert Linked(nodes, edges, p, i);
    }
  }

  /** A path whose end it has met before can be gone round once more: what stands before the end is blocked. */
  lemma RoundAgain<T(!new)>(nodes: set<T>, edges: set<(T, T)>, p: seq<T>, i: nat)
    requires Path(nodes, edges, p) && i < |p| - 1 && p[i] == p[|p| - 1]
    ensures Blocked(nodes, edges, p[|p| - 2])
  {
    var n := |p| - 1;
    var q := p[..n] + p[i..n];
    forall k: nat | k < |q| - 1 ensures Linked(nodes, edges, q, k) {
      if k < n {
        assert Linked(nodes, edges, p, k);
      } else {
        assert Linked(nodes, edges, p, k - n + i);
      }
    }
    assert q[i] == q[n];
    assert i < n < |q|;
    assert q[|q| - 1] == p[n - 1];
    assert WalkTo(nodes, edges, q, p[n - 1]);
  }

  /** Steps that all wait for one another are each on a cycle or behind one. */
  lemma DeadlockIsBlocked(steps: seq<Step>, ids: set<string>)
    requires AreIds(steps, ids) && Deadlocked(steps, ids)
    ensures ids <= BlockedIds(steps)
  {
    forall id | id in ids ensures id in BlockedIds(steps) {
      DeadlockedIsBlocked(steps, ids, id);
    }
  }

  lemma DeadlockedIsBlocked(steps: seq<Step>, ids: set<string>, id: string)
    requires AreIds(steps, ids) && Deadlocked(steps, ids) && id in ids
    ensures id in BlockedIds(steps)
  {
    hide Deadlocked, AreIds, DepEdges, Path;
    var nodes, edges := IdSet(steps), DepEdges(steps);
    var p := LongWait(steps, ids, id, |nodes|);
    OnPath(nodes, edges, p);
    Pigeonhole(nodes, p);
    assert id in p;
    assert WalkTo(nodes, edges, p, id);
  }

  lemma OnPath<T>(nodes: set<T>, edges: set<(T, T)>, p: seq<T>)
    requires Path(nodes, edges, p)
    ensures forall x :: x in p ==> x in nodes
  {
  }

  lemma {:induction false} LongWait(steps: seq<Step>, ids: set<string>, id: string, n: nat) returns (p: seq<string>)
    requires AreIds(steps, ids) && Deadlocked(steps, ids) && id in ids
    ensures Path(IdSet(steps), DepEdges(steps), p) && |p| == n + 1 && p[n] == id && p[0] in ids
  {
    hide Path, DepEdges, Precedes, IdSet, Deadlocked, WaitsFor;
    if n == 0 {
      p := [id];
      LoneId(steps, id);
    } else {
      var q := LongWait(steps, ids, id, n - 1);
      var d := OneBefore(steps, ids, q[0]);
      PathBefore(IdSet(steps), DepEdges(steps), d, q);
      p := [d] + q;
    }
  }

  lemma LoneId(steps: seq<Step>, id: string)
    requires IsId(steps, id)
    ensures Path(IdSet(steps), DepEdges(steps), [id])
  {
  }

  lemma OneBefore(steps: seq<Step>, ids: set<string>, id: string) returns (d: string)
    requires AreIds(steps, ids) && Deadlocked(steps, ids) && id in ids
    ensures d in ids && d in IdSet(steps) && Precedes(IdSet(steps), DepEdges(steps), d, id)
  {
    assert WaitsFor(steps, id, ids);
    var s, e :| s in steps && s.id == id && e in s.dependsOn && e != id && e in ids;
    d := e;
    assert IsId(steps, d);
  }
}

/** What holds of a target's setup over every run, whatever the API answers and whenever the run is
    interrupted (engine/fuzz.go, engine/engine.go). */
module FuzzTheorems {
  import opened FuzzState
  import opened FuzzReuse
  import opened RunSpec
  import opened FuzzPlaces
  import opened FuzzRuns

  type Targets = map<string, Target>

  ghost predicate FitsTarget(l: Layout, t: Target, c: string) {
    && c in t.ids && |t.ids[c]| == Size(t) && |CopiesOf(l, c)| == Size(t)
    && (forall j :: 0 <= j < Size(t) ==> IsCopy(l, t, c, j, CopiesOf(l, c)[j]))
  }

  ghost predicate IsCopy(l: Layout, t: Target, c: string, j: nat, s: Step)
    requires c in t.ids && j < |t.ids[c]| && j < Size(t)
  {
    s.id == t.ids[c][j] && s.kind == CopyOf(c, t.originals[j]) && s.id !in l.targets
  }

  /** The plan's expansion: every case of a target copies the same steps. */
  ghost predicate LaidOut(l: Layout, ts: Targets) {
    && ts.Keys == l.targets.Keys
    && (forall t :: t in ts ==> ValidTarget(ts[t]) && ts[t].readOnly == l.targets[t].readOnly)
    && (forall c :: c in l.caseTarget ==> IsCaseOfTarget(l, c) && FitsTarget(l, ts[l.caseTarget[c]], c))
  }

  ghost predicate UnderWay(f: Fuzz, b: Block, t: string) {
    b.InBlock? && IsCaseOfTarget(f.layout, b.case_.id) && TargetOf(f.layout, b.case_.id) == t && GroupAt(f, t).passed
  }

  /** A target is at rest, unless the case under way is its own. */
  ghost predicate TargetOk(f: Fuzz, failed: set<string>, b: Block, t: string, target: Target) {
    if UnderWay(f, b, t) then Mid(target, f, failed, b.case_.id, b.j) else AtRest(target, GroupAt(f, t), History(f, t))
  }

  ghost predicate GroupsOk(f: Fuzz, failed: set<string>, b: Block, ts: Targets) {
    forall t :: t in ts && t in f.layout.targets && !f.layout.targets[t].scope.Shared?
      ==> TargetOk(f, failed, b, t, ts[t])
  }

  ghost predicate Untried(f: Fuzz, failed: set<string>, c: string) {
    c !in failed && c !in f.stale && c !in f.caseSetup
  }

  ghost predicate PendingOk(f: Fuzz, failed: set<string>, cases: seq<Step>) {
    forall i :: 0 <= i < |cases| ==> Untried(f, failed, cases[i].id)
  }

  ghost predicate Inv(w: Work, p: Place, ts: Targets) {
    && LaidOut(w.fuzz.layout, ts) && PlaceOk(w, p)
    && GroupsOk(w.fuzz, w.failedSetup, p.block, ts) && PendingOk(w.fuzz, w.failedSetup, p.cases)
  }

  /** Over every target whose cases run on copies of its setup: each case sent stood on one
      successful, unchanged build, and three failures in a row were the last thing sent. */
  ghost predicate HistoriesSound(f: Fuzz, ts: Targets) {
    forall t :: t in ts && t in f.layout.targets && !f.layout.targets[t].scope.Shared? ==>
      AsksSound(ts[t], History(f, t)) && ThreeAtMost(History(f, t))
  }

  lemma InvIsSound(w: Work, p: Place, ts: Targets)
    requires Inv(w, p, ts)
    ensures HistoriesSound(w.fuzz, ts)
  {
    forall t | t in ts && t in w.fuzz.layout.targets && !w.fuzz.layout.targets[t].scope.Shared?
      ensures AsksSound(ts[t], History(w.fuzz, t)) && ThreeAtMost(History(w.fuzz, t))
    {
      TargetIsSound(w.fuzz, w.failedSetup, p.block, t, ts[t]);
    }
  }

  lemma TargetIsSound(f: Fuzz, failed: set<string>, b: Block, t: string, target: Target)
    requires TargetOk(f, failed, b, t, target)
    ensures AsksSound(target, History(f, t)) && ThreeAtMost(History(f, t))
  {
    if UnderWay(f, b, t) {
      assert Mid(target, f, failed, b.case_.id, b.j);
    }
  }

  // ---------- From place to place ----------

  lemma OpeningKeeps(w: Work, p: Place, ts: Targets)
    requires Inv(w, p, ts)
    ensures Inv(w, Opened(p), ts)
  {
    OpenedIsSame(w, p);
    var q := Opened(p);
    if p.own == [] && p.block.NoBlock? && p.cases != [] {
      var f := w.fuzz;
      assert Untried(f, w.failedSetup, p.cases[0].id);
      forall t | t in ts && t in f.layout.targets && !f.layout.targets[t].scope.Shared?
        ensures TargetOk(f, w.failedSetup, q.block, t, ts[t])
      {
        assert TargetOk(f, w.failedSetup, p.block, t, ts[t]);
      }
    }
  }

  lemma OthersUntouched(f: Fuzz, n: Fuzz, c: string, t: string)
    requires Touches(f, n, c) && t != TargetOf(f.layout, c)
    ensures GroupAt(n, t) == GroupAt(f, t) && History(n, t) == History(f, t)
  {
  }

  /** A change to one case of one target leaves the others where they were. */
  lemma GroupsFollow(f: Fuzz, n: Fuzz, failed: set<string>, failed': set<string>, b: Block, b': Block, ts: Targets,
                     c: string)
    requires GroupsOk(f, failed, b, ts) && Touches(f, n, c)
    requires b.InBlock? && b.case_.id == c && (b'.InBlock? ==> b'.case_ == b.case_)
    requires var t := TargetOf(f.layout, c); t in ts && TargetOk(n, failed', b', t, ts[t])
    ensures GroupsOk(n, failed', b', ts)
  {
    forall t | t in ts && t in n.layout.targets && !n.layout.targets[t].scope.Shared?
        ensures TargetOk(n, failed', b', t, ts[t]) {
      if t != TargetOf(f.layout, c) {
        OthersUntouched(f, n, c, t);
        assert TargetOk(f, failed, b, t, ts[t]);
      }
    }
  }

  lemma PendingFollow(f: Fuzz, n: Fuzz, failed: set<string>, failed': set<string>, cases: seq<Step>, c: string)
    requires PendingOk(f, failed, cases) && Touches(f, n, c) && failed' <= failed + {c}
    requires forall i :: 0 <= i < |cases| ==> cases[i].id != c
    ensures PendingOk(n, failed', cases)
  {
    forall i | 0 <= i < |cases| ensures Untried(n, failed', cases[i].id) {
      assert Untried(f, failed, cases[i].id);
    }
  }

  lemma CaseNotPending(l: Layout, p: Place, i: nat)
    requires WellPlaced(l, p) && p.block.InBlock? && i < |p.cases|
    ensures p.cases[i].id != p.block.case_.id
  {
    var ids := FuzzPlaces.Ids(Cases(p));
    assert ids[|p.done|] == p.block.case_.id;
    assert ids[|p.done| + 1 + i] == p.cases[i].id;
  }

  ghost predicate Ends(act: Action) {
    act.Interrupt? || act.AbortAt?
  }

  /** What a pass does with a copy or a case: leaves it out, ends the run, or acts on it. */
  lemma ActOnBlock(env: Env, w: Work, v: Verdict, s: Step)
    requires w.idx < |w.queue| && w.queue[w.idx] == s && RunsAfterPlan(w.fuzz.layout, s)
    ensures var act := Act(env, w, v);
      || (act == Ignore && !TargetPassed(w.fuzz, s)) || act.Interrupt?
      || (TargetPassed(w.fuzz, s) && s.kind.CopyOf? && act == CopyAction(env, w, s, s.kind.forCase, s.kind.original))
      || (TargetPassed(w.fuzz, s) && s.kind.CaseOf? && act == CaseAction(env, w, s))
  {
  }

  lemma CopyTarget(env: Env, w: Work, t: Target, b: Block, s: Step, act: Action)
    requires b.InBlock? && IsCaseOfTarget(w.fuzz.layout, b.case_.id) && ValidTarget(t)
      && FitsTarget(w.fuzz.layout, t, b.case_.id)
    requires b.j < Size(t) && IsCopy(w.fuzz.layout, t, b.case_.id, b.j, s)
    requires TargetOk(w.fuzz, w.failedSetup, b, TargetOf(w.fuzz.layout, b.case_.id), t)
    requires || (act == Ignore && !TargetPassed(w.fuzz, s)) || act.Interrupt?
             || (act == CopyAction(env, w, s, b.case_.id, s.kind.original) && TargetPassed(w.fuzz, s))
    ensures var n := FuzzAfter(env, w.fuzz, s, act);
      && Touches(w.fuzz, n, b.case_.id)
      && (!Ends(act) ==> TargetOk(n, FailedAfter(w.failedSetup, act), InBlock(b.case_, b.j + 1),
        TargetOf(w.fuzz.layout, b.case_.id), t))
  {
    hide AtRest, IsBuilding, HasStanding;
    if act != Ignore && !act.Interrupt? {
      CopyActs(env, w, t, b.case_.id, b.j, s);
    }
  }

  /** A pass over a copy of the case under way. */
  lemma CopyStep(env: Env, w: Work, v: Verdict, p: Place, ts: Targets)
    requires Inv(w, p, ts) && !Over(w, v) && p.own == [] && p.block.InBlock?
      && p.block.j < |CopiesOf(w.fuzz.layout, p.block.case_.id)|
    requires w.queue[w.idx] == CopiesOf(w.fuzz.layout, p.block.case_.id)[p.block.j]
    ensures var act := Act(env, w, v);
      && !act.RebuildCase?
      && BlockFollows(env, w, p, ts, act, InBlock(p.block.case_, p.block.j + 1))
  {
    CaseFacts(w, p, ts);
    var l, c := w.fuzz.layout, p.block.case_.id;
    assert IsCopy(l, ts[TargetOf(l, c)], c, p.block.j, w.queue[w.idx]);
    ActOnBlock(env, w, v, w.queue[w.idx]);
    CopyStepFor(env, w, p, ts, Act(env, w, v));
  }

  lemma CopyStepFor(env: Env, w: Work, p: Place, ts: Targets, act: Action)
    requires Inv(w, p, ts) && w.idx < |w.queue| && p.own == [] && p.block.InBlock?
      && p.block.j < |CopiesOf(w.fuzz.layout, p.block.case_.id)|
    requires var s, l, c := w.queue[w.idx], w.fuzz.layout, p.block.case_.id;
      && IsCaseOfTarget(l, c) && TargetOf(l, c) in ts && FitsTarget(l, ts[TargetOf(l, c)], c)
      && IsCopy(l, ts[TargetOf(l, c)], c, p.block.j, s)
      && ValidTarget(ts[TargetOf(l, c)]) && !InfoOf(l, c).scope.Shared?
      && ((act == Ignore && !TargetPassed(w.fuzz, s)) || act.Interrupt?
        || (act == CopyAction(env, w, s, c, s.kind.original) && TargetPassed(w.fuzz, s)))
    ensures !act.RebuildCase? && BlockFollows(env, w, p, ts, act, InBlock(p.block.case_, p.block.j + 1))
  {
    hide AtRest, Mid, FuzzAfter;
    var s, tid := w.queue[w.idx], TargetOf(w.fuzz.layout, p.block.case_.id);
    assert TargetOk(w.fuzz, w.failedSetup, p.block, tid, ts[tid]);
    CopyTarget(env, w, ts[tid], p.block, s, act);
    BlockGoesOn(env, w, p, ts, act, InBlock(p.block.case_, p.block.j + 1));
  }

  /** After the pass the groups are as they should be, or the run has ended and nothing was sent. */
  ghost predicate BlockFollows(env: Env, w: Work, p: Place, ts: Targets, act: Action, b: Block)
    requires w.idx < |w.queue|
  {
    var n := FuzzAfter(env, w.fuzz, w.queue[w.idx], act);
    if Ends(act) then n.history == w.fuzz.history
    else GroupsOk(n, FailedAfter(w.failedSetup, act), b, ts) && PendingOk(n, FailedAfter(w.failedSetup, act), p.cases)
  }

  lemma BlockGoesOn(env: Env, w: Work, p: Place, ts: Targets, act: Action, b: Block)
    requires Inv(w, p, ts) && w.idx < |w.queue| && p.block.InBlock? && (b.InBlock? ==> b.case_ == p.block.case_)
    requires FailedAfter(w.failedSetup, act) <= w.failedSetup + {p.block.case_.id}
    requires Touches(w.fuzz, FuzzAfter(env, w.fuzz, w.queue[w.idx], act), p.block.case_.id)
    requires var t := TargetOf(w.fuzz.layout, p.block.case_.id);
      t in ts && (!Ends(act) ==> TargetOk(FuzzAfter(env, w.fuzz, w.queue[w.idx], act), FailedAfter(w.failedSetup, act),
        b, t, ts[t]))
    ensures BlockFollows(env, w, p, ts, act, b)
  {
    var f, n, c := w.fuzz, FuzzAfter(env, w.fuzz, w.queue[w.idx], act), p.block.case_.id;
    if !Ends(act) {
      forall i | 0 <= i < |p.cases| ensures p.cases[i].id != c {
        CaseNotPending(f.layout, p, i);
      }
      GroupsFollow(f, n, w.failedSetup, FailedAfter(w.failedSetup, act), p.block, b, ts, c);
      PendingFollow(f, n, w.failedSetup, FailedAfter(w.failedSetup, act), p.cases, c);
    }
  }

  lemma CaseFacts(w: Work, p: Place, ts: Targets)
    requires Inv(w, p, ts) && p.block.InBlock?
    ensures var l, c := w.fuzz.layout, p.block.case_.id;
      && IsCase(l, p.block.case_) && TargetOf(l, c) in ts && FitsTarget(l, ts[TargetOf(l, c)], c)
      && ValidTarget(ts[TargetOf(l, c)]) && ts[TargetOf(l, c)].readOnly == InfoOf(l, c).readOnly
  {
    assert Cases(p)[|p.done|] == p.block.case_;
    assert p.block.case_ in Cases(p);
  }

  lemma CaseTarget(env: Env, w: Work, t: Target, b: Block, s: Step, act: Action)
    requires b.InBlock? && b.case_ == s && IsCase(w.fuzz.layout, s) && ValidTarget(t)
      && FitsTarget(w.fuzz.layout, t, s.id)
    requires t.readOnly == InfoOf(w.fuzz.layout, s.id).readOnly && b.j == Size(t)
    requires TargetOk(w.fuzz, w.failedSetup, b, TargetOf(w.fuzz.layout, s.id), t)
    requires (act == Ignore && !TargetPassed(w.fuzz, s)) || act.Interrupt?
      || (act == CaseAction(env, w, s) && TargetPassed(w.fuzz, s))
    ensures var n := FuzzAfter(env, w.fuzz, s, act);
      && Touches(w.fuzz, n, s.id)
      && (act.RebuildCase? ==> HasStanding(t, w.fuzz, s.id, Size(t)))
      && (!Ends(act) ==> TargetOk(n, w.failedSetup,
        if act.RebuildCase? then InBlock(s, 0) else NoBlock, TargetOf(w.fuzz.layout, s.id), t))
  {
    if act != Ignore && !act.Interrupt? {
      CaseActs(env, w, t, s.id, s);
    }
  }

  /** A pass over the case itself. */
  lemma CaseStep(env: Env, w: Work, v: Verdict, p: Place, ts: Targets)
    requires Inv(w, p, ts) && !Over(w, v) && p.own == [] && p.block.InBlock?
      && p.block.j == |CopiesOf(w.fuzz.layout, p.block.case_.id)|
    requires w.queue[w.idx] == p.block.case_
    ensures var act := Act(env, w, v);
      && (act.RebuildCase? ==> |CopiesOf(w.fuzz.layout, p.block.case_.id)| > 0)
      && BlockFollows(env, w, p, ts, act, if act.RebuildCase? then InBlock(p.block.case_, 0) else NoBlock)
  {
    hide PlaceOk, PendingOk;
    var s, act := w.queue[w.idx], Act(env, w, v);
    CaseFacts(w, p, ts);
    var tid := TargetOf(w.fuzz.layout, s.id);
    assert TargetOk(w.fuzz, w.failedSetup, p.block, tid, ts[tid]);
    ActOnBlock(env, w, v, s);
    CaseTarget(env, w, ts[tid], p.block, s, act);
    BlockGoesOn(env, w, p, ts, act, if act.RebuildCase? then InBlock(s, 0) else NoBlock);
  }

  /** What a pass does with an entry of the plan itself. */
  lemma ActOnOwn(env: Env, w: Work, v: Verdict, s: Step)
    requires w.idx < |w.queue| && w.queue[w.idx] == s && IsOwn(w.fuzz.layout, s)
    ensures var act := Act(env, w, v);
      || act == Ignore || act.Interrupt?
      || (s.kind.Own? && (act.AbortAt? || act.RunStep?))
      || (s.kind.CaseOf? && (act.HoldCase? || act.AbortAt? || act.JudgeCase?))
  {
  }

  /** Passing a plan step, or a case on its target's own state, leaves the copied setups as they were. */
  lemma OwnFuzz(env: Env, f: Fuzz, s: Step, act: Action, t: string, target: Target)
    requires IsOwn(f.layout, s) && ((act.RunStep? && s.kind.Own?) || (act.JudgeCase? && s.kind.CaseOf?))
    requires t in f.layout.targets && !f.layout.targets[t].scope.Shared? && AtRest(target, GroupAt(f, t), History(f, t))
    ensures var n := FuzzAfter(env, f, s, act); AtRest(target, GroupAt(n, t), History(n, t))
  {
    var n := FuzzAfter(env, f, s, act);
    OwnLeavesGroup(env, f, s, act, t);
    RestWhenPassed(target, GroupAt(f, t), History(f, t), GroupAt(n, t).passed);
  }

  lemma OwnLeavesGroup(env: Env, f: Fuzz, s: Step, act: Action, t: string)
    requires IsOwn(f.layout, s) && ((act.RunStep? && s.kind.Own?) || (act.JudgeCase? && s.kind.CaseOf?))
    requires t in f.layout.targets && !f.layout.targets[t].scope.Shared?
    ensures var n := FuzzAfter(env, f, s, act);
      History(n, t) == History(f, t) && GroupAt(n, t) == GroupAt(f, t).(passed := GroupAt(n, t).passed)
  {
  }

  lemma RestWhenPassed(t: Target, g: Group, h: seq<Event>, passed: bool)
    requires AtRest(t, g, h)
    ensures AtRest(t, g.(passed := passed), h)
  {
  }

  lemma OwnSetups(env: Env, f: Fuzz, s: Step, act: Action)
    requires act.RunStep? || act.JudgeCase?
    ensures var n := FuzzAfter(env, f, s, act); n.caseSetup == f.caseSetup && n.stale == f.stale && n.layout == f.layout
  {
  }

  lemma OwnStep(env: Env, w: Work, v: Verdict, p: Place, ts: Targets)
    requires Inv(w, p, ts) && !Over(w, v) && p.own != [] && w.queue[w.idx] == p.own[0]
    ensures !Act(env, w, v).RebuildCase? && BlockFollows(env, w, p, ts, Act(env, w, v), NoBlock)
  {
    var f, failed := w.fuzz, w.failedSetup;
    var s, act := w.queue[w.idx], Act(env, w, v);
    assert s in p.own;
    ActOnOwn(env, w, v, s);
    if act.RunStep? || act.JudgeCase? {
      var n := FuzzAfter(env, f, s, act);
      OwnSetups(env, f, s, act);
      forall t | t in ts && t in n.layout.targets && !n.layout.targets[t].scope.Shared?
          ensures TargetOk(n, failed, NoBlock, t, ts[t]) {
        assert TargetOk(f, failed, p.block, t, ts[t]);
        OwnFuzz(env, f, s, act, t, ts[t]);
      }
      forall i | 0 <= i < |p.cases| ensures Untried(n, failed, p.cases[i].id) {
        assert Untried(f, failed, p.cases[i].id);
      }
    }
  }

  /** One pass: the run ends with what was sent before, or the invariant holds at the next place. */
  lemma PassKeeps(env: Env, w: Work, v: Verdict, p: Place, ts: Targets)
    requires Inv(w, p, ts) && !Over(w, v)
    ensures KeptBy(env, w, Opened(p), ts, Act(env, w, v))
  {
    OpeningKeeps(w, p, ts);
    EntryIsNext(w, Opened(p));
    BlockOf(env, w, v, Opened(p), ts);
    FollowedKeeps(env, w, Opened(p), ts, Act(env, w, v));
  }

  /** What holds after a pass from an opened place that took act. */
  ghost predicate KeptBy(env: Env, w: Work, q: Place, ts: Targets, act: Action) {
    && w.idx < |w.queue| && HistoriesSound(WorkAfter(env, w, act).fuzz, ts)
    && Fits(w.fuzz.layout, q) && (q.own != [] || q.block.InBlock?)
    && (!Ends(act) ==> Inv(WorkAfter(env, w, act), NextPlace(w.fuzz.layout, q, act), ts))
  }

  function BlockNext(l: Layout, q: Place, act: Action): Block
    requires Fits(l, q) && (q.own != [] || q.block.InBlock?)
  {
    NextPlace(l, q, act).block
  }

  lemma BlockOf(env: Env, w: Work, v: Verdict, q: Place, ts: Targets)
    requires Inv(w, q, ts) && !Over(w, v) && (q.own != [] || q.block.InBlock?)
      && w.queue[w.idx] == Entry(w.fuzz.layout, q)
    ensures var act := Act(env, w, v);
      && BlockFollows(env, w, q, ts, act, BlockNext(w.fuzz.layout, q, act))
      && (act.RebuildCase? ==> w.queue[w.idx].kind.CaseOf? && |CopiesOf(w.fuzz.layout, w.queue[w.idx].id)| > 0)
  {
    if q.own != [] {
      OwnStep(env, w, v, q, ts);
    } else if q.block.j < |CopiesOf(w.fuzz.layout, q.block.case_.id)| {
      CopyStep(env, w, v, q, ts);
    } else {
      CaseFacts(w, q, ts);
      CaseStep(env, w, v, q, ts);
    }
  }

  lemma FollowedKeeps(env: Env, w: Work, q: Place, ts: Targets, act: Action)
    requires Inv(w, q, ts) && Opened(q) == q && w.idx < |w.queue| && (q.own != [] || q.block.InBlock?)
    requires BlockFollows(env, w, q, ts, act, BlockNext(w.fuzz.layout, q, act))
    requires act.RebuildCase? ==> w.queue[w.idx].kind.CaseOf? && |CopiesOf(w.fuzz.layout, w.queue[w.idx].id)| > 0
    ensures KeptBy(env, w, q, ts, act)
  {
    InvIsSound(w, q, ts);
    if Ends(act) {
      SameHistorySound(w.fuzz, WorkAfter(env, w, act).fuzz, ts);
    } else {
      CopiesAre(w, q, ts);
      PassMovesPlace(env, w, q, act);
      InvIsSound(WorkAfter(env, w, act), NextPlace(w.fuzz.layout, q, act), ts);
    }
  }

  lemma SameHistorySound(f: Fuzz, n: Fuzz, ts: Targets)
    requires HistoriesSound(f, ts) && n.layout == f.layout && n.history == f.history
    ensures HistoriesSound(n, ts)
  {
    forall t ensures History(n, t) == History(f, t) {
    }
  }

  lemma CopiesAre(w: Work, p: Place, ts: Targets)
    requires Inv(w, p, ts)
    ensures CopiesAreCopies(w.fuzz.layout, p)
  {
    if p.block.InBlock? {
      CaseFacts(w, p, ts);
      var l, c := w.fuzz.layout, p.block.case_.id;
      forall s | s in CopiesOf(l, c) ensures s.kind.CopyOf? {
        var j :| 0 <= j < |CopiesOf(l, c)| && CopiesOf(l, c)[j] == s;
        assert IsCopy(l, ts[TargetOf(l, c)], c, j, s);
      }
    }
  }

  lemma EntryIsNext(w: Work, p: Place)
    requires PlaceOk(w, p) && Opened(p) == p && w.idx < |w.queue|
    ensures p.own != [] || p.block.InBlock?
    ensures w.queue[w.idx] == Entry(w.fuzz.layout, p)
  {
    var left := Left(w.fuzz.layout, p);
    assert left[0] == w.queue[w.idx];
  }

  lemma EndsTheRun(env: Env, r: Run)
    requires !Over(r.work, r.verdict) && Ends(Act(env, r.work, r.verdict))
    ensures !PassOnce(env, r).verdict.interruption.Running?
  {
    EndingVerdict(env, BeforeActing(env, r.work, r.verdict), r.work.queue[r.work.idx], Act(env, r.work, r.verdict));
    assert Act(env, r.work, r.verdict) != Interrupt(Running);
  }

  lemma EndingVerdict(env: Env, v: Verdict, s: Step, act: Action)
    requires Ends(act) && act != Interrupt(Running)
    ensures !VerdictAfter(env, v, s, act).interruption.Running?
  {
  }

  lemma PassOnceKeeps(env: Env, r: Run, p: Place, ts: Targets) returns (q: Place)
    requires Inv(r.work, p, ts) && !Over(r.work, r.verdict)
    ensures HistoriesSound(PassOnce(env, r).work.fuzz, ts)
    ensures Inv(PassOnce(env, r).work, q, ts) || !PassOnce(env, r).verdict.interruption.Running?
  {
    PassKeeps(env, r.work, r.verdict, p, ts);
    q := NextPlace(r.work.fuzz.layout, Opened(p), Act(env, r.work, r.verdict));
    if Ends(Act(env, r.work, r.verdict)) {
      EndsTheRun(env, r);
    }
  }

  /** Over any run whatever: every case sent stood on one successful build, its own or an earlier one
      that nothing since had changed, and no target's setup failed more than three times in a row. */
  lemma {:induction false} RunsAreSound(env: Env, r: Run, p: Place, ts: Targets) returns (end: Place)
    requires Inv(r.work, p, ts) && r.verdict.interruption.Running?
    ensures HistoriesSound(RunOn(env, r).work.fuzz, ts)
    ensures var n := RunOn(env, r);
      n.verdict.interruption.Running? ==> Inv(n.work, end, ts) && n.work.idx == |n.work.queue|
    decreases |Rebuildable(r.work.fuzz)|, |r.work.queue| - r.work.idx
  {
    end := p;
    if Over(r.work, r.verdict) {
      InvIsSound(r.work, p, ts);
    } else {
      var n := PassOnce(env, r);
      end := PassOnceKeeps(env, r, p, ts);
      PassOnceProgresses(env, r);
      if n.verdict.interruption.Running? {
        end := RunsAreSound(env, n, end, ts);
      }
    }
  }
}

/** Exactly which plans' runs can pass against their own fail lists (engine/engine.go). */
module RunExact {
  import opened FuzzState
  import opened FuzzReuse
  import opened RunSpec
  import opened FuzzPlaces
  import opened FuzzTheorems
  import opened RunVerdict
  import opened RunFromStart

  /** The IDs of the plan's own steps. */
  function OwnIds(own: seq<Step>): set<string> {
    set s | s in own && s.kind.Own? :: s.id
  }

  /** A case whose target is a step of the plan, which has copies of its target's setup to send, and whose
      target's fail list holds the finding of a case that was not sent. */
  predicate AtRisk(l: Layout, own: seq<Step>, c: Step) {
    && IsCase(l, c) && c.kind.target in OwnIds(own) && |CopiesOf(l, c.id)| > 0 && l.targets[c.kind.target].failsUnsent
  }

  predicate SomeAtRisk(l: Layout, own: seq<Step>, cases: seq<Step>) {
    exists i :: 0 <= i < |cases| && AtRisk(l, own, cases[i])
  }

  /** A run that is neither interrupted nor stopped at a checkpoint passes exactly when it should. */
  ghost predicate TellsAll(env: Env, l: Layout, own: seq<Step>, cases: seq<Step>) {
    var n := RunOn(env, StartOf(l, own, cases));
    var v := Finish(env, n.verdict);
    v.interruption.Running? && v.end != Checkpoint ==> (v.outcome.Passed? <==> ShouldPass(env, l, v, n.effects.results))
  }

  // ---------- Where a case that was not sent comes from ----------

  ghost predicate HeldRightly(l: Layout, own: seq<Step>, cases: seq<Step>, r: Report) {
    r.CaseNotSent? ==> r.step in cases && IsCase(l, r.step) && CopiesOf(l, r.step.id) != []
                       && r.step.kind.target in OwnIds(own)
  }

  ghost predicate PassedRightly(f: Fuzz, own: seq<Step>) {
    forall t :: GroupAt(f, t).passed ==> t in OwnIds(own)
  }

  ghost predicate FailedRightly(l: Layout, failed: set<string>) {
    forall c :: c in failed ==> CopiesOf(l, c) != []
  }

  /** What a run has recorded of failed setups, targets and cases, it has from the plan. */
  ghost predicate Backed(r: Run, p: Place, own: seq<Step>, cases: seq<Step>) {
    var l := r.work.fuzz.layout;
    && (forall s :: s in p.own ==> s in own) && Cases(p) == cases
    && FailedRightly(l, r.work.failedSetup) && PassedRightly(r.work.fuzz, own)
    && forall i :: 0 <= i < |r.effects.results| ==> HeldRightly(l, own, cases, r.effects.results[i])
  }

  /** The line a pass adds is one that is backed. */
  lemma ResultsBacked(l: Layout, e: Effects, f: Fuzz, s: Step, act: Action, own: seq<Step>, cases: seq<Step>)
    requires !Ends(act) && f.layout == l
    requires forall i :: 0 <= i < |e.results| ==> HeldRightly(l, own, cases, e.results[i])
    requires act.HoldCase? ==> HeldRightly(l, own, cases, CaseNotSent(s, s.id in f.stale))
    ensures var n := EffectsAfter(e, f, s, act).results; forall i :: 0 <= i < |n| ==> HeldRightly(l, own, cases, n[i])
  {
    hide HeldRightly;
    var n := EffectsAfter(e, f, s, act).results;
    AddedLine(e, f, s, act);
    forall i | 0 <= i < |n| ensures HeldRightly(l, own, cases, n[i]) {
      if i < |e.results| {
        assert n[..|e.results|][i] == n[i];
      } else {
        NotHeld(l, own, cases, n[i]);
      }
    }
  }

  lemma NotHeld(l: Layout, own: seq<Step>, cases: seq<Step>, r: Report)
    ensures !r.CaseNotSent? ==> HeldRightly(l, own, cases, r)
  {
  }

  lemma AddedLine(e: Effects, f: Fuzz, s: Step, act: Action)
    requires !Ends(act)
    ensures var n := EffectsAfter(e, f, s, act).results;
      |e.results| <= |n| <= |e.results| + 1 && n[..|e.results|] == e.results
      && (|n| > |e.results| && n[|e.results|].CaseNotSent?
        ==> act.HoldCase? && n[|e.results|] == CaseNotSent(s, s.id in f.stale))
      && (act.HoldCase? ==> n == e.results + [CaseNotSent(s, s.id in f.stale)])
  {
  }

  /** Only a step that gets through makes a target one that passed. */
  lemma PassedBacked(env: Env, f: Fuzz, s: Step, act: Action, own: seq<Step>)
    requires PassedRightly(f, own) && !Ends(act)
    requires act.RunStep? ==> s.id in OwnIds(own)
    requires act.SendCopy? ==> s.id !in f.layout.targets
    ensures PassedRightly(FuzzAfter(env, f, s, act), own)
  {
    var n := FuzzAfter(env, f, s, act);
    forall t | GroupAt(n, t).passed ensures t in OwnIds(own) {
      PassedOnlyBy(env, f, s, act, t);
    }
  }

  lemma PassedOnlyBy(env: Env, f: Fuzz, s: Step, act: Action, t: string)
    requires !Ends(act) && (act.SendCopy? ==> s.id !in f.layout.targets)
    ensures var n := FuzzAfter(env, f, s, act);
      GroupAt(n, t).passed <==> (GroupAt(f, t).passed || (act.RunStep? && GetsThroughAs(env, f, s, act.answer, t)))
  {
    match act {
      case FailCopy(c, _, _) => FailingKeepsPassed(f, c, s.id, t);
      case SendCopy(c, o, a) => SendingKeepsPassed(env, f, c, s, o, a, t);
      case _ =>
    }
  }

  predicate GetsThroughAs(env: Env, f: Fuzz, s: Step, a: Answer, t: string) {
    t == s.id && s.id in f.layout.targets && GetsThrough(env, s, a, Suppressed(s, a))
  }

  lemma FailingKeepsPassed(f: Fuzz, c: string, copy: string, t: string)
    ensures GroupAt(AfterCopyFailed(Preparing(f, c), c, copy), t).passed == GroupAt(f, t).passed
  {
    assert GroupAt(Preparing(f, c), t).passed == GroupAt(f, t).passed;
  }

  lemma SendingKeepsPassed(env: Env, f: Fuzz, c: string, s: Step, original: string, a: Answer, t: string)
    requires s.id !in f.layout.targets
    ensures var n := AfterCopySent(Preparing(f, c), c, s.id, original, a);
      GroupAt(Passing(env, n, s, a, StepFailed(s, a)), t).passed == GroupAt(f, t).passed
  {
    assert GroupAt(Preparing(f, c), t).passed == GroupAt(f, t).passed;
  }

  /** Whatever entry a pass looks at, what it records is backed by the plan. */
  lemma PassBacked(env: Env, r: Run, q: Place, ts: Targets, own: seq<Step>, cases: seq<Step>)
    requires Inv(r.work, q, ts) && Opened(q) == q && !Over(r.work, r.verdict) && Backed(r, q, own, cases)
      && !Ends(Act(env, r.work, r.verdict))
    ensures q.own != [] || q.block.InBlock?
    ensures Backed(PassOnce(env, r), NextPlace(r.work.fuzz.layout, q, Act(env, r.work, r.verdict)), own, cases)
  {
    var l, w, s, act := r.work.fuzz.layout, r.work, r.work.queue[r.work.idx], Act(env, r.work, r.verdict);
    EntryIsNext(w, q);
    EntryBacked(env, r, q, ts, own, cases);
    PassedBacked(env, w.fuzz, s, act, own);
    ResultsBacked(l, r.effects, w.fuzz, s, act, own, cases);
    NextCases(l, q, act);
  }

  lemma NextCases(l: Layout, q: Place, act: Action)
    requires Fits(l, q) && (q.own != [] || q.block.InBlock?) && WellPlaced(l, q)
    ensures Cases(NextPlace(l, q, act)) == Cases(q) && forall s :: s in NextPlace(l, q, act).own ==> s in q.own
  {
  }

  lemma EntryBacked(env: Env, r: Run, q: Place, ts: Targets, own: seq<Step>, cases: seq<Step>)
    requires Inv(r.work, q, ts) && !Over(r.work, r.verdict) && Backed(r, q, own, cases)
      && !Ends(Act(env, r.work, r.verdict))
    requires (q.own != [] || q.block.InBlock?) && r.work.queue[r.work.idx] == Entry(r.work.fuzz.layout, q)
    ensures var l, s, act := r.work.fuzz.layout, r.work.queue[r.work.idx], Act(env, r.work, r.verdict);
      && (act.RunStep? ==> s.id in OwnIds(own))
      && (act.SendCopy? ==> s.id !in l.targets)
      && (act.HoldCase? ==> HeldRightly(l, own, cases, CaseNotSent(s, s.id in r.work.fuzz.stale)))
      && FailedRightly(l, FailedAfter(r.work.failedSetup, act))
  {
    hide GroupsOk, PendingOk, LaidOut, ValidTarget, BeforeActing, Decide, NeedsRebuild, CopyFails;
    var l, w, s, act := r.work.fuzz.layout, r.work, r.work.queue[r.work.idx], Act(env, r.work, r.verdict);
    if q.own != [] {
      assert s in q.own;
      ActOnOwn(env, w, r.verdict, s);
    } else {
      CaseFacts(w, q, ts);
      var c := q.block.case_;
      assert Cases(q)[|q.done|] == c;
      if q.block.j < |CopiesOf(l, c.id)| {
        assert IsCopy(l, ts[TargetOf(l, c.id)], c.id, q.block.j, s);
      }
      ActOnBlock(env, w, r.verdict, s);
    }
  }

  lemma {:induction false} RunBacked(env: Env, r: Run, p: Place, ts: Targets, own: seq<Step>, cases: seq<Step>)
    requires Inv(r.work, p, ts) && r.verdict.interruption.Running? && Backed(r, p, own, cases)
    ensures var n := RunOn(env, r);
      n.verdict.interruption.Running? ==>
        forall i :: 0 <= i < |n.effects.results| ==>
          HeldRightly(r.work.fuzz.layout, own, cases, n.effects.results[i])
    decreases |Rebuildable(r.work.fuzz)|, |r.work.queue| - r.work.idx
  {
    hide HeldRightly, Inv, FailedRightly, PassedRightly, Act, NextPlace;
    if !Over(r.work, r.verdict) {
      var n := PassOnce(env, r);
      PassOnceProgresses(env, r);
      if Ends(Act(env, r.work, r.verdict)) {
        EndsTheRun(env, r);
        EndedRun(env, n);
      } else {
        PassKeeps(env, r.work, r.verdict, p, ts);
        OpenedBacked(r, p, ts, own, cases);
        PassBacked(env, r, Opened(p), ts, own, cases);
        var q := NextPlace(r.work.fuzz.layout, Opened(p), Act(env, r.work, r.verdict));
        if n.verdict.interruption.Running? {
          RunBacked(env, n, q, ts, own, cases);
        } else {
          EndedRun(env, n);
        }
      }
    }
  }

  lemma EndedRun(env: Env, n: Run)
    requires !n.verdict.interruption.Running?
    ensures RunOn(env, n) == n
  {
  }

  lemma OpenedBacked(r: Run, p: Place, ts: Targets, own: seq<Step>, cases: seq<Step>)
    requires Inv(r.work, p, ts) && Backed(r, p, own, cases)
    ensures Inv(r.work, Opened(p), ts) && Opened(Opened(p)) == Opened(p) && Backed(r, Opened(p), own, cases)
  {
    OpeningKeeps(r.work, p, ts);
    OpenedIsSame(r.work, p);
  }

  /** Where no case is at risk, every run passes exactly when it should. */
  lemma NoRiskTellsAll(env: Env, l: Layout, ts: Targets, own: seq<Step>, cases: seq<Step>)
    requires Planned(l, ts, own, cases) && !SomeAtRisk(l, own, cases)
    ensures TellsAll(env, l, own, cases)
  {
    var r, p := StartOf(l, own, cases), StartPlace(own, cases);
    RunsAreGood(env, l, ts, own, cases);
    StartHolds(l, ts, own, cases);
    StartIsPlaced(l, ts, own, cases);
    RunBacked(env, r, p, ts, own, cases);
    var n := RunOn(env, r);
    var v := Finish(env, n.verdict);
    if v.interruption.Running? && v.end != Checkpoint {
      FinishKeepsRunning(env, n.verdict);
      NoneUnsent(l, own, cases, n.effects.results);
      UnsentFindingsAreMissed(env, l, v, n.effects.results);
    }
  }

  lemma FinishKeepsRunning(env: Env, v: Verdict)
    ensures Finish(env, v).interruption.Running? ==> v.interruption.Running?
  {
  }

  lemma NoneUnsent(l: Layout, own: seq<Step>, cases: seq<Step>, results: seq<Report>)
    requires !SomeAtRisk(l, own, cases) && forall i :: 0 <= i < |results| ==> HeldRightly(l, own, cases, results[i])
    ensures !UnsentFails(l, results)
  {
    forall i | 0 <= i < |results| && results[i].CaseNotSent? ensures !FailingFinding(l, results[i]) {
      assert HeldRightly(l, own, cases, results[i]);
      var k :| 0 <= k < |cases| && cases[k] == results[i].step;
      assert !AtRisk(l, own, cases[k]);
    }
  }

  // ---------- A run that does not, where a case is at risk ----------

  /** Every step's node is in the graph, as a plan that passed validation has it. */
  ghost predicate AllInGraph(l: Layout, own: seq<Step>, cases: seq<Step>) {
    forall s :: s in own + Blocks(l, cases) ==> s.inGraph
  }

  /** What gets the step through, and leaves nothing to find. */
  function Good(s: Step): Answer {
    Answer(false, false, false, true, true, 200, NoBodyError, s.expectsFailure, false, false, NoOutputs, false, false)
  }

  const Broken := Answer(true, false, false, true, false, 0, NoBodyError, false, false, false, NoOutputs, false, false)

  predicate IsCopyFor(s: Step, c: string) {
    s.kind.CopyOf? && s.kind.forCase == c
  }

  function AnswerTo(queue: seq<Step>, c: string, n: nat): Answer {
    if n >= |queue| then Broken else if IsCopyFor(queue[n], c) then Broken else Good(queue[n])
  }

  /** An API on which all goes well but the copies for case c. */
  function Against(queue: seq<Step>, c: string): Env {
    Env((n: nat) => AnswerTo(queue, c, n), (n: nat) => false, Verification(Passed, false), false, "")
  }

  predicate Unharmed(v: Verdict) {
    v.outcome.Passed? && v.end.NotEnded? && v.interruption.Running?
  }

  /** What a pass does on such an API. */
  predicate DoesWell(w: Work, c: string, s: Step, act: Action) {
    match s.kind
    case Own => act == RunStep(Good(s))
    case CopyOf(d, o) =>
      || (act == Ignore && !TargetPassed(w.fuzz, s)) || (act == HoldCopy && d in w.failedSetup)
      || (act == RefuseCopy(d) && d !in w.failedSetup)
      || (act == SendCopy(d, o, Good(s)) && d !in w.failedSetup && d != c)
      || (act == FailCopy(d, o, Broken) && d !in w.failedSetup && d == c)
      || (act.StandInCopy? && d !in w.failedSetup && Decide(w.fuzz, d, o) == StandIn(act.live))
    case CaseOf(_) =>
      || (act == Ignore && RunsAfterPlan(w.fuzz.layout, s) && !TargetPassed(w.fuzz, s))
      || (act == HoldCase && s.id in w.failedSetup) || (act == JudgeCase(Good(s)) && s.id !in w.failedSetup)
  }

  lemma PassDoesWell(queue: seq<Step>, c: string, w: Work, v: Verdict)
    requires w.queue == queue && w.idx < |queue| && Unharmed(v) && queue[w.idx].inGraph
    ensures var act := Act(Against(queue, c), w, v);
      DoesWell(w, c, queue[w.idx], act) && !Ends(act) && !act.RebuildCase?
  {
    var s, env := queue[w.idx], Against(queue, c);
    assert env.answer(w.idx) == AnswerTo(queue, c, w.idx);
    assert BeforeActing(env, w, v).interruption.Running?;
    GoodIsGood(w.fuzz, s);
    hide Decide, NeedsRebuild, CopyFails, TargetPassed, BeforeActing;
    var act := Act(env, w, v);
    match s.kind {
      case CopyOf(d, o) => BrokenFails(s);
      case _ =>
    }
  }

  lemma GoodIsGood(f: Fuzz, s: Step)
    ensures !CopyFails(s, Good(s)) && !NeedsRebuild(f, s.id, Good(s)) && !StepFailed(s, Good(s)) && !Good(s).error
      && !Good(s).fails
  {
  }

  lemma BrokenFails(s: Step)
    ensures CopyFails(s, Broken) && Broken.error && !Broken.interrupted
  {
  }

  lemma StaysUnharmed(queue: seq<Step>, c: string, w: Work, v: Verdict, act: Action)
    requires w.queue == queue && w.idx < |queue| && Unharmed(v) && DoesWell(w, c, queue[w.idx], act)
    ensures Unharmed(VerdictAfter(Against(queue, c), BeforeActing(Against(queue, c), w, v), queue[w.idx], act))
  {
    var env, s := Against(queue, c), queue[w.idx];
    assert Unharmed(BeforeActing(env, w, v));
    GoodIsGood(w.fuzz, s);
  }

  // ---------- How far the case at risk has come ----------

  ghost predicate HeldIn(results: seq<Report>, c: Step) {
    exists i :: 0 <= i < |results| && results[i].CaseNotSent? && results[i].step == c
  }

  /** Before the block of case c nothing of its target's setup is live; in it the setup has failed; and
      behind it the case is reported as not sent. */
  ghost predicate Stage(r: Run, p: Place, c: Step)
    requires c.kind.CaseOf?
  {
    && (c in p.cases || (p.block == InBlock(c, 0)) ==> GroupAt(r.work.fuzz, c.kind.target).live == map[])
    && (p.block.InBlock? && p.block.case_ == c && p.block.j > 0 ==> c.id in r.work.failedSetup)
    && (c in p.done ==> HeldIn(r.effects.results, c))
  }

  /** The plan's own steps behind have got through, so their targets have passed. */
  ghost predicate OwnPassed(f: Fuzz, p: Place, own: seq<Step>) {
    && |p.own| <= |own| && p.own == own[|own| - |p.own|..]
    && forall k :: 0 <= k < |own| - |p.own| && own[k].kind.Own? && own[k].id in f.layout.targets
         ==> GroupAt(f, own[k].id).passed
  }

  /** No case before c is of its target. */
  ghost predicate FirstOfTarget(cases: seq<Step>, c: Step)
    requires c.kind.CaseOf?
  {
    forall i, k :: 0 <= i < k < |cases| && cases[k] == c
      ==> cases[i].kind.CaseOf? && cases[i].kind.target != c.kind.target
  }

  ghost predicate Going(r: Run, p: Place, ts: Targets, own: seq<Step>, cases: seq<Step>, c: Step)
    requires c.kind.CaseOf?
  {
    && Inv(r.work, p, ts) && Unharmed(r.verdict) && Cases(p) == cases
    && OwnPassed(r.work.fuzz, p, own) && Stage(r, p, c)
  }
}

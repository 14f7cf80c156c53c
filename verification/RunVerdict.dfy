/** What the outcome of a run says, over whole runs (engine/engine.go, engine/known_issue.go). */
module RunVerdict {
  import opened FuzzState
  import opened RunSpec
  import opened FuzzPlaces
  import opened FuzzTheorems

  /** A result that keeps the run from passing: an error, a failure nothing covers, or the finding of
      a case that was sent. */
  predicate Blames(r: Report) {
    match r
    case StepReport(s, a, suppressed) => s.kind.Own? && (a.error || (StepFailed(s, a) && !suppressed))
    case CaseReport(_, a, _, _) => a.fails
    case CopyFailure(_, _) => false
    case CaseNotSent(_, _) => false
  }

  /** A main-step failure an active knownIssue covered. */
  predicate Covered(r: Report) {
    r.StepReport? && r.step.kind.Own? && r.suppressed
  }

  predicate NoBlame(results: seq<Report>) {
    forall i :: 0 <= i < |results| ==> !Blames(results[i])
  }

  predicate NoneCovered(results: seq<Report>) {
    forall i :: 0 <= i < |results| ==> !Covered(results[i])
  }

  /** Verification passed, or was not reached. */
  predicate VerificationFine(env: Env, v: Verdict) {
    v.verified && v.end.NotEnded? ==> env.verification.outcome.Passed?
  }

  ghost predicate VerdictOk(env: Env, v: Verdict, results: seq<Report>) {
    && (v.end != Checkpoint ==> (v.outcome.Passed? <==> NoBlame(results) && VerificationFine(env, v)))
    && (v.raw.Passed? <==> NoneCovered(results))
  }

  /** What a pass adds to the results: nothing, or one line. */
  predicate Adds(was: seq<Report>, now: seq<Report>, blames: bool, covers: bool) {
    if |now| == |was| then now == was && !blames && !covers
    else |now| == |was| + 1 && now[..|was|] == was && Blames(now[|was|]) == blames && Covered(now[|was|]) == covers
  }

  lemma AddsToBlame(was: seq<Report>, now: seq<Report>, blames: bool, covers: bool)
    requires Adds(was, now, blames, covers)
    ensures NoBlame(now) <==> NoBlame(was) && !blames
    ensures NoneCovered(now) <==> NoneCovered(was) && !covers
  {
    if |now| != |was| {
      forall i | 0 <= i < |was| ensures now[i] == was[i] {
        assert now[..|was|][i] == was[i];
      }
    }
  }

  /** The results a pass adds, by what it does. */
  predicate ActBlames(s: Step, act: Action) {
    match act
    case JudgeCase(a) => a.fails
    case RunStep(a) => s.kind.Own? && (a.error || (StepFailed(s, a) && !Suppressed(s, a)))
    case _ => false
  }

  predicate ActCovers(s: Step, act: Action) {
    act.RunStep? && s.kind.Own? && Suppressed(s, act.answer)
  }

  lemma ActAdds(e: Effects, f: Fuzz, s: Step, act: Action)
    requires !Ends(act) && (act.SendCopy? ==> s.kind.CopyOf?)
    ensures Adds(e.results, EffectsAfter(e, f, s, act).results, ActBlames(s, act), ActCovers(s, act))
  {
  }

  // ---------- The verdict of one pass ----------

  lemma VerifyKeeps(env: Env, v: Verdict, results: seq<Report>)
    requires VerdictOk(env, v, results) && !v.verified && v.interruption.Running?
      && Verify(env, v).interruption.Running?
    ensures VerdictOk(env, Verify(env, v), results)
  {
  }

  /** A copy that passed changes nothing but, at the checkpoint, where the run stops. */
  lemma PassingCopyIsQuiet(env: Env, v: Verdict, s: Step, a: Answer)
    requires !CopyFails(s, a)
    ensures var n := StepVerdict(env, v, s, a, StepFailed(s, a));
      n == v || n == v.(end := Checkpoint)
  {
  }

  lemma OwnStepVerdict(env: Env, v: Verdict, s: Step, a: Answer)
    requires v.end.NotEnded?
    ensures var n := StepVerdict(env, v, s, a, Suppressed(s, a));
      && n.raw == v.raw && n.verified == v.verified && n.interruption == v.interruption
      && (n.outcome.Passed? <==> v.outcome.Passed? && !a.error && (StepFailed(s, a) ==> Suppressed(s, a)))
  {
  }

  lemma ActVerdict(env: Env, v: Verdict, s: Step, act: Action, results: seq<Report>, results': seq<Report>)
    requires VerdictOk(env, v, results) && !Ends(act) && Adds(results, results', ActBlames(s, act), ActCovers(s, act))
    requires act.RunStep? ==> s.kind.Own? && v.end.NotEnded? && !v.verified
    requires act.SendCopy? ==> !CopyFails(s, act.answer)
    ensures VerdictOk(env, VerdictAfter(env, v, s, act), results')
  {
    AddsToBlame(results, results', ActBlames(s, act), ActCovers(s, act));
    if act.SendCopy? {
      PassingCopyIsQuiet(env, v, s, act.answer);
    } else if act.RunStep? {
      OwnStepVerdict(env, if Suppressed(s, act.answer) then v.(raw := Failed) else v, s, act.answer);
    }
  }

  lemma StepKeepsFailing(env: Env, v: Verdict, s: Step, a: Answer, suppressed: bool)
    requires !v.outcome.Passed?
    ensures !StepVerdict(env, v, s, a, suppressed).outcome.Passed?
  {
  }

  lemma ActKeepsFailing(env: Env, v: Verdict, s: Step, act: Action)
    requires !v.outcome.Passed?
    ensures !VerdictAfter(env, v, s, act).outcome.Passed?
  {
    match act {
      case SendCopy(_, _, a) => StepKeepsFailing(env, v, s, a, StepFailed(s, a));
      case RunStep(a) => StepKeepsFailing(env,
        if Suppressed(s, a) then v.(raw := Failed) else v, s, a, Suppressed(s, a));
      case _ =>
    }
  }

  lemma VerifyKeepsFailing(env: Env, w: Work, v: Verdict)
    requires !v.outcome.Passed?
    ensures w.idx < |w.queue| ==> !BeforeActing(env, w, v).outcome.Passed?
    ensures !Finish(env, v).outcome.Passed?
  {
  }

  /** Once the outcome leaves passed it never returns to it. */
  lemma {:induction false} OutcomeNeverRecovers(env: Env, r: Run)
    requires !r.verdict.outcome.Passed?
    ensures !RunOn(env, r).verdict.outcome.Passed? && !Finish(env, RunOn(env, r).verdict).outcome.Passed?
    decreases |Rebuildable(r.work.fuzz)|, |r.work.queue| - r.work.idx
  {
    VerifyKeepsFailing(env, r.work, r.verdict);
    if !Over(r.work, r.verdict) {
      var v := BeforeActing(env, r.work, r.verdict);
      ActKeepsFailing(env, v, r.work.queue[r.work.idx], Act(env, r.work, r.verdict));
      PassOnceProgresses(env, r);
      OutcomeNeverRecovers(env, PassOnce(env, r));
    }
  }

  // ---------- Where an action comes from ----------

  ghost predicate RightAct(v: Verdict, s: Step, act: Action) {
    && (act.RunStep? ==> s.kind.Own? && v.end.NotEnded?)
    && (act.SendCopy? ==> s.kind.CopyOf? && !CopyFails(s, act.answer))
  }

  lemma ActIsRight(env: Env, w: Work, v: Verdict)
    requires w.idx < |w.queue|
    ensures RightAct(v, w.queue[w.idx], Act(env, w, v))
  {
  }

  lemma VerifiesOnlyAfter(env: Env, w: Work, v: Verdict)
    requires w.idx < |w.queue| && !Ends(Act(env, w, v)) && v.interruption.Running?
    ensures BeforeActing(env, w, v).interruption.Running?
    ensures BeforeActing(env, w, v) == v || (!v.verified && BeforeActing(env, w, v) == Verify(env, v) && After(w))
  {
  }

  // ---------- Whole runs ----------

  /** The verdict so far is what the results say, and verification waits for the plan's own steps. */
  ghost predicate Judged(env: Env, r: Run, p: Place) {
    VerdictOk(env, r.verdict, r.effects.results) && (r.verdict.verified ==> p.own == [])
  }

  lemma BeforeActingKeeps(env: Env, w: Work, v: Verdict, results: seq<Report>)
    requires w.idx < |w.queue| && VerdictOk(env, v, results) && !Ends(Act(env, w, v)) && v.interruption.Running?
    ensures VerdictOk(env, BeforeActing(env, w, v), results)
    ensures BeforeActing(env, w, v) == v || (BeforeActing(env, w, v).verified && After(w))
  {
    VerifiesOnlyAfter(env, w, v);
    if BeforeActing(env, w, v) != v {
      VerifyKeeps(env, v, results);
    }
  }

  /** The action of a pass that goes on is one the verdict is right about. */
  ghost predicate Fit(w: Work, v: Verdict, o: Place, s: Step, act: Action) {
    && RightAct(v, s, act) && !Ends(act)
    && (o.own != [] ==> !RunsAfterPlan(w.fuzz.layout, s)) && (o.own == [] ==> !s.kind.Own?)
  }

  lemma PassJudged(env: Env, r: Run, o: Place)
    requires !Over(r.work, r.verdict) && VerdictOk(env, r.verdict, r.effects.results)
      && (r.verdict.verified ==> o.own == [])
    requires Fit(r.work, r.verdict, o, r.work.queue[r.work.idx], Act(env, r.work, r.verdict))
    ensures VerdictOk(env, PassOnce(env, r).verdict, PassOnce(env, r).effects.results)
  {
    var s, act := r.work.queue[r.work.idx], Act(env, r.work, r.verdict);
    BeforeActingKeeps(env, r.work, r.verdict, r.effects.results);
    ActAdds(r.effects, r.work.fuzz, s, act);
    FitVerdict(env, r.work, r.verdict, BeforeActing(env, r.work, r.verdict), o, s, act, r.effects.results,
      EffectsAfter(r.effects, r.work.fuzz, s, act).results);
  }

  lemma FitVerdict(env: Env, w: Work, v: Verdict, v': Verdict, o: Place, s: Step, act: Action, results: seq<Report>,
                   results': seq<Report>)
    requires Fit(w, v, o, s, act) && (v.verified ==> o.own == []) && (v' == v || RunsAfterPlan(w.fuzz.layout, s))
    requires VerdictOk(env, v', results) && Adds(results, results', ActBlames(s, act), ActCovers(s, act))
    ensures VerdictOk(env, VerdictAfter(env, v', s, act), results')
  {
    ActVerdict(env, v', s, act, results, results');
  }

  lemma EntryKinds(w: Work, o: Place, ts: Targets)
    requires Inv(w, o, ts) && Opened(o) == o && w.idx < |w.queue|
    ensures o.own != [] || o.block.InBlock?
    ensures o.own != [] ==> !RunsAfterPlan(w.fuzz.layout, w.queue[w.idx])
    ensures o.own == [] ==> !w.queue[w.idx].kind.Own?
  {
    EntryIsNext(w, o);
    if o.own != [] {
      assert o.own[0] in o.own;
    } else {
      CaseFacts(w, o, ts);
      CopiesAre(w, o, ts);
      if o.block.j < |CopiesOf(w.fuzz.layout, o.block.case_.id)| {
        assert w.queue[w.idx] in CopiesOf(w.fuzz.layout, o.block.case_.id);
      }
    }
  }

  lemma VerifiedLater(env: Env, v: Verdict, s: Step, act: Action)
    ensures VerdictAfter(env, v, s, act).verified == v.verified
  {
  }

  lemma OpenedJudged(env: Env, r: Run, o: Place, ts: Targets)
    requires Inv(r.work, o, ts) && Opened(o) == o && !Over(r.work, r.verdict) && Judged(env, r, o)
      && !Ends(Act(env, r.work, r.verdict))
    ensures o.own != [] || o.block.InBlock?
    ensures Judged(env, PassOnce(env, r), NextPlace(r.work.fuzz.layout, o, Act(env, r.work, r.verdict)))
  {
    EntryKinds(r.work, o, ts);
    ActIsRight(env, r.work, r.verdict);
    PassJudged(env, r, o);
    BeforeActingKeeps(env, r.work, r.verdict, r.effects.results);
    VerifiedLater(env, BeforeActing(env, r.work, r.verdict), r.work.queue[r.work.idx], Act(env, r.work, r.verdict));
  }

  /** A pass that goes on keeps the place and the verdict in step. */
  lemma PassGoesOn(env: Env, r: Run, p: Place, ts: Targets) returns (q: Place)
    requires Inv(r.work, p, ts) && !Over(r.work, r.verdict) && Judged(env, r, p)
    ensures !PassOnce(env, r).verdict.interruption.Running?
      || (Inv(PassOnce(env, r).work, q, ts) && Judged(env, PassOnce(env, r), q))
  {
    q := p;
    if Ends(Act(env, r.work, r.verdict)) {
      EndsTheRun(env, r);
    } else {
      PassKeeps(env, r.work, r.verdict, p, ts);
      OpeningKeeps(r.work, p, ts);
      OpenedJudged(env, r, Opened(p), ts);
      q := NextPlace(r.work.fuzz.layout, Opened(p), Act(env, r.work, r.verdict));
    }
  }

  /** What a run that was neither interrupted nor stopped at a checkpoint says of itself: it passed
      exactly when nothing blames it and verification passed or was not reached; and cleanup is gated as
      passed only if, besides, no failure was covered. */
  ghost predicate SaysTrue(env: Env, v: Verdict, results: seq<Report>) {
    v.interruption.Running? && v.end != Checkpoint ==>
      && (v.outcome.Passed? <==> NoBlame(results) && (v.end.NotEnded? ==> env.verification.outcome.Passed?))
      && (Gating(v).Passed? <==> v.outcome.Passed? && NoneCovered(results))
  }

  lemma FinishSaysTrue(env: Env, r: Run, p: Place)
    requires Judged(env, r, p)
    ensures SaysTrue(env, Finish(env, r.verdict), r.effects.results)
  {
    if r.verdict.interruption.Running? && !r.verdict.verified && Verify(env, r.verdict).interruption.Running? {
      VerifyKeeps(env, r.verdict, r.effects.results);
    }
  }

  lemma {:induction false} OutcomeSaysTrue(env: Env, r: Run, p: Place, ts: Targets)
    requires Inv(r.work, p, ts) && Judged(env, r, p) && r.verdict.interruption.Running?
    ensures SaysTrue(env, Finish(env, RunOn(env, r).verdict), RunOn(env, r).effects.results)
    decreases |Rebuildable(r.work.fuzz)|, |r.work.queue| - r.work.idx
  {
    if Over(r.work, r.verdict) {
      FinishSaysTrue(env, r, p);
    } else {
      var q := PassGoesOn(env, r, p, ts);
      PassOnceProgresses(env, r);
      if PassOnce(env, r).verdict.interruption.Running? {
        OutcomeSaysTrue(env, PassOnce(env, r), q, ts);
      }
    }
  }

  // ---------- A finding the outcome misses ----------

  /** Whether the finding of a case fails the run, by the target's own fail list. */
  predicate FailingFinding(l: Layout, r: Report) {
    match r
    case CaseReport(_, a, _, _) => a.fails
    case CaseNotSent(s, _) => s.kind.CaseOf? && s.kind.target in l.targets && l.targets[s.kind.target].failsUnsent
    case _ => false
  }

  predicate UnsentFails(l: Layout, results: seq<Report>) {
    exists i :: 0 <= i < |results| && results[i].CaseNotSent? && FailingFinding(l, results[i])
  }

  predicate NoFailingFinding(l: Layout, results: seq<Report>) {
    forall i :: 0 <= i < |results| ==> !FailingFinding(l, results[i])
  }

  /** No step of the plan failed uncovered, and no finding fails the run: what the outcome should say. */
  predicate ShouldPass(env: Env, l: Layout, v: Verdict, results: seq<Report>) {
    NoBlame(results) && NoFailingFinding(l, results) && (v.end.NotEnded? ==> env.verification.outcome.Passed?)
  }

  /** A case whose setup failed is judged like any other, but its finding never reaches the outcome: a
      run passes against its fail list exactly when such a finding is all that stands against it. */
  lemma UnsentFindingsAreMissed(env: Env, l: Layout, v: Verdict, results: seq<Report>)
    requires SaysTrue(env, v, results) && v.interruption.Running? && v.end != Checkpoint
    ensures (v.outcome.Passed? <==> ShouldPass(env, l, v, results)) <==> !(v.outcome.Passed? && UnsentFails(l, results))
  {
    if v.outcome.Passed? && !UnsentFails(l, results) {
      forall i | 0 <= i < |results| ensures !FailingFinding(l, results[i]) {
        assert !Blames(results[i]);
      }
    }
  }

  // ---------- A run that passes against its fail list ----------

  const Ok := Answer(false, false, false, true, true, 200, NoBodyError, false, false, false, NoOutputs, false, false)
  const Refusal := Ok.(statusCode := 403)

  const TheTarget := Step("pay", Own, true, false, false, NoIssue)
  const TheCopy := Step("login~1", CopyOf("pay~1", "login"), true, false, false, NoIssue)
  const TheCase := Step("pay~1", CaseOf("pay"), true, false, false, NoIssue)

  const TheLayout := Layout(map["pay" := TargetInfo(Isolated, false, true)], map["pay~1" := "pay"],
    map["pay~1" := [TheCopy]])

  /** The API refuses the second request, the copy of the setup. */
  function RefusesSecond(n: nat): Answer {
    if n == 1 then Refusal else Ok
  }

  const TheEnv := Env(RefusesSecond, (n: nat) => false, Verification(Passed, false), false, "")

  const Start := Run(Work([TheTarget, TheCopy, TheCase], 0, Fuzz(TheLayout, map[], map[], {}, map[]), {}, 0),
                     Verdict(Passed, Passed, false, NotEnded, false, Running), Effects(map[], [], []))

  lemma TargetPasses()
    ensures var n := PassOnce(TheEnv, Start);
      && n.work.idx == 1 && n.work.queue == Start.work.queue && n.work.failedSetup == {} && n.verdict == Start.verdict
      && n.work.fuzz == Fuzz(TheLayout, map["pay" := NewGroup.(passed := true)], map[], {}, map[])
      && |n.effects.results| == 1
  {
    assert Act(TheEnv, Start.work, Start.verdict) == RunStep(Ok);
  }

  lemma CopyIsRefused(r: Run)
    requires r.work.idx == 1 && r.work.queue == Start.work.queue && r.work.failedSetup == {}
      && r.verdict == Start.verdict
    requires r.work.fuzz == Fuzz(TheLayout, map["pay" := NewGroup.(passed := true)], map[], {}, map[])
    ensures !Over(r.work, r.verdict)
    ensures var n := PassOnce(TheEnv, r);
      && n.work.idx == 2 && n.work.queue == r.work.queue && n.work.failedSetup == {"pay~1"}
      && n.verdict == r.verdict.(verified := true)
      && n.work.fuzz.layout == TheLayout && GroupAt(n.work.fuzz, "pay").passed
  {
    assert Act(TheEnv, r.work, r.verdict) == FailCopy("pay~1", "login", Refusal);
  }

  lemma CaseIsHeld(r: Run)
    requires r.work.idx == 2 && r.work.queue == Start.work.queue && r.work.failedSetup == {"pay~1"}
      && r.verdict == Start.verdict.(verified := true)
    requires r.work.fuzz.layout == TheLayout && GroupAt(r.work.fuzz, "pay").passed
    ensures !Over(r.work, r.verdict)
    ensures var n := PassOnce(TheEnv, r);
      Over(n.work, n.verdict) && n.verdict == r.verdict && UnsentFails(TheLayout, n.effects.results)
  {
    assert Act(TheEnv, r.work, r.verdict) == HoldCase;
    var n := PassOnce(TheEnv, r);
    assert n.effects.results[|r.effects.results|] == CaseNotSent(TheCase, "pay~1" in r.work.fuzz.stale);
  }

  /** The target's fail list names the finding its only case has, and the run passes. */
  lemma PassesAgainstItsFailList()
    ensures var n := RunOn(TheEnv, Start);
      n.verdict.outcome.Passed? && n.verdict.end.NotEnded? && n.verdict.interruption.Running?
        && UnsentFails(TheLayout, n.effects.results)
  {
    TargetPasses();
    var a := PassOnce(TheEnv, Start);
    CopyIsRefused(a);
    var b := PassOnce(TheEnv, a);
    CaseIsHeld(b);
    assert RunOn(TheEnv, Start) == RunOn(TheEnv, a) == RunOn(TheEnv, b) == RunOn(TheEnv, PassOnce(TheEnv, b));
  }
}

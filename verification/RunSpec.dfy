/** One pass of the engine's run loop, and whole runs of it, over arbitrary answers (engine/engine.go).

    Each pass looks at one entry of the queue and sends at most one request, so the answers and the
    interruptions are given by the number of the pass. A pass is what it does to three records: the
    work ahead, the verdict on the run, and the effects the run leaves. */
module RunSpec {
  import opened FuzzState

  datatype Outcome = Passed | Failed | Errored

  /** Why the plan's own steps stopped short, if they did. */
  datatype End = NotEnded | EndedAt(withError: bool) | Checkpoint

  datatype Interruption = Running | Aborted | NodeMissing

  /** What the verification steps came to, and whether the run was interrupted in them. */
  datatype Verification = Verification(outcome: Outcome, interrupted: bool)

  datatype Env = Env(answer: nat -> Answer, cancelled: nat -> bool, verification: Verification,
                     continueOnAssertionFailure: bool, stopAfter: string)

  datatype Work = Work(queue: seq<Step>, idx: nat, fuzz: Fuzz, failedSetup: set<string>, copiesSkipped: int)

  /** raw is what really happened, a failure a knownIssue covered included. */
  datatype Verdict = Verdict(outcome: Outcome, raw: Outcome, early: bool, end: End, verified: bool,
    interruption: Interruption)

  /** A line of the run's results. */
  datatype Report =
    | StepReport(step: Step, answer: Answer, suppressed: bool)
    | CopyFailure(step: Step, answer: Answer)
    | CaseReport(step: Step, answer: Answer, setup: Setup, stale: bool)
    | CaseNotSent(step: Step, stale: bool)

  /** cleanup holds the IDs of the steps that registered a cleanup, in the order they did. */
  datatype Effects = Effects(outputs: map<string, map<string, string>>, cleanup: seq<string>, results: seq<Report>)

  // ---------- What a result is made of ----------

  /** Whether the answer to a step that did complete counts against it, known issue or not. */
  predicate StepFailed(s: Step, a: Answer) {
    if s.expectsFailure then (!a.error && !a.expectedFailure) || a.validationFailed
    else a.statusCode >= 400 || a.bodyError.BodyError? || a.strictViolation || a.validationFailed
  }

  /** Whether the original's known issue covers what a copy failed on. */
  predicate CoversSetupFailure(s: Step, a: Answer) {
    && !a.error
    && (if s.expectsFailure then a.expectedFailure else a.statusCode < 400 && a.bodyError.NoBodyError?)
    && s.issue.Active?
  }

  predicate CopyFails(s: Step, a: Answer) {
    (a.error || StepFailed(s, a)) && !CoversSetupFailure(s, a)
  }

  /** Whether an active knownIssue keeps a plan step's failure out of the outcome. */
  predicate Suppressed(s: Step, a: Answer) {
    !a.error && StepFailed(s, a) && s.issue.Active?
  }

  /** Whether what an answer returned can be built on. */
  predicate Usable(a: Answer) {
    a.statusCode < 400 && a.bodyError.NoBodyError?
  }

  // ---------- What a pass does ----------

  datatype Action =
    | Ignore
    | Interrupt(why: Interruption)
    | AbortAt(answer: Answer)
    | HoldCopy
    | RefuseCopy(forCase: string)
    | StandInCopy(forCase: string, original: string, live: string)
    | FailCopy(forCase: string, original: string, answer: Answer)
    | SendCopy(forCase: string, original: string, answer: Answer)
    | HoldCase
    | RebuildCase(answer: Answer)
    | JudgeCase(answer: Answer)
    | RunStep(answer: Answer)

  predicate After(w: Work)
    requires w.idx < |w.queue|
  {
    RunsAfterPlan(w.fuzz.layout, w.queue[w.idx])
  }

  /** Whether a pass leaves its entry out: the target did not get through, or the plan has ended. */
  predicate LeavesOut(w: Work, v: Verdict)
    requires w.idx < |w.queue|
  {
    if After(w) then !TargetPassed(w.fuzz, w.queue[w.idx]) else !v.end.NotEnded?
  }

  /** The verdict after verifying a plan that came to its end. */
  function Verify(env: Env, v: Verdict): Verdict {
    var w := v.(verified := true);
    if !v.end.NotEnded? then w
    else if env.verification.outcome.Errored? && env.verification.interrupted then w.(interruption := Aborted)
    else if !env.verification.outcome.Passed? then w.(outcome := env.verification.outcome)
    else w
  }

  /** The verdict once this pass has verified the plan, if it must. */
  function BeforeActing(env: Env, w: Work, v: Verdict): Verdict
    requires w.idx < |w.queue|
  {
    if !LeavesOut(w, v) && !env.cancelled(w.idx) && After(w) && !v.verified then Verify(env, v) else v
  }

  function CopyAction(env: Env, w: Work, s: Step, c: string, o: string): Action {
    if c in w.failedSetup then HoldCopy
    else
      match Decide(w.fuzz, c, o)
      case DoNotSend => RefuseCopy(c)
      case StandIn(live) => StandInCopy(c, o, live)
      case Send =>
        var a := env.answer(w.idx);
        if !CopyFails(s, a) then SendCopy(c, o, a)
        else if a.error && a.interrupted then AbortAt(a)
        else FailCopy(c, o, a)
  }

  function CaseAction(env: Env, w: Work, s: Step): Action {
    var a := env.answer(w.idx);
    if s.id in w.failedSetup then HoldCase
    else if a.error && a.interrupted then AbortAt(a)
    else if NeedsRebuild(w.fuzz, s.id, a) then RebuildCase(a)
    else JudgeCase(a)
  }

  function Act(env: Env, w: Work, v: Verdict): Action
    requires w.idx < |w.queue|
  {
    var s := w.queue[w.idx];
    if LeavesOut(w, v) then Ignore
    else if env.cancelled(w.idx) then Interrupt(Aborted)
    else if !BeforeActing(env, w, v).interruption.Running? then Interrupt(Aborted)
    else if !s.inGraph then Interrupt(NodeMissing)
    else
      match s.kind
      case CopyOf(c, o) => CopyAction(env, w, s, c, o)
      case CaseOf(_) => CaseAction(env, w, s)
      case Own =>
        var a := env.answer(w.idx);
        if a.error && a.interrupted then AbortAt(a) else RunStep(a)
  }

  // ---------- The work ahead ----------

  /** Whether the run goes on after a step. */
  predicate GetsThrough(env: Env, s: Step, a: Answer, suppressed: bool) {
    && !a.error
    && (if s.expectsFailure then a.expectedFailure else Usable(a) && (!a.strictViolation || suppressed))
    && (!a.validationFailed || suppressed || env.continueOnAssertionFailure)
  }

  function Passing(env: Env, f: Fuzz, s: Step, a: Answer, suppressed: bool): (r: Fuzz)
    ensures SameCases(f, r)
  {
    if GetsThrough(env, s, a, suppressed) then AfterTargetPassed(f, s.id) else f
  }

  function FuzzAfter(env: Env, f: Fuzz, s: Step, act: Action): (r: Fuzz)
    ensures r.layout == f.layout
    ensures r.stale == if act.RebuildCase? && IsCaseOfTarget(f.layout, s.id) then f.stale + {s.id} else f.stale
  {
    match act
    case Ignore | Interrupt(_) | HoldCopy | HoldCase => f
    case AbortAt(_) => if s.kind.CopyOf? then Preparing(f, s.kind.forCase) else f
    case RefuseCopy(c) => WithSetup(f, c, SetupFailed)
    case StandInCopy(c, o, live) => AfterStandIn(f, c, s.id, live)
    case FailCopy(c, o, _) => AfterCopyFailed(Preparing(f, c), c, s.id)
    case SendCopy(c, o, a) => Passing(env, AfterCopySent(Preparing(f, c), c, s.id, o, a), s, a, StepFailed(s, a))
    case RebuildCase(a) => AfterRebuild(AfterAsking(f, s.id, a), s.id)
    case JudgeCase(a) => AfterJudging(AfterAsking(f, s.id, a), s.id, a)
    case RunStep(a) => Passing(env, f, s, a, Suppressed(s, a))
  }

  /** The cases whose setup failed, which are not sent. */
  function FailedAfter(failed: set<string>, act: Action): set<string> {
    match act
    case RefuseCopy(c) => failed + {c}
    case FailCopy(c, _, _) => failed + {c}
    case _ => failed
  }

  /** A copy not sent is counted; copies a rebuild sends after all no longer are. */
  function SkippedAfter(skipped: int, f: Fuzz, s: Step, act: Action): int {
    match act
    case HoldCopy | StandInCopy(_, _, _) | RefuseCopy(_) => skipped + 1
    case RebuildCase(_) => skipped - |CopiesOf(f.layout, s.id)|
    case _ => skipped
  }

  /** A rebuild puts the case's copies, and the case again, next. */
  function QueueAfter(queue: seq<Step>, idx: nat, f: Fuzz, act: Action): seq<Step>
    requires idx < |queue|
  {
    if act.RebuildCase? then queue[..idx + 1] + CopiesOf(f.layout, queue[idx].id) + [queue[idx]] + queue[idx + 1..]
    else queue
  }

  function WorkAfter(env: Env, w: Work, act: Action): Work
    requires w.idx < |w.queue|
  {
    var s := w.queue[w.idx];
    Work(QueueAfter(w.queue, w.idx, w.fuzz, act), w.idx + 1, FuzzAfter(env, w.fuzz, s, act),
         FailedAfter(w.failedSetup, act), SkippedAfter(w.copiesSkipped, w.fuzz, s, act))
  }

  // ---------- The verdict ----------

  /** The step's own assertions, then the checkpoint. */
  function AssertedVerdict(env: Env, v: Verdict, s: Step, a: Answer, suppressed: bool): Verdict {
    var failing := a.validationFailed && !suppressed;
    var o := if failing then v.(outcome := Failed) else v;
    if failing && !env.continueOnAssertionFailure then o.(end := EndedAt(true))
    else if env.stopAfter != "" && s.id == env.stopAfter then o.(end := Checkpoint)
    else o
  }

  /** A step's result ends the run, fails it, or lets it go on. */
  function StepVerdict(env: Env, v: Verdict, s: Step, a: Answer, suppressed: bool): Verdict {
    if a.error then v.(outcome := Errored, end := EndedAt(true))
    else if s.expectsFailure && a.expectedFailure then AssertedVerdict(env, v, s, a, suppressed)
    else if s.expectsFailure || !Usable(a) then
      if suppressed then v.(early := true, end := EndedAt(false)) else v.(outcome := Failed, end := EndedAt(true))
    else if a.strictViolation && !suppressed then v.(outcome := Failed, end := EndedAt(true))
    else AssertedVerdict(env, v, s, a, suppressed)
  }

  function VerdictAfter(env: Env, v: Verdict, s: Step, act: Action): Verdict {
    match act
    case Interrupt(why) => v.(interruption := why)
    case AbortAt(_) => v.(interruption := Aborted)
    case SendCopy(_, _, a) => StepVerdict(env, v, s, a, StepFailed(s, a))
    case JudgeCase(a) => if a.fails && v.outcome.Passed? then v.(outcome := Failed) else v
    case RunStep(a) => StepVerdict(env, if Suppressed(s, a) then v.(raw := Failed) else v, s, a, Suppressed(s, a))
    case _ => v
  }

  // ---------- The effects ----------

  function Leaving(e: Effects, s: Step, o: Outputs, report: Report): Effects {
    Effects(if o.Outputs? then e.outputs[s.id := o.values] else e.outputs,
            if s.cleansUp then e.cleanup + [s.id] else e.cleanup,
            e.results + [report])
  }

  function Reporting(e: Effects, report: Report): Effects {
    e.(results := e.results + [report])
  }

  function EffectsAfter(e: Effects, f: Fuzz, s: Step, act: Action): Effects {
    match act
    case StandInCopy(_, _, live) =>
      e.(outputs := if live in e.outputs then e.outputs[s.id := e.outputs[live]] else e.outputs)
    case FailCopy(_, _, a) =>
      // What failed its checks alone is there to be cleaned up.
      if !a.error && Usable(a) && s.cleansUp then Leaving(e, s, a.outputs, CopyFailure(s, a))
      else Reporting(e, CopyFailure(s, a))
    case SendCopy(_, _, a) => StepEffects(e, s, a, StepFailed(s, a))
    case RunStep(a) => StepEffects(e, s, a, Suppressed(s, a))
    case AbortAt(a) => Reporting(e, AbortReport(s, a))
    case HoldCase => Reporting(e, CaseNotSent(s, s.id in f.stale))
    case JudgeCase(a) =>
      var report := CaseReport(s, a, SetupOf(f, s.id), s.id in f.stale);
      if a.hasResponse && Usable(a) && !a.outputsError then Leaving(e, s, a.outputs, report) else Reporting(e, report)
    case _ => e
  }

  /** The result of a step whose request the interruption cut off. */
  function AbortReport(s: Step, a: Answer): Report {
    match s.kind
    case CopyOf(_, _) => CopyFailure(s, a)
    case CaseOf(_) => CaseReport(s, a, NoSetup, false)
    case Own => StepReport(s, a, false)
  }

  function StepEffects(e: Effects, s: Step, a: Answer, suppressed: bool): Effects {
    if !a.error && !s.expectsFailure && Usable(a) then Leaving(e, s, a.outputs, StepReport(s, a, suppressed))
    else Reporting(e, StepReport(s, a, suppressed))
  }

  // ---------- Whole runs ----------

  predicate Over(w: Work, v: Verdict) {
    w.idx >= |w.queue| || !v.interruption.Running?
  }

  /** The cases that may still be sent again. */
  function Rebuildable(f: Fuzz): set<string> {
    f.layout.caseTarget.Keys - f.stale
  }

  /** Only a stale answer changes the queue, and it spends the case's one rebuild. */
  lemma OnlyRebuildsChangeQueue(env: Env, w: Work, v: Verdict)
    requires !Over(w, v)
    ensures var n := WorkAfter(env, w, Act(env, w, v));
      || (Rebuildable(n.fuzz) < Rebuildable(w.fuzz))
      || (Rebuildable(n.fuzz) == Rebuildable(w.fuzz) && n.queue == w.queue && n.idx == w.idx + 1)
  {
    var act := Act(env, w, v);
    var s := w.queue[w.idx];
    if act.RebuildCase? {
      assert s.id in Rebuildable(w.fuzz) && s.id !in Rebuildable(FuzzAfter(env, w.fuzz, s, act));
    }
  }

  lemma FewerRebuilds(a: Fuzz, b: Fuzz)
    requires Rebuildable(a) < Rebuildable(b)
    ensures |Rebuildable(a)| < |Rebuildable(b)|
  {
    assert Rebuildable(b) == Rebuildable(a) + (Rebuildable(b) - Rebuildable(a));
  }

  datatype Run = Run(work: Work, verdict: Verdict, effects: Effects)

  function PassOnce(env: Env, r: Run): Run
    requires !Over(r.work, r.verdict)
  {
    var act := Act(env, r.work, r.verdict);
    var s := r.work.queue[r.work.idx];
    Run(WorkAfter(env, r.work, act),
        VerdictAfter(env, BeforeActing(env, r.work, r.verdict), s, act),
        EffectsAfter(r.effects, r.work.fuzz, s, act))
  }

  /** The rest of the run. The loop ends although stale answers put work back into its queue. */
  function RunOn(env: Env, r: Run): Run
    decreases |Rebuildable(r.work.fuzz)|, |r.work.queue| - r.work.idx
  {
    if Over(r.work, r.verdict) then r
    else
      OnlyRebuildsChangeQueue(env, r.work, r.verdict);
      var n := PassOnce(env, r);
      assert Rebuildable(n.work.fuzz) < Rebuildable(r.work.fuzz)
        ==> |Rebuildable(n.work.fuzz)| < |Rebuildable(r.work.fuzz)| by {
        if Rebuildable(n.work.fuzz) < Rebuildable(r.work.fuzz) {
          FewerRebuilds(n.work.fuzz, r.work.fuzz);
        }
      }
      RunOn(env, n)
  }

  lemma PassOnceProgresses(env: Env, r: Run)
    requires !Over(r.work, r.verdict)
    ensures var n := PassOnce(env, r).work;
      || |Rebuildable(n.fuzz)| < |Rebuildable(r.work.fuzz)|
      || (|Rebuildable(n.fuzz)| == |Rebuildable(r.work.fuzz)| && |n.queue| - n.idx < |r.work.queue| - r.work.idx)
  {
    OnlyRebuildsChangeQueue(env, r.work, r.verdict);
    var n := PassOnce(env, r);
    if Rebuildable(n.work.fuzz) < Rebuildable(r.work.fuzz) {
      FewerRebuilds(n.work.fuzz, r.work.fuzz);
    }
  }

  /** Verification runs at the end when no case came after the plan. */
  function Finish(env: Env, v: Verdict): Verdict {
    if v.interruption.Running? && !v.verified then Verify(env, v) else v
  }

  /** The outcome cleanup is gated on: a passed report may hide a covered failure. */
  function Gating(v: Verdict): Outcome {
    if v.outcome.Passed? then v.raw else v.outcome
  }
}

/** The engine's run loop as it runs (engine/engine.go Run): a queue, an index, the fuzz cases' state
    and the verdict, all updated as it goes. Each pass does what PassOnce says, so a run is RunOn. */
module RunLoop {
  import opened FuzzState
  import opened RunSpec
  import opened FuzzRunState

  /** What a run becomes when a pass takes act. */
  function Took(env: Env, r: Run, act: Action): Run
    requires r.work.idx < |r.work.queue|
  {
    var s := r.work.queue[r.work.idx];
    Run(WorkAfter(env, r.work, act), VerdictAfter(env, r.verdict, s, act), EffectsAfter(r.effects, r.work.fuzz, s, act))
  }

  class Engine {
    const env: Env
    const fuzz: FuzzRun
    var queue: seq<Step>
    var idx: nat
    var failedSetup: set<string>
    var copiesSkipped: int
    var verdict: Verdict
    var outputs: map<string, map<string, string>>
    var cleanup: seq<string>
    var results: seq<Report>

    ghost function Effects(): Effects
      reads this
    {
      RunSpec.Effects(outputs, cleanup, results)
    }

    ghost function State(): Run
      reads this, fuzz
    {
      Run(Work(queue, idx, fuzz.View(), failedSetup, copiesSkipped), verdict, Effects())
    }

    constructor (e: Env, l: Layout, steps: seq<Step>)
      ensures env == e && fresh(fuzz)
      ensures State() == Run(Work(steps, 0, Fuzz(l, map[], map[], {}, map[]), {}, 0),
                             Verdict(Passed, Passed, false, NotEnded, false, Running), RunSpec.Effects(map[], [], []))
    {
      env, queue, idx, failedSetup, copiesSkipped := e, steps, 0, {}, 0;
      verdict := Verdict(Passed, Passed, false, NotEnded, false, Running);
      outputs, cleanup, results := map[], [], [];
      fuzz := new FuzzRun(l);
    }

    // ---------- What a step leaves ----------

    method AddResult(r: Report)
      modifies this`results
      ensures Effects() == Reporting(old(Effects()), r)
    {
      results := results + [r];
    }

    method StoreAndPush(s: Step, o: Outputs)
      modifies this`outputs, this`cleanup
      ensures outputs == if o.Outputs? then old(outputs)[s.id := o.values] else old(outputs)
      ensures cleanup == if s.cleansUp then old(cleanup) + [s.id] else old(cleanup)
    {
      if o.Outputs? {
        outputs := outputs[s.id := o.values];
      }
      if s.cleansUp {
        cleanup := cleanup + [s.id];
      }
    }

    /** A step got through: its target's cases may be sent, and the plan may stop here. */
    method GotThrough(s: Step)
      modifies fuzz, this`verdict
      ensures fuzz.View() == AfterTargetPassed(old(fuzz.View()), s.id)
      ensures verdict == if env.stopAfter != ""
        && s.id == env.stopAfter then old(verdict).(end := Checkpoint) else old(verdict)
    {
      fuzz.TargetGotThrough(s.id);
      if env.stopAfter != "" && s.id == env.stopAfter {
        verdict := verdict.(end := Checkpoint);
      }
    }

    /** The step's own assertions, then whatever it got through to. */
    method CheckAssertions(s: Step, a: Answer, suppressed: bool)
      modifies fuzz, this`verdict
      ensures verdict == AssertedVerdict(env, old(verdict), s, a, suppressed)
      ensures fuzz.View() == if !a.validationFailed || suppressed
        || env.continueOnAssertionFailure then AfterTargetPassed(old(fuzz.View()), s.id)
                             else old(fuzz.View())
    {
      if a.validationFailed && !suppressed {
        verdict := verdict.(outcome := Failed);
        if !env.continueOnAssertionFailure {
          verdict := verdict.(end := EndedAt(true));
          return;
        }
      }
      GotThrough(s);
    }

    /** A failed step ends the plan; a covered failure only keeps out of the outcome. */
    method EndOn(suppressed: bool)
      modifies this`verdict
      ensures verdict == if suppressed then old(verdict).(early := true, end := EndedAt(false))
        else old(verdict).(outcome := Failed, end := EndedAt(true))
    {
      if suppressed {
        verdict := verdict.(early := true, end := EndedAt(false));
      } else {
        verdict := verdict.(outcome := Failed, end := EndedAt(true));
      }
    }

    /** A step of the plan, or a setup copy that passed, is done: it ends the plan or lets it go on. */
    method Conclude(s: Step, a: Answer, suppressed: bool)
      modifies fuzz, this`verdict, this`outputs, this`cleanup, this`results
      ensures verdict == StepVerdict(env, old(verdict), s, a, suppressed)
      ensures Effects() == StepEffects(old(Effects()), s, a, suppressed)
      ensures fuzz.View() == Passing(env, old(fuzz.View()), s, a, suppressed)
    {
      AddResult(StepReport(s, a, suppressed));
      if a.error {
        verdict := verdict.(outcome := Errored, end := EndedAt(true));
        return;
      }
      if s.expectsFailure {
        if a.expectedFailure {
          CheckAssertions(s, a, suppressed);
        } else {
          EndOn(suppressed);
        }
        return;
      }
      if a.statusCode >= 400 || a.bodyError.BodyError? {
        EndOn(suppressed);
        return;
      }
      StoreAndPush(s, a.outputs);
      if a.strictViolation && !suppressed {
        verdict := verdict.(outcome := Failed, end := EndedAt(true));
        return;
      }
      CheckAssertions(s, a, suppressed);
    }

    // ---------- A pass over a setup copy ----------

    method PassCopy(s: Step, c: string, o: string)
      requires idx < |queue| && queue[idx] == s && s.kind == CopyOf(c, o)
      modifies this, fuzz
      ensures State() == Took(env, old(State()), CopyAction(env, old(State().work), s, c, o))
    {
      if c in failedSetup {
        SkipCopy(State(), HoldCopy);
        return;
      }
      ghost var r := State();
      var d := fuzz.BeforeSetupCopy(c, s.id, o);
      match d {
        case DoNotSend =>
          failedSetup := failedSetup + {c};
          SkipCopy(r, RefuseCopy(c));
        case StandIn(live) =>
          if live in outputs {
            outputs := outputs[s.id := outputs[live]];
          }
          SkipCopy(r, StandInCopy(c, o, live));
        case Send =>
          SendCopy(r, s, c, o);
      }
    }

    /** A copy that is not sent, whatever the reason, is counted. */
    method SkipCopy(ghost r: Run, ghost act: Action)
      requires idx < |queue| && r.work.idx < |r.work.queue|
      requires act == HoldCopy || act.RefuseCopy? || act.StandInCopy?
      requires State() == SkippedFrom(env, r, act)
      modifies this`idx, this`copiesSkipped
      ensures State() == Took(env, r, act)
    {
      copiesSkipped := copiesSkipped + 1;
      idx := idx + 1;
    }

    /** What a pass that skips a copy has done before it counts it. */
    static ghost function SkippedFrom(env: Env, r: Run, act: Action): Run
      requires r.work.idx < |r.work.queue|
    {
      var t := Took(env, r, act);
      t.(work := t.work.(idx := r.work.idx, copiesSkipped := r.work.copiesSkipped))
    }

    /** r with the fuzz state prepared for a copy of c's setup. */
    static ghost function Prepared(r: Run, c: string): Run {
      r.(work := r.work.(fuzz := Preparing(r.work.fuzz, c)))
    }

    static function SentAction(s: Step, c: string, o: string, a: Answer): Action {
      if !CopyFails(s, a) then Action.SendCopy(c, o, a)
      else if a.error && a.interrupted then AbortAt(a)
      else Action.FailCopy(c, o, a)
    }

    method SendCopy(ghost r: Run, s: Step, c: string, o: string)
      requires idx < |queue| && queue[idx] == s && s.kind == CopyOf(c, o) && State() == Prepared(r, c)
      modifies this, fuzz
      ensures State() == Took(env, r, SentAction(s, c, o, env.answer(old(idx))))
    {
      var a := env.answer(idx);
      if CopyFails(s, a) {
        if a.error && a.interrupted {
          AbortCopy(r, s, c, o, a);
        } else {
          FailCopy(r, s, c, o, a);
        }
      } else {
        fuzz.SetupCopySent(c, s.id, o, a);
        Conclude(s, a, StepFailed(s, a));
        idx := idx + 1;
      }
    }

    method AbortCopy(ghost r: Run, s: Step, c: string, o: string, a: Answer)
      requires idx < |queue| && queue[idx] == s && s.kind == CopyOf(c, o) && State() == Prepared(r, c)
      modifies this
      ensures State() == Took(env, r, AbortAt(a))
    {
      AddResult(CopyFailure(s, a));
      verdict := verdict.(interruption := Aborted);
      idx := idx + 1;
    }

    /** The copy's failure ends its case, not the run; what it may have created is still cleaned up. */
    method FailCopy(ghost r: Run, s: Step, c: string, o: string, a: Answer)
      requires idx < |queue| && queue[idx] == s && s.kind == CopyOf(c, o) && State() == Prepared(r, c)
      modifies this, fuzz
      ensures State() == Took(env, r, Action.FailCopy(c, o, a))
    {
      failedSetup := failedSetup + {c};
      fuzz.SetupCopyFailed(c, s.id);
      FailedCopyLeaves(s, a);
      idx := idx + 1;
    }

    method FailedCopyLeaves(s: Step, a: Answer)
      modifies this`outputs, this`cleanup, this`results
      ensures Effects() == if !a.error && Usable(a)
        && s.cleansUp then Leaving(old(Effects()), s, a.outputs, CopyFailure(s, a))
                           else Reporting(old(Effects()), CopyFailure(s, a))
    {
      if !a.error && a.statusCode < 400 && a.bodyError.NoBodyError? && s.cleansUp {
        StoreAndPush(s, a.outputs);
      }
      AddResult(CopyFailure(s, a));
    }

    // ---------- A pass over a case ----------

    method PassCase(s: Step)
      requires idx < |queue| && queue[idx] == s && s.kind.CaseOf?
      modifies this, fuzz
      ensures State() == Took(env, old(State()), CaseAction(env, old(State().work), s))
    {
      if s.id in failedSetup {
        AddResult(CaseNotSent(s, s.id in fuzz.stale));
        idx := idx + 1;
        return;
      }
      var a := env.answer(idx);
      if a.error && a.interrupted {
        AddResult(CaseReport(s, a, NoSetup, false));
        verdict := verdict.(interruption := Aborted);
        idx := idx + 1;
        return;
      }
      AnswerCase(s, a);
    }

    method AnswerCase(s: Step, a: Answer)
      requires idx < |queue| && queue[idx] == s && s.kind.CaseOf?
      modifies this, fuzz
      ensures State() == Took(env, old(State()),
        if NeedsRebuild(old(fuzz.View()), s.id, a) then RebuildCase(a) else Action.JudgeCase(a))
    {
      ghost var r := State();
      fuzz.Asked(s.id, a);
      var again := fuzz.Rebuild(s.id, a);
      if again {
        SendAgain(r, s, a);
      } else {
        JudgeCase(r, s, a);
      }
    }

    /** Puts the case and its copies next in the queue, and takes those copies out of the count of the skipped. */
    method SendAgain(ghost r: Run, s: Step, a: Answer)
      requires idx < |queue| && queue[idx] == s && s.kind.CaseOf?
      requires State() == r.(work := r.work.(fuzz := AfterRebuild(AfterAsking(r.work.fuzz, s.id, a), s.id)))
      modifies this
      ensures State() == Took(env, r, RebuildCase(a))
    {
      var copies := CopiesOf(fuzz.layout, s.id);
      queue := queue[..idx + 1] + copies + [s] + queue[idx + 1..];
      copiesSkipped := copiesSkipped - |copies|;
      idx := idx + 1;
    }

    /** The finding is recorded, and fails a run that still passes when the configuration says so. */
    method JudgeCase(ghost r: Run, s: Step, a: Answer)
      requires idx < |queue| && queue[idx] == s && s.kind.CaseOf?
      requires State() == r.(work := r.work.(fuzz := AfterAsking(r.work.fuzz, s.id, a)))
      modifies this, fuzz
      ensures State() == Took(env, r, Action.JudgeCase(a))
    {
      var report := CaseReport(s, a, SetupOfCase(s.id), s.id in fuzz.stale);
      fuzz.CaseJudged(s.id, a);
      if a.fails && verdict.outcome.Passed? {
        verdict := verdict.(outcome := Failed);
      }
      if a.hasResponse && a.statusCode < 400 && a.bodyError.NoBodyError? && !a.outputsError {
        StoreAndPush(s, a.outputs);
      }
      AddResult(report);
      idx := idx + 1;
    }

    function SetupOfCase(c: string): (r: Setup)
      reads fuzz
      ensures r == SetupOf(fuzz.View(), c)
    {
      if c in fuzz.caseSetup then fuzz.caseSetup[c] else NoSetup
    }

    // ---------- A pass over a step of the plan ----------

    method PassOwn(s: Step)
      requires idx < |queue| && queue[idx] == s && s.kind.Own?
      modifies this, fuzz
      ensures State() == Took(env, old(State()),
        var a := env.answer(old(idx)); if a.error && a.interrupted then AbortAt(a) else RunStep(a))
    {
      var a := env.answer(idx);
      if a.error && a.interrupted {
        AddResult(StepReport(s, a, false));
        verdict := verdict.(interruption := Aborted);
        idx := idx + 1;
        return;
      }
      var suppressed := Suppressed(s, a);
      if suppressed {
        verdict := verdict.(raw := Failed);
      }
      Conclude(s, a, suppressed);
      idx := idx + 1;
    }

    // ---------- A pass, and the run ----------

    /** Verifies the plan if it came to its end; false when that was interrupted. */
    method VerifyPlan() returns (goesOn: bool)
      modifies this`verdict
      requires verdict.interruption.Running?
      ensures verdict == Verify(env, old(verdict)) && goesOn == verdict.interruption.Running?
    {
      verdict := verdict.(verified := true);
      if !verdict.end.NotEnded? {
        return true;
      }
      if env.verification.outcome.Errored? && env.verification.interrupted {
        verdict := verdict.(interruption := Aborted);
        return false;
      }
      if !env.verification.outcome.Passed? {
        verdict := verdict.(outcome := env.verification.outcome);
      }
      goesOn := true;
    }

    method PassOn(why: Action)
      requires idx < |queue| && (why == Ignore || why.Interrupt?)
      modifies this
      ensures State() == Took(env, old(State()), why)
    {
      if why.Interrupt? {
        verdict := verdict.(interruption := why.why);
      }
      idx := idx + 1;
    }

    method Pass()
      requires !Over(State().work, verdict)
      modifies this, fuzz
      ensures State() == PassOnce(env, old(State()))
    {
      var s := queue[idx];
      var after := RunsAfterPlan(fuzz.layout, s);
      if after {
        var passed := fuzz.TargetHasPassed(s);
        if !passed {
          PassOn(Ignore);
          return;
        }
      } else if !verdict.end.NotEnded? {
        PassOn(Ignore);
        return;
      }
      if env.cancelled(idx) {
        PassOn(Interrupt(Aborted));
        return;
      }
      if after && !verdict.verified {
        var goesOn := VerifyPlan();
        if !goesOn {
          PassOn(Interrupt(Aborted));
          return;
        }
      }
      PassEntry(s);
    }

    /** What is done with an entry that is neither left out nor cut off. */
    static function EntryAction(env: Env, w: Work, s: Step): Action {
      if !s.inGraph then Interrupt(NodeMissing)
      else
        match s.kind
        case CopyOf(c, o) => CopyAction(env, w, s, c, o)
        case CaseOf(_) => CaseAction(env, w, s)
        case Own =>
          var a := env.answer(w.idx);
          if a.error && a.interrupted then AbortAt(a) else RunStep(a)
    }

    method PassEntry(s: Step)
      requires idx < |queue| && queue[idx] == s
      modifies this, fuzz
      ensures State() == Took(env, old(State()), EntryAction(env, old(State().work), s))
    {
      if !s.inGraph {
        PassOn(Interrupt(NodeMissing));
        return;
      }
      match s.kind {
        case CopyOf(c, o) => PassCopy(s, c, o);
        case CaseOf(_) => PassCase(s);
        case Own => PassOwn(s);
      }
    }

    /** The whole run: it ends, and leaves what RunOn says. */
    method RunAll()
      requires verdict.interruption.Running?
      modifies this, fuzz
      ensures State() == RunOn(env, old(State()))
    {
      while idx < |queue| && verdict.interruption.Running?
        invariant RunOn(env, State()) == RunOn(env, old(State()))
        decreases |Rebuildable(fuzz.View())|, |queue| - idx
      {
        ghost var r := State();
        Pass();
        PassOnceProgresses(env, r);
      }
    }
  }
}

/** What a run leaves besides its outcome (engine/engine.go): a line for every request it sends, and from those
    lines what is to be cleaned up and what outputs its steps have; and how each case says its setup came about. */
module RunEffects {
  import opened FuzzState
  import opened FuzzReuse
  import opened RunSpec
  import opened FuzzPlaces
  import opened FuzzRuns
  import opened FuzzTheorems
  import opened FuzzAccounts
  import opened FuzzReports
  import opened FuzzOutputs
  import opened RunFromStart
  import opened RunVerdict

  // ---------- A line for every request ----------

  /** r is the line of a request sent for s, answered a. */
  predicate Tells(r: Report, s: Step, a: Answer) {
    r.step == s && !r.CaseNotSent? && r.answer == a
  }

  /** The pass to come sends the request of its entry. */
  predicate Requests(env: Env, r: Run)
    requires !Over(r.work, r.verdict)
  {
    var act := Act(env, r.work, r.verdict);
    act.RunStep? || act.SendCopy? || act.FailCopy? || act.JudgeCase? || act.RebuildCase? || act.AbortAt?
  }

  /** The line a pass adds, if any. */
  function LineOf(f: Fuzz, s: Step, act: Action): seq<Report> {
    match act
    case FailCopy(_, _, a) => [CopyFailure(s, a)]
    case SendCopy(_, _, a) => [StepReport(s, a, StepFailed(s, a))]
    case RunStep(a) => [StepReport(s, a, Suppressed(s, a))]
    case AbortAt(a) => [AbortReport(s, a)]
    case HoldCase => [CaseNotSent(s, s.id in f.stale)]
    case JudgeCase(a) => [CaseReport(s, a, SetupOf(f, s.id), s.id in f.stale)]
    case _ => []
  }

  lemma AddsLine(e: Effects, f: Fuzz, s: Step, act: Action)
    ensures EffectsAfter(e, f, s, act).results == e.results + LineOf(f, s, act)
  {
    hide StepFailed, Suppressed, Usable;
    match act {
      case SendCopy(_, _, a) =>
      case RunStep(a) =>
      case JudgeCase(a) =>
      case _ =>
    }
  }

  lemma ActAnswers(env: Env, w: Work, v: Verdict)
    requires w.idx < |w.queue|
    ensures var s, act := w.queue[w.idx], Act(env, w, v);
      && (act.HoldCase? ==> s.id in w.failedSetup)
      && (act.RunStep? || act.SendCopy? || act.FailCopy? || act.JudgeCase? || act.AbortAt? ==>
            act.answer == env.answer(w.idx))
  {
    hide CopyFails, Decide, NeedsRebuild, BeforeActing, LeavesOut;
  }

  /** Each request sent has its own line, but for one whose case is sent again; a case that is not sent has one
      too; and there are no others. */
  lemma EveryRequestIsTold(env: Env, r: Run)
    requires !Over(r.work, r.verdict)
    ensures var was, now, s := r.effects.results, PassOnce(env, r).effects.results, r.work.queue[r.work.idx];
      var act := Act(env, r.work, r.verdict);
      if Requests(env, r) && !act.RebuildCase?
      then |now| == |was| + 1 && now[..|was|] == was && Tells(now[|was|], s, env.answer(r.work.idx))
      else if act.HoldCase? then now == was + [CaseNotSent(s, s.id in r.work.fuzz.stale)] && s.id in r.work.failedSetup
      else now == was
  {
    hide Act, EffectsAfter, WorkAfter, VerdictAfter;
    AddsLine(r.effects, r.work.fuzz, r.work.queue[r.work.idx], Act(env, r.work, r.verdict));
    ActAnswers(env, r.work, r.verdict);
  }

  // ---------- What is to be cleaned up, and what can be read ----------

  /** The response this line speaks of left something: it came, and neither its status nor its body says it
      failed. A step that is to fail leaves nothing; a case must also have its outputs. */
  predicate LeftSomething(r: Report) {
    match r
    case StepReport(s, a, _) => !a.error && !s.expectsFailure && a.statusCode < 400 && a.bodyError.NoBodyError?
    case CopyFailure(s, a) => !a.error && a.statusCode < 400 && a.bodyError.NoBodyError? && s.cleansUp
    case CaseReport(_, a, _, _) => a.hasResponse && a.statusCode < 400 && a.bodyError.NoBodyError? && !a.outputsError
    case CaseNotSent(_, _) => false
  }

  /** The steps with a cleanup that left something, as often and in the order they did. */
  function Owed(results: seq<Report>): seq<string> {
    if results == [] then []
    else
      var last := results[|results| - 1];
      Owed(results[..|results| - 1]) + if LeftSomething(last) && last.step.cleansUp then [last.step.id] else []
  }

  /** The outputs of the last line of each step that left some. */
  function LastLeft(results: seq<Report>): Store {
    if results == [] then map[]
    else
      var last, before := results[|results| - 1], LastLeft(results[..|results| - 1]);
      if LeftSomething(last) && last.answer.outputs.Outputs? then before[last.step.id := last.answer.outputs.values]
      else before
  }

  lemma OwedMore(results: seq<Report>, r: Report)
    ensures Owed(results + [r]) == Owed(results) + if LeftSomething(r) && r.step.cleansUp then [r.step.id] else []
    ensures LastLeft(results + [r]) ==
            if LeftSomething(r) && r.answer.outputs.Outputs?
            then LastLeft(results)[r.step.id := r.answer.outputs.values] else LastLeft(results)
  {
    assert (results + [r])[..|results|] == results;
  }

  lemma PassCleans(e: Effects, f: Fuzz, s: Step, act: Action)
    requires !Ends(act)
    ensures var line := LineOf(f, s, act);
      EffectsAfter(e, f, s, act).cleanup
        == e.cleanup + if line != [] && LeftSomething(line[0]) && s.cleansUp then [s.id] else []
  {
    assert e.cleanup + [] == e.cleanup;
    match act {
      case SendCopy(_, _, a) => StepCleans(e, s, a, StepFailed(s, a));
      case RunStep(a) => StepCleans(e, s, a, Suppressed(s, a));
      case _ =>
    }
  }

  lemma StepCleans(e: Effects, s: Step, a: Answer, suppressed: bool)
    ensures StepEffects(e, s, a, suppressed).cleanup
      == e.cleanup + if LeftSomething(StepReport(s, a, suppressed)) && s.cleansUp then [s.id] else []
  {
    assert e.cleanup + [] == e.cleanup;
  }

  lemma PassWrites(e: Effects, f: Fuzz, s: Step, act: Action)
    requires !Ends(act) && !act.StandInCopy?
    ensures var line := LineOf(f, s, act);
      EffectsAfter(e, f, s, act).outputs ==
      if line != [] && LeftSomething(line[0]) && line[0].answer.outputs.Outputs?
      then e.outputs[s.id := line[0].answer.outputs.values] else e.outputs
  {
    hide StepFailed, Suppressed;
    match act {
      case SendCopy(_, _, a) =>
      case RunStep(a) =>
      case FailCopy(_, _, a) =>
      case JudgeCase(a) =>
      case _ =>
    }
  }

  lemma LineIsOf(f: Fuzz, s: Step, act: Action)
    ensures LineOf(f, s, act) != [] ==> |LineOf(f, s, act)| == 1 && LineOf(f, s, act)[0].step == s
  {
  }

  /** A pass that does not end the run registers a cleanup exactly for what its line says was left. */
  lemma PassOwes(e: Effects, f: Fuzz, s: Step, act: Action)
    requires !Ends(act) && e.cleanup == Owed(e.results)
    ensures var n := EffectsAfter(e, f, s, act); n.cleanup == Owed(n.results)
  {
    hide EffectsAfter, LineOf, LeftSomething, Owed, LastLeft;
    var line := LineOf(f, s, act);
    AddsLine(e, f, s, act);
    PassCleans(e, f, s, act);
    LineIsOf(f, s, act);
    if line == [] {
      assert e.results + line == e.results && e.cleanup + [] == e.cleanup;
    } else {
      assert line == [line[0]];
      OwedMore(e.results, line[0]);
    }
  }

  /** It stores the outputs its line says were left, and no others but those a stood-in copy takes over. */
  lemma PassLeaves(e: Effects, f: Fuzz, s: Step, act: Action, id: string)
    requires !Ends(act) && SameAt(id, LastLeft(e.results), e.outputs) && (act.StandInCopy? ==> id != s.id)
    ensures var n := EffectsAfter(e, f, s, act); SameAt(id, LastLeft(n.results), n.outputs)
  {
    hide EffectsAfter, LineOf, LeftSomething, Owed, LastLeft;
    var line := LineOf(f, s, act);
    AddsLine(e, f, s, act);
    if act.StandInCopy? {
      StandInWrites(e, f, s, act, id);
    } else {
      PassWrites(e, f, s, act);
      LineIsOf(f, s, act);
      if line == [] {
        assert e.results + line == e.results;
      } else {
        assert line == [line[0]];
        OwedMore(e.results, line[0]);
      }
    }
  }

  lemma StandInWrites(e: Effects, f: Fuzz, s: Step, act: Action, id: string)
    requires act.StandInCopy? && id != s.id
    ensures var n := EffectsAfter(e, f, s, act); n.results == e.results && SameAt(id, e.outputs, n.outputs)
  {
  }

  /** The line of the request an interruption cut off owes nothing. */
  ghost predicate OwesRightly(r: Run) {
    var results := r.effects.results;
    || r.effects.cleanup == Owed(results)
    || (!r.verdict.interruption.Running? && results != [] && r.effects.cleanup == Owed(results[..|results| - 1]))
  }

  lemma EndOwes(env: Env, r: Run)
    requires !Over(r.work, r.verdict) && r.effects.cleanup == Owed(r.effects.results)
    requires Ends(Act(env, r.work, r.verdict))
    ensures OwesRightly(PassOnce(env, r))
  {
    EndsTheRun(env, r);
    var was, now := r.effects.results, PassOnce(env, r).effects.results;
    EveryRequestIsTold(env, r);
    if |now| > |was| {
      assert now[..|now| - 1] == was;
    } else {
      assert now == was;
    }
  }

  /** Over every run, whatever is answered: what is to be cleaned up is exactly what its lines say was left, in
      the order it was. */
  lemma {:induction false} CleanupIsOwed(env: Env, r: Run)
    requires r.effects.cleanup == Owed(r.effects.results) && r.verdict.interruption.Running?
    ensures OwesRightly(RunOn(env, r))
    decreases |Rebuildable(r.work.fuzz)|, |r.work.queue| - r.work.idx
  {
    hide Owed, Act, EffectsAfter, WorkAfter, VerdictAfter;
    if !Over(r.work, r.verdict) {
      PassOnceProgresses(env, r);
      var n, s, act := PassOnce(env, r), r.work.queue[r.work.idx], Act(env, r.work, r.verdict);
      if Ends(act) {
        EndOwes(env, r);
        EndsTheRun(env, r);
        assert RunOn(env, n) == n;
      } else {
        PassOwes(r.effects, r.work.fuzz, s, act);
        if n.verdict.interruption.Running? {
          CleanupIsOwed(env, n);
        } else {
          assert RunOn(env, n) == n;
        }
      }
    }
  }

  /** Only a copy of a setup step is stood in for. */
  lemma StoodInIsCopy(env: Env, r: Run, p: Place, ts: Targets)
    requires Inv(r.work, p, ts) && !Over(r.work, r.verdict) && Act(env, r.work, r.verdict).StandInCopy?
    ensures exists c :: r.work.queue[r.work.idx].id in CopyIds(r.work.fuzz.layout, c)
  {
    var l, o, s := r.work.fuzz.layout, Opened(p), r.work.queue[r.work.idx];
    OpeningKeeps(r.work, p, ts);
    EntryIsNext(r.work, o);
    if o.own != [] {
      OwnIsOwn(r.work, o, ts);
    } else {
      PlaceFits(r.work, o, ts);
      if o.block.j < |CopiesOf(l, o.block.case_.id)| {
        assert CopyIds(l, o.block.case_.id)[o.block.j] == s.id;
        assert s.id in CopyIds(l, o.block.case_.id);
      } else {
        CaseEntry(env, r, o, ts);
      }
    }
  }

  /** Over every run that is not interrupted: a step that is no copy has the outputs of its last line that left
      some, and none if no line did. */
  lemma {:induction false} OutputsAreLastLeft(env: Env, r: Run, p: Place, ts: Targets, id: string)
    requires Inv(r.work, p, ts) && r.verdict.interruption.Running?
    requires forall c :: id !in CopyIds(r.work.fuzz.layout, c)
    requires SameAt(id, LastLeft(r.effects.results), r.effects.outputs)
    ensures var n := RunOn(env, r);
      n.verdict.interruption.Running? ==> SameAt(id, LastLeft(n.effects.results), n.effects.outputs)
    decreases |Rebuildable(r.work.fuzz)|, |r.work.queue| - r.work.idx
  {
    hide Inv, LastLeft, Act, EffectsAfter, WorkAfter, VerdictAfter, CopyIds;
    if !Over(r.work, r.verdict) {
      PassOnceProgresses(env, r);
      var n, s, act := PassOnce(env, r), r.work.queue[r.work.idx], Act(env, r.work, r.verdict);
      if n.verdict.interruption.Running? {
        var q := PassOnceKeeps(env, r, p, ts);
        if Ends(act) {
          EndsTheRun(env, r);
        }
        if act.StandInCopy? {
          StoodInIsCopy(env, r, p, ts);
        }
        PassLeaves(r.effects, r.work.fuzz, s, act, id);
        SameLayout(env, r);
        OutputsAreLastLeft(env, n, q, ts, id);
      } else {
        assert RunOn(env, n) == n;
      }
    }
  }

  // ---------- How a case says its setup came about ----------

  /** A case counts as rebuilt exactly when it is sent again. */
  ghost predicate SetupsNamed(f: Fuzz) {
    forall c :: (SetupOf(f, c).Fresh? ==> c !in f.stale) && (SetupOf(f, c).Rebuilt? ==> c in f.stale)
  }

  lemma NamesKept(env: Env, f: Fuzz, s: Step, act: Action)
    requires SetupsNamed(f) && (act.RebuildCase? ==> NeedsRebuild(f, s.id, act.answer))
    ensures SetupsNamed(FuzzAfter(env, f, s, act))
  {
    var n := FuzzAfter(env, f, s, act);
    forall c ensures (SetupOf(n, c).Fresh? ==> c !in n.stale) && (SetupOf(n, c).Rebuilt? ==> c in n.stale) {
      NameKept(env, f, s, act, c);
    }
  }

  lemma NameKept(env: Env, f: Fuzz, s: Step, act: Action, c: string)
    requires SetupsNamed(f) && (act.RebuildCase? ==> NeedsRebuild(f, s.id, act.answer))
    ensures var n := FuzzAfter(env, f, s, act);
      (SetupOf(n, c).Fresh? ==> c !in n.stale) && (SetupOf(n, c).Rebuilt? ==> c in n.stale)
  {
    match act {
      case SendCopy(d, _, _) => PreparedNamed(f, d);
      case FailCopy(d, _, _) => PreparedNamed(f, d);
      case AbortAt(_) => PreparedNamed(f, if s.kind.CopyOf? then s.kind.forCase else "");
      case RebuildCase(a) =>
      case _ =>
    }
  }

  lemma PreparedNamed(f: Fuzz, d: string)
    requires SetupsNamed(f)
    ensures SetupsNamed(Preparing(f, d))
  {
  }

  /** The line of case c, about to be judged, as its target's history has it: its copies were stood in for, or
      sent for it, and it was sent before or not. */
  ghost predicate SaysTrulyOf(t: Target, h: seq<Event>, c: string, setup: Setup, stale: bool) {
    && (stale <==> Asks(h, c) > 0)
    && (Size(t) > 0 ==>
          && |h| >= Size(t) && (setup.Reused? || setup.Fresh? || setup.Rebuilt?)
          && (setup.Reused? ==> forall i :: |h| - Size(t) <= i < |h| ==> h[i].CopyStood? && h[i].forCase == c)
          && (setup.Fresh? || setup.Rebuilt? ==>
                forall i :: |h| - Size(t) <= i < |h| ==> h[i].CopySent? && h[i].forCase == c)
          && (setup.Fresh? ==> !stale) && (setup.Rebuilt? ==> stale))
  }

  lemma CaseIsNamed(t: Target, f: Fuzz, failed: set<string>, c: string)
    requires IsCaseOfTarget(f.layout, c) && Mid(t, f, failed, c, Size(t)) && c !in failed && SetupsNamed(f)
    requires AsksOf(f, c) == Rebuilds(f, c)
    ensures SaysTrulyOf(t, History(f, TargetOf(f.layout, c)), c, SetupOf(f, c), c in f.stale)
  {
    hide AtRest, Tracked, IsBuilding, HasStanding;
    var g, h := GroupOf(f, c), History(f, TargetOf(f.layout, c));
    if Size(t) > 0 {
      if IsBuilding(t, f, c, Size(t)) {
        BuildingSent(t, f, c);
      } else {
        StandingStood(t, f, c);
      }
    }
  }

  lemma BuildingSent(t: Target, f: Fuzz, c: string)
    requires IsCaseOfTarget(f.layout, c) && IsBuilding(t, f, c, Size(t))
    ensures var h := History(f, TargetOf(f.layout, c));
      && |h| >= Size(t) && (SetupOf(f, c).Fresh? || SetupOf(f, c).Rebuilt?)
      && forall i :: |h| - Size(t) <= i < |h| ==> h[i].CopySent? && h[i].forCase == c
  {
    hide Tracked;
    var h := History(f, TargetOf(f.layout, c));
    forall i | |h| - Size(t) <= i < |h| ensures h[i].CopySent? && h[i].forCase == c {
      var k := i - (|h| - Size(t));
      assert IsSent(h[|h| - Size(t) + k], t.ids[c][k], t.originals[k], c);
    }
  }

  lemma StandingStood(t: Target, f: Fuzz, c: string)
    requires IsCaseOfTarget(f.layout, c) && HasStanding(t, f, c, Size(t))
    ensures var h := History(f, TargetOf(f.layout, c));
      && |h| >= Size(t) && SetupOf(f, c).Reused?
      && forall i :: |h| - Size(t) <= i < |h| ==> h[i].CopyStood? && h[i].forCase == c
  {
    hide AtRest, Built;
    var g, h := GroupOf(f, c), History(f, TargetOf(f.layout, c));
    var q: nat, b :| Standing(t, g, h, c, Size(t), q, b);
    forall i | |h| - Size(t) <= i < |h| ensures h[i].CopyStood? && h[i].forCase == c {
      var k := i - (|h| - Size(t));
      assert h[|h| - Size(t) + k] == CopyStood(t.ids[c][k], t.ids[b][k], c);
    }
  }

  /** The line a judged case gets says truly how its setup came about. */
  ghost predicate NamesRightly(env: Env, r: Run, ts: Targets)
    requires !Over(r.work, r.verdict)
  {
    var l, s, f := r.work.fuzz.layout, r.work.queue[r.work.idx], r.work.fuzz;
    Act(env, r.work, r.verdict).JudgeCase? && RunsAfterPlan(l, s) ==>
      && IsCase(l, s) && s.kind.target in ts
      && exists setup, stale ::
        && PassOnce(env, r).effects.results
             == r.effects.results + [CaseReport(s, env.answer(r.work.idx), setup, stale)]
        && SaysTrulyOf(ts[s.kind.target], History(f, s.kind.target), s.id, setup, stale)
  }

  lemma JudgesRightly(env: Env, r: Run, p: Place, ts: Targets)
    requires Accounted(r, p, ts) && !Over(r.work, r.verdict) && SetupsNamed(r.work.fuzz)
    ensures NamesRightly(env, r, ts)
  {
    hide NamesRightly, Inv, SkipsOk, ReportsOk, PlaceOk, Mid, TargetOk, ValidTarget, Touches, FuzzAfter;
    var l, s, o := r.work.fuzz.layout, r.work.queue[r.work.idx], Opened(p);
    OpeningAccounts(r, p, ts);
    PlacedIn(r.work, o, ts);
    EntryIsNext(r.work, o);
    if o.own != [] {
      OwnIsOwn(r.work, o, ts);
      NotJudged(env, r, ts);
    } else {
      PlaceFits(r.work, o, ts);
      if o.block.j < |CopiesOf(l, o.block.case_.id)| {
        CopyEntry(env, r, o, ts);
        NotJudged(env, r, ts);
      } else {
        CaseEntry(env, r, o, ts);
        CaseJudged(env, r, o, ts);
      }
    }
  }

  lemma PlacedIn(w: Work, p: Place, ts: Targets)
    requires Inv(w, p, ts)
    ensures PlaceOk(w, p)
  {
  }

  lemma NotJudged(env: Env, r: Run, ts: Targets)
    requires !Over(r.work, r.verdict)
    requires r.work.queue[r.work.idx].kind.CopyOf? || !RunsAfterPlan(r.work.fuzz.layout, r.work.queue[r.work.idx])
    ensures NamesRightly(env, r, ts)
  {
  }

  lemma CaseJudged(env: Env, r: Run, p: Place, ts: Targets)
    requires !Over(r.work, r.verdict) && AtCase(env, r, p, ts) && r.work.queue[r.work.idx] == p.block.case_
    requires AsksOk(r.work.fuzz, p) && SetupsNamed(r.work.fuzz)
    requires var w, s, act := r.work, p.block.case_, Act(env, r.work, r.verdict);
      var t := ts[TargetOf(w.fuzz.layout, s.id)];
      && p.block.j == Size(t)
      && ((act == Ignore && !TargetPassed(w.fuzz, s)) || act.Interrupt?
          || (act == CaseAction(env, w, s) && TargetPassed(w.fuzz, s)))
      && (TargetPassed(w.fuzz, s) ==> Mid(t, w.fuzz, w.failedSetup, s.id, p.block.j))
    ensures NamesRightly(env, r, ts)
  {
    hide Mid, TargetOk, ValidTarget, Touches, FuzzAfter, SaysTrulyOf, CaseOfIt, SetupsNamed;
    var w, s, act := r.work, p.block.case_, Act(env, r.work, r.verdict);
    if act.JudgeCase? {
      var f := w.fuzz;
      CaseIsNamed(ts[TargetOf(f.layout, s.id)], f, w.failedSetup, s.id);
      assert PassOnce(env, r).effects.results
        == r.effects.results + [CaseReport(s, env.answer(w.idx), SetupOf(f, s.id), s.id in f.stale)];
    }
  }

  /** Over every run, whatever is answered: each case judged has a line that says truly how the setup it stood on
      came about, and whether it was sent again. */
  lemma CaseLinesAreTrue(env: Env, l: Layout, ts: Targets, own: seq<Step>, cases: seq<Step>, n: nat)
    requires Planned(l, ts, own, cases)
    ensures var r := AfterPasses(env, StartOf(l, own, cases), n);
      !Over(r.work, r.verdict) ==> NamesRightly(env, r, ts)
  {
    StartAccounted(l, ts, own, cases);
    RunNames(env, StartOf(l, own, cases), StartPlace(own, cases), ts, n);
  }

  lemma {:induction false} RunNames(env: Env, r: Run, p: Place, ts: Targets, n: nat)
    requires Accounted(r, p, ts) && SetupsNamed(r.work.fuzz) && r.verdict.interruption.Running?
    ensures var m := AfterPasses(env, r, n); !Over(m.work, m.verdict) ==> NamesRightly(env, m, ts)
    decreases n
  {
    hide Accounted, NamesRightly, SetupsNamed, Act, FuzzAfter, EffectsAfter, VerdictAfter;
    if Over(r.work, r.verdict) {
    } else if n == 0 {
      JudgesRightly(env, r, p, ts);
    } else {
      var m, act := PassOnce(env, r), Act(env, r.work, r.verdict);
      if m.verdict.interruption.Running? {
        var q := PassAccounts(env, r, p, ts);
        RebuildIsNeeded(env, r);
        NamesKept(env, r.work.fuzz, r.work.queue[r.work.idx], act);
        RunNames(env, m, q, ts, n - 1);
      } else {
        assert AfterPasses(env, m, n - 1) == m;
      }
    }
  }

  lemma RebuildIsNeeded(env: Env, r: Run)
    requires !Over(r.work, r.verdict)
    ensures var act := Act(env, r.work, r.verdict);
      act.RebuildCase? ==> NeedsRebuild(r.work.fuzz, r.work.queue[r.work.idx].id, act.answer)
  {
  }

  // ---------- What ends the plan ----------

  /** The plan goes on behind a step of its own exactly when its request came through, its status is the one
      expected, no known-issue-free strict violation or failed check stands against it (the run may be told to go
      on after a failed check), and it is not the step to stop after. */
  lemma GoesOnIff(env: Env, r: Run)
    requires !Over(r.work, r.verdict) && Act(env, r.work, r.verdict).RunStep? && r.verdict.end.NotEnded?
    requires r.work.queue[r.work.idx].kind.Own?
    ensures var s, a := r.work.queue[r.work.idx], env.answer(r.work.idx);
      var known := s.issue.Active? && !a.error;
      PassOnce(env, r).verdict.end.NotEnded? <==>
        && !a.error
        && (if s.expectsFailure then a.expectedFailure
            else a.statusCode < 400 && a.bodyError.NoBodyError? && (a.strictViolation ==> known))
        && (a.validationFailed ==> known || env.continueOnAssertionFailure)
        && (env.stopAfter == "" || s.id != env.stopAfter)
  {
  }

  /** It stops at its checkpoint exactly when that step is answered as it should be. */
  lemma CheckpointIff(env: Env, r: Run)
    requires !Over(r.work, r.verdict) && Act(env, r.work, r.verdict).RunStep? && r.verdict.end.NotEnded?
    requires r.work.queue[r.work.idx].kind.Own?
    ensures var s, a := r.work.queue[r.work.idx], env.answer(r.work.idx);
      PassOnce(env, r).verdict.end == Checkpoint <==>
        && env.stopAfter != "" && s.id == env.stopAfter
        && PassOnce(env.(stopAfter := ""), r).verdict.end.NotEnded?
  {
  }

  /** Once it has ended, none of its steps is sent. */
  lemma NothingAfterTheEnd(env: Env, r: Run)
    requires !Over(r.work, r.verdict) && !r.verdict.end.NotEnded?
    requires !RunsAfterPlan(r.work.fuzz.layout, r.work.queue[r.work.idx])
    ensures var n := PassOnce(env, r);
      n.effects == r.effects && n.verdict == r.verdict && n.work == r.work.(idx := r.work.idx + 1)
  {
    assert Act(env, r.work, r.verdict) == Ignore;
  }

  /** And how it would verify is not asked. */
  lemma NotVerifiedAfterTheEnd(env: Env, r: Run, verification: Verification)
    requires !Over(r.work, r.verdict) && !r.verdict.end.NotEnded?
    ensures PassOnce(env.(verification := verification), r).verdict == PassOnce(env, r).verdict
    ensures Finish(env.(verification := verification), r.verdict) == Finish(env, r.verdict)
  {
    hide CopyFails, Decide, NeedsRebuild, StepVerdict, StepFailed, Suppressed;
    var other := env.(verification := verification);
    assert BeforeActing(other, r.work, r.verdict) == BeforeActing(env, r.work, r.verdict);
    assert Act(other, r.work, r.verdict) == Act(env, r.work, r.verdict);
    SameSteps(env, other);
  }

  lemma SameSteps(env: Env, other: Env)
    requires other == env.(verification := other.verification)
    ensures forall v, s, a, suppressed ::
      StepVerdict(other, v, s, a, suppressed) == StepVerdict(env, v, s, a, suppressed)
  {
  }

  // ---------- What is to blame ----------

  /** The answer is what the plan says the step comes to. */
  predicate AsPlanned(s: Step, a: Answer) {
    && !a.error && !a.validationFailed
    && if s.expectsFailure then a.expectedFailure
       else a.statusCode < 400 && a.bodyError.NoBodyError? && !a.strictViolation
  }

  /** The line of a plan step is to blame exactly when it is not what was planned, and no active known issue covers
      it; none covers an error. */
  lemma BlamedIff(env: Env, r: Run)
    requires !Over(r.work, r.verdict) && Act(env, r.work, r.verdict).RunStep?
    requires r.work.queue[r.work.idx].kind.Own?
    ensures var s, a := r.work.queue[r.work.idx], env.answer(r.work.idx);
      var was, now := r.effects.results, PassOnce(env, r).effects.results;
      && |now| == |was| + 1 && now[..|was|] == was
      && (Blames(now[|was|]) <==> !AsPlanned(s, a) && (a.error || !s.issue.Active?))
      && (Covered(now[|was|]) <==> !AsPlanned(s, a) && !a.error && s.issue.Active?)
  {
  }
}

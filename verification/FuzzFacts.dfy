/** When a fuzz case stands on the setup of an earlier one, said of what was sent and answered alone (engine/fuzz.go
    beforeSetupCopy, setupCopyFailed, caseAnswered; engine/errors.go). */
module FuzzFacts {
  import opened FuzzAccounts
  import opened FuzzOutputs
  import opened FuzzPlaces
  import opened FuzzReuse
  import opened FuzzRuns
  import opened FuzzState
  import opened FuzzTheorems
  import RunEffects
  import opened RunFromStart
  import opened RunSpec

  // ---------- Answers ----------

  /** The status an error in the body was given counts before the response's own. */
  function StatusOf(a: Answer): nat {
    match a.bodyError
    case BodyError(status, _) => if status > 0 then status else a.statusCode
    case NoBodyError => a.statusCode
  }

  /** The answer says that what the setup made is no longer there. */
  predicate ShowsGone(a: Answer) {
    (a.bodyError.BodyError? && a.bodyError.stale) || (a.hasResponse && StatusOf(a) == 410)
  }

  /** The API turned the request down, or never saw it. */
  predicate TurnedAway(a: Answer) {
    if a.hasResponse then 400 <= StatusOf(a) < 500 || (a.bodyError.BodyError? && a.bodyError.status == 0)
    else !a.hasRequest || (a.error && a.notSentError)
  }

  /** The setup is as it was: it is still there, and the case only reads or was turned away. */
  predicate LeftAlone(readOnly: bool, a: Answer) {
    !ShowsGone(a) && (readOnly || TurnedAway(a))
  }

  lemma LeavesMeans(readOnly: bool, a: Answer)
    ensures LeavesSetup(readOnly, a) <==> LeftAlone(readOnly, a)
    ensures StaleAnswer(a) <==> ShowsGone(a)
  {
  }

  /** A setup step came through as it should; a known issue on it excuses what is only checked. */
  predicate CameThrough(s: Step, a: Answer) {
    && !a.error
    && if s.expectsFailure then a.expectedFailure && (!a.validationFailed || s.issue.Active?)
       else a.statusCode < 400 && a.bodyError.NoBodyError?
            && ((!a.strictViolation && !a.validationFailed) || s.issue.Active?)
  }

  lemma CopyFailsUnless(s: Step, a: Answer)
    ensures CopyFails(s, a) <==> !CameThrough(s, a)
  {
  }

  /** Every copy the history has as sent was sent for it, and came through with the answer noted. */
  lemma SentCameThrough(env: Env, r: Run, n: nat, id: string, i: nat) returns (m: nat, s: Step)
    requires History(r.work.fuzz, id) == []
    requires i < |History(AfterPasses(env, r, n).work.fuzz, id)|
    requires History(AfterPasses(env, r, n).work.fuzz, id)[i].CopySent?
    ensures var was, e := AfterPasses(env, r, m), History(AfterPasses(env, r, n).work.fuzz, id)[i];
      && m < n && was.work.idx < |was.work.queue| && s == was.work.queue[was.work.idx]
      && s.id == e.copy && s.kind == CopyOf(e.forCase, e.original)
      && e.answer == env.answer(was.work.idx) && CameThrough(s, e.answer)
  {
    hide PassOnce, Act, CameThrough, CopyFails;
    m := HistoryIsSent(env, r, n, id, i);
    var was := AfterPasses(env, r, m);
    s := was.work.queue[was.work.idx];
    CopyFailsUnless(s, env.answer(was.work.idx));
  }

  // ---------- Failures in a row ----------

  /** Three copies failed, and no case was sent since the first of them. */
  ghost predicate FailedThrice(h: seq<Event>) {
    exists i, j, k :: ThriceAt(h, i, j, k)
  }

  ghost predicate ThriceAt(h: seq<Event>, i: nat, j: nat, k: nat) {
    && i < j < k < |h| && h[i].CopyFailed? && h[j].CopyFailed? && h[k].CopyFailed?
    && forall m :: i < m < |h| ==> !h[m].CaseAsked?
  }

  /** A copy failed at m, and no case was sent since. */
  ghost predicate FailedLast(h: seq<Event>, m: nat) {
    m < |h| && h[m].CopyFailed? && forall i :: m < i < |h| ==> !h[i].CaseAsked?
  }

  lemma FailedLastNext(h: seq<Event>, e: Event, m: nat)
    ensures FailedLast(h + [e], m) <==> (m == |h| && e.CopyFailed?) || (FailedLast(h, m) && !e.CaseAsked?)
  {
    var n := h + [e];
    assert n[|h|] == e && forall i :: 0 <= i < |h| ==> n[i] == h[i];
  }

  /** The places of the failures a history ends in. */
  lemma {:induction false} TrailingAt(h: seq<Event>) returns (at: seq<nat>)
    ensures |at| == Trailing(h) && (forall a, b :: 0 <= a < b < |at| ==> at[a] < at[b])
    ensures forall m: nat :: m in at <==> FailedLast(h, m)
  {
    hide FailedLast;
    at := [];
    if h == [] {
      NoneFailedLast();
    } else {
      var n := |h| - 1;
      assert h[..n] + [h[n]] == h;
      var was := TrailingAt(h[..n]);
      at := if h[n].CopyFailed? then was + [n] else if h[n].CaseAsked? then [] else was;
      forall m: nat ensures m in at <==> FailedLast(h, m) {
        FailedLastNext(h[..n], h[n], m);
      }
      forall a, b | 0 <= a < b < |at| ensures at[a] < at[b] {
        FailedBefore(h[..n], was, a);
      }
    }
  }

  lemma NoneFailedLast()
    ensures forall m: nat :: !FailedLast([], m)
  {
  }

  lemma FailedBefore(h: seq<Event>, at: seq<nat>, a: nat)
    requires forall m: nat :: m in at <==> FailedLast(h, m)
    ensures a < |at| ==> at[a] < |h|
  {
    assert a < |at| ==> FailedLast(h, at[a]);
  }

  lemma ThriceMeans(h: seq<Event>)
    ensures FailedThrice(h) <==> Trailing(h) >= 3
  {
    var at := TrailingAt(h);
    if |at| >= 3 {
      assert at[0] in at && at[1] in at && at[2] in at;
      assert ThriceAt(h, at[0], at[1], at[2]);
    }
    if FailedThrice(h) {
      var i, j, k :| ThriceAt(h, i, j, k);
      assert i in at && j in at && k in at;
      var a :| 0 <= a < |at| && at[a] == i;
      var b :| 0 <= b < |at| && at[b] == j;
      var c :| 0 <= c < |at| && at[c] == k;
    }
  }

  // ---------- A setup that can be stood on ----------

  /** Since place from, copies were only stood in for, and cases left the setup alone. */
  ghost predicate OnlyLeftAlone(readOnly: bool, h: seq<Event>, from: nat) {
    forall m :: from <= m < |h| ==> h[m].CopyStood? || (h[m].CaseAsked? && LeftAlone(readOnly, h[m].answer))
  }

  /** b's copies were sent one behind the other from q on, and what they made was left alone since. */
  ghost predicate StandsAt(t: Target, h: seq<Event>, q: nat, b: string) {
    Built(t, h, q, b) && OnlyLeftAlone(t.readOnly, h, q + Size(t))
  }

  ghost predicate Stands(t: Target, h: seq<Event>) {
    exists q: nat, b :: StandsAt(t, h, q, b)
  }

  lemma StandsMeans(t: Target, h: seq<Event>, q: nat, b: string)
    requires Built(t, h, q, b)
    ensures StandsAt(t, h, q, b) <==> HarmlessSince(t, h, q + Size(t), |h|)
  {
    forall m | 0 <= m < |h| ensures Harmless(t.readOnly, h[m])
        <==> h[m].CopyStood? || (h[m].CaseAsked? && LeftAlone(t.readOnly, h[m].answer)) {
      if h[m].CaseAsked? {
        LeavesMeans(t.readOnly, h[m].answer);
      }
    }
  }

  /** What is neither a copy sent nor harmless leaves nothing to stand on, and nothing but a copy sent brings it. */
  lemma StandsNoMore(t: Target, h: seq<Event>, e: Event)
    requires Size(t) > 0 && !e.CopySent?
    ensures Stands(t, h + [e]) ==>
      Stands(t, h) && (e.CopyStood? || (e.CaseAsked? && LeftAlone(t.readOnly, e.answer)))
  {
    var n := h + [e];
    if Stands(t, n) {
      var q: nat, b :| StandsAt(t, n, q, b);
      assert IsSent(n[q + (Size(t) - 1)], t.ids[b][Size(t) - 1], t.originals[Size(t) - 1], b);
      assert q + Size(t) <= |h| && n[|h|] == e;
      forall j | 0 <= j < Size(t) ensures IsSent(h[q + j], t.ids[b][j], t.originals[j], b) {
        assert IsSent(n[q + j], t.ids[b][j], t.originals[j], b);
      }
      forall m | q + Size(t) <= m < |h|
        ensures h[m].CopyStood? || (h[m].CaseAsked? && LeftAlone(t.readOnly, h[m].answer)) {
        assert n[m] == h[m];
      }
      assert StandsAt(t, h, q, b);
    }
  }

  /** A target that is not clean, and of which no build is under way, has nothing to stand on. */
  ghost predicate Known(t: Target, g: Group, h: seq<Event>) {
    Size(t) > 0 && !g.clean && g.building == "" ==> !Stands(t, h)
  }

  ghost predicate AllKnown(f: Fuzz, ts: Targets) {
    && LaidOut(f.layout, ts) && "" !in f.layout.caseTarget
    && forall id :: id in ts ==> Known(ts[id], GroupAt(f, id), History(f, id))
  }

  /** What an action does to one target. */
  ghost predicate KnownStep(f: Fuzz, n: Fuzz, ts: Targets, id: string) {
    id in ts && Known(ts[id], GroupAt(f, id), History(f, id)) ==>
      id in ts && Known(ts[id], GroupAt(n, id), History(n, id))
  }

  lemma SentKnown(f: Fuzz, ts: Targets, c: string, copy: string, o: string, a: Answer, id: string)
    requires LaidOut(f.layout, ts) && "" !in f.layout.caseTarget
    ensures KnownStep(f, AfterCopySent(Preparing(f, c), c, copy, o, a), ts, id)
    ensures KnownStep(f, Preparing(f, c), ts, id)
  {
    hide Stands, LaidOut;
  }

  lemma FailedKnown(f: Fuzz, ts: Targets, c: string, copy: string, id: string)
    requires LaidOut(f.layout, ts) && "" !in f.layout.caseTarget
    ensures KnownStep(f, AfterCopyFailed(Preparing(f, c), c, copy), ts, id)
  {
    hide Stands, LaidOut;
    if id in ts && Size(ts[id]) > 0 {
      StandsNoMore(ts[id], History(f, id), CopyFailed(copy, c));
    }
  }

  lemma StoodKnown(f: Fuzz, ts: Targets, c: string, copy: string, live: string, id: string)
    ensures KnownStep(f, AfterStandIn(f, c, copy, live), ts, id)
  {
    hide Stands;
    if id in ts && Size(ts[id]) > 0 {
      StandsNoMore(ts[id], History(f, id), CopyStood(copy, live, c));
    }
  }

  lemma JudgedKnown(f: Fuzz, ts: Targets, c: string, a: Answer, id: string)
    requires LaidOut(f.layout, ts)
    ensures KnownStep(f, AfterJudging(AfterAsking(f, c, a), c, a), ts, id)
    ensures NeedsRebuild(f, c, a) ==> KnownStep(f, AfterRebuild(AfterAsking(f, c, a), c), ts, id)
  {
    hide Stands;
    if id in ts && Size(ts[id]) > 0 {
      StandsNoMore(ts[id], History(f, id), CaseAsked(c, a));
      LeavesMeans(ts[id].readOnly, a);
    }
  }

  lemma PassedKnown(env: Env, f: Fuzz, ts: Targets, s: Step, a: Answer, suppressed: bool, id: string)
    ensures KnownStep(f, Passing(env, f, s, a, suppressed), ts, id)
  {
    hide Stands, GetsThrough;
  }

  lemma ActKnown(env: Env, f: Fuzz, ts: Targets, s: Step, act: Action, id: string)
    requires LaidOut(f.layout, ts) && "" !in f.layout.caseTarget
    requires act.RebuildCase? ==> NeedsRebuild(f, s.id, act.answer)
    ensures KnownStep(f, FuzzAfter(env, f, s, act), ts, id)
  {
    hide KnownStep, LaidOut, AfterJudging, AfterAsking, AfterCopyFailed, AfterCopySent, AfterRebuild, Preparing,
      AfterStandIn, Passing, NeedsRebuild, StepFailed, Suppressed;
    match act {
      case SendCopy(c, o, a) =>
        SentKnown(f, ts, c, s.id, o, a, id);
        PassedKnown(env, AfterCopySent(Preparing(f, c), c, s.id, o, a), ts, s, a, StepFailed(s, a), id);
        KnownTwice(f, AfterCopySent(Preparing(f, c), c, s.id, o, a), FuzzAfter(env, f, s, act), ts, id);
      case FailCopy(c, _, _) => FailedKnown(f, ts, c, s.id, id);
      case StandInCopy(c, _, live) => StoodKnown(f, ts, c, s.id, live, id);
      case JudgeCase(a) => JudgedKnown(f, ts, s.id, a, id);
      case RebuildCase(a) => JudgedKnown(f, ts, s.id, a, id);
      case RunStep(a) => PassedKnown(env, f, ts, s, a, Suppressed(s, a), id);
      case RefuseCopy(c) => RefusedKnown(f, ts, c, id);
      case AbortAt(_) =>
        NothingKnown(f, ts, id);
        if s.kind.CopyOf? {
          SentKnown(f, ts, s.kind.forCase, "", "", act.answer, id);
        }
      case _ => NothingKnown(f, ts, id);
    }
  }

  lemma NothingKnown(f: Fuzz, ts: Targets, id: string)
    ensures KnownStep(f, f, ts, id)
  {
  }

  lemma RefusedKnown(f: Fuzz, ts: Targets, c: string, id: string)
    ensures KnownStep(f, WithSetup(f, c, SetupFailed), ts, id)
  {
  }

  lemma KnownTwice(f: Fuzz, m: Fuzz, n: Fuzz, ts: Targets, id: string)
    requires KnownStep(f, m, ts, id) && KnownStep(m, n, ts, id)
    ensures KnownStep(f, n, ts, id)
  {
  }

  lemma PassKnown(env: Env, r: Run, ts: Targets)
    requires AllKnown(r.work.fuzz, ts) && !Over(r.work, r.verdict)
    ensures AllKnown(PassOnce(env, r).work.fuzz, ts)
  {
    hide Known, LaidOut, Act, FuzzAfter, NeedsRebuild;
    var f, s, act := r.work.fuzz, r.work.queue[r.work.idx], Act(env, r.work, r.verdict);
    RunEffects.RebuildIsNeeded(env, r);
    forall id | id in ts ensures Known(ts[id], GroupAt(FuzzAfter(env, f, s, act), id),
        History(FuzzAfter(env, f, s, act), id)) {
      ActKnown(env, f, ts, s, act, id);
    }
  }

  // ---------- Over whole runs ----------

  /** The pass to come is over the first copy of a case's setup, and decides what becomes of it. */
  ghost predicate AtFirstCopy(env: Env, r: Run, ts: Targets, c: string)
    requires !Over(r.work, r.verdict)
  {
    var l, s, act := r.work.fuzz.layout, r.work.queue[r.work.idx], Act(env, r.work, r.verdict);
    && IsCaseOfTarget(l, c) && !InfoOf(l, c).scope.Shared? && TargetOf(l, c) in ts
    && c in ts[TargetOf(l, c)].ids && |ts[TargetOf(l, c)].ids[c]| > 0
    && s.kind.CopyOf? && s.kind.forCase == c && s.id == ts[TargetOf(l, c)].ids[c][0]
    && c !in r.work.failedSetup && !act.Ignore? && !act.Interrupt?
  }

  /** It is stood in for exactly when the target may reuse setups, three of them did not just fail in a row, and some
      build is still as it was made. */
  ghost predicate StandsInRightly(env: Env, r: Run, ts: Targets, c: string)
    requires !Over(r.work, r.verdict) && AtFirstCopy(env, r, ts, c)
  {
    var f, act := r.work.fuzz, Act(env, r.work, r.verdict);
    var id := TargetOf(f.layout, c);
    var h := History(f, id);
    && (act.StandInCopy? <==> f.layout.targets[id].scope == Reuse && Stands(ts[id], h) && !FailedThrice(h))
    && (act.RefuseCopy? <==> FailedThrice(h))
  }

  lemma FirstDecides(t: Target, f: Fuzz, failed: set<string>, c: string, copy: string, original: string)
    requires NextCopy(t, f, c, 0, copy, original) && Mid(t, f, failed, c, 0) && c !in failed && c != ""
    requires Known(t, GroupOf(f, c), History(f, TargetOf(f.layout, c)))
    ensures var h := History(f, TargetOf(f.layout, c));
      && (Decide(f, c, original).StandIn? <==> InfoOf(f.layout, c).scope.Reuse? && Stands(t, h) && !FailedThrice(h))
      && (Decide(f, c, original).DoNotSend? <==> FailedThrice(h))
  {
    hide Stands, FailedThrice, AsksSound, ThreeAtMost;
    var g, h := GroupOf(f, c), History(f, TargetOf(f.layout, c));
    ThriceMeans(h);
    if g.clean {
      CleanStands(t, g, h);
      if !g.stopped && InfoOf(f.layout, c).scope.Reuse? {
        StandingCopy(t, f, failed, c, 0, copy, original);
      }
    }
  }

  lemma CleanStands(t: Target, g: Group, h: seq<Event>)
    requires AtRest(t, g, h) && g.clean
    ensures Stands(t, h)
  {
    var q: nat, b :| LiveFrom(t, g.live, h, q, b);
    StandsMeans(t, h, q, b);
  }

  lemma FirstCopyStandsIn(env: Env, r: Run, p: Place, ts: Targets, c: string)
    requires Inv(r.work, p, ts) && UniqueCopies(r.work.fuzz.layout) && AllKnown(r.work.fuzz, ts)
    requires !Over(r.work, r.verdict) && AtFirstCopy(env, r, ts, c)
    ensures StandsInRightly(env, r, ts, c)
  {
    hide Inv, Mid, Known, Stands, FailedThrice, UniqueCopies, ValidTarget, TargetOk, Touches, FuzzAfter, CaseOfIt,
      FitsTarget, LaidOut, Decide;
    var l, s, o := r.work.fuzz.layout, r.work.queue[r.work.idx], Opened(p);
    OpeningKeeps(r.work, p, ts);
    IsPlaced(r.work, o, ts);
    EntryIsNext(r.work, o);
    NotOwn(r.work, o, ts);
    AtCopy(r.work, o, ts);
    CopyEntry(env, r, o, ts);
    IsFirst(r.work, o, ts, c);
    var id := TargetOf(l, c);
    assert r.work.fuzz.layout.caseTarget.Keys == l.caseTarget.Keys;
    FirstDecides(ts[id], r.work.fuzz, r.work.failedSetup, c, s.id, s.kind.original);
    ActIsDecided(env, r.work, s, c, s.kind.original);
  }

  lemma IsPlaced(w: Work, p: Place, ts: Targets)
    requires Inv(w, p, ts)
    ensures PlaceOk(w, p) && Fits(w.fuzz.layout, p)
  {
  }

  lemma NotOwn(w: Work, p: Place, ts: Targets)
    requires Inv(w, p, ts) && w.idx < |w.queue| && (p.own != [] || p.block.InBlock?)
    requires w.queue[w.idx] == Entry(w.fuzz.layout, p) && w.queue[w.idx].kind.CopyOf?
    ensures p.own == [] && p.block.InBlock?
  {
    if p.own != [] {
      OwnIsOwn(w, p, ts);
    }
  }

  lemma AtCopy(w: Work, p: Place, ts: Targets)
    requires Inv(w, p, ts) && w.idx < |w.queue| && p.own == [] && p.block.InBlock?
    requires w.queue[w.idx] == Entry(w.fuzz.layout, p) && w.queue[w.idx].kind.CopyOf?
    ensures p.block.j < |CopiesOf(w.fuzz.layout, p.block.case_.id)|
    ensures w.queue[w.idx] == CopiesOf(w.fuzz.layout, p.block.case_.id)[p.block.j]
  {
    if p.block.j >= |CopiesOf(w.fuzz.layout, p.block.case_.id)| {
      CaseFacts(w, p, ts);
    }
  }

  /** The copy a case has first is the first of its block. */
  lemma IsFirst(w: Work, p: Place, ts: Targets, c: string)
    requires Inv(w, p, ts) && UniqueCopies(w.fuzz.layout) && w.idx < |w.queue| && p.block.InBlock?
    requires var l := w.fuzz.layout; IsCaseOfTarget(l, c) && TargetOf(l, c) in ts && c in ts[TargetOf(l, c)].ids
    requires var l, s, d := w.fuzz.layout, w.queue[w.idx], p.block.case_.id;
      && p.block.j < |CopiesOf(l, d)| && s == CopiesOf(l, d)[p.block.j]
      && |ts[TargetOf(l, c)].ids[c]| > 0 && s.kind.CopyOf? && s.kind.forCase == c && s.kind.forCase == d
      && s.id == ts[TargetOf(l, c)].ids[c][0]
    ensures p.block.case_.id == c && p.block.j == 0
  {
    CaseFacts(w, p, ts);
    var l := w.fuzz.layout;
    var t := ts[TargetOf(l, c)];
    assert IsCopy(l, t, c, 0, CopiesOf(l, c)[0]);
    CopyIdAt(l, c, 0);
    CopyIdAt(l, c, p.block.j);
  }

  lemma ActIsDecided(env: Env, w: Work, s: Step, c: string, o: string)
    requires c !in w.failedSetup
    ensures var act := CopyAction(env, w, s, c, o);
      && (act.StandInCopy? <==> Decide(w.fuzz, c, o).StandIn?)
      && (act.RefuseCopy? <==> Decide(w.fuzz, c, o).DoNotSend?)
  {
    hide Decide, CopyFails;
  }

  /** Over every run, whatever is answered: a case's setup is reused whenever it may be, and only then. */
  lemma ReusesIff(env: Env, l: Layout, ts: Targets, own: seq<Step>, cases: seq<Step>, n: nat, c: string)
    requires Planned(l, ts, own, cases) && "" !in l.caseTarget
    ensures var r := AfterPasses(env, StartOf(l, own, cases), n);
      !Over(r.work, r.verdict) && AtFirstCopy(env, r, ts, c) ==> StandsInRightly(env, r, ts, c)
  {
    hide Stands;
    StartHolds(l, ts, own, cases);
    forall id | id in ts ensures Known(ts[id], NewGroup, []) {
      NothingStands(ts[id]);
    }
    RunReuses(env, StartOf(l, own, cases), StartPlace(own, cases), ts, n, c);
  }

  lemma NothingStands(t: Target)
    ensures Size(t) > 0 ==> !Stands(t, [])
  {
  }

  lemma {:induction false} RunReuses(env: Env, r: Run, p: Place, ts: Targets, n: nat, c: string)
    requires Inv(r.work, p, ts) && UniqueCopies(r.work.fuzz.layout) && AllKnown(r.work.fuzz, ts)
    requires r.verdict.interruption.Running?
    ensures var m := AfterPasses(env, r, n);
      !Over(m.work, m.verdict) && AtFirstCopy(env, m, ts, c) ==> StandsInRightly(env, m, ts, c)
    decreases n
  {
    hide Inv, AtFirstCopy, StandsInRightly, AllKnown, UniqueCopies, PassOnce;
    if Over(r.work, r.verdict) {
    } else if n == 0 {
      if AtFirstCopy(env, r, ts, c) {
        FirstCopyStandsIn(env, r, p, ts, c);
      }
    } else {
      var m := PassOnce(env, r);
      SameLayout(env, r);
      if m.verdict.interruption.Running? {
        PassKnown(env, r, ts);
        var q := PassOnceKeeps(env, r, p, ts);
        RunReuses(env, m, q, ts, n - 1, c);
      } else {
        assert AfterPasses(env, m, n - 1) == m;
      }
    }
  }

  lemma SameLayout(env: Env, r: Run)
    requires !Over(r.work, r.verdict)
    ensures PassOnce(env, r).work.fuzz.layout == r.work.fuzz.layout
  {
    hide Act;
  }

  // ---------- Sent again ----------

  /** The pass to come sends a case that runs after the plan. */
  ghost predicate SendsCase(env: Env, r: Run, ts: Targets)
    requires !Over(r.work, r.verdict)
  {
    var l, s, act := r.work.fuzz.layout, r.work.queue[r.work.idx], Act(env, r.work, r.verdict);
    RunsAfterPlan(l, s) && s.kind.CaseOf? && IsCaseOfTarget(l, s.id) && TargetOf(l, s.id) in ts
    && (act.JudgeCase? || act.RebuildCase?)
  }

  /** Copies stood in for the case's own, and the answer shows that what they made is gone. */
  ghost predicate StoodOnNothing(h: seq<Event>, c: string, a: Answer) {
    h != [] && h[|h| - 1].CopyStood? && h[|h| - 1].forCase == c && ShowsGone(a)
  }

  /** Then the case's copies and the case itself come next; else nothing is sent again. */
  ghost predicate SendsAgainRightly(env: Env, r: Run, ts: Targets)
    requires !Over(r.work, r.verdict) && SendsCase(env, r, ts)
  {
    var l, s, i, queue := r.work.fuzz.layout, r.work.queue[r.work.idx], r.work.idx, r.work.queue;
    var copies := CopiesOf(l, s.id);
    var gone := copies != [] && StoodOnNothing(History(r.work.fuzz, TargetOf(l, s.id)), s.id, env.answer(i));
    PassOnce(env, r).work.queue == if gone then queue[..i + 1] + copies + [s] + queue[i + 1..] else queue
  }

  lemma RebuiltIff(t: Target, f: Fuzz, failed: set<string>, c: string, a: Answer)
    requires ValidTarget(t) && IsCaseOfTarget(f.layout, c) && c !in failed && Mid(t, f, failed, c, Size(t))
    requires |CopiesOf(f.layout, c)| == Size(t)
    ensures NeedsRebuild(f, c, a)
      <==> CopiesOf(f.layout, c) != [] && StoodOnNothing(History(f, TargetOf(f.layout, c)), c, a)
  {
    hide AtRest, Built, Tracked, LiveFrom, ValidTarget, ShowsGone, StaleAnswer;
    var g, h := GroupOf(f, c), History(f, TargetOf(f.layout, c));
    LeavesMeans(false, a);
    if Size(t) > 0 {
      var n := Size(t) - 1;
      if IsBuilding(t, f, c, Size(t)) {
        assert IsSent(h[|h| - Size(t) + n], t.ids[c][n], t.originals[n], c);
      } else {
        var q: nat, b :| Standing(t, g, h, c, Size(t), q, b);
        assert h[|h| - Size(t) + n] == CopyStood(t.ids[c][n], t.ids[b][n], c);
      }
    }
  }

  lemma CaseIsSentAgain(env: Env, r: Run, p: Place, ts: Targets)
    requires Inv(r.work, p, ts) && !Over(r.work, r.verdict) && SendsCase(env, r, ts)
    ensures SendsAgainRightly(env, r, ts)
  {
    hide Inv, Mid, StoodOnNothing, ValidTarget, TargetOk, Touches, FuzzAfter, CaseOfIt, FitsTarget, LaidOut,
      NeedsRebuild;
    var l, s, o := r.work.fuzz.layout, r.work.queue[r.work.idx], Opened(p);
    OpeningKeeps(r.work, p, ts);
    IsPlaced(r.work, o, ts);
    EntryIsNext(r.work, o);
    AtItsCase(r.work, o, ts);
    CaseEntry(env, r, o, ts);
    CaseCopies(r.work, o, ts);
    RebuiltIff(ts[TargetOf(l, s.id)], r.work.fuzz, r.work.failedSetup, s.id, env.answer(r.work.idx));
  }

  lemma CaseCopies(w: Work, p: Place, ts: Targets)
    requires Inv(w, p, ts) && p.block.InBlock?
    ensures var l, c := w.fuzz.layout, p.block.case_.id;
      && IsCaseOfTarget(l, c) && TargetOf(l, c) in ts && |CopiesOf(l, c)| == Size(ts[TargetOf(l, c)])
      && ValidTarget(ts[TargetOf(l, c)])
  {
    CaseFacts(w, p, ts);
  }

  lemma AtItsCase(w: Work, p: Place, ts: Targets)
    requires Inv(w, p, ts) && w.idx < |w.queue| && (p.own != [] || p.block.InBlock?)
    requires w.queue[w.idx] == Entry(w.fuzz.layout, p) && w.queue[w.idx].kind.CaseOf?
    requires RunsAfterPlan(w.fuzz.layout, w.queue[w.idx])
    ensures p.own == [] && p.block.InBlock? && w.queue[w.idx] == p.block.case_
    ensures p.block.j == |CopiesOf(w.fuzz.layout, p.block.case_.id)|
  {
    if p.own != [] {
      OwnIsOwn(w, p, ts);
    } else {
      CopiesAre(w, p, ts);
    }
  }

  /** Over every run, whatever is answered: a case is sent again exactly when another case's setup stood in for its
      own and turned out to be gone. */
  lemma SentAgainIff(env: Env, l: Layout, ts: Targets, own: seq<Step>, cases: seq<Step>, n: nat)
    requires Planned(l, ts, own, cases)
    ensures var r := AfterPasses(env, StartOf(l, own, cases), n);
      !Over(r.work, r.verdict) && SendsCase(env, r, ts) ==> SendsAgainRightly(env, r, ts)
  {
    StartHolds(l, ts, own, cases);
    RunSendsAgain(env, StartOf(l, own, cases), StartPlace(own, cases), ts, n);
  }

  lemma {:induction false} RunSendsAgain(env: Env, r: Run, p: Place, ts: Targets, n: nat)
    requires Inv(r.work, p, ts) && r.verdict.interruption.Running?
    ensures var m := AfterPasses(env, r, n);
      !Over(m.work, m.verdict) && SendsCase(env, m, ts) ==> SendsAgainRightly(env, m, ts)
    decreases n
  {
    hide Inv, SendsCase, SendsAgainRightly, PassOnce;
    if Over(r.work, r.verdict) {
    } else if n == 0 {
      if SendsCase(env, r, ts) {
        CaseIsSentAgain(env, r, p, ts);
      }
    } else {
      var m := PassOnce(env, r);
      if m.verdict.interruption.Running? {
        var q := PassOnceKeeps(env, r, p, ts);
        RunSendsAgain(env, m, q, ts, n - 1);
      } else {
        assert AfterPasses(env, m, n - 1) == m;
      }
    }
  }
}

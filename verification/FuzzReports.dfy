/** What an uninterrupted run leaves: each case of a target that got through is reported exactly once,
    asked at most twice, and the copies counted as skipped are those never sent (engine/engine.go). */
module FuzzReports {
  import opened FuzzState
  import opened RunSpec
  import opened FuzzPlaces
  import opened FuzzRuns
  import opened FuzzTheorems
  import opened FuzzAccounts

  predicate ReportsCase(l: Layout, r: Report) {
    (r.CaseReport? || r.CaseNotSent?) && RunsAfterPlan(l, r.step)
  }

  /** The cases the results speak of, of those sent after the plan. */
  function Reported(l: Layout, results: seq<Report>): seq<string> {
    if results == [] then []
    else
      var last := results[|results| - 1];
      Reported(l, results[..|results| - 1]) + if ReportsCase(l, last) then [last.step.id] else []
  }

  /** The cases of targets that got through. */
  function PassedIds(f: Fuzz, cases: seq<Step>): seq<string> {
    if cases == [] then []
    else
      var last := cases[|cases| - 1];
      PassedIds(f, cases[..|cases| - 1]) + if TargetPassed(f, last) then [last.id] else []
  }

  function Asks(h: seq<Event>, c: string): nat {
    if h == [] then 0 else Asks(h[..|h| - 1], c) + if h[|h| - 1].CaseAsked? && h[|h| - 1].case_ == c then 1 else 0
  }

  /** How often a case was sent and answered. */
  function AsksOf(f: Fuzz, c: string): nat {
    if IsCaseOfTarget(f.layout, c) then Asks(History(f, TargetOf(f.layout, c)), c) else 0
  }

  function Rebuilds(f: Fuzz, c: string): nat {
    if c in f.stale then 1 else 0
  }

  ghost predicate ReportsOk(r: Run, p: Place) {
    Reported(r.work.fuzz.layout, r.effects.results) == PassedIds(r.work.fuzz, p.done)
  }

  /** A case is asked once before its rebuild, if it has one, and once at the end. */
  ghost predicate AsksOk(f: Fuzz, p: Place) {
    && (forall i :: 0 <= i < |p.done| ==> AsksOf(f, p.done[i].id) <= 1 + Rebuilds(f, p.done[i].id))
    && (p.block.InBlock? ==> AsksOf(f, p.block.case_.id) == Rebuilds(f, p.block.case_.id))
    && (forall i :: 0 <= i < |p.cases| ==> AsksOf(f, p.cases[i].id) == Rebuilds(f, p.cases[i].id))
  }

  // ---------- Reports ----------

  lemma ReportedOfAppend(l: Layout, results: seq<Report>, r: Report)
    ensures Reported(l, results + [r]) == Reported(l, results) + if ReportsCase(l, r) then [r.step.id] else []
  {
    assert (results + [r])[..|results|] == results;
  }

  /** What a pass adds to the cases reported. */
  predicate ReportsNow(act: Action) {
    act.HoldCase? || act.JudgeCase?
  }

  lemma PassReports(l: Layout, e: Effects, f: Fuzz, s: Step, act: Action)
    requires !Ends(act)
    ensures Reported(l, EffectsAfter(e, f, s, act).results) ==
            Reported(l, e.results) + if ReportsNow(act) && RunsAfterPlan(l, s) then [s.id] else []
  {
    hide EffectsAfter;
    var r := PassAddsReport(e, f, s, act);
    if r != [] {
      ReportedOfAppend(l, e.results, r[0]);
      assert e.results + r == e.results + [r[0]];
    } else {
      assert e.results + r == e.results;
    }
  }

  /** The line a pass adds to the results, if it adds one. */
  lemma PassAddsReport(e: Effects, f: Fuzz, s: Step, act: Action) returns (r: seq<Report>)
    requires !Ends(act)
    ensures EffectsAfter(e, f, s, act).results == e.results + r && |r| <= 1
    ensures ReportsNow(act) <==> r != [] && (r[0].CaseReport? || r[0].CaseNotSent?)
    ensures r != [] ==> r[0].step == s
  {
    r := EffectsAfter(e, f, s, act).results[|e.results|..];
  }

  lemma {:induction false} PassedIdsSame(f: Fuzz, n: Fuzz, cases: seq<Step>)
    requires forall i :: 0 <= i < |cases| ==> TargetPassed(n, cases[i]) == TargetPassed(f, cases[i])
    ensures PassedIds(n, cases) == PassedIds(f, cases)
  {
    if cases != [] {
      PassedIdsSame(f, n, cases[..|cases| - 1]);
    }
  }

  lemma BlockReports(f: Fuzz, n: Fuzz, p: Place, act: Action)
    requires Fits(f.layout, p) && p.own == [] && p.block.InBlock? && Touches(f, n, p.block.case_.id)
    ensures var q, s := NextPlace(f.layout, p, act), p.block.case_;
      PassedIds(n, q.done) ==
      PassedIds(f, p.done) + if q.done != p.done && TargetPassed(f, s) then [s.id] else []
  {
    var q, s := NextPlace(f.layout, p, act), p.block.case_;
    forall i | 0 <= i < |p.done| ensures TargetPassed(n, p.done[i]) == TargetPassed(f, p.done[i]) {
      PassedSame(f, n, s.id, p.done[i]);
    }
    PassedIdsSame(f, n, p.done);
    PassedSame(f, n, s.id, s);
    assert (p.done + [s])[..|p.done|] == p.done;
  }

  // ---------- Asks ----------

  lemma AsksOfAppend(h: seq<Event>, e: Event, c: string)
    ensures Asks(h + [e], c) == Asks(h, c) + if e.CaseAsked? && e.case_ == c then 1 else 0
  {
    assert (h + [e])[..|h|] == h;
  }

  predicate AsksNow(act: Action) {
    act.RebuildCase? || act.JudgeCase?
  }

  lemma NotingAsks(f: Fuzz, c: string, e: Event, d: string)
    requires IsCaseOfTarget(f.layout, c)
    ensures AsksOf(Noting(f, c, e), d) <= AsksOf(f, d) + if e.CaseAsked? && e.case_ == d then 1 else 0
    ensures AsksOf(Noting(f, c, e), d) >= AsksOf(f, d)
  {
    AsksOfAppend(History(f, TargetOf(f.layout, c)), e, d);
  }

  lemma SameHistoryAsks(f: Fuzz, n: Fuzz, d: string)
    requires n.history == f.history && n.layout == f.layout
    ensures AsksOf(n, d) == AsksOf(f, d)
  {
  }

  lemma CopyHistories(env: Env, f: Fuzz, s: Step, c: string, o: string, a: Answer)
    requires IsCaseOfTarget(f.layout, c)
    ensures FuzzAfter(env, f, s, SendCopy(c, o, a)).history == Noting(f, c, CopySent(s.id, o, c, a)).history
    ensures FuzzAfter(env, f, s, FailCopy(c, o, a)).history == Noting(f, c, CopyFailed(s.id, c)).history
  {
    assert Preparing(f, c).history == f.history;
  }

  lemma PassAsks(env: Env, f: Fuzz, s: Step, act: Action, d: string)
    ensures AsksOf(FuzzAfter(env, f, s, act), d) <= AsksOf(f, d) + if AsksNow(act) && s.id == d then 1 else 0
    ensures AsksOf(FuzzAfter(env, f, s, act), d) >= AsksOf(f, d)
  {
    var n := FuzzAfter(env, f, s, act);
    match act {
      case StandInCopy(c, _, live) =>
        if IsCaseOfTarget(f.layout, c) {
          NotingAsks(f, c, CopyStood(s.id, live, c), d);
          SameHistoryAsks(Noting(f, c, CopyStood(s.id, live, c)), n, d);
        }
      case SendCopy(c, o, a) => SendAsks(env, f, s, c, o, a, d);
      case FailCopy(c, o, a) => FailAsks(env, f, s, c, o, a, d);
      case RebuildCase(a) => AskAsks(f, s.id, a, n, d);
      case JudgeCase(a) => AskAsks(f, s.id, a, n, d);
      case _ => SameHistoryAsks(f, n, d);
    }
  }

  lemma SendAsks(env: Env, f: Fuzz, s: Step, c: string, o: string, a: Answer, d: string)
    ensures AsksOf(FuzzAfter(env, f, s, SendCopy(c, o, a)), d) == AsksOf(f, d)
  {
    if IsCaseOfTarget(f.layout, c) {
      CopyHistories(env, f, s, c, o, a);
      NotingAsks(f, c, CopySent(s.id, o, c, a), d);
      SameHistoryAsks(Noting(f, c, CopySent(s.id, o, c, a)), FuzzAfter(env, f, s, SendCopy(c, o, a)), d);
    }
  }

  lemma FailAsks(env: Env, f: Fuzz, s: Step, c: string, o: string, a: Answer, d: string)
    ensures AsksOf(FuzzAfter(env, f, s, FailCopy(c, o, a)), d) == AsksOf(f, d)
  {
    if IsCaseOfTarget(f.layout, c) {
      CopyHistories(env, f, s, c, o, a);
      NotingAsks(f, c, CopyFailed(s.id, c), d);
      SameHistoryAsks(Noting(f, c, CopyFailed(s.id, c)), FuzzAfter(env, f, s, FailCopy(c, o, a)), d);
    }
  }

  lemma AskAsks(f: Fuzz, c: string, a: Answer, n: Fuzz, d: string)
    requires n.history == AfterAsking(f, c, a).history && n.layout == f.layout
    ensures AsksOf(f, d) <= AsksOf(n, d) <= AsksOf(f, d) + if c == d then 1 else 0
  {
    SameHistoryAsks(AfterAsking(f, c, a), n, d);
    if IsCaseOfTarget(f.layout, c) {
      NotingAsks(f, c, CaseAsked(c, a), d);
    }
  }

  lemma RebuildAsks(env: Env, f: Fuzz, s: Step, a: Answer)
    requires IsCaseOfTarget(f.layout, s.id)
    ensures AsksOf(FuzzAfter(env, f, s, RebuildCase(a)), s.id) == AsksOf(f, s.id) + 1
  {
    AsksOfAppend(History(f, TargetOf(f.layout, s.id)), CaseAsked(s.id, a), s.id);
  }

  /** A pass that asks no case at all, or only s. */
  lemma OthersAsks(env: Env, f: Fuzz, s: Step, act: Action, d: string)
    requires d != s.id || !AsksNow(act)
    ensures AsksOf(FuzzAfter(env, f, s, act), d) == AsksOf(f, d)
      && Rebuilds(FuzzAfter(env, f, s, act), d) == Rebuilds(f, d)
  {
    PassAsks(env, f, s, act, d);
  }

  ghost predicate SameAsks(f: Fuzz, n: Fuzz, id: string) {
    AsksOf(n, id) == AsksOf(f, id) && Rebuilds(n, id) == Rebuilds(f, id)
  }

  lemma AsksKept(f: Fuzz, n: Fuzz, p: Place)
    requires AsksOk(f, p)
    requires forall i :: 0 <= i < |Cases(p)| ==> SameAsks(f, n, Cases(p)[i].id)
    ensures AsksOk(n, p)
  {
    forall i | 0 <= i < |p.done| ensures SameAsks(f, n, p.done[i].id) {
      assert Cases(p)[i] == p.done[i];
    }
    if p.block.InBlock? {
      assert Cases(p)[|p.done|] == p.block.case_;
    }
    var k := |Cases(p)| - |p.cases|;
    forall i | 0 <= i < |p.cases| ensures SameAsks(f, n, p.cases[i].id) {
      assert Cases(p)[k + i] == p.cases[i];
    }
  }

  lemma OwnAsks(env: Env, f: Fuzz, p: Place, s: Step, act: Action)
    requires WellPlaced(f.layout, p) && p.own != [] && s == p.own[0] && AsksOk(f, p)
      && (AsksNow(act) ==> s.kind.CaseOf? && act.JudgeCase?)
    ensures AsksOk(FuzzAfter(env, f, s, act), NextPlace(f.layout, p, act))
  {
    assert s in p.own;
    forall i | 0 <= i < |Cases(p)| ensures SameAsks(f, FuzzAfter(env, f, s, act), Cases(p)[i].id) {
      assert Cases(p)[i] in Cases(p);
      OthersAsks(env, f, s, act, Cases(p)[i].id);
    }
    AsksKept(f, FuzzAfter(env, f, s, act), p);
  }

  lemma CopyAsks(env: Env, f: Fuzz, p: Place, s: Step, act: Action)
    requires Fits(f.layout, p) && p.own == [] && p.block.InBlock? && p.block.j < |CopiesOf(f.layout, p.block.case_.id)|
    requires AsksOk(f, p) && !AsksNow(act)
    ensures AsksOk(FuzzAfter(env, f, s, act), NextPlace(f.layout, p, act))
  {
    forall i | 0 <= i < |Cases(p)| ensures SameAsks(f, FuzzAfter(env, f, s, act), Cases(p)[i].id) {
      OthersAsks(env, f, s, act, Cases(p)[i].id);
    }
    AsksKept(f, FuzzAfter(env, f, s, act), p);
  }

  ghost predicate BlockApart(p: Place)
    requires p.block.InBlock?
  {
    && (forall i :: 0 <= i < |p.done| ==> p.done[i].id != p.block.case_.id)
    && (forall i :: 0 <= i < |p.cases| ==> p.cases[i].id != p.block.case_.id)
  }

  lemma BlocksAreApart(l: Layout, p: Place)
    requires WellPlaced(l, p) && p.block.InBlock?
    ensures BlockApart(p)
  {
    var ids := FuzzPlaces.Ids(Cases(p));
    forall i | 0 <= i < |p.done| ensures p.done[i].id != p.block.case_.id {
      assert ids[i] == p.done[i].id && ids[|p.done|] == p.block.case_.id;
    }
    forall i | 0 <= i < |p.cases| ensures p.cases[i].id != p.block.case_.id {
      CaseNotPending(l, p, i);
    }
  }

  lemma CaseAsks(env: Env, f: Fuzz, p: Place, act: Action)
    requires Fits(f.layout, p) && p.own == [] && p.block.InBlock? && p.block.j == |CopiesOf(f.layout, p.block.case_.id)|
    requires AsksOk(f, p) && BlockApart(p)
    requires act.RebuildCase? ==> p.block.case_.id !in f.stale && IsCaseOfTarget(f.layout, p.block.case_.id)
    ensures AsksOk(FuzzAfter(env, f, p.block.case_, act), NextPlace(f.layout, p, act))
  {
    var s, n, q := p.block.case_, FuzzAfter(env, f, p.block.case_, act), NextPlace(f.layout, p, act);
    PassAsks(env, f, s, act, s.id);
    if act.RebuildCase? {
      RebuildAsks(env, f, s, act.answer);
    }
    forall i | 0 <= i < |p.done| ensures AsksOf(n, p.done[i].id) <= 1 + Rebuilds(n, p.done[i].id) {
      OthersAsks(env, f, s, act, p.done[i].id);
    }
    forall i | 0 <= i < |q.cases| ensures AsksOf(n, q.cases[i].id) == Rebuilds(n, q.cases[i].id) {
      OthersAsks(env, f, s, act, p.cases[i].id);
    }
  }

  // ---------- One pass ----------

  ghost predicate Accounted(r: Run, p: Place, ts: Targets) {
    Inv(r.work, p, ts) && SkipsOk(r.work, p) && ReportsOk(r, p) && AsksOk(r.work.fuzz, p)
  }

  lemma OpeningAccounts(r: Run, p: Place, ts: Targets)
    requires Accounted(r, p, ts)
    ensures Accounted(r, Opened(p), ts)
  {
    hide SkipsOk, AsksOk, GroupsOk, PendingOk, LaidOut;
    OpeningKeeps(r.work, p, ts);
    OpeningSkips(r.work, p);
    OpeningAsks(r.work.fuzz, p);
  }

  lemma OpeningSkips(w: Work, p: Place)
    requires SkipsOk(w, p) && Fits(w.fuzz.layout, Opened(p))
    ensures SkipsOk(w, Opened(p))
  {
    hide UniqueCopies, CountUnsent;
  }

  lemma OpeningAsks(f: Fuzz, p: Place)
    requires AsksOk(f, p)
    ensures AsksOk(f, Opened(p))
  {
    hide AsksOf, Rebuilds;
  }

  lemma OwnPass(env: Env, r: Run, p: Place, ts: Targets)
    requires Accounted(r, p, ts) && !Over(r.work, r.verdict) && p.own != [] && r.work.queue[r.work.idx] == p.own[0]
    requires !Ends(Act(env, r.work, r.verdict))
    ensures var n, q := PassOnce(env, r), NextPlace(r.work.fuzz.layout, p, Act(env, r.work, r.verdict));
      SkipsOk(n.work, q) && ReportsOk(n, q) && AsksOk(n.work.fuzz, q)
  {
    var s, act := r.work.queue[r.work.idx], Act(env, r.work, r.verdict);
    assert s in p.own;
    OwnAccounts(env, r.work, r.verdict, p);
    ActOnOwn(env, r.work, r.verdict, s);
    OwnAsks(env, r.work.fuzz, p, s, act);
    PassReports(r.work.fuzz.layout, r.effects, r.work.fuzz, s, act);
  }

  lemma CopyPassAccounts(env: Env, r: Run, p: Place, ts: Targets)
    requires Accounted(r, p, ts) && !Over(r.work, r.verdict) && p.own == [] && p.block.InBlock?
    requires p.block.j < |CopiesOf(r.work.fuzz.layout, p.block.case_.id)|
    requires r.work.queue[r.work.idx] == CopiesOf(r.work.fuzz.layout, p.block.case_.id)[p.block.j]
      && !Ends(Act(env, r.work, r.verdict))
    ensures var n, q := PassOnce(env, r), NextPlace(r.work.fuzz.layout, p, Act(env, r.work, r.verdict));
      SkipsOk(n.work, q) && ReportsOk(n, q) && AsksOk(n.work.fuzz, q)
  {
    var f, s, act := r.work.fuzz, r.work.queue[r.work.idx], Act(env, r.work, r.verdict);
    CopyAccounts(env, r.work, r.verdict, p, ts);
    CopyPasses(env, r.work, r.verdict, p, ts);
    CopyAsks(env, f, p, s, act);
    PassReports(f.layout, r.effects, f, s, act);
    BlockReports(f, FuzzAfter(env, f, s, act), p, act);
  }

  lemma CasePassAccounts(env: Env, r: Run, p: Place, ts: Targets)
    requires Accounted(r, p, ts) && !Over(r.work, r.verdict) && p.own == [] && p.block.InBlock?
    requires p.block.j == |CopiesOf(r.work.fuzz.layout, p.block.case_.id)|
    requires r.work.queue[r.work.idx] == p.block.case_ && !Ends(Act(env, r.work, r.verdict))
    ensures var n, q := PassOnce(env, r), NextPlace(r.work.fuzz.layout, p, Act(env, r.work, r.verdict));
      SkipsOk(n.work, q) && ReportsOk(n, q) && AsksOk(n.work.fuzz, q)
  {
    var f, s, act := r.work.fuzz, r.work.queue[r.work.idx], Act(env, r.work, r.verdict);
    CaseAccounts(env, r.work, r.verdict, p, ts);
    CasePasses(env, r.work, r.verdict, p, ts);
    BlocksAreApart(f.layout, p);
    CaseAsks(env, f, p, act);
    CaseReports(env, r, p, s, act);
  }

  lemma CaseReports(env: Env, r: Run, p: Place, s: Step, act: Action)
    requires var f := r.work.fuzz;
      Fits(f.layout, p) && p.own == [] && p.block == InBlock(s, |CopiesOf(f.layout, s.id)|) && CasePass(env, f, s, act)
    requires ReportsOk(r, p)
    ensures var f := r.work.fuzz;
      Reported(f.layout, EffectsAfter(r.effects, f, s, act).results)
        == PassedIds(FuzzAfter(env, f, s, act), NextPlace(f.layout, p, act).done)
  {
    var f := r.work.fuzz;
    PassReports(f.layout, r.effects, f, s, act);
    BlockReports(f, FuzzAfter(env, f, s, act), p, act);
    if !act.RebuildCase? {
      assert |NextPlace(f.layout, p, act).done| == |p.done| + 1;
    }
  }

  lemma NextCases(l: Layout, p: Place, act: Action)
    requires Fits(l, p) && (p.own != [] || p.block.InBlock?)
    ensures Cases(NextPlace(l, p, act)) == Cases(p)
  {
  }

  lemma OpenedCases(p: Place)
    ensures Cases(Opened(p)) == Cases(p)
  {
    if p.own == [] && p.block.NoBlock? && p.cases != [] {
      assert p.cases == [p.cases[0]] + p.cases[1..];
    }
  }

  /** A pass over an opened place that does not end the run. */
  ghost predicate Follows(n: Run, o: Place, q: Place, ts: Targets) {
    Accounted(n, q, ts) && Cases(q) == Cases(o)
  }

  lemma PassInv(env: Env, r: Run, o: Place, ts: Targets)
    requires Inv(r.work, o, ts) && Opened(o) == o && !Over(r.work, r.verdict) && !Ends(Act(env, r.work, r.verdict))
    ensures Fits(r.work.fuzz.layout, o) && (o.own != [] || o.block.InBlock?)
    ensures r.work.queue[r.work.idx] == Entry(r.work.fuzz.layout, o)
    ensures Inv(PassOnce(env, r).work, NextPlace(r.work.fuzz.layout, o, Act(env, r.work, r.verdict)), ts)
  {
    PassKeeps(env, r.work, r.verdict, o, ts);
    EntryIsNext(r.work, o);
  }

  lemma OpenedPass(env: Env, r: Run, o: Place, ts: Targets) returns (q: Place)
    requires Accounted(r, o, ts) && Opened(o) == o && !Over(r.work, r.verdict) && !Ends(Act(env, r.work, r.verdict))
    ensures Follows(PassOnce(env, r), o, q, ts)
  {
    PassInv(env, r, o, ts);
    OpenedPassAccounts(env, r, o, ts);
    q := NextPlace(r.work.fuzz.layout, o, Act(env, r.work, r.verdict));
    NextCases(r.work.fuzz.layout, o, Act(env, r.work, r.verdict));
  }

  lemma PassAccounts(env: Env, r: Run, p: Place, ts: Targets) returns (q: Place)
    requires Accounted(r, p, ts) && !Over(r.work, r.verdict)
    ensures Follows(PassOnce(env, r), p, q, ts) || !PassOnce(env, r).verdict.interruption.Running?
  {
    q := p;
    if !Ends(Act(env, r.work, r.verdict)) {
      OpeningAccounts(r, p, ts);
      OpenedCases(p);
      q := OpenedPass(env, r, Opened(p), ts);
    } else {
      EndsTheRun(env, r);
    }
  }

  lemma OpenedPassAccounts(env: Env, r: Run, o: Place, ts: Targets)
    requires Accounted(r, o, ts) && !Over(r.work, r.verdict) && (o.own != [] || o.block.InBlock?)
    requires r.work.queue[r.work.idx] == Entry(r.work.fuzz.layout, o) && !Ends(Act(env, r.work, r.verdict))
    ensures var n, q := PassOnce(env, r), NextPlace(r.work.fuzz.layout, o, Act(env, r.work, r.verdict));
      SkipsOk(n.work, q) && ReportsOk(n, q) && AsksOk(n.work.fuzz, q)
  {
    if o.own != [] {
      OwnPass(env, r, o, ts);
    } else if o.block.j < |CopiesOf(r.work.fuzz.layout, o.block.case_.id)| {
      CopyPassAccounts(env, r, o, ts);
    } else {
      CasePassAccounts(env, r, o, ts);
    }
  }

  // ---------- Whole runs ----------

  /** The accounts of a finished run over the cases it had. */
  ghost predicate Balanced(r: Run, cases: seq<Step>) {
    && Reported(r.work.fuzz.layout, r.effects.results) == PassedIds(r.work.fuzz, cases)
    && r.work.copiesSkipped == CountUnsent(SentIds(r.work.fuzz), DoneIds(r.work.fuzz, cases))
    && (forall i :: 0 <= i < |cases| ==> AsksOf(r.work.fuzz, cases[i].id) <= 1 + Rebuilds(r.work.fuzz, cases[i].id))
  }

  lemma AtTheEnd(r: Run, p: Place, ts: Targets)
    requires Accounted(r, p, ts) && r.work.idx == |r.work.queue|
    ensures Balanced(r, Cases(p))
  {
    assert Left(r.work.fuzz.layout, p) == [];
    assert p.done == Cases(p);
    assert Behind(r.work.fuzz, p) == DoneIds(r.work.fuzz, p.done);
  }

  /** A run that nothing interrupts reports each case of a target that got through exactly once, in
      order, and counts exactly the copies of those cases that were never sent. */
  lemma {:induction false} RunsBalance(env: Env, r: Run, p: Place, ts: Targets)
    requires Accounted(r, p, ts) && r.verdict.interruption.Running?
    ensures var n := RunOn(env, r); n.verdict.interruption.Running? ==> Balanced(n, Cases(p))
    decreases |Rebuildable(r.work.fuzz)|, |r.work.queue| - r.work.idx
  {
    if Over(r.work, r.verdict) {
      AtTheEnd(r, p, ts);
    } else {
      var n := PassOnce(env, r);
      var q := PassAccounts(env, r, p, ts);
      PassOnceProgresses(env, r);
      if n.verdict.interruption.Running? {
        RunsBalance(env, n, q, ts);
      }
    }
  }
}

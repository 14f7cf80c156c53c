/** Whole runs from the start (engine/engine.go Run), over every plan, answer, and interruption. */
module RunFromStart {
  import opened TopoOrder
  import opened FuzzState
  import opened FuzzReuse
  import opened RunSpec
  import opened FuzzPlaces
  import opened FuzzTheorems
  import opened FuzzAccounts
  import opened FuzzReports
  import opened RunVerdict

  /** A plan as expanded: its own steps, then a block for each case. */
  ghost predicate Planned(l: Layout, ts: Targets, own: seq<Step>, cases: seq<Step>) {
    && LaidOut(l, ts) && UniqueCopies(l)
    && (forall s :: s in own ==> IsOwn(l, s)) && (forall s :: s in cases ==> IsCase(l, s))
    && Distinct(FuzzPlaces.Ids(cases))
  }

  function StartOf(l: Layout, own: seq<Step>, cases: seq<Step>): Run {
    Run(Work(own + Blocks(l, cases), 0, Fuzz(l, map[], map[], {}, map[]), {}, 0),
        Verdict(Passed, Passed, false, NotEnded, false, Running), Effects(map[], [], []))
  }

  function StartPlace(own: seq<Step>, cases: seq<Step>): Place {
    Place(own, NoBlock, cases, [])
  }

  lemma StartIsPlaced(l: Layout, ts: Targets, own: seq<Step>, cases: seq<Step>)
    requires Planned(l, ts, own, cases)
    ensures PlaceOk(StartOf(l, own, cases).work, StartPlace(own, cases)) && Cases(StartPlace(own, cases)) == cases
  {
    var p := StartPlace(own, cases);
    assert Cases(p) == cases;
    assert StartOf(l, own, cases).work.queue[0..] == Left(l, p);
  }

  lemma StartHolds(l: Layout, ts: Targets, own: seq<Step>, cases: seq<Step>)
    requires Planned(l, ts, own, cases)
    ensures Inv(StartOf(l, own, cases).work, StartPlace(own, cases), ts)
  {
    StartIsPlaced(l, ts, own, cases);
    var w := StartOf(l, own, cases).work;
    forall t | t in ts && t in l.targets && !l.targets[t].scope.Shared?
        ensures TargetOk(w.fuzz, {}, NoBlock, t, ts[t]) {
      assert AtRest(ts[t], NewGroup, []);
    }
  }

  lemma StartAccounted(l: Layout, ts: Targets, own: seq<Step>, cases: seq<Step>)
    requires Planned(l, ts, own, cases)
    ensures Accounted(StartOf(l, own, cases), StartPlace(own, cases), ts)
  {
    StartHolds(l, ts, own, cases);
  }

  /** What a whole run keeps and leaves: the setups it reused were sound, its accounts balance unless
      it was interrupted, and its outcome is the truth. */
  ghost predicate GoodRun(env: Env, ts: Targets, cases: seq<Step>, n: Run) {
    && HistoriesSound(n.work.fuzz, ts)
    && (n.verdict.interruption.Running? ==> Balanced(n, cases))
    && SaysTrue(env, Finish(env, n.verdict), n.effects.results)
  }

  /** Every run ends, and is a good one. */
  lemma RunsAreGood(env: Env, l: Layout, ts: Targets, own: seq<Step>, cases: seq<Step>)
    requires Planned(l, ts, own, cases)
    ensures GoodRun(env, ts, cases, RunOn(env, StartOf(l, own, cases)))
    ensures Over(RunOn(env, StartOf(l, own, cases)).work, RunOn(env, StartOf(l, own, cases)).verdict)
  {
    var r, p := StartOf(l, own, cases), StartPlace(own, cases);
    StartHolds(l, ts, own, cases);
    StartAccounted(l, ts, own, cases);
    StartIsPlaced(l, ts, own, cases);
    var end := RunsAreSound(env, r, p, ts);
    RunsBalance(env, r, p, ts);
    OutcomeSaysTrue(env, r, p, ts);
    RunsEnd(env, r);
  }

  lemma {:induction false} RunsEnd(env: Env, r: Run)
    ensures Over(RunOn(env, r).work, RunOn(env, r).verdict)
    decreases |Rebuildable(r.work.fuzz)|, |r.work.queue| - r.work.idx
  {
    if !Over(r.work, r.verdict) {
      PassOnceProgresses(env, r);
      RunsEnd(env, PassOnce(env, r));
    }
  }
}

/** Fuzz setups over whole runs of the loop (engine/fuzz.go, engine/engine.go): the cases are sent in
    blocks, each case's copies of the setup directly before it, and every case of a target copies the
    same steps. */
module FuzzRuns {
  import opened FuzzState
  import opened FuzzReuse
  import opened RunSpec

  // ---------- One target, part-way through a case ----------

  /** Where the target of case c stands once j entries of the case's block are done. */
  ghost predicate Mid(t: Target, f: Fuzz, failed: set<string>, c: string, j: nat)
    requires IsCaseOfTarget(f.layout, c)
  {
    var g, h := GroupOf(f, c), History(f, TargetOf(f.layout, c));
    if c in failed then AtRest(t, g, h)
    else
      && !SetupOf(f, c).SetupFailed?
      && (if j == 0 then AtRest(t, g, h) && (c in f.stale ==> !g.clean)
          else IsBuilding(t, f, c, j) || HasStanding(t, f, c, j))
  }

  ghost predicate IsBuilding(t: Target, f: Fuzz, c: string, j: nat)
    requires IsCaseOfTarget(f.layout, c)
  {
    Building(t, GroupOf(f, c), History(f, TargetOf(f.layout, c)), c, j)
      && (SetupOf(f, c).Fresh? || SetupOf(f, c).Rebuilt?)
  }

  ghost predicate HasStanding(t: Target, f: Fuzz, c: string, j: nat)
    requires IsCaseOfTarget(f.layout, c)
  {
    IsStanding(t, GroupOf(f, c), History(f, TargetOf(f.layout, c)), c, j) && InfoOf(f.layout, c).scope.Reuse?
    && SetupOf(f, c).Reused? && c !in f.stale
  }

  /** Only the target of case c, and only case c of it, is touched. */
  ghost predicate Touches(f: Fuzz, n: Fuzz, c: string) {
    && IsCaseOfTarget(f.layout, c) && n.layout == f.layout
    && (n.groups == f.groups || n.groups == f.groups[TargetOf(f.layout, c) := GroupOf(n, c)])
    && GroupOf(n, c).passed == GroupOf(f, c).passed
    && (n.history == f.history || n.history == f.history[TargetOf(f.layout, c) := History(n, TargetOf(f.layout, c))])
    && (n.caseSetup == f.caseSetup || n.caseSetup == f.caseSetup[c := SetupOf(n, c)])
    && (n.stale == f.stale || n.stale == f.stale + {c})
  }

  /** The copy the block of case c has next. */
  ghost predicate NextCopy(t: Target, f: Fuzz, c: string, j: nat, copy: string, original: string) {
    && ValidTarget(t) && IsCaseOfTarget(f.layout, c) && c in t.ids && j < Size(t)
    && copy == t.ids[c][j] && original == t.originals[j]
  }

  lemma StandingCopy(t: Target, f: Fuzz, failed: set<string>, c: string, j: nat, copy: string, original: string)
    requires NextCopy(t, f, c, j, copy, original) && Mid(t, f, failed, c, j) && c !in failed
    requires !GroupOf(f, c).stopped && InfoOf(f.layout, c).scope.Reuse? && GroupOf(f, c).clean
    requires j == 0 || HasStanding(t, f, c, j)
    ensures Decide(f, c, original).StandIn?
    ensures var n := AfterStandIn(f, c, copy, Decide(f, c, original).live);
      Touches(f, n, c) && Mid(t, n, failed, c, j + 1)
  {
    var g, h := GroupOf(f, c), History(f, TargetOf(f.layout, c));
    if j == 0 {
      RestCanStand(t, g, h, c);
    }
    StandsInNext(t, g, h, c, j);
    assert Decide(f, c, original) == StandIn(g.live[original]);
    var n := AfterStandIn(f, c, copy, g.live[original]);
    assert HasStanding(t, n, c, j + 1);
  }

  lemma SentCopy(t: Target, f: Fuzz, failed: set<string>, c: string, j: nat, copy: string, original: string,
                 a: Answer)
    requires NextCopy(t, f, c, j, copy, original) && Mid(t, f, failed, c, j) && c !in failed
    requires !GroupOf(f, c).stopped && (j == 0 || IsBuilding(t, f, c, j))
    ensures var n := AfterCopySent(Preparing(f, c), c, copy, original, a);
      Touches(f, n, c) && Mid(t, n, failed, c, j + 1) && !SetupOf(n, c).Reused?
  {
    PreparingBuilds(t, f, failed, c, j);
    SentAfterPreparing(t, Preparing(f, c), c, j, copy, original, a);
    TouchesTransitive(f, Preparing(f, c), AfterCopySent(Preparing(f, c), c, copy, original, a), c);
  }

  lemma SentAfterPreparing(t: Target, p: Fuzz, c: string, j: nat, copy: string, original: string, a: Answer)
    requires NextCopy(t, p, c, j, copy, original) && IsBuilding(t, p, c, j)
    ensures Touches(p, AfterCopySent(p, c, copy, original, a), c)
    ensures IsBuilding(t, AfterCopySent(p, c, copy, original, a), c, j + 1)
  {
    BuildsNext(t, GroupOf(p, c), History(p, TargetOf(p.layout, c)), c, j, a);
  }

  lemma TouchesTransitive(a: Fuzz, b: Fuzz, d: Fuzz, c: string)
    requires Touches(a, b, c) && Touches(b, d, c)
    ensures Touches(a, d, c)
  {
  }

  lemma PreparingBuilds(t: Target, f: Fuzz, failed: set<string>, c: string, j: nat)
    requires ValidTarget(t) && IsCaseOfTarget(f.layout, c) && c in t.ids && c != "" && Mid(t, f, failed, c, j)
      && c !in failed
    requires !GroupOf(f, c).stopped && (j == 0 || IsBuilding(t, f, c, j))
    ensures Touches(f, Preparing(f, c), c) && IsBuilding(t, Preparing(f, c), c, j)
    ensures Preparing(f, c).history == f.history
  {
    if j == 0 {
      StartsBuilding(t, GroupOf(f, c), History(f, TargetOf(f.layout, c)), c);
    }
  }

  lemma FailedCopy(t: Target, f: Fuzz, failed: set<string>, c: string, j: nat, copy: string, original: string)
    requires NextCopy(t, f, c, j, copy, original) && Mid(t, f, failed, c, j) && c !in failed
    requires !GroupOf(f, c).stopped && (j == 0 || IsBuilding(t, f, c, j))
    ensures var n := AfterCopyFailed(Preparing(f, c), c, copy);
      Touches(f, n, c) && Mid(t, n, failed + {c}, c, j + 1) && SetupOf(n, c).SetupFailed?
  {
    hide AtRest, Building;
    PreparingBuilds(t, f, failed, c, j);
    var p := Preparing(f, c);
    BuildFails(t, GroupOf(p, c), History(p, TargetOf(f.layout, c)), c, j, copy);
  }

  lemma SendsOnlyWhenBuilding(t: Target, f: Fuzz, failed: set<string>, c: string, j: nat, copy: string,
                              original: string)
    requires NextCopy(t, f, c, j, copy, original) && Mid(t, f, failed, c, j) && c !in failed
    requires Decide(f, c, original) == Send
    ensures !GroupOf(f, c).stopped && (j == 0 || IsBuilding(t, f, c, j))
  {
    if j > 0 && HasStanding(t, f, c, j) {
      StandingCopy(t, f, failed, c, j, copy, original);
    }
  }

  lemma StandsOnlyWhenClean(t: Target, f: Fuzz, failed: set<string>, c: string, j: nat, copy: string, original: string)
    requires NextCopy(t, f, c, j, copy, original) && Mid(t, f, failed, c, j) && c !in failed
    requires Decide(f, c, original).StandIn?
    ensures !GroupOf(f, c).stopped && InfoOf(f.layout, c).scope.Reuse? && GroupOf(f, c).clean
      && (j == 0 || HasStanding(t, f, c, j))
  {
  }

  ghost predicate AfterCopy(env: Env, t: Target, f: Fuzz, failed: set<string>, c: string, j: nat, s: Step, act: Action)
    requires IsCaseOfTarget(f.layout, c)
  {
    var n := FuzzAfter(env, f, s, act);
    Touches(f, n, c) && (act.AbortAt? || Mid(t, n, FailedAfter(failed, act), c, j + 1))
  }

  /** Every action a pass can take on a copy leaves the target one entry further into its case. */
  lemma CopyActs(env: Env, w: Work, t: Target, c: string, j: nat, s: Step)
    requires s.kind.CopyOf? && s.kind.forCase == c && s.id !in w.fuzz.layout.targets
    requires NextCopy(t, w.fuzz, c, j, s.id, s.kind.original) && Mid(t, w.fuzz, w.failedSetup, c, j)
    ensures AfterCopy(env, t, w.fuzz, w.failedSetup, c, j, s, CopyAction(env, w, s, c, s.kind.original))
  {
    hide AtRest, IsBuilding, HasStanding;
    var f, failed, o := w.fuzz, w.failedSetup, s.kind.original;
    if c in failed {
      assert AfterCopy(env, t, f, failed, c, j, s, HoldCopy);
    } else if Decide(f, c, o).StandIn? {
      StandsOnlyWhenClean(t, f, failed, c, j, s.id, o);
      StandingCopy(t, f, failed, c, j, s.id, o);
      assert AfterCopy(env, t, f, failed, c, j, s, StandInCopy(c, o, Decide(f, c, o).live));
    } else if Decide(f, c, o).DoNotSend? {
      RefusedCopy(t, f, failed, c, j);
      assert AfterCopy(env, t, f, failed, c, j, s, RefuseCopy(c));
    } else {
      SendActs(env, t, f, failed, c, j, s, env.answer(w.idx));
    }
  }

  lemma SendActs(env: Env, t: Target, f: Fuzz, failed: set<string>, c: string, j: nat, s: Step, a: Answer)
    requires s.kind.CopyOf? && s.kind.forCase == c && s.id !in f.layout.targets && c !in failed
    requires NextCopy(t, f, c, j, s.id, s.kind.original) && Mid(t, f, failed, c, j)
      && Decide(f, c, s.kind.original) == Send
    ensures AfterCopy(env, t, f, failed, c, j, s, SendCopy(c, s.kind.original, a))
    ensures AfterCopy(env, t, f, failed, c, j, s, FailCopy(c, s.kind.original, a))
    ensures AfterCopy(env, t, f, failed, c, j, s, AbortAt(a))
  {
    SendsOnlyWhenBuilding(t, f, failed, c, j, s.id, s.kind.original);
    SentActs(env, t, f, failed, c, j, s, a);
    FailedActs(env, t, f, failed, c, j, s, a);
    PreparingBuilds(t, f, failed, c, j);
  }

  lemma FailedActs(env: Env, t: Target, f: Fuzz, failed: set<string>, c: string, j: nat, s: Step, a: Answer)
    requires s.kind.CopyOf? && s.kind.forCase == c && c !in failed
    requires NextCopy(t, f, c, j, s.id, s.kind.original) && Mid(t, f, failed, c, j)
    requires !GroupOf(f, c).stopped && (j == 0 || IsBuilding(t, f, c, j))
    ensures AfterCopy(env, t, f, failed, c, j, s, FailCopy(c, s.kind.original, a))
  {
    FailedCopy(t, f, failed, c, j, s.id, s.kind.original);
  }

  lemma RefusedCopy(t: Target, f: Fuzz, failed: set<string>, c: string, j: nat)
    requires IsCaseOfTarget(f.layout, c) && Mid(t, f, failed, c, j) && c !in failed && GroupOf(f, c).stopped
    ensures Touches(f, WithSetup(f, c, SetupFailed), c) && Mid(t, WithSetup(f, c, SetupFailed), failed + {c}, c, j + 1)
  {
    assert j == 0;
  }

  lemma SentActs(env: Env, t: Target, f: Fuzz, failed: set<string>, c: string, j: nat, s: Step, a: Answer)
    requires s.kind.CopyOf? && s.kind.forCase == c && s.id !in f.layout.targets && c !in failed
    requires NextCopy(t, f, c, j, s.id, s.kind.original) && Mid(t, f, failed, c, j)
    requires !GroupOf(f, c).stopped && (j == 0 || IsBuilding(t, f, c, j))
    ensures var n := FuzzAfter(env, f, s, SendCopy(c, s.kind.original, a));
      Touches(f, n, c) && Mid(t, n, failed, c, j + 1)
  {
    SentCopy(t, f, failed, c, j, s.id, s.kind.original, a);
  }

  /** The target of case c is at rest. */
  ghost predicate Resting(t: Target, f: Fuzz, c: string)
    requires IsCaseOfTarget(f.layout, c)
  {
    AtRest(t, GroupOf(f, c), History(f, TargetOf(f.layout, c)))
  }

  lemma JudgedActs(t: Target, f: Fuzz, failed: set<string>, c: string, a: Answer)
    requires ValidTarget(t) && IsCaseOfTarget(f.layout, c) && c in t.ids && Mid(t, f, failed, c, Size(t))
      && c !in failed
    requires InfoOf(f.layout, c).readOnly == t.readOnly
    ensures var n := AfterJudging(AfterAsking(f, c, a), c, a);
      Touches(f, n, c) && Resting(t, n, c)
  {
    var g, h := GroupOf(f, c), History(f, TargetOf(f.layout, c));
    if Size(t) == 0 {
      AskedWithoutSetup(t, g, h, c, a);
    } else if IsBuilding(t, f, c, Size(t)) {
      AskedOnBuild(t, g, h, c, a);
    } else {
      AskedOnStanding(t, g, h, c, a);
    }
  }

  /** Only a case whose every copy was stood in for is sent again, and its target is then unclean. */
  lemma RebuildActs(t: Target, f: Fuzz, failed: set<string>, c: string, a: Answer)
    requires ValidTarget(t) && IsCaseOfTarget(f.layout, c) && c in t.ids && Mid(t, f, failed, c, Size(t))
      && c !in failed
    requires NeedsRebuild(f, c, a) && |CopiesOf(f.layout, c)| == Size(t)
    ensures HasStanding(t, f, c, Size(t))
    ensures var n := AfterRebuild(AfterAsking(f, c, a), c);
      Touches(f, n, c) && Mid(t, n, failed, c, 0)
  {
    AskedOnStanding(t, GroupOf(f, c), History(f, TargetOf(f.layout, c)), c, a);
  }

  /** What a pass makes of the case itself, at the end of its block. */
  lemma CaseActs(env: Env, w: Work, t: Target, c: string, s: Step)
    requires s.kind.CaseOf? && s.id == c && ValidTarget(t) && IsCaseOfTarget(w.fuzz.layout, c) && c in t.ids
    requires Mid(t, w.fuzz, w.failedSetup, c, Size(t)) && |CopiesOf(w.fuzz.layout, c)| == Size(t)
    requires InfoOf(w.fuzz.layout, c).readOnly == t.readOnly
    ensures AfterCase(env, t, w.fuzz, w.failedSetup, s, CaseAction(env, w, s))
  {
    var a := env.answer(w.idx);
    if c in w.failedSetup {
      assert AfterCase(env, t, w.fuzz, w.failedSetup, s, HoldCase);
    } else if a.error && a.interrupted {
      assert AfterCase(env, t, w.fuzz, w.failedSetup, s, AbortAt(a));
    } else {
      AnsweredActs(env, t, w.fuzz, w.failedSetup, s, a);
    }
  }

  lemma AnsweredActs(env: Env, t: Target, f: Fuzz, failed: set<string>, s: Step, a: Answer)
    requires s.kind.CaseOf? && ValidTarget(t) && IsCaseOfTarget(f.layout, s.id) && s.id in t.ids && s.id !in failed
    requires Mid(t, f, failed, s.id, Size(t)) && |CopiesOf(f.layout, s.id)| == Size(t)
      && InfoOf(f.layout, s.id).readOnly == t.readOnly
    ensures AfterCase(env, t, f, failed, s, if NeedsRebuild(f, s.id, a) then RebuildCase(a) else JudgeCase(a))
  {
    if NeedsRebuild(f, s.id, a) {
      RebuiltCase(env, t, f, failed, s, a);
    } else {
      JudgedCase(env, t, f, failed, s, a);
    }
  }

  lemma RebuiltCase(env: Env, t: Target, f: Fuzz, failed: set<string>, s: Step, a: Answer)
    requires ValidTarget(t) && IsCaseOfTarget(f.layout, s.id) && s.id in t.ids && s.id !in failed
    requires Mid(t, f, failed, s.id, Size(t)) && NeedsRebuild(f, s.id, a) && |CopiesOf(f.layout, s.id)| == Size(t)
    ensures AfterCase(env, t, f, failed, s, RebuildCase(a))
  {
    RebuildActs(t, f, failed, s.id, a);
  }

  lemma JudgedCase(env: Env, t: Target, f: Fuzz, failed: set<string>, s: Step, a: Answer)
    requires ValidTarget(t) && IsCaseOfTarget(f.layout, s.id) && s.id in t.ids && s.id !in failed
    requires Mid(t, f, failed, s.id, Size(t)) && InfoOf(f.layout, s.id).readOnly == t.readOnly
    ensures AfterCase(env, t, f, failed, s, JudgeCase(a))
  {
    JudgedActs(t, f, failed, s.id, a);
  }

  ghost predicate AfterCase(env: Env, t: Target, f: Fuzz, failed: set<string>, s: Step, act: Action)
    requires IsCaseOfTarget(f.layout, s.id)
  {
    var n := FuzzAfter(env, f, s, act);
    && Touches(f, n, s.id)
    && (act.RebuildCase? ==> HasStanding(t, f, s.id, Size(t)) && Mid(t, n, failed, s.id, 0))
    && (act.HoldCase? || act.JudgeCase? ==> Resting(t, n, s.id))
  }
}

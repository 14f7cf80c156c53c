/** What a run counts and reports about its fuzz cases (engine/engine.go): each case once, and each
    copy of the setup that was never sent. */
module FuzzAccounts {
  import opened FuzzState
  import opened FuzzReuse
  import opened RunSpec
  import opened FuzzPlaces
  import opened FuzzRuns
  import opened FuzzTheorems

  predicate IsSending(e: Event) {
    e.CopySent? || e.CopyFailed?
  }

  /** The copies that were sent, passed or not. */
  function SentIds(f: Fuzz): set<string> {
    set t, i: nat | t in f.history && i < |f.history[t]| && IsSending(f.history[t][i]) :: f.history[t][i].copy
  }

  function CopyIds(l: Layout, c: string): seq<string> {
    FuzzPlaces.Ids(CopiesOf(l, c))
  }

  ghost predicate UniqueCopies(l: Layout) {
    forall c, d, i, j :: 0 <= i < |CopyIds(l, c)| && 0 <= j < |CopyIds(l, d)| && CopyIds(l, c)[i] == CopyIds(l, d)[j]
      ==> c == d && i == j
  }

  /** The copies of the cases done, of targets that got through. */
  function DoneIds(f: Fuzz, done: seq<Step>): seq<string> {
    if done == [] then []
    else
      var last := done[|done| - 1];
      DoneIds(f, done[..|done| - 1]) + (if TargetPassed(f, last) then CopyIds(f.layout, last.id) else [])
  }

  /** All the copies behind the run. */
  function Behind(f: Fuzz, p: Place): seq<string>
    requires Fits(f.layout, p)
  {
    DoneIds(f, p.done) +
    (if p.block.InBlock? && TargetPassed(f, p.block.case_)
     then CopyIds(f.layout, p.block.case_.id)[..p.block.j] else [])
  }

  function CountUnsent(sent: set<string>, ids: seq<string>): nat {
    if ids == [] then 0 else CountUnsent(sent, ids[..|ids| - 1]) + (if ids[|ids| - 1] in sent then 0 else 1)
  }

  lemma {:induction false} CountOfAppend(sent: set<string>, a: seq<string>, b: seq<string>)
    ensures CountUnsent(sent, a + b) == CountUnsent(sent, a) + CountUnsent(sent, b)
  {
    if b == [] {
      assert a + b == a;
    } else {
      assert (a + b)[..|a + b| - 1] == a + b[..|b| - 1];
      CountOfAppend(sent, a, b[..|b| - 1]);
    }
  }

  lemma {:induction false} CountNoneSent(sent: set<string>, ids: seq<string>)
    requires forall i :: 0 <= i < |ids| ==> ids[i] !in sent
    ensures CountUnsent(sent, ids) == |ids|
  {
    if ids != [] {
      CountNoneSent(sent, ids[..|ids| - 1]);
    }
  }

  lemma {:induction false} CountIgnoresOther(sent: set<string>, ids: seq<string>, id: string)
    requires id !in ids
    ensures CountUnsent(sent + {id}, ids) == CountUnsent(sent, ids)
  {
    if ids != [] {
      CountIgnoresOther(sent, ids[..|ids| - 1], id);
    }
  }

  // ---------- What was sent ----------

  lemma NotingSends(f: Fuzz, c: string, e: Event)
    requires IsCaseOfTarget(f.layout, c)
    ensures SentIds(Noting(f, c, e)) == SentIds(f) + if IsSending(e) then {e.copy} else {}
  {
    var t := TargetOf(f.layout, c);
    var n := Noting(f, c, e);
    forall id ensures id in SentIds(n) <==> id in SentIds(f) || (IsSending(e) && id == e.copy) {
      if id in SentIds(f) {
        var u, i: nat :| u in f.history && i < |f.history[u]| && IsSending(f.history[u][i])
          && f.history[u][i].copy == id;
        assert n.history[u][i] == f.history[u][i];
      }
      if IsSending(e) && id == e.copy {
        assert n.history[t][|History(f, t)|] == e;
      }
      if id in SentIds(n) {
        var u, i: nat :| u in n.history && i < |n.history[u]| && IsSending(n.history[u][i])
          && n.history[u][i].copy == id;
        if u != t || i < |History(f, t)| {
          assert f.history[u][i] == n.history[u][i];
        }
      }
    }
  }

  lemma SameHistorySends(f: Fuzz, n: Fuzz)
    requires n.history == f.history
    ensures SentIds(n) == SentIds(f)
  {
  }

  predicate SendsACopy(l: Layout, act: Action) {
    (act.SendCopy? || act.FailCopy?) && IsCaseOfTarget(l, act.forCase)
  }

  lemma ActSends(env: Env, f: Fuzz, s: Step, act: Action)
    ensures SentIds(FuzzAfter(env, f, s, act)) == SentIds(f) + if SendsACopy(f.layout, act) then {s.id} else {}
  {
    var n := FuzzAfter(env, f, s, act);
    match act {
      case StandInCopy(c, _, live) =>
        if IsCaseOfTarget(f.layout, c) {
          var m := WithSetup(f, c, Reused);
          SameHistorySends(f, m);
          NotingSends(m, c, CopyStood(s.id, live, c));
        }
      case SendCopy(c, o, a) => SendingSends(env, f, s, c, o, a);
      case FailCopy(c, _, _) => FailingSends(f, s, c);
      case RebuildCase(a) => AskingSends(f, s.id, a, n);
      case JudgeCase(a) => AskingSends(f, s.id, a, n);
      case _ => SameHistorySends(f, n);
    }
  }

  lemma SendingSends(env: Env, f: Fuzz, s: Step, c: string, o: string, a: Answer)
    ensures SentIds(FuzzAfter(env, f, s, SendCopy(c, o, a)))
      == SentIds(f) + if IsCaseOfTarget(f.layout, c) then {s.id} else {}
  {
    var p := Preparing(f, c);
    SameHistorySends(f, p);
    if IsCaseOfTarget(f.layout, c) {
      var m := WithGroup(p, c, GroupOf(p, c).(live := GroupOf(p, c).live[o := s.id]));
      SameHistorySends(p, m);
      NotingSends(m, c, CopySent(s.id, o, c, a));
    }
    SameHistorySends(AfterCopySent(p, c, s.id, o, a), FuzzAfter(env, f, s, SendCopy(c, o, a)));
  }

  lemma FailingSends(f: Fuzz, s: Step, c: string)
    ensures SentIds(AfterCopyFailed(Preparing(f, c), c, s.id))
      == SentIds(f) + if IsCaseOfTarget(f.layout, c) then {s.id} else {}
  {
    var p := Preparing(f, c);
    SameHistorySends(f, p);
    if IsCaseOfTarget(f.layout, c) {
      var n := GroupOf(p, c).failures + 1;
      var m := WithSetup(WithGroup(p, c,
        GroupOf(p, c).(clean := false, building := "", failures := n,
          stopped := GroupOf(p, c).stopped || n >= MaxSetupFailures)), c, SetupFailed);
      SameHistorySends(p, m);
      NotingSends(m, c, CopyFailed(s.id, c));
    } else {
      SameHistorySends(p, AfterCopyFailed(p, c, s.id));
    }
  }

  lemma AskingSends(f: Fuzz, c: string, a: Answer, n: Fuzz)
    requires n.history == AfterAsking(f, c, a).history
    ensures SentIds(n) == SentIds(f)
  {
    SameHistorySends(AfterAsking(f, c, a), n);
    if IsCaseOfTarget(f.layout, c) {
      NotingSends(f, c, CaseAsked(c, a));
    }
  }

  // ---------- The count of copies skipped ----------

  ghost predicate NoneSent(sent: set<string>, ids: seq<string>, from: nat) {
    forall i :: from <= i < |ids| ==> ids[i] !in sent
  }

  /** The count is of the copies behind the run that were never sent; none ahead of it has been. */
  ghost predicate SkipsOk(w: Work, p: Place) {
    && Fits(w.fuzz.layout, p) && UniqueCopies(w.fuzz.layout)
    && w.copiesSkipped == CountUnsent(SentIds(w.fuzz), Behind(w.fuzz, p))
    && (forall i :: 0 <= i < |p.cases| ==> NoneSent(SentIds(w.fuzz), CopyIds(w.fuzz.layout, p.cases[i].id), 0))
    && (p.block.InBlock? ==> BlockUnsent(w.fuzz, p.block))
  }

  ghost predicate BlockUnsent(f: Fuzz, b: Block)
    requires b.InBlock?
  {
    && NoneSent(SentIds(f), CopyIds(f.layout, b.case_.id), b.j)
    && (SetupOf(f, b.case_.id).Reused? ==> NoneSent(SentIds(f), CopyIds(f.layout, b.case_.id), 0))
  }

  lemma {:induction false} InDoneIds(f: Fuzz, done: seq<Step>, id: string)
    requires id in DoneIds(f, done)
    ensures exists i, j :: 0 <= i < |done| && 0 <= j < |CopyIds(f.layout, done[i].id)|
              && CopyIds(f.layout, done[i].id)[j] == id
  {
    var n := |done| - 1;
    if id in DoneIds(f, done[..n]) {
      InDoneIds(f, done[..n], id);
    } else {
      assert id in CopyIds(f.layout, done[n].id);
    }
  }

  lemma {:induction false} DoneIdsSame(f: Fuzz, n: Fuzz, done: seq<Step>)
    requires n.layout == f.layout
      && forall i :: 0 <= i < |done| ==> TargetPassed(n, done[i]) == TargetPassed(f, done[i])
    ensures DoneIds(n, done) == DoneIds(f, done)
  {
    if done != [] {
      DoneIdsSame(f, n, done[..|done| - 1]);
    }
  }

  lemma PassedSame(f: Fuzz, n: Fuzz, c: string, s: Step)
    requires Touches(f, n, c)
    ensures TargetPassed(n, s) == TargetPassed(f, s)
  {
  }

  /** The copy next in the block under way is not behind the run. */
  lemma NextIsNotBehind(f: Fuzz, p: Place)
    requires WellPlaced(f.layout, p) && UniqueCopies(f.layout) && p.block.InBlock?
      && p.block.j < |CopiesOf(f.layout, p.block.case_.id)|
    ensures CopyIds(f.layout, p.block.case_.id)[p.block.j] !in Behind(f, p)
  {
    var l, c, j := f.layout, p.block.case_.id, p.block.j;
    var id := CopyIds(l, c)[j];
    forall i | 0 <= i < |p.done| ensures p.done[i].id != c {
      var ids := FuzzPlaces.Ids(Cases(p));
      assert ids[i] == p.done[i].id && ids[|p.done|] == c;
    }
    if id in DoneIds(f, p.done) {
      InDoneIds(f, p.done, id);
    }
    forall i | 0 <= i < j ensures CopyIds(l, c)[..j][i] != id {
      assert CopyIds(l, c)[..j][i] == CopyIds(l, c)[i];
    }
  }

  lemma BehindOneMore(f: Fuzz, n: Fuzz, p: Place)
    requires Fits(f.layout, p) && p.block.InBlock? && p.block.j < |CopiesOf(f.layout, p.block.case_.id)|
      && Touches(f, n, p.block.case_.id)
    ensures var q := p.(block := InBlock(p.block.case_, p.block.j + 1));
      Behind(n, q) == Behind(f, p)
        + if TargetPassed(f, p.block.case_) then [CopyIds(f.layout, p.block.case_.id)[p.block.j]] else []
  {
    var c, j := p.block.case_.id, p.block.j;
    forall i | 0 <= i < |p.done| ensures TargetPassed(n, p.done[i]) == TargetPassed(f, p.done[i]) {
      PassedSame(f, n, c, p.done[i]);
    }
    DoneIdsSame(f, n, p.done);
    PassedSame(f, n, c, p.block.case_);
    assert CopyIds(f.layout, c)[..j + 1] == CopyIds(f.layout, c)[..j] + [CopyIds(f.layout, c)[j]];
  }

  /** Sending the copy at hand changes nothing sent among the other copies. */
  lemma SentOnlyNext(f: Fuzz, c: string, j: nat, d: string, from: nat, sent: set<string>)
    requires UniqueCopies(f.layout) && j < |CopiesOf(f.layout, c)| && NoneSent(sent, CopyIds(f.layout, d), from)
      && (d != c || from > j)
    ensures NoneSent(sent + {CopyIds(f.layout, c)[j]}, CopyIds(f.layout, d), from)
  {
  }

  /** What a pass does to a copy of case c: it sends it, or counts it as skipped, or leaves it out. */
  ghost predicate ActsOnCopy(l: Layout, c: string, act: Action, passed: bool) {
    if !passed then act == Ignore
    else
      || act == HoldCopy || act == RefuseCopy(c) || (act.StandInCopy? && act.forCase == c)
      || ((act.SendCopy? || act.FailCopy?) && act.forCase == c)
  }

  lemma CopyActIs(env: Env, w: Work, v: Verdict, s: Step, c: string)
    requires !Over(w, v) && w.queue[w.idx] == s && s.kind.CopyOf? && s.kind.forCase == c
      && IsCaseOfTarget(w.fuzz.layout, c)
    requires !Ends(Act(env, w, v))
    ensures ActsOnCopy(w.fuzz.layout, c, Act(env, w, v), GroupOf(w.fuzz, c).passed)
    ensures GroupOf(w.fuzz, c).passed ==> Act(env, w, v) == CopyAction(env, w, s, c, s.kind.original)
  {
    ActOnBlock(env, w, v, s);
  }

  lemma CaseAndCopyPassAlike(f: Fuzz, s: Step)
    requires IsCase(f.layout, s)
    ensures TargetPassed(f, s) == GroupOf(f, s.id).passed
  {
  }

  /** A copy just sent for c, or failed, leaves c's setup anything but reused. */
  lemma SendingIsNotReusing(env: Env, t: Target, f: Fuzz, failed: set<string>, c: string, j: nat, s: Step, act: Action)
    requires s.kind.CopyOf? && NextCopy(t, f, c, j, s.id, s.kind.original) && Mid(t, f, failed, c, j) && c !in failed
    requires Decide(f, c, s.kind.original) == Send && (act.SendCopy? || act.FailCopy?) && act.forCase == c
    ensures !SetupOf(FuzzAfter(env, f, s, act), c).Reused?
  {
    SendsOnlyWhenBuilding(t, f, failed, c, j, s.id, s.kind.original);
    PreparingBuilds(t, f, failed, c, j);
  }

  lemma StandingWasReused(t: Target, f: Fuzz, failed: set<string>, c: string, j: nat, s: Step)
    requires s.kind.CopyOf? && NextCopy(t, f, c, j, s.id, s.kind.original) && Mid(t, f, failed, c, j) && c !in failed
    requires Decide(f, c, s.kind.original).StandIn? && j > 0
    ensures SetupOf(f, c).Reused?
  {
    StandsOnlyWhenClean(t, f, failed, c, j, s.id, s.kind.original);
  }

  /** The setup of c is reused after a pass only if every copy before was stood in for. */
  lemma ReusedFromStart(env: Env, w: Work, t: Target, c: string, j: nat, s: Step)
    requires s.kind.CopyOf? && s.kind.forCase == c
    requires NextCopy(t, w.fuzz, c, j, s.id, s.kind.original) && Mid(t, w.fuzz, w.failedSetup, c, j)
    ensures var act := CopyAction(env, w, s, c, s.kind.original);
      SetupOf(FuzzAfter(env, w.fuzz, s, act), c).Reused? && !act.AbortAt? ==>
        !SendsACopy(w.fuzz.layout, act) && (j == 0 || SetupOf(w.fuzz, c).Reused?)
  {
    var act := CopyAction(env, w, s, c, s.kind.original);
    if c !in w.failedSetup {
      if Decide(w.fuzz, c, s.kind.original) == Send {
        if act.SendCopy? || act.FailCopy? {
          SendingIsNotReusing(env, t, w.fuzz, w.failedSetup, c, j, s, act);
        }
      } else if j > 0 && Decide(w.fuzz, c, s.kind.original).StandIn? {
        StandingWasReused(t, w.fuzz, w.failedSetup, c, j, s);
      }
    }
  }

  /** The facts about one pass over a copy, gathered. */
  ghost predicate CopyPass(env: Env, f: Fuzz, b: Block, s: Step, act: Action)
    requires b.InBlock?
  {
    var c, n := b.case_.id, FuzzAfter(env, f, s, act);
    && Touches(f, n, c) && b.j < |CopiesOf(f.layout, c)| && s.id == CopyIds(f.layout, c)[b.j]
    && ActsOnCopy(f.layout, c, act, TargetPassed(f, b.case_))
    && (SetupOf(n, c).Reused? ==> !SendsACopy(f.layout, act) && (b.j == 0 || SetupOf(f, c).Reused?))
  }

  lemma CopyPasses(env: Env, w: Work, v: Verdict, p: Place, ts: Targets)
    requires Inv(w, p, ts) && !Over(w, v) && p.own == [] && p.block.InBlock?
      && p.block.j < |CopiesOf(w.fuzz.layout, p.block.case_.id)|
    requires w.queue[w.idx] == CopiesOf(w.fuzz.layout, p.block.case_.id)[p.block.j] && !Ends(Act(env, w, v))
    requires UniqueCopies(w.fuzz.layout) && BlockUnsent(w.fuzz, p.block)
    ensures CopyPass(env, w.fuzz, p.block, w.queue[w.idx], Act(env, w, v))
  {
    var f, c, j, s, act := w.fuzz, p.block.case_.id, p.block.j, w.queue[w.idx], Act(env, w, v);
    CaseFacts(w, p, ts);
    var tid := TargetOf(f.layout, c);
    var t := ts[tid];
    assert IsCopy(f.layout, t, c, j, s);
    assert TargetOk(f, w.failedSetup, p.block, tid, t);
    CopyActIs(env, w, v, s, c);
    CaseAndCopyPassAlike(f, p.block.case_);
    if GroupOf(f, c).passed {
      CopyActs(env, w, t, c, j, s);
      ReusedFromStart(env, w, t, c, j, s);
    }
  }

  /** How many more copies are skipped once one more is behind the run. */
  lemma OneMoreCounted(sent: set<string>, behind: seq<string>, id: string, isSent: bool)
    requires id !in behind && id !in sent
    ensures CountUnsent(sent + (if isSent then {id} else {}), behind + [id])
      == CountUnsent(sent, behind) + if isSent then 0 else 1
    ensures CountUnsent(sent + (if isSent then {id} else {}), behind) == CountUnsent(sent, behind)
  {
    CountIgnoresOther(sent, behind, id);
    CountOfAppend(sent + (if isSent then {id} else {}), behind, [id]);
    assert [id][..0] == [];
    assert sent + {} == sent;
  }

  lemma SkippedByAct(l: Layout, c: string, f: Fuzz, s: Step, act: Action, passed: bool, skipped: int)
    requires ActsOnCopy(l, c, act, passed) && IsCaseOfTarget(l, c)
    ensures SkippedAfter(skipped, f, s, act) == skipped + if passed && !SendsACopy(l, act) then 1 else 0
    ensures !passed ==> !SendsACopy(l, act)
  {
  }

  /** One copy further: the count follows what was done with it. */
  lemma CopyCounted(env: Env, f: Fuzz, p: Place, s: Step, act: Action, skipped: int)
    requires WellPlaced(f.layout, p) && UniqueCopies(f.layout) && p.block.InBlock? && CopyPass(env, f, p.block, s, act)
    requires BlockUnsent(f, p.block) && skipped == CountUnsent(SentIds(f), Behind(f, p))
    ensures var n, q := FuzzAfter(env, f, s, act), p.(block := InBlock(p.block.case_, p.block.j + 1));
      SkippedAfter(skipped, f, s, act) == CountUnsent(SentIds(n), Behind(n, q))
  {
    hide FuzzAfter, SkippedAfter, TargetPassed, SentIds, Behind, CountUnsent;
    var l, passed := f.layout, TargetPassed(f, p.block.case_);
    ActSends(env, f, s, act);
    BehindOneMore(f, FuzzAfter(env, f, s, act), p);
    NextIsNotBehind(f, p);
    SkippedByAct(l, p.block.case_.id, f, s, act, passed, skipped);
    CountsOn(SentIds(f), Behind(f, p), s.id, SendsACopy(l, act), passed);
  }

  lemma CountsOn(sent: set<string>, behind: seq<string>, id: string, sends: bool, passed: bool)
    requires id !in behind && id !in sent && (sends ==> passed)
    ensures CountUnsent(sent + (if sends then {id} else {}), behind + if passed then [id] else []) ==
            CountUnsent(sent, behind) + if passed && !sends then 1 else 0
  {
    OneMoreCounted(sent, behind, id, sends);
    assert behind + [] == behind;
  }

  lemma BlockFollowsUnsent(env: Env, f: Fuzz, b: Block, s: Step, act: Action)
    requires UniqueCopies(f.layout) && b.InBlock? && CopyPass(env, f, b, s, act) && BlockUnsent(f, b)
    ensures BlockUnsent(FuzzAfter(env, f, s, act), InBlock(b.case_, b.j + 1))
  {
    ActSends(env, f, s, act);
    SentOnlyNext(f, b.case_.id, b.j, b.case_.id, b.j + 1, SentIds(f));
  }

  lemma CopyAccounts(env: Env, w: Work, v: Verdict, p: Place, ts: Targets)
    requires Inv(w, p, ts) && SkipsOk(w, p) && !Over(w, v) && p.own == [] && p.block.InBlock?
      && p.block.j < |CopiesOf(w.fuzz.layout, p.block.case_.id)|
    requires w.queue[w.idx] == CopiesOf(w.fuzz.layout, p.block.case_.id)[p.block.j] && !Ends(Act(env, w, v))
    ensures SkipsOk(WorkAfter(env, w, Act(env, w, v)), NextPlace(w.fuzz.layout, p, Act(env, w, v)))
  {
    var f, l, s, act := w.fuzz, w.fuzz.layout, w.queue[w.idx], Act(env, w, v);
    CopyPasses(env, w, v, p, ts);
    CopyCounted(env, f, p, s, act, w.copiesSkipped);
    BlockFollowsUnsent(env, f, p.block, s, act);
    PendingUnsent(env, f, p, s, act);
  }

  lemma PendingUnsent(env: Env, f: Fuzz, p: Place, s: Step, act: Action)
    requires WellPlaced(f.layout, p) && UniqueCopies(f.layout) && p.block.InBlock? && CopyPass(env, f, p.block, s, act)
    requires forall i :: 0 <= i < |p.cases| ==> NoneSent(SentIds(f), CopyIds(f.layout, p.cases[i].id), 0)
    ensures forall i :: 0 <= i < |p.cases|
              ==> NoneSent(SentIds(FuzzAfter(env, f, s, act)), CopyIds(f.layout, p.cases[i].id), 0)
  {
    ActSends(env, f, s, act);
    forall i | 0 <= i < |p.cases|
        ensures NoneSent(SentIds(FuzzAfter(env, f, s, act)), CopyIds(f.layout, p.cases[i].id), 0) {
      CaseNotPending(f.layout, p, i);
      SentOnlyNext(f, p.block.case_.id, p.block.j, p.cases[i].id, 0, SentIds(f));
    }
  }

  // ---------- The case itself, and the plan's own steps ----------

  lemma CaseAccounts(env: Env, w: Work, v: Verdict, p: Place, ts: Targets)
    requires Inv(w, p, ts) && SkipsOk(w, p) && !Over(w, v) && p.own == [] && p.block.InBlock?
      && p.block.j == |CopiesOf(w.fuzz.layout, p.block.case_.id)|
    requires w.queue[w.idx] == p.block.case_ && !Ends(Act(env, w, v))
    ensures SkipsOk(WorkAfter(env, w, Act(env, w, v)), NextPlace(w.fuzz.layout, p, Act(env, w, v)))
  {
    CasePasses(env, w, v, p, ts);
    CasePassCounted(env, w, p, Act(env, w, v));
  }

  /** The facts about one pass over a case, gathered. */
  ghost predicate CasePass(env: Env, f: Fuzz, s: Step, act: Action) {
    && IsCase(f.layout, s) && Touches(f, FuzzAfter(env, f, s, act), s.id)
    && (if TargetPassed(f, s) then act.HoldCase? || act.JudgeCase? || act.RebuildCase? else act == Ignore)
    && (act.RebuildCase? ==> s.id !in f.stale && SetupOf(f, s.id).Reused?)
  }

  lemma CasePasses(env: Env, w: Work, v: Verdict, p: Place, ts: Targets)
    requires Inv(w, p, ts) && !Over(w, v) && p.own == [] && p.block.InBlock?
      && p.block.j == |CopiesOf(w.fuzz.layout, p.block.case_.id)|
    requires w.queue[w.idx] == p.block.case_ && !Ends(Act(env, w, v))
    ensures CasePass(env, w.fuzz, p.block.case_, Act(env, w, v))
  {
    CaseFacts(w, p, ts);
    var tid := TargetOf(w.fuzz.layout, p.block.case_.id);
    assert TargetOk(w.fuzz, w.failedSetup, p.block, tid, ts[tid]);
    ActOnBlock(env, w, v, p.block.case_);
    CaseTarget(env, w, ts[tid], p.block, p.block.case_, Act(env, w, v));
  }

  lemma CasePassCounted(env: Env, w: Work, p: Place, act: Action)
    requires SkipsOk(w, p) && w.idx < |w.queue| && p.own == [] && p.block.InBlock?
      && p.block.j == |CopiesOf(w.fuzz.layout, p.block.case_.id)|
    requires w.queue[w.idx] == p.block.case_ && CasePass(env, w.fuzz, p.block.case_, act)
    ensures SkipsOk(WorkAfter(env, w, act), NextPlace(w.fuzz.layout, p, act))
  {
    ActSends(env, w.fuzz, p.block.case_, act);
    if act.RebuildCase? {
      RebuildCounted(env, w.fuzz, p, act, w.copiesSkipped);
    } else {
      CaseCounted(env, w.fuzz, p, act, w.copiesSkipped);
    }
  }

  lemma CaseBehind(f: Fuzz, n: Fuzz, p: Place)
    requires Fits(f.layout, p) && p.block.InBlock? && p.block.j == |CopiesOf(f.layout, p.block.case_.id)|
    requires Touches(f, n, p.block.case_.id)
    ensures DoneIds(n, p.done + [p.block.case_]) == Behind(f, p)
    ensures DoneIds(n, p.done) == DoneIds(f, p.done)
  {
    var s := p.block.case_;
    assert CopyIds(f.layout, s.id)[..p.block.j] == CopyIds(f.layout, s.id);
    forall i | 0 <= i < |p.done| ensures TargetPassed(n, p.done[i]) == TargetPassed(f, p.done[i]) {
      PassedSame(f, n, s.id, p.done[i]);
    }
    DoneIdsSame(f, n, p.done);
    PassedSame(f, n, s.id, s);
    assert (p.done + [s])[..|p.done|] == p.done;
  }

  lemma CaseCounted(env: Env, f: Fuzz, p: Place, act: Action, skipped: int)
    requires Fits(f.layout, p) && p.block.InBlock? && p.block.j == |CopiesOf(f.layout, p.block.case_.id)| && p.own == []
    requires skipped == CountUnsent(SentIds(f), Behind(f, p))
    requires act == Ignore || act == HoldCase || act.JudgeCase?
    requires Touches(f, FuzzAfter(env, f, p.block.case_, act), p.block.case_.id)
    ensures var n, q := FuzzAfter(env, f, p.block.case_, act), NextPlace(f.layout, p, act);
      SkippedAfter(skipped, f, p.block.case_, act) == CountUnsent(SentIds(n), Behind(n, q))
  {
    var n := FuzzAfter(env, f, p.block.case_, act);
    ActSends(env, f, p.block.case_, act);
    assert SentIds(n) == SentIds(f);
    CaseBehind(f, n, p);
    BehindAfterCase(n, p, act);
  }

  lemma BehindAfterCase(n: Fuzz, p: Place, act: Action)
    requires Fits(n.layout, p) && p.own == [] && p.block.InBlock? && p.block.j == |CopiesOf(n.layout, p.block.case_.id)|
      && !act.RebuildCase?
    ensures Behind(n, NextPlace(n.layout, p, act)) == DoneIds(n, p.done + [p.block.case_])
  {
    assert NextPlace(n.layout, p, act) == p.(block := NoBlock, done := p.done + [p.block.case_]);
  }

  /** A rebuild takes back the count of every copy of the case: none of them had been sent. */
  lemma RebuildCounted(env: Env, f: Fuzz, p: Place, act: Action, skipped: int)
    requires Fits(f.layout, p) && p.block.InBlock? && p.block.j == |CopiesOf(f.layout, p.block.case_.id)| && p.own == []
    requires skipped == CountUnsent(SentIds(f), Behind(f, p))
    requires act.RebuildCase? && SetupOf(f, p.block.case_.id).Reused? && TargetPassed(f, p.block.case_)
    requires BlockUnsent(f, p.block) && Touches(f, FuzzAfter(env, f, p.block.case_, act), p.block.case_.id)
    ensures var n, q := FuzzAfter(env, f, p.block.case_, act), NextPlace(f.layout, p, act);
      SkippedAfter(skipped, f, p.block.case_, act) == CountUnsent(SentIds(n), Behind(n, q))
  {
    var n, ids := FuzzAfter(env, f, p.block.case_, act), CopyIds(f.layout, p.block.case_.id);
    ActSends(env, f, p.block.case_, act);
    assert SentIds(n) == SentIds(f);
    CaseBehind(f, n, p);
    assert ids[..p.block.j] == ids && ids[..0] == [];
    CountOfAppend(SentIds(f), DoneIds(f, p.done), ids);
    CountNoneSent(SentIds(f), ids);
    assert Behind(n, NextPlace(f.layout, p, act)) == DoneIds(f, p.done);
  }

  lemma OwnAccounts(env: Env, w: Work, v: Verdict, p: Place)
    requires PlaceOk(w, p) && SkipsOk(w, p) && !Over(w, v) && p.own != [] && w.queue[w.idx] == p.own[0]
      && !Ends(Act(env, w, v))
    ensures SkipsOk(WorkAfter(env, w, Act(env, w, v)), NextPlace(w.fuzz.layout, p, Act(env, w, v)))
  {
    var s, act := w.queue[w.idx], Act(env, w, v);
    assert s in p.own;
    ActOnOwn(env, w, v, s);
    ActSends(env, w.fuzz, s, act);
  }
}

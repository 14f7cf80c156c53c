/** A run that passes against its fail list, for every plan that has a case at risk (engine/engine.go). */
module RunAtRisk {
  import opened FuzzState
  import opened FuzzReuse
  import opened RunSpec
  import opened FuzzPlaces
  import opened FuzzTheorems
  import opened RunVerdict
  import opened RunFromStart
  import opened RunExact

  // ---------- What a pass leaves of a target's setup ----------

  /** The case whose setup an entry's pass may change. */
  function CaseOfEntry(s: Step): string {
    match s.kind
    case Own => ""
    case CopyOf(d, _) => d
    case CaseOf(_) => s.id
  }

  lemma PreparingOthers(f: Fuzz, d: string, t: string)
    requires IsCaseOfTarget(f.layout, d) ==> TargetOf(f.layout, d) != t
    ensures GroupAt(Preparing(f, d), t) == GroupAt(f, t)
  {
  }

  /** A pass over a copy or a case of another target changes nothing of this one's setup. */
  lemma OthersLive(env: Env, f: Fuzz, s: Step, act: Action, w: Work, c: string, t: string)
    requires w.fuzz == f && DoesWell(w, c, s, act) && !s.kind.Own?
    requires IsCaseOfTarget(f.layout, CaseOfEntry(s)) ==> TargetOf(f.layout, CaseOfEntry(s)) != t
    ensures GroupAt(FuzzAfter(env, f, s, act), t).live == GroupAt(f, t).live
  {
    hide DoesWell;
    WhichActs(w, c, s, act);
    if s.kind.CopyOf? {
      PreparingOthers(f, s.kind.forCase, t);
      CopyLive(env, f, s, act, s.kind.forCase, t);
    }
  }

  /** The actions of a pass over a copy or a case, and whose they are. */
  lemma WhichActs(w: Work, c: string, s: Step, act: Action)
    requires DoesWell(w, c, s, act) && !s.kind.Own?
    ensures s.kind.CopyOf? ==> ForCase(act, s.kind.forCase)
    ensures s.kind.CaseOf? ==> act == Ignore || act == HoldCase || act.JudgeCase?
  {
  }

  predicate ForCase(act: Action, d: string) {
    match act
    case Ignore | HoldCopy => true
    case RefuseCopy(e) => e == d
    case StandInCopy(_, _, _) => true
    case SendCopy(e, _, _) => e == d
    case FailCopy(e, _, _) => e == d
    case _ => false
  }

  lemma CopyLive(env: Env, f: Fuzz, s: Step, act: Action, d: string, t: string)
    requires ForCase(act, d) && GroupAt(Preparing(f, d), t) == GroupAt(f, t)
      && (IsCaseOfTarget(f.layout, d) ==> TargetOf(f.layout, d) != t)
    ensures GroupAt(FuzzAfter(env, f, s, act), t).live == GroupAt(f, t).live
  {
    hide Preparing;
  }

  /** A pass over one of the plan's own entries changes at most which targets have passed. */
  lemma OwnLive(env: Env, f: Fuzz, s: Step, act: Action, t: string)
    requires IsOwn(f.layout, s)
      && ((act.RunStep? && s.kind.Own?) || (act.JudgeCase? && s.kind.CaseOf?) || act.HoldCase? || act == Ignore)
    requires t in f.layout.targets && !f.layout.targets[t].scope.Shared?
    ensures GroupAt(FuzzAfter(env, f, s, act), t).live == GroupAt(f, t).live
  {
    if act.RunStep? || act.JudgeCase? {
      OwnLeavesGroup(env, f, s, act, t);
    }
  }

  lemma PassedStays(env: Env, f: Fuzz, s: Step, act: Action, t: string)
    requires !Ends(act) && (act.SendCopy? ==> s.id !in f.layout.targets) && GroupAt(f, t).passed
    ensures GroupAt(FuzzAfter(env, f, s, act), t).passed
  {
    PassedOnlyBy(env, f, s, act, t);
  }

  lemma GoodGetsThrough(queue: seq<Step>, c: string, f: Fuzz, s: Step)
    requires s.id in f.layout.targets
    ensures GroupAt(FuzzAfter(Against(queue, c), f, s, RunStep(Good(s))), s.id).passed
  {
    GoodIsGood(f, s);
    assert GetsThrough(Against(queue, c), s, Good(s), Suppressed(s, Good(s)));
  }

  // ---------- One pass ----------

  /** The case at risk: its target's own step is in the plan, and it is the first of its target's cases. */
  ghost predicate Chosen(l: Layout, own: seq<Step>, cases: seq<Step>, c: Step) {
    AtRisk(l, own, c) && c.kind.CaseOf? && c in cases && FirstOfTarget(cases, c)
  }

  lemma OpenedGoing(r: Run, p: Place, ts: Targets, own: seq<Step>, cases: seq<Step>, c: Step)
    requires c.kind.CaseOf? && Going(r, p, ts, own, cases, c)
    ensures Going(r, Opened(p), ts, own, cases, c) && Opened(Opened(p)) == Opened(p)
  {
    OpeningKeeps(r.work, p, ts);
    OpenedIsSame(r.work, p);
    if p.own == [] && p.block.NoBlock? && p.cases != [] {
      assert p.cases[0] in p.cases;
    }
  }

  /** Reports are only added. */
  lemma HeldStays(e: Effects, f: Fuzz, s: Step, act: Action, c: Step)
    requires !Ends(act)
    ensures HeldIn(e.results, c) ==> HeldIn(EffectsAfter(e, f, s, act).results, c)
    ensures act.HoldCase? && s == c ==> HeldIn(EffectsAfter(e, f, s, act).results, c)
  {
    AddedLine(e, f, s, act);
    var n := EffectsAfter(e, f, s, act).results;
    if HeldIn(e.results, c) {
      var i :| 0 <= i < |e.results| && e.results[i].CaseNotSent? && e.results[i].step == c;
      assert n[..|e.results|][i] == n[i];
    }
    if act.HoldCase? && s == c {
      assert n[|e.results|] == CaseNotSent(s, s.id in f.stale);
    }
  }

  /** What stays as it was over a pass that is not about the case's own block. */
  lemma ElsewhereStays(env: Env, r: Run, q: Place, act: Action, c: Step)
    requires !Over(r.work, r.verdict) && c.kind.CaseOf? && Stage(r, q, c) && Fits(r.work.fuzz.layout, q)
      && (q.own != [] || q.block.InBlock?)
    requires !Ends(act) && !act.RebuildCase? && (q.own == [] ==> q.block.case_ != c)
      && (q.own != [] ==> q.block.NoBlock?)
    requires act == Act(env, r.work, r.verdict)
    requires c in q.cases ==> GroupAt(FuzzAfter(env, r.work.fuzz, r.work.queue[r.work.idx], act), c.kind.target).live
                              == GroupAt(r.work.fuzz, c.kind.target).live
    ensures Stage(PassOnce(env, r), NextPlace(r.work.fuzz.layout, q, act), c)
  {
    HeldStays(r.effects, r.work.fuzz, r.work.queue[r.work.idx], act, c);
  }

  /** The plan's own step at the front gets through. */
  lemma OwnEntry(queue: seq<Step>, r: Run, q: Place, ts: Targets, own: seq<Step>, cases: seq<Step>, c: Step)
    requires Chosen(r.work.fuzz.layout, own, cases, c) && Going(r, q, ts, own, cases, c) && q.own != []
    requires !Over(r.work, r.verdict) && r.work.queue == queue && queue[r.work.idx] == q.own[0]
    requires var act := Act(Against(queue, c.id), r.work, r.verdict);
      DoesWell(r.work, c.id, q.own[0], act) && !Ends(act) && !act.RebuildCase?
    ensures var env := Against(queue, c.id);
      var n, q' := PassOnce(env, r), NextPlace(r.work.fuzz.layout, q, Act(env, r.work, r.verdict));
      OwnPassed(n.work.fuzz, q', own) && Stage(n, q', c)
  {
    hide DoesWell, Act, Inv, Unharmed, FirstOfTarget;
    var env := Against(queue, c.id);
    var f, s, act := r.work.fuzz, q.own[0], Act(env, r.work, r.verdict);
    OwnFacts(r, q, ts, s);
    OwnActs(r.work, c.id, s, act);
    OwnLive(env, f, s, act, c.kind.target);
    ElsewhereStays(env, r, q, act, c);
    NextOwnPassed(queue, c.id, f, q, s, act, own);
  }

  lemma OwnFacts(r: Run, q: Place, ts: Targets, s: Step)
    requires Inv(r.work, q, ts) && q.own != [] && s == q.own[0]
    ensures IsOwn(r.work.fuzz.layout, s) && Fits(r.work.fuzz.layout, q) && q.block.NoBlock? && !s.kind.CopyOf?
  {
    assert s in q.own;
  }

  lemma OwnActs(w: Work, c: string, s: Step, act: Action)
    requires DoesWell(w, c, s, act) && !s.kind.CopyOf?
    ensures (s.kind.Own? ==> act == RunStep(Good(s)))
      && (s.kind.CaseOf? ==> act == Ignore || act == HoldCase || act == JudgeCase(Good(s)))
  {
  }

  lemma NextOwnPassed(queue: seq<Step>, c: string, f: Fuzz, q: Place, s: Step, act: Action, own: seq<Step>)
    requires OwnPassed(f, q, own) && Fits(f.layout, q) && q.own != [] && s == q.own[0] && !Ends(act) && !act.SendCopy?
    requires s.kind.Own? ==> act == RunStep(Good(s))
    ensures OwnPassed(FuzzAfter(Against(queue, c), f, s, act), NextPlace(f.layout, q, act), own)
  {
    var env := Against(queue, c);
    var n, at := FuzzAfter(env, f, s, act), |own| - |q.own|;
    assert own[at] == s;
    assert own[at..][1..] == own[at + 1..];
    forall k | 0 <= k < at + 1 && own[k].kind.Own? && own[k].id in n.layout.targets
        ensures GroupAt(n, own[k].id).passed {
      if k < at {
        PassedStays(env, f, s, act, own[k].id);
      } else {
        GoodGetsThrough(queue, c, f, s);
      }
    }
  }

  /** Nothing of the plan's own is left, so what had passed has still passed. */
  lemma OwnStaysPassed(env: Env, f: Fuzz, q: Place, s: Step, act: Action, own: seq<Step>)
    requires OwnPassed(f, q, own) && q.own == [] && q.block.InBlock? && Fits(f.layout, q) && !Ends(act)
    requires act.SendCopy? ==> s.id !in f.layout.targets
    ensures OwnPassed(FuzzAfter(env, f, s, act), NextPlace(f.layout, q, act), own)
  {
    forall k | 0 <= k < |own| && own[k].kind.Own? && own[k].id in f.layout.targets
        ensures GroupAt(FuzzAfter(env, f, s, act), own[k].id).passed {
      PassedStays(env, f, s, act, own[k].id);
    }
  }

  /** A block of another case before the chosen one's is of another target. */
  lemma OtherTarget(l: Layout, q: Place, cases: seq<Step>, c: Step)
    requires WellPlaced(l, q) && Cases(q) == cases && q.block.InBlock? && c.kind.CaseOf? && FirstOfTarget(cases, c)
      && c in q.cases
    ensures IsCaseOfTarget(l, q.block.case_.id) && TargetOf(l, q.block.case_.id) != c.kind.target
  {
    var k :| 0 <= k < |q.cases| && q.cases[k] == c;
    var i := |q.done|;
    assert cases[i] == q.block.case_ && cases[i + 1 + k] == c;
    assert cases[i] in cases;
  }

  lemma ChosenOnce(l: Layout, q: Place, c: Step)
    requires WellPlaced(l, q) && q.block.InBlock? && q.block.case_ == c
    ensures c !in q.cases && c !in q.done
  {
    var ids := FuzzPlaces.Ids(Cases(q));
    assert ids[|q.done|] == c.id;
    forall i | 0 <= i < |q.cases| ensures q.cases[i].id != c.id {
      assert ids[|q.done| + 1 + i] == q.cases[i].id;
    }
    forall i | 0 <= i < |q.done| ensures q.done[i].id != c.id {
      assert ids[i] == q.done[i].id;
    }
  }

  /** An entry of the block of another case. */
  lemma OtherEntry(queue: seq<Step>, r: Run, q: Place, ts: Targets, own: seq<Step>, cases: seq<Step>, c: Step)
    requires Chosen(r.work.fuzz.layout, own, cases, c) && Going(r, q, ts, own, cases, c) && q.own == []
      && q.block.InBlock? && q.block.case_ != c
    requires !Over(r.work, r.verdict) && r.work.queue == queue && CaseOfEntry(queue[r.work.idx]) == q.block.case_.id
      && !queue[r.work.idx].kind.Own?
    requires var act := Act(Against(queue, c.id), r.work, r.verdict);
      DoesWell(r.work, c.id, queue[r.work.idx], act) && !Ends(act) && !act.RebuildCase?
    ensures var env := Against(queue, c.id);
      Stage(PassOnce(env, r), NextPlace(r.work.fuzz.layout, q, Act(env, r.work, r.verdict)), c)
  {
    hide DoesWell, Act, Unharmed, FirstOfTarget, AtRisk, OwnPassed;
    var env := Against(queue, c.id);
    var f, s, act := r.work.fuzz, queue[r.work.idx], Act(env, r.work, r.verdict);
    if c in q.cases {
      OtherTarget(f.layout, q, cases, c);
      OthersLive(env, f, s, act, r.work, c.id, c.kind.target);
    }
    ElsewhereStays(env, r, q, act, c);
  }

  lemma HasPassed(l: Layout, f: Fuzz, q: Place, own: seq<Step>, c: Step)
    requires f.layout == l && AtRisk(l, own, c) && OwnPassed(f, q, own) && q.own == []
    ensures GroupOf(f, c.id).passed
  {
    var s :| s in own && s.kind.Own? && s.id == c.kind.target;
    var k :| 0 <= k < |own| && own[k] == s;
  }

  /** A copy of the chosen case's setup: it is not sent, or fails. */
  lemma ChosenCopy(queue: seq<Step>, r: Run, q: Place, ts: Targets, own: seq<Step>, cases: seq<Step>, c: Step)
    requires Chosen(r.work.fuzz.layout, own, cases, c) && Going(r, q, ts, own, cases, c) && q.own == []
      && q.block.InBlock? && q.block.case_ == c
    requires q.block.j < |CopiesOf(r.work.fuzz.layout, c.id)| && !Over(r.work, r.verdict) && r.work.queue == queue
    requires IsCopyFor(queue[r.work.idx], c.id)
    requires var act := Act(Against(queue, c.id), r.work, r.verdict);
      DoesWell(r.work, c.id, queue[r.work.idx], act) && !Ends(act) && !act.RebuildCase?
    ensures var env := Against(queue, c.id);
      Stage(PassOnce(env, r), NextPlace(r.work.fuzz.layout, q, Act(env, r.work, r.verdict)), c)
  {
    hide Act, Unharmed, FirstOfTarget, AtRisk, OwnPassed, GroupsOk, PendingOk, LaidOut;
    var env := Against(queue, c.id);
    var f, s, act := r.work.fuzz, queue[r.work.idx], Act(env, r.work, r.verdict);
    HasPassed(f.layout, f, q, own, c);
    ChosenOnce(f.layout, q, c);
    IsItsCase(f.layout, own, c);
    assert TargetPassed(f, s);
    FailsNow(r.work, c, q.block.j, s, act);
    HeldStays(r.effects, f, s, act, c);
  }

  lemma IsItsCase(l: Layout, own: seq<Step>, c: Step)
    requires AtRisk(l, own, c)
    ensures IsCase(l, c)
  {
  }

  lemma FailsNow(w: Work, c: Step, j: nat, s: Step, act: Action)
    requires IsCase(w.fuzz.layout, c) && IsCopyFor(s, c.id) && DoesWell(w, c.id, s, act) && TargetPassed(w.fuzz, s)
    requires if j == 0 then GroupAt(w.fuzz, c.kind.target).live == map[] else c.id in w.failedSetup
    ensures c.id in FailedAfter(w.failedSetup, act)
  {
  }

  /** The chosen case itself: its setup failed, so it is not sent, and reported so. */
  lemma ChosenItself(queue: seq<Step>, r: Run, q: Place, ts: Targets, own: seq<Step>, cases: seq<Step>, c: Step)
    requires Chosen(r.work.fuzz.layout, own, cases, c) && Going(r, q, ts, own, cases, c) && q.own == []
      && q.block.InBlock? && q.block.case_ == c
    requires q.block.j == |CopiesOf(r.work.fuzz.layout, c.id)| && !Over(r.work, r.verdict) && r.work.queue == queue
      && queue[r.work.idx] == c
    requires var act := Act(Against(queue, c.id), r.work, r.verdict);
      DoesWell(r.work, c.id, c, act) && !Ends(act) && !act.RebuildCase?
    ensures var env := Against(queue, c.id);
      Stage(PassOnce(env, r), NextPlace(r.work.fuzz.layout, q, Act(env, r.work, r.verdict)), c)
  {
    hide Act, Unharmed, FirstOfTarget, OwnPassed, GroupsOk, PendingOk, LaidOut;
    var env := Against(queue, c.id);
    var f, act := r.work.fuzz, Act(env, r.work, r.verdict);
    HasPassed(f.layout, f, q, own, c);
    ChosenOnce(f.layout, q, c);
    assert TargetPassed(f, c);
    assert act == HoldCase;
    HeldStays(r.effects, f, c, act, c);
  }

  // ---------- The whole run ----------

  ghost predicate GoesWell(queue: seq<Step>, r: Run, p: Place, ts: Targets, own: seq<Step>, cases: seq<Step>, c: Step) {
    && Chosen(r.work.fuzz.layout, own, cases, c) && Going(r, p, ts, own, cases, c) && r.work.queue == queue
    && forall s :: s in queue ==> s.inGraph
  }

  /** A pass over an entry of a block. */
  lemma BlockEntry(queue: seq<Step>, r: Run, q: Place, ts: Targets, own: seq<Step>, cases: seq<Step>, c: Step)
    requires GoesWell(queue, r, q, ts, own, cases, c) && q.own == [] && q.block.InBlock? && !Over(r.work, r.verdict)
    requires queue[r.work.idx] == Entry(r.work.fuzz.layout, q)
    requires var act := Act(Against(queue, c.id), r.work, r.verdict);
      DoesWell(r.work, c.id, queue[r.work.idx], act) && !Ends(act) && !act.RebuildCase?
    ensures var env := Against(queue, c.id);
      var n, q' := PassOnce(env, r), NextPlace(r.work.fuzz.layout, q, Act(env, r.work, r.verdict));
      OwnPassed(n.work.fuzz, q', own) && Stage(n, q', c)
  {
    hide DoesWell, Act, Unharmed, FirstOfTarget, AtRisk, OwnPassed, Stage, GroupsOk, PendingOk, LaidOut;
    var env := Against(queue, c.id);
    var f, s, act := r.work.fuzz, queue[r.work.idx], Act(env, r.work, r.verdict);
    BlockFacts(r.work, q, ts);
    SentIsCopy(r.work, c.id, s, act);
    OwnStaysPassed(env, f, q, s, act, own);
    if q.block.case_ != c {
      OtherEntry(queue, r, q, ts, own, cases, c);
    } else if q.block.j < |CopiesOf(f.layout, c.id)| {
      ChosenCopy(queue, r, q, ts, own, cases, c);
    } else {
      ChosenItself(queue, r, q, ts, own, cases, c);
    }
  }

  lemma SentIsCopy(w: Work, c: string, s: Step, act: Action)
    requires DoesWell(w, c, s, act)
    ensures act.SendCopy? ==> s.kind.CopyOf?
  {
  }

  /** An entry of a block is a copy for its case, or the case. */
  lemma BlockFacts(w: Work, q: Place, ts: Targets)
    requires Inv(w, q, ts) && q.own == [] && q.block.InBlock? && w.idx < |w.queue|
      && w.queue[w.idx] == Entry(w.fuzz.layout, q)
    ensures var s, b := w.queue[w.idx], q.block;
      && Fits(w.fuzz.layout, q) && CaseOfEntry(s) == b.case_.id
      && (b.j < |CopiesOf(w.fuzz.layout, b.case_.id)| ==> IsCopyFor(s, b.case_.id) && s.id !in w.fuzz.layout.targets)
      && (b.j >= |CopiesOf(w.fuzz.layout, b.case_.id)| ==> s == b.case_ && s.kind.CaseOf?)
  {
    hide GroupsOk, PendingOk, ValidTarget;
    CaseFacts(w, q, ts);
    var l, c := w.fuzz.layout, q.block.case_.id;
    if q.block.j < |CopiesOf(l, c)| {
      assert IsCopy(l, ts[TargetOf(l, c)], c, q.block.j, w.queue[w.idx]);
    }
  }

  lemma PassGoesWell(queue: seq<Step>, r: Run, p: Place, ts: Targets, own: seq<Step>, cases: seq<Step>, c: Step)
    requires GoesWell(queue, r, p, ts, own, cases, c) && !Over(r.work, r.verdict)
    ensures var env := Against(queue, c.id);
      && Fits(r.work.fuzz.layout, Opened(p)) && (Opened(p).own != [] || Opened(p).block.InBlock?)
      && GoesWell(queue, PassOnce(env, r), NextPlace(r.work.fuzz.layout, Opened(p), Act(env, r.work, r.verdict)), ts,
        own, cases, c)
  {
    hide DoesWell, Act, FirstOfTarget, AtRisk, OwnPassed, Stage, Inv, BeforeActing, VerdictAfter;
    var env, q := Against(queue, c.id), Opened(p);
    OpenedGoing(r, p, ts, own, cases, c);
    InvIsPlaced(r.work, q, ts);
    EntryIsNext(r.work, q);
    var s, act := queue[r.work.idx], Act(env, r.work, r.verdict);
    assert s in queue;
    PassDoesWell(queue, c.id, r.work, r.verdict);
    StaysUnharmed(queue, c.id, r.work, r.verdict, act);
    PassKeeps(env, r.work, r.verdict, p, ts);
    NextCases(r.work.fuzz.layout, q, act);
    if q.own != [] {
      OwnEntry(queue, r, q, ts, own, cases, c);
    } else {
      BlockEntry(queue, r, q, ts, own, cases, c);
    }
  }

  lemma InvIsPlaced(w: Work, q: Place, ts: Targets)
    requires Inv(w, q, ts)
    ensures PlaceOk(w, q) && WellPlaced(w.fuzz.layout, q)
  {
  }

  lemma {:induction false} RunGoesWell(queue: seq<Step>, r: Run, p: Place, ts: Targets, own: seq<Step>,
                                       cases: seq<Step>, c: Step)
    requires GoesWell(queue, r, p, ts, own, cases, c)
    ensures var n := RunOn(Against(queue, c.id), r); Unharmed(n.verdict) && HeldIn(n.effects.results, c)
    decreases |Rebuildable(r.work.fuzz)|, |r.work.queue| - r.work.idx
  {
    hide Act, FirstOfTarget, AtRisk, NextPlace, PassOnce;
    var env := Against(queue, c.id);
    if Over(r.work, r.verdict) {
      AllDone(r, p, ts, cases, c);
    } else {
      PassGoesWell(queue, r, p, ts, own, cases, c);
      PassOnceProgresses(env, r);
      RunGoesWell(queue, PassOnce(env, r), NextPlace(r.work.fuzz.layout, Opened(p), Act(env, r.work, r.verdict)), ts,
        own, cases, c);
    }
  }

  /** At the end of the queue every case is done. */
  lemma AllDone(r: Run, p: Place, ts: Targets, cases: seq<Step>, c: Step)
    requires Inv(r.work, p, ts) && r.work.idx >= |r.work.queue| && Cases(p) == cases && c in cases
    ensures c in p.done
  {
    hide GroupsOk, PendingOk, LaidOut;
    var l := r.work.fuzz.layout;
    assert Left(l, p) == [];
    NoBlocks(l, p.cases);
    assert p.done + [] + [] == p.done;
  }

  lemma NoBlocks(l: Layout, cases: seq<Step>)
    ensures Blocks(l, cases) == [] ==> cases == []
  {
  }

  // ---------- Which case ----------

  lemma {:induction false} FirstAtRisk(l: Layout, own: seq<Step>, cases: seq<Step>, n: nat) returns (i: nat)
    requires n <= |cases| && exists k :: 0 <= k < n && AtRisk(l, own, cases[k])
    ensures i < n && AtRisk(l, own, cases[i]) && forall k :: 0 <= k < i ==> !AtRisk(l, own, cases[k])
  {
    if exists k :: 0 <= k < n - 1 && AtRisk(l, own, cases[k]) {
      i := FirstAtRisk(l, own, cases, n - 1);
    } else {
      i := n - 1;
    }
  }

  /** The first case at risk is the first of its target: the cases of a target all copy as many steps. */
  lemma FirstIsChosen(l: Layout, ts: Targets, own: seq<Step>, cases: seq<Step>, i: nat)
    requires Planned(l, ts, own, cases) && i < |cases| && AtRisk(l, own, cases[i])
      && forall k :: 0 <= k < i ==> !AtRisk(l, own, cases[k])
    ensures Chosen(l, own, cases, cases[i])
  {
    var c, ids := cases[i], FuzzPlaces.Ids(cases);
    forall j, k | 0 <= j < k < |cases| && cases[k] == c
        ensures cases[j].kind.CaseOf? && cases[j].kind.target != c.kind.target {
      assert ids[k] == c.id && ids[i] == c.id;
      assert k == i;
      assert cases[j] in cases;
      assert !AtRisk(l, own, cases[j]);
      assert FitsTarget(l, ts[l.caseTarget[cases[j].id]], cases[j].id) && FitsTarget(l, ts[l.caseTarget[c.id]], c.id);
    }
  }

  lemma StartGoesWell(l: Layout, ts: Targets, own: seq<Step>, cases: seq<Step>, c: Step)
    requires Planned(l, ts, own, cases) && AllInGraph(l, own, cases) && c.kind.CaseOf? && Chosen(l, own, cases, c)
    ensures GoesWell(own + Blocks(l, cases), StartOf(l, own, cases), StartPlace(own, cases), ts, own, cases, c)
  {
    hide Inv, Chosen, Planned, Blocks;
    StartHolds(l, ts, own, cases);
    StartIsPlaced(l, ts, own, cases);
    assert own[0..] == own;
    StartStage(l, own, cases, c);
  }

  lemma StartStage(l: Layout, own: seq<Step>, cases: seq<Step>, c: Step)
    requires c.kind.CaseOf?
    ensures Stage(StartOf(l, own, cases), StartPlace(own, cases), c)
  {
  }

  lemma HeldFails(l: Layout, own: seq<Step>, results: seq<Report>, c: Step)
    requires AtRisk(l, own, c) && HeldIn(results, c)
    ensures UnsentFails(l, results)
  {
    var i :| 0 <= i < |results| && results[i].CaseNotSent? && results[i].step == c;
    assert FailingFinding(l, results[i]);
  }

  lemma FinishUnharmed(env: Env, v: Verdict)
    requires Unharmed(v) && env.verification.outcome.Passed?
    ensures Unharmed(Finish(env, v))
  {
  }

  /** Against some API a plan with a case at risk passes although it should not. */
  lemma RiskPasses(l: Layout, ts: Targets, own: seq<Step>, cases: seq<Step>)
    requires Planned(l, ts, own, cases) && AllInGraph(l, own, cases) && SomeAtRisk(l, own, cases)
    ensures exists env :: !TellsAll(env, l, own, cases)
  {
    var i := FirstAtRisk(l, own, cases, |cases|);
    FirstIsChosen(l, ts, own, cases, i);
    var c := cases[i];
    var queue := own + Blocks(l, cases);
    var env := Against(queue, c.id);
    StartGoesWell(l, ts, own, cases, c);
    hide Act, Planned, AllInGraph, Inv;
    RunGoesWell(queue, StartOf(l, own, cases), StartPlace(own, cases), ts, own, cases, c);
    var n := RunOn(env, StartOf(l, own, cases));
    FinishUnharmed(env, n.verdict);
    HeldFails(l, own, n.effects.results, c);
    ShouldNot(env, l, Finish(env, n.verdict), n.effects.results);
    assert !TellsAll(env, l, own, cases);
  }

  lemma ShouldNot(env: Env, l: Layout, v: Verdict, results: seq<Report>)
    requires UnsentFails(l, results)
    ensures !ShouldPass(env, l, v, results)
  {
  }

  /** Every run of a plan passes exactly when it should, whatever the API answers, exactly when no case of the
      plan is at risk: none that has copies of a setup to send is of a target with a finding for cases that
      were not sent in its fail list. */
  lemma TellsAllIff(l: Layout, ts: Targets, own: seq<Step>, cases: seq<Step>)
    requires Planned(l, ts, own, cases) && AllInGraph(l, own, cases)
    ensures (forall env :: TellsAll(env, l, own, cases)) <==> !SomeAtRisk(l, own, cases)
  {
    hide TellsAll, Planned, AllInGraph;
    if SomeAtRisk(l, own, cases) {
      RiskPasses(l, ts, own, cases);
    } else {
      forall env ensures TellsAll(env, l, own, cases) {
        NoRiskTellsAll(env, l, ts, own, cases);
      }
    }
  }
}

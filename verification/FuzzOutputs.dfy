/** The outputs a fuzz case reads from its setup (engine/fuzz.go, engine/engine.go): those of the build it
    stands on, whether its own copies were sent or an earlier case's stood in for them. */
module FuzzOutputs {
  import opened FuzzState
  import opened FuzzReuse
  import opened RunSpec
  import opened FuzzPlaces
  import opened FuzzRuns
  import opened FuzzTheorems
  import opened FuzzAccounts
  import opened RunFromStart

  type Store = map<string, map<string, string>>

  /** A copy of setup step s that got through with this answer leaves outputs. */
  predicate Gives(s: Step, a: Answer) {
    !s.expectsFailure && a.outputs.Outputs?
  }

  /** What the copy sent at e answered is found under id. */
  ghost predicate FoundAs(e: Event, s: Step, id: string, outs: Store) {
    e.CopySent? && Gives(s, e.answer) ==> id in outs && outs[id] == e.answer.outputs.values
  }

  /** What b's first n copies, sent from q on, answered is found under the first n of ids. */
  ghost predicate FoundFrom(l: Layout, h: seq<Event>, q: nat, b: string, ids: seq<string>, n: nat, outs: Store) {
    && n <= |ids| && n <= |CopiesOf(l, b)| && q + n <= |h|
    && forall j :: 0 <= j < n ==> FoundAs(h[q + j], CopiesOf(l, b)[j], ids[j], outs)
  }

  /** b is a case of target id. */
  ghost predicate CaseOfIt(l: Layout, id: string, t: Target, b: string) {
    IsCaseOfTarget(l, b) && TargetOf(l, b) == id && FitsTarget(l, t, b)
  }

  /** A clean target's live build has its outputs under its own IDs. */
  ghost predicate LiveFound(l: Layout, id: string, t: Target, g: Group, h: seq<Event>, outs: Store, q: nat, b: string) {
    && LiveFrom(t, g.live, h, q, b) && CaseOfIt(l, id, t, b)
    && FoundFrom(l, h, q, b, t.ids[b], Size(t), outs)
  }

  ghost predicate RestFound(l: Layout, id: string, t: Target, g: Group, h: seq<Event>, outs: Store) {
    g.clean ==> exists q: nat, b :: LiveFound(l, id, t, g, h, outs, q, b)
  }

  /** The live build stands in for the first j copies of c, which have its outputs. */
  ghost predicate StandingFound(l: Layout, id: string, t: Target, g: Group, h: seq<Event>, c: string, j: nat,
                                outs: Store, q: nat, b: string) {
    && Standing(t, g, h, c, j, q, b) && LiveFound(l, id, t, g, h, outs, q, b)
    && c in t.ids && FoundFrom(l, h, q, b, t.ids[c], j, outs)
  }

  ghost predicate BuildingFound(l: Layout, t: Target, g: Group, h: seq<Event>, c: string, j: nat, outs: Store) {
    Building(t, g, h, c, j) && FoundFrom(l, h, |h| - j, c, t.ids[c], j, outs)
  }

  /** Where the outputs are once j entries of the block of case c are done. */
  ghost predicate MidFound(t: Target, f: Fuzz, failed: set<string>, c: string, j: nat, outs: Store)
    requires IsCaseOfTarget(f.layout, c)
  {
    var l, id, g, h := f.layout, TargetOf(f.layout, c), GroupOf(f, c), History(f, TargetOf(f.layout, c));
    if c in failed || j == 0 then RestFound(l, id, t, g, h, outs)
    else
      || BuildingFound(l, t, g, h, c, j, outs)
      || exists q: nat, b :: StandingFound(l, id, t, g, h, c, j, outs, q, b)
  }

  ghost predicate TargetFound(f: Fuzz, failed: set<string>, b: Block, id: string, t: Target, outs: Store) {
    if UnderWay(f, b, id) then MidFound(t, f, failed, b.case_.id, b.j, outs)
    else RestFound(f.layout, id, t, GroupAt(f, id), History(f, id), outs)
  }

  /** Every target's outputs are where its next case will read them. */
  ghost predicate Found(w: Work, outs: Store, b: Block, ts: Targets) {
    forall id :: id in ts && id in w.fuzz.layout.targets && !w.fuzz.layout.targets[id].scope.Shared?
      ==> TargetFound(w.fuzz, w.failedSetup, b, id, ts[id], outs)
  }

  // ---------- What is written elsewhere ----------

  ghost predicate SameAt(id: string, outs: Store, outs': Store) {
    (id in outs <==> id in outs') && (id in outs ==> outs'[id] == outs[id])
  }

  /** Nothing has been written under a copy of a case of target id. */
  ghost predicate Untouched(l: Layout, id: string, outs: Store, outs': Store) {
    forall b, j :: IsCaseOfTarget(l, b) && TargetOf(l, b) == id && 0 <= j < |CopyIds(l, b)|
      ==> SameAt(CopyIds(l, b)[j], outs, outs')
  }

  lemma FoundStays(l: Layout, id: string, t: Target, h: seq<Event>, q: nat, b: string, n: nat, outs: Store,
                   outs': Store)
    requires CaseOfIt(l, id, t, b) && FoundFrom(l, h, q, b, t.ids[b], n, outs) && Untouched(l, id, outs, outs')
    ensures FoundFrom(l, h, q, b, t.ids[b], n, outs')
  {
    forall j | 0 <= j < n ensures FoundAs(h[q + j], CopiesOf(l, b)[j], t.ids[b][j], outs') {
      assert IsCopy(l, t, b, j, CopiesOf(l, b)[j]);
      assert SameAt(CopyIds(l, b)[j], outs, outs');
    }
  }

  lemma RestStays(l: Layout, id: string, t: Target, g: Group, g': Group, h: seq<Event>, outs: Store, outs': Store)
    requires RestFound(l, id, t, g, h, outs) && Untouched(l, id, outs, outs')
    requires g'.live == g.live && (g'.clean ==> g.clean)
    ensures RestFound(l, id, t, g', h, outs')
  {
    if g'.clean {
      var q: nat, b :| LiveFound(l, id, t, g, h, outs, q, b);
      FoundStays(l, id, t, h, q, b, Size(t), outs, outs');
      assert LiveFound(l, id, t, g', h, outs', q, b);
    }
  }

  // ---------- A copy ----------

  lemma MoreHistory(l: Layout, h: seq<Event>, e: Event, q: nat, b: string, ids: seq<string>, n: nat, outs: Store)
    requires FoundFrom(l, h, q, b, ids, n, outs)
    ensures FoundFrom(l, h + [e], q, b, ids, n, outs)
  {
  }

  /** The live copy's outputs are now the stood-in copy's. */
  lemma StoodFound(l: Layout, id: string, t: Target, g: Group, h: seq<Event>, c: string, j: nat, outs: Store, q: nat,
                   b: string)
    requires ValidTarget(t) && CaseOfIt(l, id, t, c) && UniqueCopies(l) && j < Size(t)
    requires StandingFound(l, id, t, g, h, c, j, outs, q, b)
    ensures var live := t.ids[b][j];
      StandingFound(l, id, t, g, h + [CopyStood(t.ids[c][j], live, c)], c, j + 1,
        if live in outs then outs[t.ids[c][j] := outs[live]] else outs, q, b)
  {
    hide Standing, LiveFrom, ValidTarget;
    var live, copy := t.ids[b][j], t.ids[c][j];
    var e, outs' := CopyStood(copy, live, c), if live in outs then outs[copy := outs[live]] else outs;
    StandsInAgain(t, g, h, c, j, q, b);
    LiveFromExtends(t, g.live, h, q, b, e);
    assert FoundAs(h[q + j], CopiesOf(l, b)[j], live, outs);
    forall i | 0 <= i < Size(t) ensures FoundAs((h + [e])[q + i], CopiesOf(l, b)[i], t.ids[b][i], outs') {
      assert FoundAs(h[q + i], CopiesOf(l, b)[i], t.ids[b][i], outs);
      CopiesApart(l, id, t, b, i, c, j);
    }
    forall i | 0 <= i < j + 1 ensures FoundAs((h + [e])[q + i], CopiesOf(l, b)[i], t.ids[c][i], outs') {
      if i < j {
        assert FoundAs(h[q + i], CopiesOf(l, b)[i], t.ids[c][i], outs);
        CopiesApart(l, id, t, c, i, c, j);
      }
    }
  }

  lemma CopiesApart(l: Layout, id: string, t: Target, b: string, i: nat, c: string, j: nat)
    requires CaseOfIt(l, id, t, b) && CaseOfIt(l, id, t, c) && UniqueCopies(l) && i < Size(t) && j < Size(t)
    ensures t.ids[b][i] == t.ids[c][j] ==> b == c && i == j
  {
    assert IsCopy(l, t, b, i, CopiesOf(l, b)[i]) && IsCopy(l, t, c, j, CopiesOf(l, c)[j]);
    assert CopyIds(l, b)[i] == t.ids[b][i] && CopyIds(l, c)[j] == t.ids[c][j];
  }

  /** A build goes on: what its next copy answered is found under its ID. */
  lemma SentFound(l: Layout, id: string, t: Target, g: Group, h: seq<Event>, c: string, j: nat, outs: Store,
                  outs': Store, a: Answer)
    requires ValidTarget(t) && CaseOfIt(l, id, t, c) && UniqueCopies(l) && j < Size(t)
    requires Building(t, g, h, c, j) && FoundFrom(l, h, |h| - j, c, t.ids[c], j, outs)
    requires outs' == if Gives(CopiesOf(l, c)[j], a) then outs[t.ids[c][j] := a.outputs.values] else outs
    ensures BuildingFound(l, t, g.(live := g.live[t.originals[j] := t.ids[c][j]]),
      h + [CopySent(t.ids[c][j], t.originals[j], c, a)], c, j + 1, outs')
  {
    BuildsNext(t, g, h, c, j, a);
    hide Building, ValidTarget, UniqueCopies, FoundFrom;
    MoreFound(l, id, t, h, c, j, outs, outs', a);
  }

  lemma MoreFound(l: Layout, id: string, t: Target, h: seq<Event>, c: string, j: nat, outs: Store, outs': Store,
                  a: Answer)
    requires CaseOfIt(l, id, t, c) && UniqueCopies(l) && j < Size(t) && j <= |h|
    requires FoundFrom(l, h, |h| - j, c, t.ids[c], j, outs)
    requires outs' == if Gives(CopiesOf(l, c)[j], a) then outs[t.ids[c][j] := a.outputs.values] else outs
    ensures FoundFrom(l, h + [CopySent(t.ids[c][j], t.originals[j], c, a)], |h| - j, c, t.ids[c], j + 1, outs')
  {
    hide UniqueCopies;
    var n, q := h + [CopySent(t.ids[c][j], t.originals[j], c, a)], |h| - j;
    forall i | 0 <= i < j + 1 ensures FoundAs(n[q + i], CopiesOf(l, c)[i], t.ids[c][i], outs') {
      if i < j {
        assert FoundAs(h[q + i], CopiesOf(l, c)[i], t.ids[c][i], outs);
        CopiesApart(l, id, t, c, i, c, j);
      }
    }
  }

  /** The outputs after a pass that took act on step s. */
  function Outs(e: Effects, f: Fuzz, s: Step, act: Action): Store {
    EffectsAfter(e, f, s, act).outputs
  }

  lemma SentWrites(e: Effects, f: Fuzz, s: Step, c: string, o: string, a: Answer)
    requires !CopyFails(s, a)
    ensures Outs(e, f, s, SendCopy(c, o, a)) == if Gives(s, a) then e.outputs[s.id := a.outputs.values] else e.outputs
  {
  }

  /** What a case that follows reads, once this copy of the setup is behind. */
  lemma CopyFound(env: Env, w: Work, e: Effects, t: Target, c: string, j: nat, s: Step)
    requires s.kind.CopyOf? && s.kind.forCase == c && IsCaseOfTarget(w.fuzz.layout, c) && s.id !in w.fuzz.layout.targets
    requires CaseOfIt(w.fuzz.layout, TargetOf(w.fuzz.layout, c), t, c) && UniqueCopies(w.fuzz.layout)
    requires NextCopy(t, w.fuzz, c, j, s.id, s.kind.original) && s == CopiesOf(w.fuzz.layout, c)[j]
    requires Mid(t, w.fuzz, w.failedSetup, c, j) && MidFound(t, w.fuzz, w.failedSetup, c, j, e.outputs)
    ensures var act := CopyAction(env, w, s, c, s.kind.original);
      !act.AbortAt? ==> MidFound(t, FuzzAfter(env, w.fuzz, s, act), FailedAfter(w.failedSetup, act), c, j + 1,
        Outs(e, w.fuzz, s, act))
  {
    hide Mid, MidFound, FuzzAfter, Outs, UniqueCopies;
    var f, failed, o := w.fuzz, w.failedSetup, s.kind.original;
    if c in failed {
      HeldFound(env, t, f, failed, e, c, j, s);
    } else if Decide(f, c, o).StandIn? {
      StandFound(env, t, f, failed, e, c, j, s);
    } else if Decide(f, c, o).DoNotSend? {
      RefusedFound(env, t, f, failed, e, c, j, s);
    } else {
      TriedFound(env, t, f, failed, e, c, j, s, env.answer(w.idx));
    }
  }

  lemma HeldFound(env: Env, t: Target, f: Fuzz, failed: set<string>, e: Effects, c: string, j: nat, s: Step)
    requires IsCaseOfTarget(f.layout, c) && c in failed && MidFound(t, f, failed, c, j, e.outputs)
    ensures MidFound(t, FuzzAfter(env, f, s, HoldCopy), failed, c, j + 1, Outs(e, f, s, HoldCopy))
  {
  }

  lemma RefusedFound(env: Env, t: Target, f: Fuzz, failed: set<string>, e: Effects, c: string, j: nat, s: Step)
    requires IsCaseOfTarget(f.layout, c) && c !in failed && Mid(t, f, failed, c, j)
      && MidFound(t, f, failed, c, j, e.outputs)
    requires GroupOf(f, c).stopped
    ensures MidFound(t, FuzzAfter(env, f, s, RefuseCopy(c)), failed + {c}, c, j + 1, Outs(e, f, s, RefuseCopy(c)))
  {
    assert j == 0;
    var l, id := f.layout, TargetOf(f.layout, c);
    assert RestFound(l, id, t, GroupOf(f, c), History(f, id), e.outputs);
  }

  lemma StandFound(env: Env, t: Target, f: Fuzz, failed: set<string>, e: Effects, c: string, j: nat, s: Step)
    requires s.kind.CopyOf? && IsCaseOfTarget(f.layout, c) && c !in failed
    requires CaseOfIt(f.layout, TargetOf(f.layout, c), t, c) && UniqueCopies(f.layout)
    requires NextCopy(t, f, c, j, s.id, s.kind.original) && Decide(f, c, s.kind.original).StandIn?
    requires Mid(t, f, failed, c, j) && MidFound(t, f, failed, c, j, e.outputs)
    ensures var act := StandInCopy(c, s.kind.original, Decide(f, c, s.kind.original).live);
      MidFound(t, FuzzAfter(env, f, s, act), failed, c, j + 1, Outs(e, f, s, act))
  {
    hide Mid, MidFound, UniqueCopies, Standing, CaseOfIt, StandingFound, HasStanding;
    var l, id, o := f.layout, TargetOf(f.layout, c), s.kind.original;
    var g, h := GroupOf(f, c), History(f, id);
    StandsOnlyWhenClean(t, f, failed, c, j, s.id, o);
    var q, b := StandsOn(t, f, failed, c, j, e.outputs);
    LiveIs(l, id, t, g, h, c, j, e.outputs, q, b);
    StoodFound(l, id, t, g, h, c, j, e.outputs, q, b);
    StandsAfter(t, f, failed, c, j, s.id, t.ids[b][j], Outs(e, f, s, StandInCopy(c, o, t.ids[b][j])), q, b);
  }

  lemma LiveIs(l: Layout, id: string, t: Target, g: Group, h: seq<Event>, c: string, j: nat, outs: Store, q: nat,
               b: string)
    requires ValidTarget(t) && j < Size(t) && StandingFound(l, id, t, g, h, c, j, outs, q, b)
    ensures b in t.ids && j < |t.ids[b]| && t.originals[j] in g.live && g.live[t.originals[j]] == t.ids[b][j]
  {
    LiveMapAt(t.originals, t.ids[b], Size(t), j);
  }

  lemma StandsAfter(t: Target, f: Fuzz, failed: set<string>, c: string, j: nat, copy: string, live: string,
                    outs: Store, q: nat, b: string)
    requires IsCaseOfTarget(f.layout, c) && c !in failed
    requires StandingFound(f.layout, TargetOf(f.layout, c), t, GroupOf(f, c),
      History(f, TargetOf(f.layout, c)) + [CopyStood(copy, live, c)], c, j + 1, outs, q, b)
    ensures MidFound(t, AfterStandIn(f, c, copy, live), failed, c, j + 1, outs)
  {
    hide StandingFound;
    var n := AfterStandIn(f, c, copy, live);
    assert History(n, TargetOf(f.layout, c)) == History(f, TargetOf(f.layout, c)) + [CopyStood(copy, live, c)];
    assert GroupOf(n, c) == GroupOf(f, c);
  }

  lemma StandsOn(t: Target, f: Fuzz, failed: set<string>, c: string, j: nat, outs: Store) returns (q: nat, b: string)
    requires IsCaseOfTarget(f.layout, c) && c !in failed && c in t.ids && ValidTarget(t)
    requires Mid(t, f, failed, c, j) && MidFound(t, f, failed, c, j, outs)
    requires !GroupOf(f, c).stopped && GroupOf(f, c).clean && (j == 0 || HasStanding(t, f, c, j))
    requires CaseOfIt(f.layout, TargetOf(f.layout, c), t, c)
    ensures var l, id, g, h := f.layout, TargetOf(f.layout, c), GroupOf(f, c), History(f, TargetOf(f.layout, c));
      StandingFound(l, id, t, g, h, c, j, outs, q, b)
  {
    var l, id, g, h := f.layout, TargetOf(f.layout, c), GroupOf(f, c), History(f, TargetOf(f.layout, c));
    if j == 0 {
      q, b :| LiveFound(l, id, t, g, h, outs, q, b);
      assert Standing(t, g, h, c, 0, q, b);
    } else {
      q, b :| StandingFound(l, id, t, g, h, c, j, outs, q, b);
    }
  }

  lemma TriedFound(env: Env, t: Target, f: Fuzz, failed: set<string>, e: Effects, c: string, j: nat, s: Step, a: Answer)
    requires s.kind.CopyOf? && s.kind.forCase == c && s.id !in f.layout.targets && c !in failed
    requires IsCaseOfTarget(f.layout, c) && CaseOfIt(f.layout, TargetOf(f.layout, c), t, c) && UniqueCopies(f.layout)
    requires NextCopy(t, f, c, j, s.id, s.kind.original) && Decide(f, c, s.kind.original) == Send
    requires s == CopiesOf(f.layout, c)[j] && Mid(t, f, failed, c, j) && MidFound(t, f, failed, c, j, e.outputs)
    ensures var act := SendCopy(c, s.kind.original, a);
      !CopyFails(s, a) ==> MidFound(t, FuzzAfter(env, f, s, act), failed, c, j + 1, Outs(e, f, s, act))
    ensures var act := FailCopy(c, s.kind.original, a);
      MidFound(t, FuzzAfter(env, f, s, act), failed + {c}, c, j + 1, Outs(e, f, s, act))
  {
    hide Mid, MidFound, CaseOfIt, UniqueCopies, FuzzAfter, CopyFails, Outs, IsBuilding, NextCopy, Decide;
    SendsOnlyWhenBuilding(t, f, failed, c, j, s.id, s.kind.original);
    FailsFound(env, t, f, failed, e, c, j, s, a);
    if !CopyFails(s, a) {
      BuildsFound(env, t, f, failed, e, c, j, s, a);
    }
  }

  /** A failed build leaves nothing live. */
  lemma FailsFound(env: Env, t: Target, f: Fuzz, failed: set<string>, e: Effects, c: string, j: nat, s: Step, a: Answer)
    requires IsCaseOfTarget(f.layout, c) && s.kind.CopyOf?
    ensures var act := FailCopy(c, s.kind.original, a);
      MidFound(t, FuzzAfter(env, f, s, act), failed + {c}, c, j + 1, Outs(e, f, s, act))
  {
    hide LiveFound, Outs;
    var n := AfterCopyFailed(Preparing(f, c), c, s.id);
    assert !GroupOf(n, c).clean;
  }

  lemma BuildsFound(env: Env, t: Target, f: Fuzz, failed: set<string>, e: Effects, c: string, j: nat, s: Step,
                    a: Answer)
    requires s.kind.CopyOf? && s.kind.forCase == c && s.id !in f.layout.targets && c !in failed && !CopyFails(s, a)
    requires IsCaseOfTarget(f.layout, c) && CaseOfIt(f.layout, TargetOf(f.layout, c), t, c) && UniqueCopies(f.layout)
    requires NextCopy(t, f, c, j, s.id, s.kind.original) && s == CopiesOf(f.layout, c)[j]
    requires Mid(t, f, failed, c, j) && MidFound(t, f, failed, c, j, e.outputs)
    requires !GroupOf(f, c).stopped && (j == 0 || IsBuilding(t, f, c, j))
    ensures var act := SendCopy(c, s.kind.original, a);
      MidFound(t, FuzzAfter(env, f, s, act), failed, c, j + 1, Outs(e, f, s, act))
  {
    hide Mid, CaseOfIt, UniqueCopies, BuildingFound, CopyFails, Gives, MidFound;
    var l, id, o := f.layout, TargetOf(f.layout, c), s.kind.original;
    var p, outs' := Preparing(f, c), Outs(e, f, s, SendCopy(c, o, a));
    PreparingBuilds(t, f, failed, c, j);
    var g, h := GroupOf(p, c), History(p, id);
    BuiltSoFar(t, f, failed, c, j, e.outputs);
    SentWrites(e, f, s, c, o, a);
    SentFound(l, id, t, g, h, c, j, e.outputs, outs', a);
    BuildsAfter(env, t, p, failed, c, j, s, a, outs');
  }

  lemma BuiltSoFar(t: Target, f: Fuzz, failed: set<string>, c: string, j: nat, outs: Store)
    requires IsCaseOfTarget(f.layout, c) && c !in failed && MidFound(t, f, failed, c, j, outs)
    requires (j == 0 || IsBuilding(t, f, c, j)) && CaseOfIt(f.layout, TargetOf(f.layout, c), t, c)
    ensures var h := History(Preparing(f, c), TargetOf(f.layout, c));
      j <= |h| && FoundFrom(f.layout, h, |h| - j, c, t.ids[c], j, outs)
  {
    hide AtRest, Tracked;
  }

  lemma BuildsAfter(env: Env, t: Target, p: Fuzz, failed: set<string>, c: string, j: nat, s: Step, a: Answer,
                    outs: Store)
    requires IsCaseOfTarget(p.layout, c) && c !in failed && s.id !in p.layout.targets
    requires NextCopy(t, p, c, j, s.id, if s.kind.CopyOf? then s.kind.original else "") && s.kind.CopyOf?
    requires BuildingFound(p.layout, t, GroupOf(p, c).(live := GroupOf(p, c).live[t.originals[j] := t.ids[c][j]]),
      History(p, TargetOf(p.layout, c)) + [CopySent(t.ids[c][j], t.originals[j], c, a)], c, j + 1, outs)
    ensures MidFound(t, Passing(env, AfterCopySent(p, c, s.id, s.kind.original, a), s, a, StepFailed(s, a)), failed, c,
      j + 1, outs)
  {
    hide BuildingFound, StepFailed, GetsThrough;
    var n := AfterCopySent(p, c, s.id, s.kind.original, a);
    assert History(n, TargetOf(p.layout, c))
      == History(p, TargetOf(p.layout, c)) + [CopySent(t.ids[c][j], t.originals[j], c, a)];
    assert Passing(env, n, s, a, StepFailed(s, a)) == n;
  }

  // ---------- The case itself ----------

  /** Case c, about to be sent, stands on the build b made from q on: its own, just made, or one nothing has
      changed since, whose copies stood in for its own. */
  ghost predicate StandsOnBuild(t: Target, h: seq<Event>, c: string, q: nat, b: string) {
    && Built(t, h, q, b)
    && ((b == c && q + Size(t) == |h|)
        || (q + 2 * Size(t) <= |h| && StoodFrom(t, h, |h| - Size(t), c, b, Size(t))
            && HarmlessSince(t, h, q + Size(t), |h|)))
  }

  /** The outputs of each copy of c's setup are what the copy of that step on c's build answered. */
  ghost predicate ReadsItsSetup(l: Layout, t: Target, h: seq<Event>, c: string, outs: Store) {
    exists q: nat, b :: StandsOnBuild(t, h, c, q, b) && c in t.ids && FoundFrom(l, h, q, b, t.ids[c], Size(t), outs)
  }

  lemma CaseReads(t: Target, f: Fuzz, failed: set<string>, c: string, outs: Store)
    requires ValidTarget(t) && IsCaseOfTarget(f.layout, c) && c !in failed
    requires CaseOfIt(f.layout, TargetOf(f.layout, c), t, c)
    requires Mid(t, f, failed, c, Size(t)) && MidFound(t, f, failed, c, Size(t), outs)
    ensures ReadsItsSetup(f.layout, t, History(f, TargetOf(f.layout, c)), c, outs)
  {
    hide AtRest, Mid, BuildingFound, StandingFound, ReadsItsSetup, LiveFound, ValidTarget;
    var l, id, g, h := f.layout, TargetOf(f.layout, c), GroupOf(f, c), History(f, TargetOf(f.layout, c));
    if Size(t) == 0 {
      NothingToRead(l, t, h, c, outs);
    } else if BuildingFound(l, t, g, h, c, Size(t), outs) {
      OwnBuildReads(l, t, g, h, c, outs);
    } else {
      var q: nat, b :| StandingFound(l, id, t, g, h, c, Size(t), outs, q, b);
      StandingReads(l, id, t, g, h, c, outs, q, b);
    }
  }

  lemma NothingToRead(l: Layout, t: Target, h: seq<Event>, c: string, outs: Store)
    requires Size(t) == 0 && FitsTarget(l, t, c)
    ensures ReadsItsSetup(l, t, h, c, outs)
  {
    assert StandsOnBuild(t, h, c, |h|, c);
  }

  lemma OwnBuildReads(l: Layout, t: Target, g: Group, h: seq<Event>, c: string, outs: Store)
    requires BuildingFound(l, t, g, h, c, Size(t), outs) && FitsTarget(l, t, c)
    ensures ReadsItsSetup(l, t, h, c, outs)
  {
    hide Tracked;
    assert StandsOnBuild(t, h, c, |h| - Size(t), c);
  }

  lemma StandingReads(l: Layout, id: string, t: Target, g: Group, h: seq<Event>, c: string, outs: Store, q: nat,
                      b: string)
    requires StandingFound(l, id, t, g, h, c, Size(t), outs, q, b)
    ensures ReadsItsSetup(l, t, h, c, outs)
  {
    hide AtRest;
    assert StandsOnBuild(t, h, c, q, b);
  }

  /** The answer to a case leaves the build it stood on live, or nothing. */
  lemma JudgedFound(t: Target, f: Fuzz, failed: set<string>, c: string, a: Answer, outs: Store, outs': Store)
    requires ValidTarget(t) && IsCaseOfTarget(f.layout, c) && c !in failed
    requires CaseOfIt(f.layout, TargetOf(f.layout, c), t, c) && InfoOf(f.layout, c).readOnly == t.readOnly
    requires Mid(t, f, failed, c, Size(t)) && MidFound(t, f, failed, c, Size(t), outs)
    requires Untouched(f.layout, TargetOf(f.layout, c), outs, outs')
    ensures var n, id := AfterJudging(AfterAsking(f, c, a), c, a), TargetOf(f.layout, c);
      RestFound(f.layout, id, t, GroupOf(n, c), History(n, id), outs')
  {
    hide AtRest, Tracked;
    var l, id, g, h := f.layout, TargetOf(f.layout, c), GroupOf(f, c), History(f, TargetOf(f.layout, c));
    var g' := g.(failures := 0, building := "", clean := LeavesSetup(t.readOnly, a));
    var e := CaseAsked(c, a);
    if LeavesSetup(t.readOnly, a) {
      var q, b := LiveAfter(l, id, t, f, failed, c, outs);
      FoundStays(l, id, t, h, q, b, Size(t), outs, outs');
      MoreHistory(l, h, e, q, b, t.ids[b], Size(t), outs');
      assert Harmless(t.readOnly, e);
      assert LiveFrom(t, g'.live, h + [e], q, b) by {
        assert Built(t, h + [e], q, b);
      }
      assert LiveFound(l, id, t, g', h + [e], outs', q, b);
    }
  }

  lemma LiveAfter(l: Layout, id: string, t: Target, f: Fuzz, failed: set<string>, c: string, outs: Store)
      returns (q: nat, b: string)
    requires ValidTarget(t) && IsCaseOfTarget(f.layout, c) && c !in failed && l == f.layout && id == TargetOf(l, c)
    requires CaseOfIt(l, id, t, c) && Mid(t, f, failed, c, Size(t)) && MidFound(t, f, failed, c, Size(t), outs)
    ensures LiveFound(l, id, t, GroupOf(f, c), History(f, id), outs, q, b)
  {
    var g, h := GroupOf(f, c), History(f, TargetOf(f.layout, c));
    if Size(t) == 0 {
      q, b := |h|, c;
      assert g.live == map[];
    } else if BuildingFound(l, t, g, h, c, Size(t), outs) {
      q, b := |h| - Size(t), c;
    } else {
      q, b :| StandingFound(l, id, t, g, h, c, Size(t), outs, q, b);
    }
  }

  /** What a pass over the case leaves for the next one. */
  lemma CaseFound(env: Env, w: Work, e: Effects, t: Target, s: Step)
    requires s.kind.CaseOf? && IsCase(w.fuzz.layout, s) && ValidTarget(t) && UniqueCopies(w.fuzz.layout)
    requires CaseOfIt(w.fuzz.layout, TargetOf(w.fuzz.layout, s.id), t, s.id)
      && InfoOf(w.fuzz.layout, s.id).readOnly == t.readOnly
    requires Mid(t, w.fuzz, w.failedSetup, s.id, Size(t))
      && MidFound(t, w.fuzz, w.failedSetup, s.id, Size(t), e.outputs)
    requires forall d :: s.id !in CopyIds(w.fuzz.layout, d)
    ensures var act := CaseAction(env, w, s);
      !act.AbortAt? ==> TargetFound(FuzzAfter(env, w.fuzz, s, act), w.failedSetup,
        if act.RebuildCase? then InBlock(s, 0) else NoBlock, TargetOf(w.fuzz.layout, s.id), t, Outs(e, w.fuzz, s, act))
  {
    hide MidFound, Mid, RestFound, CaseOfIt, ValidTarget, FuzzAfter, NeedsRebuild, UniqueCopies;
    var f, failed, a := w.fuzz, w.failedSetup, env.answer(w.idx);
    if s.id in failed {
      HeldCaseFound(env, f, failed, e, t, s);
    } else if !(a.error && a.interrupted) && NeedsRebuild(f, s.id, a) {
      RebuiltFound(env, f, failed, e, t, s, a);
    } else if !(a.error && a.interrupted) {
      JudgedCaseFound(env, f, failed, e, t, s, a);
    }
  }

  lemma HeldCaseFound(env: Env, f: Fuzz, failed: set<string>, e: Effects, t: Target, s: Step)
    requires IsCase(f.layout, s) && s.id in failed && MidFound(t, f, failed, s.id, Size(t), e.outputs)
    ensures TargetFound(FuzzAfter(env, f, s, HoldCase), failed, NoBlock, TargetOf(f.layout, s.id), t,
      Outs(e, f, s, HoldCase))
  {
    hide RestFound;
  }

  lemma RebuiltFound(env: Env, f: Fuzz, failed: set<string>, e: Effects, t: Target, s: Step, a: Answer)
    requires IsCase(f.layout, s)
    ensures TargetFound(FuzzAfter(env, f, s, RebuildCase(a)), failed, InBlock(s, 0), TargetOf(f.layout, s.id), t,
      Outs(e, f, s, RebuildCase(a)))
  {
    var n, id := FuzzAfter(env, f, s, RebuildCase(a)), TargetOf(f.layout, s.id);
    assert !GroupOf(n, s.id).clean && GroupAt(n, id) == GroupOf(n, s.id);
    hide LiveFound;
    assert RestFound(f.layout, id, t, GroupAt(n, id), History(n, id), Outs(e, f, s, RebuildCase(a)));
  }

  lemma JudgedCaseFound(env: Env, f: Fuzz, failed: set<string>, e: Effects, t: Target, s: Step, a: Answer)
    requires s.kind.CaseOf? && IsCase(f.layout, s) && ValidTarget(t) && s.id !in failed
    requires CaseOfIt(f.layout, TargetOf(f.layout, s.id), t, s.id) && InfoOf(f.layout, s.id).readOnly == t.readOnly
    requires Mid(t, f, failed, s.id, Size(t)) && MidFound(t, f, failed, s.id, Size(t), e.outputs)
    requires forall d :: s.id !in CopyIds(f.layout, d)
    ensures TargetFound(FuzzAfter(env, f, s, JudgeCase(a)), failed, NoBlock, TargetOf(f.layout, s.id), t,
      Outs(e, f, s, JudgeCase(a)))
  {
    hide MidFound, Mid, RestFound, CaseOfIt, ValidTarget, Outs, CopyIds;
    var id := TargetOf(f.layout, s.id);
    WritesItsOwn(e, f, s, JudgeCase(a));
    OwnIdIsApart(f.layout, id, e.outputs, Outs(e, f, s, JudgeCase(a)), s.id);
    JudgedFound(t, f, failed, s.id, a, e.outputs, Outs(e, f, s, JudgeCase(a)));
  }

  /** What is written under an ID that is no copy's leaves the copies' outputs. */
  lemma OwnIdIsApart(l: Layout, id: string, outs: Store, outs': Store, key: string)
    requires forall k :: k != key ==> SameAt(k, outs, outs')
    requires forall d :: key !in CopyIds(l, d)
    ensures Untouched(l, id, outs, outs')
  {
    forall b, j | 0 <= j < |CopyIds(l, b)| ensures SameAt(CopyIds(l, b)[j], outs, outs') {
      assert CopyIds(l, b)[j] in CopyIds(l, b);
    }
  }

  // ---------- A pass ----------

  /** No copy of a setup step has the ID of a step of the plan, or of a case. */
  ghost predicate CopiesHaveTheirOwn(l: Layout, p: Place) {
    && UniqueCopies(l)
    && (forall s, d :: s in p.own ==> s.id !in CopyIds(l, d))
    && (forall c, d :: c in l.caseTarget ==> c !in CopyIds(l, d))
  }

  /** The invariant of a run: setups, and where their outputs are. */
  ghost predicate Stored(w: Work, outs: Store, p: Place, ts: Targets) {
    Inv(w, p, ts) && CopiesHaveTheirOwn(w.fuzz.layout, p) && Found(w, outs, p.block, ts)
  }

  /** A pass that touches one case's copies leaves other targets' outputs. */
  lemma OtherTargetsStay(l: Layout, id: string, other: string, outs: Store, outs': Store, b: string, j: nat)
    requires UniqueCopies(l) && IsCaseOfTarget(l, b) && TargetOf(l, b) == id && id != other && j < |CopyIds(l, b)|
    requires forall k :: k != CopyIds(l, b)[j] ==> SameAt(k, outs, outs')
    ensures Untouched(l, other, outs, outs')
  {
  }

  lemma WritesItsOwn(e: Effects, f: Fuzz, s: Step, act: Action)
    ensures forall k :: k != s.id ==> SameAt(k, e.outputs, Outs(e, f, s, act))
  {
  }

  lemma OtherFound(f: Fuzz, n: Fuzz, failed: set<string>, failed': set<string>, b: Block, b': Block, id: string,
                   t: Target, outs: Store, outs': Store)
    requires !UnderWay(f, b, id) && !UnderWay(n, b', id) && n.layout == f.layout
    requires TargetFound(f, failed, b, id, t, outs) && Untouched(f.layout, id, outs, outs')
    requires History(n, id) == History(f, id) && GroupAt(n, id).live == GroupAt(f, id).live
    requires GroupAt(n, id).clean == GroupAt(f, id).clean
    ensures TargetFound(n, failed', b', id, t, outs')
  {
    RestStays(f.layout, id, t, GroupAt(f, id), GroupAt(n, id), History(f, id), outs, outs');
  }

  /** A pass over an entry of the plan leaves every target's outputs. */
  lemma OwnPassFound(env: Env, r: Run, p: Place, ts: Targets)
    requires Stored(r.work, r.effects.outputs, p, ts) && !Over(r.work, r.verdict)
    requires p.own != [] && r.work.queue[r.work.idx] == p.own[0]
    requires !Ends(Act(env, r.work, r.verdict))
    ensures Found(PassOnce(env, r).work, PassOnce(env, r).effects.outputs, NoBlock, ts)
  {
    hide Inv, LaidOut, RestFound;
    var w, e, s, act := r.work, r.effects, r.work.queue[r.work.idx], Act(env, r.work, r.verdict);
    var f, outs' := w.fuzz, Outs(e, w.fuzz, s, act);
    var n := FuzzAfter(env, f, s, act);
    OwnIsOwn(w, p, ts);
    ActOnOwn(env, w, r.verdict, s);
    WritesItsOwn(e, f, s, act);
    forall id | id in ts && id in n.layout.targets && !n.layout.targets[id].scope.Shared?
        ensures TargetFound(n, FailedAfter(w.failedSetup, act), NoBlock, id, ts[id], outs') {
      OwnIdIsApart(f.layout, id, e.outputs, outs', s.id);
      if act.RunStep? || act.JudgeCase? {
        OwnLeavesGroup(env, f, s, act, id);
      }
      OtherFound(f, n, w.failedSetup, FailedAfter(w.failedSetup, act), p.block, NoBlock, id, ts[id], e.outputs, outs');
    }
  }

  lemma OwnIsOwn(w: Work, p: Place, ts: Targets)
    requires Inv(w, p, ts) && p.own != []
    ensures IsOwn(w.fuzz.layout, p.own[0]) && p.block.NoBlock?
  {
    assert p.own[0] in p.own;
  }

  /** Targets the case under way is not of. */
  lemma RestFollows(f: Fuzz, n: Fuzz, failed: set<string>, failed': set<string>, b: Block, b': Block, ts: Targets,
                    outs: Store, outs': Store)
    requires b.InBlock? && (b'.InBlock? ==> b'.case_ == b.case_) && Touches(f, n, b.case_.id)
    requires forall id :: id in ts && id in f.layout.targets && !f.layout.targets[id].scope.Shared? ==>
               TargetFound(f, failed, b, id, ts[id], outs)
    requires forall id :: id != TargetOf(f.layout, b.case_.id) ==> Untouched(f.layout, id, outs, outs')
    requires var id := TargetOf(f.layout, b.case_.id); id in ts && TargetFound(n, failed', b', id, ts[id], outs')
    ensures forall id :: id in ts && id in n.layout.targets && !n.layout.targets[id].scope.Shared? ==>
              TargetFound(n, failed', b', id, ts[id], outs')
  {
    forall id | id in ts && id in n.layout.targets && !n.layout.targets[id].scope.Shared?
        ensures TargetFound(n, failed', b', id, ts[id], outs') {
      if id != TargetOf(f.layout, b.case_.id) {
        OthersUntouched(f, n, b.case_.id, id);
        OtherFound(f, n, failed, failed', b, b', id, ts[id], outs, outs');
      }
    }
  }

  /** What is known of the case under way, and of what a pass over one of its entries does. */
  ghost predicate AtCase(env: Env, r: Run, p: Place, ts: Targets) {
    p.block.InBlock? && r.work.idx < |r.work.queue| &&
    var w, c, s, l := r.work, p.block.case_.id, r.work.queue[r.work.idx], r.work.fuzz.layout;
    && IsCase(l, p.block.case_) && TargetOf(l, c) in ts
    && ValidTarget(ts[TargetOf(l, c)]) && CaseOfIt(l, TargetOf(l, c), ts[TargetOf(l, c)], c)
    && ts[TargetOf(l, c)].readOnly == InfoOf(l, c).readOnly
    && Touches(w.fuzz, FuzzAfter(env, w.fuzz, s, Act(env, w, r.verdict)), c)
    && (TargetPassed(w.fuzz, s) <==> UnderWay(w.fuzz, p.block, TargetOf(l, c)))
    && TargetOk(w.fuzz, w.failedSetup, p.block, TargetOf(l, c), ts[TargetOf(l, c)])
  }

  /** Where the outputs of the case's own target are after the pass. */
  lemma CaseTargetFound(env: Env, r: Run, p: Place, ts: Targets, b': Block)
    requires AtCase(env, r, p, ts) && (b'.InBlock? ==> b'.case_ == p.block.case_)
    requires var w, c, s, act := r.work, p.block.case_.id, r.work.queue[r.work.idx], Act(env, r.work, r.verdict);
      var id, n := TargetOf(w.fuzz.layout, c), FuzzAfter(env, w.fuzz, s, act);
      && TargetFound(w.fuzz, w.failedSetup, p.block, id, ts[id], r.effects.outputs)
      && ((act == Ignore && !TargetPassed(w.fuzz, s))
          || (TargetPassed(w.fuzz, s) && b'.InBlock?
              && MidFound(ts[id], n, FailedAfter(w.failedSetup, act), c, b'.j, Outs(r.effects, w.fuzz, s, act)))
          || (b'.NoBlock? && act != Ignore && RestFound(w.fuzz.layout, id, ts[id], GroupAt(n, id), History(n, id),
                Outs(r.effects, w.fuzz, s, act))))
    ensures var w, s, act := r.work, r.work.queue[r.work.idx], Act(env, r.work, r.verdict);
      var id, n := TargetOf(w.fuzz.layout, p.block.case_.id), FuzzAfter(env, w.fuzz, s, act);
      TargetFound(n, FailedAfter(w.failedSetup, act), b', id, ts[id], Outs(r.effects, w.fuzz, s, act))
  {
    hide RestFound, MidFound, ValidTarget, CaseOfIt, TargetOk, Act;
  }

  /** A pass over an entry of the case's block leaves the outputs of the targets it is not of. */
  lemma BlockPassFound(env: Env, r: Run, p: Place, ts: Targets, b': Block)
    requires Stored(r.work, r.effects.outputs, p, ts) && !Over(r.work, r.verdict) && AtCase(env, r, p, ts)
      && (b'.InBlock? ==> b'.case_ == p.block.case_)
    requires var l, c, s := r.work.fuzz.layout, p.block.case_.id, r.work.queue[r.work.idx];
      s.id == c || exists j :: 0 <= j < |CopyIds(l, c)| && CopyIds(l, c)[j] == s.id
    requires var w, s, act := r.work, r.work.queue[r.work.idx], Act(env, r.work, r.verdict);
      var id, n := TargetOf(w.fuzz.layout, p.block.case_.id), FuzzAfter(env, w.fuzz, s, act);
      TargetFound(n, FailedAfter(w.failedSetup, act), b', id, ts[id], Outs(r.effects, w.fuzz, s, act))
    ensures Found(PassOnce(env, r).work, PassOnce(env, r).effects.outputs, b', ts)
  {
    hide Inv, TargetFound, ValidTarget, CaseOfIt, TargetOk, Act, FuzzAfter, UniqueCopies;
    var w, e, s, act := r.work, r.effects, r.work.queue[r.work.idx], Act(env, r.work, r.verdict);
    var f, c, outs' := w.fuzz, p.block.case_.id, Outs(e, w.fuzz, s, act);
    var id := TargetOf(f.layout, c);
    WritesItsOwn(e, f, s, act);
    forall other | other != id ensures Untouched(f.layout, other, e.outputs, outs') {
      if s.id == c {
        OwnIdIsApart(f.layout, other, e.outputs, outs', c);
      } else {
        var j :| 0 <= j < |CopyIds(f.layout, c)| && CopyIds(f.layout, c)[j] == s.id;
        OtherTargetsStay(f.layout, id, other, e.outputs, outs', c, j);
      }
    }
    RestFollows(f, FuzzAfter(env, f, s, act), w.failedSetup, FailedAfter(w.failedSetup, act), p.block, b', ts,
      e.outputs, outs');
  }

  /** A pass over a copy of the case under way. */
  lemma CopyPassFound(env: Env, r: Run, p: Place, ts: Targets)
    requires Stored(r.work, r.effects.outputs, p, ts) && !Over(r.work, r.verdict) && p.own == [] && p.block.InBlock?
    requires p.block.j < |CopiesOf(r.work.fuzz.layout, p.block.case_.id)|
    requires r.work.queue[r.work.idx] == CopiesOf(r.work.fuzz.layout, p.block.case_.id)[p.block.j]
    requires !Ends(Act(env, r.work, r.verdict))
    ensures Found(PassOnce(env, r).work, PassOnce(env, r).effects.outputs, InBlock(p.block.case_, p.block.j + 1), ts)
  {
    hide Inv, ValidTarget, CaseOfIt, Act, FuzzAfter, MidFound, Mid, Touches, UniqueCopies, Found, NextCopy, PassOnce,
      TargetOk, TargetFound, RestFound, CopyAction, AtCase;
    CopyEntry(env, r, p, ts);
    UnderWayFound(env, r, p, ts);
    CopyCaseFound(env, r, p, ts);
    CaseTargetFound(env, r, p, ts, InBlock(p.block.case_, p.block.j + 1));
    CopyIdAt(r.work.fuzz.layout, p.block.case_.id, p.block.j);
    BlockPassFound(env, r, p, ts, InBlock(p.block.case_, p.block.j + 1));
  }

  lemma CopyIdAt(l: Layout, c: string, j: nat)
    requires j < |CopiesOf(l, c)|
    ensures |CopyIds(l, c)| == |CopiesOf(l, c)| && CopyIds(l, c)[j] == CopiesOf(l, c)[j].id
  {
  }

  /** What Found says of the target of the case under way. */
  lemma UnderWayFound(env: Env, r: Run, p: Place, ts: Targets)
    requires Found(r.work, r.effects.outputs, p.block, ts) && AtCase(env, r, p, ts)
    ensures var id := TargetOf(r.work.fuzz.layout, p.block.case_.id);
      TargetFound(r.work.fuzz, r.work.failedSetup, p.block, id, ts[id], r.effects.outputs)
  {
    hide TargetFound, TargetOk, ValidTarget, CaseOfIt, Touches, FuzzAfter, Act;
  }

  lemma CopyCaseFound(env: Env, r: Run, p: Place, ts: Targets)
    requires AtCase(env, r, p, ts) && UniqueCopies(r.work.fuzz.layout) && p.block.InBlock?
    requires p.block.j < |CopiesOf(r.work.fuzz.layout, p.block.case_.id)|
    requires r.work.queue[r.work.idx] == CopiesOf(r.work.fuzz.layout, p.block.case_.id)[p.block.j]
    requires var w, c, s := r.work, p.block.case_.id, r.work.queue[r.work.idx];
      var id := TargetOf(w.fuzz.layout, c);
      && s.kind.CopyOf? && s.kind.forCase == c && s.id !in w.fuzz.layout.targets
      && NextCopy(ts[id], w.fuzz, c, p.block.j, s.id, s.kind.original)
      && (TargetPassed(w.fuzz, s) ==> Mid(ts[id], w.fuzz, w.failedSetup, c, p.block.j))
      && TargetFound(w.fuzz, w.failedSetup, p.block, id, ts[id], r.effects.outputs)
    ensures var w, c, s, act := r.work, p.block.case_.id, r.work.queue[r.work.idx], Act(env, r.work, r.verdict);
      TargetPassed(w.fuzz, s) && act == CopyAction(env, w, s, c, s.kind.original) && !act.AbortAt? ==>
        MidFound(ts[TargetOf(w.fuzz.layout, c)], FuzzAfter(env, w.fuzz, s, act), FailedAfter(w.failedSetup, act), c,
          p.block.j + 1, Outs(r.effects, w.fuzz, s, act))
  {
    hide ValidTarget, CaseOfIt, Act, FuzzAfter, MidFound, Mid, Touches, UniqueCopies, NextCopy, TargetOk, RestFound,
      CopyAction, Outs;
    var w, c, s, act := r.work, p.block.case_.id, r.work.queue[r.work.idx], Act(env, r.work, r.verdict);
    if TargetPassed(w.fuzz, s) && act == CopyAction(env, w, s, c, s.kind.original) && !act.AbortAt? {
      CopyFound(env, w, r.effects, ts[TargetOf(w.fuzz.layout, c)], c, p.block.j, s);
    }
  }

  lemma CopyEntry(env: Env, r: Run, p: Place, ts: Targets)
    requires Inv(r.work, p, ts) && !Over(r.work, r.verdict) && p.own == [] && p.block.InBlock?
    requires p.block.j < |CopiesOf(r.work.fuzz.layout, p.block.case_.id)|
    requires r.work.queue[r.work.idx] == CopiesOf(r.work.fuzz.layout, p.block.case_.id)[p.block.j]
    ensures AtCase(env, r, p, ts)
    ensures var w, c, s, act := r.work, p.block.case_.id, r.work.queue[r.work.idx], Act(env, r.work, r.verdict);
      var t := ts[TargetOf(w.fuzz.layout, c)];
      && s.kind.CopyOf? && s.kind.forCase == c && s.id !in w.fuzz.layout.targets
      && NextCopy(t, w.fuzz, c, p.block.j, s.id, s.kind.original)
      && ((act == Ignore && !TargetPassed(w.fuzz, s)) || act.Interrupt?
          || (act == CopyAction(env, w, s, c, s.kind.original) && TargetPassed(w.fuzz, s)))
      && (TargetPassed(w.fuzz, s) ==> Mid(t, w.fuzz, w.failedSetup, c, p.block.j))
  {
    CaseFacts(r.work, p, ts);
    var l, c, w := r.work.fuzz.layout, p.block.case_.id, r.work;
    var id, s := TargetOf(l, c), w.queue[w.idx];
    assert IsCopy(l, ts[id], c, p.block.j, s);
    ActOnBlock(env, w, r.verdict, s);
    hide Mid, AtRest, FuzzAfter, Touches, Act;
    assert TargetOk(w.fuzz, w.failedSetup, p.block, id, ts[id]);
    CopyTarget(env, w, ts[id], p.block, s, Act(env, w, r.verdict));
  }

  /** A pass over the case itself. */
  lemma CasePassFound(env: Env, r: Run, p: Place, ts: Targets)
    requires Stored(r.work, r.effects.outputs, p, ts) && !Over(r.work, r.verdict) && p.own == [] && p.block.InBlock?
    requires p.block.j == |CopiesOf(r.work.fuzz.layout, p.block.case_.id)|
    requires r.work.queue[r.work.idx] == p.block.case_ && !Ends(Act(env, r.work, r.verdict))
    ensures Found(PassOnce(env, r).work, PassOnce(env, r).effects.outputs,
      if Act(env, r.work, r.verdict).RebuildCase? then InBlock(p.block.case_, 0) else NoBlock, ts)
  {
    var w, s, act := r.work, r.work.queue[r.work.idx], Act(env, r.work, r.verdict);
    var l, b' := w.fuzz.layout, if act.RebuildCase? then InBlock(s, 0) else NoBlock;
    CaseEntry(env, r, p, ts);
    var id := TargetOf(l, s.id);
    hide Inv, ValidTarget, CaseOfIt, Act, FuzzAfter, MidFound, Mid, RestFound, Touches, UniqueCopies;
    if act != Ignore {
      CaseFound(env, w, r.effects, ts[id], s);
      FoundAfterCase(env, r, p, ts, b');
    }
    CaseTargetFound(env, r, p, ts, b');
    BlockPassFound(env, r, p, ts, b');
  }

  lemma CaseEntry(env: Env, r: Run, p: Place, ts: Targets)
    requires Inv(r.work, p, ts) && !Over(r.work, r.verdict) && p.own == [] && p.block.InBlock?
    requires p.block.j == |CopiesOf(r.work.fuzz.layout, p.block.case_.id)|
    requires r.work.queue[r.work.idx] == p.block.case_
    ensures AtCase(env, r, p, ts)
    ensures var w, s, act := r.work, r.work.queue[r.work.idx], Act(env, r.work, r.verdict);
      var t := ts[TargetOf(w.fuzz.layout, s.id)];
      && p.block.j == Size(t)
      && ((act == Ignore && !TargetPassed(w.fuzz, s)) || act.Interrupt?
          || (act == CaseAction(env, w, s) && TargetPassed(w.fuzz, s)))
      && (TargetPassed(w.fuzz, s) ==> Mid(t, w.fuzz, w.failedSetup, s.id, p.block.j))
  {
    CaseFacts(r.work, p, ts);
    var l, w, s := r.work.fuzz.layout, r.work, r.work.queue[r.work.idx];
    var id := TargetOf(l, s.id);
    ActOnBlock(env, w, r.verdict, s);
    hide Mid, AtRest, FuzzAfter, Touches, Act;
    assert TargetOk(w.fuzz, w.failedSetup, p.block, id, ts[id]);
    CaseTarget(env, w, ts[id], p.block, s, Act(env, w, r.verdict));
  }

  lemma FoundAfterCase(env: Env, r: Run, p: Place, ts: Targets, b': Block)
    requires AtCase(env, r, p, ts) && r.work.queue[r.work.idx] == p.block.case_
      && TargetPassed(r.work.fuzz, p.block.case_)
    requires b' == if Act(env, r.work, r.verdict).RebuildCase? then InBlock(p.block.case_, 0) else NoBlock
    requires var w, s, act := r.work, r.work.queue[r.work.idx], Act(env, r.work, r.verdict);
      var id, n := TargetOf(w.fuzz.layout, s.id), FuzzAfter(env, w.fuzz, s, act);
      TargetFound(n, w.failedSetup, b', id, ts[id], Outs(r.effects, w.fuzz, s, act))
    requires Act(env, r.work, r.verdict).RebuildCase? || Act(env, r.work, r.verdict).JudgeCase?
      || Act(env, r.work, r.verdict).HoldCase?
    ensures var w, s, act := r.work, r.work.queue[r.work.idx], Act(env, r.work, r.verdict);
      var id, n := TargetOf(w.fuzz.layout, s.id), FuzzAfter(env, w.fuzz, s, act);
      if b'.InBlock? then MidFound(ts[id], n, w.failedSetup, s.id, 0, Outs(r.effects, w.fuzz, s, act))
      else RestFound(w.fuzz.layout, id, ts[id], GroupAt(n, id), History(n, id), Outs(r.effects, w.fuzz, s, act))
  {
    hide RestFound, MidFound, ValidTarget, CaseOfIt, TargetOk, Act, FuzzAfter;
  }

  // ---------- Whole runs ----------

  lemma OpeningFound(w: Work, outs: Store, p: Place, ts: Targets)
    requires Stored(w, outs, p, ts)
    ensures Stored(w, outs, Opened(p), ts)
  {
    OpeningKeeps(w, p, ts);
    OpenedIsSame(w, p);
  }

  /** One pass that does not end the run. */
  lemma PassFound(env: Env, r: Run, p: Place, ts: Targets) returns (q: Place)
    requires Stored(r.work, r.effects.outputs, p, ts) && !Over(r.work, r.verdict)
    requires PassOnce(env, r).verdict.interruption.Running?
    ensures Stored(PassOnce(env, r).work, PassOnce(env, r).effects.outputs, q, ts)
  {
    var act, l, o := Act(env, r.work, r.verdict), r.work.fuzz.layout, Opened(p);
    if Ends(act) {
      EndsTheRun(env, r);
    }
    PassKeeps(env, r.work, r.verdict, p, ts);
    OpeningFound(r.work, r.effects.outputs, p, ts);
    EntryIsNext(r.work, o);
    q := NextPlace(l, o, act);
    hide Act, PassOnce, Found, Inv, UniqueCopies;
    assert CopiesHaveTheirOwn(l, q);
    if o.own != [] {
      OwnPassFound(env, r, o, ts);
      OwnIsOwn(r.work, o, ts);
    } else if o.block.j < |CopiesOf(l, o.block.case_.id)| {
      CopyPassFound(env, r, o, ts);
    } else {
      PlaceFits(r.work, o, ts);
      CasePassFound(env, r, o, ts);
    }
    SameLayout(env, r);
  }

  lemma PlaceFits(w: Work, p: Place, ts: Targets)
    requires Inv(w, p, ts)
    ensures Fits(w.fuzz.layout, p)
  {
  }

  lemma SameLayout(env: Env, r: Run)
    requires !Over(r.work, r.verdict)
    ensures PassOnce(env, r).work.fuzz.layout == r.work.fuzz.layout
  {
  }

  /** The run after n passes, or at its end. */
  function AfterPasses(env: Env, r: Run, n: nat): Run
    decreases n
  {
    if n == 0 || Over(r.work, r.verdict) then r else AfterPasses(env, PassOnce(env, r), n - 1)
  }

  /** The pass to come sends a case that runs on copies of its target's setup. */
  predicate SendsCase(env: Env, r: Run)
    requires !Over(r.work, r.verdict)
  {
    var s, act := r.work.queue[r.work.idx], Act(env, r.work, r.verdict);
    s.kind.CaseOf? && RunsAfterPlan(r.work.fuzz.layout, s) && (act.JudgeCase? || act.RebuildCase? || act.AbortAt?)
  }

  /** The case the pass to come sends reads what the copies of its setup answered. */
  ghost predicate ReadsRightly(env: Env, r: Run, ts: Targets)
    requires !Over(r.work, r.verdict)
  {
    var l, s := r.work.fuzz.layout, r.work.queue[r.work.idx];
    SendsCase(env, r) ==>
      && IsCase(l, s) && s.kind.target in ts
      && ReadsItsSetup(l, ts[s.kind.target], History(r.work.fuzz, s.kind.target), s.id, r.effects.outputs)
  }

  lemma SendsReadRightly(env: Env, r: Run, p: Place, ts: Targets)
    requires Stored(r.work, r.effects.outputs, p, ts) && !Over(r.work, r.verdict)
    ensures ReadsRightly(env, r, ts)
  {
    var l, s, o := r.work.fuzz.layout, r.work.queue[r.work.idx], Opened(p);
    OpeningFound(r.work, r.effects.outputs, p, ts);
    EntryIsNext(r.work, o);
    if SendsCase(env, r) {
      if o.own != [] {
        OwnIsOwn(r.work, o, ts);
      } else if o.block.j < |CopiesOf(l, o.block.case_.id)| {
        CopyEntry(env, r, o, ts);
      } else {
        PlaceFits(r.work, o, ts);
        CaseEntry(env, r, o, ts);
        CaseSent(env, r, o, ts);
      }
    }
  }

  lemma CaseSent(env: Env, r: Run, p: Place, ts: Targets)
    requires Stored(r.work, r.effects.outputs, p, ts) && !Over(r.work, r.verdict) && AtCase(env, r, p, ts)
    requires r.work.queue[r.work.idx] == p.block.case_ && SendsCase(env, r)
    requires var w, s := r.work, p.block.case_;
      var t := ts[TargetOf(w.fuzz.layout, s.id)];
      && p.block.j == Size(t) && TargetPassed(w.fuzz, s) && Act(env, w, r.verdict) == CaseAction(env, w, s)
      && Mid(t, w.fuzz, w.failedSetup, s.id, p.block.j)
    ensures ReadsRightly(env, r, ts)
  {
    hide Inv, Mid, Act, ValidTarget, CaseOfIt, Touches, MidFound, ReadsItsSetup, UniqueCopies;
    var w, s := r.work, p.block.case_;
    var id := TargetOf(w.fuzz.layout, s.id);
    assert TargetFound(w.fuzz, w.failedSetup, p.block, id, ts[id], r.effects.outputs);
    CaseReads(ts[id], w.fuzz, w.failedSetup, s.id, r.effects.outputs);
  }

  lemma {:induction false} RunReads(env: Env, r: Run, p: Place, ts: Targets, n: nat)
    requires Stored(r.work, r.effects.outputs, p, ts) && r.verdict.interruption.Running?
    ensures var m := AfterPasses(env, r, n); !Over(m.work, m.verdict) ==> ReadsRightly(env, m, ts)
    decreases n
  {
    hide Stored, ReadsRightly, PassOnce;
    if Over(r.work, r.verdict) {
    } else if n == 0 {
      SendsReadRightly(env, r, p, ts);
    } else {
      var m := PassOnce(env, r);
      if m.verdict.interruption.Running? {
        var q := PassFound(env, r, p, ts);
        RunReads(env, m, q, ts, n - 1);
      } else {
        assert AfterPasses(env, m, n - 1) == m;
      }
    }
  }

  /** Over every run, whatever is answered: each case sent on copies of its target's setup finds, under each
      copy's ID, what that step's copy answered on the build the case stands on. */
  lemma CasesReadTheirSetup(env: Env, l: Layout, ts: Targets, own: seq<Step>, cases: seq<Step>, n: nat)
    requires Planned(l, ts, own, cases)
    requires forall s, d :: s in own ==> s.id !in CopyIds(l, d)
    requires forall c, d :: c in l.caseTarget ==> c !in CopyIds(l, d)
    ensures var r := AfterPasses(env, StartOf(l, own, cases), n);
      !Over(r.work, r.verdict) ==> ReadsRightly(env, r, ts)
  {
    var r, p := StartOf(l, own, cases), StartPlace(own, cases);
    StartHolds(l, ts, own, cases);
    forall id | id in ts && id in l.targets && !l.targets[id].scope.Shared?
      ensures TargetFound(r.work.fuzz, {}, NoBlock, id, ts[id], map[]) {
      assert RestFound(l, id, ts[id], NewGroup, [], map[]);
    }
    RunReads(env, r, p, ts, n);
  }

  // ---------- Where the history's answers come from ----------

  /** e is the copy the pass of run r sends, with the answer it gets. */
  ghost predicate SentIn(env: Env, r: Run, e: Event) {
    && !Over(r.work, r.verdict) && e.CopySent?
    && var s := r.work.queue[r.work.idx];
       && s.id == e.copy && s.kind == CopyOf(e.forCase, e.original) && e.answer == env.answer(r.work.idx)
       && !CopyFails(s, e.answer) && Act(env, r.work, r.verdict).SendCopy?
  }

  lemma {:induction false} LastPass(env: Env, r: Run, n: nat)
    ensures var m := AfterPasses(env, r, n);
      AfterPasses(env, r, n + 1) == if Over(m.work, m.verdict) then m else PassOnce(env, m)
    decreases n
  {
    hide PassOnce, Over;
    if n > 0 && !Over(r.work, r.verdict) {
      LastPass(env, PassOnce(env, r), n - 1);
    } else if !Over(r.work, r.verdict) {
      assert AfterPasses(env, PassOnce(env, r), 0) == PassOnce(env, r);
    }
  }

  /** A pass notes at most one event, and a copy sent only if it sends it. */
  lemma PassNotes(env: Env, r: Run, id: string)
    requires !Over(r.work, r.verdict)
    ensures var h, h' := History(r.work.fuzz, id), History(PassOnce(env, r).work.fuzz, id);
      h' == h || (|h'| == |h| + 1 && h'[..|h|] == h && (h'[|h|].CopySent? ==> SentIn(env, r, h'[|h|])))
  {
    var w, s, act := r.work, r.work.queue[r.work.idx], Act(env, r.work, r.verdict);
    NotesAre(env, w, s, act, id);
    if act.SendCopy? {
      SendsAre(env, r);
    }
  }

  lemma SendsAre(env: Env, r: Run)
    requires !Over(r.work, r.verdict) && Act(env, r.work, r.verdict).SendCopy?
    ensures var s, act := r.work.queue[r.work.idx], Act(env, r.work, r.verdict);
      SentIn(env, r, CopySent(s.id, act.original, act.forCase, act.answer))
  {
    hide CopyFails, Decide;
  }

  lemma NotesAre(env: Env, w: Work, s: Step, act: Action, id: string)
    ensures var h, h' := History(w.fuzz, id), History(FuzzAfter(env, w.fuzz, s, act), id);
      h' == h || exists e ::
        h' == h + [e] && (e.CopySent? ==> act.SendCopy? && e == CopySent(s.id, act.original, act.forCase, act.answer))
  {
    var f := w.fuzz;
    match act {
      case SendCopy(c, o, a) => CopyNotes(env, f, s, c, o, a, id);
      case FailCopy(c, o, a) => CopyNotes(env, f, s, c, o, a, id);
      case _ =>
    }
  }

  lemma CopyNotes(env: Env, f: Fuzz, s: Step, c: string, o: string, a: Answer, id: string)
    ensures var h, n := History(f, id), History(FuzzAfter(env, f, s, SendCopy(c, o, a)), id);
      n == h || n == h + [CopySent(s.id, o, c, a)]
    ensures var h, n := History(f, id), History(FuzzAfter(env, f, s, FailCopy(c, o, a)), id);
      n == h || n == h + [CopyFailed(s.id, c)]
  {
    hide StepFailed;
    var p := Preparing(f, c);
    assert p.history == f.history && p.layout == f.layout;
    SentNotes(p, c, s.id, o, a, id);
    FailedNotes(p, c, s.id, id);
    PassingNotes(env, AfterCopySent(p, c, s.id, o, a), s, a, StepFailed(s, a), id);
    hide Preparing, AfterCopySent, AfterCopyFailed, Passing;
  }

  lemma SentNotes(p: Fuzz, c: string, copy: string, o: string, a: Answer, id: string)
    ensures var h, n := History(p, id), History(AfterCopySent(p, c, copy, o, a), id);
      n == h || n == h + [CopySent(copy, o, c, a)]
  {
  }

  lemma FailedNotes(p: Fuzz, c: string, copy: string, id: string)
    ensures var h, n := History(p, id), History(AfterCopyFailed(p, c, copy), id);
      n == h || n == h + [CopyFailed(copy, c)]
  {
  }

  lemma PassingNotes(env: Env, f: Fuzz, s: Step, a: Answer, suppressed: bool, id: string)
    ensures History(Passing(env, f, s, a, suppressed), id) == History(f, id)
  {
  }

  /** Every copy the history has as sent was sent in an earlier pass, and answered what it says. */
  lemma {:induction false} HistoryIsSent(env: Env, r: Run, n: nat, id: string, i: nat) returns (m: nat)
    requires History(r.work.fuzz, id) == []
    requires i < |History(AfterPasses(env, r, n).work.fuzz, id)|
    requires History(AfterPasses(env, r, n).work.fuzz, id)[i].CopySent?
    ensures m < n && SentIn(env, AfterPasses(env, r, m), History(AfterPasses(env, r, n).work.fuzz, id)[i])
    ensures |History(AfterPasses(env, r, m).work.fuzz, id)| == i
  {
    hide SentIn, PassOnce, Over;
    assert n > 0 by {
      assert AfterPasses(env, r, 0) == r;
    }
    LastPass(env, r, n - 1);
    var was := AfterPasses(env, r, n - 1);
    if i < |History(was.work.fuzz, id)| {
      if !Over(was.work, was.verdict) {
        PassNotes(env, was, id);
      }
      m := HistoryIsSent(env, r, n - 1, id, i);
    } else {
      PassNotes(env, was, id);
      m := n - 1;
    }
  }
}

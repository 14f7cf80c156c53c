/** Where a run stands in its queue (engine/fuzz.go runOrder, engine/engine.go): the plan's own steps
    first, then a block for each fuzz case on a copy of its target's setup. A stale answer puts the
    block of its case back once. */
module FuzzPlaces {
  import opened TopoOrder
  import opened FuzzState
  import opened RunSpec

  /** In the block of case_, with j of its copies behind. */
  datatype Block = NoBlock | InBlock(case_: Step, j: nat)

  datatype Place = Place(own: seq<Step>, block: Block, cases: seq<Step>, done: seq<Step>)

  function BlockOf(l: Layout, s: Step): seq<Step> {
    CopiesOf(l, s.id) + [s]
  }

  function Blocks(l: Layout, cases: seq<Step>): seq<Step> {
    if cases == [] then [] else BlockOf(l, cases[0]) + Blocks(l, cases[1..])
  }

  function RestOfBlock(l: Layout, b: Block): seq<Step>
    requires b.InBlock? ==> b.j <= |CopiesOf(l, b.case_.id)|
  {
    if b.NoBlock? then [] else CopiesOf(l, b.case_.id)[b.j..] + [b.case_]
  }

  predicate Fits(l: Layout, p: Place) {
    p.block.InBlock? ==> p.block.j <= |CopiesOf(l, p.block.case_.id)|
  }

  /** What a place leaves in the queue. */
  function Left(l: Layout, p: Place): seq<Step>
    requires Fits(l, p)
  {
    p.own + RestOfBlock(l, p.block) + Blocks(l, p.cases)
  }

  /** The cases a place speaks of: those done, the one under way, those to come. */
  function Cases(p: Place): seq<Step> {
    p.done + (if p.block.InBlock? then [p.block.case_] else []) + p.cases
  }

  function Ids(s: seq<Step>): seq<string> {
    seq(|s|, i requires 0 <= i < |s| => s[i].id)
  }

  /** s is a case sent after the plan, on copies of its target's setup. */
  predicate IsCase(l: Layout, s: Step) {
    s.kind.CaseOf? && IsCaseOfTarget(l, s.id) && TargetOf(l, s.id) == s.kind.target && !InfoOf(l, s.id).scope.Shared?
  }

  /** s is a step of the plan, or a case sent on its target's own state. */
  predicate IsOwn(l: Layout, s: Step) {
    && !RunsAfterPlan(l, s)
    && (s.kind.CaseOf? ==> CopiesOf(l, s.id) == [] && (IsCaseOfTarget(l, s.id) ==> InfoOf(l, s.id).scope.Shared?))
  }

  ghost predicate WellPlaced(l: Layout, p: Place) {
    && (p.own != [] ==> p.block.NoBlock? && p.done == [])
    && Fits(l, p)
    && (forall s :: s in p.own ==> IsOwn(l, s))
    && (forall s :: s in Cases(p) ==> IsCase(l, s))
    && Distinct(Ids(Cases(p)))
  }

  ghost predicate PlaceOk(w: Work, p: Place) {
    WellPlaced(w.fuzz.layout, p) && w.idx <= |w.queue| && w.queue[w.idx..] == Left(w.fuzz.layout, p)
  }

  /** Between two blocks, the next case's begins. */
  function Opened(p: Place): Place {
    if p.own == [] && p.block.NoBlock? && p.cases != [] then Place([], InBlock(p.cases[0], 0), p.cases[1..], p.done)
    else p
  }

  lemma OpenedIsSame(w: Work, p: Place)
    requires PlaceOk(w, p)
    ensures PlaceOk(w, Opened(p)) && Cases(Opened(p)) == Cases(p)
  {
    if p.own == [] && p.block.NoBlock? && p.cases != [] {
      assert p.cases == [p.cases[0]] + p.cases[1..];
      assert Cases(Opened(p)) == Cases(p);
      var l := w.fuzz.layout;
      assert CopiesOf(l, p.cases[0].id)[0..] == CopiesOf(l, p.cases[0].id);
    }
  }

  /** The entry a pass looks at. */
  function Entry(l: Layout, p: Place): Step
    requires Fits(l, p) && (p.own != [] || p.block.InBlock?)
  {
    if p.own != [] then p.own[0]
    else if p.block.j < |CopiesOf(l, p.block.case_.id)| then CopiesOf(l, p.block.case_.id)[p.block.j]
    else p.block.case_
  }

  /** Where the run stands after a pass that took act, from an opened place. */
  function NextPlace(l: Layout, p: Place, act: Action): Place
    requires Fits(l, p) && (p.own != [] || p.block.InBlock?)
  {
    if p.own != [] then p.(own := p.own[1..])
    else if p.block.j < |CopiesOf(l, p.block.case_.id)| then p.(block := InBlock(p.block.case_, p.block.j + 1))
    else if act.RebuildCase? then p.(block := InBlock(p.block.case_, 0))
    else p.(block := NoBlock, done := p.done + [p.block.case_])
  }

  /** A pass that does not end the run goes on to the next place. */
  lemma PassMovesPlace(env: Env, w: Work, p: Place, act: Action)
    requires PlaceOk(w, p) && Opened(p) == p && w.idx < |w.queue|
    requires act.RebuildCase? ==> w.queue[w.idx].kind.CaseOf? && |CopiesOf(w.fuzz.layout, w.queue[w.idx].id)| > 0
    requires CopiesAreCopies(w.fuzz.layout, p)
    ensures p.own != [] || p.block.InBlock?
    ensures w.queue[w.idx] == Entry(w.fuzz.layout, p)
    ensures PlaceOk(WorkAfter(env, w, act), NextPlace(w.fuzz.layout, p, act))
  {
    var l := w.fuzz.layout;
    var left := Left(l, p);
    var s := w.queue[w.idx];
    assert left[0] == s;
    var n := WorkAfter(env, w, act);
    var q := NextPlace(l, p, act);
    NextIsWellPlaced(l, p, act);
    NextLeaves(l, p, act);
    assert w.queue[w.idx + 1..] == left[1..];
    if act.RebuildCase? {
      assert n.queue[n.idx..] == CopiesOf(w.fuzz.layout, s.id) + [s] + left[1..];
    } else {
      assert n.queue[n.idx..] == left[1..];
    }
  }

  ghost predicate CopiesAreCopies(l: Layout, p: Place) {
    p.block.InBlock? ==> forall s :: s in CopiesOf(l, p.block.case_.id) ==> s.kind.CopyOf?
  }

  lemma NextIsWellPlaced(l: Layout, p: Place, act: Action)
    requires WellPlaced(l, p) && (p.own != [] || p.block.InBlock?)
    ensures WellPlaced(l, NextPlace(l, p, act))
  {
    var q := NextPlace(l, p, act);
    assert Cases(q) == Cases(p);
  }

  lemma NextLeaves(l: Layout, p: Place, act: Action)
    requires WellPlaced(l, p) && (p.own != [] || p.block.InBlock?) && CopiesAreCopies(l, p)
    requires act.RebuildCase? ==> Entry(l, p).kind.CaseOf? && |CopiesOf(l, Entry(l, p).id)| > 0
    ensures var left, s := Left(l, p), Entry(l, p);
      && |left| > 0 && left[0] == s
      && Left(l, NextPlace(l, p, act)) == (if act.RebuildCase? then CopiesOf(l, s.id) + [s] else []) + left[1..]
  {
    var left := Left(l, p);
    if p.own != [] {
      assert IsOwn(l, p.own[0]);
      assert left[1..] == p.own[1..] + RestOfBlock(l, p.block) + Blocks(l, p.cases);
    } else {
      var c := CopiesOf(l, p.block.case_.id);
      if p.block.j < |c| {
        assert c[p.block.j] in c;
        assert c[p.block.j..][1..] == c[p.block.j + 1..];
      } else {
        assert c[p.block.j..] == [];
        assert c[0..] == c;
      }
    }
  }
}

/** A sorted plan, put in the order it runs in and run (engine/engine.go Run, engine/fuzz.go runOrder): the
    plan's own steps and the blocks of its cases may stand between one another in any way. */
module RunPlanned {
  import opened FuzzState
  import opened RunSpec
  import opened FuzzPlaces
  import opened FuzzTheorems
  import opened RunFromStart
  import opened RunLoop
  import opened RunOrder

  /** A step of the plan itself, or a case with its copies directly before it. */
  datatype Part = OwnPart(s: Step) | CasePart(c: Step)

  function StepsOf(l: Layout, p: Part): seq<Step> {
    match p
    case OwnPart(s) => [s]
    case CasePart(c) => FuzzPlaces.BlockOf(l, c)
  }

  /** The plan that the first n parts make. */
  function Whole(l: Layout, parts: seq<Part>, n: nat): seq<Step>
    requires n <= |parts|
  {
    if n == 0 then [] else Whole(l, parts, n - 1) + StepsOf(l, parts[n - 1])
  }

  function OwnsOf(parts: seq<Part>, n: nat): seq<Step>
    requires n <= |parts|
  {
    if n == 0 then [] else OwnsOf(parts, n - 1) + if parts[n - 1].OwnPart? then [parts[n - 1].s] else []
  }

  function CasesOf(parts: seq<Part>, n: nat): seq<Step>
    requires n <= |parts|
  {
    if n == 0 then [] else CasesOf(parts, n - 1) + if parts[n - 1].CasePart? then [parts[n - 1].c] else []
  }

  /** Steps of the plan run before it ends, and the steps of a block after. */
  ghost predicate PartsOk(l: Layout, parts: seq<Part>) {
    forall i :: 0 <= i < |parts| ==> PartOk(l, parts[i])
  }

  ghost predicate PartOk(l: Layout, p: Part) {
    match p
    case OwnPart(s) => IsOwn(l, s)
    case CasePart(c) => IsCase(l, c) && forall s :: s in CopiesOf(l, c.id) ==> s.kind.CopyOf?
  }

  lemma PickedOneMore(l: Layout, s: seq<Step>, x: Step, after: bool)
    ensures Picked(s + [x], l, after) == Picked(s, l, after) + if RunsAfterPlan(l, x) == after then [x] else []
  {
    assert (s + [x])[..|s|] == s;
  }

  lemma {:induction false} PickedConcat(l: Layout, a: seq<Step>, b: seq<Step>, after: bool)
    ensures Picked(a + b, l, after) == Picked(a, l, after) + Picked(b, l, after)
    decreases |b|
  {
    hide Picked, RunsAfterPlan;
    if b == [] {
      assert a + b == a;
      NonePicked(l, after);
    } else {
      var rest, last := b[..|b| - 1], b[|b| - 1];
      assert b == rest + [last];
      PickedConcat(l, a, rest, after);
      Sequences.Joins(a, rest, [last]);
      PickedOneMore(l, a + rest, last, after);
      PickedOneMore(l, rest, last, after);
      Sequences.Joins(Picked(a, l, after), Picked(rest, l, after),
        if RunsAfterPlan(l, last) == after then [last] else []);
    }
  }

  lemma NonePicked(l: Layout, after: bool)
    ensures Picked([], l, after) == [] && forall s: seq<Step> :: s + [] == s
  {
  }

  lemma {:induction false} AllPicked(l: Layout, s: seq<Step>, after: bool)
    ensures (forall x :: x in s ==> RunsAfterPlan(l, x) == after) ==> Picked(s, l, after) == s
    ensures (forall x :: x in s ==> RunsAfterPlan(l, x) != after) ==> Picked(s, l, after) == []
  {
    if s != [] {
      AllPicked(l, s[..|s| - 1], after);
      assert s == s[..|s| - 1] + [s[|s| - 1]];
    }
  }

  lemma PartIsPicked(l: Layout, p: Part)
    requires PartOk(l, p)
    ensures Picked(StepsOf(l, p), l, false) == if p.OwnPart? then [p.s] else []
    ensures Picked(StepsOf(l, p), l, true) == if p.OwnPart? then [] else FuzzPlaces.BlockOf(l, p.c)
  {
    AllPicked(l, StepsOf(l, p), p.CasePart?);
    AllPicked(l, StepsOf(l, p), p.OwnPart?);
  }

  lemma {:induction false} BlocksAppend(l: Layout, cases: seq<Step>, c: Step)
    ensures Blocks(l, cases + [c]) == Blocks(l, cases) + FuzzPlaces.BlockOf(l, c)
  {
    if cases == [] {
      assert [c][1..] == [] && FuzzPlaces.BlockOf(l, c) + [] == FuzzPlaces.BlockOf(l, c);
    } else {
      BlocksAppend(l, cases[1..], c);
      assert (cases + [c])[1..] == cases[1..] + [c];
    }
  }

  /** The order of the run is the plan's own steps, and then its cases' blocks, each in the plan's order. */
  lemma {:induction false} OrderIsBlocks(l: Layout, parts: seq<Part>, n: nat)
    requires n <= |parts| && PartsOk(l, parts)
    ensures Picked(Whole(l, parts, n), l, false) == OwnsOf(parts, n)
    ensures Picked(Whole(l, parts, n), l, true) == Blocks(l, CasesOf(parts, n))
  {
    hide PartOk, StepsOf, Blocks, Picked;
    NonePicked(l, false);
    NonePicked(l, true);
    if n == 0 {
      NoBlocksAtAll(l);
    } else {
      OrderIsBlocks(l, parts, n - 1);
      var p := parts[n - 1];
      assert PartOk(l, p);
      PickedConcat(l, Whole(l, parts, n - 1), StepsOf(l, p), false);
      PickedConcat(l, Whole(l, parts, n - 1), StepsOf(l, p), true);
      PartIsPicked(l, p);
      if p.CasePart? {
        BlocksAppend(l, CasesOf(parts, n - 1), p.c);
      }
    }
  }

  lemma NoBlocksAtAll(l: Layout)
    ensures Blocks(l, []) == []
  {
  }

  /** A sorted plan is put in order and run to its end, and what comes of it is a good run. */
  method RunPlan(env: Env, l: Layout, sorted: seq<Step>, ghost ts: Targets, ghost parts: seq<Part>)
    returns (engine: Engine)
    requires PartsOk(l, parts) && sorted == Whole(l, parts, |parts|)
      && Planned(l, ts, OwnsOf(parts, |parts|), CasesOf(parts, |parts|))
    ensures fresh(engine) && fresh(engine.fuzz) && engine.env == env
    ensures engine.State() == RunOn(env, StartOf(l, OwnsOf(parts, |parts|), CasesOf(parts, |parts|)))
    ensures GoodRun(env, ts, CasesOf(parts, |parts|), engine.State())
      && Over(engine.State().work, engine.State().verdict)
  {
    hide GoodRun, Planned, RunOn, PartOk, Whole;
    OrderIsBlocks(l, parts, |parts|);
    var order, copies := Order(l, sorted);
    engine := new Engine(env, l, order);
    engine.RunAll();
    RunsAreGood(env, l, ts, OwnsOf(parts, |parts|), CasesOf(parts, |parts|));
  }
}

/** The order a run sends its steps in (engine/fuzz.go runOrder): the plan's own steps as sorted, then
    the cases on a copy of their target's setup, each after its copies. */
module RunOrder {
  import opened FuzzState
  import opened Sequences

  function Picked(s: seq<Step>, l: Layout, after: bool): (r: seq<Step>)
    ensures forall x :: x in r <==> x in s && RunsAfterPlan(l, x) == after
  {
    if s == [] then []
    else Picked(s[..|s| - 1], l, after) + if RunsAfterPlan(l, s[|s| - 1]) == after then [s[|s| - 1]] else []
  }

  /** The copies made for case c, in the order they run. */
  function CopiesIn(s: seq<Step>, c: string): seq<Step> {
    if s == [] then []
    else CopiesIn(s[..|s| - 1], c) +
         if s[|s| - 1].kind.CopyOf? && s[|s| - 1].kind.forCase == c then [s[|s| - 1]] else []
  }

  /** Nothing comes before what it depends on; deps holds pairs of a step's ID and one it depends on. */
  ghost predicate InOrder(s: seq<Step>, deps: set<(string, string)>) {
    forall i, j :: 0 <= i < j < |s| ==> !DependsOn(deps, s[i], s[j])
  }

  predicate DependsOn(deps: set<(string, string)>, x: Step, y: Step) {
    (x.id, y.id) in deps
  }

  function NotedFor(copies: map<string, seq<Step>>, c: string): seq<Step> {
    if c in copies then copies[c] else []
  }

  ghost predicate NotesCopies(copies: map<string, seq<Step>>, s: seq<Step>) {
    forall c :: NotedFor(copies, c) == CopiesIn(s, c)
  }

  lemma PickedNext(l: Layout, s: seq<Step>, n: nat)
    requires n < |s|
    ensures Picked(s[..n + 1], l, true) == Picked(s[..n], l, true) + if RunsAfterPlan(l, s[n]) then [s[n]] else []
    ensures Picked(s[..n + 1], l, false) == Picked(s[..n], l, false) + if RunsAfterPlan(l, s[n]) then [] else [s[n]]
  {
    assert s[..n + 1][..n] == s[..n];
  }

  lemma NotesNext(copies: map<string, seq<Step>>, s: seq<Step>, n: nat)
    requires n < |s| && NotesCopies(copies, s[..n])
    ensures NotesCopies(
      if s[n].kind.CopyOf?
      then copies[s[n].kind.forCase := NotedFor(copies, s[n].kind.forCase) + [s[n]]] else copies,
      s[..n + 1])
  {
    assert s[..n + 1][..n] == s[..n];
    var now := if s[n].kind.CopyOf? then copies[s[n].kind.forCase := NotedFor(copies, s[n].kind.forCase) + [s[n]]]
      else copies;
    forall c ensures NotedFor(now, c) == CopiesIn(s[..n + 1], c) {
      assert NotedFor(copies, c) == CopiesIn(s[..n], c);
      assert CopiesIn(s[..n + 1], c)
        == CopiesIn(s[..n], c) + if s[n].kind.CopyOf? && s[n].kind.forCase == c then [s[n]] else [];
    }
  }

  method Order(l: Layout, sorted: seq<Step>) returns (order: seq<Step>, copies: map<string, seq<Step>>)
    ensures order == Picked(sorted, l, false) + Picked(sorted, l, true)
    ensures NotesCopies(copies, sorted)
  {
    var own: seq<Step>, after: seq<Step> := [], [];
    copies := map[];
    for n := 0 to |sorted|
      invariant own == Picked(sorted[..n], l, false) && after == Picked(sorted[..n], l, true)
      invariant NotesCopies(copies, sorted[..n])
    {
      var s := sorted[n];
      PickedNext(l, sorted, n);
      NotesNext(copies, sorted, n);
      if !RunsAfterPlan(l, s) {
        own := own + [s];
      } else {
        after := after + [s];
        if s.kind.CopyOf? {
          copies := copies[s.kind.forCase := NotedFor(copies, s.kind.forCase) + [s]];
        }
      }
    }
    assert sorted[..|sorted|] == sorted;
    order := own + after;
  }

  /** Picking keeps the order of what it picks. */
  lemma {:induction false} PickedInOrder(s: seq<Step>, l: Layout, after: bool, deps: set<(string, string)>)
    requires InOrder(s, deps)
    ensures InOrder(Picked(s, l, after), deps)
  {
    if s != [] {
      var n, last := |s| - 1, s[|s| - 1];
      PickedInOrder(s[..n], l, after, deps);
      var p := Picked(s[..n], l, after);
      forall i | 0 <= i < |p| ensures !DependsOn(deps, p[i], last) {
        assert p[i] in s[..n];
        var k :| 0 <= k < n && s[k] == p[i];
      }
    }
  }

  /** The order stays valid, for no step of the plan waits for a case or a copy. */
  lemma OrderStaysValid(l: Layout, sorted: seq<Step>, deps: set<(string, string)>)
    requires InOrder(sorted, deps)
    requires forall x, y :: x in sorted && y in sorted && DependsOn(deps, x, y) && RunsAfterPlan(l, y)
               ==> RunsAfterPlan(l, x)
    ensures InOrder(Picked(sorted, l, false) + Picked(sorted, l, true), deps)
  {
    PickedInOrder(sorted, l, false, deps);
    PickedInOrder(sorted, l, true, deps);
    var own, after := Picked(sorted, l, false), Picked(sorted, l, true);
    forall i, j | 0 <= i < j < |own + after| ensures !DependsOn(deps, (own + after)[i], (own + after)[j]) {
      if i < |own| <= j {
        assert own[i] in own && after[j - |own|] in after;
      }
    }
  }

  function Count(s: seq<Step>, x: Step): nat {
    if s == [] then 0 else Count(s[..|s| - 1], x) + if s[|s| - 1] == x then 1 else 0
  }

  lemma CountOfAppend(s: seq<Step>, y: Step, x: Step)
    ensures Count(s + [y], x) == Count(s, x) + if y == x then 1 else 0
  {
    assert (s + [y])[..|s|] == s;
  }

  lemma CountPicked(l: Layout, s: seq<Step>, after: bool, x: Step)
    requires s != []
    ensures Count(Picked(s, l, after), x) ==
            Count(Picked(s[..|s| - 1], l, after), x)
              + if RunsAfterPlan(l, s[|s| - 1]) == after && s[|s| - 1] == x then 1 else 0
  {
    var p := Picked(s[..|s| - 1], l, after);
    if RunsAfterPlan(l, s[|s| - 1]) == after {
      CountOfAppend(p, s[|s| - 1], x);
    } else {
      assert p + [] == p;
    }
  }

  /** Nothing is lost or sent twice. */
  lemma {:induction false} OrderIsPermutation(l: Layout, s: seq<Step>, x: Step)
    ensures Count(Picked(s, l, false), x) + Count(Picked(s, l, true), x) == Count(s, x)
  {
    if s != [] {
      OrderIsPermutation(l, s[..|s| - 1], x);
      CountPicked(l, s, false, x);
      CountPicked(l, s, true, x);
    }
  }

  lemma PickedOfTwo(l: Layout, x: Step, y: Step, after: bool)
    ensures Picked([y, x], l, after)
      == (if RunsAfterPlan(l, y) == after then [y] else []) + if RunsAfterPlan(l, x) == after then [x] else []
  {
    hide RunsAfterPlan;
    var s := [y, x];
    assert s[..1] == [y] && s[..1][..0] == [];
    assert Picked(s, l, after) == Picked([y], l, after) + if RunsAfterPlan(l, x) == after then [x] else [];
    assert Picked([y], l, after) == if RunsAfterPlan(l, y) == after then [y] else [];
  }

  /** Were a step of the plan to depend on a case, a valid order would break. */
  lemma OrderBreaksWithSuch(l: Layout, x: Step, y: Step, deps: set<(string, string)>)
    requires !RunsAfterPlan(l, x) && RunsAfterPlan(l, y) && DependsOn(deps, x, y)
    ensures !InOrder(Picked([y, x], l, false) + Picked([y, x], l, true), deps)
  {
    PickedOfTwo(l, x, y, false);
    PickedOfTwo(l, x, y, true);
    var s := Picked([y, x], l, false) + Picked([y, x], l, true);
    assert s[0] == x && s[1] == y;
  }

  // ---------- Which steps those are ----------

  /** A copy of a target's setup, or a case of a target whose setup is copied for its cases. */
  predicate IsLate(l: Layout, s: Step) {
    s.kind.CopyOf? || (s.kind.CaseOf? && s.kind.target in l.targets && l.targets[s.kind.target].scope != Shared)
  }

  /** The steps sent first are those of the sorted plan that are not late, in its order, and the others are those
      that are. */
  lemma {:induction false} PickedAre(s: seq<Step>, l: Layout, after: bool) returns (at: seq<nat>)
    ensures PickedAt(s, Picked(s, l, after), at)
    ensures forall k :: 0 <= k < |s| ==> (k in at <==> IsLate(l, s[k]) == after)
  {
    at := [];
    if s != [] {
      var n := |s| - 1;
      var was := PickedAre(s[..n], l, after);
      at := PickedMore(s[..n], Picked(s[..n], l, after), was, s[n], RunsAfterPlan(l, s[n]) == after);
      assert s[..n] + [s[n]] == s;
    }
  }
}

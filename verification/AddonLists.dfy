/** Addons added to a plan one after the other (intent/compose.go composeAddonList), and what that keeps. */
module AddonLists {
  import opened AddonOrder
  import opened AddonPlans
  import opened Addons
  import opened Compose
  import opened JsonString
  import opened TopoOrder

  // ---------- By priority ----------

  /** An addon workflow: the nodes it may follow, the first found being taken, and its template, if it names
      one: its steps, or none when it does not load, as a plan without steps does not (plan/parse.go); and
      the cleanup and verification steps of that template. */
  datatype Addon = Addon(priority: int, nodes: seq<string>, wire: map<string, string>, template: Option<seq<Step>>,
                         cleanup: seq<CleanupStep>, checks: seq<Check>)

  /** Behind the last of the first n addons whose priority is not higher. */
  function PlaceOf(sorted: seq<Addon>, priority: int, n: nat): (m: nat)
    requires n <= |sorted|
    ensures m <= n && (forall i :: m <= i < n ==> sorted[i].priority > priority)
      && (m > 0 ==> sorted[m - 1].priority <= priority)
  {
    if n > 0 && sorted[n - 1].priority > priority then PlaceOf(sorted, priority, n - 1) else n
  }

  function Insert(sorted: seq<Addon>, a: Addon): seq<Addon> {
    var m := PlaceOf(sorted, a.priority, |sorted|);
    sorted[..m] + [a] + sorted[m..]
  }

  function ByPriority(addons: seq<Addon>, n: nat): seq<Addon>
    requires n <= |addons|
  {
    if n == 0 then [] else Insert(ByPriority(addons, n - 1), addons[n - 1])
  }

  ghost predicate InPriorityOrder(addons: seq<Addon>) {
    forall i, j :: 0 <= i < j < |addons| ==> addons[i].priority <= addons[j].priority
  }

  /** Of the first n addons, those of one priority. */
  function Only(addons: seq<Addon>, priority: int, n: nat): seq<Addon>
    requires n <= |addons|
  {
    if n == 0 then []
    else Only(addons, priority, n - 1) +
         if addons[n - 1].priority == priority then [addons[n - 1]] else []
  }

  lemma {:induction false} OnlyOfJoin(a: seq<Addon>, b: seq<Addon>, priority: int, n: nat)
    requires n <= |b|
    ensures Only(a + b, priority, |a| + n) == Only(a, priority, |a|) + Only(b, priority, n)
  {
    if n == 0 {
      OnlyOfPrefix(a, b, priority, |a|);
    } else {
      OnlyOfJoin(a, b, priority, n - 1);
    }
  }

  lemma {:induction false} OnlyOfPrefix(a: seq<Addon>, b: seq<Addon>, priority: int, n: nat)
    requires n <= |a|
    ensures Only(a + b, priority, n) == Only(a, priority, n)
  {
    if n > 0 {
      OnlyOfPrefix(a, b, priority, n - 1);
    }
  }

  lemma {:induction false} NoneOfPriority(a: seq<Addon>, priority: int, n: nat)
    requires n <= |a| && forall i :: 0 <= i < n ==> a[i].priority != priority
    ensures Only(a, priority, n) == []
  {
    if n > 0 {
      NoneOfPriority(a, priority, n - 1);
    }
  }

  lemma InsertInOrder(sorted: seq<Addon>, a: Addon)
    requires InPriorityOrder(sorted)
    ensures InPriorityOrder(Insert(sorted, a))
  {
    var m := PlaceOf(sorted, a.priority, |sorted|);
    var r := Insert(sorted, a);
    forall i, j | 0 <= i < j < |r| ensures r[i].priority <= r[j].priority {
      assert r[i] == if i < m then sorted[i] else if i == m then a else sorted[i - 1];
      assert r[j] == if j < m then sorted[j] else if j == m then a else sorted[j - 1];
    }
  }

  lemma OnlyOne(a: Addon, priority: int)
    ensures Only([a], priority, 1) == if a.priority == priority then [a] else []
  {
    assert Only([a], priority, 0) == [];
  }

  lemma Around<T>(left: seq<T>, middle: seq<T>, right: seq<T>)
    requires middle == [] || right == []
    ensures left + middle + right == (left + right) + middle
  {
  }

  lemma InsertKeeps(sorted: seq<Addon>, a: Addon, priority: int)
    ensures var r := Insert(sorted, a);
      |r| == |sorted| + 1 && Only(r, priority, |r|)
        == Only(sorted, priority, |sorted|) + if a.priority == priority then [a] else []
  {
    hide Only, PlaceOf;
    var m := PlaceOf(sorted, a.priority, |sorted|);
    var left, right := sorted[..m], sorted[m..];
    assert sorted == left + right;
    OnlyOfJoin(left, right, priority, |right|);
    OnlyOfJoin(left + [a], right, priority, |right|);
    OnlyOfJoin(left, [a], priority, 1);
    OnlyOne(a, priority);
    if a.priority == priority {
      NoneOfPriority(right, priority, |right|);
    }
    Around(Only(left, priority, |left|), Only([a], priority, 1), Only(right, priority, |right|));
  }

  lemma EmptyInOrder()
    ensures InPriorityOrder([])
  {
  }

  /** The sort is stable: lower priorities come first, and those of one priority keep their order. */
  lemma {:induction false} SortIsStable(addons: seq<Addon>, n: nat, priority: int)
    requires n <= |addons|
    ensures var r := ByPriority(addons, n);
      InPriorityOrder(r) && |r| == n && Only(r, priority, n) == Only(addons, priority, n)
  {
    hide Insert, InPriorityOrder;
    if n == 0 {
      assert InPriorityOrder([]) by {
        EmptyInOrder();
      }
    } else {
      SortIsStable(addons, n - 1, priority);
      InsertInOrder(ByPriority(addons, n - 1), addons[n - 1]);
      InsertKeeps(ByPriority(addons, n - 1), addons[n - 1], priority);
    }
  }

  // ---------- The list ----------

  datatype Failure = NoTemplate | NoPlace | NotLoaded

  /** The plan so far, the last step of the addons that followed a node, and the insertion step of each;
      or why an addon could not be added, and the plan as it was left. */
  datatype Progress =
    | Going(steps: seq<Step>, last: map<string, string>, placed: seq<string>)
    | Stopped(failure: Failure, steps: seq<Step>, added: nat)

  function Added(p: Progress): nat {
    if p.Going? then |p.placed| else p.added
  }

  function AddOne(p: Progress, a: Addon, i: nat, given: map<string, seq<string>>): Progress
    requires p.Going?
  {
    var (after, matched) := Place(p.steps, a.nodes, p.last, 0);
    if a.template == None then Stopped(NoTemplate, p.steps, i)
    else if after == "" then Stopped(NoPlace, p.steps, i)
    else if a.template.value == [] then Stopped(NotLoaded, p.steps, i)
    else
      var addon := AddonSteps(a.template.value, Prefix(i), ResolvedWire(a.wire, after),
        OutputMap(p.steps, given, |p.steps|), after);
      Going(Spliced(p.steps, addon, after), p.last[matched := IdOf(addon[|addon| - 1])], p.placed + [after])
  }

  /** The first n addons, in the order of their priority. */
  function AddAll(steps: seq<Step>, addons: seq<Addon>, given: map<string, seq<string>>, n: nat): Progress
    requires n <= |addons|
  {
    if n == 0 then Going(steps, map[], [])
    else
      var p := AddAll(steps, addons, given, n - 1);
      if p.Stopped? then p else AddOne(p, addons[n - 1], n - 1, given)
  }

  // ---------- What one addon keeps ----------

  ghost predicate UniqueIds(steps: seq<Step>) {
    forall i, j :: 0 <= i < j < |steps| ==> IdOf(steps[i]) != IdOf(steps[j])
  }

  /** Of the first n steps, those with an ID of the set. */
  function Own(steps: seq<Step>, ids: set<string>, n: nat): seq<Step>
    requires n <= |steps|
  {
    if n == 0 then [] else Own(steps, ids, n - 1) + if IdOf(steps[n - 1]) in ids then [steps[n - 1]] else []
  }

  lemma {:induction false} OwnOfJoin(a: seq<Step>, b: seq<Step>, ids: set<string>, n: nat)
    requires n <= |b|
    ensures Own(a + b, ids, |a| + n) == Own(a, ids, |a|) + Own(b, ids, n)
  {
    if n == 0 {
      OwnOfPrefix(a, b, ids, |a|);
    } else {
      OwnOfJoin(a, b, ids, n - 1);
    }
  }

  lemma {:induction false} OwnOfPrefix(a: seq<Step>, b: seq<Step>, ids: set<string>, n: nat)
    requires n <= |a|
    ensures Own(a + b, ids, n) == Own(a, ids, n)
  {
    if n > 0 {
      OwnOfPrefix(a, b, ids, n - 1);
    }
  }

  lemma {:induction false} NoneOwn(steps: seq<Step>, ids: set<string>, n: nat)
    requires n <= |steps| && forall i :: 0 <= i < n ==> IdOf(steps[i]) !in ids
    ensures Own(steps, ids, n) == []
  {
    if n > 0 {
      NoneOwn(steps, ids, n - 1);
    }
  }

  lemma {:induction false} AllOwn(steps: seq<Step>, ids: set<string>, n: nat)
    requires n <= |steps| && forall i :: 0 <= i < n ==> IdOf(steps[i]) in ids
    ensures Own(steps, ids, n) == steps[..n]
  {
    if n > 0 {
      AllOwn(steps, ids, n - 1);
    }
  }

  /** Splicing leaves the steps of other IDs as they were, in their order. */
  lemma SplicedOwn(parent: seq<Step>, addon: seq<Step>, after: string, ids: set<string>)
    requires forall i :: 0 <= i < |addon| ==> IdOf(addon[i]) !in ids
    ensures Own(Spliced(parent, addon, after), ids, |Spliced(parent, addon, after)|) == Own(parent, ids, |parent|)
  {
    hide Own, PlaceAfter;
    var at := PlaceAfter(parent, after, 0);
    var left, right := parent[..at], parent[at..];
    assert parent == left + right;
    OwnOfJoin(left, right, ids, |right|);
    OwnOfJoin(left, addon, ids, |addon|);
    OwnOfJoin(left + addon, right, ids, |right|);
    NoneOwn(addon, ids, |addon|);
    Around(Own(left, ids, at), Own(addon, ids, |addon|), Own(right, ids, |right|));
    assert Own(parent, ids, |parent|) + [] == Own(parent, ids, |parent|);
  }

  lemma SplicedUnique(parent: seq<Step>, addon: seq<Step>, after: string)
    requires UniqueIds(parent) && UniqueIds(addon) && IdsOf(parent) !! IdsOf(addon)
    ensures UniqueIds(Spliced(parent, addon, after))
  {
    var at, n := PlaceAfter(parent, after, 0), |addon|;
    var all := Spliced(parent, addon, after);
    forall i, j | 0 <= i < j < |all| ensures IdOf(all[i]) != IdOf(all[j]) {
      SplicedAt(parent, addon, after, i);
      SplicedAt(parent, addon, after, j);
    }
  }

  lemma SplicedAt(parent: seq<Step>, addon: seq<Step>, after: string, i: nat)
    requires i < |Spliced(parent, addon, after)|
    ensures var at, s := PlaceAfter(parent, after, 0), Spliced(parent, addon, after)[i];
      if i < at then s == parent[i] && IdOf(s) in IdsOf(parent)
      else if i < at + |addon| then s == addon[i - at] && IdOf(s) in IdsOf(addon)
      else i - |addon| < |parent| && s == parent[i - |addon|] && IdOf(s) in IdsOf(parent)
  {
  }

  lemma MadeUnique(template: seq<Step>, prefix: string, after: string, addon: seq<Step>)
    requires MadeFrom(template, prefix, after, addon) && UniqueIds(template)
    ensures UniqueIds(addon)
  {
    forall i: nat, j: nat | i < j < |addon| ensures IdOf(addon[i]) != IdOf(addon[j]) {
      assert Became(template, prefix, after, IdsOf(addon), i, addon[i]);
      assert Became(template, prefix, after, IdsOf(addon), j, addon[j]);
      assert (prefix + IdOf(template[i]))[|prefix|..] == IdOf(template[i]);
      assert (prefix + IdOf(template[j]))[|prefix|..] == IdOf(template[j]);
    }
  }

  /** What ran behind a step still does with more steps in the plan. */
  lemma StaysBehind(parent: seq<Step>, addon: seq<Step>, after: string, a: string, b: string)
    requires Behind(parent, a, b)
    ensures Behind(Spliced(parent, addon, after), a, b)
  {
    hide Nodes, Edges, Spliced;
    var all := Spliced(parent, addon, after);
    var p: seq<string> :| Leads(parent, a, b, p);
    forall i | 0 <= i < |p| ensures p[i] in Nodes(all) {
      NodesAre(parent, p[i]);
      InBoth(parent, addon, after, p[i]);
    }
    forall i | 0 <= i < |p| - 1 ensures Linked(Nodes(all), Edges(all), p, i) {
      assert Linked(Nodes(parent), Edges(parent), p, i);
      MoreEdges(parent, addon, after, p[i], p[i + 1]);
    }
    assert Leads(all, a, b, p);
  }

  lemma MoreEdges(parent: seq<Step>, addon: seq<Step>, after: string, a: string, b: string)
    requires (a, b) in Edges(parent)
    ensures (a, b) in Edges(Spliced(parent, addon, after))
  {
    hide Edges, Spliced;
    EdgesAre(parent, a, b);
    var s :| s in parent && IdOf(s) == b && a in s.dependsOn;
    SplicedHas(parent, addon, after, s);
    EdgesAre(Spliced(parent, addon, after), a, b);
  }
}

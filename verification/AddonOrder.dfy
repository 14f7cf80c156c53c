/** A plan with an addon's steps in it runs whenever the two ran apart, and runs the addon after its
    insertion step (intent/compose.go). */
module AddonOrder {
  import opened AddonPlans
  import opened Addons
  import Scheduler
  import opened TopoOrder

  // ---------- Splicing ----------

  /** One past the first step of the ID, or the end of the plan. */
  function PlaceAfter(steps: seq<Step>, after: string, i: nat): (at: nat)
    requires i <= |steps|
    ensures i <= at <= |steps|
    decreases |steps| - i
  {
    if i == |steps| then i else if IdOf(steps[i]) == after then i + 1 else PlaceAfter(steps, after, i + 1)
  }

  function Spliced(parent: seq<Step>, addon: seq<Step>, after: string): seq<Step> {
    var at := PlaceAfter(parent, after, 0);
    parent[..at] + addon + parent[at..]
  }

  /** The plan keeps its own steps in order, and the addon's stand together right behind the insertion step. */
  lemma SplicedKeeps(parent: seq<Step>, addon: seq<Step>, after: string)
    ensures var s, at := Spliced(parent, addon, after), PlaceAfter(parent, after, 0);
      && s[..at] + s[at + |addon|..] == parent && s[at..at + |addon|] == addon
      && (after in IdsOf(parent) ==> at > 0 && IdOf(s[at - 1]) == after)
  {
    PlaceFound(parent, after, 0);
  }

  lemma {:induction false} PlaceFound(steps: seq<Step>, after: string, i: nat)
    requires i <= |steps|
    ensures (exists k :: i <= k < |steps| && IdOf(steps[k]) == after) ==>
              PlaceAfter(steps, after, i) > i && IdOf(steps[PlaceAfter(steps, after, i) - 1]) == after
    decreases |steps| - i
  {
    if i < |steps| && IdOf(steps[i]) != after {
      PlaceFound(steps, after, i + 1);
    }
  }

  /** Each of the plan's steps is one of the two's. */
  lemma SplicedHas(parent: seq<Step>, addon: seq<Step>, after: string, s: Step)
    ensures s in Spliced(parent, addon, after) <==> s in parent || s in addon
  {
    var at := PlaceAfter(parent, after, 0);
    assert parent == parent[..at] + parent[at..];
  }

  // ---------- Dependencies ----------

  /** The plan as the scheduler sees it. */
  function Plain(steps: seq<Step>): seq<Scheduler.Step> {
    seq(|steps|, i requires 0 <= i < |steps| => Scheduler.Step(IdOf(steps[i]), steps[i].dependsOn))
  }

  function Nodes(steps: seq<Step>): set<string> {
    Scheduler.IdSet(Plain(steps))
  }

  function Edges(steps: seq<Step>): set<(string, string)> {
    Scheduler.DepEdges(Plain(steps))
  }

  /** A step called b depends on a. */
  ghost predicate Needs(steps: seq<Step>, a: string, b: string) {
    exists s :: s in steps && IdOf(s) == b && a in s.dependsOn
  }

  lemma EdgesAre(steps: seq<Step>, a: string, b: string)
    ensures (a, b) in Edges(steps) <==> Needs(steps, a, b)
  {
    var p := Plain(steps);
    if (a, b) in Edges(steps) {
      var s :| s in p && a in s.dependsOn && s.id == b;
      var i :| 0 <= i < |p| && p[i] == s;
      assert steps[i] in steps && IdOf(steps[i]) == b && a in steps[i].dependsOn;
    }
    if Needs(steps, a, b) {
      var s :| s in steps && IdOf(s) == b && a in s.dependsOn;
      var i :| 0 <= i < |steps| && steps[i] == s;
      assert p[i] in p && p[i].id == b && a in p[i].dependsOn;
    }
  }

  lemma NodesAre(steps: seq<Step>, a: string)
    ensures a in Nodes(steps) <==> exists s :: s in steps && IdOf(s) == a
    ensures a in Nodes(steps) <==> a in IdsOf(steps)
  {
    var p := Plain(steps);
    if a in Nodes(steps) {
      var s :| s in p && s.id == a;
      var i :| 0 <= i < |p| && p[i] == s;
      assert steps[i] in steps && IdOf(steps[i]) == a;
    }
    if s :| s in steps && IdOf(s) == a {
      var i :| 0 <= i < |steps| && steps[i] == s;
      assert p[i] in p && p[i].id == a && IdOf(steps[i]) == a;
    }
    if a in IdsOf(steps) {
      var i :| 0 <= i < |steps| && IdOf(steps[i]) == a;
      assert steps[i] in steps;
    }
  }

  ghost predicate Ordered(order: seq<string>, steps: seq<Step>) {
    Topological(order, Nodes(steps), Edges(steps))
  }

  /** Neither a step's name nor a dependency in the plan begins with the prefix. */
  ghost predicate Untouched(parent: seq<Step>, prefix: string) {
    forall i :: 0 <= i < |parent| ==>
      !StartsWith(prefix, IdOf(parent[i]))
        && forall k :: 0 <= k < |parent[i].dependsOn| ==> !StartsWith(prefix, parent[i].dependsOn[k])
  }

  /** The addon's steps are the template's, as AddonStepIs has them. */
  ghost predicate MadeFrom(template: seq<Step>, prefix: string, after: string, addon: seq<Step>) {
    && prefix != "" && |addon| == |template|
    && (forall i: nat :: i < |template| ==> Became(template, prefix, after, IdsOf(addon), i, addon[i]))
  }

  /** The addon's IDs are the template's with the prefix before them. */
  lemma MadeIds(template: seq<Step>, prefix: string, after: string, addon: seq<Step>, id: string)
    requires MadeFrom(template, prefix, after, addon)
    ensures id in IdsOf(addon) <==> StartsWith(prefix, id) && id[|prefix|..] in IdsOf(template)
  {
    if id in IdsOf(addon) {
      var i: nat :| i < |addon| && IdOf(addon[i]) == id;
      assert Became(template, prefix, after, IdsOf(addon), i, addon[i]);
      assert (prefix + IdOf(template[i]))[|prefix|..] == IdOf(template[i]);
    }
    if StartsWith(prefix, id) && id[|prefix|..] in IdsOf(template) {
      var i: nat :| i < |template| && IdOf(template[i]) == id[|prefix|..];
      assert Became(template, prefix, after, IdsOf(addon), i, addon[i]);
      assert prefix + id[|prefix|..] == id;
    }
  }

  ghost predicate Fits(parent: seq<Step>, template: seq<Step>, prefix: string, after: string, addon: seq<Step>) {
    Untouched(parent, prefix) && MadeFrom(template, prefix, after, addon)
  }

  lemma ApartIds(parent: seq<Step>, template: seq<Step>, prefix: string, after: string, addon: seq<Step>, id: string)
    requires Fits(parent, template, prefix, after, addon)
    ensures id in IdsOf(parent) ==> id !in IdsOf(addon) && !StartsWith(prefix, id)
  {
    MadeIds(template, prefix, after, addon, id);
  }

  /** A step of the plan's own needs only steps of the plan's own. */
  lemma ParentNeeds(parent: seq<Step>, template: seq<Step>, prefix: string, after: string, addon: seq<Step>, a: string,
                    b: string)
    requires Fits(parent, template, prefix, after, addon)
    requires Needs(Spliced(parent, addon, after), a, b) && b in IdsOf(parent)
    ensures Needs(parent, a, b) && a !in IdsOf(addon)
  {
    var s :| s in Spliced(parent, addon, after) && IdOf(s) == b && a in s.dependsOn;
    SplicedHas(parent, addon, after, s);
    ApartIds(parent, template, prefix, after, addon, b);
    InIds(addon, s);
    var i :| 0 <= i < |parent| && parent[i] == s;
    var k :| 0 <= k < |s.dependsOn| && s.dependsOn[k] == a;
    MadeIds(template, prefix, after, addon, a);
  }

  lemma InIds(steps: seq<Step>, s: Step)
    ensures s in steps ==> IdOf(s) in IdsOf(steps)
  {
    if s in steps {
      var i :| 0 <= i < |steps| && steps[i] == s;
    }
  }

  /** Of its own steps an addon's step needs those its template's step needs. */
  lemma AddonNeeds(parent: seq<Step>, template: seq<Step>, prefix: string, after: string, addon: seq<Step>, a: string,
                   b: string)
    requires Fits(parent, template, prefix, after, addon)
    requires Needs(Spliced(parent, addon, after), a, b) && a in IdsOf(addon) && b in IdsOf(addon)
    ensures StartsWith(prefix, a) && StartsWith(prefix, b) && Needs(template, a[|prefix|..], b[|prefix|..])
  {
    var s :| s in Spliced(parent, addon, after) && IdOf(s) == b && a in s.dependsOn;
    SplicedHas(parent, addon, after, s);
    InIds(parent, s);
    ApartIds(parent, template, prefix, after, addon, b);
    var i: nat :| i < |addon| && addon[i] == s;
    assert Became(template, prefix, after, IdsOf(addon), i, s);
    assert (prefix + IdOf(template[i]))[|prefix|..] == IdOf(template[i]);
    assert template[i] in template;
  }

  // ---------- No cycle is closed ----------

  function Mapped(prefix: string, order: seq<string>): seq<string> {
    seq(|order|, i requires 0 <= i < |order| => prefix + order[i])
  }

  lemma MappedApart(prefix: string, order: seq<string>, i: nat, j: nat)
    requires Distinct(order) && i < j < |order|
    ensures Mapped(prefix, order)[i] != Mapped(prefix, order)[j] && StartsWith(prefix, Mapped(prefix, order)[i])
  {
    assert (prefix + order[i])[|prefix|..] == order[i] && (prefix + order[j])[|prefix|..] == order[j];
  }

  /** The two orders, one behind the other, list the plan's steps. */
  lemma OrderLists(parent: seq<Step>, template: seq<Step>, prefix: string, after: string, addon: seq<Step>,
                   po: seq<string>, so: seq<string>, id: string)
    requires Fits(parent, template, prefix, after, addon) && Ordered(po, parent) && Ordered(so, template)
    ensures id in Nodes(Spliced(parent, addon, after)) <==> id in po || id in Mapped(prefix, so)
    ensures id in po <==> id in IdsOf(parent)
    ensures id in Mapped(prefix, so) <==> id in IdsOf(addon)
  {
    MappedAre(template, prefix, after, addon, so, id);
    NodesAre(parent, id);
    NodesAre(addon, id);
    var s := Spliced(parent, addon, after);
    NodesAre(s, id);
    if id in Nodes(s) {
      var t :| t in s && IdOf(t) == id;
      SplicedHas(parent, addon, after, t);
    }
    if t :| t in parent && IdOf(t) == id {
      SplicedHas(parent, addon, after, t);
    }
    if t :| t in addon && IdOf(t) == id {
      SplicedHas(parent, addon, after, t);
    }
  }

  lemma MappedAre(template: seq<Step>, prefix: string, after: string, addon: seq<Step>, so: seq<string>, id: string)
    requires MadeFrom(template, prefix, after, addon) && Ordered(so, template)
    ensures id in Mapped(prefix, so) <==> id in IdsOf(addon)
  {
    MadeIds(template, prefix, after, addon, id);
    var m := Mapped(prefix, so);
    if id in m {
      var i :| 0 <= i < |m| && m[i] == id;
      NodesAre(template, so[i]);
      assert so[i] in so && (prefix + so[i])[|prefix|..] == so[i];
    }
    if id in IdsOf(addon) {
      NodesAre(template, id[|prefix|..]);
      var i :| 0 <= i < |so| && so[i] == id[|prefix|..];
      assert m[i] == id;
    }
  }

  lemma OrderIsDistinct(parent: seq<Step>, template: seq<Step>, prefix: string, after: string, addon: seq<Step>,
                        po: seq<string>, so: seq<string>)
    requires Fits(parent, template, prefix, after, addon) && Ordered(po, parent) && Ordered(so, template)
    ensures Distinct(po + Mapped(prefix, so))
  {
    hide Fits, Ordered, Spliced, Nodes;
    OrdersAreDistinct(parent, template, po, so);
    var m := Mapped(prefix, so);
    var r := po + m;
    forall i, j | 0 <= i < j < |r| ensures r[i] != r[j] {
      if i >= |po| {
        MappedApart(prefix, so, i - |po|, j - |po|);
      } else if j >= |po| {
        OrderLists(parent, template, prefix, after, addon, po, so, r[i]);
        assert po[i] in po && m[j - |po|] in m;
        ApartIds(parent, template, prefix, after, addon, r[i]);
      }
    }
  }

  lemma OrdersAreDistinct(parent: seq<Step>, template: seq<Step>, po: seq<string>, so: seq<string>)
    requires Ordered(po, parent) && Ordered(so, template)
    ensures Distinct(po) && Distinct(so)
  {
  }

  /** What a step needs stands before it. */
  lemma OrderRespects(parent: seq<Step>, template: seq<Step>, prefix: string, after: string, addon: seq<Step>,
                      po: seq<string>, so: seq<string>, i: nat, j: nat)
    requires Fits(parent, template, prefix, after, addon) && Ordered(po, parent) && Ordered(so, template)
    requires var r := po + Mapped(prefix, so);
      i < |r| && j < |r| && Precedes(Nodes(Spliced(parent, addon, after)), Edges(Spliced(parent, addon, after)),
        r[i], r[j])
    ensures i < j
  {
    hide Spliced, Fits, Nodes, Edges;
    var m := Mapped(prefix, so);
    var r := po + m;
    EdgesAre(Spliced(parent, addon, after), r[i], r[j]);
    assert i < |po| ==> r[i] in po;
    assert j < |po| ==> r[j] in po;
    assert i >= |po| ==> m[i - |po|] in m;
    assert j >= |po| ==> m[j - |po|] in m;
    OrderLists(parent, template, prefix, after, addon, po, so, r[i]);
    OrderLists(parent, template, prefix, after, addon, po, so, r[j]);
    if j < |po| {
      ParentNeeds(parent, template, prefix, after, addon, r[i], r[j]);
      EdgesAre(parent, r[i], r[j]);
      InOrder(po, parent, i, j);
    } else if i >= |po| {
      AddonNeeds(parent, template, prefix, after, addon, r[i], r[j]);
      assert (prefix + so[i - |po|])[|prefix|..] == so[i - |po|] && (prefix + so[j - |po|])[|prefix|..] == so[j - |po|];
      EdgesAre(template, so[i - |po|], so[j - |po|]);
      InOrder(so, template, i - |po|, j - |po|);
    }
  }

  lemma InOrder(order: seq<string>, steps: seq<Step>, i: nat, j: nat)
    requires Ordered(order, steps) && i < |order| && j < |order| && order[i] != order[j]
      && (order[i], order[j]) in Edges(steps)
    ensures i < j
  {
    assert order[i] in order && order[j] in order;
  }

  /** An order of the plan and one of the template make one of the plan with the addon in it. */
  lemma SplicedOrder(parent: seq<Step>, template: seq<Step>, prefix: string, after: string, addon: seq<Step>,
                     po: seq<string>, so: seq<string>)
    requires Fits(parent, template, prefix, after, addon) && Ordered(po, parent) && Ordered(so, template)
    ensures Ordered(po + Mapped(prefix, so), Spliced(parent, addon, after))
  {
    hide Fits, Spliced, Nodes, Edges;
    var r := po + Mapped(prefix, so);
    OrderIsDistinct(parent, template, prefix, after, addon, po, so);
    forall id ensures id in r <==> id in Nodes(Spliced(parent, addon, after)) {
      OrderLists(parent, template, prefix, after, addon, po, so, id);
    }
    forall i, j | 0 <= i < |r| && 0 <= j < |r|
        && Precedes(Nodes(Spliced(parent, addon, after)), Edges(Spliced(parent, addon, after)), r[i], r[j])
      ensures i < j
    {
      OrderRespects(parent, template, prefix, after, addon, po, so, i, j);
    }
  }

  /** The scheduler finds an order for the plan with the addon in it when it does for the plan and the template. */
  lemma AddonsCloseNoCycle(parent: seq<Step>, template: seq<Step>, prefix: string, after: string, addon: seq<Step>)
    requires Fits(parent, template, prefix, after, addon)
    requires !Scheduler.HasCycle(Plain(parent)) && !Scheduler.HasCycle(Plain(template))
    ensures !Scheduler.HasCycle(Plain(Spliced(parent, addon, after)))
  {
    var po := AcyclicHasOrder(Nodes(parent), Edges(parent));
    var so := AcyclicHasOrder(Nodes(template), Edges(template));
    SplicedOrder(parent, template, prefix, after, addon, po, so);
    var all := Spliced(parent, addon, after);
    TopologicalIsAcyclic(po + Mapped(prefix, so), Nodes(all), Edges(all));
  }

  // ---------- Behind the insertion step ----------

  /** b depends on a, by itself or by what it depends on. */
  ghost predicate Behind(steps: seq<Step>, a: string, b: string) {
    exists p: seq<string> :: Leads(steps, a, b, p)
  }

  ghost predicate Leads(steps: seq<Step>, a: string, b: string, p: seq<string>) {
    |p| >= 2 && p[0] == a && p[|p| - 1] == b && Path(Nodes(steps), Edges(steps), p)
  }

  /** A step that depends on steps of the template depends on one other than itself. */
  ghost predicate NotJustItself(template: seq<Step>) {
    forall i :: 0 <= i < |template| ==> IsRoot(template[i], IdsOf(template)) || DependsOnAnother(template, template[i])
  }

  ghost predicate DependsOnAnother(template: seq<Step>, s: Step) {
    exists k :: 0 <= k < |s.dependsOn| && s.dependsOn[k] in IdsOf(template) && s.dependsOn[k] != IdOf(s)
  }

  lemma DirectlyBehind(steps: seq<Step>, a: string, b: string)
    requires a in Nodes(steps) && b in Nodes(steps) && a != b && (a, b) in Edges(steps)
    ensures Behind(steps, a, b)
  {
    hide Nodes, Edges;
    var p := [a, b];
    assert Linked(Nodes(steps), Edges(steps), p, 0);
    assert Leads(steps, a, b, p);
  }

  lemma FartherBehind(steps: seq<Step>, a: string, b: string, c: string)
    requires Behind(steps, a, b) && c in Nodes(steps) && b != c && (b, c) in Edges(steps)
    ensures Behind(steps, a, c)
  {
    hide Nodes, Edges;
    var p: seq<string> :| Leads(steps, a, b, p);
    var q := p + [c];
    assert p[|p| - 1] in Nodes(steps);
    forall i | 0 <= i < |q| - 1 ensures Linked(Nodes(steps), Edges(steps), q, i) {
      assert i < |p| - 1 ==> Linked(Nodes(steps), Edges(steps), p, i);
    }
    assert Leads(steps, a, c, q);
  }

  /** Addon step i needs a. */
  lemma AddonEdge(parent: seq<Step>, template: seq<Step>, prefix: string, after: string, addon: seq<Step>, i: nat,
                  a: string)
    requires Fits(parent, template, prefix, after, addon) && i < |addon| && a in addon[i].dependsOn
    ensures var all := Spliced(parent, addon, after); IdOf(addon[i]) in Nodes(all) && (a, IdOf(addon[i])) in Edges(all)
  {
    var all := Spliced(parent, addon, after);
    SplicedHas(parent, addon, after, addon[i]);
    EdgesAre(all, a, IdOf(addon[i]));
    NodesAre(all, IdOf(addon[i]));
  }

  lemma InBoth(parent: seq<Step>, addon: seq<Step>, after: string, id: string)
    requires id in IdsOf(parent) || id in IdsOf(addon)
    ensures id in Nodes(Spliced(parent, addon, after))
  {
    NodesAre(parent, id);
    NodesAre(addon, id);
    NodesAre(Spliced(parent, addon, after), id);
    if t :| t in parent && IdOf(t) == id {
      SplicedHas(parent, addon, after, t);
    }
    if t :| t in addon && IdOf(t) == id {
      SplicedHas(parent, addon, after, t);
    }
  }

  /** Every step of the addon runs behind the insertion step. */
  lemma {:induction false} BehindInsertion(parent: seq<Step>, template: seq<Step>, prefix: string, after: string,
                                           addon: seq<Step>, so: seq<string>, i: nat, at: nat)
    requires Fits(parent, template, prefix, after, addon) && Ordered(so, template) && NotJustItself(template)
      && after in IdsOf(parent)
    requires i < |addon| && at < |so| && so[at] == IdOf(template[i])
    ensures Behind(Spliced(parent, addon, after), after, IdOf(addon[i]))
    decreases at
  {
    hide Spliced, Nodes, Edges, Behind, Ordered;
    var s, t, all := template[i], addon[i], Spliced(parent, addon, after);
    assert Became(template, prefix, after, IdsOf(addon), i, t);
    if IsRoot(s, IdsOf(template)) {
      AddonEdge(parent, template, prefix, after, addon, i, after);
      InBoth(parent, addon, after, after);
      ApartIds(parent, template, prefix, after, addon, after);
      assert IdOf(t) in IdsOf(addon);
      DirectlyBehind(all, after, IdOf(t));
    } else {
      var k :| 0 <= k < |s.dependsOn| && s.dependsOn[k] in IdsOf(template) && s.dependsOn[k] != IdOf(s);
      var e := s.dependsOn[k];
      var at', i' := Earlier(template, so, i, at, e);
      BehindInsertion(parent, template, prefix, after, addon, so, i', at');
      assert Became(template, prefix, after, IdsOf(addon), i', addon[i']);
      assert e in s.dependsOn;
      AddonEdge(parent, template, prefix, after, addon, i, prefix + e);
      assert (prefix + e)[|prefix|..] == e && (prefix + IdOf(s))[|prefix|..] == IdOf(s);
      FartherBehind(all, after, prefix + e, IdOf(t));
    }
  }

  lemma Earlier(template: seq<Step>, so: seq<string>, i: nat, at: nat, e: string) returns (at': nat, i': nat)
    requires Ordered(so, template) && i < |template| && at < |so| && so[at] == IdOf(template[i])
    requires e in template[i].dependsOn && e in IdsOf(template) && e != IdOf(template[i])
    ensures at' < at && so[at'] == e && i' < |template| && IdOf(template[i']) == e
  {
    NodesAre(template, e);
    i' :| 0 <= i' < |template| && IdOf(template[i']) == e;
    at' :| 0 <= at' < |so| && so[at'] == e;
    assert template[i] in template;
    EdgesAre(template, e, IdOf(template[i]));
    InOrder(so, template, at', at);
  }

  lemma AddonsRunAfter(parent: seq<Step>, template: seq<Step>, prefix: string, after: string, addon: seq<Step>, i: nat)
    requires Fits(parent, template, prefix, after, addon) && NotJustItself(template) && after in IdsOf(parent)
      && i < |addon|
    requires !Scheduler.HasCycle(Plain(template))
    ensures Behind(Spliced(parent, addon, after), after, IdOf(addon[i]))
  {
    var so := AcyclicHasOrder(Nodes(template), Edges(template));
    NodesAre(template, IdOf(template[i]));
    assert template[i] in template;
    var at :| 0 <= at < |so| && so[at] == IdOf(template[i]);
    BehindInsertion(parent, template, prefix, after, addon, so, i, at);
  }
}

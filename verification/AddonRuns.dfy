/** The plan any list of addons is composed to, as it comes to be run: with the dependencies its references
    imply (intent/autowire.go), and no step depending on itself, as validation has it (plan/validate.go). */
module AddonRuns {
  import opened AddonLists
  import opened AddonNames
  import opened AddonOrder
  import opened AddonPlans
  import opened AddonRefs
  import opened AddonTheorems
  import opened Addons
  import opened Compose
  import opened TopoOrder

  // ---------- The references' dependencies close no cycle ----------

  /** The scheduler can order the steps with all their dependencies, and each of them has a name. */
  ghost predicate Ready(steps: seq<Step>) {
    Orderly(Injected(steps, false)) && "" !in IdsOf(steps)
  }

  ghost predicate TemplatesReady(addons: seq<Addon>) {
    forall j :: 0 <= j < |addons| && addons[j].template.Some? ==> Ready(addons[j].template.value)
  }

  ghost predicate RefsClearOf(steps: seq<Step>, addons: seq<Addon>) {
    LaterRefsClear(steps, 0, |addons|)
  }

  lemma MoreNeeds(steps: seq<Step>, a: string, b: string)
    requires Needs(steps, a, b)
    ensures Needs(Injected(steps, false), a, b)
  {
    var s :| s in steps && IdOf(s) == b && a in s.dependsOn;
    var i :| 0 <= i < |steps| && steps[i] == s;
    DepsAre(IdsOf(steps), false, IdOf(s), s.dependsOn, s.refs, |s.refs|, a);
    assert Injected(steps, false)[i] in Injected(steps, false);
  }

  lemma SameNodes(steps: seq<Step>)
    ensures Nodes(Injected(steps, false)) == Nodes(steps)
  {
    hide Nodes;
    InjectedIds(steps, false);
    forall id ensures id in Nodes(Injected(steps, false)) <==> id in Nodes(steps) {
      NodesAre(steps, id);
      NodesAre(Injected(steps, false), id);
    }
  }

  /** So it can with those written alone. */
  lemma ReadyIsOrderly(steps: seq<Step>)
    requires Ready(steps)
    ensures Orderly(steps)
  {
    var all := Injected(steps, false);
    InjectedIds(steps, false);
    SameNodes(steps);
    var order := AcyclicHasOrder(Nodes(all), Edges(all));
    forall i, j | 0 <= i < |order| && 0 <= j < |order| && Precedes(Nodes(steps), Edges(steps), order[i], order[j])
        ensures i < j {
      EdgesAre(steps, order[i], order[j]);
      MoreNeeds(steps, order[i], order[j]);
      EdgesAre(all, order[i], order[j]);
    }
    TopologicalIsAcyclic(order, Nodes(steps), Edges(steps));
    UniqueAsWell(steps);
  }

  lemma UniqueAsWell(steps: seq<Step>)
    ensures UniqueIds(Injected(steps, false)) <==> UniqueIds(steps)
  {
    var all := Injected(steps, false);
    forall i | 0 <= i < |steps| ensures IdOf(all[i]) == IdOf(steps[i]) {
    }
  }

  /** What ran behind a step does so with more dependencies. */
  lemma BehindAsWell(steps: seq<Step>, a: string, b: string)
    requires Behind(steps, a, b)
    ensures Behind(Injected(steps, false), a, b)
  {
    hide Nodes, Edges, Injected;
    var all := Injected(steps, false);
    var p: seq<string> :| Leads(steps, a, b, p);
    SameNodes(steps);
    forall i | 0 <= i < |p| - 1 ensures Linked(Nodes(all), Edges(all), p, i) {
      assert Linked(Nodes(steps), Edges(steps), p, i);
      EdgesAre(steps, p[i], p[i + 1]);
      MoreNeeds(steps, p[i], p[i + 1]);
      EdgesAre(all, p[i], p[i + 1]);
    }
    assert Leads(all, a, b, p);
  }

  /** One addon more, with the references' dependencies on both sides. */
  lemma StaysReady(parent: seq<Step>, template: seq<Step>, prefix: string, wire: map<string, string>,
                   outputs: map<string, string>, after: string)
    requires NoDot(prefix) && CleanTemplate(prefix, template) && CleanValues(prefix, wire)
      && CleanValues(prefix, outputs)
    requires Fits(parent, template, prefix, after, AddonSteps(template, prefix, wire, outputs, after))
      && RefsClear(parent, prefix)
    requires Orderly(Injected(parent, false)) && Ready(template)
    ensures Orderly(Injected(Spliced(parent, AddonSteps(template, prefix, wire, outputs, after), after), false))
  {
    hide AddonSteps, Spliced, Injected, Orderly, AllSettled, Untouched, CleanTemplate, RefsClear, IdsOf;
    var a := AddonSteps(template, prefix, wire, outputs, after);
    ParentSettled(parent, template, prefix, after, a);
    forall id | id in IdsOf(a) ensures id in IdsOf(Spliced(parent, a, after)) {
      EitherId(parent, a, after, id);
    }
    AddonSettled(template, prefix, wire, outputs, after, IdsOf(Spliced(parent, a, after)));
    InjectedSplits(parent, a, after);
    InjectedIsMade(template, prefix, wire, outputs, after);
    InjectedUntouched(parent, prefix);
    StaysOrderly(Injected(parent, false), Injected(template, false), prefix, after, Injected(a, false));
  }

  lemma InjectedUntouched(steps: seq<Step>, prefix: string)
    requires Untouched(steps, prefix) && RefsClear(steps, prefix)
    ensures Untouched(Injected(steps, false), prefix)
  {
    var all := Injected(steps, false);
    forall i | 0 <= i < |all|
      ensures !StartsWith(prefix, IdOf(all[i]))
        && forall k :: 0 <= k < |all[i].dependsOn| ==> !StartsWith(prefix, all[i].dependsOn[k])
    {
      InjectClean(prefix, steps[i], IdsOf(steps), false);
    }
  }

  // ---------- Any list of addons ----------

  /** What holds besides when n addons are in. */
  ghost predicate KeptReady(p: Progress, addons: seq<Addon>, n: nat)
    requires p.Going?
  {
    LaterRefsClear(p.steps, n, |addons|) && Orderly(Injected(p.steps, false))
  }

  lemma OneMoreReady(p: Progress, steps: seq<Step>, addons: seq<Addon>, n: nat, given: map<string, seq<string>>)
    requires n < |addons| && p.Going? && Kept(p, steps, addons, n) && NamesClear(steps, addons)
      && KeptReady(p, addons, n) && TemplatesReady(addons)
    ensures var q := AddOne(p, addons[n], n, given); q.Going? ==> KeptReady(q, addons, n + 1)
  {
    hide AddonSteps, Spliced, Untouched, MadeFrom, Orderly, RunsBehind, Own, CleanTemplate, RefsClear, IdsOf;
    var q := AddOne(p, addons[n], n, given);
    if q.Going? {
      var a, after := addons[n], Place(p.steps, addons[n].nodes, p.last, 0).0;
      var wire, outputs := ResolvedWire(a.wire, after), OutputMap(p.steps, given, |p.steps|);
      var addon := AddonSteps(a.template.value, Prefix(n), wire, outputs, after);
      assert Brings(p, a, n, given, after, addon);
      hide OutputMap, ResolvedWire, Place, Prefix;
      BringsFit(p, steps, addons, n, given, after, addon);
      ValuesClear(p, steps, addons, n, given, after, n);
      PrefixHas(n);
      assert RefsClear(p.steps, Prefix(n));
      StaysReady(p.steps, a.template.value, Prefix(n), wire, outputs, after);
      forall k: nat | n + 1 <= k < |addons| ensures RefsClear(q.steps, Prefix(k)) {
        ValuesClear(p, steps, addons, n, given, after, k);
        AddonRefsClear(a.template.value, n, k, wire, outputs, after);
        assert RefsClear(p.steps, Prefix(k));
        RefsStayClear(p.steps, addon, after, Prefix(k));
      }
    }
  }

  lemma ValuesClear(p: Progress, steps: seq<Step>, addons: seq<Addon>, n: nat, given: map<string, seq<string>>,
                    after: string, k: nat)
    requires n <= k < |addons| && p.Going? && Kept(p, steps, addons, n) && NamesClear(steps, addons)
    requires addons[n].template.Some? && after in IdsOf(p.steps)
    ensures CleanTemplate(Prefix(k), addons[n].template.value)
    ensures CleanValues(Prefix(k), ResolvedWire(addons[n].wire, after))
    ensures CleanValues(Prefix(k), OutputMap(p.steps, given, |p.steps|))
  {
    hide ResolvedWire, OutputMap, Prefix, RunsBehind, Orderly, Own;
    PrefixHas(k);
    assert Untouched(p.steps, Prefix(k)) && Untouched(steps, Prefix(k)) && AddonClear(addons[n], Prefix(k));
    StepUntouched(p.steps, Prefix(k), after);
    ResolvedClean(Prefix(k), addons[n].wire, after);
    OutputsClean(Prefix(k), p.steps, given);
    CleanMapValues(Prefix(k), ResolvedWire(addons[n].wire, after));
    CleanMapValues(Prefix(k), OutputMap(p.steps, given, |p.steps|));
  }

  lemma ReadyAreOrderly(addons: seq<Addon>)
    requires TemplatesReady(addons)
    ensures TemplatesOrderly(addons)
  {
    hide Orderly, Ready;
    forall j | 0 <= j < |addons| && addons[j].template.Some? ensures Orderly(addons[j].template.value) {
      ReadyIsOrderly(addons[j].template.value);
    }
  }

  /** However many addons are in, the scheduler can order the plan with the dependencies of all its references. */
  lemma {:induction false} AddonsAreReady(steps: seq<Step>, addons: seq<Addon>, given: map<string, seq<string>>, n: nat)
    requires n <= |addons| && NamesClear(steps, addons) && RefsClearOf(steps, addons) && TemplatesReady(addons)
      && Ready(steps)
    ensures var p := AddAll(steps, addons, given, n);
      Orderly(Injected(p.steps, false)) && (p.Going? ==> Kept(p, steps, addons, n) && KeptReady(p, addons, n))
  {
    hide Kept, AddOne, NamesClear, TemplatesOrderly, Orderly, Own, TemplatesReady, LaterRefsClear;
    ReadyIsOrderly(steps);
    ReadyAreOrderly(addons);
    AddonsAreSound(steps, addons, given, n);
    if n > 0 {
      AddonsAreReady(steps, addons, given, n - 1);
      var p := AddAll(steps, addons, given, n - 1);
      if p.Going? {
        OneMoreReady(p, steps, addons, n - 1, given);
        StoppedSteps(p, addons[n - 1], n - 1, given);
      }
    }
  }

  lemma StoppedSteps(p: Progress, a: Addon, i: nat, given: map<string, seq<string>>)
    requires p.Going?
    ensures AddOne(p, a, i, given).Stopped? ==> AddOne(p, a, i, given).steps == p.steps
  {
  }

  // ---------- Behind the insertion step, in a plan that is valid ----------

  /** No step depends on itself; validation refuses a plan in which one does. */
  ghost predicate NoSelf(steps: seq<Step>) {
    forall i :: 0 <= i < |steps| ==> IdOf(steps[i]) !in steps[i].dependsOn
  }

  lemma NoSelfIsEnough(template: seq<Step>)
    requires NoSelf(template)
    ensures NotJustItself(template)
  {
    forall i | 0 <= i < |template|
        ensures IsRoot(template[i], IdsOf(template)) || DependsOnAnother(template, template[i]) {
      if !IsRoot(template[i], IdsOf(template)) {
        var k :| 0 <= k < |template[i].dependsOn| && template[i].dependsOn[k] in IdsOf(template);
        assert template[i].dependsOn[k] in template[i].dependsOn;
      }
    }
  }

  /** Step t of addon j is in the plan, and depends on itself if the template's does. */
  ghost predicate Brought(steps: seq<Step>, template: seq<Step>, prefix: string, t: nat)
    requires t < |template|
  {
    exists s :: s in steps && IdOf(s) == prefix + IdOf(template[t])
      && (IdOf(template[t]) in template[t].dependsOn ==> IdOf(s) in s.dependsOn)
  }

  ghost predicate AllBrought(steps: seq<Step>, addons: seq<Addon>, n: nat)
    requires n <= |addons|
  {
    forall j: nat, t: nat | j < n && addons[j].template.Some? && t < |addons[j].template.value| ::
      Brought(steps, addons[j].template.value, Prefix(j), t)
  }

  lemma NewBrought(parent: seq<Step>, template: seq<Step>, prefix: string, after: string, addon: seq<Step>, t: nat)
    requires MadeFrom(template, prefix, after, addon) && t < |template|
    ensures Brought(Spliced(parent, addon, after), template, prefix, t)
  {
    hide Spliced;
    assert Became(template, prefix, after, IdsOf(addon), t, addon[t]);
    SplicedHas(parent, addon, after, addon[t]);
    if IdOf(template[t]) in template[t].dependsOn {
      assert IdOf(template[t]) in IdsOf(template);
    }
  }

  lemma OldBrought(parent: seq<Step>, addon: seq<Step>, after: string, template: seq<Step>, prefix: string, t: nat)
    requires t < |template| && Brought(parent, template, prefix, t)
    ensures Brought(Spliced(parent, addon, after), template, prefix, t)
  {
    hide Spliced;
    var s :| s in parent && IdOf(s) == prefix + IdOf(template[t])
      && (IdOf(template[t]) in template[t].dependsOn ==> IdOf(s) in s.dependsOn);
    SplicedHas(parent, addon, after, s);
  }

  lemma OneMoreBrought(p: Progress, steps: seq<Step>, addons: seq<Addon>, n: nat, given: map<string, seq<string>>)
    requires n < |addons| && p.Going? && Kept(p, steps, addons, n) && NamesClear(steps, addons)
      && AllBrought(p.steps, addons, n)
    ensures var q := AddOne(p, addons[n], n, given); q.Going? ==> AllBrought(q.steps, addons, n + 1)
  {
    hide AddonSteps, Spliced, Untouched, MadeFrom, Orderly, RunsBehind, Own, Brought, IdsOf;
    var q := AddOne(p, addons[n], n, given);
    if q.Going? {
      var a, after := addons[n], Place(p.steps, addons[n].nodes, p.last, 0).0;
      var addon := AddonSteps(a.template.value, Prefix(n), ResolvedWire(a.wire, after),
        OutputMap(p.steps, given, |p.steps|), after);
      assert Brings(p, a, n, given, after, addon);
      hide OutputMap, ResolvedWire, Place, Prefix;
      BringsFit(p, steps, addons, n, given, after, addon);
      forall j: nat, t: nat | j < n + 1 && addons[j].template.Some? && t < |addons[j].template.value|
        ensures Brought(q.steps, addons[j].template.value, Prefix(j), t)
      {
        if j < n {
          OldBrought(p.steps, addon, after, addons[j].template.value, Prefix(j), t);
        } else {
          NewBrought(p.steps, a.template.value, Prefix(n), after, addon, t);
        }
      }
    }
  }

  lemma {:induction false} AddonsAreBrought(steps: seq<Step>, addons: seq<Addon>, given: map<string, seq<string>>,
                                            n: nat)
    requires n <= |addons| && NamesClear(steps, addons) && TemplatesOrderly(addons) && Orderly(steps)
    ensures var p := AddAll(steps, addons, given, n); p.Going? ==> AllBrought(p.steps, addons, n)
  {
    hide Kept, AddOne, NamesClear, TemplatesOrderly, Orderly, Own, Brought;
    if n > 0 {
      AddonsAreBrought(steps, addons, given, n - 1);
      AddonsAreSound(steps, addons, given, n - 1);
      var p := AddAll(steps, addons, given, n - 1);
      if p.Going? {
        OneMoreBrought(p, steps, addons, n - 1, given);
      }
    }
  }

  /** A template with a step that depends on itself makes a plan with one, which validation refuses. */
  lemma SelfComesAlong(steps: seq<Step>, addons: seq<Addon>, n: nat, j: nat)
    requires j < n <= |addons| && addons[j].template.Some? && AllBrought(steps, addons, n) && NoSelf(steps)
    ensures NoSelf(addons[j].template.value)
  {
    var template := addons[j].template.value;
    forall t | 0 <= t < |template| ensures IdOf(template[t]) !in template[t].dependsOn {
      assert Brought(steps, template, Prefix(j), t);
      var s :| s in steps && IdOf(s) == Prefix(j) + IdOf(template[t])
        && (IdOf(template[t]) in template[t].dependsOn ==> IdOf(s) in s.dependsOn);
      var i :| 0 <= i < |steps| && steps[i] == s;
    }
  }

  /** In a plan validation accepts, every step of every addon runs behind the step the addon was put after,
      and the scheduler can order them all. */
  lemma AddonsRunBehind(steps: seq<Step>, addons: seq<Addon>, given: map<string, seq<string>>, n: nat, j: nat)
    requires n <= |addons| && NamesClear(steps, addons) && RefsClearOf(steps, addons) && TemplatesReady(addons)
      && Ready(steps)
    requires AddAll(steps, addons, given, n).Going? && NoSelf(AddAll(steps, addons, given, n).steps) && j < n
    ensures var p := AddAll(steps, addons, given, n);
      && Orderly(Injected(p.steps, false)) && |p.placed| == n && addons[j].template.Some?
      && p.placed[j] in IdsOf(p.steps)
      && AllBehind(Injected(p.steps, false), addons[j].template.value, Prefix(j), p.placed[j])
  {
    hide AddAll, Orderly, Injected, Behind, NamesClear, NoSelf, TemplatesReady, TemplatesOrderly, AllBrought,
      RefsClearOf, NotJustItself;
    AddonsAreReady(steps, addons, given, n);
    ReadyIsOrderly(steps);
    ReadyAreOrderly(addons);
    AddonsAreBrought(steps, addons, given, n);
    var p := AddAll(steps, addons, given, n);
    assert RunsBehind(p.steps, addons, p.placed, j);
    SelfComesAlong(p.steps, addons, n, j);
    var template := addons[j].template.value;
    NoSelfIsEnough(template);
    forall t | 0 <= t < |template|
        ensures Behind(Injected(p.steps, false), p.placed[j], Prefix(j) + IdOf(template[t])) {
      BehindAsWell(p.steps, p.placed[j], Prefix(j) + IdOf(template[t]));
    }
  }
}

/** What adding a list of addons keeps (intent/compose.go composeAddonList), for any addons and plan. */
module AddonTheorems {
  import opened AddonLists
  import opened AddonNames
  import opened AddonOrder
  import opened AddonPlans
  import opened Addons
  import opened Compose

  /** The names of the plan, and what the addons' templates and wires name, begin with no addon's prefix. */
  ghost predicate NamesClear(steps: seq<Step>, addons: seq<Addon>) {
    forall k: nat :: k < |addons|
      ==> Untouched(steps, Prefix(k)) && forall j: nat :: j < |addons| ==> AddonClear(addons[j], Prefix(k))
  }

  ghost predicate AddonClear(a: Addon, prefix: string) {
    (a.template.Some? ==> CleanTemplate(prefix, a.template.value)) && CleanMap(prefix, a.wire)
  }

  /** A plan or a template the scheduler can order: its IDs are distinct, and its dependencies without cycle. */
  ghost predicate Orderly(steps: seq<Step>) {
    UniqueIds(steps) && !Scheduler.HasCycle(Plain(steps))
  }

  ghost predicate TemplatesOrderly(addons: seq<Addon>) {
    forall j :: 0 <= j < |addons| && addons[j].template.Some? ==> Orderly(addons[j].template.value)
  }

  /** Every step of addon j runs behind the step it was put after. */
  ghost predicate RunsBehind(steps: seq<Step>, addons: seq<Addon>, placed: seq<string>, j: nat)
    requires j < |placed| <= |addons|
  {
    && addons[j].template.Some? && placed[j] in IdsOf(steps)
    && (NotJustItself(addons[j].template.value) ==> AllBehind(steps, addons[j].template.value, Prefix(j), placed[j]))
  }

  ghost predicate AllBehind(steps: seq<Step>, template: seq<Step>, prefix: string, after: string) {
    forall t :: 0 <= t < |template| ==> Behind(steps, after, prefix + IdOf(template[t]))
  }

  ghost predicate LastsAre(last: map<string, string>, ids: set<string>) {
    forall n :: n in last ==> last[n] in ids
  }

  ghost predicate LaterClear(steps: seq<Step>, n: nat, all: nat) {
    forall k: nat :: n <= k < all ==> Untouched(steps, Prefix(k))
  }

  /** What holds when n addons are in. */
  ghost predicate Kept(p: Progress, steps: seq<Step>, addons: seq<Addon>, n: nat)
    requires p.Going? && n <= |addons|
  {
    && LaterClear(p.steps, n, |addons|) && Orderly(p.steps)
    && Own(p.steps, IdsOf(steps), |p.steps|) == steps
    && LastsAre(p.last, IdsOf(p.steps)) && |p.placed| == n
    && forall j: nat :: j < n ==> RunsBehind(p.steps, addons, p.placed, j)
  }

  lemma StartsKept(steps: seq<Step>, addons: seq<Addon>)
    requires NamesClear(steps, addons) && Orderly(steps)
    ensures Kept(Going(steps, map[], []), steps, addons, 0)
  {
    AllOwn(steps, IdsOf(steps), |steps|);
    assert steps[..|steps|] == steps;
  }

  // ---------- One more ----------

  /** Where the addon goes, and the steps it brings. */
  ghost predicate Brings(p: Progress, a: Addon, i: nat, given: map<string, seq<string>>, after: string,
                         addon: seq<Step>)
    requires p.Going? && a.template.Some?
  {
    && after == Place(p.steps, a.nodes, p.last, 0).0 != ""
    && addon == AddonSteps(a.template.value, Prefix(i), ResolvedWire(a.wire, after),
      OutputMap(p.steps, given, |p.steps|), after)
    && a.template.value != []
  }

  lemma BringsFit(p: Progress, steps: seq<Step>, addons: seq<Addon>, n: nat, given: map<string, seq<string>>,
                  after: string, addon: seq<Step>)
    requires n < |addons| && p.Going? && Kept(p, steps, addons, n) && NamesClear(steps, addons)
    requires addons[n].template.Some? && Brings(p, addons[n], n, given, after, addon)
    ensures after in IdsOf(p.steps) && Fits(p.steps, addons[n].template.value, Prefix(n), after, addon)
  {
    hide AddonSteps, MadeFrom, OutputMap, ResolvedWire, Prefix, RunsBehind, Orderly, Own;
    var a := addons[n];
    PlaceIsAStep(p.steps, a.nodes, p.last, 0);
    PrefixHas(n);
    assert Untouched(p.steps, Prefix(n)) && Untouched(steps, Prefix(n)) && AddonClear(a, Prefix(n));
    CleanIsFresh(a.template.value, Prefix(n));
    StepUntouched(p.steps, Prefix(n), after);
    AddonIsMade(a.template.value, Prefix(n), ResolvedWire(a.wire, after), OutputMap(p.steps, given, |p.steps|), after);
  }

  lemma CleanIsFresh(template: seq<Step>, prefix: string)
    requires CleanTemplate(prefix, template)
    ensures FreshNames(template, prefix)
  {
    forall i, k | 0 <= i < |template| && 0 <= k < |template[i].dependsOn|
        ensures !StartsWith(prefix, template[i].dependsOn[k]) {
      assert CleanStep(prefix, template[i]);
    }
  }

  lemma StepUntouched(steps: seq<Step>, prefix: string, id: string)
    requires Untouched(steps, prefix) && id in IdsOf(steps)
    ensures !StartsWith(prefix, id)
  {
  }

  lemma NoStepStarts(steps: seq<Step>, prefix: string, id: string)
    requires Untouched(steps, prefix)
    ensures StartsWith(prefix, id) ==> id !in IdsOf(steps)
  {
    if id in IdsOf(steps) {
      StepUntouched(steps, prefix, id);
    }
  }

  /** A later addon's prefix is still nowhere in the plan. */
  lemma LaterStaysClear(p: Progress, steps: seq<Step>, addons: seq<Addon>, n: nat, given: map<string, seq<string>>,
                        after: string, addon: seq<Step>, k: nat)
    requires n < k < |addons| && p.Going? && Kept(p, steps, addons, n) && NamesClear(steps, addons)
    requires addons[n].template.Some? && Brings(p, addons[n], n, given, after, addon) && after in IdsOf(p.steps)
    ensures Untouched(Spliced(p.steps, addon, after), Prefix(k))
  {
    hide OutputMap, ResolvedWire, Prefix, RunsBehind, Orderly, Own, StartsWith, Spliced;
    var a := addons[n];
    PrefixHas(k);
    assert Untouched(p.steps, Prefix(k)) && Untouched(steps, Prefix(k)) && AddonClear(a, Prefix(k));
    StepUntouched(p.steps, Prefix(k), after);
    ResolvedClean(Prefix(k), a.wire, after);
    OutputsClean(Prefix(k), p.steps, given);
    hide AddonSteps;
    AddonIds(a.template.value, Prefix(n), ResolvedWire(a.wire, after), OutputMap(p.steps, given, |p.steps|), after) by {
      PrefixHas(n);
    }
    SameSize(addon, Renamed(a.template.value, Prefix(n)));
    forall t | 0 <= t < |addon|
        ensures !StartsWith(Prefix(k), IdOf(addon[t])) && AllClean(Prefix(k), addon[t].dependsOn) {
      assert CleanStep(Prefix(k), a.template.value[t]);
      AddonClean(a.template.value, n, k, ResolvedWire(a.wire, after), OutputMap(p.steps, given, |p.steps|), after, t);
    }
    StaysUntouched(p.steps, addon, after, Prefix(k));
  }

  lemma StaysOrderly(parent: seq<Step>, template: seq<Step>, prefix: string, after: string, addon: seq<Step>)
    requires Fits(parent, template, prefix, after, addon) && Orderly(parent) && Orderly(template)
    ensures Orderly(Spliced(parent, addon, after)) && IdsOf(parent) !! IdsOf(addon)
  {
    hide Scheduler.HasCycle, Plain, Spliced;
    AddonsCloseNoCycle(parent, template, prefix, after, addon);
    MadeUnique(template, prefix, after, addon);
    forall id | id in IdsOf(parent) ensures id !in IdsOf(addon) {
      ApartIds(parent, template, prefix, after, addon, id);
    }
    SplicedUnique(parent, addon, after);
  }

  lemma NewBehind(parent: seq<Step>, template: seq<Step>, prefix: string, after: string, addon: seq<Step>)
    requires Fits(parent, template, prefix, after, addon) && Orderly(template) && after in IdsOf(parent)
    ensures NotJustItself(template) ==> AllBehind(Spliced(parent, addon, after), template, prefix, after)
  {
    hide Scheduler.HasCycle, Plain, Spliced, Behind, NotJustItself;
    if NotJustItself(template) {
      forall t | 0 <= t < |template| ensures Behind(Spliced(parent, addon, after), after, prefix + IdOf(template[t])) {
        AddonsRunAfter(parent, template, prefix, after, addon, t);
        assert Became(template, prefix, after, IdsOf(addon), t, addon[t]);
      }
    }
  }

  lemma OldBehind(parent: seq<Step>, addon: seq<Step>, after: string, addons: seq<Addon>, placed: seq<string>, j: nat)
    requires j < |placed| < |addons| && RunsBehind(parent, addons, placed, j)
    ensures RunsBehind(Spliced(parent, addon, after), addons, placed + [after], j)
  {
    hide Behind, Spliced, NotJustItself;
    var all, template := Spliced(parent, addon, after), addons[j].template.value;
    InBoth(parent, addon, after, placed[j]);
    NodesAre(all, placed[j]);
    if NotJustItself(template) {
      forall t | 0 <= t < |template| ensures Behind(all, placed[j], Prefix(j) + IdOf(template[t])) {
        StaysBehind(parent, addon, after, placed[j], Prefix(j) + IdOf(template[t]));
      }
    }
  }

  lemma MoreIds(parent: seq<Step>, addon: seq<Step>, after: string, id: string)
    requires id in IdsOf(parent) || id in IdsOf(addon)
    ensures id in IdsOf(Spliced(parent, addon, after))
  {
    InBoth(parent, addon, after, id);
    NodesAre(Spliced(parent, addon, after), id);
  }

  lemma OwnStays(p: Progress, steps: seq<Step>, addons: seq<Addon>, n: nat, after: string, addon: seq<Step>,
                 template: seq<Step>)
    requires n < |addons| && p.Going? && Kept(p, steps, addons, n) && NamesClear(steps, addons)
    requires MadeFrom(template, Prefix(n), after, addon)
    ensures Own(Spliced(p.steps, addon, after), IdsOf(steps), |Spliced(p.steps, addon, after)|) == steps
  {
    hide RunsBehind, Orderly, Own, Spliced, Prefix;
    assert Untouched(steps, Prefix(n));
    forall i | 0 <= i < |addon| ensures IdOf(addon[i]) !in IdsOf(steps) {
      MadeIds(template, Prefix(n), after, addon, IdOf(addon[i]));
      assert IdOf(addon[i]) in IdsOf(addon);
      NoStepStarts(steps, Prefix(n), IdOf(addon[i]));
    }
    SplicedOwn(p.steps, addon, after, IdsOf(steps));
  }

  /** Adding one addon keeps all of it. */
  lemma OneMoreKept(p: Progress, steps: seq<Step>, addons: seq<Addon>, n: nat, given: map<string, seq<string>>)
    requires n < |addons| && p.Going? && Kept(p, steps, addons, n) && NamesClear(steps, addons)
      && TemplatesOrderly(addons)
    ensures var q := AddOne(p, addons[n], n, given);
      if q.Going? then Kept(q, steps, addons, n + 1) else q.steps == p.steps
  {
    hide AddonSteps, RunsBehind, Own, Spliced, Untouched, MadeFrom, Orderly;
    var q := AddOne(p, addons[n], n, given);
    if q.Going? {
      var a, after := addons[n], Place(p.steps, addons[n].nodes, p.last, 0).0;
      var addon := AddonSteps(a.template.value, Prefix(n), ResolvedWire(a.wire, after),
        OutputMap(p.steps, given, |p.steps|), after);
      assert Brings(p, a, n, given, after, addon);
      hide OutputMap, ResolvedWire, Place, Prefix;
      BringsFit(p, steps, addons, n, given, after, addon);
      forall k: nat | n + 1 <= k < |addons| ensures Untouched(q.steps, Prefix(k)) {
        LaterStaysClear(p, steps, addons, n, given, after, addon, k);
      }
      StaysOrderly(p.steps, a.template.value, Prefix(n), after, addon);
      OwnStays(p, steps, addons, n, after, addon, a.template.value);
      LastsStay(p, a, n, given, after, addon);
      forall j: nat | j < n + 1 ensures RunsBehind(q.steps, addons, q.placed, j) {
        if j < n {
          OldBehind(p.steps, addon, after, addons, p.placed, j);
        } else {
          ThisBehind(p, addons, n, after, addon);
        }
      }
    }
  }

  lemma LastsStay(p: Progress, a: Addon, i: nat, given: map<string, seq<string>>, after: string, addon: seq<Step>)
    requires p.Going? && a.template.Some? && Brings(p, a, i, given, after, addon) && LastsAre(p.last, IdsOf(p.steps))
    ensures LastsAre(AddOne(p, a, i, given).last, IdsOf(Spliced(p.steps, addon, after)))
  {
    hide AddonSteps, OutputMap, ResolvedWire, Spliced, IdsOf;
    var last := AddOne(p, a, i, given).last;
    AddonCount(a.template.value, Prefix(i), ResolvedWire(a.wire, after), OutputMap(p.steps, given, |p.steps|), after);
    forall n | n in last ensures last[n] in IdsOf(Spliced(p.steps, addon, after)) {
      LastIn(addon);
      MoreIds(p.steps, addon, after, last[n]);
    }
  }

  lemma LastIn(steps: seq<Step>)
    requires steps != []
    ensures IdOf(steps[|steps| - 1]) in IdsOf(steps)
  {
  }

  lemma ThisBehind(p: Progress, addons: seq<Addon>, n: nat, after: string, addon: seq<Step>)
    requires n < |addons| && p.Going? && |p.placed| == n && addons[n].template.Some?
      && Orderly(addons[n].template.value)
    requires after in IdsOf(p.steps) && Fits(p.steps, addons[n].template.value, Prefix(n), after, addon)
    ensures RunsBehind(Spliced(p.steps, addon, after), addons, p.placed + [after], n)
  {
    hide Fits, Spliced, AllBehind, NotJustItself;
    NewBehind(p.steps, addons[n].template.value, Prefix(n), after, addon);
    MoreIds(p.steps, addon, after, after);
  }

  /** Whatever addons are added, as far as they are: the plan stays one the scheduler can order, its own
      steps are as they were, in their order, and every addon runs behind the step it was put after. */
  lemma {:induction false} AddonsAreSound(steps: seq<Step>, addons: seq<Addon>, given: map<string, seq<string>>, n: nat)
    requires n <= |addons| && NamesClear(steps, addons) && TemplatesOrderly(addons) && Orderly(steps)
    ensures var p := AddAll(steps, addons, given, n);
      if p.Going? then Kept(p, steps, addons, n) else Orderly(p.steps) && Own(p.steps, IdsOf(steps), |p.steps|) == steps
  {
    hide Kept, AddOne, NamesClear, TemplatesOrderly, Orderly, Own;
    if n == 0 {
      StartsKept(steps, addons);
    } else {
      AddonsAreSound(steps, addons, given, n - 1);
      var p := AddAll(steps, addons, given, n - 1);
      if p.Going? {
        OneMoreKept(p, steps, addons, n - 1, given);
        KeptMeans(p, steps, addons, n - 1);
      }
    }
  }

  lemma KeptMeans(p: Progress, steps: seq<Step>, addons: seq<Addon>, n: nat)
    requires p.Going? && n <= |addons| && Kept(p, steps, addons, n)
    ensures Orderly(p.steps) && Own(p.steps, IdsOf(steps), |p.steps|) == steps
  {
  }
}

/** Which templates an addon's insertion step always precedes (intent/compose.go isRootStep, addInsertionDeps). */
module AddonExact {
  import opened AddonLists
  import opened AddonNames
  import opened AddonOrder
  import opened AddonPlans
  import opened Addons
  import opened TopoOrder

  /** In whatever plan, after whichever step and with whatever wires, the template's steps run behind it. */
  ghost predicate AlwaysBehind(template: seq<Step>, prefix: string) {
    forall parent: seq<Step>, after: string, wire: map<string, string>, outputs: map<string, string>, i: nat ::
      Untouched(parent, prefix) && after in IdsOf(parent) && after != "" && i < |template|
      ==> RunsAfter(parent, template, prefix, wire, outputs, after, i)
  }

  ghost predicate RunsAfter(parent: seq<Step>, template: seq<Step>, prefix: string, wire: map<string, string>,
                            outputs: map<string, string>, after: string, i: nat)
    requires i < |template|
  {
    Behind(Spliced(parent, AddonSteps(template, prefix, wire, outputs, after), after), after,
      prefix + IdOf(template[i]))
  }

  lemma ThenAlwaysBehind(template: seq<Step>, prefix: string)
    requires prefix != "" && FreshNames(template, prefix) && !Scheduler.HasCycle(Plain(template))
      && NotJustItself(template)
    ensures AlwaysBehind(template, prefix)
  {
    hide Untouched, AddonSteps, Behind, Spliced, Plain, NotJustItself, FreshNames, Scheduler.HasCycle;
    forall parent: seq<Step>, after: string, wire: map<string, string>, outputs: map<string, string>, i: nat |
      Untouched(parent, prefix) && after in IdsOf(parent) && after != "" && i < |template|
      ensures RunsAfter(parent, template, prefix, wire, outputs, after, i)
    {
      StepClean(parent, prefix, after);
      AddonIsMade(template, prefix, wire, outputs, after);
      var addon := AddonSteps(template, prefix, wire, outputs, after);
      AddonsRunAfter(parent, template, prefix, after, addon, i);
      assert Became(template, prefix, after, IdsOf(addon), i, addon[i]);
    }
  }

  lemma StepClean(steps: seq<Step>, prefix: string, id: string)
    requires Untouched(steps, prefix) && id in IdsOf(steps)
    ensures !StartsWith(prefix, id)
  {
  }

  // ---------- A step that depends only on itself ----------

  /** Longer than any of the names. */
  function Longer(names: seq<string>, n: nat): nat
    requires n <= |names|
    ensures forall k :: 0 <= k < n ==> |names[k]| < Longer(names, n)
  {
    if n == 0 then 1 else if |names[n - 1]| < Longer(names, n - 1) then Longer(names, n - 1) else |names[n - 1]| + 1
  }

  function Repeated(c: char, n: nat): string {
    seq(n, _ => c)
  }

  function HeadsOf(refs: seq<string>): seq<string> {
    seq(|refs|, i requires 0 <= i < |refs| => Head(refs[i]))
  }

  /** A name that no dependency or reference of the step is, nor begins with the prefix. */
  lemma NewName(prefix: string, names: seq<string>) returns (a: string)
    requires prefix != ""
    ensures a != "" && !StartsWith(prefix, a) && forall k :: 0 <= k < |names| ==> names[k] != a
  {
    a := Repeated(if prefix[0] == 'x' then 'y' else 'x', Longer(names, |names|));
    assert a[0] != prefix[0];
  }

  /** What a step that depends on no other step of its template, but on itself, comes to depend on. */
  lemma StuckDeps(template: seq<Step>, prefix: string, after: string, i: nat, a: string)
    requires i < |template| && prefix != "" && NoDot(prefix) && FreshNames(template, prefix)
    requires !IsRoot(template[i], IdsOf(template)) && !DependsOnAnother(template, template[i])
    requires !StartsWith(prefix, a) && a !in HeadsOf(template[i].refs) && a !in template[i].dependsOn
    ensures var addon := AddonSteps(template, prefix, map[], map[], after);
      |addon| == |template| && a !in addon[i].dependsOn
      && forall d :: d in addon[i].dependsOn && d in IdsOf(addon) ==> d == IdOf(addon[i])
  {
    hide DepsWith, LeftMarkers, DotFrom, DependsOnAnother, Longer, FreshNames, HeadsOf, Rename, RenameRef;
    var r := Renamed(template, prefix);
    var w := Wired(r, map[], map[]);
    var n := Inserted(w, after);
    assert SameIds(w, r) && SameIds(n, w);
    IdsAreSame(w, r);
    IdsAreSame(n, w);
    AddonIds(template, prefix, map[], map[], after);
    RootStays(template, prefix, i);
    DepsFollow(template, prefix, i);
    StaysUnwired(r[i], |r[i].markers|);
    NotRenamedTo(template, prefix, i, a);
    StuckInjected(template, prefix, r[i], n[i], i, IdsOf(r), a);
  }

  lemma {:induction false} StaysUnwired(s: Step, n: nat)
    requires n <= |s.markers|
    ensures WiredRefs(s, map[], map[], n) == s.refs
  {
    if n > 0 {
      StaysUnwired(s, n - 1);
      assert s.refs + [] == s.refs;
    }
  }

  lemma NotRenamedTo(template: seq<Step>, prefix: string, i: nat, a: string)
    requires i < |template| && NoDot(prefix) && !StartsWith(prefix, a) && a !in HeadsOf(template[i].refs)
      && a !in template[i].dependsOn
    ensures var r := RenameStep(IdsOf(template), prefix, template[i]);
      a !in r.dependsOn && forall k :: 0 <= k < |r.refs| ==> Head(r.refs[k]) != a
  {
    var s, ids := template[i], IdsOf(template);
    var r := RenameStep(ids, prefix, s);
    forall k | 0 <= k < |r.refs| ensures Head(r.refs[k]) != a {
      assert HeadsOf(s.refs)[k] == Head(s.refs[k]);
      if Head(s.refs[k]) in ids {
        HeadOfPrefixed(prefix, s.refs[k]);
        assert StartsWith(prefix, prefix + Head(s.refs[k]));
      }
    }
    forall k | 0 <= k < |r.dependsOn| ensures r.dependsOn[k] != a {
      assert s.dependsOn[k] in s.dependsOn;
      assert StartsWith(prefix, prefix + s.dependsOn[k]);
    }
  }

  lemma StuckInjected(template: seq<Step>, prefix: string, r: Step, n: Step, i: nat, ids: set<string>, a: string)
    requires i < |template| && r.dependsOn == n.dependsOn && r.refs == n.refs
      && IdOf(n) == IdOf(r) == prefix + IdOf(template[i])
    requires a !in r.dependsOn && forall k :: 0 <= k < |r.refs| ==> Head(r.refs[k]) != a
    requires forall d :: d in r.dependsOn && d in ids
               ==> StartsWith(prefix, d) && d[|prefix|..] in template[i].dependsOn && d[|prefix|..] in IdsOf(template)
    requires !DependsOnAnother(template, template[i])
    ensures var t := InjectStep(n, ids, true);
      a !in t.dependsOn && forall d :: d in t.dependsOn && d in ids ==> d == IdOf(n)
  {
    var t := InjectStep(n, ids, true);
    DepsAre(ids, true, IdOf(n), n.dependsOn, n.refs, |n.refs|, a);
    forall d | d in t.dependsOn && d in ids ensures d == IdOf(n) {
      DepsAre(ids, true, IdOf(n), n.dependsOn, n.refs, |n.refs|, d);
      var k :| 0 <= k < |template[i].dependsOn| && template[i].dependsOn[k] == d[|prefix|..];
      assert d == prefix + d[|prefix|..];
    }
  }

  /** Nothing can be behind in a plan where its only dependency is itself. */
  lemma NotBehind(all: seq<Step>, a: string, id: string)
    requires forall y :: (y, id) in Edges(all) && y in Nodes(all) ==> y == id
    ensures !Behind(all, a, id)
  {
    hide Edges, Nodes;
    forall p: seq<string> ensures !Leads(all, a, id, p) {
      if |p| >= 2 && p[|p| - 1] == id {
        assert !Linked(Nodes(all), Edges(all), p, |p| - 2);
      }
    }
  }

  /** The plan of a single step, to which the addon is added, does not hold the step back. */
  lemma StuckStaysOut(template: seq<Step>, prefix: string, i: nat, a: string)
    requires i < |template| && prefix != "" && NoDot(prefix) && FreshNames(template, prefix) && UniqueIds(template)
    requires !IsRoot(template[i], IdsOf(template)) && !DependsOnAnother(template, template[i])
    requires !StartsWith(prefix, a) && a != "" && a !in HeadsOf(template[i].refs) && a !in template[i].dependsOn
    ensures var parent := [Step(a, a, [], [], [], false)];
      Untouched(parent, prefix) && a in IdsOf(parent) && !RunsAfter(parent, template, prefix, map[], map[], a, i)
  {
    var parent := [Step(a, a, [], [], [], false)];
    assert IdOf(parent[0]) == a;
    var addon := AddonSteps(template, prefix, map[], map[], a);
    hide AddonSteps, HeadsOf, Nodes, Edges, Spliced, Behind;
    AddonIsMade(template, prefix, map[], map[], a);
    StuckDeps(template, prefix, a, i, a);
    var all := Spliced(parent, addon, a);
    var id := prefix + IdOf(template[i]);
    assert Became(template, prefix, a, IdsOf(addon), i, addon[i]);
    forall y | (y, id) in Edges(all) && y in Nodes(all) ensures y == id {
      OnlyItself(template, prefix, a, addon, i, y);
    }
    NotBehind(all, a, id);
  }

  lemma OnlyItself(template: seq<Step>, prefix: string, a: string, addon: seq<Step>, i: nat, y: string)
    requires MadeFrom(template, prefix, a, addon) && UniqueIds(template) && i < |addon| && !StartsWith(prefix, a)
    requires a !in addon[i].dependsOn && a != ""
      && forall d :: d in addon[i].dependsOn && d in IdsOf(addon) ==> d == IdOf(addon[i])
    requires var all := Spliced([Step(a, a, [], [], [], false)], addon, a);
      (y, IdOf(addon[i])) in Edges(all) && y in Nodes(all)
    ensures y == IdOf(addon[i])
  {
    hide Nodes, Edges, Spliced;
    var parent := [Step(a, a, [], [], [], false)];
    var all := Spliced(parent, addon, a);
    EdgesAre(all, y, IdOf(addon[i]));
    NodesAre(all, y);
    MadeUnique(template, prefix, a, addon);
    var s :| s in all && IdOf(s) == IdOf(addon[i]) && y in s.dependsOn;
    SplicedHas(parent, addon, a, s);
    var j :| 0 <= j < |addon| && addon[j] == s;
    assert i == j;
    var t :| t in all && IdOf(t) == y;
    SplicedHas(parent, addon, a, t);
    InIds(addon, t);
  }

  /** The insertion step always runs first exactly when no step of the template depends on steps of it by
      depending on itself alone. */
  lemma AlwaysBehindIff(template: seq<Step>, prefix: string)
    requires prefix != "" && NoDot(prefix) && FreshNames(template, prefix) && AddonLists.UniqueIds(template)
      && !Scheduler.HasCycle(Plain(template))
    ensures AlwaysBehind(template, prefix) <==> NotJustItself(template)
  {
    hide Scheduler.HasCycle, Plain, IsRoot, DependsOnAnother, RunsAfter, Untouched;
    if NotJustItself(template) {
      ThenAlwaysBehind(template, prefix);
    } else {
      var i: nat :| i < |template| && !IsRoot(template[i], IdsOf(template)) && !DependsOnAnother(template, template[i]);
      var names := HeadsOf(template[i].refs) + template[i].dependsOn;
      var a := NewName(prefix, names);
      assert a !in names;
      StuckStaysOut(template, prefix, i, a);
    }
  }
}

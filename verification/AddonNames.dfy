/** Which names an addon's steps carry into a plan (intent/compose.go): none that a later addon will use. */
module AddonNames {
  import opened Addons
  import opened AddonOrder
  import opened AddonPlans
  import opened Compose

  lemma AddonIsMade(template: seq<Step>, prefix: string, wire: map<string, string>, outputs: map<string, string>,
                    after: string)
    requires prefix != "" && FreshNames(template, prefix) && after != "" && !StartsWith(prefix, after)
    ensures MadeFrom(template, prefix, after, AddonSteps(template, prefix, wire, outputs, after))
  {
    hide AddonSteps, Became;
    var a := AddonSteps(template, prefix, wire, outputs, after);
    forall i: nat | i < |template| ensures |a| == |template| && Became(template, prefix, after, IdsOf(a), i, a[i]) {
      AddonStepIs(template, prefix, wire, outputs, after, i);
    }
    AddonIds(template, prefix, wire, outputs, after);
    SameSize(a, Renamed(template, prefix));
  }

  lemma SameSize(a: seq<Step>, b: seq<Step>)
    requires SameIds(a, b)
    ensures |a| == |b|
  {
  }

  // ---------- Names that do not begin with a prefix ----------

  ghost predicate AllClean(p: string, names: seq<string>) {
    forall i :: 0 <= i < |names| ==> !StartsWith(p, names[i])
  }

  ghost predicate CleanMap(p: string, m: map<string, string>) {
    forall k :: k in m ==> !StartsWith(p, m[k])
  }

  /** Nothing the step depends on or refers to begins with the prefix. */
  ghost predicate CleanStep(p: string, s: Step) {
    AllClean(p, s.dependsOn) && AllClean(p, s.refs)
  }

  ghost predicate CleanTemplate(p: string, template: seq<Step>) {
    forall i :: 0 <= i < |template| ==> CleanStep(p, template[i])
  }

  lemma {:induction false} WiredClean(p: string, s: Step, wire: map<string, string>, outputs: map<string, string>,
                                      n: nat)
    requires n <= |s.markers| && AllClean(p, s.refs) && CleanMap(p, wire) && CleanMap(p, outputs)
    ensures AllClean(p, WiredRefs(s, wire, outputs, n))
  {
    if n > 0 {
      WiredClean(p, s, wire, outputs, n - 1);
    }
  }

  lemma InjectClean(p: string, s: Step, ids: set<string>, externalOnly: bool)
    requires CleanStep(p, s)
    ensures AllClean(p, InjectStep(s, ids, externalOnly).dependsOn)
  {
    var t := InjectStep(s, ids, externalOnly);
    forall i | 0 <= i < |t.dependsOn| ensures !StartsWith(p, t.dependsOn[i]) {
      var d := t.dependsOn[i];
      DepsAre(ids, externalOnly, IdOf(s), s.dependsOn, s.refs, |s.refs|, d);
      if d in s.dependsOn {
        var k :| 0 <= k < |s.dependsOn| && s.dependsOn[k] == d;
      } else {
        var k :| 0 <= k < |s.refs| && Head(s.refs[k]) == d;
        HeadStarts(p, s.refs[k]);
      }
    }
  }

  /** An addon's i-th step begins with no prefix but its own, in its ID and in what it depends on. */
  lemma AddonClean(template: seq<Step>, i: nat, j: nat, wire: map<string, string>, outputs: map<string, string>,
                   after: string, k: nat)
    requires i != j && k < |template| && CleanStep(Prefix(j), template[k]) && !StartsWith(Prefix(j), after)
    requires CleanMap(Prefix(j), wire) && CleanMap(Prefix(j), outputs)
    ensures var a := AddonSteps(template, Prefix(i), wire, outputs, after);
      |a| == |template| && !StartsWith(Prefix(j), IdOf(a[k])) && AllClean(Prefix(j), a[k].dependsOn)
  {
    var s, p, q, ids := template[k], Prefix(i), Prefix(j), IdsOf(template);
    var r := Renamed(template, p);
    var w := Wired(r, wire, outputs);
    var n := Inserted(w, after);
    RenamedClean(s, i, j, ids);
    WiredClean(q, r[k], wire, outputs, |r[k].markers|);
    InsertClean(q, w[k], IdsOf(w), after);
    InjectClean(q, n[k], IdsOf(n), true);
    PrefixHas(i);
    PrefixesApart(i, j, IdOf(s));
  }

  lemma RenamedClean(s: Step, i: nat, j: nat, ids: set<string>)
    requires i != j && CleanStep(Prefix(j), s)
    ensures CleanStep(Prefix(j), RenameStep(ids, Prefix(i), s))
  {
    hide Prefix, StartsWith;
    var t := RenameStep(ids, Prefix(i), s);
    forall k | 0 <= k < |t.dependsOn| ensures !StartsWith(Prefix(j), t.dependsOn[k]) {
      PrefixesApart(i, j, s.dependsOn[k]);
    }
    forall k | 0 <= k < |t.refs| ensures !StartsWith(Prefix(j), t.refs[k]) {
      PrefixesApart(i, j, s.refs[k]);
    }
  }

  lemma InsertClean(p: string, s: Step, ids: set<string>, after: string)
    requires CleanStep(p, s) && !StartsWith(p, after)
    ensures CleanStep(p, InsertStep(s, ids, after))
  {
  }

  lemma ResolvedClean(p: string, wire: map<string, string>, after: string)
    requires CleanMap(p, wire) && NoDot(p) && !StartsWith(p, after)
    ensures CleanMap(p, ResolvedWire(wire, after))
  {
    forall k | k in wire ensures !StartsWith(p, ResolvedWire(wire, after)[k]) {
      if StartsWith(AFTER, wire[k]) {
        var rest := wire[k][|AFTER| - 1..];
        assert rest[0] == wire[k][..|AFTER|][|AFTER| - 1];
        RefStarts(p, after, rest);
      }
    }
  }

  lemma OutputsClean(p: string, steps: seq<Step>, given: map<string, seq<string>>)
    requires Untouched(steps, p) && NoDot(p)
    ensures CleanMap(p, OutputMap(steps, given, |steps|))
  {
    forall k | k in OutputMap(steps, given, |steps|) ensures !StartsWith(p, OutputMap(steps, given, |steps|)[k]) {
      var at := LastGiverWins(steps, given, |steps|, k);
      RefStarts(p, IdOf(steps[at]), "." + k);
    }
  }

  /** A plan that names nothing of a later addon still names nothing of it with this addon's steps in it. */
  lemma StaysUntouched(parent: seq<Step>, addon: seq<Step>, after: string, p: string)
    requires Untouched(parent, p)
    requires forall k :: 0 <= k < |addon| ==> !StartsWith(p, IdOf(addon[k])) && AllClean(p, addon[k].dependsOn)
    ensures Untouched(Spliced(parent, addon, after), p)
  {
    hide StartsWith, Spliced;
    var all := Spliced(parent, addon, after);
    forall i | 0 <= i < |all|
      ensures !StartsWith(p, IdOf(all[i]))
        && forall k :: 0 <= k < |all[i].dependsOn| ==> !StartsWith(p, all[i].dependsOn[k])
    {
      SplicedHas(parent, addon, after, all[i]);
      if all[i] in parent {
        var j :| 0 <= j < |parent| && parent[j] == all[i];
      } else {
        var j :| 0 <= j < |addon| && addon[j] == all[i];
      }
    }
  }
}

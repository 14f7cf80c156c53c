/** A composed plan with the dependencies its references imply (intent/compose.go, intent/autowire.go,
    plan/binding.go InjectReferenceDeps): those between an addon's own steps, and between the plan's own, are
    added last, and close no cycle either. */
module AddonRefs {
  import opened AddonNames
  import opened AddonOrder
  import opened AddonPlans
  import opened Addons
  import opened Compose

  // ---------- Dependencies a step already has ----------

  /** Whether the steps of a plan, or of another, make the same of a reference. */
  predicate Settled(ids: set<string>, all: set<string>, own: string, deps: seq<string>, ref: string) {
    (Head(ref) in ids <==> Head(ref) in all) || Head(ref) in deps || Head(ref) == "" || Head(ref) == own
  }

  lemma {:induction false} DepsAlike(ids: set<string>, all: set<string>, own: string, deps: seq<string>,
                                     refs: seq<string>, n: nat)
    requires n <= |refs| && forall k :: 0 <= k < |refs| ==> Settled(ids, all, own, deps, refs[k])
    ensures DepsWith(ids, false, own, deps, refs, n) == DepsWith(all, false, own, deps, refs, n)
  {
    if n > 0 {
      DepsAlike(ids, all, own, deps, refs, n - 1);
      DepsAre(ids, false, own, deps, refs, n - 1, Head(refs[n - 1]));
      assert Settled(ids, all, own, deps, refs[n - 1]);
    }
  }

  ghost predicate AllSettled(steps: seq<Step>, all: set<string>) {
    forall i, k :: 0 <= i < |steps| && 0 <= k < |steps[i].refs| ==>
      Settled(IdsOf(steps), all, IdOf(steps[i]), steps[i].dependsOn, steps[i].refs[k])
  }

  lemma InjectedIds(steps: seq<Step>, externalOnly: bool)
    ensures SameIds(Injected(steps, externalOnly), steps) && IdsOf(Injected(steps, externalOnly)) == IdsOf(steps)
  {
    IdsAreSame(Injected(steps, externalOnly), steps);
  }

  lemma {:induction false} SamePlace(a: seq<Step>, b: seq<Step>, after: string, i: nat)
    requires SameIds(a, b) && i <= |a|
    ensures PlaceAfter(a, after, i) == PlaceAfter(b, after, i)
    decreases |a| - i
  {
    if i < |a| && IdOf(a[i]) != after {
      SamePlace(a, b, after, i + 1);
    }
  }

  /** Where neither side's references reach into the other, injecting into both together is injecting into each. */
  lemma InjectedSplits(parent: seq<Step>, addon: seq<Step>, after: string)
    requires var all := IdsOf(Spliced(parent, addon, after)); AllSettled(parent, all) && AllSettled(addon, all)
    ensures Injected(Spliced(parent, addon, after), false)
      == Spliced(Injected(parent, false), Injected(addon, false), after)
  {
    hide IdsOf, Settled, DepsWith;
    var s, at := Spliced(parent, addon, after), PlaceAfter(parent, after, 0);
    InjectedIds(parent, false);
    SamePlace(parent, Injected(parent, false), after, 0);
    var l, r := Injected(s, false), Spliced(Injected(parent, false), Injected(addon, false), after);
    forall i | 0 <= i < |s| ensures l[i] == r[i] {
      if at <= i < at + |addon| {
        InjectAlike(addon, i - at, IdsOf(s));
      } else {
        InjectAlike(parent, if i < at then i else i - |addon|, IdsOf(s));
      }
    }
  }

  lemma InjectAlike(steps: seq<Step>, i: nat, all: set<string>)
    requires i < |steps| && AllSettled(steps, all)
    ensures InjectStep(steps[i], all, false) == InjectStep(steps[i], IdsOf(steps), false)
  {
    DepsAlike(IdsOf(steps), all, IdOf(steps[i]), steps[i].dependsOn, steps[i].refs, |steps[i].refs|);
  }

  // ---------- What an addon's steps refer to ----------

  lemma {:induction false} WiredRefsAre(s: Step, wire: map<string, string>, outputs: map<string, string>, n: nat,
                                        ref: string)
    requires n <= |s.markers|
    ensures ref in s.refs ==> ref in WiredRefs(s, wire, outputs, n)
    ensures ref in WiredRefs(s, wire, outputs, n) ==> ref in s.refs || ref in wire.Values || ref in outputs.Values
  {
    if n > 0 {
      WiredRefsAre(s, wire, outputs, n - 1, ref);
      var input := s.markers[n - 1];
      assert input in wire ==> wire[input] in wire.Values;
      assert input in outputs ==> outputs[input] in outputs.Values;
    }
  }

  /** Step i's references are the template's, renamed, and what it is wired to. */
  lemma AddonRefsAre(template: seq<Step>, prefix: string, wire: map<string, string>, outputs: map<string, string>,
                     after: string, i: nat, ref: string)
    requires i < |template| && prefix != ""
    ensures var a := AddonSteps(template, prefix, wire, outputs, after);
      && |a| == |template|
      && (ref in RenameStep(IdsOf(template), prefix, template[i]).refs ==> ref in a[i].refs)
      && (ref in a[i].refs ==> ref in RenameStep(IdsOf(template), prefix, template[i]).refs || ref in wire.Values
                               || ref in outputs.Values)
  {
    var r := Renamed(template, prefix);
    WiredRefsAre(r[i], wire, outputs, |r[i].markers|, ref);
    AddonIds(template, prefix, wire, outputs, after);
    SameSize(AddonSteps(template, prefix, wire, outputs, after), r);
  }

  /** What it refers to outside the addon it depends on already. */
  lemma OutsideIsInjected(template: seq<Step>, prefix: string, wire: map<string, string>, outputs: map<string, string>,
                          after: string, i: nat, k: nat)
    requires prefix != "" && i < |AddonSteps(template, prefix, wire, outputs, after)|
    requires k < |AddonSteps(template, prefix, wire, outputs, after)[i].refs|
    ensures var a := AddonSteps(template, prefix, wire, outputs, after);
      var head := Head(a[i].refs[k]);
      head in IdsOf(a) || head in a[i].dependsOn || head == "" || head == IdOf(a[i])
  {
    var n := Inserted(Wired(Renamed(template, prefix), wire, outputs), after);
    InjectedIds(n, true);
    DepsAre(IdsOf(n), true, IdOf(n[i]), n[i].dependsOn, n[i].refs, |n[i].refs|, Head(n[i].refs[k]));
  }

  // ---------- An addon with all its dependencies ----------

  /** What is called as a step of the addon is, of a renamed reference, a step of the template. */
  lemma InnerRef(ids: set<string>, prefix: string, ref: string)
    requires NoDot(prefix) && !StartsWith(prefix, ref)
    ensures StartsWith(prefix, Head(RenameRef(ids, prefix, ref))) ==>
              Head(ref) in ids && Head(RenameRef(ids, prefix, ref)) == prefix + Head(ref)
    ensures Head(ref) in ids ==> Head(RenameRef(ids, prefix, ref)) == prefix + Head(ref)
  {
    RefsFollow(ids, prefix, ref);
    HeadStarts(prefix, ref);
  }

  ghost predicate CleanValues(p: string, m: map<string, string>) {
    forall v :: v in m.Values ==> !StartsWith(p, v)
  }

  lemma CleanMapValues(p: string, m: map<string, string>)
    requires CleanMap(p, m)
    ensures CleanValues(p, m)
  {
  }

  /** An inner reference of the addon's step i is one of the template's. */
  lemma InnerIsRenamed(template: seq<Step>, prefix: string, wire: map<string, string>, outputs: map<string, string>,
                       after: string, i: nat, ref: string)
    requires i < |template| && prefix != "" && NoDot(prefix) && CleanStep(prefix, template[i])
    requires CleanValues(prefix, wire) && CleanValues(prefix, outputs)
    requires |AddonSteps(template, prefix, wire, outputs, after)| == |template|
    requires ref in AddonSteps(template, prefix, wire, outputs, after)[i].refs && StartsWith(prefix, Head(ref))
    ensures Head(ref)[|prefix|..] in IdsOf(template) && Head(ref) == prefix + Head(ref)[|prefix|..]
    ensures exists k :: 0 <= k < |template[i].refs| && Head(template[i].refs[k]) == Head(ref)[|prefix|..]
  {
    hide AddonSteps, StartsWith;
    var s, ids := template[i], IdsOf(template);
    AddonRefsAre(template, prefix, wire, outputs, after, i, ref);
    HeadStarts(prefix, ref);
    var r := RenameStep(ids, prefix, s);
    var k :| 0 <= k < |r.refs| && r.refs[k] == ref;
    InnerRef(ids, prefix, s.refs[k]);
    assert (prefix + Head(s.refs[k]))[|prefix|..] == Head(s.refs[k]);
  }

  /** Step i of the template with its references' dependencies becomes step i of the addon with its. */
  lemma BecomesInjected(template: seq<Step>, prefix: string, wire: map<string, string>, outputs: map<string, string>,
                        after: string, i: nat)
    requires i < |template| && prefix != "" && NoDot(prefix) && CleanStep(prefix, template[i]) && "" !in IdsOf(template)
    requires CleanValues(prefix, wire) && CleanValues(prefix, outputs)
    requires MadeFrom(template, prefix, after, AddonSteps(template, prefix, wire, outputs, after))
    ensures var a := AddonSteps(template, prefix, wire, outputs, after);
      Became(Injected(template, false), prefix, after, IdsOf(a), i, InjectStep(a[i], IdsOf(a), false))
  {
    hide AddonSteps, IdsOf, DepsWith;
    var a, ids := AddonSteps(template, prefix, wire, outputs, after), IdsOf(template);
    var s, s', t, t' := template[i], Injected(template, false)[i], a[i], InjectStep(a[i], IdsOf(a), false);
    assert Became(template, prefix, after, IdsOf(a), i, t);
    InjectedIds(template, false);
    forall d | d in t'.dependsOn && d in IdsOf(a) ensures StartsWith(prefix, d) && d[|prefix|..] in s'.dependsOn {
      DepsAre(IdsOf(a), false, IdOf(t), t.dependsOn, t.refs, |t.refs|, d);
      MadeIds(template, prefix, after, a, d);
      var e := d[|prefix|..];
      DepsAre(ids, false, IdOf(s), s.dependsOn, s.refs, |s.refs|, e);
      if d !in t.dependsOn {
        var k :| 0 <= k < |t.refs| && Head(t.refs[k]) == d;
        InnerIsRenamed(template, prefix, wire, outputs, after, i, t.refs[k]);
      }
    }
    forall e | e in s'.dependsOn && e in ids ensures prefix + e in t'.dependsOn {
      InnerIsKept(template, prefix, wire, outputs, after, i, e);
    }
    RootWas(template, i);
    DepsAre(IdsOf(a), false, IdOf(t), t.dependsOn, t.refs, |t.refs|, after);
  }

  lemma RootWas(template: seq<Step>, i: nat)
    requires i < |template|
    ensures IsRoot(Injected(template, false)[i], IdsOf(template)) ==> IsRoot(template[i], IdsOf(template))
  {
    var s, t, ids := template[i], Injected(template, false)[i], IdsOf(template);
    forall k | 0 <= k < |s.dependsOn| ensures s.dependsOn[k] in t.dependsOn {
      DepsAre(ids, false, IdOf(s), s.dependsOn, s.refs, |s.refs|, s.dependsOn[k]);
    }
  }

  lemma InnerIsKept(template: seq<Step>, prefix: string, wire: map<string, string>, outputs: map<string, string>,
                    after: string, i: nat, e: string)
    requires i < |template| && prefix != "" && NoDot(prefix) && CleanStep(prefix, template[i]) && "" !in IdsOf(template)
    requires MadeFrom(template, prefix, after, AddonSteps(template, prefix, wire, outputs, after))
    requires e in IdsOf(template) && e in Injected(template, false)[i].dependsOn
    ensures var a := AddonSteps(template, prefix, wire, outputs, after);
      prefix + e in InjectStep(a[i], IdsOf(a), false).dependsOn
  {
    hide AddonSteps, DepsWith, StartsWith, IdsOf;
    var a, ids, s := AddonSteps(template, prefix, wire, outputs, after), IdsOf(template), template[i];
    var t, d := a[i], prefix + e;
    assert Became(template, prefix, after, IdsOf(a), i, t);
    DepsAre(ids, false, IdOf(s), s.dependsOn, s.refs, |s.refs|, e);
    DepsAre(IdsOf(a), false, IdOf(t), t.dependsOn, t.refs, |t.refs|, d);
    if e !in s.dependsOn {
      var k :| 0 <= k < |s.refs| && Head(s.refs[k]) == e;
      InnerRef(ids, prefix, s.refs[k]);
      var r := RenameStep(ids, prefix, s);
      assert r.refs[k] in r.refs;
      AddonRefsAre(template, prefix, wire, outputs, after, i, r.refs[k]);
      var m :| 0 <= m < |t.refs| && t.refs[m] == r.refs[k];
      PrefixedId(template, prefix, after, a, e);
      assert d[|prefix|..] == e && IdOf(t)[|prefix|..] == IdOf(s);
    }
  }

  lemma PrefixedId(template: seq<Step>, prefix: string, after: string, a: seq<Step>, e: string)
    requires MadeFrom(template, prefix, after, a) && e in IdsOf(template)
    ensures prefix + e in IdsOf(a)
  {
    MadeIds(template, prefix, after, a, prefix + e);
    assert (prefix + e)[|prefix|..] == e && StartsWith(prefix, prefix + e);
  }

  /** An addon with all its dependencies is made from the template with all of its. */
  lemma InjectedIsMade(template: seq<Step>, prefix: string, wire: map<string, string>, outputs: map<string, string>,
                       after: string)
    requires prefix != "" && NoDot(prefix) && CleanTemplate(prefix, template) && "" !in IdsOf(template)
    requires CleanValues(prefix, wire) && CleanValues(prefix, outputs)
    requires MadeFrom(template, prefix, after, AddonSteps(template, prefix, wire, outputs, after))
    ensures MadeFrom(Injected(template, false), prefix, after,
      Injected(AddonSteps(template, prefix, wire, outputs, after), false))
  {
    hide AddonSteps, IdsOf, Became;
    var a := AddonSteps(template, prefix, wire, outputs, after);
    InjectedIds(a, false);
    forall i: nat | i < |template|
        ensures Became(Injected(template, false), prefix, after, IdsOf(a), i, Injected(a, false)[i]) {
      assert CleanStep(prefix, template[i]);
      BecomesInjected(template, prefix, wire, outputs, after, i);
    }
  }

  // ---------- A plan whose references name no later addon ----------

  ghost predicate RefsClear(steps: seq<Step>, p: string) {
    forall i :: 0 <= i < |steps| ==> AllClean(p, steps[i].refs)
  }

  ghost predicate LaterRefsClear(steps: seq<Step>, n: nat, all: nat) {
    forall k: nat :: n <= k < all ==> RefsClear(steps, Prefix(k))
  }

  lemma RefsStayClear(parent: seq<Step>, addon: seq<Step>, after: string, p: string)
    requires RefsClear(parent, p) && RefsClear(addon, p)
    ensures RefsClear(Spliced(parent, addon, after), p)
  {
    hide AllClean;
    var s := Spliced(parent, addon, after);
    forall i | 0 <= i < |s| ensures AllClean(p, s[i].refs) {
      SplicedHas(parent, addon, after, s[i]);
      if s[i] in parent {
        var j :| 0 <= j < |parent| && parent[j] == s[i];
      } else {
        var j :| 0 <= j < |addon| && addon[j] == s[i];
      }
    }
  }

  /** An addon's references begin with no other addon's prefix. */
  lemma AddonRefsClear(template: seq<Step>, n: nat, k: nat, wire: map<string, string>, outputs: map<string, string>,
                       after: string)
    requires n != k && CleanTemplate(Prefix(k), template) && CleanValues(Prefix(k), wire)
      && CleanValues(Prefix(k), outputs)
    ensures RefsClear(AddonSteps(template, Prefix(n), wire, outputs, after), Prefix(k))
  {
    hide AddonSteps, StartsWith, Prefix;
    PrefixHas(n);
    var a := AddonSteps(template, Prefix(n), wire, outputs, after);
    AddonIds(template, Prefix(n), wire, outputs, after);
    SameSize(a, Renamed(template, Prefix(n)));
    forall i, m | 0 <= i < |a| && 0 <= m < |a[i].refs| ensures !StartsWith(Prefix(k), a[i].refs[m]) {
      AddonRefsAre(template, Prefix(n), wire, outputs, after, i, a[i].refs[m]);
      assert CleanStep(Prefix(k), template[i]);
      RenamedClean(template[i], n, k, IdsOf(template));
    }
  }

  /** What the plan with a clear prefix refers to is no step of the addon. */
  lemma ParentSettled(parent: seq<Step>, template: seq<Step>, prefix: string, after: string, addon: seq<Step>)
    requires MadeFrom(template, prefix, after, addon) && RefsClear(parent, prefix)
    ensures AllSettled(parent, IdsOf(Spliced(parent, addon, after)))
  {
    hide Spliced, StartsWith;
    forall i, k | 0 <= i < |parent| && 0 <= k < |parent[i].refs|
      ensures Settled(IdsOf(parent), IdsOf(Spliced(parent, addon, after)), IdOf(parent[i]), parent[i].dependsOn,
        parent[i].refs[k])
    {
      assert AllClean(prefix, parent[i].refs);
      NotOfAddon(parent, template, prefix, after, addon, parent[i].refs[k]);
    }
  }

  lemma NotOfAddon(parent: seq<Step>, template: seq<Step>, prefix: string, after: string, addon: seq<Step>, ref: string)
    requires MadeFrom(template, prefix, after, addon) && !StartsWith(prefix, ref)
    ensures Head(ref) in IdsOf(parent) <==> Head(ref) in IdsOf(Spliced(parent, addon, after))
  {
    hide Spliced;
    HeadStarts(prefix, ref);
    MadeIds(template, prefix, after, addon, Head(ref));
    EitherId(parent, addon, after, Head(ref));
  }

  lemma EitherId(parent: seq<Step>, addon: seq<Step>, after: string, id: string)
    ensures id in IdsOf(Spliced(parent, addon, after)) <==> id in IdsOf(parent) || id in IdsOf(addon)
  {
    hide Spliced;
    var s := Spliced(parent, addon, after);
    NodesAre(s, id);
    NodesAre(parent, id);
    NodesAre(addon, id);
    if id in IdsOf(s) {
      var t :| t in s && IdOf(t) == id;
      SplicedHas(parent, addon, after, t);
    }
    if id in IdsOf(parent) || id in IdsOf(addon) {
      InBoth(parent, addon, after, id);
    }
  }

  lemma AddonSettled(template: seq<Step>, prefix: string, wire: map<string, string>, outputs: map<string, string>,
                     after: string, all: set<string>)
    requires prefix != "" && IdsOf(AddonSteps(template, prefix, wire, outputs, after)) <= all
    ensures AllSettled(AddonSteps(template, prefix, wire, outputs, after), all)
  {
    hide AddonSteps;
    var a := AddonSteps(template, prefix, wire, outputs, after);
    forall i, k | 0 <= i < |a| && 0 <= k < |a[i].refs|
        ensures Settled(IdsOf(a), all, IdOf(a[i]), a[i].dependsOn, a[i].refs[k]) {
      OutsideIsInjected(template, prefix, wire, outputs, after, i, k);
    }
  }
}

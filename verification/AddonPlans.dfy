/** What adding an addon does to a plan's dependencies (intent/compose.go): it closes no cycle, and the
    addon's steps come after their insertion step. */
module AddonPlans {
  import opened Addons

  // ---------- Wiring (autoWirePlaceholders) ----------

  const MANUAL := "MANUAL"

  /** The reference an input is wired to, if any: what the addon says, or else a step before that gives it. */
  function WireOf(wire: map<string, string>, outputs: map<string, string>, input: string): seq<string> {
    if input in wire then (if wire[input] == MANUAL then [] else [wire[input]])
    else if input in outputs then [outputs[input]]
    else []
  }

  function WiredRefs(s: Step, wire: map<string, string>, outputs: map<string, string>, n: nat): seq<string>
    requires n <= |s.markers|
  {
    if n == 0 then s.refs else WiredRefs(s, wire, outputs, n - 1) + WireOf(wire, outputs, s.markers[n - 1])
  }

  function LeftMarkers(s: Step, wire: map<string, string>, outputs: map<string, string>, n: nat): seq<string>
    requires n <= |s.markers|
  {
    if n == 0 then []
    else LeftMarkers(s, wire, outputs, n - 1)
         + if s.markers[n - 1] in wire || s.markers[n - 1] in outputs then [] else [s.markers[n - 1]]
  }

  function WireStep(s: Step, wire: map<string, string>, outputs: map<string, string>): Step {
    s.(refs := WiredRefs(s, wire, outputs, |s.markers|), markers := LeftMarkers(s, wire, outputs, |s.markers|))
  }

  function Wired(steps: seq<Step>, wire: map<string, string>, outputs: map<string, string>): seq<Step> {
    seq(|steps|, i requires 0 <= i < |steps| => WireStep(steps[i], wire, outputs))
  }

  // ---------- An addon's steps, ready to be put into a plan ----------

  function AddonSteps(template: seq<Step>, prefix: string, wire: map<string, string>, outputs: map<string, string>,
                      after: string): seq<Step> {
    Injected(Inserted(Wired(Renamed(template, prefix), wire, outputs), after), true)
  }

  lemma AddonCount(template: seq<Step>, prefix: string, wire: map<string, string>, outputs: map<string, string>,
                   after: string)
    ensures |AddonSteps(template, prefix, wire, outputs, after)| == |template|
  {
  }

  /** Nothing in the template is called as a step of the addon will be. */
  ghost predicate FreshNames(template: seq<Step>, prefix: string) {
    forall i, k :: 0 <= i < |template| && 0 <= k < |template[i].dependsOn|
      ==> !StartsWith(prefix, template[i].dependsOn[k])
  }

  ghost predicate SameIds(a: seq<Step>, b: seq<Step>) {
    |a| == |b| && forall i :: 0 <= i < |a| ==> IdOf(a[i]) == IdOf(b[i])
  }

  lemma IdsAreSame(a: seq<Step>, b: seq<Step>)
    requires SameIds(a, b)
    ensures IdsOf(a) == IdsOf(b)
  {
    forall id | id in IdsOf(a) ensures id in IdsOf(b) {
      var i :| 0 <= i < |a| && IdOf(a[i]) == id;
      assert IdOf(b[i]) == id;
    }
    forall id | id in IdsOf(b) ensures id in IdsOf(a) {
      var i :| 0 <= i < |b| && IdOf(b[i]) == id;
      assert IdOf(a[i]) == id;
    }
  }

  lemma RenamedIds(template: seq<Step>, prefix: string, name: string)
    requires prefix != ""
    ensures prefix + name in IdsOf(Renamed(template, prefix)) <==> name in IdsOf(template)
    ensures name in IdsOf(Renamed(template, prefix)) ==> StartsWith(prefix, name) && name[|prefix|..] in IdsOf(template)
  {
    var r := Renamed(template, prefix);
    forall i | 0 <= i < |r| ensures IdOf(r[i]) == prefix + IdOf(template[i])
        && IdOf(r[i])[|prefix|..] == IdOf(template[i]) {
    }
    if name in IdsOf(template) {
      var i :| 0 <= i < |template| && IdOf(template[i]) == name;
      assert IdOf(r[i]) == prefix + name;
    }
    if prefix + name in IdsOf(r) {
      var i :| 0 <= i < |r| && IdOf(r[i]) == prefix + name;
      assert (prefix + name)[|prefix|..] == name;
    }
    if name in IdsOf(r) {
      var i :| 0 <= i < |r| && IdOf(r[i]) == name;
      assert StartsWith(prefix, prefix + IdOf(template[i]));
    }
  }

  /** The four passes keep every step in its place, under its renamed ID. */
  lemma AddonIds(template: seq<Step>, prefix: string, wire: map<string, string>, outputs: map<string, string>,
                 after: string)
    requires prefix != ""
    ensures SameIds(AddonSteps(template, prefix, wire, outputs, after), Renamed(template, prefix))
    ensures IdsOf(AddonSteps(template, prefix, wire, outputs, after)) == IdsOf(Renamed(template, prefix))
  {
    var r := Renamed(template, prefix);
    var w := Wired(r, wire, outputs);
    var n := Inserted(w, after);
    assert SameIds(w, r) && SameIds(n, w) && SameIds(Injected(n, true), n);
    IdsAreSame(Injected(n, true), r);
  }

  /** The step that step i of a template becomes. */
  ghost predicate Became(template: seq<Step>, prefix: string, after: string, ids: set<string>, i: nat, t: Step)
    requires i < |template|
  {
    var s := template[i];
    && IdOf(t) == prefix + IdOf(s)
    && (forall d :: d in t.dependsOn && d in ids ==> StartsWith(prefix, d) && d[|prefix|..] in s.dependsOn)
    && (forall e :: e in s.dependsOn && e in IdsOf(template) ==> prefix + e in t.dependsOn)
    && (IsRoot(s, IdsOf(template)) ==> after in t.dependsOn)
  }

  lemma RootStays(template: seq<Step>, prefix: string, i: nat)
    requires i < |template| && prefix != "" && FreshNames(template, prefix)
    ensures IsRoot(RenameStep(IdsOf(template), prefix, template[i]), IdsOf(Renamed(template, prefix)))
      <==> IsRoot(template[i], IdsOf(template))
  {
    var s, ids := template[i], IdsOf(template);
    var t := RenameStep(ids, prefix, s);
    forall k | 0 <= k < |s.dependsOn|
        ensures t.dependsOn[k] in IdsOf(Renamed(template, prefix)) <==> s.dependsOn[k] in ids {
      RenamedIds(template, prefix, s.dependsOn[k]);
    }
  }

  lemma DepsFollow(template: seq<Step>, prefix: string, i: nat)
    requires i < |template| && prefix != "" && FreshNames(template, prefix)
    ensures var t := RenameStep(IdsOf(template), prefix, template[i]);
      && (forall d :: d in t.dependsOn && d in IdsOf(Renamed(template, prefix))
            ==> StartsWith(prefix, d) && d[|prefix|..] in template[i].dependsOn)
      && (forall e :: e in template[i].dependsOn && e in IdsOf(template) ==> prefix + e in t.dependsOn)
  {
    var s, ids := template[i], IdsOf(template);
    var t := RenameStep(ids, prefix, s);
    forall d | d in t.dependsOn && d in IdsOf(Renamed(template, prefix))
        ensures StartsWith(prefix, d) && d[|prefix|..] in s.dependsOn {
      var k :| 0 <= k < |t.dependsOn| && t.dependsOn[k] == d;
      RenamedIds(template, prefix, d);
      assert t.dependsOn[k] == Rename(ids, prefix, s.dependsOn[k]);
      assert (prefix + s.dependsOn[k])[|prefix|..] == s.dependsOn[k];
    }
    forall e | e in s.dependsOn && e in ids ensures prefix + e in t.dependsOn {
      var k :| 0 <= k < |s.dependsOn| && s.dependsOn[k] == e;
      assert t.dependsOn[k] == prefix + e;
    }
  }

  /** Each template step becomes one with the same dependencies inside the addon, renamed, and those without
      any depend on the insertion step. */
  lemma AddonStepIs(template: seq<Step>, prefix: string, wire: map<string, string>, outputs: map<string, string>,
                    after: string, i: nat)
    requires i < |template| && prefix != "" && FreshNames(template, prefix) && after != "" && !StartsWith(prefix, after)
    ensures var a := AddonSteps(template, prefix, wire, outputs, after);
      |a| == |template| && Became(template, prefix, after, IdsOf(a), i, a[i])
  {
    var r := Renamed(template, prefix);
    var w := Wired(r, wire, outputs);
    var n := Inserted(w, after);
    assert SameIds(w, r) && SameIds(n, w);
    IdsAreSame(w, r);
    IdsAreSame(n, w);
    AddonIds(template, prefix, wire, outputs, after);
    RootStays(template, prefix, i);
    DepsFollow(template, prefix, i);
    RenamedIds(template, prefix, after);
    StepBecomes(template, prefix, after, r[i], w[i], n[i], i, IdsOf(r));
  }

  lemma StepBecomes(template: seq<Step>, prefix: string, after: string, r: Step, w: Step, n: Step, i: nat,
                    ids: set<string>)
    requires i < |template| && IdOf(r) == prefix + IdOf(template[i]) && IdOf(w) == IdOf(r) == IdOf(n) && after !in ids
    requires w.dependsOn == r.dependsOn && n == InsertStep(w, ids, after)
      && (IsRoot(r, ids) <==> IsRoot(template[i], IdsOf(template)))
    requires forall d :: d in r.dependsOn && d in ids
               ==> StartsWith(prefix, d) && d[|prefix|..] in template[i].dependsOn
    requires forall e :: e in template[i].dependsOn && e in IdsOf(template) ==> prefix + e in r.dependsOn
    ensures Became(template, prefix, after, ids, i, InjectStep(n, ids, true))
  {
    hide DepsWith, IdsOf;
    var t := InjectStep(n, ids, true);
    forall d ensures d in t.dependsOn ==> d in n.dependsOn || d !in ids {
      DepsAre(ids, true, IdOf(n), n.dependsOn, n.refs, |n.refs|, d);
    }
    forall d ensures d in n.dependsOn ==> d in t.dependsOn {
      DepsAre(ids, true, IdOf(n), n.dependsOn, n.refs, |n.refs|, d);
    }
  }
}

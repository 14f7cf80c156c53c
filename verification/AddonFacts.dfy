/** What becomes of a template's step in the plan it is added to (intent/compose.go): its name, what it refers to, what
    is still to be wired, and what it depends on, said of the template and the addon's wires. */
module AddonFacts {
  import opened AddonPlans
  import opened Addons
  import opened Compose

  /** The name in the plan of what the template calls so. */
  function Called(template: seq<Step>, prefix: string, name: string): string {
    if exists i :: 0 <= i < |template| && IdOf(template[i]) == name then prefix + name else name
  }

  lemma CalledIs(template: seq<Step>, prefix: string, name: string)
    ensures Called(template, prefix, name) == Rename(IdsOf(template), prefix, name)
  {
  }

  /** What input m is wired to: what the addon says, but for the word that leaves it open; or else the step that gives
      an output of its name. */
  predicate WiredTo(wire: map<string, string>, outputs: map<string, string>, m: string, ref: string) {
    if m in wire then ref == wire[m] && ref != "MANUAL" else m in outputs && ref == outputs[m]
  }

  lemma {:induction false} RefsAre(s: Step, wire: map<string, string>, outputs: map<string, string>, n: nat,
                                   ref: string)
    requires n <= |s.markers|
    ensures ref in WiredRefs(s, wire, outputs, n) <==>
            ref in s.refs || exists k :: 0 <= k < n && WiredTo(wire, outputs, s.markers[k], ref)
  {
    if n > 0 {
      RefsAre(s, wire, outputs, n - 1, ref);
      assert ref in WireOf(wire, outputs, s.markers[n - 1]) <==> WiredTo(wire, outputs, s.markers[n - 1], ref);
    }
  }

  lemma {:induction false} MarkersLeft(s: Step, wire: map<string, string>, outputs: map<string, string>, n: nat,
                                       m: string)
    requires n <= |s.markers|
    ensures m in LeftMarkers(s, wire, outputs, n) <==>
            m !in wire && m !in outputs && exists k :: 0 <= k < n && s.markers[k] == m
  {
    if n > 0 {
      MarkersLeft(s, wire, outputs, n - 1, m);
    }
  }

  /** A reference, as the plan has it: its step by the name it has there. */
  function Referred(template: seq<Step>, prefix: string, ref: string): string {
    Called(template, prefix, Head(ref)) + ref[|Head(ref)|..]
  }

  lemma ReferredIs(template: seq<Step>, prefix: string, ref: string)
    ensures Referred(template, prefix, ref) == RenameRef(IdsOf(template), prefix, ref)
  {
    var h := Head(ref);
    CalledIs(template, prefix, h);
    assert ref == h + ref[|h|..];
    if h in IdsOf(template) {
      assert prefix + h + ref[|h|..] == prefix + (h + ref[|h|..]);
    }
  }

  /** The template's step depends on none of its others. */
  predicate Leads(template: seq<Step>, s: Step) {
    forall k, i :: 0 <= k < |s.dependsOn| && 0 <= i < |template| ==> IdOf(template[i]) != s.dependsOn[k]
  }

  /** t is what becomes of the template's step s. */
  ghost predicate StepBecame(template: seq<Step>, prefix: string, wire: map<string, string>,
                             outputs: map<string, string>, after: string, s: Step, t: Step) {
    && t.id == prefix + IdOf(s) && t.node == s.node && t.failing == s.failing
    && (forall m :: m in t.markers <==> m in s.markers && m !in wire && m !in outputs)
    && (forall ref :: ref in t.refs <==>
          || (exists k :: 0 <= k < |s.refs| && Referred(template, prefix, s.refs[k]) == ref)
          || (exists k :: 0 <= k < |s.markers| && WiredTo(wire, outputs, s.markers[k], ref)))
    && (forall d :: d in t.dependsOn <==> DependsNow(template, prefix, after, s, t.refs, d))
  }

  /** A step depends on what it did, and on the insertion step if it leads its template; and on each step outside the
      addon that it refers to. */
  ghost predicate DependsNow(template: seq<Step>, prefix: string, after: string, s: Step, refs: seq<string>,
                             d: string) {
    || (exists k :: 0 <= k < |s.dependsOn| && Called(template, prefix, s.dependsOn[k]) == d)
    || (d == after != "" && Leads(template, s))
    || (d != "" && (exists k :: 0 <= k < |refs| && Head(refs[k]) == d)
        && forall i :: 0 <= i < |template| ==> prefix + IdOf(template[i]) != d)
  }

  lemma AddonStepBecame(template: seq<Step>, prefix: string, wire: map<string, string>, outputs: map<string, string>,
                        after: string, i: nat)
    requires i < |template| && prefix != "" && FreshNames(template, prefix)
    ensures var addon := AddonSteps(template, prefix, wire, outputs, after);
      |addon| == |template| && StepBecame(template, prefix, wire, outputs, after, template[i], addon[i])
  {
    hide AddonSteps, DependsNow, WiredTo, Referred, RenameStep, WiredRefs, LeftMarkers, InjectStep, Renamed, IdsOf,
      FreshNames, IsRoot;
    var s, r, all := template[i], RenameStep(IdsOf(template), prefix, template[i]), IdsOf(Renamed(template, prefix));
    SameNames(template, prefix, wire, outputs, after);
    var n := StepIs(template, prefix, wire, outputs, after, i);
    var t := AddonSteps(template, prefix, wire, outputs, after)[i];
    RenamedParts(IdsOf(template), prefix, s);
    forall m ensures m in t.markers <==> m in s.markers && m !in wire && m !in outputs {
      MarkersLeft(r, wire, outputs, |r.markers|, m);
    }
    forall ref ensures ref in t.refs <==>
        || (exists k :: 0 <= k < |s.refs| && Referred(template, prefix, s.refs[k]) == ref)
        || (exists k :: 0 <= k < |s.markers| && WiredTo(wire, outputs, s.markers[k], ref)) {
      RefsAre(r, wire, outputs, |r.markers|, ref);
      RenamedRefs(template, prefix, s, ref);
    }
    forall d ensures d in t.dependsOn <==> DependsNow(template, prefix, after, s, t.refs, d) {
      StepDepends(template, prefix, after, i, n, d);
    }
  }

  lemma RenamedParts(ids: set<string>, prefix: string, s: Step)
    ensures var r := RenameStep(ids, prefix, s);
      r.id == prefix + IdOf(s) && r.node == s.node && r.failing == s.failing && r.markers == s.markers
  {
  }

  /** The step before the dependencies of its references are added. */
  lemma StepIs(template: seq<Step>, prefix: string, wire: map<string, string>, outputs: map<string, string>,
               after: string, i: nat) returns (n: Step)
    requires i < |template| && prefix != ""
    ensures var r, all := RenameStep(IdsOf(template), prefix, template[i]), IdsOf(Renamed(template, prefix));
      && |AddonSteps(template, prefix, wire, outputs, after)| == |template|
      && var t := AddonSteps(template, prefix, wire, outputs, after)[i];
         && t == InjectStep(n, all, true) && t.refs == n.refs == WiredRefs(r, wire, outputs, |r.markers|)
         && t.markers == n.markers == LeftMarkers(r, wire, outputs, |r.markers|)
         && t.id == n.id == r.id && t.node == n.node == r.node && t.failing == n.failing == r.failing
         && n.dependsOn == if after != "" && IsRoot(r, all) then r.dependsOn + [after] else r.dependsOn
  {
    hide WiredRefs, LeftMarkers, RenameStep, IsRoot;
    SameNames(template, prefix, wire, outputs, after);
    var r, all := RenameStep(IdsOf(template), prefix, template[i]), IdsOf(Renamed(template, prefix));
    var w := WireStep(r, wire, outputs);
    RootAlike(r, w, all);
    n := if after == "" then w else InsertStep(w, all, after);
  }

  lemma RootAlike(a: Step, b: Step, ids: set<string>)
    requires a.dependsOn == b.dependsOn
    ensures IsRoot(a, ids) <==> IsRoot(b, ids)
  {
  }

  lemma RenamedRefs(template: seq<Step>, prefix: string, s: Step, ref: string)
    ensures ref in RenameStep(IdsOf(template), prefix, s).refs <==>
            exists k :: 0 <= k < |s.refs| && Referred(template, prefix, s.refs[k]) == ref
  {
    var r := RenameStep(IdsOf(template), prefix, s);
    forall k | 0 <= k < |s.refs| ensures r.refs[k] == Referred(template, prefix, s.refs[k]) {
      ReferredIs(template, prefix, s.refs[k]);
    }
    if k :| 0 <= k < |s.refs| && Referred(template, prefix, s.refs[k]) == ref {
      assert r.refs[k] == ref;
    }
  }

  lemma SameNames(template: seq<Step>, prefix: string, wire: map<string, string>, outputs: map<string, string>,
                  after: string)
    requires prefix != ""
    ensures var r := Renamed(template, prefix);
      && IdsOf(Wired(r, wire, outputs)) == IdsOf(r) && IdsOf(Inserted(Wired(r, wire, outputs), after)) == IdsOf(r)
      && |AddonSteps(template, prefix, wire, outputs, after)| == |template|
  {
    var r := Renamed(template, prefix);
    var w := Wired(r, wire, outputs);
    var n := Inserted(w, after);
    assert SameIds(w, r) && SameIds(n, w);
    IdsAreSame(w, r);
    IdsAreSame(n, w);
  }

  lemma StepDepends(template: seq<Step>, prefix: string, after: string, i: nat, n: Step, d: string)
    requires i < |template| && prefix != "" && FreshNames(template, prefix)
    requires var r, all := RenameStep(IdsOf(template), prefix, template[i]), IdsOf(Renamed(template, prefix));
      n.dependsOn == (if after != "" && IsRoot(r, all) then r.dependsOn + [after] else r.dependsOn) && n.id == r.id
    ensures var all := IdsOf(Renamed(template, prefix));
      d in InjectStep(n, all, true).dependsOn <==> DependsNow(template, prefix, after, template[i], n.refs, d)
  {
    var s, all := template[i], IdsOf(Renamed(template, prefix));
    var r := RenameStep(IdsOf(template), prefix, s);
    RootStays(template, prefix, i);
    LeadsIs(template, s);
    DepsAre(all, true, IdOf(n), n.dependsOn, n.refs, |n.refs|, d);
    forall k | 0 <= k < |s.dependsOn| ensures r.dependsOn[k] == Called(template, prefix, s.dependsOn[k]) {
      CalledIs(template, prefix, s.dependsOn[k]);
    }
    assert d in r.dependsOn
      <==> exists k :: 0 <= k < |s.dependsOn| && Called(template, prefix, s.dependsOn[k]) == d by {
      if k :| 0 <= k < |s.dependsOn| && Called(template, prefix, s.dependsOn[k]) == d {
        assert r.dependsOn[k] == d;
      }
    }
    AllNames(template, prefix, d);
    AllNames(template, prefix, IdOf(n));
    assert IdOf(n) == prefix + IdOf(template[i]);
  }

  lemma LeadsIs(template: seq<Step>, s: Step)
    ensures Leads(template, s) <==> IsRoot(s, IdsOf(template))
  {
    if Leads(template, s) {
      forall k | 0 <= k < |s.dependsOn| ensures s.dependsOn[k] !in IdsOf(template) {
      }
    }
    if IsRoot(s, IdsOf(template)) {
      forall k, i | 0 <= k < |s.dependsOn| && 0 <= i < |template| ensures IdOf(template[i]) != s.dependsOn[k] {
        assert IdOf(template[i]) in IdsOf(template);
      }
    }
  }

  lemma AllNames(template: seq<Step>, prefix: string, d: string)
    requires prefix != ""
    ensures d in IdsOf(Renamed(template, prefix)) <==>
            exists i :: 0 <= i < |template| && prefix + IdOf(template[i]) == d
  {
    var r := Renamed(template, prefix);
    forall i | 0 <= i < |template| ensures IdOf(r[i]) == prefix + IdOf(template[i]) {
    }
    if i :| 0 <= i < |template| && prefix + IdOf(template[i]) == d {
      assert IdOf(r[i]) == d;
    }
  }

  /** A wire to an output of the insertion step names that step. */
  lemma AfterIsNamed(wire: map<string, string>, after: string, input: string, output: string)
    requires input in wire
    ensures wire[input] == "$after." + output ==> ResolvedWire(wire, after)[input] == after + "." + output
    ensures !StartsWith("$after.", wire[input]) ==> ResolvedWire(wire, after)[input] == wire[input]
    ensures ResolvedWire(wire, after).Keys == wire.Keys
  {
    if wire[input] == "$after." + output {
      assert wire[input][|AFTER| - 1..] == "." + output;
    }
  }
}

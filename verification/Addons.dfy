/** An addon's steps made part of a plan: renamed, wired, and put after their insertion step (intent/compose.go). */
module Addons {

  /** A step of a plan: its own ID or "", its node, the steps it depends on, the references its values,
      selections and conditions make, as step.output, and the inputs whose values are to be wired. */
  datatype Step = Step(id: string, node: string, dependsOn: seq<string>, refs: seq<string>, markers: seq<string>,
    failing: bool)

  /** A declared cleanup step: its node, and what else it says. */
  datatype CleanupStep = CleanupStep(node: string, runOn: string)

  /** A verification step: its node, and the references it makes. */
  datatype Check = Check(node: string, refs: seq<string>)

  function IdOf(s: Step): string {
    if s.id != "" then s.id else s.node
  }

  function IdsOf(steps: seq<Step>): set<string> {
    set i | 0 <= i < |steps| :: IdOf(steps[i])
  }

  // ---------- References ----------

  /** Where the step's name in a reference ends: its first dot, or its end. */
  function DotFrom(ref: string, i: nat): nat
    requires i <= |ref|
    ensures i <= DotFrom(ref, i) <= |ref|
    decreases |ref| - i
  {
    if i == |ref| || ref[i] == '.' then i else DotFrom(ref, i + 1)
  }

  function Head(ref: string): string {
    ref[..DotFrom(ref, 0)]
  }

  predicate NoDot(s: string) {
    forall i :: 0 <= i < |s| ==> s[i] != '.'
  }

  lemma {:induction false} DotSkips(prefix: string, ref: string, i: nat)
    requires NoDot(prefix) && i <= |prefix|
    ensures DotFrom(prefix + ref, i) == DotFrom(prefix + ref, |prefix|)
    decreases |prefix| - i
  {
    if i < |prefix| {
      assert (prefix + ref)[i] == prefix[i];
      DotSkips(prefix, ref, i + 1);
    }
  }

  lemma {:induction false} DotAfter(prefix: string, ref: string, i: nat)
    requires i <= |ref|
    ensures DotFrom(prefix + ref, |prefix| + i) == |prefix| + DotFrom(ref, i)
    decreases |ref| - i
  {
    if i < |ref| && ref[i] != '.' {
      DotAfter(prefix, ref, i + 1);
    }
  }

  /** A prefix before a reference is a prefix before its step, and leaves what it reads of it alone. */
  lemma HeadOfPrefixed(prefix: string, ref: string)
    requires NoDot(prefix)
    ensures Head(prefix + ref) == prefix + Head(ref)
    ensures (prefix + ref)[|Head(prefix + ref)|..] == ref[|Head(ref)|..]
  {
    DotSkips(prefix, ref, 0);
    DotAfter(prefix, ref, 0);
  }

  // ---------- Renaming (prefixStepRefs) ----------

  /** The name a step of the addon gets; any other step's stays. */
  function Rename(ids: set<string>, prefix: string, name: string): string {
    if name in ids then prefix + name else name
  }

  function RenameRef(ids: set<string>, prefix: string, ref: string): string {
    if Head(ref) in ids then prefix + ref else ref
  }

  function RenameStep(ids: set<string>, prefix: string, s: Step): Step {
    Step(prefix + IdOf(s), s.node,
         seq(|s.dependsOn|, i requires 0 <= i < |s.dependsOn| => Rename(ids, prefix, s.dependsOn[i])),
         seq(|s.refs|, i requires 0 <= i < |s.refs| => RenameRef(ids, prefix, s.refs[i])),
         s.markers, s.failing)
  }

  function Renamed(steps: seq<Step>, prefix: string): seq<Step> {
    seq(|steps|, i requires 0 <= i < |steps| => RenameStep(IdsOf(steps), prefix, steps[i]))
  }

  /** A renamed reference names the renamed step, and reads the same of it. */
  lemma RefsFollow(ids: set<string>, prefix: string, ref: string)
    requires NoDot(prefix)
    ensures Head(RenameRef(ids, prefix, ref)) == Rename(ids, prefix, Head(ref))
    ensures RenameRef(ids, prefix, ref)[|Head(RenameRef(ids, prefix, ref))|..] == ref[|Head(ref)|..]
  {
    HeadOfPrefixed(prefix, ref);
  }

  predicate StartsWith(prefix: string, name: string) {
    |prefix| <= |name| && name[..|prefix|] == prefix
  }

  /** Two names are renamed alike only when they are alike, where none begins with the prefix already. */
  lemma RenamesApart(ids: set<string>, prefix: string, a: string, b: string)
    requires !StartsWith(prefix, a) && !StartsWith(prefix, b)
    ensures Rename(ids, prefix, a) == Rename(ids, prefix, b) <==> a == b
    ensures StartsWith(prefix, Rename(ids, prefix, a)) <==> a in ids
  {
    assert (prefix + a)[..|prefix|] == prefix && (prefix + a)[|prefix|..] == a;
    assert (prefix + b)[..|prefix|] == prefix && (prefix + b)[|prefix|..] == b;
  }

  // ---------- Insertion (isRootStep, addInsertionDeps) ----------

  predicate IsRoot(s: Step, ids: set<string>) {
    forall i :: 0 <= i < |s.dependsOn| ==> s.dependsOn[i] !in ids
  }

  function InsertStep(s: Step, ids: set<string>, after: string): Step {
    if IsRoot(s, ids) then s.(dependsOn := s.dependsOn + [after]) else s
  }

  function Inserted(steps: seq<Step>, after: string): seq<Step> {
    if after == "" then steps
    else seq(|steps|, i requires 0 <= i < |steps| => InsertStep(steps[i], IdsOf(steps), after))
  }

  // ---------- Dependencies of references (plan.InjectReferenceDeps) ----------

  /** deps with the steps of the first n references that it does not have, of the plan or not of it. */
  function DepsWith(ids: set<string>, externalOnly: bool, own: string, deps: seq<string>, refs: seq<string>,
                    n: nat): seq<string>
    requires n <= |refs|
  {
    if n == 0 then deps
    else
      var before := DepsWith(ids, externalOnly, own, deps, refs, n - 1);
      var step := Head(refs[n - 1]);
      if step == "" || step == own || step in before || (step in ids) == externalOnly then before else before + [step]
  }

  function Injected(steps: seq<Step>, externalOnly: bool): seq<Step> {
    seq(|steps|, i requires 0 <= i < |steps| => InjectStep(steps[i], IdsOf(steps), externalOnly))
  }

  function InjectStep(s: Step, ids: set<string>, externalOnly: bool): Step {
    s.(dependsOn := DepsWith(ids, externalOnly, IdOf(s), s.dependsOn, s.refs, |s.refs|))
  }

  /** It keeps what a step depended on, and adds the steps it refers to, of the kind asked for, but itself. */
  lemma {:induction false} DepsAre(ids: set<string>, externalOnly: bool, own: string, deps: seq<string>,
                                   refs: seq<string>, n: nat, d: string)
    requires n <= |refs|
    ensures d in DepsWith(ids, externalOnly, own, deps, refs, n) <==>
            d in deps || (d != "" && d != own && (d in ids) != externalOnly
              && exists k :: 0 <= k < n && Head(refs[k]) == d)
  {
    if n > 0 {
      DepsAre(ids, externalOnly, own, deps, refs, n - 1, d);
    }
  }
}

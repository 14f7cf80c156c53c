/** Where each addon of a list goes (intent/compose.go composeAddonList): said of the addons before it and of the
    plan's steps alone. */
module AddonPlaces {
  import opened AddonLists
  import opened AddonOrder
  import opened AddonPlans
  import opened AddonRuns
  import opened AddonTheorems
  import opened Addons
  import opened Compose

  /** The node addon i went by, if it did: via holds, for each addon that is in, the place of that node in its list. */
  predicate WentBy(addons: seq<Addon>, via: seq<nat>, i: nat, node: string) {
    i < |via| <= |addons| && via[i] < |addons[i].nodes| && addons[i].nodes[via[i]] == node
  }

  predicate SomeWentBy(addons: seq<Addon>, via: seq<nat>, node: string) {
    exists i: nat :: i < |via| && WentBy(addons, via, i, node)
  }

  predicate SomeStepOn(steps: seq<Step>, node: string) {
    exists k :: 0 <= k < |steps| && steps[k].node == node
  }

  /** The addon could go by that node. */
  predicate Offers(steps: seq<Step>, addons: seq<Addon>, via: seq<nat>, node: string) {
    SomeWentBy(addons, via, node) || SomeStepOn(steps, node)
  }

  /** The last step of an addon's template. */
  function LastId(a: Addon): string
    requires a.template.Some? && a.template.value != []
  {
    IdOf(a.template.value[|a.template.value| - 1])
  }

  /** after is where an addon that goes by the node goes: behind the last step of the latest addon that went by it, or
      else behind the last step on it. */
  ghost predicate IsPlaceFor(steps: seq<Step>, addons: seq<Addon>, via: seq<nat>, node: string, after: string) {
    if SomeWentBy(addons, via, node) then
      exists i: nat ::
        && i < |via| && WentBy(addons, via, i, node)
        && (forall k: nat :: i < k < |via| ==> !WentBy(addons, via, k, node))
        && addons[i].template.Some? && addons[i].template.value != [] && after == Prefix(i) + LastId(addons[i])
    else
      exists k :: 0 <= k < |steps| && steps[k].node == node && after == IdOf(steps[k])
        && forall j :: k < j < |steps| ==> steps[j].node != node
  }

  /** The addon goes by the m-th of its nodes, the first that offers a place. */
  ghost predicate GoesBy(steps: seq<Step>, addons: seq<Addon>, via: seq<nat>, a: Addon, m: nat, after: string) {
    && m < |a.nodes| && Offers(steps, addons, via, a.nodes[m]) && IsPlaceFor(steps, addons, via, a.nodes[m], after)
    && forall k :: 0 <= k < m ==> !Offers(steps, addons, via, a.nodes[k])
  }

  // ---------- One addon ----------

  /** What the program remembers of the addons that are in. */
  ghost predicate Remembers(last: map<string, string>, addons: seq<Addon>, via: seq<nat>) {
    && |via| <= |addons|
    && forall node ::
         && (node in last <==> SomeWentBy(addons, via, node))
         && (node in last ==> IsPlaceFor([], addons, via, node, last[node]))
  }

  lemma {:induction false} LastOn(steps: seq<Step>, node: string, n: nat)
    requires n <= |steps| && "" !in IdsOf(steps)
    ensures StepByNode(steps, node, n) == "" <==> forall k :: 0 <= k < n ==> steps[k].node != node
    ensures StepByNode(steps, node, n) != "" ==>
              exists k :: 0 <= k < n && steps[k].node == node && StepByNode(steps, node, n) == IdOf(steps[k])
                && forall j :: k < j < n ==> steps[j].node != node
  {
    if n > 0 {
      LastOn(steps, node, n - 1);
      assert IdOf(steps[n - 1]) in IdsOf(steps);
    }
  }

  lemma StepPlaces(steps: seq<Step>, addons: seq<Addon>, via: seq<nat>, node: string)
    requires "" !in IdsOf(steps) && !SomeWentBy(addons, via, node)
    ensures StepByNode(steps, node, |steps|) == "" <==> !Offers(steps, addons, via, node)
    ensures StepByNode(steps, node, |steps|) != "" ==>
              IsPlaceFor(steps, addons, via, node, StepByNode(steps, node, |steps|))
  {
    LastOn(steps, node, |steps|);
  }

  /** Names of addons' steps are never empty. */
  lemma PlaceNamed(last: map<string, string>, addons: seq<Addon>, via: seq<nat>, node: string)
    requires Remembers(last, addons, via) && node in last
    ensures last[node] != ""
  {
    var i: nat :| i < |via| && WentBy(addons, via, i, node)
      && addons[i].template.Some? && addons[i].template.value != []
      && last[node] == Prefix(i) + LastId(addons[i]);
    PrefixHas(i);
  }

  /** The search through an addon's nodes, from the i-th on. */
  lemma {:induction false} PlaceGoesBy(steps: seq<Step>, addons: seq<Addon>, via: seq<nat>, a: Addon,
                                       last: map<string, string>, i: nat) returns (m: nat)
    requires i <= |a.nodes| && "" !in IdsOf(steps) && Remembers(last, addons, via)
    requires forall k :: 0 <= k < i ==> !Offers(steps, addons, via, a.nodes[k])
    ensures var (after, matched) := Place(steps, a.nodes, last, i);
      if after == "" then forall k :: 0 <= k < |a.nodes| ==> !Offers(steps, addons, via, a.nodes[k])
      else GoesBy(steps, addons, via, a, m, after) && matched == a.nodes[m]
    decreases |a.nodes| - i
  {
    hide StepByNode, Offers, IsPlaceFor, Remembers;
    m := i;
    if i < |a.nodes| {
      var node := a.nodes[i];
      RemembersOf(last, addons, via, node, steps);
      if node in last {
        PlaceNamed(last, addons, via, node);
      } else {
        StepPlaces(steps, addons, via, node);
        if StepByNode(steps, node, |steps|) == "" {
          m := PlaceGoesBy(steps, addons, via, a, last, i + 1);
        }
      }
    }
  }

  lemma RemembersOf(last: map<string, string>, addons: seq<Addon>, via: seq<nat>, node: string, steps: seq<Step>)
    requires Remembers(last, addons, via)
    ensures node in last <==> SomeWentBy(addons, via, node)
    ensures node in last ==> Offers(steps, addons, via, node) && IsPlaceFor(steps, addons, via, node, last[node])
  {
  }

  /** The addon just added is the latest by its node. */
  lemma RemembersMore(last: map<string, string>, addons: seq<Addon>, via: seq<nat>, m: nat)
    requires Remembers(last, addons, via) && |via| < |addons| && m < |addons[|via|].nodes|
    requires addons[|via|].template.Some? && addons[|via|].template.value != []
    ensures Remembers(last[addons[|via|].nodes[m] := Prefix(|via|) + LastId(addons[|via|])], addons, via + [m])
  {
    hide Prefix, LastId, SomeWentBy, IsPlaceFor;
    var n, more := |via|, via + [m];
    var node := addons[n].nodes[m];
    NewRemembered(addons, via, m);
    forall other
      ensures SomeWentBy(addons, more, other) <==> other == node || SomeWentBy(addons, via, other)
      ensures other != node && SomeWentBy(addons, via, other) ==> IsPlaceFor([], addons, more, other, last[other]) {
      OtherGoes(addons, via, m, other);
      if other != node && SomeWentBy(addons, via, other) {
        OtherRemembered(addons, via, m, other, last[other]);
      }
    }
  }

  lemma NewRemembered(addons: seq<Addon>, via: seq<nat>, m: nat)
    requires |via| < |addons| && m < |addons[|via|].nodes|
    requires addons[|via|].template.Some? && addons[|via|].template.value != []
    ensures IsPlaceFor([], addons, via + [m], addons[|via|].nodes[m], Prefix(|via|) + LastId(addons[|via|]))
  {
    hide Prefix, LastId;
    assert WentBy(addons, via + [m], |via|, addons[|via|].nodes[m]);
  }

  lemma OtherGoes(addons: seq<Addon>, via: seq<nat>, m: nat, other: string)
    requires |via| < |addons| && m < |addons[|via|].nodes|
    ensures SomeWentBy(addons, via + [m], other)
      <==> other == addons[|via|].nodes[m] || SomeWentBy(addons, via, other)
  {
    var n, more := |via|, via + [m];
    assert WentBy(addons, more, n, other) <==> other == addons[n].nodes[m];
    forall i: nat | i < n ensures WentBy(addons, more, i, other) <==> WentBy(addons, via, i, other) {
    }
    if SomeWentBy(addons, via, other) {
      var i: nat :| i < n && WentBy(addons, via, i, other);
      assert WentBy(addons, more, i, other);
    }
  }

  lemma OtherRemembered(addons: seq<Addon>, via: seq<nat>, m: nat, other: string, after: string)
    requires |via| < |addons| && m < |addons[|via|].nodes| && other != addons[|via|].nodes[m]
    requires SomeWentBy(addons, via, other) && IsPlaceFor([], addons, via, other, after)
    ensures IsPlaceFor([], addons, via + [m], other, after)
  {
    hide Prefix, LastId;
    var n, more := |via|, via + [m];
    forall i: nat | i < n ensures WentBy(addons, more, i, other) <==> WentBy(addons, via, i, other) {
    }
    OtherGoes(addons, via, m, other);
  }

  // ---------- Whole lists ----------

  /** Addon j went by the node via says, which had its place in the plan the addons before it made. */
  ghost predicate WentRight(steps: seq<Step>, addons: seq<Addon>, given: map<string, seq<string>>, via: seq<nat>,
                            placed: seq<string>, j: nat)
    requires j < |via| <= |addons| && j < |placed|
  {
    var p := AddAll(steps, addons, given, j);
    p.Going? && GoesBy(p.steps, addons, via[..j], addons[j], via[j], placed[j])
  }

  lemma NamesMore(p: Progress, a: Addon, i: nat, given: map<string, seq<string>>)
    requires p.Going? && "" !in IdsOf(p.steps) && AddOne(p, a, i, given).Going?
    ensures "" !in IdsOf(AddOne(p, a, i, given).steps)
    ensures AddOne(p, a, i, given).last
      == p.last[Place(p.steps, a.nodes, p.last, 0).1 := Prefix(i) + LastId(a)]
  {
    hide Place, OutputMap, ResolvedWire, AddonSteps, Prefix, Spliced, IdsOf;
    var after, template := Place(p.steps, a.nodes, p.last, 0).0, a.template.value;
    var wire, outputs := ResolvedWire(a.wire, after), OutputMap(p.steps, given, |p.steps|);
    PrefixHas(i);
    AddonNamed(template, Prefix(i), wire, outputs, after);
    SplicedNamed(p.steps, AddonSteps(template, Prefix(i), wire, outputs, after), after);
  }

  /** An addon's steps are its template's, by their names behind its prefix. */
  lemma AddonNamed(template: seq<Step>, prefix: string, wire: map<string, string>, outputs: map<string, string>,
                   after: string)
    requires prefix != ""
    ensures var addon := AddonSteps(template, prefix, wire, outputs, after);
      |addon| == |template| && forall k :: 0 <= k < |addon| ==> IdOf(addon[k]) == prefix + IdOf(template[k]) != ""
  {
    AddonIds(template, prefix, wire, outputs, after);
    hide AddonSteps;
    var addon, renamed := AddonSteps(template, prefix, wire, outputs, after), Renamed(template, prefix);
    forall k | 0 <= k < |addon| ensures IdOf(addon[k]) == prefix + IdOf(template[k]) {
      assert IdOf(addon[k]) == IdOf(renamed[k]);
    }
  }

  lemma SplicedNamed(parent: seq<Step>, addon: seq<Step>, after: string)
    requires "" !in IdsOf(parent) && forall k :: 0 <= k < |addon| ==> IdOf(addon[k]) != ""
    ensures "" !in IdsOf(Spliced(parent, addon, after))
  {
    var all := Spliced(parent, addon, after);
    forall k | 0 <= k < |all| ensures IdOf(all[k]) != "" {
      SplicedAt(parent, addon, after, k);
    }
  }

  /** What holds of the first n addons. */
  ghost predicate PlacesRight(steps: seq<Step>, addons: seq<Addon>, given: map<string, seq<string>>, via: seq<nat>,
                              n: nat)
    requires n <= |addons|
  {
    var p := AddAll(steps, addons, given, n);
    p.Going? && |via| == n && |p.placed| == n && Remembers(p.last, addons, via) && "" !in IdsOf(p.steps)
    && forall j: nat :: j < n ==> WentRight(steps, addons, given, via, p.placed, j)
  }

  lemma OneMorePlaced(steps: seq<Step>, addons: seq<Addon>, given: map<string, seq<string>>, via: seq<nat>, n: nat)
      returns (m: nat)
    requires n < |addons| && PlacesRight(steps, addons, given, via, n)
    requires AddAll(steps, addons, given, n + 1).Going?
    ensures PlacesRight(steps, addons, given, via + [m], n + 1)
  {
    hide GoesBy, Remembers, Place, Prefix, LastId;
    var p, a := AddAll(steps, addons, given, n), addons[n];
    var q := AddOne(p, a, n, given);
    RemembersNothingElse(p.last, addons, via);
    m := PlaceGoesBy(p.steps, addons, via, a, p.last, 0);
    GoesWithin(p.steps, addons, via, a, m, Place(p.steps, a.nodes, p.last, 0).0);
    NamesMore(p, a, n, given);
    RemembersMore(p.last, addons, via, m);
    forall j: nat | j < n + 1 ensures WentRight(steps, addons, given, via + [m], q.placed, j) {
      if j < n {
        assert WentRight(steps, addons, given, via, p.placed, j);
        assert (via + [m])[..j] == via[..j] && q.placed[j] == p.placed[j];
      } else {
        assert (via + [m])[..n] == via;
      }
    }
  }

  lemma RemembersNothingElse(last: map<string, string>, addons: seq<Addon>, via: seq<nat>)
    requires Remembers(last, addons, via)
    ensures |via| <= |addons|
  {
  }

  lemma GoesWithin(steps: seq<Step>, addons: seq<Addon>, via: seq<nat>, a: Addon, m: nat, after: string)
    requires GoesBy(steps, addons, via, a, m, after)
    ensures m < |a.nodes|
  {
  }

  /** Each addon goes by the first of its nodes that an addon before it went by or some step of the plan is on: behind
      the last step of the latest addon that went by that node, or else behind the last step on it. */
  lemma {:induction false} AddonsGoRight(steps: seq<Step>, addons: seq<Addon>, given: map<string, seq<string>>, n: nat)
      returns (via: seq<nat>)
    requires n <= |addons| && "" !in IdsOf(steps) && AddAll(steps, addons, given, n).Going?
    ensures PlacesRight(steps, addons, given, via, n)
  {
    hide PlacesRight, AddOne;
    if n == 0 {
      via := [];
      StartsRight(steps, addons, given);
    } else {
      via := AddonsGoRight(steps, addons, given, n - 1);
      var m := OneMorePlaced(steps, addons, given, via, n - 1);
      via := via + [m];
    }
  }

  lemma StartsRight(steps: seq<Step>, addons: seq<Addon>, given: map<string, seq<string>>)
    requires "" !in IdsOf(steps)
    ensures PlacesRight(steps, addons, given, [], 0)
  {
  }

  /** An addon finds no place exactly when none of its nodes offers one. */
  lemma NoPlaceIff(steps: seq<Step>, addons: seq<Addon>, given: map<string, seq<string>>, via: seq<nat>, n: nat)
    requires n < |addons| && PlacesRight(steps, addons, given, via, n)
    ensures var p, a := AddAll(steps, addons, given, n), addons[n];
      AddOne(p, a, n, given) == Stopped(NoPlace, p.steps, n) <==>
        a.template.Some? && forall k :: 0 <= k < |a.nodes| ==> !Offers(p.steps, addons, via, a.nodes[k])
  {
    var p, a := AddAll(steps, addons, given, n), addons[n];
    hide Place, AddonSteps, Spliced, OutputMap, Offers, IsPlaceFor, Remembers;
    var m := PlaceGoesBy(p.steps, addons, via, a, p.last, 0);
    var after := Place(p.steps, a.nodes, p.last, 0).0;
    if after != "" {
      assert Offers(p.steps, addons, via, a.nodes[m]);
    }
  }

  /** So an addon that goes by a node an earlier one went by has all its steps run behind that one's last step. */
  lemma FollowsTheLatest(steps: seq<Step>, addons: seq<Addon>, given: map<string, seq<string>>, via: seq<nat>, n: nat,
                         j: nat) returns (i: nat)
    requires n <= |addons| && NamesClear(steps, addons) && RefsClearOf(steps, addons) && TemplatesReady(addons)
      && Ready(steps)
    requires PlacesRight(steps, addons, given, via, n) && NoSelf(AddAll(steps, addons, given, n).steps) && j < n
    requires via[j] < |addons[j].nodes| && SomeWentBy(addons, via[..j], addons[j].nodes[via[j]])
    ensures i < j && WentBy(addons, via, i, addons[j].nodes[via[j]])
    ensures forall k: nat :: i < k < j ==> !WentBy(addons, via, k, addons[j].nodes[via[j]])
    ensures addons[i].template.Some? && addons[i].template.value != [] && addons[j].template.Some?
    ensures var p := AddAll(steps, addons, given, n);
      AllBehind(Injected(p.steps, false), addons[j].template.value, Prefix(j), Prefix(i) + LastId(addons[i]))
  {
    hide AllBehind, Injected, NoSelf, Ready, TemplatesReady, RefsClearOf, NamesClear, Remembers, Prefix, LastId,
      Orderly;
    var p, node := AddAll(steps, addons, given, n), addons[j].nodes[via[j]];
    AddonsRunBehind(steps, addons, given, n, j);
    assert WentRight(steps, addons, given, via, p.placed, j);
    i :| i < j && WentBy(addons, via[..j], i, node)
      && (forall k: nat :: i < k < j ==> !WentBy(addons, via[..j], k, node))
      && addons[i].template.Some? && addons[i].template.value != [] && p.placed[j] == Prefix(i) + LastId(addons[i]);
    forall k: nat | k < j ensures WentBy(addons, via, k, node) <==> WentBy(addons, via[..j], k, node) {
    }
  }
}

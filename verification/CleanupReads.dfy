/** Whose outputs a cleanup reads (engine/cleanup_skip.go resolveCleanupInputs): said of what the run stored and of
    the chain's own steps, without the lists the program goes through. */
module CleanupReads {
  import opened CleanupChain
  import opened CleanupSkip
  import opened JsonString
  import opened RunStates
  import opened Values

  /** A step stored an output of that name. */
  predicate Gave(s: Stored, id: string, name: string) {
    id in s.outputs && name in s.outputs[id]
  }

  /** The step is the happy path's. */
  predicate OnHappyPath(owner: map<string, string>, id: string) {
    id in owner ==> owner[id] == ""
  }

  /** Both steps are of one fuzz case. */
  predicate OfOneCase(owner: map<string, string>, id: string, other: string) {
    id in owner && other in owner && owner[id] == owner[other] != ""
  }

  /** Of the steps of forStep's case that gave an output of the name, the one at i stored its outputs last. */
  ghost predicate LastOfCase(w: Setting, forStep: string, name: string, i: nat) {
    && i < |w.stored.order| && OfOneCase(w.owner, w.stored.order[i], forStep) && Gave(w.stored, w.stored.order[i], name)
    && forall j :: i < j < |w.stored.order| && OfOneCase(w.owner, w.stored.order[j], forStep)
         ==> !Gave(w.stored, w.stored.order[j], name)
  }

  ghost predicate LastOfHappyPath(w: Setting, name: string, i: nat) {
    && i < |w.stored.order| && OnHappyPath(w.owner, w.stored.order[i]) && Gave(w.stored, w.stored.order[i], name)
    && forall j :: i < j < |w.stored.order| && OnHappyPath(w.owner, w.stored.order[j])
         ==> !Gave(w.stored, w.stored.order[j], name)
  }

  // ---------- Where a step stands in the lists ----------

  /** A step of that owner, stored later than the one at i. */
  ghost predicate StoredLater(owner: map<string, string>, order: seq<string>, of: string, n: nat, i: nat, id: string) {
    exists j :: i < j < n <= |order| && Owner(owner, order[j]) == of && order[j] == id
  }

  /** Before the step at i, one owner's list has only steps that stored their outputs later. */
  lemma {:induction false} LatestAt(owner: map<string, string>, order: seq<string>, of: string, n: nat, i: nat)
      returns (p: nat)
    requires i < n <= |order| && Owner(owner, order[i]) == of
    ensures p < |Latest(owner, order, of, n)| && Latest(owner, order, of, n)[p] == order[i]
    ensures forall q :: 0 <= q < p ==> StoredLater(owner, order, of, n, i, Latest(owner, order, of, n)[q])
  {
    if i == n - 1 {
      p := 0;
    } else {
      var head := if Owner(owner, order[n - 1]) == of then [order[n - 1]] else [];
      var at := LatestAt(owner, order, of, n - 1, i);
      p := |head| + at;
      var rest := Latest(owner, order, of, n - 1);
      forall q | 0 <= q < p ensures StoredLater(owner, order, of, n, i, (head + rest)[q]) {
        if q >= |head| {
          LaterStill(owner, order, of, n - 1, i, rest[q - |head|]);
        }
      }
    }
  }

  lemma LaterStill(owner: map<string, string>, order: seq<string>, of: string, n: nat, i: nat, id: string)
    requires StoredLater(owner, order, of, n, i, id) && n < |order|
    ensures StoredLater(owner, order, of, n + 1, i, id)
  {
  }

  // ---------- What each input is ----------

  /** The step that registered an entry; an entry without one goes by its node. */
  function RegisteredBy(entry: Entry): string {
    if entry.forStep == "" then entry.forNode else entry.forStep
  }

  /** None of these steps has an output of the name. */
  predicate NoneHas(before: seq<Result>, name: string) {
    forall i :: 0 <= i < |before| ==> name !in before[i].outputs
  }

  function OwnList(w: Setting, entry: Entry): seq<string> {
    var own := Owner(w.owner, entry.forStep);
    if own == "" then [] else Latest(w.owner, w.stored.order, own, |w.stored.order|)
  }

  function MainList(w: Setting): seq<string> {
    Latest(w.owner, w.stored.order, "", |w.stored.order|)
  }

  lemma SupplyAt(w: Setting, entry: Entry, before: seq<Result>, i: nat)
    requires i < |Supply(w, entry, before)|
    ensures var n, m, own := |before|, |OwnList(w, entry)|, OwnList(w, entry);
      && |Supply(w, entry, before)| == n + 1 + m + |MainList(w)|
      && (i < n ==> Supply(w, entry, before)[i] == before[i].outputs)
      && (i == n ==> Supply(w, entry, before)[i] == OutputsOf(w.stored, RegisteredBy(entry)))
      && (n < i <= n + m ==> Supply(w, entry, before)[i] == OutputsOf(w.stored, own[i - n - 1]))
      && (n + m < i ==> Supply(w, entry, before)[i] == OutputsOf(w.stored, MainList(w)[i - n - 1 - m]))
  {
    assert Sources(w.owner, w.stored.order, entry.forStep) == OwnList(w, entry) + MainList(w);
  }

  lemma NearestInChain(w: Setting, entry: Entry, before: seq<Result>, name: string, i: nat)
    requires i < |before| && name in before[i].outputs && NoneHas(before[..i], name)
    ensures Nearest(Supply(w, entry, before), name, 0) == Some(before[i].outputs[name])
  {
    hide Supply, Nearest;
    var supply := Supply(w, entry, before);
    LongEnough(w, entry, before);
    forall j | 0 <= j < i ensures name !in supply[j] {
      SupplyAt(w, entry, before, j);
      assert before[..i][j] == before[j];
    }
    SupplyAt(w, entry, before, i);
    NearestIsFirst(supply, name, i);
  }

  lemma LongEnough(w: Setting, entry: Entry, before: seq<Result>)
    ensures |Supply(w, entry, before)| == |before| + 1 + |OwnList(w, entry)| + |MainList(w)|
  {
    SupplyAt(w, entry, before, 0);
  }

  lemma NearestRegistered(w: Setting, entry: Entry, before: seq<Result>, name: string)
    requires NoneHas(before, name) && Gave(w.stored, RegisteredBy(entry), name)
    ensures Nearest(Supply(w, entry, before), name, 0) == Some(w.stored.outputs[RegisteredBy(entry)][name])
  {
    hide Supply, Nearest;
    var supply := Supply(w, entry, before);
    LongEnough(w, entry, before);
    forall j | 0 <= j < |before| ensures name !in supply[j] {
      SupplyAt(w, entry, before, j);
    }
    SupplyAt(w, entry, before, |before|);
    NearestIsFirst(supply, name, |before|);
  }

  lemma NearestOfCase(w: Setting, entry: Entry, before: seq<Result>, name: string, i: nat)
    requires NoneHas(before, name) && !Gave(w.stored, RegisteredBy(entry), name)
    requires LastOfCase(w, entry.forStep, name, i)
    ensures Nearest(Supply(w, entry, before), name, 0) == Some(w.stored.outputs[w.stored.order[i]][name])
  {
    hide Supply, Nearest;
    var supply, order, own := Supply(w, entry, before), w.stored.order, Owner(w.owner, entry.forStep);
    LongEnough(w, entry, before);
    var p := LatestAt(w.owner, order, own, |order|, i);
    var at := |before| + 1 + p;
    forall j | 0 <= j < at ensures name !in supply[j] {
      SupplyAt(w, entry, before, j);
      if j > |before| {
        assert StoredLater(w.owner, order, own, |order|, i, OwnList(w, entry)[j - |before| - 1]);
        var k :| i < k < |order| && Owner(w.owner, order[k]) == own && order[k] == OwnList(w, entry)[j - |before| - 1];
        assert OfOneCase(w.owner, order[k], entry.forStep);
      }
    }
    SupplyAt(w, entry, before, at);
    NearestIsFirst(supply, name, at);
  }

  lemma NoneOfCase(w: Setting, entry: Entry, name: string, j: nat)
    requires forall i :: !LastOfCase(w, entry.forStep, name, i)
    requires j < |OwnList(w, entry)|
    ensures !Gave(w.stored, OwnList(w, entry)[j], name)
  {
    var order, own := w.stored.order, Owner(w.owner, entry.forStep);
    LatestAre(w.owner, order, own, |order|, OwnList(w, entry)[j]);
    if Gave(w.stored, OwnList(w, entry)[j], name) {
      var i :| 0 <= i < |order| && order[i] == OwnList(w, entry)[j];
      assert OfOneCase(w.owner, order[i], entry.forStep);
      var last := LastGiving(w, (id: string) => OfOneCase(w.owner, id, entry.forStep), name, i);
      assert LastOfCase(w, entry.forStep, name, last);
    }
  }

  lemma {:induction false} LastGiving(w: Setting, of: string -> bool, name: string, i: nat) returns (last: nat)
    requires i < |w.stored.order| && of(w.stored.order[i]) && Gave(w.stored, w.stored.order[i], name)
    ensures last < |w.stored.order| && of(w.stored.order[last]) && Gave(w.stored, w.stored.order[last], name)
    ensures forall j :: last < j < |w.stored.order| && of(w.stored.order[j]) ==>
              !Gave(w.stored, w.stored.order[j], name)
    decreases |w.stored.order| - i
  {
    if j: nat :| i < j < |w.stored.order| && of(w.stored.order[j]) && Gave(w.stored, w.stored.order[j], name) {
      last := LastGiving(w, of, name, j);
    } else {
      last := i;
    }
  }

  lemma NearestOfHappyPath(w: Setting, entry: Entry, before: seq<Result>, name: string, i: nat)
    requires NoneHas(before, name) && !Gave(w.stored, RegisteredBy(entry), name)
    requires (forall k :: !LastOfCase(w, entry.forStep, name, k)) && LastOfHappyPath(w, name, i)
    ensures Nearest(Supply(w, entry, before), name, 0) == Some(w.stored.outputs[w.stored.order[i]][name])
  {
    hide Supply, Nearest;
    var supply, order := Supply(w, entry, before), w.stored.order;
    LongEnough(w, entry, before);
    var p := LatestAt(w.owner, order, "", |order|, i);
    var m := |before| + 1 + |OwnList(w, entry)|;
    forall j | 0 <= j < m + p ensures name !in supply[j] {
      SupplyAt(w, entry, before, j);
      if |before| < j < m {
        NoneOfCase(w, entry, name, j - |before| - 1);
      } else if j >= m {
        assert StoredLater(w.owner, order, "", |order|, i, MainList(w)[j - m]);
        var k :| i < k < |order| && Owner(w.owner, order[k]) == "" && order[k] == MainList(w)[j - m];
        assert OnHappyPath(w.owner, order[k]);
      }
    }
    SupplyAt(w, entry, before, m + p);
    NearestIsFirst(supply, name, m + p);
  }

  lemma NearestNone(w: Setting, entry: Entry, before: seq<Result>, name: string)
    requires NoneHas(before, name) && !Gave(w.stored, RegisteredBy(entry), name)
    requires (forall k :: !LastOfCase(w, entry.forStep, name, k)) && forall k :: !LastOfHappyPath(w, name, k)
    ensures Nearest(Supply(w, entry, before), name, 0) == None
  {
    hide Supply, Nearest;
    var supply, m := Supply(w, entry, before), |before| + 1 + |OwnList(w, entry)|;
    LongEnough(w, entry, before);
    forall j | 0 <= j < |supply| ensures name !in supply[j] {
      SupplyAt(w, entry, before, j);
      if |before| < j < m {
        NoneOfCase(w, entry, name, j - |before| - 1);
      } else if j >= m {
        NoneOfHappyPath(w, name, j - m);
      }
    }
    NearestOfNone(supply, name);
  }

  lemma NoneOfHappyPath(w: Setting, name: string, j: nat)
    requires (forall i :: !LastOfHappyPath(w, name, i)) && j < |MainList(w)|
    ensures !Gave(w.stored, MainList(w)[j], name)
  {
    var order := w.stored.order;
    LatestAre(w.owner, order, "", |order|, MainList(w)[j]);
    if Gave(w.stored, MainList(w)[j], name) {
      var i :| 0 <= i < |order| && order[i] == MainList(w)[j];
      assert OnHappyPath(w.owner, order[i]);
      var last := LastGiving(w, (id: string) => OnHappyPath(w.owner, id), name, i);
      assert LastOfHappyPath(w, name, last);
    }
  }

  // ---------- A chain's steps ----------

  /** The step whose outputs step k of a chain reads behind the chain's own: the one that registered the entry, or,
      for an entry that names no step, the node it is for. */
  function SourceOf(first: Entry, all: seq<Result>, k: nat): string
    requires k < |all|
  {
    if first.forStep != "" then first.forStep else if k == 0 then first.forNode else all[k - 1].node
  }

  /** r reads this value, or none, under the name. */
  predicate Reads(r: Result, name: string, v: Option<Val>) {
    if v.Some? then name in r.inputs && r.inputs[name] == v.value else name !in r.inputs
  }

  ghost predicate ReadsNearest(all: seq<Result>, k: nat, name: string)
    requires k < |all|
  {
    forall i :: 0 <= i < k && name in all[i].outputs && NoneHas(all[i + 1..k], name) ==>
      Reads(all[k], name, Some(all[i].outputs[name]))
  }

  ghost predicate ReadsStored(w: Setting, first: Entry, all: seq<Result>, k: nat, name: string)
    requires k < |all|
  {
    var stored, source := w.stored, SourceOf(first, all, k);
    if Gave(stored, source, name) then Reads(all[k], name, Some(stored.outputs[source][name]))
    else
      && (forall i: nat :: LastOfCase(w, first.forStep, name, i) ==>
            Reads(all[k], name, Some(stored.outputs[stored.order[i]][name])))
      && ((forall i :: !LastOfCase(w, first.forStep, name, i)) ==>
            && (forall i: nat :: LastOfHappyPath(w, name, i) ==>
                  Reads(all[k], name, Some(stored.outputs[stored.order[i]][name])))
            && ((forall i :: !LastOfHappyPath(w, name, i)) ==> Reads(all[k], name, None)))
  }

  /** What a cleanup sends for each input its node declares: the value of the nearest step of its chain that has
      one; else that of the step that registered it; else that of the last step of its own case, and then of the
      happy path, to store one; and it sends nothing else. */
  lemma CleanupInputsAre(w: Setting, first: Entry, firstFor: string, sent: nat, all: seq<Result>, k: nat, name: string)
    requires StepsFrom(w, first, firstFor, sent, all, 0) && k < |all|
    requires !all[k].problem.CleanupCycle? && all[k].node in w.graph
    ensures var declared := w.graph[all[k].node].inputs;
      if exists i :: 0 <= i < |declared| && declared[i].name == name
      then ReadsNearest(all, k, name) && (NoneHas(all[..k], name) ==> ReadsStored(w, first, all, k, name))
      else name !in all[k].inputs
  {
    var r, prior, declared := all[k], all[..k], w.graph[all[k].node].inputs;
    assert StepOf(w, first, firstFor, sent, prior, r);
    var entry, before := EntryOf(first, prior, r.node), Reversed(prior);
    assert ComesTo(w, first, prior, r.node) && entry.nodeName == r.node;
    assert r.inputs == Inputs(declared, Supply(w, entry, before));
    if i :| 0 <= i < |declared| && declared[i].name == name {
      assert name in Declared(declared);
      var got := Nearest(Supply(w, entry, before), name, 0);
      assert Reads(r, name, got);
      assert RegisteredBy(entry) == SourceOf(first, all, k) && entry.forStep == first.forStep;
      NearestOfChain(w, entry, all, k, name);
      if NoneHas(prior, name) {
        StoredIs(w, entry, first, all, k, name);
      }
    }
  }

  lemma NearestOfChain(w: Setting, entry: Entry, all: seq<Result>, k: nat, name: string)
    requires k < |all| && Reads(all[k], name, Nearest(Supply(w, entry, Reversed(all[..k])), name, 0))
    ensures ReadsNearest(all, k, name)
  {
    hide Supply, Nearest;
    var prior := all[..k];
    forall i | 0 <= i < k && name in all[i].outputs && NoneHas(all[i + 1..k], name)
      ensures Reads(all[k], name, Some(all[i].outputs[name])) {
      var at := k - 1 - i;
      assert Reversed(prior)[at] == all[i];
      forall j | 0 <= j < at ensures name !in Reversed(prior)[..at][j].outputs {
        assert Reversed(prior)[j] == all[i + 1..k][k - 1 - j - (i + 1)];
      }
      NearestInChain(w, entry, Reversed(prior), name, at);
    }
  }

  lemma StoredIs(w: Setting, entry: Entry, first: Entry, all: seq<Result>, k: nat, name: string)
    requires k < |all| && Reads(all[k], name, Nearest(Supply(w, entry, Reversed(all[..k])), name, 0))
    requires NoneHas(all[..k], name) && RegisteredBy(entry) == SourceOf(first, all, k)
      && entry.forStep == first.forStep
    ensures ReadsStored(w, first, all, k, name)
  {
    hide Supply, Nearest, LastOfCase, LastOfHappyPath;
    var before := Reversed(all[..k]);
    forall j | 0 <= j < |before| ensures name !in before[j].outputs {
      assert before[j] == all[..k][k - 1 - j];
    }
    if Gave(w.stored, SourceOf(first, all, k), name) {
      NearestRegistered(w, entry, before, name);
    } else {
      forall i: nat | LastOfCase(w, first.forStep, name, i)
        ensures i < |w.stored.order| && Gave(w.stored, w.stored.order[i], name)
          && Reads(all[k], name, Some(w.stored.outputs[w.stored.order[i]][name])) {
        LastGave(w, first.forStep, name, i);
        NearestOfCase(w, entry, before, name, i);
      }
      if forall i :: !LastOfCase(w, first.forStep, name, i) {
        forall i: nat | LastOfHappyPath(w, name, i)
          ensures i < |w.stored.order| && Gave(w.stored, w.stored.order[i], name)
            && Reads(all[k], name, Some(w.stored.outputs[w.stored.order[i]][name])) {
          LastGave(w, first.forStep, name, i);
          NearestOfHappyPath(w, entry, before, name, i);
        }
        if forall i :: !LastOfHappyPath(w, name, i) {
          NearestNone(w, entry, before, name);
        }
      }
    }
  }

  lemma LastGave(w: Setting, forStep: string, name: string, i: nat)
    ensures LastOfCase(w, forStep, name, i) || LastOfHappyPath(w, name, i) ==>
              i < |w.stored.order| && Gave(w.stored, w.stored.order[i], name)
  {
  }
}

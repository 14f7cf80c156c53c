/** When a fuzz case may stand on a setup an earlier case left (engine/fuzz.go): what the history of
    one target looks like, and how each decision keeps it so. */
module FuzzReuse {
  import opened TopoOrder
  import opened FuzzState

  /** A target's setup: the steps it copies, and the IDs of each case's copies of them. */
  datatype Target = Target(originals: seq<string>, ids: map<string, seq<string>>, readOnly: bool)

  ghost predicate ValidTarget(t: Target) {
    && Distinct(t.originals)
    && (forall c :: c in t.ids ==> c != "" && |t.ids[c]| == |t.originals|)
    && (forall c, j :: c in t.ids && 0 <= j < |t.originals| ==> t.ids[c][j] != "")
  }

  function Size(t: Target): nat {
    |t.originals|
  }

  predicate IsSent(e: Event, copy: string, original: string, c: string) {
    e.CopySent? && e.copy == copy && e.original == original && e.forCase == c
  }

  /** From q on, the history is one whole build by case b: every copy sent, in order, and passed. */
  ghost predicate Built(t: Target, h: seq<Event>, q: nat, b: string) {
    && b in t.ids && |t.ids[b]| == Size(t) && q + Size(t) <= |h|
    && (forall j :: 0 <= j < Size(t) ==> IsSent(h[q + j], t.ids[b][j], t.originals[j], b))
  }

  /** From i on, b's copies stood in for n of c's. */
  ghost predicate StoodFrom(t: Target, h: seq<Event>, i: nat, c: string, b: string, n: nat) {
    && b in t.ids && c in t.ids && n <= |t.ids[b]| && n <= |t.ids[c]| && i + n <= |h|
    && (forall j :: 0 <= j < n ==> h[i + j] == CopyStood(t.ids[c][j], t.ids[b][j], c))
  }

  /** An event that leaves the live setup as it was. */
  predicate Harmless(readOnly: bool, e: Event) {
    e.CopyStood? || (e.CaseAsked? && LeavesSetup(readOnly, e.answer))
  }

  ghost predicate HarmlessSince(t: Target, h: seq<Event>, from: nat, to: nat)
    requires to <= |h|
  {
    forall m :: from <= m < to ==> Harmless(t.readOnly, h[m])
  }

  /** The case asked at i stands on one successful build: its own, just made, or an earlier one that
      nothing since has changed, each of whose copies stood in for the case's own. */
  ghost predicate SoundAsk(t: Target, h: seq<Event>, i: nat)
    requires i < |h| && h[i].CaseAsked?
  {
    var c := h[i].case_;
    || (i >= Size(t) && Built(t, h, i - Size(t), c))
    || (exists b, q: nat :: Built(t, h, q, b) && q + Size(t) <= i - Size(t) &&
          StoodFrom(t, h, i - Size(t), c, b, Size(t)) && HarmlessSince(t, h, q + Size(t), i))
  }

  ghost predicate AsksSound(t: Target, h: seq<Event>) {
    forall i :: 0 <= i < |h| && h[i].CaseAsked? ==> SoundAsk(t, h, i)
  }

  /** How many failed setups a history ends in. */
  function Trailing(h: seq<Event>): nat {
    if h == [] then 0
    else
      match h[|h| - 1]
      case CopyFailed(_, _) => Trailing(h[..|h| - 1]) + 1
      case CaseAsked(_, _) => 0
      case _ => Trailing(h[..|h| - 1])
  }

  /** No more than three setups fail in a row, and after three nothing more is sent. */
  ghost predicate ThreeAtMost(h: seq<Event>) {
    && Trailing(h) <= MaxSetupFailures
    && (forall i :: 0 <= i < |h| ==> Trailing(h[..i]) < MaxSetupFailures)
  }

  lemma TrailingOfAppend(h: seq<Event>, e: Event)
    ensures Trailing(h + [e]) == if e.CopyFailed? then Trailing(h) + 1 else if e.CaseAsked? then 0 else Trailing(h)
  {
    assert (h + [e])[..|h|] == h;
  }

  lemma ThreeAtMostExtends(h: seq<Event>, e: Event)
    requires ThreeAtMost(h) && Trailing(h) < MaxSetupFailures
    ensures ThreeAtMost(h + [e])
  {
    TrailingOfAppend(h, e);
    forall i | 0 <= i < |h + [e]| ensures Trailing((h + [e])[..i]) < MaxSetupFailures {
      assert (h + [e])[..i] == h[..i];
      assert h[..|h|] == h;
    }
  }

  lemma BuiltExtends(t: Target, h: seq<Event>, e: Event, q: nat, b: string)
    requires Built(t, h, q, b)
    ensures Built(t, h + [e], q, b)
  {
  }

  lemma StoodExtends(t: Target, h: seq<Event>, e: Event, i: nat, c: string, b: string, n: nat)
    requires StoodFrom(t, h, i, c, b, n)
    ensures StoodFrom(t, h + [e], i, c, b, n)
  {
  }

  lemma SoundAskExtends(t: Target, h: seq<Event>, e: Event, i: nat)
    requires i < |h| && h[i].CaseAsked? && SoundAsk(t, h, i)
    ensures SoundAsk(t, h + [e], i)
  {
    hide Built, StoodFrom, Harmless;
    var n := h + [e];
    var c := h[i].case_;
    if i >= Size(t) && Built(t, h, i - Size(t), c) {
      BuiltExtends(t, h, e, i - Size(t), c);
    } else {
      var b, q: nat :| Built(t, h, q, b) && q + Size(t) <= i - Size(t) &&
        StoodFrom(t, h, i - Size(t), c, b, Size(t)) && HarmlessSince(t, h, q + Size(t), i);
      BuiltExtends(t, h, e, q, b);
      StoodExtends(t, h, e, i - Size(t), c, b, Size(t));
      assert HarmlessSince(t, n, q + Size(t), i);
    }
  }

  lemma AsksSoundExtends(t: Target, h: seq<Event>, e: Event)
    requires AsksSound(t, h) && (e.CaseAsked? ==> SoundAsk(t, h + [e], |h|))
    ensures AsksSound(t, h + [e])
  {
    forall i | 0 <= i < |h + [e]| && (h + [e])[i].CaseAsked? ensures SoundAsk(t, h + [e], i) {
      if i < |h| {
        SoundAskExtends(t, h, e, i);
      }
    }
  }

  // ---------- The live copies ----------

  /** The first n originals, each with its copy. */
  function LiveMap(originals: seq<string>, ids: seq<string>, n: nat): map<string, string>
    requires n <= |originals| && n <= |ids|
  {
    if n == 0 then map[] else LiveMap(originals, ids, n - 1)[originals[n - 1] := ids[n - 1]]
  }

  lemma {:induction false} LiveMapAt(originals: seq<string>, ids: seq<string>, n: nat, j: nat)
    requires Distinct(originals) && n <= |originals| && n <= |ids| && j < n
    ensures originals[j] in LiveMap(originals, ids, n) && LiveMap(originals, ids, n)[originals[j]] == ids[j]
  {
    if j < n - 1 {
      LiveMapAt(originals, ids, n - 1, j);
    }
  }

  /** b made the live setup, from q on, and nothing since has changed it. */
  ghost predicate LiveFrom(t: Target, live: map<string, string>, h: seq<Event>, q: nat, b: string) {
    && Built(t, h, q, b)
    && live == LiveMap(t.originals, t.ids[b], Size(t))
    && HarmlessSince(t, h, q + Size(t), |h|)
  }

  ghost predicate HasLive(t: Target, live: map<string, string>, h: seq<Event>) {
    exists q: nat, b :: LiveFrom(t, live, h, q, b)
  }

  lemma LiveFromExtends(t: Target, live: map<string, string>, h: seq<Event>, q: nat, b: string, e: Event)
    requires LiveFrom(t, live, h, q, b) && Harmless(t.readOnly, e)
    ensures LiveFrom(t, live, h + [e], q, b)
  {
    assert Built(t, h + [e], q, b);
  }

  // ---------- Where a target stands ----------

  ghost predicate Tracked(t: Target, g: Group, h: seq<Event>) {
    AsksSound(t, h) && ThreeAtMost(h) && g.failures == Trailing(h) && (g.stopped <==> g.failures >= MaxSetupFailures)
  }

  /** Between two cases. */
  ghost predicate AtRest(t: Target, g: Group, h: seq<Event>) {
    && Tracked(t, g, h) && g.building == ""
    && (g.clean ==> g.failures == 0 && HasLive(t, g.live, h))
    && (Size(t) == 0 ==> g.live == map[] && g.failures == 0)
  }

  /** Case c has sent the first j copies of a build of its own. */
  ghost predicate Building(t: Target, g: Group, h: seq<Event>, c: string, j: nat) {
    && Tracked(t, g, h) && !g.stopped && g.building == c && !g.clean
    && c in t.ids && j <= Size(t) && j <= |t.ids[c]| && j <= |h|
    && g.live == LiveMap(t.originals, t.ids[c], j)
    && (forall i :: 0 <= i < j ==> IsSent(h[|h| - j + i], t.ids[c][i], t.originals[i], c))
    && (Size(t) == 0 ==> g.failures == 0)
  }

  /** Live copies have stood in for the first j copies of case c. */
  ghost predicate Standing(t: Target, g: Group, h: seq<Event>, c: string, j: nat, q: nat, b: string) {
    && AtRest(t, g, h) && !g.stopped && g.clean
    && LiveFrom(t, g.live, h, q, b) && j <= Size(t)
    && q + Size(t) <= |h| - j && StoodFrom(t, h, |h| - j, c, b, j)
  }

  ghost predicate IsStanding(t: Target, g: Group, h: seq<Event>, c: string, j: nat) {
    exists q: nat, b :: Standing(t, g, h, c, j, q, b)
  }

  // ---------- One event at a time ----------

  /** A clean target at rest offers its next copy: the one the live build made. */
  lemma StandsInNext(t: Target, g: Group, h: seq<Event>, c: string, j: nat)
    requires ValidTarget(t) && IsStanding(t, g, h, c, j) && j < Size(t) && c in t.ids
    ensures t.originals[j] in g.live && g.live[t.originals[j]] != ""
    ensures IsStanding(t, g, h + [CopyStood(t.ids[c][j], g.live[t.originals[j]], c)], c, j + 1)
  {
    var q: nat, b :| Standing(t, g, h, c, j, q, b);
    LiveMapAt(t.originals, t.ids[b], Size(t), j);
    StandsInAgain(t, g, h, c, j, q, b);
  }

  lemma StandsInAgain(t: Target, g: Group, h: seq<Event>, c: string, j: nat, q: nat, b: string)
    requires ValidTarget(t) && Standing(t, g, h, c, j, q, b) && j < Size(t) && c in t.ids && b in t.ids
    ensures Standing(t, g, h + [CopyStood(t.ids[c][j], t.ids[b][j], c)], c, j + 1, q, b)
  {
    hide Built, StoodFrom, AsksSound, ThreeAtMost;
    var e := CopyStood(t.ids[c][j], t.ids[b][j], c);
    LiveFromExtends(t, g.live, h, q, b, e);
    StandsInTracked(t, g, h, e);
    StoodOneMore(t, h, c, b, j);
  }

  lemma StandsInTracked(t: Target, g: Group, h: seq<Event>, e: Event)
    requires Tracked(t, g, h) && !g.stopped && e.CopyStood?
    ensures Tracked(t, g, h + [e])
  {
    AsksSoundExtends(t, h, e);
    ThreeAtMostExtends(h, e);
    TrailingOfAppend(h, e);
  }

  lemma StoodOneMore(t: Target, h: seq<Event>, c: string, b: string, j: nat)
    requires j <= |h| && StoodFrom(t, h, |h| - j, c, b, j) && j < |t.ids[c]| && j < |t.ids[b]|
    ensures StoodFrom(t, h + [CopyStood(t.ids[c][j], t.ids[b][j], c)], |h| - j, c, b, j + 1)
  {
  }

  lemma RestCanStand(t: Target, g: Group, h: seq<Event>, c: string)
    requires ValidTarget(t) && AtRest(t, g, h) && g.clean && !g.stopped && c in t.ids
    ensures IsStanding(t, g, h, c, 0)
  {
    var q: nat, b :| LiveFrom(t, g.live, h, q, b);
    assert Standing(t, g, h, c, 0, q, b);
  }

  lemma StartsBuilding(t: Target, g: Group, h: seq<Event>, c: string)
    requires ValidTarget(t) && AtRest(t, g, h) && !g.stopped && c in t.ids
    ensures Building(t, g.(live := map[], clean := false, building := c), h, c, 0)
  {
  }

  lemma BuildsNext(t: Target, g: Group, h: seq<Event>, c: string, j: nat, a: Answer)
    requires ValidTarget(t) && Building(t, g, h, c, j) && j < Size(t)
    ensures Building(t, g.(live := g.live[t.originals[j] := t.ids[c][j]]),
      h + [CopySent(t.ids[c][j], t.originals[j], c, a)], c, j + 1)
  {
    var e := CopySent(t.ids[c][j], t.originals[j], c, a);
    AsksSoundExtends(t, h, e);
    ThreeAtMostExtends(h, e);
    TrailingOfAppend(h, e);
  }

  lemma BuildFails(t: Target, g: Group, h: seq<Event>, c: string, j: nat, copy: string)
    requires ValidTarget(t) && Building(t, g, h, c, j) && Size(t) > 0
    ensures var n := g.failures + 1;
      AtRest(t, g.(clean := false, building := "", failures := n, stopped := g.stopped || n >= MaxSetupFailures),
        h + [CopyFailed(copy, c)])
  {
    var e := CopyFailed(copy, c);
    AsksSoundExtends(t, h, e);
    ThreeAtMostExtends(h, e);
    TrailingOfAppend(h, e);
  }

  /** A case on its own build is soundly asked, and so the build is live if its answer leaves it so. */
  lemma AskedOnBuild(t: Target, g: Group, h: seq<Event>, c: string, a: Answer)
    requires ValidTarget(t) && Building(t, g, h, c, Size(t))
    ensures AtRest(t, g.(failures := 0, building := "", clean := LeavesSetup(t.readOnly, a)), h + [CaseAsked(c, a)])
  {
    var e := CaseAsked(c, a);
    var q := |h| - Size(t);
    assert Built(t, h + [e], q, c);
    assert SoundAsk(t, h + [e], |h|);
    AsksSoundExtends(t, h, e);
    ThreeAtMostExtends(h, e);
    TrailingOfAppend(h, e);
    if LeavesSetup(t.readOnly, a) {
      assert LiveFrom(t, g.live, h + [e], q, c);
    }
  }

  lemma AskIsSoundOnStanding(t: Target, g: Group, h: seq<Event>, c: string, a: Answer, q: nat, b: string)
    requires ValidTarget(t) && Standing(t, g, h, c, Size(t), q, b)
    ensures SoundAsk(t, h + [CaseAsked(c, a)], |h|)
  {
    var n := h + [CaseAsked(c, a)];
    assert Built(t, n, q, b);
    assert StoodFrom(t, n, |h| - Size(t), c, b, Size(t));
    assert HarmlessSince(t, n, q + Size(t), |h|);
  }

  /** A case on a standing build is soundly asked; the build stays live if its answer leaves it so. */
  lemma AskedOnStanding(t: Target, g: Group, h: seq<Event>, c: string, a: Answer)
    requires ValidTarget(t) && IsStanding(t, g, h, c, Size(t))
    ensures AtRest(t, g.(failures := 0, building := "", clean := LeavesSetup(t.readOnly, a)), h + [CaseAsked(c, a)])
    ensures AtRest(t, g.(clean := false), h + [CaseAsked(c, a)])
  {
    var q: nat, b :| Standing(t, g, h, c, Size(t), q, b);
    var e := CaseAsked(c, a);
    AskIsSoundOnStanding(t, g, h, c, a, q, b);
    AsksSoundExtends(t, h, e);
    ThreeAtMostExtends(h, e);
    TrailingOfAppend(h, e);
    if LeavesSetup(t.readOnly, a) {
      LiveFromExtends(t, g.live, h, q, b, e);
    }
  }

  /** A target without setup steps: every case stands on the empty build. */
  lemma AskedWithoutSetup(t: Target, g: Group, h: seq<Event>, c: string, a: Answer)
    requires ValidTarget(t) && AtRest(t, g, h) && Size(t) == 0 && c in t.ids
    ensures AtRest(t, g.(failures := 0, building := "", clean := LeavesSetup(t.readOnly, a)), h + [CaseAsked(c, a)])
  {
    AskedOnBuild(t, g.(clean := false, building := c), h, c, a);
  }
}

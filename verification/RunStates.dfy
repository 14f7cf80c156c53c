/** What a run stores as it goes (engine/run_state.go), and whose outputs a step may read (engine/engine.go). */
module RunStates {
  import opened Sequences
  import opened TopoOrder
  import opened Values

  type Outputs = map<string, Val>

  /** Each step's outputs, and the steps by when they first stored any. */
  datatype Stored = Stored(outputs: map<string, Outputs>, order: seq<string>)

  ghost predicate StoredOk(s: Stored) {
    Distinct(s.order) && forall id :: id in s.outputs <==> id in s.order
  }

  /** A step's outputs; none when it stored none. */
  function OutputsOf(s: Stored, id: string): Outputs {
    if id in s.outputs then s.outputs[id] else map[]
  }

  class RunState {
    var outputs: map<string, Outputs>
    var order: seq<string>

    ghost function At(): Stored
      reads this
    {
      Stored(outputs, order)
    }

    constructor ()
      ensures At() == Stored(map[], []) && StoredOk(At())
    {
      outputs, order := map[], [];
    }

    /** A step keeps the place its first outputs gave it, however often it stores them again. */
    method StoreOutputs(id: string, stored: Outputs)
      requires StoredOk(At())
      modifies this
      ensures StoredOk(At())
      ensures outputs == old(outputs)[id := stored]
      ensures order == old(order) + if id in old(order) then [] else [id]
    {
      if id !in outputs {
        order := order + [id];
      }
      outputs := outputs[id := stored];
    }
  }

  // ---------- Whose outputs a step may read ----------

  /** The fuzz case a step was made for, or "" on the happy path. */
  function Owner(owner: map<string, string>, id: string): string {
    if id in owner then owner[id] else ""
  }

  /** Of the first n steps, those made for one case, latest first. */
  function Latest(owner: map<string, string>, order: seq<string>, of: string, n: nat): seq<string>
    requires n <= |order|
  {
    if n == 0 then []
    else (if Owner(owner, order[n - 1]) == of then [order[n - 1]] else []) + Latest(owner, order, of, n - 1)
  }

  /** The steps forStep may read from: its own case's, latest first, and then the happy path's. */
  function Sources(owner: map<string, string>, order: seq<string>, forStep: string): seq<string> {
    var own := Owner(owner, forStep);
    (if own == "" then [] else Latest(owner, order, own, |order|)) + Latest(owner, order, "", |order|)
  }

  /** Of one case's steps, got holds those from i on. */
  ghost predicate Gathered(owner: map<string, string>, order: seq<string>, of: string, i: nat, got: seq<string>)
    requires i <= |order|
  {
    got + Latest(owner, order, of, i) == Latest(owner, order, of, |order|)
  }

  lemma GathersOn(owner: map<string, string>, order: seq<string>, of: string, i: nat, got: seq<string>)
    requires i < |order| && Gathered(owner, order, of, i + 1, got)
    ensures Gathered(owner, order, of, i, got + if Owner(owner, order[i]) == of then [order[i]] else [])
  {
    hide Owner;
    Joins(got, if Owner(owner, order[i]) == of then [order[i]] else [], Latest(owner, order, of, i));
  }

  method OutputSources(owner: map<string, string>, order: seq<string>, forStep: string) returns (r: seq<string>)
    ensures r == Sources(owner, order, forStep)
  {
    hide Latest, Owner;
    var ownCase := Owner(owner, forStep);
    var own: seq<string>, main: seq<string> := [], [];
    var i := |order|;
    assert Gathered(owner, order, "", i, main) && Gathered(owner, order, ownCase, i, own);
    while i > 0
      invariant 0 <= i <= |order|
      invariant Gathered(owner, order, "", i, main)
      invariant if ownCase == "" then own == [] else Gathered(owner, order, ownCase, i, own)
    {
      i := i - 1;
      var o := Owner(owner, order[i]);
      GathersOn(owner, order, "", i, main);
      if ownCase != "" {
        GathersOn(owner, order, ownCase, i, own);
      }
      assert own + [] == own && main + [] == main;
      if o == "" {
        main := main + [order[i]];
      } else if ownCase != "" && o == ownCase {
        own := own + [order[i]];
      }
    }
    AllGathered(owner, order, "", main);
    AllGathered(owner, order, ownCase, own);
    r := own + main;
  }

  lemma AllGathered(owner: map<string, string>, order: seq<string>, of: string, got: seq<string>)
    ensures Gathered(owner, order, of, 0, got) ==> got == Latest(owner, order, of, |order|)
  {
    assert Latest(owner, order, of, 0) == [] && got + [] == got;
  }

  lemma {:induction false} LatestAre(owner: map<string, string>, order: seq<string>, of: string, n: nat, id: string)
    requires n <= |order|
    ensures id in Latest(owner, order, of, n) <==> Owner(owner, id) == of && exists i :: 0 <= i < n && order[i] == id
  {
    if n > 0 {
      LatestAre(owner, order, of, n - 1, id);
    }
  }

  /** Another case's resources are never read, and nothing of the step's own or the happy path's is missed. */
  lemma SourcesAre(owner: map<string, string>, order: seq<string>, forStep: string, id: string)
    ensures id in Sources(owner, order, forStep)
      <==> id in order && (Owner(owner, id) == "" || Owner(owner, id) == Owner(owner, forStep))
  {
    LatestAre(owner, order, "", |order|, id);
    LatestAre(owner, order, Owner(owner, forStep), |order|, id);
  }

  /** a comes before b in s. */
  ghost predicate Ahead(s: seq<string>, a: string, b: string) {
    exists i, j :: 0 <= i < j < |s| && s[i] == a && s[j] == b
  }

  /** Of two steps of one owner the one stored later is asked first. */
  lemma {:induction false} LaterComesFirst(owner: map<string, string>, order: seq<string>, of: string, n: nat, i: nat,
                                           j: nat)
    requires i < j < n <= |order| && Owner(owner, order[i]) == of == Owner(owner, order[j])
    ensures Ahead(Latest(owner, order, of, n), order[j], order[i])
  {
    var rest := Latest(owner, order, of, n - 1);
    if j == n - 1 {
      LatestAre(owner, order, of, n - 1, order[i]);
      var at :| 0 <= at < |rest| && rest[at] == order[i];
      var whole := [order[j]] + rest;
      assert whole[0] == order[j] && whole[at + 1] == order[i];
    } else {
      LaterComesFirst(owner, order, of, n - 1, i, j);
      var p, q :| 0 <= p < q < |rest| && rest[p] == order[j] && rest[q] == order[i];
      var head := if Owner(owner, order[n - 1]) == of then [order[n - 1]] else [];
      assert (head + rest)[|head| + p] == order[j] && (head + rest)[|head| + q] == order[i];
    }
  }

  /** A case's own outputs are asked before the happy path's. */
  lemma OwnComesFirst(owner: map<string, string>, order: seq<string>, forStep: string, own: string, main: string)
    requires own in order && main in order && Owner(owner, own) == Owner(owner, forStep) != ""
      && Owner(owner, main) == ""
    ensures Ahead(Sources(owner, order, forStep), own, main)
  {
    LatestAre(owner, order, "", |order|, main);
    LatestAre(owner, order, Owner(owner, forStep), |order|, own);
    var a, b := Latest(owner, order, Owner(owner, forStep), |order|), Latest(owner, order, "", |order|);
    var i :| 0 <= i < |a| && a[i] == own;
    var j :| 0 <= j < |b| && b[j] == main;
    assert (a + b)[i] == own && (a + b)[|a| + j] == main;
  }
}

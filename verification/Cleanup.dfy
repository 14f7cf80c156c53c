/** The cleanup stack and the chains it runs (engine/cleanup.go). */
module Cleanup {
  import opened CleanupChain
  import opened CleanupSkip
  import opened Decimals

  /** Of the first n entries, those that are kept, in order. */
  function Kept(entries: seq<Entry>, keep: Entry -> bool, n: nat): seq<Entry>
    requires n <= |entries|
  {
    if n == 0 then [] else Kept(entries, keep, n - 1) + if keep(entries[n - 1]) then [entries[n - 1]] else []
  }

  class CleanupStack {
    var entries: seq<Entry>

    constructor ()
      ensures entries == []
    {
      entries := [];
    }

    method Push(entry: Entry)
      modifies this
      ensures entries == old(entries) + [entry]
    {
      entries := entries + [entry];
    }

    method Filter(keep: Entry -> bool)
      modifies this
      ensures entries == Kept(old(entries), keep, |old(entries)|)
    {
      var kept: seq<Entry> := [];
      for i := 0 to |entries|
        invariant entries == old(entries)
        invariant kept == Kept(entries, keep, i)
      {
        if keep(entries[i]) {
          kept := kept + [entries[i]];
        }
      }
      entries := kept;
    }
  }

  // ---------- Step IDs ----------

  /** The IDs tried for a node: its name, name_2, name_3 and so on. */
  function Candidate(node: string, n: nat): string {
    if n <= 1 then node else node + "_" + DecimalText(n)
  }

  lemma CandidatesDiffer(node: string, a: nat, b: nat)
    requires 1 <= a < b
    ensures Candidate(node, a) != Candidate(node, b)
  {
    if a == 1 {
      assert |Candidate(node, b)| > |node|;
    } else {
      assert Candidate(node, a)[|node| + 1..] == DecimalText(a) && Candidate(node, b)[|node| + 1..] == DecimalText(b);
      if DecimalText(a) == DecimalText(b) {
        TextsDiffer(a, b);
      }
    }
  }

  /** The candidates from 1 to n - 1. */
  function Tried(node: string, n: nat): set<string> {
    set k | 1 <= k < n :: Candidate(node, k)
  }

  lemma TryAnother(node: string, n: nat, ids: set<string>)
    requires n >= 1 && Candidate(node, n) in ids
    ensures ids - Tried(node, n + 1) < ids - Tried(node, n)
  {
    var c := Candidate(node, n);
    forall k | 1 <= k < n ensures Candidate(node, k) != c {
      CandidatesDiffer(node, k, n);
    }
    assert c !in Tried(node, n) && c in Tried(node, n + 1);
    assert Tried(node, n) <= Tried(node, n + 1);
  }

  /** The first of the node's candidates that is not taken. */
  ghost predicate FirstFree(node: string, id: string, taken: set<string>) {
    id !in taken && exists n: nat :: n >= 1 && id == Candidate(node, n)
                      && forall k: nat :: 1 <= k < n ==> Candidate(node, k) in taken
  }

  function IdsOf(rs: seq<Result>): set<string> {
    set i | 0 <= i < |rs| :: rs[i].id
  }

  /** Every step's ID is the first free one of its node, those before it being taken. */
  ghost predicate NamedFrom(taken: set<string>, rs: seq<Result>) {
    forall k: nat :: k < |rs| ==> FirstFree(rs[k].node, rs[k].id, taken + IdsOf(rs[..k]))
  }

  /** No two cleanup steps share an ID, nor does one share an ID taken before. */
  lemma NamedApart(taken: set<string>, rs: seq<Result>, i: nat, k: nat)
    requires NamedFrom(taken, rs) && k < |rs|
    ensures rs[k].id !in taken && (i < k ==> rs[i].id != rs[k].id)
  {
    assert FirstFree(rs[k].node, rs[k].id, taken + IdsOf(rs[..k]));
    if i < k {
      assert rs[..k][i].id == rs[i].id;
    }
  }

  lemma IdsJoin(a: seq<Result>, b: seq<Result>)
    ensures IdsOf(a + b) == IdsOf(a) + IdsOf(b)
  {
    var c := a + b;
    forall id | id in IdsOf(c) ensures id in IdsOf(a) + IdsOf(b) {
      var i :| 0 <= i < |c| && c[i].id == id;
      if i < |a| {
        assert a[i].id == id;
      } else {
        assert b[i - |a|].id == id;
      }
    }
    forall id | id in IdsOf(a) + IdsOf(b) ensures id in IdsOf(c) {
      if id in IdsOf(a) {
        var i :| 0 <= i < |a| && a[i].id == id;
        assert c[i].id == id;
      } else {
        var i :| 0 <= i < |b| && b[i].id == id;
        assert c[|a| + i].id == id;
      }
    }
  }

  lemma NamedJoin(taken: set<string>, a: seq<Result>, b: seq<Result>)
    requires NamedFrom(taken, a) && NamedFrom(taken + IdsOf(a), b)
    ensures NamedFrom(taken, a + b)
  {
    hide FirstFree;
    var c := a + b;
    forall k: nat | k < |c| ensures FirstFree(c[k].node, c[k].id, taken + IdsOf(c[..k])) {
      if k < |a| {
        assert c[..k] == a[..k];
      } else {
        assert c[..k] == a + b[..k - |a|];
        IdsJoin(a, b[..k - |a|]);
        assert taken + IdsOf(a) + IdsOf(b[..k - |a|]) == taken + IdsOf(c[..k]);
      }
    }
  }

  lemma NamedOne(taken: set<string>, r: Result)
    requires FirstFree(r.node, r.id, taken)
    ensures NamedFrom(taken, [r]) && IdsOf([r]) == {r.id}
  {
    hide FirstFree;
    assert taken + IdsOf([r][..0]) == taken;
    assert [r][0].id == r.id;
  }

  // ---------- How many requests were sent ----------

  function SentBy(w: Setting, rs: seq<Result>, n: nat): nat
    requires n <= |rs|
  {
    if n == 0 then 0 else SentBy(w, rs, n - 1) + if Sent(w, rs[n - 1]) then 1 else 0
  }

  lemma {:induction false} SentByJoin(w: Setting, a: seq<Result>, b: seq<Result>, n: nat)
    requires n <= |b|
    ensures SentBy(w, a + b, |a| + n) == SentBy(w, a, |a|) + SentBy(w, b, n)
  {
    hide Sent;
    if n == 0 {
      SentByPrefix(w, a, b, |a|);
    } else {
      SentByJoin(w, a, b, n - 1);
    }
  }

  lemma {:induction false} SentByPrefix(w: Setting, a: seq<Result>, b: seq<Result>, n: nat)
    requires n <= |a|
    ensures SentBy(w, a + b, n) == SentBy(w, a, n)
  {
    hide Sent;
    if n > 0 {
      SentByPrefix(w, a, b, n - 1);
    }
  }
}

/** Joining sequences. */
module Sequences {
  function Flatten<T>(parts: seq<seq<T>>): seq<T> {
    if parts == [] then [] else parts[0] + Flatten(parts[1..])
  }

  lemma Joins<T>(a: seq<T>, b: seq<T>, c: seq<T>)
    ensures a + b + c == a + (b + c)
  {
  }

  lemma {:induction false} FlattenConcat<T>(a: seq<seq<T>>, b: seq<seq<T>>)
    ensures Flatten(a + b) == Flatten(a) + Flatten(b)
  {
    if a == [] {
      assert a + b == b;
    } else {
      FlattenConcat(a[1..], b);
      assert (a + b)[1..] == a[1..] + b;
      Joins(a[0], Flatten(a[1..]), Flatten(b));
    }
  }

  lemma FlattenOne<T>(part: seq<T>)
    ensures Flatten([part]) == part
  {
    assert [part][1..] == [];
  }

  lemma FlattenTwo<T>(a: seq<T>, b: seq<T>)
    ensures Flatten([a, b]) == a + b
  {
    assert [a, b][1..] == [b];
    FlattenOne(b);
  }

  /** The first n parts with separator between them. */
  function JoinTo<T>(parts: seq<seq<T>>, separator: seq<T>, n: nat): seq<T>
    requires n <= |parts|
  {
    if n == 0 then [] else if n == 1 then parts[0] else JoinTo(parts, separator, n - 1) + (separator + parts[n - 1])
  }

  function Join<T>(parts: seq<seq<T>>, separator: seq<T>): seq<T> {
    JoinTo(parts, separator, |parts|)
  }

  /** s is the elements of all at the places at, in order. */
  ghost predicate PickedAt<T>(all: seq<T>, s: seq<T>, at: seq<nat>) {
    && |at| == |s|
    && (forall i, j :: 0 <= i < j < |at| ==> at[i] < at[j])
    && (forall i :: 0 <= i < |s| ==> at[i] < |all| && s[i] == all[at[i]])
  }

  /** One element more, kept or not. */
  lemma PickedMore<T>(all: seq<T>, s: seq<T>, at: seq<nat>, x: T, keep: bool) returns (more: seq<nat>)
    requires PickedAt(all, s, at)
    ensures PickedAt(all + [x], s + (if keep then [x] else []), more)
    ensures |all| in more <==> keep
    ensures forall k :: 0 <= k < |all| ==> (k in more <==> k in at)
  {
    more := at + if keep then [|all|] else [];
    assert s + [] == s;
    assert |all| !in at;
  }

  lemma NothingPicked<T>(all: seq<T>)
    ensures PickedAt(all, [], [])
  {
  }
}

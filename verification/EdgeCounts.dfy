/** The bookkeeping the scheduler's sort and the chain's share: edges added one by one, each counted once at
    its head and listed once at its tail, and the counts falling as nodes are taken. */
module EdgeCounts {
  import opened TopoOrder

  /** How many of the edges into x come from nodes not yet taken. */
  function CountTo<T(==)>(added: seq<(T, T)>, done: seq<T>, x: T): nat {
    if added == [] then 0
    else
      var e := added[|added| - 1];
      CountTo(added[..|added| - 1], done, x) + (if e.1 == x && e.0 !in done then 1 else 0)
  }

  /** The heads of the edges out of x, in the order they were added. */
  function Heads<T(==)>(added: seq<(T, T)>, x: T): seq<T> {
    if added == [] then []
    else
      var e := added[|added| - 1];
      Heads(added[..|added| - 1], x) + (if e.0 == x then [e.1] else [])
  }

  lemma AddCounts<T>(added: seq<(T, T)>, e: (T, T), done: seq<T>, x: T)
    ensures CountTo(added + [e], done, x) == CountTo(added, done, x) + (if e.1 == x && e.0 !in done then 1 else 0)
    ensures Heads(added + [e], x) == Heads(added, x) + (if e.0 == x then [e.1] else [])
  {
    assert (added + [e])[..|added|] == added;
  }

  lemma {:induction false} CountIsZero<T>(added: seq<(T, T)>, done: seq<T>, x: T)
    ensures CountTo(added, done, x) == 0 <==> forall y :: (y, x) in added ==> y in done
  {
    if added != [] {
      var rest, e := added[..|added| - 1], added[|added| - 1];
      assert added == rest + [e];
      CountIsZero(rest, done, x);
      if CountTo(added, done, x) != 0 {
        if CountTo(rest, done, x) != 0 {
          var y :| (y, x) in rest && y !in done;
          assert (y, x) in added;
        } else {
          assert (e.0, x) in added;
        }
      }
    }
  }

  lemma {:induction false} HeadsAre<T>(added: seq<(T, T)>, x: T)
    requires Distinct(added)
    ensures Distinct(Heads(added, x))
    ensures forall y :: y in Heads(added, x) <==> (x, y) in added
  {
    if added != [] {
      var rest, e := added[..|added| - 1], added[|added| - 1];
      assert added == rest + [e];
      HeadsAre(rest, x);
    }
  }

  /** Taking a node lowers the count of each of its heads by one, and no other. */
  lemma {:induction false} TakeLowers<T>(added: seq<(T, T)>, done: seq<T>, node: T, x: T)
    requires Distinct(added) && node !in done
    ensures CountTo(added, done + [node], x) == CountTo(added, done, x) - (if (node, x) in added then 1 else 0)
  {
    if added != [] {
      var rest, e := added[..|added| - 1], added[|added| - 1];
      assert added == rest + [e];
      TakeLowers(rest, done, node, x);
    }
  }

  /** The edges a sort has added: those of the edge set within the nodes, self-loops left out. */
  ghost predicate Adds<T(!new)>(added: seq<(T, T)>, nodes: set<T>, edges: set<(T, T)>) {
    Distinct(added) && forall x, y :: (x, y) in added <==> Precedes(nodes, edges, x, y)
  }

  lemma ReadyIsCountZero<T(!new)>(added: seq<(T, T)>, nodes: set<T>, edges: set<(T, T)>, done: seq<T>, x: T)
    requires Adds(added, nodes, edges) && x in nodes
    ensures Ready(done, nodes, edges, x) <==> x !in done && CountTo(added, done, x) == 0
  {
    CountIsZero(added, done, x);
    if Ready(done, nodes, edges, x) {
      forall y | (y, x) in added ensures y in done {
        assert Precedes(nodes, edges, y, x);
      }
    }
    if x !in done && forall y :: (y, x) in added ==> y in done {
      forall y | y in nodes && Precedes(nodes, edges, y, x) ensures y in done {
        assert (y, x) in added;
      }
    }
  }
}

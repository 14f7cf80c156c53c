/** The alphabetical topological sort of backward chaining (graph/chain.go): Kahn's algorithm over
    a queue kept in name order. */
module ChainSort {
  import opened TopoOrder
  import opened EdgeCounts
  import opened Names

  ghost predicate Counted(nodes: set<string>, added: seq<(string, string)>, done: seq<string>,
                          inDeg: map<string, int>) {
    inDeg.Keys == nodes && forall x :: x in nodes ==> inDeg[x] == CountTo(added, done, x)
  }

  ghost predicate Adjacent(nodes: set<string>, added: seq<(string, string)>, adj: map<string, set<string>>) {
    adj.Keys == nodes && forall x, y :: x in nodes ==> (y in adj[x] <==> (x, y) in added)
  }

  lemma CountedAfter(nodes: set<string>, added: seq<(string, string)>, inDeg: map<string, int>, from: string,
                     to: string)
    requires Counted(nodes, added, [], inDeg) && to in nodes
    ensures Counted(nodes, added + [(from, to)], [], inDeg[to := inDeg[to] + 1])
  {
    forall x ensures CountTo(added + [(from, to)], [], x) == CountTo(added, [], x) + (if x == to then 1 else 0) {
      AddCounts(added, (from, to), [], x);
    }
  }

  method AddEdges(nodes: set<string>, edges: seq<(string, string)>)
      returns (adj: map<string, set<string>>, inDeg: map<string, int>, ghost added: seq<(string, string)>)
    ensures Counted(nodes, added, [], inDeg) && Adjacent(nodes, added, adj)
    ensures Adds(added, nodes, set e | e in edges)
  {
    adj := map x | x in nodes :: {};
    inDeg := map x | x in nodes :: 0;
    added := [];
    for i := 0 to |edges|
      invariant Counted(nodes, added, [], inDeg) && Adjacent(nodes, added, adj) && Distinct(added)
      invariant forall x, y :: (x, y) in added <==> x in nodes && y in nodes && x != y && (x, y) in edges[..i]
    {
      var from, to := edges[i].0, edges[i].1;
      assert edges[..i + 1] == edges[..i] + [(from, to)];
      if from in nodes && to in nodes && from != to && to !in adj[from] {
        CountedAfter(nodes, added, inDeg, from, to);
        DistinctAppend(added, (from, to));
        adj := adj[from := adj[from] + {to}];
        inDeg := inDeg[to := inDeg[to] + 1];
        added := added + [(from, to)];
      }
    }
    assert edges[..|edges|] == edges;
  }

  ghost predicate Free(nodes: set<string>, added: seq<(string, string)>, order: seq<string>, x: string) {
    x in nodes && x !in order && CountTo(added, order, x) == 0
  }

  ghost predicate Queued(nodes: set<string>, added: seq<(string, string)>, order: seq<string>, queue: seq<string>) {
    Ascending(queue) && forall x :: x in queue <==> Free(nodes, added, order, x)
  }

  /** The queue part-way through the neighbours of node: those already seen count one edge less. */
  ghost predicate PartQueued(nodes: set<string>, added: seq<(string, string)>, order: seq<string>, node: string,
                             seen: seq<string>, queue: seq<string>) {
    && Ascending(queue)
    && (forall x :: x in queue
          <==> x in nodes && x != node && x !in order && CountTo(added, order, x) == if x in seen then 1 else 0)
  }

  ghost predicate PartCounted(nodes: set<string>, added: seq<(string, string)>, order: seq<string>, seen: seq<string>,
                              inDeg: map<string, int>) {
    inDeg.Keys == nodes && forall x :: x in nodes
                             ==> inDeg[x] == CountTo(added, order, x) - (if x in seen then 1 else 0)
  }

  /** No neighbour of node has been taken or is node itself. */
  ghost predicate NoneTaken(nodes: set<string>, added: seq<(string, string)>, order: seq<string>, node: string) {
    forall x :: (node, x) in added ==> x in nodes && x != node && x !in order
  }

  method Release(nodes: set<string>, ghost added: seq<(string, string)>, ghost order: seq<string>, node: string,
                 neighbours: set<string>, inDeg: map<string, int>, queue: seq<string>)
      returns (inDeg': map<string, int>, queue': seq<string>)
    requires Distinct(added) && node !in order && NoneTaken(nodes, added, order, node)
    requires forall y :: y in neighbours <==> (node, y) in added
    requires PartCounted(nodes, added, order, [], inDeg) && PartQueued(nodes, added, order, node, [], queue)
    ensures Counted(nodes, added, order + [node], inDeg') && Queued(nodes, added, order + [node], queue')
  {
    inDeg', queue' := inDeg, queue;
    var sorted := SortedKeys(neighbours);
    for i := 0 to |sorted|
      invariant PartCounted(nodes, added, order, sorted[..i], inDeg')
      invariant PartQueued(nodes, added, order, node, sorted[..i], queue')
    {
      assert sorted[i] in sorted && sorted[i] !in sorted[..i];
      inDeg', queue' := ReleaseOne(nodes, added, order, node, sorted[..i], sorted[i], inDeg', queue');
      assert sorted[..i + 1] == sorted[..i] + [sorted[i]];
    }
    assert sorted[..|sorted|] == sorted;
    ReleaseDone(nodes, added, order, node, sorted, inDeg', queue');
  }

  method ReleaseOne(nodes: set<string>, ghost added: seq<(string, string)>, ghost order: seq<string>,
                    ghost node: string, ghost seen: seq<string>, y: string, inDeg: map<string, int>, queue: seq<string>)
      returns (inDeg': map<string, int>, queue': seq<string>)
    requires (node, y) in added && node !in order && y !in seen && y in nodes && y != node && y !in order
    requires PartCounted(nodes, added, order, seen, inDeg) && PartQueued(nodes, added, order, node, seen, queue)
    ensures PartCounted(nodes, added, order, seen + [y], inDeg')
      && PartQueued(nodes, added, order, node, seen + [y], queue')
  {
    CountIsZero(added, order, y);
    inDeg' := inDeg[y := inDeg[y] - 1];
    queue' := queue;
    if inDeg'[y] == 0 {
      queue' := InsertSorted(queue, y);
    }
  }

  lemma ReleaseDone(nodes: set<string>, added: seq<(string, string)>, order: seq<string>, node: string,
                    seen: seq<string>, inDeg: map<string, int>, queue: seq<string>)
    requires Distinct(added) && node !in order && forall y :: y in seen <==> (node, y) in added
    requires PartCounted(nodes, added, order, seen, inDeg) && PartQueued(nodes, added, order, node, seen, queue)
    ensures Counted(nodes, added, order + [node], inDeg) && Queued(nodes, added, order + [node], queue)
  {
    forall x ensures CountTo(added, order + [node], x) == CountTo(added, order, x) - (if x in seen then 1 else 0) {
      TakeLowers(added, order, node, x);
    }
  }

  lemma HeadIsLeast(nodes: set<string>, edges: set<(string, string)>, added: seq<(string, string)>, order: seq<string>,
                    queue: seq<string>)
    requires Adds(added, nodes, edges) && Queued(nodes, added, order, queue) && |queue| > 0
    ensures LeastReady(order, nodes, edges, NameLess, queue[0])
  {
    FreeIsReady(nodes, edges, added, order);
    assert queue[0] in queue;
    forall y | y in nodes && Ready(order, nodes, edges, y) && y != queue[0] ensures NameLess(queue[0], y) {
      assert y in queue;
    }
  }

  lemma FreeIsReady(nodes: set<string>, edges: set<(string, string)>, added: seq<(string, string)>, order: seq<string>)
    requires Adds(added, nodes, edges)
    ensures forall x :: x in nodes ==> (Free(nodes, added, order, x) <==> Ready(order, nodes, edges, x))
  {
    forall x | x in nodes ensures Free(nodes, added, order, x) <==> Ready(order, nodes, edges, x) {
      ReadyIsCountZero(added, nodes, edges, order, x);
    }
  }

  lemma TakeHead(nodes: set<string>, edges: set<(string, string)>, added: seq<(string, string)>, order: seq<string>,
                 queue: seq<string>)
    requires Adds(added, nodes, edges) && Queued(nodes, added, order, queue) && |queue| > 0
    requires Greedy(order, nodes, edges, NameLess)
    ensures Greedy(order + [queue[0]], nodes, edges, NameLess) && |order| < |nodes|
    ensures queue[0] in nodes && queue[0] !in order && NoneTaken(nodes, added, order, queue[0])
  {
    HeadIsLeast(nodes, edges, added, order, queue);
    GreedyExtend(order, nodes, edges, NameLess, queue[0]);
    GreedyPrefix(order + [queue[0]], nodes, edges, NameLess);
    DistinctSubsetIsAll(order + [queue[0]], nodes);
    GreedyPrefix(order, nodes, edges, NameLess);
    forall x, j | (queue[0], x) in added && 0 <= j < |order| ensures order[j] != x {
      assert Precedes(nodes, edges, queue[0], x);
      assert queue[0] !in order[..j];
    }
  }

  lemma TailIsPartQueued(nodes: set<string>, added: seq<(string, string)>, order: seq<string>, queue: seq<string>)
    requires Queued(nodes, added, order, queue) && |queue| > 0
    ensures PartQueued(nodes, added, order, queue[0], [], queue[1..])
  {
    AscendingIsDistinct(queue);
    forall x ensures x in queue[1..] <==> x in queue && x != queue[0] {
      if x in queue && x != queue[0] {
        var k :| 0 <= k < |queue| && queue[k] == x;
        assert queue[1..][k - 1] == x;
      }
    }
  }

  /** Takes the first name in the queue. */
  method TakeOne(nodes: set<string>, ghost edges: set<(string, string)>, ghost added: seq<(string, string)>,
                 ghost order: seq<string>, adj: map<string, set<string>>, inDeg: map<string, int>, queue: seq<string>)
      returns (inDeg': map<string, int>, queue': seq<string>)
    requires Adds(added, nodes, edges) && Adjacent(nodes, added, adj) && |queue| > 0
    requires Greedy(order, nodes, edges, NameLess)
    requires Counted(nodes, added, order, inDeg) && Queued(nodes, added, order, queue)
    ensures Greedy(order + [queue[0]], nodes, edges, NameLess) && |order| < |nodes|
    ensures Counted(nodes, added, order + [queue[0]], inDeg') && Queued(nodes, added, order + [queue[0]], queue')
  {
    TakeHead(nodes, edges, added, order, queue);
    TailIsPartQueued(nodes, added, order, queue);
    var node := queue[0];
    inDeg', queue' := Release(nodes, added, order, node, adj[node], inDeg, queue[1..]);
  }

  method FirstQueue(nodes: set<string>, inDeg: map<string, int>, ghost added: seq<(string, string)>)
    returns (queue: seq<string>)
    requires Counted(nodes, added, [], inDeg)
    ensures Queued(nodes, added, [], queue)
  {
    queue := SortedKeys(set x | x in nodes && inDeg[x] == 0);
  }

  /** The names in dependency order, or nothing when the edges close a cycle. */
  method ChainTopoSort(nodes: set<string>, edges: seq<(string, string)>) returns (ok: bool, sorted: seq<string>)
    ensures ok <==> !Cyclic(nodes, set e | e in edges)
    ensures ok ==> Greedy(sorted, nodes, (set e | e in edges), NameLess)
                   && Topological(sorted, nodes, set e | e in edges)
  {
    ghost var edgeSet := set e | e in edges;
    var adj, inDeg, added := AddEdges(nodes, edges);
    var queue := FirstQueue(nodes, inDeg, added);
    sorted := [];
    while |queue| > 0
      invariant Greedy(sorted, nodes, edgeSet, NameLess) && |sorted| <= |nodes|
      invariant Counted(nodes, added, sorted, inDeg) && Queued(nodes, added, sorted, queue)
      decreases |nodes| - |sorted|
    {
      var node := queue[0];
      inDeg, queue := TakeOne(nodes, edgeSet, added, sorted, adj, inDeg, queue);
      sorted := sorted + [node];
    }
    SortEnds(nodes, edgeSet, added, sorted, queue);
    ok := |sorted| == |nodes|;
  }

  lemma SortEnds(nodes: set<string>, edges: set<(string, string)>, added: seq<(string, string)>, sorted: seq<string>,
                 queue: seq<string>)
    requires Adds(added, nodes, edges) && Greedy(sorted, nodes, edges, NameLess)
    requires Queued(nodes, added, sorted, queue) && queue == []
    ensures |sorted| == |nodes| <==> !Cyclic(nodes, edges)
    ensures |sorted| == |nodes| ==> Topological(sorted, nodes, edges)
  {
    FreeIsReady(nodes, edges, added, sorted);
    assert Exhausted(sorted, nodes, edges);
    KahnCompletesIffAcyclic(sorted, nodes, edges, NameLess);
    if |sorted| == |nodes| {
      GreedyCompleteIsTopological(sorted, nodes, edges, NameLess);
    }
  }
}

/** What the validator's report of a requires cycle means, said of the graph's own fields (graph/validate.go
    detectRequiresCycles). */
module RequiresFacts {
  import opened TopoOrder
  import opened ChainGraph
  import opened RequiresCycles

  /** b requires a token that a, another node, satisfies. */
  ghost predicate Feeds(g: Graph, a: string, b: string) {
    && a in g.nodes && b in g.nodes && a != b
    && exists t :: t in g.nodes[b].needs && t in g.satisfiersByToken && a in g.satisfiersByToken[t]
  }

  /** Each node of c feeds the next, and c ends where it began. */
  ghost predicate IsLoop(g: Graph, c: seq<string>) {
    |c| >= 2 && c[0] == c[|c| - 1] && forall i: nat :: i + 1 < |c| ==> FeedsNext(g, c, i)
  }

  ghost predicate FeedsNext(g: Graph, c: seq<string>, i: nat)
    requires i + 1 < |c|
  {
    Feeds(g, c[i], c[i + 1])
  }

  lemma FeedsMeans(g: Graph, a: string, b: string)
    ensures Precedes(g.nodes.Keys, DependEdges(g), a, b) <==> Feeds(g, a, b)
  {
    if Feeds(g, a, b) {
      var t :| t in g.nodes[b].needs && t in g.satisfiersByToken && a in g.satisfiersByToken[t];
      assert a in Candidates(g, t);
    }
  }

  lemma LoopMeans(g: Graph, c: seq<string>)
    ensures IsLoop(g, c) <==> Closed(c) && Path(g.nodes.Keys, DependEdges(g), c)
  {
    hide Feeds, Precedes;
    var nodes, edges := g.nodes.Keys, DependEdges(g);
    forall i: nat | i + 1 < |c| ensures Linked(nodes, edges, c, i) <==> FeedsNext(g, c, i) {
      FeedsMeans(g, c[i], c[i + 1]);
    }
    if IsLoop(g, c) {
      assert FeedsNext(g, c, 0);
      InGraph(g, c[0], c[1]);
      forall i: nat | i < |c| ensures c[i] in nodes {
        if i + 1 < |c| {
          assert FeedsNext(g, c, i);
          InGraph(g, c[i], c[i + 1]);
        }
      }
    }
  }

  lemma InGraph(g: Graph, a: string, b: string)
    requires Feeds(g, a, b)
    ensures a in g.nodes
  {
  }

  /** What is reported is a loop, and no node of it breaks cycles. */
  lemma ReportsAreLoops(g: Graph, walk: Walks, starts: seq<string>, c: seq<string>)
    requires KnownSatisfiers(g) && WalksOf(g, walk) && WellFormed(walk) && forall n :: n in starts ==> n in walk
    requires c in FromEach(walk, Breakers(g), starts, Search([], [])).cycles
    ensures IsLoop(g, c) && forall n :: n in c ==> n in g.nodes && !g.nodes[n].cycleBreaker
  {
    ReportsAreRealCycles(g, walk, starts, c);
    LoopMeans(g, c);
    forall n | n in c ensures n in g.nodes {
      var i :| 0 <= i < |c| && c[i] == n;
    }
  }

  /** In a graph none of whose nodes breaks cycles, something is reported exactly when there is a loop. */
  lemma ReportsIffLoop(g: Graph, walk: Walks, starts: seq<string>)
    requires KnownSatisfiers(g) && WalksOf(g, walk) && WellFormed(walk)
    requires (forall n :: n in starts <==> n in g.nodes) && forall n :: n in g.nodes ==> !g.nodes[n].cycleBreaker
    ensures forall n :: n in starts ==> n in walk
    ensures FromEach(walk, Breakers(g), starts, Search([], [])).cycles != [] <==> exists c :: IsLoop(g, c)
  {
    hide IsLoop, Path;
    assert Breakers(g) == {};
    ReportsIffCyclic(g, walk, starts);
    forall c: seq<string> ensures IsLoop(g, c) <==> Closed(c) && Path(g.nodes.Keys, DependEdges(g), c) {
      LoopMeans(g, c);
    }
  }
}

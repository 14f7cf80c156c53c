/** The validator's depth-first search as it runs: colours, parent links and a list of cycles,
    changed step by step (graph/validate.go). It does what RequiresCycles.FromEach says. */
module CycleFinder {
  import opened TopoOrder
  import opened ChainGraph
  import opened ChainSearch
  import opened RequiresCycles

  datatype Color = White | Gray | Black

  function ColorOf(color: map<string, Color>, n: string): Color {
    if n in color then color[n] else White
  }

  ghost predicate Coloured(color: map<string, Color>, stack: seq<string>, done: seq<string>) {
    forall n :: (ColorOf(color, n) == Gray <==> n in stack) && (ColorOf(color, n) == Black <==> n in done)
  }

  /** Each node of the path is the parent of the next, and no node comes twice. */
  ghost predicate Chained(parent: map<string, string>, stack: seq<string>) {
    Distinct(stack) && forall i :: 0 < i < |stack| ==> stack[i] in parent && parent[stack[i]] == stack[i - 1]
  }

  lemma Uncoloured(color: map<string, Color>, stack: seq<string>, node: string, done: seq<string>)
    requires Coloured(color, stack + [node], done) && node !in stack
    ensures Coloured(color[node := Black], stack, done + [node])
  {
    forall n ensures (ColorOf(color[node := Black], n) == Gray <==> n in stack)
        && (ColorOf(color[node := Black], n) == Black <==> n in done + [node]) {
      assert n in stack + [node] <==> n in stack || n == node;
    }
  }

  lemma ChainedPrefix(parent: map<string, string>, stack: seq<string>, n: string)
    requires Chained(parent, stack + [n])
    ensures Chained(parent, stack) && n !in stack
  {
    var p := stack + [n];
    forall i | 0 <= i < |stack| ensures stack[i] != n {
      assert p[i] != p[|stack|];
    }
    forall i | 0 < i < |stack| ensures stack[i] in parent && parent[stack[i]] == stack[i - 1] {
      assert p[i] in parent && parent[p[i]] == p[i - 1];
    }
    forall i, j | 0 <= i < j < |stack| ensures stack[i] != stack[j] {
      assert p[i] != p[j];
    }
  }

  lemma ChainedLink(parent: map<string, string>, stack: seq<string>, n: string)
    requires Chained(parent, stack) && stack != [] && n !in stack
    ensures Chained(parent[n := stack[|stack| - 1]], stack + [n])
  {
  }

  class Finder {
    const walk: Walks
    const breakers: set<string>
    var color: map<string, Color>
    var parent: map<string, string>
    var cycles: seq<seq<string>>
    ghost var done: seq<string>

    constructor (walk: Walks, breakers: set<string>)
      ensures this.walk == walk && this.breakers == breakers
      ensures Tracks([]) && done == [] && cycles == []
    {
      this.walk, this.breakers := walk, breakers;
      color, parent, cycles, done := map[], map[], [], [];
    }

    ghost function Found(): Search
      reads this
    {
      Search(done, cycles)
    }

    /** Gray is the path being explored, linked by its parents; black is what is finished. */
    ghost predicate Tracks(stack: seq<string>)
      reads this
    {
      Coloured(color, stack, done) && Chained(parent, stack)
    }

    method Dfs(node: string, ghost stack: seq<string>)
      requires WellFormed(walk) && node in walk && ColorOf(color, node) == White
      requires Tracks(stack) && Chained(parent, stack + [node])
      modifies this
      ensures Tracks(stack)
      ensures Found() == Explore(walk, breakers, stack + [node], old(Found()))
      ensures old(done) <= done
      decreases |Unseen(walk, stack, done)|, 1
    {
      hide Chained, Coloured, Explore, Neighbours, Unseen, Tracks;
      ghost var was := Found();
      NotSeen(node, stack);
      UnseenShrinks(walk, stack, done, node);
      Enter(node, stack);
      LookAll(walk[node], node, stack + [node]);
      ExploreIs(walk, breakers, stack + [node], node, was);
      Finish(node, stack);
    }

    lemma NotSeen(node: string, stack: seq<string>)
      requires Tracks(stack) && ColorOf(color, node) == White
      ensures node !in stack && node !in done
    {
    }

    method Enter(node: string, ghost stack: seq<string>)
      requires Tracks(stack) && ColorOf(color, node) == White && Chained(parent, stack + [node])
      modifies this`color
      ensures Tracks(stack + [node])
    {
      color := color[node := Gray];
      ChainedPrefix(parent, stack, node);
    }

    method Finish(node: string, ghost stack: seq<string>)
      requires Tracks(stack + [node])
      modifies this`color, this`done
      ensures Tracks(stack) && done == old(done) + [node]
    {
      ChainedPrefix(parent, stack, node);
      Uncoloured(color, stack, node, done);
      color := color[node := Black];
      done := done + [node];
    }

    method LookAll(neighbours: seq<string>, node: string, ghost path: seq<string>)
      requires WellFormed(walk) && (forall n :: n in neighbours ==> n in walk) && path != [] && path[|path| - 1] == node
      requires Tracks(path)
      modifies this
      ensures Tracks(path)
      ensures Found() == Neighbours(walk, breakers, path, neighbours, old(Found()))
      ensures old(done) <= done
      decreases |Unseen(walk, path, done)|, 4
    {
      for i := 0 to |neighbours|
        invariant Tracks(path) && old(done) <= done
        invariant Neighbours(walk, breakers, path, neighbours[i..], Found())
          == Neighbours(walk, breakers, path, neighbours, old(Found()))
      {
        NextNeighbour(walk, breakers, path, neighbours, i, Found());
        UnseenOnlyShrinks(walk, path, old(done), done);
        Look(neighbours[i], node, path);
      }
    }

    /** One neighbour: a gray one closes a path, a white one is explored. */
    method Look(neighbour: string, node: string, ghost path: seq<string>)
      requires WellFormed(walk) && neighbour in walk && path != [] && path[|path| - 1] == node
      requires Tracks(path)
      modifies this
      ensures Tracks(path)
      ensures Found() == Neighbour(walk, breakers, path, neighbour, old(Found()))
      ensures old(done) <= done
      decreases |Unseen(walk, path, done)|, 3
    {
      if ColorOf(color, neighbour) == Gray {
        Report(neighbour, node, path);
      } else if ColorOf(color, neighbour) == White {
        Descend(neighbour, node, path);
      }
    }

    method Report(neighbour: string, node: string, ghost path: seq<string>)
      requires path != [] && path[|path| - 1] == node && neighbour in path && Tracks(path)
      modifies this`cycles
      ensures cycles == old(cycles)
        + if HasBreaker(ClosedBy(path, neighbour), breakers) then [] else [ClosedBy(path, neighbour)]
    {
      var closed := TreePath(parent, neighbour, node, path);
      if !HasBreaker(closed, breakers) {
        cycles := cycles + [closed];
      }
    }

    method Descend(neighbour: string, node: string, ghost path: seq<string>)
      requires WellFormed(walk) && neighbour in walk && path != [] && path[|path| - 1] == node
      requires Tracks(path) && ColorOf(color, neighbour) == White
      modifies this
      ensures Tracks(path)
      ensures Found() == Explore(walk, breakers, path + [neighbour], old(Found()))
      ensures old(done) <= done
      decreases |Unseen(walk, path, done)|, 2
    {
      ChainedLink(parent, path, neighbour);
      parent := parent[neighbour := node];
      ChainedPrefix(parent, path, neighbour);
      Dfs(neighbour, path);
    }
  }

  lemma ExploreIs(walk: Walks, breakers: set<string>, stack: seq<string>, node: string, s: Search)
    requires WellFormed(walk) && node in walk && stack != [] && stack[|stack| - 1] == node
    ensures forall n :: n in walk[node] ==> n in walk
    ensures var r := Neighbours(walk, breakers, stack, walk[node], s);
      s.done <= r.done && Explore(walk, breakers, stack, s) == r.(done := r.done + [node])
  {
  }

  lemma UnseenShrinks(walk: Walks, stack: seq<string>, done: seq<string>, node: string)
    requires node in walk && node !in stack && node !in done
    ensures |Unseen(walk, stack + [node], done)| < |Unseen(walk, stack, done)|
  {
    assert node in Unseen(walk, stack, done) && node !in Unseen(walk, stack + [node], done);
    SubsetCount(Unseen(walk, stack + [node], done), Unseen(walk, stack, done));
  }

  lemma UnseenOnlyShrinks(walk: Walks, stack: seq<string>, before: seq<string>, done: seq<string>)
    requires before <= done
    ensures |Unseen(walk, stack, done)| <= |Unseen(walk, stack, before)|
  {
    SubsetCount(Unseen(walk, stack, done), Unseen(walk, stack, before));
  }

  lemma NextNeighbour(walk: Walks, breakers: set<string>, path: seq<string>, ns: seq<string>, i: nat, s: Search)
    requires WellFormed(walk) && path != [] && i < |ns| && forall n :: n in ns ==> n in walk
    ensures ns[i] in walk && forall n :: n in ns[i..] || n in ns[i + 1..] ==> n in walk
    ensures Neighbours(walk, breakers, path, ns[i..], s)
      == Neighbours(walk, breakers, path, ns[i + 1..], Neighbour(walk, breakers, path, ns[i], s))
  {
    assert ns[i] in ns && ns[i..][1..] == ns[i + 1..];
  }

  /** Follows the parents from node up to neighbour, and turns the path round. */
  method TreePath(parent: map<string, string>, neighbour: string, node: string, ghost stack: seq<string>)
    returns (path: seq<string>)
    requires stack != [] && stack[|stack| - 1] == node && neighbour in stack
    requires Chained(parent, stack)
    ensures path == ClosedBy(stack, neighbour)
  {
    ghost var top, k := IndexIn(stack, neighbour), |stack| - 1;
    var cur := node;
    path := [neighbour, node];
    while cur != neighbour
      invariant top <= k < |stack| && cur == stack[k] && |path| == 1 + |stack| - k
      invariant path[0] == neighbour && forall m :: k <= m < |stack| ==> path[|stack| - m] == stack[m]
      decreases k
    {
      cur := parent[cur];
      k := k - 1;
      path := path + [cur];
    }
    assert k == top;
    path := Reverse(path);
    assert path == ClosedBy(stack, neighbour);
  }

  method Reverse(s: seq<string>) returns (r: seq<string>)
    ensures |r| == |s| && forall k :: 0 <= k < |s| ==> r[k] == s[|s| - 1 - k]
  {
    r := s;
    var i, j := 0, |s| - 1;
    while i < j
      invariant 0 <= i <= j + 2 && i + j == |s| - 1 && |r| == |s|
      invariant forall k :: 0 <= k < i || j < k < |s| ==> r[k] == s[|s| - 1 - k]
      invariant forall k :: i <= k <= j ==> r[k] == s[k]
    {
      r := r[i := r[j]][j := r[i]];
      i, j := i + 1, j - 1;
    }
  }

  /** Explores every node not yet seen, in the order starts gives. */
  method DetectCycles(walk: Walks, breakers: set<string>, starts: seq<string>) returns (cycles: seq<seq<string>>)
    requires WellFormed(walk) && forall n :: n in starts ==> n in walk
    ensures cycles == FromEach(walk, breakers, starts, Search([], [])).cycles
  {
    var f := new Finder(walk, breakers);
    for i := 0 to |starts|
      invariant f.walk == walk && f.breakers == breakers && f.Tracks([])
      invariant FromEach(walk, breakers, starts[i..], f.Found()) == FromEach(walk, breakers, starts, Search([], []))
    {
      if ColorOf(f.color, starts[i]) == White {
        f.Dfs(starts[i], []);
        assert [] + [starts[i]] == [starts[i]];
      }
    }
    cycles := f.cycles;
  }

  // ---------- The adjacency the search runs on ----------

  method Adjacency(g: Graph) returns (adj: map<string, set<string>>)
    requires KnownSatisfiers(g)
    ensures adj.Keys == g.nodes.Keys && forall s, n :: s in adj ==> (n in adj[s] <==> DependsOn(g, s, n))
  {
    adj := map n | n in g.nodes :: {};
    var left := g.nodes.Keys;
    while left != {}
      invariant left <= g.nodes.Keys && adj.Keys == g.nodes.Keys
      invariant forall s, n :: s in adj ==> (n in adj[s] <==> n !in left && DependsOn(g, s, n))
    {
      var n :| n in left;
      adj := AddRequirer(g, n, adj);
      left := left - {n};
    }
  }

  method AddRequirer(g: Graph, name: string, adj: map<string, set<string>>) returns (adj': map<string, set<string>>)
    requires KnownSatisfiers(g) && name in g.nodes && adj.Keys == g.nodes.Keys
    ensures adj'.Keys == g.nodes.Keys
    ensures forall s, n :: s in adj' ==> (n in adj'[s] <==> n in adj[s] || (n == name && DependsOn(g, s, name)))
  {
    adj' := adj;
    var needs := g.nodes[name].needs;
    for i := 0 to |needs|
      invariant adj'.Keys == g.nodes.Keys
      invariant forall s, n :: s in adj' ==>
        (n in adj'[s] <==> n in adj[s]
                           || (n == name && s != name && exists t :: t in needs[..i] && s in Candidates(g, t)))
    {
      assert needs[..i + 1] == needs[..i] + [needs[i]];
      var satisfiers := Candidates(g, needs[i]);
      ghost var before := adj';
      adj' := map s | s in adj' :: if s in satisfiers && s != name then adj'[s] + {name} else adj'[s];
    }
    assert needs[..|needs|] == needs;
  }

  /** One way of walking each set of the adjacency; Go may pick any. */
  method WalkEach(g: Graph, adj: map<string, set<string>>) returns (walk: Walks)
    requires KnownSatisfiers(g)
    requires adj.Keys == g.nodes.Keys && forall s, n :: s in adj ==> (n in adj[s] <==> DependsOn(g, s, n))
    ensures WalksOf(g, walk) && WellFormed(walk)
  {
    walk := map[];
    var left := adj.Keys;
    while left != {}
      invariant left <= adj.Keys && walk.Keys == adj.Keys - left
      invariant forall s, n :: s in walk ==> (n in walk[s] <==> DependsOn(g, s, n))
    {
      var s :| s in left;
      var order := Walk(adj[s]);
      walk, left := walk[s := order], left - {s};
    }
    WalksMatch(g, walk);
  }

  method DetectRequiresCycles(g: Graph) returns (cycles: seq<seq<string>>, ghost walk: Walks, ghost starts: seq<string>)
    requires KnownSatisfiers(g)
    ensures WalksOf(g, walk) && WellFormed(walk)
    ensures (forall n :: n in starts <==> n in g.nodes) && forall n :: n in starts ==> n in walk
    ensures cycles == FromEach(walk, Breakers(g), starts, Search([], [])).cycles
  {
    var adj := Adjacency(g);
    var order := WalkEach(g, adj);
    var names := Walk(g.nodes.Keys);
    walk, starts := order, names;
    cycles := DetectCycles(order, Breakers(g), names);
  }
}

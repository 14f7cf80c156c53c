/** The graph validator's search for requires/satisfies cycles (graph/validate.go), and what passing
    it says about backward chaining.

    walk gives, for each node, the order in which its neighbours happen to be visited, and starts the
    order of the outer loop: Go ranges over maps in any order, so both are arbitrary. */
module RequiresCycles {
  import opened TopoOrder
  import opened ChainGraph

  type Walks = map<string, seq<string>>

  /** done lists the finished nodes, first finished first; cycles the closed paths reported. */
  datatype Search = Search(done: seq<string>, cycles: seq<seq<string>>)

  ghost predicate WellFormed(walk: Walks) {
    forall n, m :: n in walk && m in walk[n] ==> m in walk && m != n
  }

  function Unseen(walk: Walks, stack: seq<string>, done: seq<string>): set<string> {
    walk.Keys - (set n | n in stack) - (set n | n in done)
  }

  predicate HasBreaker(path: seq<string>, breakers: set<string>) {
    exists n :: n in path && n in breakers
  }

  function IndexIn(stack: seq<string>, n: string): nat
    requires n in stack
    ensures IndexIn(stack, n) < |stack| && stack[IndexIn(stack, n)] == n
  {
    if stack[|stack| - 1] == n then |stack| - 1 else assert n in stack[..|stack| - 1]; IndexIn(stack[..|stack| - 1], n)
  }

  /** The tree path from n down to the end of the stack, closed by the edge back to n. */
  function ClosedBy(stack: seq<string>, n: string): seq<string>
    requires n in stack
  {
    stack[IndexIn(stack, n)..] + [n]
  }

  /** Explores the node at the end of the stack, then finishes it. */
  function Explore(walk: Walks, breakers: set<string>, stack: seq<string>, s: Search): (r: Search)
    requires WellFormed(walk) && stack != [] && stack[|stack| - 1] in walk
    ensures s.done <= r.done && s.cycles <= r.cycles
    decreases |Unseen(walk, stack, s.done)|, 1, 0
  {
    var node := stack[|stack| - 1];
    var r := Neighbours(walk, breakers, stack, walk[node], s);
    r.(done := r.done + [node])
  }

  function Neighbours(walk: Walks, breakers: set<string>, stack: seq<string>, ns: seq<string>, s: Search): (r: Search)
    requires WellFormed(walk) && stack != [] && forall n :: n in ns ==> n in walk
    ensures s.done <= r.done && s.cycles <= r.cycles
    decreases |Unseen(walk, stack, s.done)|, 0, |ns|
  {
    if ns == [] then s
    else
      var s1 := Neighbour(walk, breakers, stack, ns[0], s);
      SubsetCount(Unseen(walk, stack, s1.done), Unseen(walk, stack, s.done));
      Neighbours(walk, breakers, stack, ns[1..], s1)
  }

  function Neighbour(walk: Walks, breakers: set<string>, stack: seq<string>, n: string, s: Search): (r: Search)
    requires WellFormed(walk) && stack != [] && n in walk
    ensures s.done <= r.done && s.cycles <= r.cycles
    decreases |Unseen(walk, stack, s.done)|, 0, 0
  {
    if n in stack then
      if HasBreaker(ClosedBy(stack, n), breakers) then s else s.(cycles := s.cycles + [ClosedBy(stack, n)])
    else if n in s.done then s
    else
      assert n in Unseen(walk, stack, s.done) && n !in Unseen(walk, stack + [n], s.done);
      SubsetCount(Unseen(walk, stack + [n], s.done), Unseen(walk, stack, s.done));
      Explore(walk, breakers, stack + [n], s)
  }

  function FromEach(walk: Walks, breakers: set<string>, starts: seq<string>, s: Search): (r: Search)
    requires WellFormed(walk) && forall n :: n in starts ==> n in walk
    ensures s.done <= r.done && s.cycles <= r.cycles
  {
    if starts == [] then s
    else FromEach(walk, breakers, starts[1..],
      if starts[0] in s.done then s else Explore(walk, breakers, [starts[0]], s))
  }

  // ---------- Every report is a real cycle without a breaker ----------

  ghost function Edges(walk: Walks): set<(string, string)> {
    set a, b | a in walk && b in walk[a] :: (a, b)
  }

  ghost predicate RealCycle(walk: Walks, breakers: set<string>, c: seq<string>) {
    Closed(c) && Path(walk.Keys, Edges(walk), c) && !HasBreaker(c, breakers)
  }

  ghost predicate RealCycles(walk: Walks, breakers: set<string>, cycles: seq<seq<string>>) {
    forall c :: c in cycles ==> RealCycle(walk, breakers, c)
  }

  ghost predicate OnPath(walk: Walks, stack: seq<string>) {
    stack != [] && Path(walk.Keys, Edges(walk), stack)
  }

  lemma PathExtends(walk: Walks, stack: seq<string>, n: string)
    requires WellFormed(walk) && OnPath(walk, stack) && n in walk[stack[|stack| - 1]]
    ensures OnPath(walk, stack + [n])
  {
    var p := stack + [n];
    forall i | 0 <= i < |p| - 1 ensures Linked(walk.Keys, Edges(walk), p, i) {
      if i < |stack| - 1 {
        assert Linked(walk.Keys, Edges(walk), stack, i);
      } else {
        assert (p[i], p[i + 1]) in Edges(walk);
      }
    }
  }

  lemma ClosedByIsClosed(walk: Walks, stack: seq<string>, n: string)
    requires WellFormed(walk) && OnPath(walk, stack) && n in stack && n in walk[stack[|stack| - 1]]
    ensures Closed(ClosedBy(stack, n)) && Path(walk.Keys, Edges(walk), ClosedBy(stack, n))
  {
    PathExtends(walk, stack, n);
    var k := IndexIn(stack, n);
    var p, c := stack + [n], ClosedBy(stack, n);
    assert c == p[k..];
    forall i | 0 <= i < |c| - 1 ensures Linked(walk.Keys, Edges(walk), c, i) {
      assert Linked(walk.Keys, Edges(walk), p, k + i);
    }
  }

  lemma {:induction false} ExploreReportsReal(walk: Walks, breakers: set<string>, stack: seq<string>, s: Search)
    requires WellFormed(walk) && OnPath(walk, stack) && RealCycles(walk, breakers, s.cycles)
    ensures RealCycles(walk, breakers, Explore(walk, breakers, stack, s).cycles)
    decreases |Unseen(walk, stack, s.done)|, 1, 0
  {
    NeighboursReportReal(walk, breakers, stack, walk[stack[|stack| - 1]], s);
  }

  lemma {:induction false} NeighboursReportReal(walk: Walks, breakers: set<string>, stack: seq<string>, ns: seq<string>,
                                                s: Search)
    requires WellFormed(walk) && OnPath(walk, stack) && RealCycles(walk, breakers, s.cycles)
    requires forall n :: n in ns ==> n in walk[stack[|stack| - 1]]
    ensures RealCycles(walk, breakers, Neighbours(walk, breakers, stack, ns, s).cycles)
    decreases |Unseen(walk, stack, s.done)|, 0, |ns|
  {
    if ns != [] {
      var n := ns[0];
      assert n in ns && forall m :: m in ns[1..] ==> m in ns;
      if n in stack {
        ClosedByIsClosed(walk, stack, n);
      } else if n !in s.done {
        assert n in Unseen(walk, stack, s.done) && n !in Unseen(walk, stack + [n], s.done);
        SubsetCount(Unseen(walk, stack + [n], s.done), Unseen(walk, stack, s.done));
        PathExtends(walk, stack, n);
        ExploreReportsReal(walk, breakers, stack + [n], s);
      }
      var s1 := Neighbour(walk, breakers, stack, n, s);
      SubsetCount(Unseen(walk, stack, s1.done), Unseen(walk, stack, s.done));
      NeighboursReportReal(walk, breakers, stack, ns[1..], s1);
    }
  }

  lemma {:induction false} EachReportsReal(walk: Walks, breakers: set<string>, starts: seq<string>, s: Search)
    requires WellFormed(walk) && (forall n :: n in starts ==> n in walk) && RealCycles(walk, breakers, s.cycles)
    ensures RealCycles(walk, breakers, FromEach(walk, breakers, starts, s).cycles)
  {
    if starts != [] {
      if starts[0] !in s.done {
        ExploreReportsReal(walk, breakers, [starts[0]], s);
      }
      EachReportsReal(walk, breakers, starts[1..],
        if starts[0] in s.done then s else Explore(walk, breakers, [starts[0]], s));
    }
  }

  // ---------- A search that reports nothing leaves only edges a breaker excuses ----------

  /** A path from v to u, no node twice, with a breaker on it. */
  ghost predicate Detour(walk: Walks, breakers: set<string>, u: string, v: string, p: seq<string>) {
    OnPath(walk, p) && Distinct(p) && p[0] == v && p[|p| - 1] == u && HasBreaker(p, breakers)
  }

  /** The edge from u to v closes some cycle with a breaker on it, no node of which comes twice. */
  ghost predicate Excused(walk: Walks, breakers: set<string>, u: string, v: string) {
    exists p: seq<string> :: Detour(walk, breakers, u, v, p)
  }

  /** Each finished node's neighbours finished before it, but those a breaker excuses. */
  ghost predicate Settled(walk: Walks, breakers: set<string>, done: seq<string>) {
    forall i: nat :: i < |done| ==> SettledAt(walk, breakers, done, i)
  }

  ghost predicate SettledAt(walk: Walks, breakers: set<string>, done: seq<string>, i: nat)
    requires i < |done|
  {
    done[i] in walk && forall m :: m in walk[done[i]] ==> m in done[..i] || Excused(walk, breakers, done[i], m)
  }

  lemma SettledExtends(walk: Walks, breakers: set<string>, done: seq<string>, node: string)
    requires Settled(walk, breakers, done) && node in walk
    requires forall m :: m in walk[node] ==> m in done || Excused(walk, breakers, node, m)
    ensures Settled(walk, breakers, done + [node])
  {
    hide Excused;
    var d := done + [node];
    forall i: nat | i < |d| ensures SettledAt(walk, breakers, d, i) {
      assert i < |done| ==> SettledAt(walk, breakers, done, i);
      assert d[..i] == done[..i];
    }
  }

  lemma {:induction false} ExploreSettles(walk: Walks, breakers: set<string>, stack: seq<string>, s: Search)
    requires WellFormed(walk) && OnPath(walk, stack) && Distinct(stack) && Settled(walk, breakers, s.done)
    requires Explore(walk, breakers, stack, s).cycles == s.cycles
    ensures Settled(walk, breakers, Explore(walk, breakers, stack, s).done)
    ensures stack[|stack| - 1] in Explore(walk, breakers, stack, s).done
    decreases |Unseen(walk, stack, s.done)|, 1, 0
  {
    hide Excused, Settled;
    var node := stack[|stack| - 1];
    NeighboursSettle(walk, breakers, stack, walk[node], s);
    SettledExtends(walk, breakers, Neighbours(walk, breakers, stack, walk[node], s).done, node);
  }

  lemma {:induction false} NeighboursSettle(walk: Walks, breakers: set<string>, stack: seq<string>, ns: seq<string>,
                                            s: Search)
    requires WellFormed(walk) && OnPath(walk, stack) && Distinct(stack) && Settled(walk, breakers, s.done)
    requires forall n :: n in ns ==> n in walk[stack[|stack| - 1]]
    requires Neighbours(walk, breakers, stack, ns, s).cycles == s.cycles
    ensures Settled(walk, breakers, Neighbours(walk, breakers, stack, ns, s).done)
    ensures forall n :: n in ns
              ==> n in Neighbours(walk, breakers, stack, ns, s).done || Excused(walk, breakers, stack[|stack| - 1], n)
    decreases |Unseen(walk, stack, s.done)|, 0, |ns|
  {
    hide Excused, Settled, Neighbour;
    if ns != [] {
      var n := ns[0];
      assert n in ns && forall m :: m in ns[1..] ==> m in ns;
      var s1 := Neighbour(walk, breakers, stack, n, s);
      var r := Neighbours(walk, breakers, stack, ns[1..], s1);
      assert s.cycles <= s1.cycles <= r.cycles;
      NeighbourSettles(walk, breakers, stack, n, s);
      SubsetCount(Unseen(walk, stack, s1.done), Unseen(walk, stack, s.done));
      NeighboursSettle(walk, breakers, stack, ns[1..], s1);
      assert s1.done <= r.done;
      assert forall m :: m in ns ==> m == n || m in ns[1..];
    }
  }

  lemma {:induction false} NeighbourSettles(walk: Walks, breakers: set<string>, stack: seq<string>, n: string,
                                            s: Search)
    requires WellFormed(walk) && OnPath(walk, stack) && Distinct(stack) && Settled(walk, breakers, s.done)
    requires n in walk[stack[|stack| - 1]]
    requires Neighbour(walk, breakers, stack, n, s).cycles == s.cycles
    ensures Settled(walk, breakers, Neighbour(walk, breakers, stack, n, s).done)
    ensures n in Neighbour(walk, breakers, stack, n, s).done || Excused(walk, breakers, stack[|stack| - 1], n)
    decreases |Unseen(walk, stack, s.done)|, 0, 0
  {
    hide Excused, Settled;
    if n in stack {
      BreakerOnTheWay(walk, breakers, stack, n);
    } else if n !in s.done {
      assert n in Unseen(walk, stack, s.done) && n !in Unseen(walk, stack + [n], s.done);
      SubsetCount(Unseen(walk, stack + [n], s.done), Unseen(walk, stack, s.done));
      PathExtends(walk, stack, n);
      DistinctAppend(stack, n);
      ExploreSettles(walk, breakers, stack + [n], s);
    }
  }

  /** A path on the stack that a breaker keeps from being reported is a detour. */
  lemma BreakerOnTheWay(walk: Walks, breakers: set<string>, stack: seq<string>, n: string)
    requires OnPath(walk, stack) && Distinct(stack) && n in stack && HasBreaker(ClosedBy(stack, n), breakers)
    ensures Excused(walk, breakers, stack[|stack| - 1], n)
  {
    var k := IndexIn(stack, n);
    var p := stack[k..];
    var b :| b in p + [n] && b in breakers;
    assert p[0] == n && n in p;
    forall i | 0 <= i < |p| - 1 ensures Linked(walk.Keys, Edges(walk), p, i) {
      assert Linked(walk.Keys, Edges(walk), stack, k + i);
    }
    assert Detour(walk, breakers, stack[|stack| - 1], n, p);
  }

  lemma {:induction false} EachSettles(walk: Walks, breakers: set<string>, starts: seq<string>, s: Search)
    requires WellFormed(walk) && Settled(walk, breakers, s.done)
    requires forall n :: n in starts ==> n in walk
    requires FromEach(walk, breakers, starts, s).cycles == s.cycles
    ensures Settled(walk, breakers, FromEach(walk, breakers, starts, s).done)
    ensures forall n :: n in starts ==> n in FromEach(walk, breakers, starts, s).done
  {
    hide Settled, Explore;
    if starts != [] {
      var s1 := if starts[0] in s.done then s else Explore(walk, breakers, [starts[0]], s);
      var r := FromEach(walk, breakers, starts[1..], s1);
      assert s.cycles <= s1.cycles <= r.cycles;
      if starts[0] !in s.done {
        ExploreSettles(walk, breakers, [starts[0]], s);
      }
      EachSettles(walk, breakers, starts[1..], s1);
      assert forall m :: m in s1.done ==> m in r.done;
      assert forall m :: m in starts ==> m == starts[0] || m in starts[1..];
    }
  }

  /** A closed path on no edge of which a cycle with a breaker closes. */
  ghost predicate ClearCycle(walk: Walks, breakers: set<string>, c: seq<string>) {
    Closed(c) && Path(walk.Keys, Edges(walk), c) && ClearPath(walk, breakers, c)
  }

  ghost predicate ClearPath(walk: Walks, breakers: set<string>, p: seq<string>) {
    forall i: nat :: i + 1 < |p| ==> !ExcusedAt(walk, breakers, p, i)
  }

  ghost predicate ExcusedAt(walk: Walks, breakers: set<string>, p: seq<string>, i: nat)
    requires i + 1 < |p|
  {
    Excused(walk, breakers, p[i], p[i + 1])
  }

  /** Along such a path every node but the first finished earlier, so it does not close. */
  lemma {:induction false} FinishedEarlier(walk: Walks, breakers: set<string>, done: seq<string>, p: seq<string>,
                                           i: nat, a: nat) returns (b: nat)
    requires Settled(walk, breakers, done) && Path(walk.Keys, Edges(walk), p) && ClearPath(walk, breakers, p) && i < |p|
    requires a < |done| && done[a] == p[0]
    ensures b <= a && done[b] == p[i] && (i > 0 ==> b < a)
  {
    hide Excused;
    b := a;
    if i > 0 {
      var c := FinishedEarlier(walk, breakers, done, p, i - 1, a);
      assert Linked(walk.Keys, Edges(walk), p, i - 1) && !ExcusedAt(walk, breakers, p, i - 1)
        && SettledAt(walk, breakers, done, c);
      assert p[i] in done[..c];
      b :| 0 <= b < c && done[..c][b] == p[i];
    }
  }

  lemma {:induction false} FirstFinish(done: seq<string>, n: string) returns (a: nat)
    requires n in done
    ensures a < |done| && done[a] == n && n !in done[..a]
  {
    a := 0;
    while done[a] != n
      invariant a < |done| && n !in done[..a] && n in done[a..]
      decreases |done| - a
    {
      a := a + 1;
    }
  }

  lemma SettledHasNoClearCycle(walk: Walks, breakers: set<string>, done: seq<string>)
    requires Settled(walk, breakers, done) && forall n :: n in walk ==> n in done
    ensures forall c :: !ClearCycle(walk, breakers, c)
  {
    hide ClearPath, Settled;
    forall p: seq<string> | Path(walk.Keys, Edges(walk), p) && ClearPath(walk, breakers, p) && |p| >= 2
        ensures p[0] != p[|p| - 1] {
      var a := FirstFinish(done, p[0]);
      var b := FinishedEarlier(walk, breakers, done, p, |p| - 1, a);
      assert done[..a][b] == p[|p| - 1];
    }
  }

  // ---------- The graph's own cycles ----------

  /** The satisfiers a graph's index names are nodes of the graph: the index is built from them. */
  ghost predicate KnownSatisfiers(g: Graph) {
    forall t, s :: s in Candidates(g, t) ==> s in g.nodes
  }

  /** n requires a token that s satisfies. */
  predicate DependsOn(g: Graph, s: string, n: string) {
    n in g.nodes && s != n && exists t :: t in g.nodes[n].needs && s in Candidates(g, t)
  }

  ghost function DependEdges(g: Graph): set<(string, string)> {
    set s, n | s in g.nodes && n in g.nodes && DependsOn(g, s, n) :: (s, n)
  }

  function Breakers(g: Graph): set<string> {
    set n | n in g.nodes && g.nodes[n].cycleBreaker
  }

  /** walk visits each node's dependents once, in some order. */
  ghost predicate WalksOf(g: Graph, walk: Walks) {
    walk.Keys == g.nodes.Keys && forall s, n :: s in walk ==> (n in walk[s] <==> DependsOn(g, s, n))
  }

  lemma WalksMatch(g: Graph, walk: Walks)
    requires KnownSatisfiers(g) && WalksOf(g, walk)
    ensures WellFormed(walk) && walk.Keys == g.nodes.Keys && Edges(walk) == DependEdges(g)
  {
    forall e ensures e in Edges(walk) <==> e in DependEdges(g) {
      assert e == (e.0, e.1);
    }
  }

  /** Every cycle reported is a closed path of the graph, without a breaker on it. */
  lemma ReportsAreRealCycles(g: Graph, walk: Walks, starts: seq<string>, c: seq<string>)
    requires KnownSatisfiers(g) && WalksOf(g, walk) && WellFormed(walk) && forall n :: n in starts ==> n in walk
    requires c in FromEach(walk, Breakers(g), starts, Search([], [])).cycles
    ensures Closed(c) && Path(g.nodes.Keys, DependEdges(g), c) && forall n :: n in c ==> !g.nodes[n].cycleBreaker
  {
    WalksMatch(g, walk);
    EachReportsReal(walk, Breakers(g), starts, Search([], []));
    forall n | n in c ensures !g.nodes[n].cycleBreaker {
      assert n in g.nodes.Keys && n !in Breakers(g);
    }
  }

  /** A closed path on no edge of which a breaker's cycle closes is never missed: something is reported,
      whichever way the search walks the graph. */
  lemma ClearCycleIsReported(walk: Walks, breakers: set<string>, starts: seq<string>, c: seq<string>)
    requires WellFormed(walk) && (forall n :: n in starts <==> n in walk) && ClearCycle(walk, breakers, c)
    ensures FromEach(walk, breakers, starts, Search([], [])).cycles != []
  {
    hide ClearCycle, Settled;
    if FromEach(walk, breakers, starts, Search([], [])).cycles == [] {
      assert Settled(walk, breakers, []) by {
        EmptyIsSettled(walk, breakers);
      }
      EachSettles(walk, breakers, starts, Search([], []));
      SettledHasNoClearCycle(walk, breakers, FromEach(walk, breakers, starts, Search([], [])).done);
    }
  }

  lemma EmptyIsSettled(walk: Walks, breakers: set<string>)
    ensures Settled(walk, breakers, [])
  {
  }

  /** Where there is a cycle without a breaker, there is one the search cannot miss. */
  ghost predicate NothingHidden(walk: Walks, breakers: set<string>) {
    (exists c :: RealCycle(walk, breakers, c)) ==> exists c :: ClearCycle(walk, breakers, c)
  }

  /** Then something is reported exactly when there is a cycle without a breaker. */
  lemma ReportsIffRealCycle(walk: Walks, breakers: set<string>, starts: seq<string>)
    requires WellFormed(walk) && (forall n :: n in starts <==> n in walk) && NothingHidden(walk, breakers)
    ensures FromEach(walk, breakers, starts, Search([], [])).cycles != [] <==> exists c :: RealCycle(walk, breakers, c)
  {
    hide RealCycle, ClearCycle;
    var r := FromEach(walk, breakers, starts, Search([], []));
    if r.cycles != [] {
      assert r.cycles[0] in r.cycles;
      EachReportsReal(walk, breakers, starts, Search([], []));
    }
    if c :| RealCycle(walk, breakers, c) {
      var d :| ClearCycle(walk, breakers, d);
      ClearCycleIsReported(walk, breakers, starts, d);
    }
  }

  // ---------- Graphs in which nothing is hidden ----------

  /** n lies on a closed path through c's first node. */
  ghost predicate SameComponent(walk: Walks, c: seq<string>, n: string) {
    exists p: seq<string> :: c != [] && Closed(p) && Path(walk.Keys, Edges(walk), p) && p[0] == c[0] && n in p
  }

  /** A closed path: c up to its edge i, a detour of that edge, and the rest of c. */
  function Around(c: seq<string>, i: nat, p: seq<string>): seq<string>
    requires i + 1 < |c|
  {
    c[..i + 1] + p + c[i + 1..]
  }

  lemma AroundIsClosed(walk: Walks, breakers: set<string>, c: seq<string>, i: nat, p: seq<string>)
    requires Closed(c) && Path(walk.Keys, Edges(walk), c) && i + 1 < |c| && Detour(walk, breakers, c[i], c[i + 1], p)
    ensures var d := Around(c, i, p);
      Closed(d) && Path(walk.Keys, Edges(walk), d) && d[0] == c[0] && forall n :: n in p ==> n in d
  {
    var d := Around(c, i, p);
    forall k | 0 <= k < |d| - 1 ensures Linked(walk.Keys, Edges(walk), d, k) {
      if k <= i {
        assert Linked(walk.Keys, Edges(walk), c, k);
      } else if k < i + |p| {
        assert Linked(walk.Keys, Edges(walk), p, k - i - 1);
      } else if k == i + |p| {
        assert Linked(walk.Keys, Edges(walk), c, i);
      } else {
        assert Linked(walk.Keys, Edges(walk), c, k - |p|);
      }
    }
    forall k | 0 <= k < |d| ensures d[k] in walk.Keys {
      assert d[k] == if k <= i then c[k] else if k <= i + |p| then p[k - i - 1] else c[k - |p|];
    }
  }

  /** A cycle in a strongly connected component that holds no breaker is one the search cannot miss. */
  lemma ComponentWithoutBreaker(walk: Walks, breakers: set<string>, c: seq<string>)
    requires Closed(c) && Path(walk.Keys, Edges(walk), c) && forall n :: SameComponent(walk, c, n) ==> n !in breakers
    ensures ClearCycle(walk, breakers, c)
  {
    hide Path, Around;
    forall i: nat | i + 1 < |c| ensures !ExcusedAt(walk, breakers, c, i) {
      var u, v := c[i], c[i + 1];
      forall p: seq<string> ensures !Detour(walk, breakers, u, v, p) {
        if Detour(walk, breakers, u, v, p) {
          var b := BreakerInComponent(walk, breakers, c, i, p);
        }
      }
    }
  }

  lemma BreakerInComponent(walk: Walks, breakers: set<string>, c: seq<string>, i: nat, p: seq<string>)
    returns (b: string)
    requires Closed(c) && Path(walk.Keys, Edges(walk), c) && i + 1 < |c| && Detour(walk, breakers, c[i], c[i + 1], p)
    ensures SameComponent(walk, c, b) && b in breakers
  {
    hide Path, Around;
    b :| b in p && b in breakers;
    AroundIsClosed(walk, breakers, c, i, p);
  }

  /** Where no breaker lies on a cycle, above all in a graph without breakers, nothing is hidden. */
  lemma NothingHiddenOffCycles(walk: Walks, breakers: set<string>)
    requires NoBreakerOnCycle(walk, breakers)
    ensures NothingHidden(walk, breakers)
  {
    hide Path;
    forall c: seq<string> | RealCycle(walk, breakers, c) ensures ClearCycle(walk, breakers, c) {
      forall n | SameComponent(walk, c, n) ensures n !in breakers {
      }
      ComponentWithoutBreaker(walk, breakers, c);
    }
  }

  /** No cycle of the graph passes through a breaker. */
  ghost predicate NoBreakerOnCycle(walk: Walks, breakers: set<string>) {
    forall c: seq<string> :: Closed(c) && Path(walk.Keys, Edges(walk), c) ==> !HasBreaker(c, breakers)
  }

  /** In a graph without breakers something is reported exactly when there is a cycle. */
  lemma ReportsIffCyclic(g: Graph, walk: Walks, starts: seq<string>)
    requires KnownSatisfiers(g) && WalksOf(g, walk) && WellFormed(walk) && Breakers(g) == {}
    requires forall n :: n in starts <==> n in g.nodes
    ensures forall n :: n in starts ==> n in walk
    ensures FromEach(walk, Breakers(g), starts, Search([], [])).cycles != [] <==> Cyclic(g.nodes.Keys, DependEdges(g))
  {
    WalksMatch(g, walk);
    NothingHiddenOffCycles(walk, Breakers(g));
    ReportsIffRealCycle(walk, Breakers(g), starts);
    hide Path;
    if Cyclic(g.nodes.Keys, DependEdges(g)) {
      var c: seq<string> :| Closed(c) && Path(g.nodes.Keys, DependEdges(g), c);
      assert RealCycle(walk, Breakers(g), c);
    }
  }

  const HidingWalk: Walks := map["a" := ["x", "b"], "x" := ["b"], "b" := ["a"]]

  const HidingGraph := Graph(map["a" := Node(["tb"], false, false), "b" := Node(["ta", "tx"], false, false),
    "x" := Node(["ta"], true, false)],
                             map["ta" := ["a"], "tb" := ["b"], "tx" := ["x"]], [])

  lemma HidingDepends(s: string, n: string)
    ensures DependsOn(HidingGraph, s, n) <==> (s, n) in {("a", "x"), ("a", "b"), ("x", "b"), ("b", "a")}
  {
    var g := HidingGraph;
    assert Candidates(g, "ta") == {"a"} && Candidates(g, "tb") == {"b"} && Candidates(g, "tx") == {"x"};
    assert g.nodes["a"].needs == ["tb"] && g.nodes["b"].needs == ["ta", "tx"] && g.nodes["x"].needs == ["ta"];
    assert "ta" in ["ta", "tx"] && "tx" in ["ta", "tx"] && "tb" in ["tb"] && "ta" in ["ta"];
  }

  lemma HidingWalkIsOfGraph()
    ensures KnownSatisfiers(HidingGraph) && WalksOf(HidingGraph, HidingWalk) && WellFormed(HidingWalk)
    ensures Breakers(HidingGraph) == {"x"}
  {
    forall s, n | s in HidingWalk ensures n in HidingWalk[s] <==> DependsOn(HidingGraph, s, n) {
      HidingDepends(s, n);
    }
  }

  lemma HidingFromB(s: Search)
    requires WellFormed(HidingWalk) && s == Search([], [])
    ensures Explore(HidingWalk, {"x"}, ["a", "x", "b"], s) == Search(["b"], [])
  {
    var closed := ClosedBy(["a", "x", "b"], "a");
    assert closed == ["a", "x", "b", "a"] && closed[1] == "x";
    assert HasBreaker(closed, {"x"});
    assert Neighbour(HidingWalk, {"x"}, ["a", "x", "b"], "a", s) == s;
  }

  lemma HidingFromX(s: Search)
    requires WellFormed(HidingWalk) && s == Search([], [])
    ensures Explore(HidingWalk, {"x"}, ["a", "x"], s) == Search(["b", "x"], [])
  {
    hide HasBreaker;
    HidingFromB(s);
    assert ["a", "x"] + ["b"] == ["a", "x", "b"];
    assert Neighbour(HidingWalk, {"x"}, ["a", "x"], "b", s) == Search(["b"], []);
  }

  lemma HidingFromA(s: Search)
    requires WellFormed(HidingWalk) && s == Search([], [])
    ensures Explore(HidingWalk, {"x"}, ["a"], s) == Search(["b", "x", "a"], [])
  {
    hide HasBreaker;
    HidingFromX(s);
    assert ["a"] + ["x"] == ["a", "x"];
    assert Neighbour(HidingWalk, {"x"}, ["a"], "x", s) == Search(["b", "x"], []);
    var s2 := Search(["b", "x"], []);
    assert ["x", "b"][1..] == ["b"];
    assert Neighbours(HidingWalk, {"x"}, ["a"], ["b"], s2) == s2;
    assert Neighbours(HidingWalk, {"x"}, ["a"], ["x", "b"], s) == s2;
  }

  lemma HidingSearch()
    requires WellFormed(HidingWalk)
    ensures FromEach(HidingWalk, {"x"}, ["a", "b", "x"], Search([], [])).cycles == []
  {
    hide Neighbours, HasBreaker;
    HidingFromA(Search([], []));
    var s3 := Search(["b", "x", "a"], []);
    assert ["b", "x"][1..] == ["x"] && ["a", "b", "x"][1..] == ["b", "x"];
    assert FromEach(HidingWalk, {"x"}, ["x"], s3) == s3;
    assert FromEach(HidingWalk, {"x"}, ["b", "x"], s3) == s3;
  }

  /** With a breaker on a cycle the search can miss a cycle that avoids it: a, b and a again is
      closed without the breaker x, but the walk reaches b through x first and judges that path. */
  lemma BreakerHidesCycle()
    ensures KnownSatisfiers(HidingGraph) && WalksOf(HidingGraph, HidingWalk) && WellFormed(HidingWalk)
    ensures FromEach(HidingWalk, Breakers(HidingGraph), ["a", "b", "x"], Search([], [])).cycles == []
    ensures RealCycle(HidingWalk, Breakers(HidingGraph), ["a", "b", "a"])
  {
    HidingWalkIsOfGraph();
    HidingSearch();
    var c := ["a", "b", "a"];
    assert ("a", "b") in Edges(HidingWalk) && ("b", "a") in Edges(HidingWalk);
    assert Linked(HidingWalk.Keys, Edges(HidingWalk), c, 0) && Linked(HidingWalk.Keys, Edges(HidingWalk), c, 1);
  }

  lemma RequiresEdgeDepends(g: Graph, nodes: set<string>, e: RequiresEdge)
    requires KnownSatisfiers(g)
    ensures IsRequiresEdge(g, nodes, e) && e.from != e.to
      ==> e.from in g.nodes && e.to in g.nodes && DependsOn(g, e.from, e.to)
  {
  }

  /** A graph the validator passes, in which no cycle is hidden behind breakers: every cycle on which
      backward chaining can fail runs along some condition's before edge. */
  lemma PassingGraphFailsOnlyOnBefore(g: Graph, walk: Walks, starts: seq<string>, included: seq<Condition>,
                                      nodes: set<string>, p: seq<string>)
    requires KnownSatisfiers(g) && WalksOf(g, walk) && WellFormed(walk) && (forall n :: n in starts <==> n in walk)
    requires NothingHidden(walk, Breakers(g))
    requires FromEach(walk, Breakers(g), starts, Search([], [])).cycles == []
    requires Closed(p) && Path(nodes, OrderingEdges(g, included, nodes), p)
    ensures exists i :: 0 <= i < |p| - 1 && IsBeforeEdge(included, (p[i], p[i + 1]))
  {
    WalksMatch(g, walk);
    ReportsIffRealCycle(walk, Breakers(g), starts);
    assert !RealCycle(walk, Breakers(g), p);
    var i := WhereNotRequired(g, included, nodes, p);
    assert Linked(nodes, OrderingEdges(g, included, nodes), p, i);
    assert Orders(g, included, nodes, (p[i], p[i + 1]));
  }

  ghost predicate NotRequired(g: Graph, nodes: set<string>, from: string, to: string) {
    forall t :: !IsRequiresEdge(g, nodes, RequiresEdge(from, to, t))
  }

  /** Some edge of a path that is no cycle without a breaker is no requirement of a node that is no breaker. */
  lemma WhereNotRequired(g: Graph, included: seq<Condition>, nodes: set<string>, p: seq<string>) returns (i: nat)
    requires KnownSatisfiers(g) && Closed(p) && Path(nodes, OrderingEdges(g, included, nodes), p)
    requires !(Path(g.nodes.Keys, DependEdges(g), p) && !HasBreaker(p, Breakers(g)))
    ensures i + 1 < |p| && NotRequired(g, nodes, p[i], p[i + 1])
  {
    if Path(g.nodes.Keys, DependEdges(g), p) {
      var b :| b in p && b in Breakers(g);
      var k :| 0 <= k < |p| && p[k] == b;
      i := if k == 0 then |p| - 2 else k - 1;
    } else {
      i := UnlinkedPlace(g, p);
      var from, to := p[i], p[i + 1];
      assert Linked(nodes, OrderingEdges(g, included, nodes), p, i);
      forall t ensures !IsRequiresEdge(g, nodes, RequiresEdge(from, to, t)) {
        RequiresEdgeDepends(g, nodes, RequiresEdge(from, to, t));
      }
    }
  }

  lemma UnlinkedPlace(g: Graph, p: seq<string>) returns (i: nat)
    requires Closed(p) && !Path(g.nodes.Keys, DependEdges(g), p)
    ensures i < |p| - 1 && !Linked(g.nodes.Keys, DependEdges(g), p, i)
  {
    if j: nat :| j < |p| && p[j] !in g.nodes.Keys {
      i := if j < |p| - 1 then j else j - 1;
    } else {
      i :| 0 <= i < |p| - 1 && !Linked(g.nodes.Keys, DependEdges(g), p, i);
    }
  }
}

/** Backward chaining (graph/chain.go): the whole of BackwardChain, from its goals to the ordered
    chain and the decisions it tells of, and what that makes certain about the result. */
module Chain {
  import opened TopoOrder
  import opened Names
  import opened ChainConditions
  import opened ChainGraph
  import opened ChainDecisions
  import opened ChainSearch
  import opened ChainChoice
  import opened ChainSort

  datatype Result =
    | NoGoals
    | UnknownGoals(goals: seq<string>)
    | BadConditions(whens: seq<string>)
    | CycleInChain
    | Chained(nodes: seq<string>, requiresEdges: seq<RequiresEdge>, entryNodes: seq<string>, decisions: seq<Decision>,
              included: seq<Condition>, excluded: seq<Condition>)

  /** Everything a chain must contain: the goals, and what the included conditions require. */
  function Roots(g: Graph, goals: seq<string>, eval: Evaluator): set<string> {
    (set x | x in goals) + RequiredBy(With(g.conditions, eval, Holds))
  }

  method UnknownAmong(g: Graph, goals: seq<string>) returns (unknown: seq<string>)
    ensures forall x :: x in unknown <==> x in goals && x !in g.nodes
  {
    unknown := [];
    for i := 0 to |goals|
      invariant forall x :: x in unknown <==> x in goals[..i] && x !in g.nodes
    {
      assert goals[..i + 1] == goals[..i] + [goals[i]];
      if goals[i] !in g.nodes {
        unknown := unknown + [goals[i]];
      }
    }
    assert goals[..|goals|] == goals;
  }

  ghost predicate HoldsEdges(g: Graph, included: seq<Condition>, nodes: set<string>, edges: seq<(string, string)>) {
    forall a, b :: (a, b) in edges <==> a in nodes && b in nodes && Orders(g, included, nodes, (a, b))
  }

  /** One condition's ordering edges between nodes of the chain. */
  method BeforeEdges(c: Condition, nodes: set<string>) returns (edges: seq<(string, string)>)
    ensures forall a, b :: (a, b) in edges <==> a in nodes && b in nodes && a in c.require && b in c.before
  {
    edges := [];
    for i := 0 to |c.require|
      invariant forall a, b :: (a, b) in edges <==> a in nodes && b in nodes && a in c.require[..i] && b in c.before
    {
      var req := c.require[i];
      assert c.require[..i + 1] == c.require[..i] + [req];
      if req in nodes {
        ghost var was := edges;
        for j := 0 to |c.before|
          invariant forall a, b :: (a, b) in edges <==> (a, b) in was || (a == req && b in nodes && b in c.before[..j])
        {
          assert c.before[..j + 1] == c.before[..j] + [c.before[j]];
          if c.before[j] in nodes {
            edges := edges + [(req, c.before[j])];
          }
        }
        assert c.before[..|c.before|] == c.before;
      }
    }
    assert c.require[..|c.require|] == c.require;
  }

  method VirtualEdges(g: Graph, included: seq<Condition>, nodes: set<string>, requiresEdges: seq<RequiresEdge>)
    returns (edges: seq<(string, string)>)
    requires forall e :: e in requiresEdges <==> IsRequiresEdge(g, nodes, e)
    requires forall e :: e in requiresEdges ==> e.from in nodes
    ensures HoldsEdges(g, included, nodes, edges)
  {
    edges := [];
    for i := 0 to |included|
      invariant forall a, b :: (a, b) in edges <==> a in nodes && b in nodes && IsBeforeEdge(included[..i], (a, b))
    {
      assert included[..i + 1] == included[..i] + [included[i]];
      var more := BeforeEdges(included[i], nodes);
      forall a, b ensures IsBeforeEdge(included[..i + 1], (a, b))
          <==> IsBeforeEdge(included[..i], (a, b)) || (a in included[i].require && b in included[i].before) {
        if a in included[i].require && b in included[i].before {
          assert included[i] in included[..i + 1];
        }
      }
      edges := edges + more;
    }
    assert included[..|included|] == included;
    ghost var before := edges;
    for i := 0 to |requiresEdges|
      invariant forall a, b :: (a, b) in edges
                  <==> (a, b) in before || exists t :: RequiresEdge(a, b, t) in requiresEdges[..i]
    {
      var e := requiresEdges[i];
      assert requiresEdges[..i + 1] == requiresEdges[..i] + [e];
      assert RequiresEdge(e.from, e.to, e.token) == e;
      edges := edges + [(e.from, e.to)];
    }
    assert requiresEdges[..|requiresEdges|] == requiresEdges;
  }

  /** The nodes no edge of the chain points at, in the chain's order. */
  function WithoutIncoming(sorted: seq<string>, edges: set<(string, string)>): seq<string> {
    if sorted == [] then []
    else
      var last := sorted[|sorted| - 1];
      WithoutIncoming(sorted[..|sorted| - 1], edges) + (if exists e :: e in edges && e.1 == last then [] else [last])
  }

  method EntryNodes(sorted: seq<string>, nodes: set<string>, edges: seq<(string, string)>)
    returns (entries: seq<string>)
    requires forall x :: x in sorted <==> x in nodes
    requires forall e :: e in edges ==> e.0 in nodes && e.1 in nodes
    ensures entries == WithoutIncoming(sorted, set e | e in edges)
  {
    var inDegree := map x | x in nodes :: 0;
    for i := 0 to |edges|
      invariant inDegree.Keys == nodes
      invariant forall x :: x in nodes
                  ==> inDegree[x] >= 0 && (inDegree[x] == 0 <==> forall e :: e in edges[..i] ==> e.1 != x)
    {
      assert edges[..i + 1] == edges[..i] + [edges[i]];
      if edges[i].0 in nodes && edges[i].1 in nodes {
        inDegree := inDegree[edges[i].1 := inDegree[edges[i].1] + 1];
      }
    }
    assert edges[..|edges|] == edges;
    entries := [];
    for i := 0 to |sorted|
      invariant entries == WithoutIncoming(sorted[..i], set e | e in edges)
    {
      assert sorted[..i + 1][..i] == sorted[..i];
      assert sorted[i] in sorted;
      if inDegree[sorted[i]] == 0 {
        entries := entries + [sorted[i]];
      }
    }
    assert sorted[..|sorted|] == sorted;
  }

  /** What a chain is, given the least closure of its roots. */
  ghost predicate IsChain(g: Graph, goals: seq<string>, eval: Evaluator, nodes: set<string>, r: Result) {
    var included := With(g.conditions, eval, Holds);
    var edges := OrderingEdges(g, included, nodes);
    && LeastClosure(g, Roots(g, goals, eval), nodes)
    && (r.CycleInChain? || r.Chained?)
    && (r.CycleInChain? <==> Cyclic(nodes, edges))
    && (r.Chained? ==>
          && Greedy(r.nodes, nodes, edges, NameLess) && Topological(r.nodes, nodes, edges)
          && ByToken(r.requiresEdges) && Distinct(r.requiresEdges)
           && (forall e :: e in r.requiresEdges <==> IsRequiresEdge(g, nodes, e))
          && r.entryNodes == WithoutIncoming(r.nodes, edges)
          && DecisionsAre(g, Seen(g, Roots(g, goals, eval)), r.decisions)
          && r.included == included && r.excluded == With(g.conditions, eval, Fails))
  }

  method BackwardChain(g: Graph, goals: seq<string>, eval: Evaluator) returns (r: Result, ghost nodes: set<string>)
    ensures r.NoGoals? <==> goals == []
    ensures r.UnknownGoals? <==> goals != [] && exists x :: x in goals && x !in g.nodes
    ensures r.UnknownGoals? ==> forall x :: x in r.goals <==> x in goals && x !in g.nodes
    ensures r.BadConditions? <==>
              && goals != [] && (forall x :: x in goals ==> x in g.nodes)
              && eval.Evaluator? && exists c :: c in g.conditions && eval.verdict(c.when) == CannotEvaluate
    ensures r.BadConditions? ==> r.whens == Whens(With(g.conditions, eval, CannotEvaluate))
    ensures r.CycleInChain? || r.Chained? ==> IsChain(g, goals, eval, nodes, r)
  {
    nodes := {};
    if |goals| == 0 {
      return NoGoals, {};
    }
    var unknown := UnknownAmong(g, goals);
    if |unknown| > 0 {
      assert unknown[0] in unknown;
      return UnknownGoals(unknown), {};
    }
    var included, excluded, required, errors := EvaluateConditions(g, eval);
    Unevaluable(g.conditions, eval);
    if |errors| > 0 {
      return BadConditions(errors), {};
    }
    r, nodes := SearchAndOrder(g, goals, eval, required, included, excluded);
  }

  method SearchAndOrder(g: Graph, goals: seq<string>, ghost eval: Evaluator, required: set<string>,
                        included: seq<Condition>, excluded: seq<Condition>)
      returns (r: Result, ghost nodes: set<string>)
    requires included == With(g.conditions, eval, Holds) && excluded == With(g.conditions, eval, Fails)
      && required == RequiredBy(included)
    ensures IsChain(g, goals, eval, nodes, r)
  {
    hide Noted, AllAsked, Spread, BreaksAre, ChoicesAre, DecisionsAre, LeastClosure, Seen, IsRequiresEdge,
      IsChain, Distinct, ByToken;
    ghost var roots := Roots(g, goals, eval);
    var visited, candidates, requirers, breaks := SearchBack(g, goals, required);
    SearchedIsClosed(g, roots, visited, candidates, requirers);
    nodes := LeastClosureExists(g, roots, visited);
    var resolved, allEdges, choices, tokens := ResolveTokens(g, goals, required, visited, candidates, requirers, nodes);
    var kept, requiresEdges := KeepReachable(g, goals, required, visited, resolved, allEdges, nodes);
    AskedAreNoted(g, visited, candidates, requirers);
    DecisionsTold(g, visited, breaks, tokens, choices);
    r := OrderChain(g, goals, eval, kept, included, excluded, requiresEdges, breaks + choices);
  }

  lemma AskedAreNoted(g: Graph, visited: set<string>, candidates: map<string, set<string>>,
                      requirers: map<string, set<string>>)
    requires Noted(g, visited, candidates, requirers) && AllAsked(g, visited, candidates)
    ensures forall t :: t in candidates <==> Asked(g, visited, t)
  {
  }

  method OrderChain(g: Graph, ghost goals: seq<string>, ghost eval: Evaluator, kept: set<string>,
                    included: seq<Condition>, excluded: seq<Condition>, requiresEdges: seq<RequiresEdge>,
                    decisions: seq<Decision>)
      returns (r: Result)
    requires DecisionsAre(g, Seen(g, Roots(g, goals, eval)), decisions)
    requires LeastClosure(g, Roots(g, goals, eval), kept)
    requires included == With(g.conditions, eval, Holds) && excluded == With(g.conditions, eval, Fails)
    requires ByToken(requiresEdges) && Distinct(requiresEdges)
    requires forall e :: e in requiresEdges <==> IsRequiresEdge(g, kept, e)
    ensures IsChain(g, goals, eval, kept, r)
  {
    forall e | e in requiresEdges ensures e.from in kept {
      assert Pulls(g, e.to, e.from);
    }
    var edges := VirtualEdges(g, included, kept, requiresEdges);
    forall e ensures e in edges <==> e in OrderingEdges(g, included, kept) {
      assert e == (e.0, e.1);
    }
    assert (set e | e in edges) == OrderingEdges(g, included, kept);
    var ok, sorted := ChainTopoSort(kept, edges);
    if !ok {
      return CycleInChain;
    }
    var entries := EntryNodes(sorted, kept, edges);
    r := Chained(sorted, requiresEdges, entries, decisions, included, excluded);
  }

  // ---------- What is certain about the result ----------

  lemma OneLeastClosure(g: Graph, roots: set<string>, a: set<string>, b: set<string>)
    requires LeastClosure(g, roots, a) && LeastClosure(g, roots, b)
    ensures a == b
  {
    assert a <= b && b <= a;
  }

  /** Whatever order Go walks its maps in, two runs on one input give the same nodes in the same
      order, the same requires edges, and the same entry nodes, or both fail on a cycle. */
  lemma ChainIsDetermined(g: Graph, goals: seq<string>, eval: Evaluator, nodes: set<string>, r: Result,
                          nodes': set<string>, r': Result)
    requires IsChain(g, goals, eval, nodes, r) && IsChain(g, goals, eval, nodes', r')
    ensures nodes == nodes' && (r.CycleInChain? <==> r'.CycleInChain?)
    ensures r.Chained? ==>
      && r.nodes == r'.nodes && r.entryNodes == r'.entryNodes && r.included == r'.included && r.excluded == r'.excluded
      && multiset(r.requiresEdges) == multiset(r'.requiresEdges) && multiset(r.decisions) == multiset(r'.decisions)
  {
    OneLeastClosure(g, Roots(g, goals, eval), nodes, nodes');
    if r.Chained? {
      var edges := OrderingEdges(g, With(g.conditions, eval, Holds), nodes);
      NameOrderIsStrict(nodes);
      GreedyPrefix(r.nodes, nodes, edges, NameLess);
      DistinctSubsetIsAll(r.nodes, nodes);
      DistinctSubsetIsAll(r'.nodes, nodes);
      GreedyAgree(r.nodes, r'.nodes, nodes, edges, NameLess, |r.nodes|);
      assert r.nodes[..|r.nodes|] == r.nodes && r'.nodes[..|r'.nodes|] == r'.nodes;
      SameOnce(r.requiresEdges, r'.requiresEdges);
      SameOnce(r.decisions, r'.decisions);
    }
  }

  lemma SameOnce<T>(s: seq<T>, t: seq<T>)
    requires Distinct(s) && Distinct(t) && forall x :: x in s <==> x in t
    ensures multiset(s) == multiset(t)
  {
    forall x ensures multiset(s)[x] == multiset(t)[x] {
      DistinctOnce(s, x);
      DistinctOnce(t, x);
      assert x in multiset(s) <==> x in s;
      assert x in multiset(t) <==> x in t;
    }
  }

  /** Every requires edge whose token had other satisfiers has its choice told. */
  lemma EdgeChoicesAreTold(g: Graph, goals: seq<string>, eval: Evaluator, nodes: set<string>, r: Result,
                           e: RequiresEdge, other: string)
    requires IsChain(g, goals, eval, nodes, r) && r.Chained? && e in r.requiresEdges
    requires other in Candidates(g, e.token) && other != e.from
    ensures exists d :: d in r.decisions && d.Chose? && d.token == e.token && d.node == e.from
              && other in d.alternatives
  {
    ChosenAreSeen(g, Roots(g, goals, eval), nodes);
    var d := TellingOf(g, e.token, e.from, other);
    assert IsDecision(g, Seen(g, Roots(g, goals, eval)), d);
  }

  lemma ChainHas(g: Graph, goals: seq<string>, eval: Evaluator, nodes: set<string>, r: Result)
    requires IsChain(g, goals, eval, nodes, r)
    ensures LeastClosure(g, Roots(g, goals, eval), nodes) && (r.CycleInChain? || r.Chained?)
    ensures r.CycleInChain? <==> Cyclic(nodes, OrderingEdges(g, With(g.conditions, eval, Holds), nodes))
    ensures r.Chained? ==> DecisionsAre(g, Seen(g, Roots(g, goals, eval)), r.decisions)
  {
  }

  /** A choice told for a token no node of the chain asks for: its requirer was itself passed over. */
  lemma ChoicesOutsideAreTold(nodes: set<string>, r: Result)
    requires IsChain(TwoChoices(), ["a"], NoEvaluator, nodes, r)
    ensures nodes == {"a", "b"} && r.Chained? && Chose("u", "d", ["e"]) in r.decisions
  {
    hide *;
    var g := TwoChoices();
    ChainHas(g, ["a"], NoEvaluator, nodes, r);
    OnlyA();
    TwoChoicesChain();
    OneLeastClosure(g, {"a"}, nodes, {"a", "b"});
    TwoChoicesOrder();
    DecisionTold();
    DecisionIsIn(g, Seen(g, {"a"}), r.decisions, Chose("u", "d", ["e"]));
  }

  lemma OnlyA()
    ensures Roots(TwoChoices(), ["a"], NoEvaluator) == {"a"}
    ensures With(TwoChoices().conditions, NoEvaluator, Holds) == []
  {
  }

  lemma DecisionIsIn(g: Graph, seen: set<string>, decisions: seq<Decision>, d: Decision)
    requires DecisionsAre(g, seen, decisions) && IsDecision(g, seen, d)
    ensures d in decisions
  {
  }

  lemma DecisionTold()
    ensures IsDecision(TwoChoices(), Seen(TwoChoices(), {"a"}), Chose("u", "d", ["e"]))
  {
    hide Seen, IsChoice;
    var g, seen := TwoChoices(), Seen(TwoChoices(), {"a"});
    PreferredFirst();
    SeenIsLeast(g, {"a"});
    assert "a" in seen && "t" in Asks(g, "a") && "c" in Candidates(g, "t");
    assert "c" in seen && "u" in Asks(g, "c");
    assert Asked(g, seen, "u");
  }

  /** a asks for t, of b and c; c asks for u, of d and e. */
  function TwoChoices(): Graph {
    var leaf := Node([], false, false);
    Graph(map["a" := Node(["t"], false, false), "b" := leaf, "c" := Node(["u"], false, false), "d" := leaf,
      "e" := leaf],
          map["t" := ["b", "c"], "u" := ["d", "e"]], [])
  }

  lemma PreferredFirst()
    ensures Candidates(TwoChoices(), "t") == {"b", "c"} && Candidates(TwoChoices(), "u") == {"d", "e"}
    ensures IsChoice(TwoChoices(), "t", "b") && IsChoice(TwoChoices(), "u", "d")
  {
    assert NameLess("b", "c") && NameLess("d", "e");
  }

  /** b before a orders the chain. */
  lemma TwoChoicesOrder()
    ensures !Cyclic({"a", "b"}, OrderingEdges(TwoChoices(), [], {"a", "b"}))
  {
    var g, nodes := TwoChoices(), {"a", "b"};
    var edges := OrderingEdges(g, [], nodes);
    PreferredFirst();
    forall x, y | (x, y) in edges ensures x == "b" && y == "a" {
      var token :| IsRequiresEdge(g, nodes, RequiresEdge(x, y, token));
      assert y == "a" && token == "t";
      OneChoice(g, "t", x, "b");
    }
    assert Topological(["b", "a"], nodes, edges);
    TopologicalIsAcyclic(["b", "a"], nodes, edges);
  }

  lemma TwoChoicesChain()
    ensures LeastClosure(TwoChoices(), {"a"}, {"a", "b"})
  {
    var g := TwoChoices();
    PreferredFirst();
    forall n, c | n in {"a", "b"} && Pulls(g, n, c) ensures c == "b" {
      var t :| t in Asks(g, n) && IsChoice(g, t, c);
      OneChoice(g, "t", c, "b");
    }
    forall s | ClosedUnderChoice(g, {"a"}, s) ensures {"a", "b"} <= s {
      assert "a" in s && "t" in Asks(g, "a") && Pulls(g, "a", "b");
    }
  }

  /** The chain is the alphabetically first of all the orders its edges allow. */
  lemma ChainIsFirstOrder(g: Graph, goals: seq<string>, eval: Evaluator, nodes: set<string>, r: Result,
                          other: seq<string>)
    requires IsChain(g, goals, eval, nodes, r) && r.Chained?
    requires Topological(other, nodes, OrderingEdges(g, With(g.conditions, eval, Holds), nodes))
    ensures r.nodes == other || LexBefore(r.nodes, other, NameLess)
  {
    DistinctSubsetIsAll(r.nodes, nodes);
    DistinctSubsetIsAll(other, nodes);
    GreedyIsLexLeast(r.nodes, other, nodes, OrderingEdges(g, With(g.conditions, eval, Holds), nodes), NameLess);
  }

  lemma {:induction false} EntriesAre(sorted: seq<string>, edges: set<(string, string)>, x: string)
    ensures x in WithoutIncoming(sorted, edges) <==> x in sorted && forall e :: e in edges ==> e.1 != x
  {
    if sorted != [] {
      EntriesAre(sorted[..|sorted| - 1], edges, x);
      assert sorted == sorted[..|sorted| - 1] + [sorted[|sorted| - 1]];
    }
  }

  /** The entry nodes are the nodes that can come first, but for a node with an edge to itself: the
      sort ignores that edge, the entry count does not. */
  lemma EntriesAreReadyWithoutSelfEdge(g: Graph, goals: seq<string>, eval: Evaluator, nodes: set<string>, r: Result,
                                       x: string)
    requires IsChain(g, goals, eval, nodes, r) && r.Chained?
    ensures var edges := OrderingEdges(g, With(g.conditions, eval, Holds), nodes);
      x in r.entryNodes <==> x in nodes && Ready([], nodes, edges, x) && (x, x) !in edges
  {
    var edges := OrderingEdges(g, With(g.conditions, eval, Holds), nodes);
    EntriesAre(r.nodes, edges, x);
    if x in nodes && Ready([], nodes, edges, x) && (x, x) !in edges {
      forall e | e in edges ensures e.1 != x {
        assert Precedes(nodes, edges, e.0, e.1) || e.0 == e.1;
      }
    }
    if x in r.entryNodes {
      forall y | y in nodes ensures !Precedes(nodes, edges, y, x) {
      }
    }
  }

  /** A goal that satisfies its own token: the chain is that one node, and it has no entry node. */
  lemma SelfSatisfierHidesEntry(nodes: set<string>, r: Result)
    requires var g := Graph(map["a" := Node(["t"], false, false)], map["t" := ["a"]], []);
      IsChain(g, ["a"], NoEvaluator, nodes, r)
    ensures r.Chained? && r.nodes == ["a"] && r.entryNodes == []
  {
    var g := Graph(map["a" := Node(["t"], false, false)], map["t" := ["a"]], []);
    assert Candidates(g, "t") == {"a"};
    assert Roots(g, ["a"], NoEvaluator) == {"a"};
    forall n, c | Pulls(g, n, c) ensures c == "a" {
      var t :| t in Asks(g, n) && IsChoice(g, t, c);
      assert n == "a" && t == "t";
    }
    assert ClosedUnderChoice(g, {"a"}, {"a"});
    assert nodes == {"a"};
    var edges := OrderingEdges(g, [], nodes);
    assert Topological(["a"], nodes, edges);
    TopologicalIsAcyclic(["a"], nodes, edges);
    DistinctSubsetIsAll(r.nodes, nodes);
    assert r.nodes[0] in nodes;
    assert r.nodes == ["a"];
    assert IsChoice(g, "t", "a");
    assert IsRequiresEdge(g, nodes, RequiresEdge("a", "a", "t"));
    assert ("a", "a") in edges;
    assert ["a"][..0] == [];
    assert ("a", "a").1 == "a";
    assert WithoutIncoming(["a"], edges) == WithoutIncoming([], edges);
  }
}

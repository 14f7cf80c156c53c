/** What a backward chain is, said of the graph's own fields alone: which conditions it includes, which
    nodes it holds, which edges it has and how it is ordered (graph/chain.go BackwardChain). */
module ChainMeaning {
  import opened TopoOrder
  import opened Names
  import opened ChainConditions
  import opened ChainGraph
  import opened ChainDecisions
  import opened Sequences
  import opened Chain

  // ---------- Conditions ----------

  /** Without an evaluator a chain has no condition in it: it holds what its goals need, and no more. */
  lemma NoneIncludedWithoutEvaluator(g: Graph, goals: seq<string>, nodes: set<string>, r: Result)
    requires IsChain(g, goals, NoEvaluator, nodes, r)
    ensures LeastClosure(g, (set x | x in goals), nodes)
    ensures r.Chained? ==> r.included == [] && r.excluded == g.conditions
  {
    WithoutEvaluator(g.conditions);
    assert Roots(g, goals, NoEvaluator) == (set x | x in goals);
  }

  /** With one, it includes exactly the conditions that hold, and excludes exactly those that fail, each as
      often as the graph lists it and in that order. */
  lemma IncludedHold(g: Graph, goals: seq<string>, eval: Evaluator, nodes: set<string>, r: Result)
      returns (holding: seq<nat>, failing: seq<nat>)
    requires IsChain(g, goals, eval, nodes, r) && r.Chained? && eval.Evaluator?
    ensures PickedAt(g.conditions, r.included, holding) && PickedAt(g.conditions, r.excluded, failing)
    ensures forall k :: 0 <= k < |g.conditions| ==>
      && (k in holding <==> eval.verdict(g.conditions[k].when) == Holds)
      && (k in failing <==> eval.verdict(g.conditions[k].when) == Fails)
  {
    holding := WithPicks(g.conditions, eval, Holds);
    failing := WithPicks(g.conditions, eval, Fails);
  }

  // ---------- Nodes ----------

  /** Condition c counts: there is an evaluator, and it says so. */
  predicate Counts(g: Graph, eval: Evaluator, c: Condition) {
    c in g.conditions && eval.Evaluator? && eval.verdict(c.when) == Holds
  }

  /** Of a token's satisfiers, c is the alphabetically first, of those preferred if there are any. */
  ghost predicate Wins(g: Graph, satisfiers: seq<string>, c: string) {
    && c in satisfiers
    && if exists d :: d in satisfiers && d in g.nodes && g.nodes[d].preferred
       then
         && c in g.nodes && g.nodes[c].preferred
         && forall d :: d in satisfiers && d != c && d in g.nodes && g.nodes[d].preferred ==> NameLess(c, d)
       else forall d :: d in satisfiers && d != c ==> NameLess(c, d)
  }

  lemma ChoiceWins(g: Graph, token: string, c: string)
    ensures IsChoice(g, token, c) <==> token in g.satisfiersByToken && Wins(g, g.satisfiersByToken[token], c)
  {
    if token in g.satisfiersByToken {
      var all := g.satisfiersByToken[token];
      assert forall d :: d in Candidates(g, token) <==> d in all;
      if IsChoice(g, token, c) && exists d :: d in all && d in g.nodes && g.nodes[d].preferred {
        var d :| d in all && IsPreferred(g, d);
        assert IsPreferred(g, c);
      }
    }
  }

  /** n asks for a token: it is in the graph, stops no walk, and names the token. */
  predicate Needs(g: Graph, n: string, token: string) {
    n in g.nodes && !g.nodes[n].cycleBreaker && token in g.nodes[n].needs
  }

  /** s has the goals, what the conditions that count require, and the winner of each token a member needs. */
  ghost predicate Complete(g: Graph, goals: seq<string>, eval: Evaluator, s: set<string>) {
    && (forall x :: x in goals ==> x in s)
    && (forall c, x :: Counts(g, eval, c) && x in c.require ==> x in s)
    && (forall n, t, c ::
          n in s && Needs(g, n, t) && t in g.satisfiersByToken && Wins(g, g.satisfiersByToken[t], c) ==> c in s)
  }

  lemma RootsAre(g: Graph, goals: seq<string>, eval: Evaluator, x: string)
    ensures x in Roots(g, goals, eval) <==> x in goals || exists c :: Counts(g, eval, c) && x in c.require
  {
    if eval.NoEvaluator? {
      WithoutEvaluator(g.conditions);
    } else {
      forall c ensures c in With(g.conditions, eval, Holds) <==> Counts(g, eval, c) {
        WithHas(g.conditions, eval, Holds, c);
      }
    }
  }

  lemma ClosedIsComplete(g: Graph, goals: seq<string>, eval: Evaluator, s: set<string>)
    ensures ClosedUnderChoice(g, Roots(g, goals, eval), s) <==> Complete(g, goals, eval, s)
  {
    hide Roots, IsChoice, Wins;
    forall x ensures x in Roots(g, goals, eval) <==> x in goals || exists c :: Counts(g, eval, c) && x in c.require {
      RootsAre(g, goals, eval, x);
    }
    forall t, c ensures IsChoice(g, t, c) <==> t in g.satisfiersByToken && Wins(g, g.satisfiersByToken[t], c) {
      ChoiceWins(g, t, c);
    }
    if Complete(g, goals, eval, s) {
      forall n, c | n in s && Pulls(g, n, c) ensures c in s {
        var t :| t in Asks(g, n) && IsChoice(g, t, c);
        assert Needs(g, n, t);
      }
    }
    if ClosedUnderChoice(g, Roots(g, goals, eval), s) {
      forall n, t, c | n in s && Needs(g, n, t) && t in g.satisfiersByToken && Wins(g, g.satisfiersByToken[t], c)
        ensures c in s {
        assert Pulls(g, n, c);
      }
    }
  }

  /** The chain's nodes are the least complete set. */
  lemma NodesAre(g: Graph, goals: seq<string>, eval: Evaluator, nodes: set<string>, r: Result)
    requires IsChain(g, goals, eval, nodes, r)
    ensures Complete(g, goals, eval, nodes)
    ensures forall s :: Complete(g, goals, eval, s) ==> nodes <= s
    ensures r.Chained? ==> forall x :: x in r.nodes <==> x in nodes
  {
    ClosedIsComplete(g, goals, eval, nodes);
    forall s | Complete(g, goals, eval, s) ensures nodes <= s {
      ClosedIsComplete(g, goals, eval, s);
    }
  }

  // ---------- Edges and order ----------

  /** The requires edges run from each needed token's winner to those of the chain that need it. */
  lemma EdgesAre(g: Graph, goals: seq<string>, eval: Evaluator, nodes: set<string>, r: Result, e: RequiresEdge)
    requires IsChain(g, goals, eval, nodes, r) && r.Chained?
    ensures e in r.requiresEdges <==>
            && e.to in r.nodes && Needs(g, e.to, e.token)
            && e.token in g.satisfiersByToken && Wins(g, g.satisfiersByToken[e.token], e.from)
    ensures Distinct(r.requiresEdges)
    ensures forall i, j :: 0 <= i < j < |r.requiresEdges| ==>
      !NameLess(r.requiresEdges[j].token, r.requiresEdges[i].token)
  {
    ChoiceWins(g, e.token, e.from);
  }

  /** a is to come before b: b needs a token a wins, or a condition that counts has a, which it requires, come
      before b. */
  ghost predicate ComesBefore(g: Graph, eval: Evaluator, a: string, b: string) {
    || (exists t :: Needs(g, b, t) && t in g.satisfiersByToken && Wins(g, g.satisfiersByToken[t], a))
    || (exists c :: Counts(g, eval, c) && a in c.require && b in c.before)
  }

  lemma OrderedAsSaid(g: Graph, eval: Evaluator, nodes: set<string>, a: string, b: string)
    requires a in nodes && b in nodes
    ensures (a, b) in OrderingEdges(g, With(g.conditions, eval, Holds), nodes) <==> ComesBefore(g, eval, a, b)
  {
    hide Wins, IsChoice;
    var included := With(g.conditions, eval, Holds);
    forall c ensures c in included <==> Counts(g, eval, c) {
      if eval.NoEvaluator? {
        WithoutEvaluator(g.conditions);
      } else {
        WithHas(g.conditions, eval, Holds, c);
      }
    }
    forall t ensures IsChoice(g, t, a) <==> t in g.satisfiersByToken && Wins(g, g.satisfiersByToken[t], a) {
      ChoiceWins(g, t, a);
    }
    if (a, b) in OrderingEdges(g, included, nodes) && !IsBeforeEdge(included, (a, b)) {
      var t :| IsRequiresEdge(g, nodes, RequiresEdge(a, b, t));
      assert Needs(g, b, t);
    }
    if t :| Needs(g, b, t) && t in g.satisfiersByToken && Wins(g, g.satisfiersByToken[t], a) {
      assert IsRequiresEdge(g, nodes, RequiresEdge(a, b, t));
    }
    if c :| Counts(g, eval, c) && a in c.require && b in c.before {
      assert IsBeforeEdge(included, (a, b));
    }
  }

  /** s lists the nodes once each, and those that are to come before others do. */
  ghost predicate Lawful(g: Graph, eval: Evaluator, nodes: set<string>, s: seq<string>) {
    && Distinct(s) && (forall x :: x in s <==> x in nodes)
    && forall i, j :: 0 <= i < |s| && 0 <= j < |s| && i != j && ComesBefore(g, eval, s[i], s[j]) ==> i < j
  }

  lemma LawfulIsTopological(g: Graph, eval: Evaluator, nodes: set<string>, s: seq<string>)
    ensures Lawful(g, eval, nodes, s)
      <==> Topological(s, nodes, OrderingEdges(g, With(g.conditions, eval, Holds), nodes))
  {
    hide OrderingEdges, ComesBefore;
    var edges := OrderingEdges(g, With(g.conditions, eval, Holds), nodes);
    forall a, b | a in nodes && b in nodes ensures (a, b) in edges <==> ComesBefore(g, eval, a, b) {
      OrderedAsSaid(g, eval, nodes, a, b);
    }
    if Distinct(s) && forall x :: x in s <==> x in nodes {
      forall i, j | 0 <= i < |s| && 0 <= j < |s|
        ensures Precedes(nodes, edges, s[i], s[j]) <==> i != j && ComesBefore(g, eval, s[i], s[j]) {
        assert s[i] in s && s[j] in s;
        if i < j {
          assert s[i] != s[j];
        } else if j < i {
          assert s[j] != s[i];
        }
      }
    }
  }

  /** The chain has every node after those that are to come before it, and is the alphabetically first order of
      its nodes that does. */
  lemma ChainIsInOrder(g: Graph, goals: seq<string>, eval: Evaluator, nodes: set<string>, r: Result)
    requires IsChain(g, goals, eval, nodes, r) && r.Chained?
    ensures Lawful(g, eval, nodes, r.nodes)
    ensures forall other :: Lawful(g, eval, nodes, other) ==> r.nodes == other || LexBefore(r.nodes, other, NameLess)
  {
    LawfulIsTopological(g, eval, nodes, r.nodes);
    forall other | Lawful(g, eval, nodes, other) ensures r.nodes == other || LexBefore(r.nodes, other, NameLess) {
      LawfulIsTopological(g, eval, nodes, other);
      ChainIsFirstOrder(g, goals, eval, nodes, r, other);
    }
  }

  /** A chain fails on a cycle exactly when no order of its nodes does. */
  lemma CycleMeansNoOrder(g: Graph, goals: seq<string>, eval: Evaluator, nodes: set<string>, r: Result)
    requires IsChain(g, goals, eval, nodes, r)
    ensures r.CycleInChain? <==> forall s :: !Lawful(g, eval, nodes, s)
  {
    var edges := OrderingEdges(g, With(g.conditions, eval, Holds), nodes);
    if r.Chained? {
      ChainIsInOrder(g, goals, eval, nodes, r);
    } else {
      forall s ensures !Lawful(g, eval, nodes, s) {
        LawfulIsTopological(g, eval, nodes, s);
        if Topological(s, nodes, edges) {
          TopologicalIsAcyclic(s, nodes, edges);
        }
      }
    }
  }

  /** The entry nodes are those nothing in the chain is to come before, not even themselves, in its order. */
  lemma EntriesComeFirst(g: Graph, goals: seq<string>, eval: Evaluator, nodes: set<string>, r: Result)
      returns (at: seq<nat>)
    requires IsChain(g, goals, eval, nodes, r) && r.Chained?
    ensures PickedAt(r.nodes, r.entryNodes, at)
    ensures forall k :: 0 <= k < |r.nodes| ==>
      (k in at <==> forall a :: a in nodes ==> !ComesBefore(g, eval, a, r.nodes[k]))
  {
    hide OrderingEdges, ComesBefore;
    var edges := OrderingEdges(g, With(g.conditions, eval, Holds), nodes);
    at := EntriesPick(r.nodes, edges);
    forall k | 0 <= k < |r.nodes|
      ensures k in at <==> forall a :: a in nodes ==> !ComesBefore(g, eval, a, r.nodes[k]) {
      var b := r.nodes[k];
      assert b in nodes by {
        assert b in r.nodes;
      }
      forall a | a in nodes ensures (a, b) in edges <==> ComesBefore(g, eval, a, b) {
        OrderedAsSaid(g, eval, nodes, a, b);
      }
      forall e | e in edges && e.1 == b ensures e.0 in nodes && e == (e.0, b) {
        EdgesAreInside(g, With(g.conditions, eval, Holds), nodes, e);
      }
    }
  }

  lemma EdgesAreInside(g: Graph, included: seq<Condition>, nodes: set<string>, e: (string, string))
    requires e in OrderingEdges(g, included, nodes)
    ensures e.0 in nodes && e.1 in nodes
  {
  }

  predicate NothingInto(edges: set<(string, string)>, x: string) {
    forall e :: e in edges ==> e.1 != x
  }

  lemma {:induction false} EntriesPick(sorted: seq<string>, edges: set<(string, string)>) returns (at: seq<nat>)
    ensures PickedAt(sorted, WithoutIncoming(sorted, edges), at)
    ensures forall k :: 0 <= k < |sorted| ==> (k in at <==> NothingInto(edges, sorted[k]))
  {
    hide PickedAt, NothingInto, WithoutIncoming;
    at := [];
    if sorted == [] {
      NothingPicked(sorted);
      NoneWithout(edges);
    } else {
      var n := |sorted| - 1;
      at := EntriesPick(sorted[..n], edges);
      at := PickedMore(sorted[..n], WithoutIncoming(sorted[..n], edges), at, sorted[n], NothingInto(edges, sorted[n]));
      assert sorted == sorted[..n] + [sorted[n]];
      WithoutMore(sorted, edges);
      forall k | 0 <= k < |sorted| ensures k in at <==> NothingInto(edges, sorted[k]) {
        if k < n {
          assert sorted[..n][k] == sorted[k];
        }
      }
    }
  }

  lemma NoneWithout(edges: set<(string, string)>)
    ensures WithoutIncoming([], edges) == []
  {
  }

  lemma WithoutMore(sorted: seq<string>, edges: set<(string, string)>)
    requires sorted != []
    ensures var n := |sorted| - 1;
      WithoutIncoming(sorted, edges)
        == WithoutIncoming(sorted[..n], edges) + if NothingInto(edges, sorted[n]) then [sorted[n]] else []
  {
  }

  // ---------- Decisions ----------

  /** s has the goals, what the conditions that count require, and every satisfier of each token a member needs. */
  ghost predicate Explored(g: Graph, goals: seq<string>, eval: Evaluator, s: set<string>) {
    && (forall x :: x in goals ==> x in s)
    && (forall c, x :: Counts(g, eval, c) && x in c.require ==> x in s)
    && (forall n, t, x :: n in s && Needs(g, n, t) && t in g.satisfiersByToken && x in g.satisfiersByToken[t]
          ==> x in s)
  }

  /** The walk back from the goals comes to n. */
  ghost predicate Walked(g: Graph, goals: seq<string>, eval: Evaluator, n: string) {
    forall s :: Explored(g, goals, eval, s) ==> n in s
  }

  lemma ClosedIsExplored(g: Graph, goals: seq<string>, eval: Evaluator, s: set<string>)
    ensures ClosedUnderAll(g, Roots(g, goals, eval), s) <==> Explored(g, goals, eval, s)
  {
    hide Roots;
    forall x ensures x in Roots(g, goals, eval) <==> x in goals || exists c :: Counts(g, eval, c) && x in c.require {
      RootsAre(g, goals, eval, x);
    }
    if Explored(g, goals, eval, s) {
      forall n, t, x | n in s && t in Asks(g, n) && x in Candidates(g, t) ensures x in s {
        assert Needs(g, n, t);
      }
    }
    if ClosedUnderAll(g, Roots(g, goals, eval), s) {
      forall n, t, x | n in s && Needs(g, n, t) && t in g.satisfiersByToken && x in g.satisfiersByToken[t]
        ensures x in s {
        assert t in Asks(g, n) && Candidates(g, t) <= s && x in Candidates(g, t);
      }
    }
  }

  lemma SeenIsWalked(g: Graph, goals: seq<string>, eval: Evaluator, n: string)
    ensures n in Seen(g, Roots(g, goals, eval)) <==> Walked(g, goals, eval, n)
  {
    hide Roots, ClosedUnderAll, Explored, Seen;
    var seen := Seen(g, Roots(g, goals, eval));
    SeenIsLeast(g, Roots(g, goals, eval));
    ClosedIsExplored(g, goals, eval, seen);
    forall s | Explored(g, goals, eval, s) ensures seen <= s {
      ClosedIsExplored(g, goals, eval, s);
    }
  }

  /** A stop is told of each cycle-breaker walked to; a choice of each token a node walked to needs, if it has
      several satisfiers: its winner, and the others in order. */
  lemma DecisionsTell(g: Graph, goals: seq<string>, eval: Evaluator, nodes: set<string>, r: Result, d: Decision)
    requires IsChain(g, goals, eval, nodes, r) && r.Chained?
    ensures d in r.decisions <==>
            if d.CycleBreak? then Walked(g, goals, eval, d.node) && d.node in g.nodes && g.nodes[d.node].cycleBreaker
            else
              && (exists n :: Walked(g, goals, eval, n) && Needs(g, n, d.token))
              && d.token in g.satisfiersByToken && Wins(g, g.satisfiersByToken[d.token], d.node)
              && d.alternatives != [] && Ascending(d.alternatives)
              && forall x :: x in d.alternatives <==> x in g.satisfiersByToken[d.token] && x != d.node
  {
    hide Seen, Walked, Wins, IsChoice;
    var seen := Seen(g, Roots(g, goals, eval));
    forall n ensures n in seen <==> Walked(g, goals, eval, n) {
      SeenIsWalked(g, goals, eval, n);
    }
    if d.Chose? {
      ChoiceWins(g, d.token, d.node);
      if n :| n in seen && d.token in Asks(g, n) {
        assert Needs(g, n, d.token);
      }
      if n :| Walked(g, goals, eval, n) && Needs(g, n, d.token) {
        assert n in seen && d.token in Asks(g, n);
      }
    }
  }
}

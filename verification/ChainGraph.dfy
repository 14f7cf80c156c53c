/** What backward chaining is meant to compute (graph/chain.go): the least set of nodes that holds
    the goals and what the included conditions require, and that holds, for every token a member
    requires, the one satisfier the graph prefers. A cycle-breaker asks for nothing. */
module ChainGraph {
  import opened Names

  datatype Node = Node(needs: seq<string>, cycleBreaker: bool, preferred: bool)

  datatype Condition = Condition(when: string, require: seq<string>, before: seq<string>)

  datatype Graph = Graph(nodes: map<string, Node>, satisfiersByToken: map<string, seq<string>>,
    conditions: seq<Condition>)

  /** The tokens a node asks its satisfiers for. */
  function Asks(g: Graph, node: string): seq<string> {
    if node in g.nodes && !g.nodes[node].cycleBreaker then g.nodes[node].needs else []
  }

  function Candidates(g: Graph, token: string): set<string> {
    if token in g.satisfiersByToken then set s | s in g.satisfiersByToken[token] else {}
  }

  predicate IsPreferred(g: Graph, node: string) {
    node in g.nodes && g.nodes[node].preferred
  }

  /** c is the alphabetically first preferred satisfier of the token, or the first of all when none is preferred. */
  ghost predicate IsChoice(g: Graph, token: string, c: string) {
    && c in Candidates(g, token)
    && (forall d :: d in Candidates(g, token) && d != c ==>
          (IsPreferred(g, c) && !IsPreferred(g, d)) || (IsPreferred(g, c) == IsPreferred(g, d) && NameLess(c, d)))
  }

  lemma OneChoice(g: Graph, token: string, c: string, d: string)
    requires IsChoice(g, token, c) && IsChoice(g, token, d)
    ensures c == d
  {
    if c != d {
      NameIrreflexive(c);
      assert NameLess(c, d) && NameLess(d, c) ==> NameLess(c, c) by {
        if NameLess(c, d) && NameLess(d, c) {
          NameTransitive(c, d, c);
        }
      }
    }
  }

  /** node asks for a token whose chosen satisfier is c. */
  ghost predicate Pulls(g: Graph, node: string, c: string) {
    exists token :: token in Asks(g, node) && IsChoice(g, token, c)
  }

  ghost predicate ClosedUnderChoice(g: Graph, roots: set<string>, s: set<string>) {
    roots <= s && forall n, c :: n in s && Pulls(g, n, c) ==> c in s
  }

  /** s is the least set that holds the roots and is closed under the chosen satisfiers. */
  ghost predicate LeastClosure(g: Graph, roots: set<string>, s: set<string>) {
    ClosedUnderChoice(g, roots, s) && forall t :: ClosedUnderChoice(g, roots, t) ==> s <= t
  }

  ghost predicate InEveryClosure(g: Graph, roots: set<string>, n: string) {
    forall t :: ClosedUnderChoice(g, roots, t) ==> n in t
  }

  /** Inside any closed set lies the least one. */
  lemma LeastClosureExists(g: Graph, roots: set<string>, within: set<string>) returns (least: set<string>)
    requires ClosedUnderChoice(g, roots, within)
    ensures LeastClosure(g, roots, least) && least <= within
  {
    least := set n | n in within && InEveryClosure(g, roots, n);
    forall n, c | n in least && Pulls(g, n, c) ensures c in least {
      forall t | ClosedUnderChoice(g, roots, t) ensures c in t {
        assert n in t;
      }
    }
    forall n | n in roots ensures n in least {
      assert InEveryClosure(g, roots, n);
    }
  }

  /** A node no member of the closure pulls, and that is no root, is not in it. */
  lemma UnpulledIsOutside(g: Graph, roots: set<string>, least: set<string>, n: string)
    requires LeastClosure(g, roots, least) && n !in roots
    requires forall m :: m in least ==> !Pulls(g, m, n)
    ensures n !in least
  {
    assert ClosedUnderChoice(g, roots, least - {n});
  }

  // ---------- What the search sees ----------

  /** s holds the roots, and every satisfier of every token a member asks for. */
  ghost predicate ClosedUnderAll(g: Graph, roots: set<string>, s: set<string>) {
    roots <= s && forall n, t :: n in s && t in Asks(g, n) ==> Candidates(g, t) <= s
  }

  ghost predicate InEveryAll(g: Graph, roots: set<string>, n: string) {
    forall t :: ClosedUnderAll(g, roots, t) ==> n in t
  }

  function Universe(g: Graph, roots: set<string>): set<string> {
    roots + set t, c | t in g.satisfiersByToken && c in g.satisfiersByToken[t] :: c
  }

  /** The nodes a walk back over every satisfier, chosen or not, comes to. */
  ghost function Seen(g: Graph, roots: set<string>): set<string> {
    set n | n in Universe(g, roots) && InEveryAll(g, roots, n)
  }

  lemma SeenIsLeast(g: Graph, roots: set<string>)
    ensures ClosedUnderAll(g, roots, Seen(g, roots))
    ensures forall s :: ClosedUnderAll(g, roots, s) ==> Seen(g, roots) <= s
  {
    forall n, t, c | n in Seen(g, roots) && t in Asks(g, n) && c in Candidates(g, t) ensures c in Seen(g, roots) {
      forall s | ClosedUnderAll(g, roots, s) ensures c in s {
        assert n in s;
      }
    }
    forall n | n in roots ensures n in Seen(g, roots) {
      assert InEveryAll(g, roots, n);
    }
  }

  /** The chain stays among the nodes seen. */
  lemma ChosenAreSeen(g: Graph, roots: set<string>, least: set<string>)
    requires LeastClosure(g, roots, least)
    ensures least <= Seen(g, roots)
  {
    SeenIsLeast(g, roots);
    assert ClosedUnderChoice(g, roots, Seen(g, roots));
  }

  // ---------- The edges of a chain ----------

  datatype RequiresEdge = RequiresEdge(from: string, to: string, token: string)

  ghost predicate IsRequiresEdge(g: Graph, nodes: set<string>, e: RequiresEdge) {
    e.to in nodes && e.token in Asks(g, e.to) && IsChoice(g, e.token, e.from)
  }

  /** The edges are listed by their tokens, in order. */
  ghost predicate ByToken(edges: seq<RequiresEdge>) {
    forall i, j :: 0 <= i < j < |edges| ==> !NameLess(edges[j].token, edges[i].token)
  }

  lemma ByTokenAppend(edges: seq<RequiresEdge>, e: RequiresEdge)
    requires ByToken(edges) && forall d :: d in edges ==> !NameLess(e.token, d.token)
    ensures ByToken(edges + [e])
  {
    forall i | 0 <= i < |edges| ensures !NameLess(e.token, edges[i].token) {
      assert edges[i] in edges;
    }
  }

  ghost predicate IsBeforeEdge(included: seq<Condition>, e: (string, string)) {
    exists c :: c in included && e.0 in c.require && e.1 in c.before
  }

  /** What orders the chain: a chosen satisfier before its requirers, and an included condition's
      nodes before those it names. */
  ghost predicate Orders(g: Graph, included: seq<Condition>, nodes: set<string>, e: (string, string)) {
    || (exists token :: IsRequiresEdge(g, nodes, RequiresEdge(e.0, e.1, token)))
    || (e.0 in nodes && e.1 in nodes && IsBeforeEdge(included, e))
  }

  ghost function OrderingEdges(g: Graph, included: seq<Condition>, nodes: set<string>): set<(string, string)> {
    set a, b | a in nodes && b in nodes && Orders(g, included, nodes, (a, b)) :: (a, b)
  }
}

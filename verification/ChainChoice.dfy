/** The choice of one satisfier a token, the pruning and the reachability pass of backward chaining
    (graph/chain.go). Together they leave the least closure and nothing else. */
module ChainChoice {
  import opened TopoOrder
  import opened Names
  import opened ChainGraph
  import opened ChainDecisions
  import opened ChainSearch

  method PickSatisfier(candidates: seq<string>, g: Graph, ghost token: string) returns (chosen: string)
    requires |candidates| > 0 && Ascending(candidates)
    requires forall c :: c in candidates <==> c in Candidates(g, token)
    ensures IsChoice(g, token, chosen)
  {
    for i := 0 to |candidates|
      invariant forall j :: 0 <= j < i ==> !IsPreferred(g, candidates[j])
    {
      if IsPreferred(g, candidates[i]) {
        assert candidates[i] in candidates;
        return candidates[i];
      }
    }
    assert candidates[0] in candidates;
    return candidates[0];
  }

  /** The search state the choice works on: what was visited, and the notes about it. */
  ghost predicate Searched(g: Graph, roots: set<string>, visited: set<string>, candidates: map<string, set<string>>,
                           requirers: map<string, set<string>>) {
    roots <= visited && Noted(g, visited, candidates, requirers) && Spread(candidates, visited, [])
  }

  lemma SearchedIsClosed(g: Graph, roots: set<string>, visited: set<string>, candidates: map<string, set<string>>,
                         requirers: map<string, set<string>>)
    requires Searched(g, roots, visited, candidates, requirers)
    ensures ClosedUnderChoice(g, roots, visited)
  {
  }

  /** Whether a satisfier not chosen for token is wanted for another reason. */
  method NeededElsewhere(c: string, token: string, goals: seq<string>, required: set<string>,
                         candidates: map<string, set<string>>)
      returns (needed: bool)
    ensures needed <==> c in goals || c in required || exists t :: t in candidates && t != token && c in candidates[t]
  {
    needed := false;
    var tokens := SortedKeys(candidates.Keys);
    for i := 0 to |tokens|
      invariant needed <==> exists t :: t in tokens[..i] && t != token && c in candidates[t]
    {
      assert tokens[i] in tokens;
      assert tokens[..i + 1] == tokens[..i] + [tokens[i]];
      if tokens[i] != token && c in candidates[tokens[i]] {
        needed := true;
        break;
      }
    }
    assert needed <==> exists t :: t in tokens && t != token && c in candidates[t] by {
      assert tokens[..|tokens|] == tokens;
      assert forall i, t :: 0 <= i <= |tokens| && t in tokens[..i] ==> t in tokens;
    }
    for i := 0 to |goals|
      invariant needed <==> (exists t :: t in tokens && t != token && c in candidates[t]) || c in goals[..i]
    {
      assert goals[..i + 1] == goals[..i] + [goals[i]];
      if goals[i] == c {
        needed := true;
      }
    }
    assert goals[..|goals|] == goals;
    if c in required {
      needed := true;
    }
  }

  /** Pruning a token's unchosen satisfiers leaves the least closure, and every other token's satisfiers. */
  method PruneUnchosen(g: Graph, goals: seq<string>, required: set<string>, visited: set<string>, token: string,
                       valid: seq<string>, chosen: string, candidates: map<string, set<string>>,
                       ghost requirers: map<string, set<string>>, ghost least: set<string>, included: set<string>)
      returns (kept: set<string>)
    requires Searched(g, (set x | x in goals) + required, visited, candidates, requirers)
    requires LeastClosure(g, (set x | x in goals) + required, least) && least <= visited
    requires token in candidates && IsChoice(g, token, chosen) && (forall c :: c in valid ==> c in Candidates(g, token))
    requires least <= included
    ensures least <= kept <= included
    ensures forall t, c :: t in candidates && t != token && c in candidates[t] && c in included ==> c in kept
  {
    kept := included;
    for i := 0 to |valid|
      invariant least <= kept <= included
      invariant forall t, c :: t in candidates && t != token && c in candidates[t] && c in included ==> c in kept
    {
      var c := valid[i];
      if c != chosen {
        var needed := NeededElsewhere(c, token, goals, required, candidates);
        if !needed {
          PrunedIsOutside(g, (set x | x in goals) + required, visited, token, c, chosen, candidates, requirers, least);
          kept := kept - {c};
        }
      }
    }
  }

  lemma PrunedIsOutside(g: Graph, roots: set<string>, visited: set<string>, token: string, c: string, chosen: string,
                        candidates: map<string, set<string>>, requirers: map<string, set<string>>, least: set<string>)
    requires Searched(g, roots, visited, candidates, requirers) && LeastClosure(g, roots, least) && least <= visited
    requires IsChoice(g, token, chosen) && c != chosen && c !in roots
    requires forall t :: t in candidates && t != token ==> c !in candidates[t]
    ensures c !in least
  {
    forall m | m in least ensures !Pulls(g, m, c) {
      forall t | t in Asks(g, m) ensures !IsChoice(g, t, c) {
        assert t in candidates;
        if t == token && IsChoice(g, token, c) {
          OneChoice(g, token, c, chosen);
        }
      }
    }
    UnpulledIsOutside(g, roots, least, c);
  }

  ghost predicate RealEdges(g: Graph, visited: set<string>, done: seq<string>, edges: seq<RequiresEdge>) {
    forall e :: e in edges ==> IsRequiresEdge(g, visited, e) && e.token in done
  }

  ghost predicate HasLeastEdges(g: Graph, least: set<string>, done: seq<string>, edges: seq<RequiresEdge>) {
    forall e :: IsRequiresEdge(g, least, e) && e.token in done ==> e in edges
  }

  /** Links the chosen satisfier to every included requirer of a token. */
  method LinkRequirers(g: Graph, visited: set<string>, token: string, chosen: string, requirers: set<string>,
                       included: set<string>, edges: seq<RequiresEdge>, ghost least: set<string>,
                       ghost done: seq<string>)
      returns (edges': seq<RequiresEdge>)
    requires IsChoice(g, token, chosen) && requirers == Requirers(g, visited, token) && token !in done
    requires least <= included && least <= visited
    requires Distinct(edges) && RealEdges(g, visited, done, edges) && HasLeastEdges(g, least, done, edges)
    requires ByToken(edges) && forall t :: t in done ==> NameLess(t, token)
    ensures Distinct(edges') && RealEdges(g, visited, done + [token], edges')
      && HasLeastEdges(g, least, done + [token], edges')
    ensures ByToken(edges')
  {
    hide ByToken;
    NoneBehind(g, visited, done, edges, token);
    var walked := Walk(requirers);
    edges' := edges;
    for i := 0 to |walked|
      invariant Distinct(edges') && RealEdges(g, visited, done + [token], edges')
      invariant ByToken(edges') && forall e :: e in edges' ==> !NameLess(token, e.token)
      invariant forall e :: e in edges ==> e in edges'
      invariant forall e :: e in edges' && e !in edges ==> e.token == token && e.to in walked[..i]
      invariant forall r :: r in walked[..i] && r in included ==> RequiresEdge(chosen, r, token) in edges'
    {
      assert walked[i] in walked && walked[i] !in walked[..i];
      assert walked[..i + 1] == walked[..i] + [walked[i]];
      if walked[i] in included {
        DistinctAppend(edges', RequiresEdge(chosen, walked[i], token));
        ByTokenAppend(edges', RequiresEdge(chosen, walked[i], token));
        edges' := edges' + [RequiresEdge(chosen, walked[i], token)];
      }
    }
    assert walked[..|walked|] == walked;
    forall e | IsRequiresEdge(g, least, e) && e.token in done + [token] ensures e in edges' {
      if e.token == token {
        OneChoice(g, token, e.from, chosen);
        assert e.to in walked;
      }
    }
  }

  lemma NoneBehind(g: Graph, visited: set<string>, done: seq<string>, edges: seq<RequiresEdge>, token: string)
    requires RealEdges(g, visited, done, edges) && forall t :: t in done ==> NameLess(t, token)
    ensures !NameLess(token, token) && forall e :: e in edges ==> !NameLess(token, e.token)
  {
    NameIrreflexive(token);
    forall e | e in edges ensures !NameLess(token, e.token) {
      if NameLess(token, e.token) {
        NameTransitive(token, e.token, token);
      }
    }
  }

  /** Picks one satisfier for every token, tells of it, links it, and prunes the rest. */
  method ResolveTokens(g: Graph, goals: seq<string>, required: set<string>, visited: set<string>,
                       candidates: map<string, set<string>>, requirers: map<string, set<string>>,
                       ghost least: set<string>)
      returns (included: set<string>, edges: seq<RequiresEdge>, decisions: seq<Decision>, ghost tokens: seq<string>)
    requires Searched(g, (set x | x in goals) + required, visited, candidates, requirers)
    requires LeastClosure(g, (set x | x in goals) + required, least) && least <= visited
    ensures (forall t :: t in tokens <==> t in candidates) && ChoicesAre(g, tokens, decisions)
    ensures least <= included <= visited
    ensures Distinct(edges) && (forall e :: e in edges ==> IsRequiresEdge(g, visited, e))
    ensures ByToken(edges) && forall e :: IsRequiresEdge(g, least, e) ==> e in edges
  {
    hide LeastClosure, RealEdges, HasLeastEdges, IsRequiresEdge, ChoicesAre, Searched, Ascending, ByToken;
    included, edges, decisions := visited, [], [];
    NoEdges(g, visited, least);
    AllThere(g, goals, required, visited, candidates, requirers);
    var sorted := SortedKeys(candidates.Keys);
    tokens := sorted;
    for i := 0 to |sorted|
      invariant least <= included <= visited
      invariant forall t :: t in tokens[i..] ==> Candidates(g, t) <= included
      invariant ChoicesAre(g, tokens[..i], decisions)
      invariant Distinct(edges) && RealEdges(g, visited, tokens[..i], edges)
        && HasLeastEdges(g, least, tokens[..i], edges) && ByToken(edges)
    {
      var token := sorted[i];
      assert token in tokens && token in tokens[i..] && token !in tokens[..i];
      assert tokens[..i + 1] == tokens[..i] + [token];
      included, edges, decisions :=
        ResolveToken(g, goals, required, visited, token, candidates, requirers, least, included, edges, decisions,
          tokens[..i]);
      assert forall t :: t in tokens[i + 1..] ==> t in tokens[i..] && t in tokens && t != token;
    }
    assert tokens[..|tokens|] == tokens;
    AllEdges(g, goals, required, visited, candidates, requirers, least, tokens, edges);
  }

  /** Nothing has been pruned yet. */
  lemma AllThere(g: Graph, goals: seq<string>, required: set<string>, visited: set<string>,
                 candidates: map<string, set<string>>, requirers: map<string, set<string>>)
    requires Searched(g, (set x | x in goals) + required, visited, candidates, requirers)
    ensures forall t :: t in candidates ==> candidates[t] == Candidates(g, t) && Candidates(g, t) <= visited
  {
  }

  lemma NoEdges(g: Graph, visited: set<string>, least: set<string>)
    ensures RealEdges(g, visited, [], []) && HasLeastEdges(g, least, [], []) && ChoicesAre(g, [], []) && ByToken([])
  {
  }

  lemma AllEdges(g: Graph, goals: seq<string>, required: set<string>, visited: set<string>,
                 candidates: map<string, set<string>>, requirers: map<string, set<string>>, least: set<string>,
                 tokens: seq<string>, edges: seq<RequiresEdge>)
    requires Searched(g, (set x | x in goals) + required, visited, candidates, requirers) && least <= visited
    requires RealEdges(g, visited, tokens, edges) && HasLeastEdges(g, least, tokens, edges)
      && forall t :: t in candidates ==> t in tokens
    ensures forall e :: e in edges ==> IsRequiresEdge(g, visited, e)
    ensures forall e :: IsRequiresEdge(g, least, e) ==> e in edges
  {
  }

  /** Tells of a choice, where there was one to make. */
  method NoteDecision(ghost g: Graph, token: string, valid: seq<string>, chosen: string, decisions: seq<Decision>,
                      ghost done: seq<string>)
      returns (decisions': seq<Decision>)
    requires ChoicesAre(g, done, decisions) && IsChoice(g, token, chosen)
      && (forall t :: t in done ==> NameLess(t, token))
    requires Ascending(valid) && forall c :: c in valid <==> c in Candidates(g, token)
    ensures ChoicesAre(g, done + [token], decisions')
  {
    if |valid| > 1 {
      var alternatives := Others(valid, chosen);
      assert valid[0] in valid && valid[1] in valid;
      NameIrreflexive(valid[0]);
      assert alternatives != [] by {
        assert valid[0] in alternatives || valid[1] in alternatives;
      }
      var d := Chose(token, chosen, alternatives);
      ChoiceNoted(g, done, decisions, d);
      decisions' := decisions + [d];
    } else {
      assert forall c :: c in valid ==> c == chosen;
      NoChoiceNoted(g, done, decisions, token, chosen);
      decisions' := decisions;
    }
  }

  method Others(valid: seq<string>, chosen: string) returns (others: seq<string>)
    requires Ascending(valid)
    ensures Ascending(others) && forall c :: c in others <==> c in valid && c != chosen
  {
    others := [];
    for i := 0 to |valid|
      invariant Ascending(others) && forall c :: c in others <==> c in valid[..i] && c != chosen
    {
      assert valid[..i + 1] == valid[..i] + [valid[i]];
      if valid[i] != chosen {
        OneAfter(valid, i, others);
        others := others + [valid[i]];
      }
    }
    assert valid[..|valid|] == valid;
  }

  lemma OneAfter(valid: seq<string>, i: nat, others: seq<string>)
    requires Ascending(valid) && i < |valid| && Ascending(others) && forall c :: c in others ==> c in valid[..i]
    ensures Ascending(others + [valid[i]])
  {
    forall k | 0 <= k < |others| ensures NameLess(others[k], valid[i]) {
      assert others[k] in others;
    }
  }

  method ResolveToken(g: Graph, goals: seq<string>, required: set<string>, visited: set<string>, token: string,
                      candidates: map<string, set<string>>, requirers: map<string, set<string>>,
                      ghost least: set<string>, included: set<string>, edges: seq<RequiresEdge>,
                      decisions: seq<Decision>, ghost done: seq<string>)
      returns (included': set<string>, edges': seq<RequiresEdge>, decisions': seq<Decision>)
    requires Searched(g, (set x | x in goals) + required, visited, candidates, requirers)
    requires LeastClosure(g, (set x | x in goals) + required, least) && least <= included <= visited
    requires token in candidates && Candidates(g, token) <= included && forall t :: t in done ==> NameLess(t, token)
    requires ChoicesAre(g, done, decisions)
    ensures ChoicesAre(g, done + [token], decisions')
    requires Distinct(edges) && RealEdges(g, visited, done, edges) && HasLeastEdges(g, least, done, edges)
    requires ByToken(edges)
    ensures ByToken(edges')
    ensures least <= included' <= included
    ensures forall t, c :: t in candidates && t != token && c in candidates[t] && c in included ==> c in included'
    ensures Distinct(edges') && RealEdges(g, visited, done + [token], edges')
      && HasLeastEdges(g, least, done + [token], edges')
  {
    // The candidates still included, which is all of them: another token pruned only what this one does not list.
    hide ChoicesAre;
    if token in done {
      NameIrreflexive(token);
    }
    var valid := SortedKeys(set c | c in candidates[token] && c in included);
    if |valid| == 0 {
      forall c ensures c !in Candidates(g, token) {
        assert c in valid <==> c in Candidates(g, token);
      }
      NoChoiceNoted(g, done, decisions, token, "");
      return included, edges, decisions;
    }
    assert forall c :: c in valid <==> c in Candidates(g, token);
    var chosen := PickSatisfier(valid, g, token);
    decisions' := NoteDecision(g, token, valid, chosen, decisions, done);
    edges' := LinkRequirers(g, visited, token, chosen, requirers[token], included, edges, least, done);
    included' := PruneUnchosen(g, goals, required, visited, token, valid, chosen, candidates, requirers,
      least, included);
  }

  // ---------- The reachability pass ----------

  function Sources(edges: seq<RequiresEdge>, to: string): set<string> {
    set e | e in edges && e.to == to :: e.from
  }

  function Upstream(reverseAdj: map<string, set<string>>, node: string): set<string> {
    if node in reverseAdj then reverseAdj[node] else {}
  }

  lemma SourcesAfter(edges: seq<RequiresEdge>, e: RequiresEdge, n: string)
    ensures Sources(edges + [e], n) == Sources(edges, n) + (if n == e.to then {e.from} else {})
  {
    forall x ensures x in Sources(edges + [e], n) <==> x in Sources(edges, n) + (if n == e.to then {e.from} else {}) {
      if x in Sources(edges, n) {
        var d :| d in edges && d.to == n && d.from == x;
        assert d in edges + [e];
      }
      if n == e.to && x == e.from {
        assert e in edges + [e];
      }
    }
  }

  method ReverseAdjacency(edges: seq<RequiresEdge>) returns (reverseAdj: map<string, set<string>>)
    ensures forall n :: Upstream(reverseAdj, n) == Sources(edges, n)
  {
    reverseAdj := map[];
    for i := 0 to |edges|
      invariant forall n :: Upstream(reverseAdj, n) == Sources(edges[..i], n)
    {
      var e := edges[i];
      assert edges[..i + 1] == edges[..i] + [e];
      ghost var was := reverseAdj;
      reverseAdj := reverseAdj[e.to := Upstream(reverseAdj, e.to) + {e.from}];
      forall n ensures Upstream(reverseAdj, n) == Sources(edges[..i + 1], n) {
        SourcesAfter(edges[..i], e, n);
        assert Upstream(was, n) == Sources(edges[..i], n);
      }
    }
    assert edges[..|edges|] == edges;
  }

  ghost predicate StaysInside(edges: seq<RequiresEdge>, roots: set<string>, s: set<string>) {
    roots <= s && forall e :: e in edges && e.to in s ==> e.from in s
  }

  method ComputeReachable(goals: seq<string>, required: set<string>, edges: seq<RequiresEdge>,
                          ghost inside: set<string>) returns (reachable: set<string>)
    requires StaysInside(edges, (set x | x in goals) + required, inside)
    ensures StaysInside(edges, (set x | x in goals) + required, reachable) && reachable <= inside
  {
    ghost var roots := (set x | x in goals) + required;
    var reverseAdj := ReverseAdjacency(edges);
    var walked := Walk(required);
    var queue := goals + walked;
    reachable := {};
    while |queue| > 0
      invariant forall x :: x in roots ==> x in reachable || x in queue
      invariant reachable <= inside && forall x :: x in queue ==> x in inside
      invariant forall n, m :: n in reachable && m in Upstream(reverseAdj, n) ==> m in reachable || m in queue
      decreases inside - reachable, |queue|
    {
      var node, rest := queue[0], queue[1..];
      assert queue == [node] + rest;
      if node in reachable {
        queue := rest;
      } else {
        assert node in queue;
        reachable := reachable + {node};
        var up := Walk(set m | m in Upstream(reverseAdj, node) && m !in reachable);
        assert forall m :: m in Upstream(reverseAdj, node) ==> m in inside;
        queue := rest + up;
      }
    }
    forall e | e in edges && e.to in reachable ensures e.from in reachable {
      assert e.from in Sources(edges, e.to);
    }
  }

  /** The nodes left, and the edges left between them. */
  method KeepReachable(g: Graph, goals: seq<string>, required: set<string>, visited: set<string>, included: set<string>,
                       edges: seq<RequiresEdge>, ghost least: set<string>)
      returns (kept: set<string>, keptEdges: seq<RequiresEdge>)
    requires LeastClosure(g, (set x | x in goals) + required, least) && least <= included <= visited
    requires Distinct(edges) && (forall e :: e in edges ==> IsRequiresEdge(g, visited, e))
    requires ByToken(edges) && forall e :: IsRequiresEdge(g, least, e) ==> e in edges
    ensures kept == least
    ensures ByToken(keptEdges) && Distinct(keptEdges) && forall e :: e in keptEdges <==> IsRequiresEdge(g, kept, e)
  {
    ghost var roots := (set x | x in goals) + required;
    forall e | e in edges && e.to in least ensures e.from in least {
      assert Pulls(g, e.to, e.from);
    }
    var reachable := ComputeReachable(goals, required, edges, least);
    forall n, c | n in reachable && Pulls(g, n, c) ensures c in reachable {
      var t :| t in Asks(g, n) && IsChoice(g, t, c);
      assert IsRequiresEdge(g, least, RequiresEdge(c, n, t));
    }
    assert ClosedUnderChoice(g, roots, reachable);
    kept := set n | n in included && n in reachable;
    keptEdges := [];
    for i := 0 to |edges|
      invariant Distinct(keptEdges) && ByToken(keptEdges)
      invariant forall e :: e in keptEdges <==> e in edges[..i] && e.from in kept && e.to in kept
    {
      assert edges[..i + 1] == edges[..i] + [edges[i]];
      assert edges[i] !in edges[..i];
      if edges[i].from in kept && edges[i].to in kept {
        forall e | e in keptEdges ensures !NameLess(edges[i].token, e.token) {
          var j :| 0 <= j < i && edges[j] == e;
        }
        DistinctAppend(keptEdges, edges[i]);
        ByTokenAppend(keptEdges, edges[i]);
        keptEdges := keptEdges + [edges[i]];
      }
    }
    assert edges[..|edges|] == edges;
    forall e | IsRequiresEdge(g, kept, e) ensures e in keptEdges {
      assert e in edges && Pulls(g, e.to, e.from);
    }
  }
}

/** The search phases of backward chaining (graph/chain.go): the walk back over every satisfier, the
    choice of one satisfier a token, the pruning, and the reachability pass. Go walks its maps in any
    order; the methods here take any element next, and their contracts leave the order no say. */
module ChainSearch {
  import opened TopoOrder
  import opened ChainGraph
  import opened ChainDecisions

  /** The elements of a set, in whatever order. */
  method Walk(s: set<string>) returns (order: seq<string>)
    ensures Distinct(order) && forall x :: x in order <==> x in s
  {
    order := [];
    var left := s;
    while left != {}
      invariant left <= s && Distinct(order)
      invariant forall x :: x in order <==> x in s && x !in left
    {
      var x :| x in left;
      DistinctAppend(order, x);
      order, left := order + [x], left - {x};
    }
  }

  function Requirers(g: Graph, visited: set<string>, token: string): set<string> {
    set v | v in visited && token in Asks(g, v)
  }

  /** What the walk notes for each token: its satisfiers, and who among visited asks for it. */
  ghost predicate Noted(g: Graph, visited: set<string>, candidates: map<string, set<string>>,
                        requirers: map<string, set<string>>) {
    && candidates.Keys == requirers.Keys
    && (forall t :: t in candidates ==> candidates[t] == Candidates(g, t) && requirers[t] == Requirers(g, visited, t))
    && (forall v, t :: v in visited && t in Asks(g, v) ==> t in candidates)
  }

  ghost predicate AllAsked(g: Graph, visited: set<string>, candidates: map<string, set<string>>) {
    forall t :: t in candidates ==> Asked(g, visited, t)
  }

  /** Every noted satisfier has been visited or waits in the queue. */
  ghost predicate Spread(candidates: map<string, set<string>>, visited: set<string>, queue: seq<string>) {
    forall t, c :: t in candidates && c in candidates[t] ==> c in visited || c in queue
  }

  /** Notes one token of node v, and queues its satisfiers. */
  method NoteToken(g: Graph, ghost seen: set<string>, visited: set<string>, v: string, token: string,
                   queue: seq<string>, candidates: map<string, set<string>>, requirers: map<string, set<string>>)
      returns (queue': seq<string>, candidates': map<string, set<string>>, requirers': map<string, set<string>>)
    requires candidates.Keys == requirers.Keys && Candidates(g, token) <= seen
    requires forall x :: x in queue ==> x in seen
    requires token in candidates ==> candidates[token] == Candidates(g, token)
    ensures queue <= queue' && forall x :: x in queue' ==> x in seen
    ensures forall c :: c in Candidates(g, token) ==> c in visited || c in queue'
    ensures candidates' == candidates[token := Candidates(g, token)]
    ensures requirers' == requirers[token := (if token in requirers then requirers[token] else {}) + {v}]
  {
    requirers' := requirers[token := (if token in requirers then requirers[token] else {}) + {v}];
    var satisfiers := if token in g.satisfiersByToken then g.satisfiersByToken[token] else [];
    var found := if token in candidates then candidates[token] else {};
    queue' := queue;
    for i := 0 to |satisfiers|
      invariant found == (if token in candidates then candidates[token] else {}) + set s | s in satisfiers[..i]
      invariant queue <= queue' && forall x :: x in queue' ==> x in seen
      invariant forall c :: c in satisfiers[..i] ==> c in visited || c in queue'
    {
      var s := satisfiers[i];
      assert satisfiers[..i + 1] == satisfiers[..i] + [s];
      assert s in satisfiers && s in Candidates(g, token);
      found := found + {s};
      if s !in visited {
        queue' := queue' + [s];
      }
    }
    assert satisfiers[..|satisfiers|] == satisfiers;
    assert found == Candidates(g, token);
    candidates' := candidates[token := found];
  }

  /** The notes once the first tokens of v are in. */
  ghost predicate PartNoted(g: Graph, visited: set<string>, v: string, seen: seq<string>,
                            candidates: map<string, set<string>>, requirers: map<string, set<string>>)
  {
    && candidates.Keys == requirers.Keys
    && (forall t :: t in candidates ==> candidates[t] == Candidates(g, t))
    && (forall t :: t in candidates ==> requirers[t] == Requirers(g, visited, t) + (if t in seen then {v} else {}))
    && (forall u, t :: u in visited && t in Asks(g, u) ==> t in candidates)
    && (forall t :: t in seen ==> t in candidates)
  }

  method VisitNode(g: Graph, ghost roots: set<string>, ghost seen: set<string>, visited: set<string>, v: string,
                   queue: seq<string>, candidates: map<string, set<string>>, requirers: map<string, set<string>>,
                   decisions: seq<Decision>)
      returns (queue': seq<string>, candidates': map<string, set<string>>, requirers': map<string, set<string>>,
        decisions': seq<Decision>)
    requires v !in visited && ClosedUnderAll(g, roots, seen) && v in seen
    requires BreaksAre(g, visited, decisions)
    ensures BreaksAre(g, visited + {v}, decisions')
    requires AllAsked(g, visited, candidates)
    ensures AllAsked(g, visited + {v}, candidates')
    requires Noted(g, visited, candidates, requirers) && Spread(candidates, visited, [v] + queue)
    requires forall x :: x in queue ==> x in seen
    ensures Noted(g, visited + {v}, candidates', requirers') && Spread(candidates', visited + {v}, queue')
    ensures queue <= queue' && forall x :: x in queue' ==> x in seen
  {
    hide BreaksAre, ClosedUnderAll, AllAsked;
    queue', candidates', requirers', decisions' := queue, candidates, requirers, decisions;
    BreakNoted(g, visited, v, decisions);
    if v in g.nodes && g.nodes[v].cycleBreaker {
      decisions' := decisions + [CycleBreak(v)];
      NothingAsked(g, visited, v, queue, candidates, requirers);
      AskedMore(g, visited, v, candidates);
      return; // don't traverse upstream
    }
    var tokens := if v in g.nodes then g.nodes[v].needs else [];
    AskedMore(g, visited, v, candidates);
    for i := 0 to |tokens|
      invariant AllAsked(g, visited + {v}, candidates')
      invariant PartNoted(g, visited, v, tokens[..i], candidates', requirers')
      invariant queue <= queue' && forall x :: x in queue' ==> x in seen
      invariant Spread(candidates', visited + {v}, queue')
    {
      assert tokens[..i + 1] == tokens[..i] + [tokens[i]];
      ghost var was := queue';
      CandidatesSeen(g, roots, seen, v, tokens[i]);
      AskedToo(g, visited, v, tokens[i], candidates');
      var noted, asked;
      queue', noted, asked := NoteToken(g, seen, visited + {v}, v, tokens[i], queue', candidates', requirers');
      NotedOneMore(g, visited, v, tokens[..i], tokens[i], candidates', requirers');
      candidates', requirers' := noted, asked;
      assert forall x :: x in was ==> x in queue';
    }
    assert tokens[..|tokens|] == tokens == Asks(g, v);
    WholeNodeNoted(g, visited, v, candidates', requirers');
  }

  lemma AskedMore(g: Graph, visited: set<string>, v: string, candidates: map<string, set<string>>)
    requires AllAsked(g, visited, candidates)
    ensures AllAsked(g, visited + {v}, candidates)
  {
    forall t | t in candidates ensures Asked(g, visited + {v}, t) {
      assert Asked(g, visited, t);
      var n :| n in visited && t in Asks(g, n);
      assert n in visited + {v};
    }
  }

  lemma AskedToo(g: Graph, visited: set<string>, v: string, token: string, candidates: map<string, set<string>>)
    requires AllAsked(g, visited + {v}, candidates) && token in Asks(g, v)
    ensures AllAsked(g, visited + {v}, candidates[token := Candidates(g, token)])
  {
    assert v in visited + {v};
  }

  lemma NothingAsked(g: Graph, visited: set<string>, v: string, queue: seq<string>,
                     candidates: map<string, set<string>>, requirers: map<string, set<string>>)
    requires Asks(g, v) == [] && Noted(g, visited, candidates, requirers) && Spread(candidates, visited, [v] + queue)
    ensures Noted(g, visited + {v}, candidates, requirers) && Spread(candidates, visited + {v}, queue)
  {
    forall t ensures Requirers(g, visited + {v}, t) == Requirers(g, visited, t) {
    }
  }

  lemma NotedOneMore(g: Graph, visited: set<string>, v: string, seen: seq<string>, token: string,
                     candidates: map<string, set<string>>, requirers: map<string, set<string>>)
    requires PartNoted(g, visited, v, seen, candidates, requirers)
    requires token in Asks(g, v)
    ensures PartNoted(g, visited, v, seen + [token], candidates[token := Candidates(g, token)],
                      requirers[token := (if token in requirers then requirers[token] else {}) + {v}])
  {
    if token !in candidates {
      assert Requirers(g, visited, token) == {};
    }
  }

  lemma WholeNodeNoted(g: Graph, visited: set<string>, v: string, candidates: map<string, set<string>>,
                       requirers: map<string, set<string>>)
    requires PartNoted(g, visited, v, Asks(g, v), candidates, requirers)
    ensures Noted(g, visited + {v}, candidates, requirers)
  {
    forall t ensures Requirers(g, visited + {v}, t)
        == Requirers(g, visited, t) + (if t in Asks(g, v) then {v} else {}) {
    }
  }

  /** Walks back from the goals and the required nodes over every satisfier. */
  method SearchBack(g: Graph, goals: seq<string>, required: set<string>)
      returns (visited: set<string>, candidates: map<string, set<string>>, requirers: map<string, set<string>>,
        decisions: seq<Decision>)
    ensures visited == Seen(g, (set x | x in goals) + required) && (set x | x in goals) + required <= visited
    ensures Noted(g, visited, candidates, requirers) && Spread(candidates, visited, [])
    ensures BreaksAre(g, visited, decisions) && AllAsked(g, visited, candidates)
  {
    ghost var roots := (set x | x in goals) + required;
    ghost var seen := Seen(g, roots);
    hide BreaksAre, Noted, Seen, AllAsked;
    SeenIsLeast(g, roots);
    var walked := Walk(required);
    var queue := goals + walked;
    visited, candidates, requirers, decisions := {}, map[], map[], [];
    NothingNoted(g);
    while |queue| > 0
      invariant forall x :: x in roots ==> x in visited || x in queue
      invariant visited <= seen && forall x :: x in queue ==> x in seen
      invariant Noted(g, visited, candidates, requirers) && Spread(candidates, visited, queue)
      invariant BreaksAre(g, visited, decisions) && AllAsked(g, visited, candidates)
      decreases seen - visited, |queue|
    {
      var v, rest := queue[0], queue[1..];
      assert queue == [v] + rest;
      if v in visited {
        queue := rest;
      } else {
        assert v in queue;
        queue, candidates, requirers, decisions :=
          VisitNode(g, roots, seen, visited, v, rest, candidates, requirers, decisions);
        visited := visited + {v};
      }
    }
    SearchedAll(g, roots, visited, candidates, requirers);
  }

  lemma CandidatesSeen(g: Graph, roots: set<string>, seen: set<string>, v: string, token: string)
    requires ClosedUnderAll(g, roots, seen) && v in seen && token in Asks(g, v)
    ensures Candidates(g, token) <= seen
  {
  }

  lemma NothingNoted(g: Graph)
    ensures Noted(g, {}, map[], map[]) && Spread(map[], {}, []) && BreaksAre(g, {}, []) && AllAsked(g, {}, map[])
  {
  }

  lemma SearchedAll(g: Graph, roots: set<string>, visited: set<string>, candidates: map<string, set<string>>,
                    requirers: map<string, set<string>>)
    requires roots <= visited && Noted(g, visited, candidates, requirers) && Spread(candidates, visited, [])
    ensures ClosedUnderAll(g, roots, visited)
  {
  }
}

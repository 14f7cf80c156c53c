/** The decisions backward chaining records (graph/chain.go ChainDecision): where its walk stopped, and
    which satisfiers it passed over. */
module ChainDecisions {
  import opened TopoOrder
  import opened Names
  import opened ChainGraph

  datatype Decision = CycleBreak(node: string) | Chose(token: string, node: string, alternatives: seq<string>)

  predicate IsBreaker(g: Graph, n: string) {
    n in g.nodes && g.nodes[n].cycleBreaker
  }

  /** decisions names the cycle-breakers among the visited nodes, each once. */
  ghost predicate BreaksAre(g: Graph, visited: set<string>, decisions: seq<Decision>) {
    && Distinct(decisions)
    && forall d :: d in decisions <==> d.CycleBreak? && d.node in visited && IsBreaker(g, d.node)
  }

  lemma BreakNoted(g: Graph, visited: set<string>, v: string, decisions: seq<Decision>)
    requires BreaksAre(g, visited, decisions) && v !in visited
    ensures IsBreaker(g, v) ==> BreaksAre(g, visited + {v}, decisions + [CycleBreak(v)])
    ensures !IsBreaker(g, v) ==> BreaksAre(g, visited + {v}, decisions)
  {
  }

  /** d tells of the satisfier chosen for its token, and lists the others in order. */
  ghost predicate TellsChoice(g: Graph, d: Decision)
    requires d.Chose?
  {
    && IsChoice(g, d.token, d.node) && d.alternatives != [] && Ascending(d.alternatives)
    && forall c :: c in d.alternatives <==> c in Candidates(g, d.token) && c != d.node
  }

  /** decisions tells, in the order of the tokens, of each one that has satisfiers to choose from. */
  ghost predicate ChoicesAre(g: Graph, tokens: seq<string>, decisions: seq<Decision>) {
    && (forall d :: d in decisions <==> d.Chose? && d.token in tokens && TellsChoice(g, d))
    && TokensAscend(decisions)
  }

  ghost predicate TokensAscend(decisions: seq<Decision>) {
    forall i, j :: 0 <= i < j < |decisions|
      ==> decisions[i].Chose? && decisions[j].Chose? && NameLess(decisions[i].token, decisions[j].token)
  }

  lemma {:induction false} AscendingAgree(s: seq<string>, t: seq<string>)
    requires Ascending(s) && Ascending(t) && forall x :: x in s <==> x in t
    ensures s == t
  {
    assert s == [] <==> t == [] by {
      if s != [] {
        assert s[0] in t;
      }
      if t != [] {
        assert t[0] in s;
      }
    }
    if s != [] {
      var m, n := |s| - 1, |t| - 1;
      LastAgree(s, t);
      forall x ensures x in s[..m] <==> x in t[..n] {
        BeforeLast(s, x);
        BeforeLast(t, x);
      }
      AscendingAgree(s[..m], t[..n]);
      assert s == s[..m] + [s[m]] && t == t[..n] + [t[n]];
    }
  }

  lemma LastAgree(s: seq<string>, t: seq<string>)
    requires Ascending(s) && Ascending(t) && (forall x :: x in s <==> x in t) && s != [] && t != []
    ensures s[|s| - 1] == t[|t| - 1]
  {
    var a, b := s[|s| - 1], t[|t| - 1];
    assert a in t && b in s;
    if NameLess(a, b) && NameLess(b, a) {
      NameTransitive(a, b, a);
    }
    NameIrreflexive(a);
  }

  lemma BeforeLast(s: seq<string>, x: string)
    requires Ascending(s) && s != []
    ensures x in s[..|s| - 1] <==> x in s && x != s[|s| - 1]
  {
    AscendingIsDistinct(s);
  }

  lemma OneTelling(g: Graph, d: Decision, e: Decision)
    requires d.Chose? && e.Chose? && d.token == e.token && TellsChoice(g, d) && TellsChoice(g, e)
    ensures d == e
  {
    OneChoice(g, d.token, d.node, e.node);
    AscendingAgree(d.alternatives, e.alternatives);
  }

  lemma ChoiceNoted(g: Graph, tokens: seq<string>, decisions: seq<Decision>, d: Decision)
    requires ChoicesAre(g, tokens, decisions) && d.Chose? && TellsChoice(g, d)
    requires forall t :: t in tokens ==> NameLess(t, d.token)
    ensures ChoicesAre(g, tokens + [d.token], decisions + [d])
  {
    forall e: Decision | e.Chose? && e.token == d.token && TellsChoice(g, e) ensures e == d {
      OneTelling(g, d, e);
    }
    forall i | 0 <= i < |decisions| ensures decisions[i].Chose? && NameLess(decisions[i].token, d.token) {
      assert decisions[i] in decisions;
    }
  }

  /** A token with fewer than two satisfiers makes no decision. */
  lemma NoChoiceNoted(g: Graph, tokens: seq<string>, decisions: seq<Decision>, token: string, only: string)
    requires ChoicesAre(g, tokens, decisions) && Candidates(g, token) <= {only}
    ensures ChoicesAre(g, tokens + [token], decisions)
  {
    forall d: Decision | d.Chose? && d.token == token ensures !TellsChoice(g, d) {
      if d.alternatives != [] {
        assert d.alternatives[0] in d.alternatives;
      }
    }
  }

  predicate Asked(g: Graph, seen: set<string>, token: string) {
    exists n :: n in seen && token in Asks(g, n)
  }

  /** d tells of a cycle-breaker the walk came to, or of the choice for a token some node it came to asks for. */
  ghost predicate IsDecision(g: Graph, seen: set<string>, d: Decision) {
    if d.CycleBreak? then d.node in seen && IsBreaker(g, d.node) else Asked(g, seen, d.token) && TellsChoice(g, d)
  }

  /** The decisions are told once each, the cycle-breakers first, then the choices by token. */
  ghost predicate DecisionsAre(g: Graph, seen: set<string>, decisions: seq<Decision>) {
    && Distinct(decisions) && (forall d :: d in decisions <==> IsDecision(g, seen, d))
    && forall i, j :: 0 <= i < j < |decisions| && decisions[i].Chose?
         ==> decisions[j].Chose? && NameLess(decisions[i].token, decisions[j].token)
  }

  lemma DecisionsTold(g: Graph, seen: set<string>, breaks: seq<Decision>, tokens: seq<string>, choices: seq<Decision>)
    requires BreaksAre(g, seen, breaks) && ChoicesAre(g, tokens, choices)
      && forall t :: t in tokens <==> Asked(g, seen, t)
    ensures DecisionsAre(g, seen, breaks + choices)
  {
    forall i | 0 <= i < |breaks| ensures breaks[i].CycleBreak? {
      assert breaks[i] in breaks;
    }
    forall t ensures !NameLess(t, t) {
      NameIrreflexive(t);
    }
  }

  /** What is told of a choice c passed over for token. */
  lemma TellingOf(g: Graph, token: string, c: string, other: string) returns (d: Decision)
    requires IsChoice(g, token, c) && other in Candidates(g, token) && other != c
    ensures d.Chose? && d.token == token && d.node == c && TellsChoice(g, d) && other in d.alternatives
  {
    var rest := AscendingOf(Candidates(g, token) - {c});
    assert other in rest;
    d := Chose(token, c, rest);
  }

  lemma {:induction false} FirstOf(names: set<string>) returns (first: string)
    requires names != {}
    ensures first in names && forall x :: x in names && x != first ==> NameLess(first, x)
  {
    var x :| x in names;
    first := x;
    if names != {x} {
      assert names - {x} != {} by {
        assert names == {x} + (names - {x});
      }
      var next := FirstOf(names - {x});
      NameTotal(x, next);
      first := if NameLess(x, next) then x else next;
      forall y | y in names && y != first ensures NameLess(first, y) {
        if first == x && y != next {
          NameTransitive(x, next, y);
        }
      }
    } else {
      assert forall y :: y in names ==> y == x;
    }
  }

  lemma {:induction false} AscendingOf(names: set<string>) returns (s: seq<string>)
    ensures Ascending(s) && forall x :: x in s <==> x in names
  {
    s := [];
    if names != {} {
      var first := FirstOf(names);
      var rest := AscendingOf(names - {first});
      s := [first] + rest;
      forall i | 0 <= i < |rest| ensures NameLess(first, rest[i]) {
        assert rest[i] in rest;
      }
    }
  }
}

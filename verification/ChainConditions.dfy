/** A graph's conditions, evaluated: which count for a chain, which do not, and which cannot be told
    (graph/chain.go BackwardChain, its first phase). */
module ChainConditions {
  import opened ChainGraph
  import opened Sequences

  datatype Verdict = Holds | Fails | CannotEvaluate

  /** The injected predicate evaluator; with none, every condition counts as false. */
  datatype Evaluator = NoEvaluator | Evaluator(verdict: string -> Verdict)

  function VerdictOf(eval: Evaluator, c: Condition): Verdict {
    if eval.NoEvaluator? then Fails else eval.verdict(c.when)
  }

  /** The conditions with the given verdict, in the graph's order. */
  function With(conditions: seq<Condition>, eval: Evaluator, v: Verdict): seq<Condition> {
    if conditions == [] then []
    else
      var last := conditions[|conditions| - 1];
      With(conditions[..|conditions| - 1], eval, v) + (if VerdictOf(eval, last) == v then [last] else [])
  }

  function Whens(conditions: seq<Condition>): seq<string> {
    seq(|conditions|, i requires 0 <= i < |conditions| => conditions[i].when)
  }

  function RequiredBy(included: seq<Condition>): set<string> {
    set c, r | c in included && r in c.require :: r
  }

  // ---------- What they come to ----------

  lemma {:induction false} WithoutEvaluator(conditions: seq<Condition>)
    ensures With(conditions, NoEvaluator, Holds) == []
    ensures With(conditions, NoEvaluator, Fails) == conditions
    ensures With(conditions, NoEvaluator, CannotEvaluate) == []
  {
    if conditions != [] {
      WithoutEvaluator(conditions[..|conditions| - 1]);
      assert conditions == conditions[..|conditions| - 1] + [conditions[|conditions| - 1]];
    }
  }

  lemma {:induction false} WithPicks(conditions: seq<Condition>, eval: Evaluator, v: Verdict) returns (at: seq<nat>)
    requires eval.Evaluator?
    ensures PickedAt(conditions, With(conditions, eval, v), at)
    ensures forall k :: 0 <= k < |conditions| ==> (k in at <==> eval.verdict(conditions[k].when) == v)
  {
    at := [];
    if conditions != [] {
      var n := |conditions| - 1;
      at := WithPicks(conditions[..n], eval, v);
      at := PickedMore(conditions[..n], With(conditions[..n], eval, v), at, conditions[n],
        eval.verdict(conditions[n].when) == v);
      assert conditions == conditions[..n] + [conditions[n]];
      forall k | 0 <= k < |conditions| ensures k in at <==> eval.verdict(conditions[k].when) == v {
        if k < n {
          assert conditions[..n][k] == conditions[k];
        }
      }
    }
  }

  lemma WithHas(conditions: seq<Condition>, eval: Evaluator, v: Verdict, c: Condition)
    requires eval.Evaluator?
    ensures c in With(conditions, eval, v) <==> c in conditions && eval.verdict(c.when) == v
  {
    var at := WithPicks(conditions, eval, v);
    if c in With(conditions, eval, v) {
      var i :| 0 <= i < |at| && With(conditions, eval, v)[i] == c;
      assert at[i] in at;
    }
    if c in conditions && eval.verdict(c.when) == v {
      var k :| 0 <= k < |conditions| && conditions[k] == c;
      assert k in at;
      var i :| 0 <= i < |at| && at[i] == k;
      assert With(conditions, eval, v)[i] == c;
    }
  }

  /** Without an evaluator none is unevaluable; with one, those it cannot evaluate. */
  lemma Unevaluable(conditions: seq<Condition>, eval: Evaluator)
    ensures With(conditions, eval, CannotEvaluate) != [] <==>
            eval.Evaluator? && exists c :: c in conditions && eval.verdict(c.when) == CannotEvaluate
  {
    var bad := With(conditions, eval, CannotEvaluate);
    if eval.NoEvaluator? {
      WithoutEvaluator(conditions);
    } else {
      if bad != [] {
        WithHas(conditions, eval, CannotEvaluate, bad[0]);
      }
      forall c | c in conditions && eval.verdict(c.when) == CannotEvaluate ensures bad != [] {
        WithHas(conditions, eval, CannotEvaluate, c);
      }
    }
  }

  // ---------- As it runs ----------

  method EvaluateConditions(g: Graph, eval: Evaluator)
      returns (included: seq<Condition>, excluded: seq<Condition>, required: set<string>, errors: seq<string>)
    ensures included == With(g.conditions, eval, Holds) && excluded == With(g.conditions, eval, Fails)
    ensures required == RequiredBy(included)
    ensures errors == Whens(With(g.conditions, eval, CannotEvaluate))
  {
    included, excluded, required, errors := [], [], {}, [];
    var all := g.conditions;
    for i := 0 to |all|
      invariant included == With(all[..i], eval, Holds) && excluded == With(all[..i], eval, Fails)
      invariant required == RequiredBy(included)
      invariant errors == Whens(With(all[..i], eval, CannotEvaluate))
    {
      assert all[..i + 1][..i] == all[..i];
      match VerdictOf(eval, all[i]) {
        case Holds =>
          RequiredAlso(included, all[i]);
          included := included + [all[i]];
          required := required + set r | r in all[i].require;
        case Fails =>
          excluded := excluded + [all[i]];
        case CannotEvaluate =>
          errors := errors + [all[i].when];
      }
    }
    assert all[..|all|] == all;
  }

  lemma RequiredAlso(included: seq<Condition>, c: Condition)
    ensures RequiredBy(included + [c]) == RequiredBy(included) + set r | r in c.require
  {
    assert forall d :: d in included + [c] <==> d in included || d == c;
  }
}

/** Cycles among cleanup pairings (graph/cleanup_cycles.go). */
module CleanupCycles {
  import opened Names
  import opened TopoOrder

  /** Each node's cleanup node, or "" when it has none. */
  type Pairings = map<string, string>

  /** c is a cycle of pairings: each node's cleanup is the next, and the last's the first. */
  ghost predicate IsCycle(g: Pairings, c: seq<string>) {
    && c != [] && Distinct(c)
    && forall i: nat :: i < |c| ==> Leads(g, c, i)
  }

  predicate Leads(g: Pairings, c: seq<string>, i: nat)
    requires i < |c|
  {
    c[i] in g && c[i] != "" && g[c[i]] == if i + 1 < |c| then c[i + 1] else c[0]
  }

  /** path follows the pairings from its first node. */
  ghost predicate Follows(g: Pairings, path: seq<string>) {
    && (forall i: nat :: i < |path| ==> path[i] in g && path[i] != "")
    && forall i: nat :: i + 1 < |path| ==> NextIs(g, path, i)
  }

  predicate NextIs(g: Pairings, path: seq<string>, i: nat)
    requires i + 1 < |path|
  {
    path[i] in g && g[path[i]] == path[i + 1]
  }

  /** The cycle that begins with its alphabetically first node. */
  ghost predicate IsCanonical(c: seq<string>) {
    c != [] && forall i :: 0 < i < |c| ==> NameLess(c[0], c[i])
  }

  /** The node of least name, where it first stands. */
  method FirstName(cycle: seq<string>) returns (first: nat)
    requires cycle != []
    ensures first < |cycle| && forall i :: 0 <= i < |cycle| ==> !NameLess(cycle[i], cycle[first])
  {
    first := 0;
    NameIrreflexive(cycle[0]);
    for i := 0 to |cycle|
      invariant first < |cycle| && (i == 0 ==> first == 0)
      invariant forall k :: 0 <= k < i || k == first ==> !NameLess(cycle[k], cycle[first])
    {
      if NameLess(cycle[i], cycle[first]) {
        NameIrreflexive(cycle[i]);
        forall k | 0 <= k < i ensures !NameLess(cycle[k], cycle[i]) {
          if NameLess(cycle[k], cycle[i]) {
            NameTransitive(cycle[k], cycle[i], cycle[first]);
          }
        }
        first := i;
      }
    }
  }

  /** Turns a cycle round to begin at its alphabetically first node. */
  method FormatCycle(g: Pairings, cycle: seq<string>) returns (r: seq<string>)
    requires IsCycle(g, cycle)
    ensures IsCycle(g, r) && IsCanonical(r) && |r| == |cycle|
    ensures IsCanonical(cycle) ==> r == cycle
  {
    var first := FirstName(cycle);
    r := cycle[first..] + cycle[..first];
    Rotated(g, cycle, first);
    RotatedIsCanonical(cycle, first);
    assert first == 0 ==> r == cycle;
  }

  lemma Rotated(g: Pairings, c: seq<string>, n: nat)
    requires IsCycle(g, c) && n < |c|
    ensures IsCycle(g, c[n..] + c[..n])
  {
    var r := c[n..] + c[..n];
    forall i: nat | i < |r| ensures r[i] == c[if n + i < |c| then n + i else n + i - |c|] {
    }
    forall i: nat | i < |r| ensures Leads(g, r, i) {
      var k := if n + i < |c| then n + i else n + i - |c|;
      assert Leads(g, c, k);
    }
  }

  lemma RotatedIsCanonical(c: seq<string>, n: nat)
    requires n < |c| && Distinct(c) && forall i :: 0 <= i < |c| ==> !NameLess(c[i], c[n])
    ensures IsCanonical(c[n..] + c[..n])
  {
    var r := c[n..] + c[..n];
    forall i | 0 < i < |r| ensures NameLess(r[0], r[i]) {
      var k := if n + i < |c| then n + i else n + i - |c|;
      assert r[i] == c[k] && k != n;
      NameTotal(c[n], c[k]);
    }
  }

  // ---------- Following the pairings ----------

  /** path, and where it goes next. */
  ghost predicate Walked(g: Pairings, start: string, path: seq<string>, cur: string) {
    && Follows(g, path) && Distinct(path)
    && (if path == [] then cur == start else path[0] == start && path[|path| - 1] in g && g[path[|path| - 1]] == cur)
  }

  /** onPath says where each node of path stands in it. */
  ghost predicate Indexed(path: seq<string>, onPath: map<string, nat>) {
    && (forall n :: n in onPath ==> onPath[n] < |path| && path[onPath[n]] == n)
    && (forall i :: 0 <= i < |path| ==> path[i] in onPath)
  }

  /** A walk from the first node of cycle c goes along c. */
  ghost predicate Along(g: Pairings, c: seq<string>, path: seq<string>, cur: string) {
    |path| <= |c| && path == c[..|path|] && c != [] && cur == if |path| < |c| then c[|path|] else c[0]
  }

  ghost predicate AlongAll(g: Pairings, start: string, path: seq<string>, cur: string) {
    forall c :: IsCycle(g, c) && c[0] == start ==> Along(g, c, path, cur)
  }

  lemma WalksOn(g: Pairings, start: string, path: seq<string>, cur: string)
    requires Walked(g, start, path, cur) && AlongAll(g, start, path, cur) && cur in g && cur != "" && cur !in path
    ensures Walked(g, start, path + [cur], g[cur]) && AlongAll(g, start, path + [cur], g[cur])
  {
    var p := path + [cur];
    forall i: nat | i + 1 < |p| ensures NextIs(g, p, i) {
      if i + 1 < |path| {
        assert NextIs(g, path, i);
      }
    }
    forall c | IsCycle(g, c) && c[0] == start ensures Along(g, c, p, g[cur]) {
      AlongOn(g, c, path, cur);
    }
  }

  lemma BackAtTheStart(c: seq<string>, path: seq<string>, cur: string, g: Pairings)
    requires Along(g, c, path, cur) && |path| == |c|
    ensures cur in path
  {
    assert path[0] == cur;
  }

  lemma AlongOn(g: Pairings, c: seq<string>, path: seq<string>, cur: string)
    requires IsCycle(g, c) && Along(g, c, path, cur) && cur in g && cur !in path
    ensures Along(g, c, path + [cur], g[cur])
  {
    if |path| == |c| {
      BackAtTheStart(c, path, cur, g);
    }
    assert Leads(g, c, |path|);
    assert c[..|path| + 1] == path + [cur];
  }

  /** The walk came back to the node at i of its path. */
  lemma CameBack(g: Pairings, start: string, path: seq<string>, cur: string, i: nat)
    requires Walked(g, start, path, cur) && i < |path| && path[i] == cur
    ensures IsCycle(g, path[i..])
  {
    var c := path[i..];
    forall k: nat | k < |c| ensures Leads(g, c, k) {
      if k + 1 < |c| {
        assert NextIs(g, path, i + k);
      }
    }
  }

  lemma CycleIsWhole(g: Pairings, start: string, path: seq<string>, cur: string, i: nat, c: seq<string>)
    requires Walked(g, start, path, cur) && i < |path| && path[i] == cur && IsCycle(g, c) && Along(g, c, path, cur)
    ensures path[i..] == c
  {
    assert c[..|path|][i] == c[i];
    assert i == 0;
    assert path[0..] == path && c[..|c|] == c;
  }

  lemma CycleGoesOn(g: Pairings, c: seq<string>, path: seq<string>, cur: string)
    requires IsCycle(g, c) && Along(g, c, path, cur)
    ensures cur in g && cur != ""
  {
    assert Leads(g, c, if |path| < |c| then |path| else 0);
  }

  lemma CyclesGoOn(g: Pairings, start: string, path: seq<string>, cur: string)
    requires AlongAll(g, start, path, cur)
    ensures forall c :: IsCycle(g, c) && c[0] == start ==> cur in g && cur != ""
  {
    forall c | IsCycle(g, c) && c[0] == start ensures cur in g && cur != "" {
      CycleGoesOn(g, c, path, cur);
    }
  }

  /** Follows the pairings from start until they end or come back; the cycle they come back on, or []. */
  method FollowFrom(g: Pairings, start: string) returns (cycle: seq<string>)
    ensures cycle == [] || IsCycle(g, cycle)
    ensures forall c :: IsCycle(g, c) && c[0] == start ==> cycle == c
  {
    var path: seq<string>, onPath: map<string, nat>, cur := [], map[], start;
    while cur != ""
      invariant Walked(g, start, path, cur) && Indexed(path, onPath) && AlongAll(g, start, path, cur)
      decreases |g.Keys - onPath.Keys|
    {
      if cur !in g {
        CyclesGoOn(g, start, path, cur);
        return [];
      }
      if cur in onPath {
        var i := onPath[cur];
        CameBack(g, start, path, cur, i);
        forall c | IsCycle(g, c) && c[0] == start ensures path[i..] == c {
          CycleIsWhole(g, start, path, cur, i, c);
        }
        return path[i..];
      }
      WalksOn(g, start, path, cur);
      FewerLeft(g.Keys, onPath.Keys, cur);
      onPath := onPath[cur := |path|];
      path := path + [cur];
      cur := g[cur];
    }
    CyclesGoOn(g, start, path, cur);
    cycle := [];
  }

  lemma FewerLeft(all: set<string>, done: set<string>, x: string)
    requires x in all && x !in done
    ensures |all - (done + {x})| < |all - done|
  {
    assert all - done == (all - (done + {x})) + {x};
  }

  // ---------- The reports ----------

  const ARROW := " \U{2192} "

  function Arrows(c: seq<string>, n: nat): string
    requires 0 < n <= |c|
  {
    if n == 1 then c[0] else Arrows(c, n - 1) + (ARROW + c[n - 1])
  }

  /** A cycle as it is reported, back to its first node. */
  function Report(c: seq<string>): string
    requires c != []
  {
    "cleanup cycle detected: " + Arrows(c + [c[0]], |c| + 1)
  }

  /** A report for every cycle of more than one node, from its alphabetically first node, in order and each once. */
  method DetectCleanupCycles(g: Pairings) returns (cycles: seq<string>, ghost found: set<seq<string>>)
    ensures forall c :: c in found <==> IsCycle(g, c) && |c| > 1 && IsCanonical(c)
    ensures Ascending(cycles)
      && forall text :: text in cycles <==> exists c :: c in found && c != [] && Report(c) == text
  {
    var texts: set<string> := {};
    forall c | IsCycle(g, c) ensures c[0] in g {
      assert Leads(g, c, 0);
    }
    found := {};
    var left := g.Keys;
    while left != {}
      invariant left <= g.Keys
      invariant forall c :: c in found ==> IsCycle(g, c) && |c| > 1 && IsCanonical(c)
      invariant forall c :: IsCycle(g, c) && |c| > 1 && IsCanonical(c) && c[0] !in left ==> c in found
      invariant forall text :: text in texts <==> exists c :: c in found && c != [] && Report(c) == text
      decreases left
    {
      var start :| start in left;
      var cycle := FollowFrom(g, start);
      if |cycle| > 1 {
        var named := FormatCycle(g, cycle);
        ghost var was := found;
        OneMoreReport(was, named, texts);
        found, texts := found + {named}, texts + {Report(named)};
      }
      left := left - {start};
    }
    cycles := SortedKeys(texts);
  }

  lemma OneMoreReport(found: set<seq<string>>, c: seq<string>, texts: set<string>)
    requires c != [] && forall text :: text in texts <==> exists d :: d in found && d != [] && Report(d) == text
    ensures forall text :: text in texts + {Report(c)} <==> exists d :: d in found + {c} && d != [] && Report(d) == text
  {
    forall text ensures text in texts + {Report(c)} <==> exists d :: d in found + {c} && d != [] && Report(d) == text {
      if text in texts {
        var d :| d in found && d != [] && Report(d) == text;
        assert d in found + {c};
      }
      if text == Report(c) {
        assert c in found + {c};
      }
    }
  }

  // ---------- No cycles at all ----------

  ghost predicate HasCycle(g: Pairings) {
    exists c :: IsCycle(g, c)
  }

  /** Nothing loops exactly when no node cleans up with itself and no cycle is reported. */
  lemma NothingReportedMeansNone(g: Pairings)
    ensures HasCycle(g) <==> (exists n :: n in g && n != "" && g[n] == n)
                             || (exists c :: IsCycle(g, c) && |c| > 1 && IsCanonical(c))
  {
    if HasCycle(g) {
      var c :| IsCycle(g, c);
      if |c| == 1 {
        assert Leads(g, c, 0);
      } else {
        var r := CanonicalOf(g, c);
      }
    }
    if n :| n in g && n != "" && g[n] == n {
      assert Leads(g, [n], 0);
      assert IsCycle(g, [n]);
    }
  }

  lemma CanonicalOf(g: Pairings, c: seq<string>) returns (r: seq<string>)
    requires IsCycle(g, c)
    ensures IsCycle(g, r) && IsCanonical(r) && |r| == |c|
  {
    var n := LeastOf(c);
    r := c[n..] + c[..n];
    Rotated(g, c, n);
    RotatedIsCanonical(c, n);
  }

  lemma NameAsymmetric(a: string, b: string)
    requires NameLess(a, b)
    ensures !NameLess(b, a)
  {
    NameIrreflexive(a);
    if NameLess(b, a) {
      NameTransitive(a, b, a);
    }
  }

  lemma LeastOf(c: seq<string>) returns (n: nat)
    requires c != []
    ensures n < |c| && forall i :: 0 <= i < |c| ==> !NameLess(c[i], c[n])
    decreases |c|
  {
    if |c| == 1 {
      n := 0;
      NameIrreflexive(c[0]);
    } else {
      var last := |c| - 1;
      var m := LeastOf(c[..last]);
      NameIrreflexive(c[last]);
      if NameLess(c[last], c[m]) {
        n := last;
        NameAsymmetric(c[last], c[m]);
        forall i | 0 <= i < last ensures !NameLess(c[i], c[last]) {
          assert c[..last][i] == c[i];
          NotLessTransitive(c[last], c[m], c[i]);
        }
      } else {
        n := m;
        assert forall i :: 0 <= i < last ==> c[..last][i] == c[i];
      }
    }
  }
}

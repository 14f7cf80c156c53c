/** Orders that respect a set of edges, and the order Kahn's algorithm picks when it always takes
    the least ready node. The engine's scheduler, the backward chainer and the addon composer all
    speak about plans and graphs in these terms.

    An edge (a, b) says that a comes before b. Edges that leave the node set, and self-loops, do
    not constrain anything, as in both of the program's sorts. */
module TopoOrder {

  /** less orders the nodes strictly, any two of them one way or the other. */
  ghost predicate StrictOrder<T>(nodes: set<T>, less: (T, T) -> bool) {
    && (forall x :: x in nodes ==> !less(x, x))
    && (forall x, y, z :: x in nodes && y in nodes && z in nodes && less(x, y) && less(y, z) ==> less(x, z))
    && (forall x, y :: x in nodes && y in nodes && x != y ==> less(x, y) || less(y, x))
  }

  ghost predicate Precedes<T>(nodes: set<T>, edges: set<(T, T)>, a: T, b: T) {
    a in nodes && b in nodes && a != b && (a, b) in edges
  }

  ghost predicate Path<T>(nodes: set<T>, edges: set<(T, T)>, p: seq<T>) {
    && (forall i :: 0 <= i < |p| ==> p[i] in nodes)
    && (forall i :: 0 <= i < |p| - 1 ==> Linked(nodes, edges, p, i))
  }

  ghost predicate Linked<T>(nodes: set<T>, edges: set<(T, T)>, p: seq<T>, i: nat)
    requires i + 1 < |p|
  {
    Precedes(nodes, edges, p[i], p[i + 1])
  }

  ghost predicate Distinct<T>(s: seq<T>) {
    forall i, j :: 0 <= i < j < |s| ==> s[i] != s[j]
  }

  ghost predicate Closed<T>(p: seq<T>) {
    |p| >= 2 && p[0] == p[|p| - 1]
  }

  /** Some closed path runs along the edges. */
  ghost predicate Cyclic<T(!new)>(nodes: set<T>, edges: set<(T, T)>) {
    exists p: seq<T> :: Closed(p) && Path(nodes, edges, p)
  }

  ghost predicate WalkTo<T>(nodes: set<T>, edges: set<(T, T)>, p: seq<T>, x: T) {
    Path(nodes, edges, p) && |p| > 0 && p[|p| - 1] == x && !Distinct(p)
  }

  /** x lies on a cycle or behind one: some path to it visits a node twice. */
  ghost predicate Blocked<T(!new)>(nodes: set<T>, edges: set<(T, T)>, x: T) {
    exists p: seq<T> :: WalkTo(nodes, edges, p, x)
  }

  /** s lists every node once, each after all that precede it. */
  ghost predicate Topological<T(!new)>(s: seq<T>, nodes: set<T>, edges: set<(T, T)>) {
    && Distinct(s)
    && (forall x :: x in s <==> x in nodes)
    && (forall i, j :: 0 <= i < |s| && 0 <= j < |s| && Precedes(nodes, edges, s[i], s[j]) ==> i < j)
  }

  ghost predicate Ready<T>(done: seq<T>, nodes: set<T>, edges: set<(T, T)>, x: T) {
    x in nodes && x !in done && (forall y :: y in nodes && Precedes(nodes, edges, y, x) ==> y in done)
  }

  ghost predicate LeastReady<T>(done: seq<T>, nodes: set<T>, edges: set<(T, T)>, less: (T, T) -> bool, x: T) {
    Ready(done, nodes, edges, x) && (forall y :: y in nodes && Ready(done, nodes, edges, y) && y != x ==> less(x, y))
  }

  /** Each element of s is the least one ready when it was taken. */
  ghost predicate Greedy<T>(s: seq<T>, nodes: set<T>, edges: set<(T, T)>, less: (T, T) -> bool) {
    forall k: nat :: k < |s| ==> TookLeast(s, nodes, edges, less, k)
  }

  ghost predicate TookLeast<T>(s: seq<T>, nodes: set<T>, edges: set<(T, T)>, less: (T, T) -> bool, k: nat)
    requires k < |s|
  {
    LeastReady(s[..k], nodes, edges, less, s[k])
  }

  /** No node is ready once s is done. */
  ghost predicate Exhausted<T>(s: seq<T>, nodes: set<T>, edges: set<(T, T)>) {
    forall x :: x in nodes ==> !Ready(s, nodes, edges, x)
  }

  /** s comes before t, letter by letter, in the order less gives the nodes. */
  ghost predicate LexBefore<T>(s: seq<T>, t: seq<T>, less: (T, T) -> bool) {
    exists k :: 0 <= k < |s| && k < |t| && s[..k] == t[..k] && less(s[k], t[k])
  }

  // ---------- Counting ----------

  function Elements<T>(s: seq<T>): set<T> {
    set x | x in s
  }

  lemma {:induction false} DistinctCount<T>(s: seq<T>)
    requires Distinct(s)
    ensures |Elements(s)| == |s|
  {
    if |s| > 0 {
      var rest := s[..|s| - 1];
      DistinctCount(rest);
      assert Elements(s) == Elements(rest) + {s[|s| - 1]};
    }
  }

  lemma DistinctAppend<T>(s: seq<T>, x: T)
    requires Distinct(s) && x !in s
    ensures Distinct(s + [x])
  {
  }

  lemma SubsetCount<T>(a: set<T>, b: set<T>)
    requires a <= b
    ensures |a| <= |b|
    ensures |a| == |b| ==> a == b
  {
    assert b == a + (b - a);
    assert |b| == |a| + |b - a|;
  }

  /** More places than nodes: some node is visited twice. */
  lemma Pigeonhole<T>(nodes: set<T>, p: seq<T>)
    requires forall x :: x in p ==> x in nodes
    requires |p| > |nodes|
    ensures !Distinct(p)
  {
    if Distinct(p) {
      DistinctCount(p);
      SubsetCount(Elements(p), nodes);
    }
  }

  // ---------- What a greedy order keeps ----------

  lemma GreedyPrefix<T>(s: seq<T>, nodes: set<T>, edges: set<(T, T)>, less: (T, T) -> bool)
    requires Greedy(s, nodes, edges, less)
    ensures Distinct(s)
    ensures forall x :: x in s ==> x in nodes
    ensures forall j, y :: 0 <= j < |s| && Precedes(nodes, edges, y, s[j]) ==> y in s[..j]
  {
    forall i, j | 0 <= i < j < |s| ensures s[i] != s[j] {
      assert TookLeast(s, nodes, edges, less, j);
      assert s[i] == s[..j][i];
    }
    forall x | x in s ensures x in nodes {
      var j: nat :| j < |s| && s[j] == x;
      assert TookLeast(s, nodes, edges, less, j);
    }
    forall j, y | 0 <= j < |s| && Precedes(nodes, edges, y, s[j]) ensures y in s[..j] {
      assert TookLeast(s, nodes, edges, less, j);
    }
  }

  /** Taking one more least ready node keeps the order greedy. */
  lemma GreedyExtend<T>(s: seq<T>, nodes: set<T>, edges: set<(T, T)>, less: (T, T) -> bool, x: T)
    requires Greedy(s, nodes, edges, less) && LeastReady(s, nodes, edges, less, x)
    ensures Greedy(s + [x], nodes, edges, less)
  {
    var t := s + [x];
    forall k: nat | k < |t| ensures TookLeast(t, nodes, edges, less, k) {
      if k < |s| {
        assert TookLeast(s, nodes, edges, less, k);
        assert t[..k] == s[..k];
      } else {
        assert t[..k] == s;
      }
    }
  }

  lemma GreedyCompleteIsTopological<T(!new)>(s: seq<T>, nodes: set<T>, edges: set<(T, T)>, less: (T, T) -> bool)
    requires Greedy(s, nodes, edges, less) && |s| == |nodes|
    ensures Topological(s, nodes, edges)
  {
    GreedyPrefix(s, nodes, edges, less);
    DistinctSubsetIsAll(s, nodes);
    forall i, j | 0 <= i < |s| && 0 <= j < |s| && Precedes(nodes, edges, s[i], s[j]) ensures i < j {
      assert s[i] in s[..j];
    }
  }

  /** A greedy order comes lexicographically before every other topological order. */
  lemma GreedyIsLexLeast<T(!new)>(s: seq<T>, t: seq<T>, nodes: set<T>, edges: set<(T, T)>, less: (T, T) -> bool)
    requires Greedy(s, nodes, edges, less) && Topological(t, nodes, edges) && |s| == |t|
    ensures s == t || LexBefore(s, t, less)
  {
    if s != t {
      var k := FirstDifference(s, t);
      forall i | 0 <= i < k ensures s[..k][i] != t[k] {
        assert s[..k][i] == t[..k][i] == t[i];
      }
      forall y | y in nodes && Precedes(nodes, edges, y, t[k]) ensures y in s[..k] {
        var i :| 0 <= i < |t| && t[i] == y;
        assert i < k;
        assert y == t[..k][i];
      }
      assert Ready(s[..k], nodes, edges, t[k]);
      assert TookLeast(s, nodes, edges, less, k);
    }
  }

  lemma {:induction false} FirstDifference<T>(s: seq<T>, t: seq<T>) returns (k: nat)
    requires |s| == |t| && s != t
    ensures k < |s| && s[..k] == t[..k] && s[k] != t[k]
  {
    if s[0] != t[0] {
      k := 0;
    } else {
      assert s == [s[0]] + s[1..] && t == [t[0]] + t[1..];
      k := FirstDifference(s[1..], t[1..]);
      k := k + 1;
      assert s[..k] == [s[0]] + s[1..][..k - 1];
      assert t[..k] == [t[0]] + t[1..][..k - 1];
    }
  }

  /** Nothing is left to choice: two greedy orders agree as far as both go. */
  lemma {:induction false} GreedyAgree<T(!new)>(s: seq<T>, t: seq<T>, nodes: set<T>, edges: set<(T, T)>,
                                         less: (T, T) -> bool, n: nat)
    requires StrictOrder(nodes, less)
    requires Greedy(s, nodes, edges, less) && Greedy(t, nodes, edges, less)
    requires n <= |s| && n <= |t|
    ensures s[..n] == t[..n]
  {
    if n > 0 {
      var k := n - 1;
      GreedyAgree(s, t, nodes, edges, less, k);
      assert TookLeast(s, nodes, edges, less, k);
      assert TookLeast(t, nodes, edges, less, k);
      LeastReadyUnique(s[..k], nodes, edges, less, s[k], t[k]);
      assert s[..n] == s[..k] + [s[k]] && t[..n] == t[..k] + [t[k]];
    }
  }

  lemma LeastReadyUnique<T(!new)>(done: seq<T>, nodes: set<T>, edges: set<(T, T)>, less: (T, T) -> bool, x: T, y: T)
    requires StrictOrder(nodes, less)
    requires LeastReady(done, nodes, edges, less, x) && LeastReady(done, nodes, edges, less, y)
    ensures x == y
  {
    assert x in nodes && y in nodes;
    assert x != y ==> less(x, y) && less(y, x);
  }

  // ---------- Cycles ----------

  lemma {:induction false} PathClimbs<T>(s: seq<T>, nodes: set<T>, edges: set<(T, T)>, less: (T, T) -> bool, p: seq<T>,
                                         i: nat, j: nat, b: nat) returns (a: nat)
    requires Greedy(s, nodes, edges, less) && Path(nodes, edges, p) && i <= j < |p|
    requires b < |s| && s[b] == p[j]
    ensures a <= b && s[a] == p[i] && (i < j ==> a < b)
    decreases j - i
  {
    a := b;
    if i < j {
      a := StepBack(s, nodes, edges, less, p, j, b);
      a := PathClimbs(s, nodes, edges, less, p, i, j - 1, a);
    }
  }

  /** The node before another on a path was taken before it. */
  lemma StepBack<T>(s: seq<T>, nodes: set<T>, edges: set<(T, T)>, less: (T, T) -> bool, p: seq<T>, j: nat, b: nat)
    returns (c: nat)
    requires Greedy(s, nodes, edges, less) && Path(nodes, edges, p) && 0 < j < |p|
    requires b < |s| && s[b] == p[j]
    ensures c < b && s[c] == p[j - 1]
  {
    assert Linked(nodes, edges, p, j - 1);
    GreedyPrefix(s, nodes, edges, less);
    var x := p[j - 1];
    assert x in s[..b];
    c :| 0 <= c < b && s[..b][c] == x;
  }

  lemma PathToTakenIsDistinct<T(!new)>(s: seq<T>, nodes: set<T>, edges: set<(T, T)>, less: (T, T) -> bool, p: seq<T>)
    requires Greedy(s, nodes, edges, less) && Path(nodes, edges, p)
    requires |p| > 0 && p[|p| - 1] in s
    ensures Distinct(p)
  {
    GreedyPrefix(s, nodes, edges, less);
    var e :| 0 <= e < |s| && s[e] == p[|p| - 1];
    forall i, j | 0 <= i < j < |p| ensures p[i] != p[j] {
      var b := PathClimbs(s, nodes, edges, less, p, j, |p| - 1, e);
      var a := PathClimbs(s, nodes, edges, less, p, i, j, b);
      assert a < b && s[a] != s[b];
    }
  }

  /** What a greedy order has taken is not blocked. */
  lemma TakenIsNotBlocked<T(!new)>(s: seq<T>, nodes: set<T>, edges: set<(T, T)>, less: (T, T) -> bool, x: T)
    requires Greedy(s, nodes, edges, less) && x in s
    ensures !Blocked(nodes, edges, x)
  {
    forall p: seq<T> ensures !WalkTo(nodes, edges, p, x) {
      if Path(nodes, edges, p) && |p| > 0 && p[|p| - 1] == x {
        PathToTakenIsDistinct(s, nodes, edges, less, p);
      }
    }
  }

  /** From a node left behind one can walk back through nodes left behind as far as one likes. */
  lemma {:induction false} WalkBack<T(!new)>(s: seq<T>, nodes: set<T>, edges: set<(T, T)>, x: T, n: nat)
    returns (p: seq<T>)
    requires Exhausted(s, nodes, edges) && x in nodes && x !in s
    ensures Path(nodes, edges, p) && |p| == n + 1 && p[n] == x
    ensures forall y :: y in p ==> y in nodes && y !in s
  {
    if n == 0 {
      p := [x];
    } else {
      var q := WalkBack(s, nodes, edges, x, n - 1);
      assert q[0] in q;
      assert !Ready(s, nodes, edges, q[0]);
      var y :| y in nodes && Precedes(nodes, edges, y, q[0]) && y !in s;
      p := [y] + q;
      PathBefore(nodes, edges, y, q);
    }
  }

  lemma PathBefore<T>(nodes: set<T>, edges: set<(T, T)>, y: T, q: seq<T>)
    requires Path(nodes, edges, q) && |q| > 0 && y in nodes && Precedes(nodes, edges, y, q[0])
    ensures Path(nodes, edges, [y] + q)
  {
    var p := [y] + q;
    forall i | 0 <= i < |p| - 1 ensures Linked(nodes, edges, p, i) {
      if i > 0 {
        assert Linked(nodes, edges, q, i - 1);
      }
    }
  }

  lemma LeftBehindIsBlocked<T(!new)>(s: seq<T>, nodes: set<T>, edges: set<(T, T)>, x: T)
    requires Exhausted(s, nodes, edges) && x in nodes && x !in s
    ensures Blocked(nodes, edges, x)
  {
    var p := WalkBack(s, nodes, edges, x, |nodes|);
    Pigeonhole(nodes, p);
    assert WalkTo(nodes, edges, p, x);
  }

  /** A blocked node has a cycle behind it, and a node of a cycle is blocked. */
  lemma CyclicIffBlocked<T(!new)>(nodes: set<T>, edges: set<(T, T)>)
    ensures Cyclic(nodes, edges) <==> exists x :: x in nodes && Blocked(nodes, edges, x)
  {
    if Cyclic(nodes, edges) {
      var p: seq<T> :| Closed(p) && Path(nodes, edges, p);
      assert WalkTo(nodes, edges, p, p[0]);
      assert p[0] in nodes && Blocked(nodes, edges, p[0]);
    }
    if x :| x in nodes && Blocked(nodes, edges, x) {
      var p: seq<T> :| WalkTo(nodes, edges, p, x);
      var i, j :| 0 <= i < j < |p| && p[i] == p[j];
      var q := p[i..j + 1];
      forall k | 0 <= k < |q| - 1 ensures Linked(nodes, edges, q, k) {
        assert Linked(nodes, edges, p, i + k);
      }
      assert Closed(q) && Path(nodes, edges, q);
    }
  }

  /** Kahn's loop, run until nothing is ready, leaves exactly the nodes on or behind a cycle. */
  lemma KahnLeavesTheBlocked<T(!new)>(s: seq<T>, nodes: set<T>, edges: set<(T, T)>, less: (T, T) -> bool)
    requires Greedy(s, nodes, edges, less) && Exhausted(s, nodes, edges)
    ensures forall x :: x in nodes ==> (x in s <==> !Blocked(nodes, edges, x))
  {
    forall x | x in nodes ensures x in s <==> !Blocked(nodes, edges, x) {
      if x in s {
        TakenIsNotBlocked(s, nodes, edges, less, x);
      } else {
        LeftBehindIsBlocked(s, nodes, edges, x);
      }
    }
  }

  /** So it takes every node exactly when there is no cycle. */
  lemma KahnCompletesIffAcyclic<T(!new)>(s: seq<T>, nodes: set<T>, edges: set<(T, T)>, less: (T, T) -> bool)
    requires Greedy(s, nodes, edges, less) && Exhausted(s, nodes, edges)
    ensures |s| <= |nodes|
    ensures |s| == |nodes| <==> !Cyclic(nodes, edges)
  {
    KahnLeavesTheBlocked(s, nodes, edges, less);
    CyclicIffBlocked(nodes, edges);
    GreedyPrefix(s, nodes, edges, less);
    DistinctSubsetIsAll(s, nodes);
  }

  lemma DistinctSubsetIsAll<T>(s: seq<T>, nodes: set<T>)
    requires Distinct(s) && forall x :: x in s ==> x in nodes
    ensures |s| <= |nodes|
    ensures |s| == |nodes| <==> forall x :: x in nodes ==> x in s
  {
    DistinctCount(s);
    SubsetCount(Elements(s), nodes);
    if forall x :: x in nodes ==> x in s {
      assert Elements(s) == nodes;
    }
    assert forall x :: x in s <==> x in Elements(s);
  }

  /** Edges can be ordered exactly when no cycle runs along them. */
  lemma TopologicalIsAcyclic<T(!new)>(s: seq<T>, nodes: set<T>, edges: set<(T, T)>)
    requires Topological(s, nodes, edges)
    ensures !Cyclic(nodes, edges)
  {
    if Cyclic(nodes, edges) {
      var p: seq<T> :| Closed(p) && Path(nodes, edges, p);
      var b :| 0 <= b < |s| && s[b] == p[|p| - 1];
      var a := IndexAlong(s, nodes, edges, p, |p| - 1, b);
      assert false;
    }
  }

  lemma {:induction false} IndexAlong<T(!new)>(s: seq<T>, nodes: set<T>, edges: set<(T, T)>, p: seq<T>, j: nat, b: nat)
    returns (a: nat)
    requires Topological(s, nodes, edges) && Path(nodes, edges, p) && j < |p|
    requires b < |s| && s[b] == p[j]
    ensures a <= b && s[a] == p[0] && (j > 0 ==> a < b)
  {
    a := b;
    if j > 0 {
      assert Linked(nodes, edges, p, j - 1);
      var c :| 0 <= c < |s| && s[c] == p[j - 1];
      a := IndexAlong(s, nodes, edges, p, j - 1, c);
    }
  }

  /** s is the beginning of an order: whatever precedes one of its nodes stands before it. */
  ghost predicate Begins<T(!new)>(s: seq<T>, nodes: set<T>, edges: set<(T, T)>) {
    && Distinct(s) && (forall x :: x in s ==> x in nodes)
    && (forall y, j :: 0 <= j < |s| && Precedes(nodes, edges, y, s[j]) ==> StandsBefore(s, y, j))
  }

  ghost predicate StandsBefore<T>(s: seq<T>, y: T, j: int) {
    exists i :: 0 <= i < j && i < |s| && s[i] == y
  }

  lemma BeginsOn<T(!new)>(s: seq<T>, nodes: set<T>, edges: set<(T, T)>, x: T)
    requires Begins(s, nodes, edges) && Ready(s, nodes, edges, x)
    ensures Begins(s + [x], nodes, edges)
  {
    var t := s + [x];
    forall y, j | 0 <= j < |t| && Precedes(nodes, edges, y, t[j]) ensures StandsBefore(t, y, j) {
      if j < |s| {
        assert StandsBefore(s, y, j);
        var i :| 0 <= i < j && i < |s| && s[i] == y;
        assert t[i] == y;
      } else {
        var i :| 0 <= i < |s| && s[i] == y;
        assert t[i] == y;
      }
    }
  }

  lemma {:induction false} OrderFrom<T(!new)>(s: seq<T>, nodes: set<T>, edges: set<(T, T)>) returns (r: seq<T>)
    requires !Cyclic(nodes, edges) && Begins(s, nodes, edges)
    ensures Begins(r, nodes, edges) && forall x :: x in nodes ==> x in r
    decreases |nodes| - |s|
  {
    DistinctSubsetIsAll(s, nodes);
    if x :| x in nodes && Ready(s, nodes, edges, x) {
      BeginsOn(s, nodes, edges, x);
      DistinctSubsetIsAll(s + [x], nodes);
      r := OrderFrom(s + [x], nodes, edges);
    } else {
      r := s;
      forall x | x in nodes && x !in s ensures Blocked(nodes, edges, x) {
        LeftBehindIsBlocked(s, nodes, edges, x);
      }
      CyclicIffBlocked(nodes, edges);
    }
  }

  /** Without a cycle the nodes have an order. */
  lemma AcyclicHasOrder<T(!new)>(nodes: set<T>, edges: set<(T, T)>) returns (r: seq<T>)
    requires !Cyclic(nodes, edges)
    ensures Topological(r, nodes, edges)
  {
    r := OrderFrom([], nodes, edges);
    forall i, j | 0 <= i < |r| && 0 <= j < |r| && Precedes(nodes, edges, r[i], r[j]) ensures i < j {
      assert StandsBefore(r, r[i], j);
    }
  }
}

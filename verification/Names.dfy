/** Names in Go's string order, and the graph package's own little sorts over them (graph/chain.go). */
module Names {
  import opened TopoOrder

  /** a comes before b, character by character; a proper prefix comes first. */
  predicate NameLess(a: string, b: string) {
    b != [] && (a == [] || a[0] < b[0] || (a[0] == b[0] && NameLess(a[1..], b[1..])))
  }

  lemma {:induction false} NameIrreflexive(a: string)
    ensures !NameLess(a, a)
  {
    if a != [] {
      NameIrreflexive(a[1..]);
    }
  }

  lemma {:induction false} NameTransitive(a: string, b: string, c: string)
    requires NameLess(a, b) && NameLess(b, c)
    ensures NameLess(a, c)
  {
    if a != [] && a[0] == b[0] && b[0] == c[0] {
      NameTransitive(a[1..], b[1..], c[1..]);
    }
  }

  lemma {:induction false} NameTotal(a: string, b: string)
    ensures a == b || NameLess(a, b) || NameLess(b, a)
  {
    if a != [] && b != [] && a[0] == b[0] {
      NameTotal(a[1..], b[1..]);
      assert a == [a[0]] + a[1..] && b == [b[0]] + b[1..];
    }
  }

  lemma NameOrderIsStrict(nodes: set<string>)
    ensures StrictOrder(nodes, NameLess)
  {
    forall x ensures !NameLess(x, x) {
      NameIrreflexive(x);
    }
    forall x, y, z | NameLess(x, y) && NameLess(y, z) ensures NameLess(x, z) {
      NameTransitive(x, y, z);
    }
    forall x, y | x != y ensures NameLess(x, y) || NameLess(y, x) {
      NameTotal(x, y);
    }
  }

  ghost predicate Ordered(s: seq<string>) {
    forall i, j :: 0 <= i < j < |s| ==> !NameLess(s[j], s[i])
  }

  ghost predicate Ascending(s: seq<string>) {
    forall i, j :: 0 <= i < j < |s| ==> NameLess(s[i], s[j])
  }

  lemma NotLessTransitive(a: string, b: string, c: string)
    requires !NameLess(b, a) && !NameLess(c, b)
    ensures !NameLess(c, a)
  {
    NameTotal(a, b);
    NameTotal(b, c);
    if NameLess(a, b) && NameLess(b, c) {
      NameTransitive(a, b, c);
    }
    if NameLess(a, c) && NameLess(c, a) {
      NameTransitive(a, c, a);
    }
    NameIrreflexive(a);
  }

  /** The package's insertion sort, in place. */
  method SortStrings(a: array<string>)
    modifies a
    ensures Ordered(a[..]) && multiset(a[..]) == multiset(old(a[..]))
  {
    var i := 1;
    while i < a.Length
      invariant 1 <= i && (i <= a.Length || a.Length == 0)
      invariant a.Length > 0 ==> Ordered(a[..i])
      invariant multiset(a[..]) == multiset(old(a[..]))
    {
      ghost var was := a[..];
      ghost var at := InsertAt(a, i);
      ShiftedIsSame(was, a[..], at, i);
      InsertedIsOrdered(was[..i], was[i], at, a[..i + 1]);
      i := i + 1;
    }
    if a.Length > 0 {
      assert a[..i] == a[..];
    }
  }

  /** Shifts a[i] left until what is before it is not greater. */
  method InsertAt(a: array<string>, i: nat) returns (ghost at: nat)
    requires 0 < i < a.Length
    modifies a
    ensures at <= i && Shifted(old(a[..]), a[..], at, i)
    ensures at > 0 ==> !NameLess(old(a[i]), old(a[at - 1]))
    ensures forall k :: at <= k < i ==> NameLess(old(a[i]), old(a[k]))
  {
    var key := a[i];
    var j := i - 1;
    while j >= 0 && NameLess(key, a[j])
      invariant -1 <= j < i
      invariant forall k :: 0 <= k <= j ==> a[k] == old(a[k])
      invariant forall k :: j + 1 <= k < i ==> a[k + 1] == old(a[k]) && NameLess(key, old(a[k]))
      invariant forall k :: i < k < a.Length ==> a[k] == old(a[k])
    {
      a[j + 1] := a[j];
      j := j - 1;
    }
    a[j + 1] := key;
    at := j + 1;
  }

  /** now is was with the element at i moved down to at. */
  ghost predicate Shifted(was: seq<string>, now: seq<string>, at: nat, i: nat)
    requires at <= i < |was|
  {
    && |now| == |was| && now[at] == was[i]
    && (forall k :: 0 <= k < at ==> now[k] == was[k])
    && (forall k :: at <= k < i ==> now[k + 1] == was[k])
    && (forall k :: i < k < |was| ==> now[k] == was[k])
  }

  lemma ShiftedIsSame(was: seq<string>, now: seq<string>, at: nat, i: nat)
    requires at <= i < |was| && Shifted(was, now, at, i)
    ensures multiset(now) == multiset(was)
  {
    var a, b, c := was[..at], was[at..i], was[i + 1..];
    MovedIsSame(a, b, was[i], c);
    assert was == a + b + [was[i]] + c;
    assert now == a + [was[i]] + b + c;
  }

  lemma MovedIsSame(a: seq<string>, b: seq<string>, x: string, c: seq<string>)
    ensures multiset(a + [x] + b + c) == multiset(a + b + [x] + c)
  {
  }

  lemma InsertedIsOrdered(s: seq<string>, key: string, at: nat, t: seq<string>)
    requires Ordered(s) && at <= |s| && |t| == |s| + 1
    requires forall k :: 0 <= k < at ==> t[k] == s[k]
    requires t[at] == key && forall k :: at < k < |t| ==> t[k] == s[k - 1] && NameLess(key, t[k])
    requires at > 0 ==> !NameLess(key, s[at - 1])
    ensures Ordered(t)
  {
    forall i, j | 0 <= i < j < |t| ensures !NameLess(t[j], t[i]) {
      if i == at {
        if NameLess(t[j], key) {
          NameTransitive(key, t[j], key);
        }
        NameIrreflexive(key);
      } else if j == at && i < at - 1 {
        NotLessTransitive(t[i], s[at - 1], key);
      }
    }
  }

  lemma OrderedDistinctIsAscending(s: seq<string>)
    requires Ordered(s) && Distinct(s)
    ensures Ascending(s)
  {
    forall i, j | 0 <= i < j < |s| ensures NameLess(s[i], s[j]) {
      NameTotal(s[i], s[j]);
    }
  }

  /** The keys of a map, which Go hands over in any order, sorted. */
  method SortedKeys(keys: set<string>) returns (s: seq<string>)
    ensures Ascending(s) && Distinct(s) && forall x :: x in s <==> x in keys
  {
    var walked: seq<string> := [];
    var left := keys;
    while left != {}
      invariant left <= keys && Distinct(walked)
      invariant forall x :: x in walked <==> x in keys && x !in left
    {
      var x :| x in left;
      DistinctAppend(walked, x);
      walked, left := walked + [x], left - {x};
    }
    var a := new string[|walked|](i requires 0 <= i < |walked| => walked[i]);
    assert a[..] == walked;
    SortStrings(a);
    s := a[..];
    SameElements(walked, s);
    OrderedDistinctIsAscending(s);
  }

  lemma SameElements<T>(s: seq<T>, t: seq<T>)
    requires multiset(s) == multiset(t) && Distinct(s)
    ensures Distinct(t) && forall x :: x in t <==> x in s
  {
    forall x ensures x in t <==> x in s {
      assert x in t <==> x in multiset(t);
      assert x in s <==> x in multiset(s);
    }
    forall i, j | 0 <= i < j < |t| ensures t[i] != t[j] {
      DistinctOnce(s, t[i]);
      assert t == t[..i] + [t[i]] + t[i + 1..j] + [t[j]] + t[j + 1..];
    }
  }

  lemma {:induction false} DistinctOnce<T>(s: seq<T>, x: T)
    requires Distinct(s)
    ensures multiset(s)[x] <= 1
  {
    if s != [] {
      assert s == s[..|s| - 1] + [s[|s| - 1]];
      DistinctOnce(s[..|s| - 1], x);
      assert s[|s| - 1] !in multiset(s[..|s| - 1]);
    }
  }

  lemma AscendingIsDistinct(s: seq<string>)
    requires Ascending(s)
    ensures Distinct(s)
  {
    forall x ensures !NameLess(x, x) {
      NameIrreflexive(x);
    }
  }

  method InsertSorted(s: seq<string>, val: string) returns (r: seq<string>)
    requires Ascending(s) && val !in s
    ensures Ascending(r) && forall x :: x in r <==> x in s || x == val
  {
    var i := 0;
    while i < |s| && NameLess(s[i], val)
      invariant 0 <= i <= |s|
      invariant forall k :: 0 <= k < i ==> NameLess(s[k], val)
    {
      i := i + 1;
    }
    r := s[..i] + [val] + s[i..];
    InsertedAscends(s, val, i);
  }

  lemma InsertedAscends(s: seq<string>, val: string, i: nat)
    requires Ascending(s) && val !in s && i <= |s| && (forall k :: 0 <= k < i ==> NameLess(s[k], val))
      && (i < |s| ==> !NameLess(s[i], val))
    ensures Ascending(s[..i] + [val] + s[i..])
    ensures forall x :: x in s[..i] + [val] + s[i..] <==> x in s || x == val
  {
    forall k | i <= k < |s| ensures NameLess(val, s[k]) {
      NameTotal(val, s[i]);
      if k > i {
        NameTransitive(val, s[i], s[k]);
      }
    }
    assert s == s[..i] + s[i..];
  }
}

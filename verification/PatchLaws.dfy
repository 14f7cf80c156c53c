/** What setting and removing a value in a body does and does not change (adapter/request_fields.go). */
module PatchLaws {
  import opened Decimals
  import opened JsonString
  import opened Patches

  lemma ChildOfWith(d: Doc, key: string, c: Doc)
    requires With(d, key, c).Some?
    ensures Child(With(d, key, c).value, key) == Some(c)
  {
  }

  /** Two segments that lead to the same child. */
  predicate SameStep(d: Doc, a: string, b: string) {
    a == b || (d.Arr? && Index(a, |d.elems|).Some? && Index(a, |d.elems|) == Index(b, |d.elems|))
  }

  lemma ChildBesideWith(d: Doc, key: string, c: Doc, other: string)
    requires With(d, key, c).Some? && !SameStep(d, key, other)
    ensures Child(With(d, key, c).value, other) == Child(d, other)
  {
  }

  /** What was set is there. */
  lemma {:induction false} SetReadsBack(d: Doc, p: Path, i: nat, v: Doc)
    requires i < |p| && Patched(d, p, i, Set(v)).Some?
    ensures Get(Patched(d, p, i, Set(v)).value, p, i) == Some(v)
    decreases |p| - i
  {
    if i == |p| - 1 {
      ChildOfWith(d, p[i], v);
    } else {
      var r := Patched(Child(d, p[i]).value, p, i + 1, Set(v)).value;
      ChildOfWith(d, p[i], r);
      SetReadsBack(Child(d, p[i]).value, p, i + 1, v);
    }
  }

  /** Setting what is there already changes nothing. */
  lemma {:induction false} SetOfSame(d: Doc, p: Path, i: nat, v: Doc)
    requires i < |p| && Get(d, p, i) == Some(v)
    ensures Patched(d, p, i, Set(v)) == Some(d)
    decreases |p| - i
  {
    if i < |p| - 1 {
      SetOfSame(Child(d, p[i]).value, p, i + 1, v);
    }
    WithSame(d, p[i]);
  }

  lemma WithSame(d: Doc, key: string)
    ensures Child(d, key).Some? ==> With(d, key, Child(d, key).value) == Some(d)
  {
    match d {
      case Obj(fields) => assert key in fields ==> fields[key := fields[key]] == fields;
      case Arr(elems) =>
        var i := Index(key, |elems|);
        assert i.Some? ==> elems[i.value := elems[i.value]] == elems;
      case _ =>
    }
  }

  /** The last of two sets is the one that counts. */
  lemma {:induction false} SetAgain(d: Doc, p: Path, i: nat, v: Doc, u: Doc)
    requires i < |p| && Patched(d, p, i, Set(v)).Some?
    ensures Patched(Patched(d, p, i, Set(v)).value, p, i, Set(u)) == Patched(d, p, i, Set(u))
      && Patched(d, p, i, Set(u)).Some?
    decreases |p| - i
  {
    if i == |p| - 1 {
      WithAgain(d, p[i], v, u);
    } else {
      var c := Child(d, p[i]).value;
      var r := Patched(c, p, i + 1, Set(v)).value;
      ChildOfWith(d, p[i], r);
      SetAgain(c, p, i + 1, v, u);
      WithAgain(d, p[i], r, Patched(c, p, i + 1, Set(u)).value);
    }
  }

  lemma WithAgain(d: Doc, key: string, c: Doc, e: Doc)
    requires With(d, key, c).Some?
    ensures With(With(d, key, c).value, key, e) == With(d, key, e) && With(d, key, e).Some?
  {
    match d {
      case Obj(fields) => assert fields[key := c][key := e] == fields[key := e];
      case Arr(elems) =>
        var i := Index(key, |elems|).value;
        assert elems[i := c][i := e] == elems[i := e];
    }
  }

  /** A value can be set exactly where the node that would hold it is an object, or an array that has the element. */
  lemma {:induction false} SetsIff(d: Doc, p: Path, i: nat, v: Doc)
    requires i < |p|
    ensures Patched(d, p, i, Set(v)).Some? <==> HasPlace(Get(d, p[..|p| - 1], i), p[|p| - 1])
    decreases |p| - i
  {
    if i < |p| - 1 {
      var c := Child(d, p[i]);
      if c.Some? {
        SetsIff(c.value, p, i + 1, v);
      }
    }
  }

  predicate HasPlace(parent: Option<Doc>, key: string) {
    parent.Some? && (parent.value.Obj? || Child(parent.value, key).Some?)
  }

  /** A value can be removed exactly where there is one. */
  lemma {:induction false} RemovesIff(d: Doc, p: Path, i: nat)
    requires i < |p|
    ensures Patched(d, p, i, Remove).Some? <==> Get(d, p, i).Some?
    decreases |p| - i
  {
    if i < |p| - 1 && Child(d, p[i]).Some? {
      RemovesIff(Child(d, p[i]).value, p, i + 1);
    }
  }

  // ---------- What stays ----------

  /** The two paths part ways, before either ends, at different children of one node. */
  ghost predicate Apart(d: Doc, p: Path, q: Path, i: nat)
    requires i <= |p| && i <= |q|
    decreases |p| - i
  {
    && i < |p| && i < |q|
    && (SameStep(d, p[i], q[i]) ==> Child(d, p[i]).Some? && Apart(Child(d, p[i]).value, p, q, i + 1))
  }

  /** They do so at the node the patch changes. */
  ghost predicate ApartAtLast(d: Doc, p: Path, q: Path, i: nat)
    requires i < |p| && i <= |q|
    decreases |p| - i
  {
    i < |q| && if i == |p| - 1 then !SameStep(d, p[i], q[i])
               else SameStep(d, p[i], q[i]) && Child(d, p[i]).Some? && ApartAtLast(Child(d, p[i]).value, p, q, i + 1)
  }

  lemma SameChild(d: Doc, a: string, b: string)
    requires SameStep(d, a, b)
    ensures Child(d, a) == Child(d, b)
    ensures forall c :: With(d, a, c) == With(d, b, c)
  {
  }

  /** Setting a value leaves every other path alone. */
  lemma {:induction false} SetLeavesRest(d: Doc, p: Path, q: Path, i: nat, v: Doc)
    requires i < |p| && i <= |q| && Apart(d, p, q, i) && Patched(d, p, i, Set(v)).Some?
    ensures Get(Patched(d, p, i, Set(v)).value, q, i) == Get(d, q, i)
    decreases |p| - i
  {
    var n := Patched(d, p, i, Set(v)).value;
    if !SameStep(d, p[i], q[i]) {
      var c := if i == |p| - 1 then v else Patched(Child(d, p[i]).value, p, i + 1, Set(v)).value;
      ChildBesideWith(d, p[i], c, q[i]);
    } else {
      var c := Child(d, p[i]).value;
      SetLeavesRest(c, p, q, i + 1, v);
      SameChild(d, p[i], q[i]);
      ChildOfWith(d, q[i], Patched(c, p, i + 1, Set(v)).value);
    }
  }

  /** Removing one leaves alone every path that parts from its before the node it is removed from. */
  lemma {:induction false} RemoveLeavesRest(d: Doc, p: Path, q: Path, i: nat)
    requires i < |p| && i <= |q| && Apart(d, p, q, i) && !ApartAtLast(d, p, q, i) && Patched(d, p, i, Remove).Some?
    ensures Get(Patched(d, p, i, Remove).value, q, i) == Get(d, q, i)
    decreases |p| - i
  {
    if !SameStep(d, p[i], q[i]) {
      ChildBesideWith(d, p[i], Patched(Child(d, p[i]).value, p, i + 1, Remove).value, q[i]);
    } else {
      var c := Child(d, p[i]).value;
      RemoveLeavesRest(c, p, q, i + 1);
      SameChild(d, p[i], q[i]);
      ChildOfWith(d, q[i], Patched(c, p, i + 1, Remove).value);
    }
  }

  // ---------- Where it is removed from ----------

  lemma {:induction false} GetJoin(d: Doc, a: Path, b: Path, i: nat)
    requires i <= |a|
    ensures Get(d, a + b, i) == if Get(d, a, i) == None then None else Get(Get(d, a, i).value, b, 0)
    decreases |a| - i
  {
    if i < |a| {
      if Child(d, a[i]).Some? {
        GetJoin(Child(d, a[i]).value, a, b, i + 1);
      }
    } else {
      GetSuffix(d, a, b, 0);
    }
  }

  lemma {:induction false} GetSuffix(d: Doc, a: Path, b: Path, k: nat)
    requires k <= |b|
    ensures Get(d, a + b, |a| + k) == Get(d, b, k)
    decreases |b| - k
  {
    if k < |b| && Child(d, b[k]).Some? {
      GetSuffix(Child(d, b[k]).value, a, b, k + 1);
    }
  }

  /** The node a value is removed from is the one it was in, without it. */
  lemma {:induction false} RemovedParent(d: Doc, p: Path, i: nat)
    requires i < |p| && Patched(d, p, i, Remove).Some?
    ensures Get(d, p[..|p| - 1], i).Some? && Without(Get(d, p[..|p| - 1], i).value, p[|p| - 1]).Some?
    ensures Get(Patched(d, p, i, Remove).value, p[..|p| - 1], i) == Without(Get(d, p[..|p| - 1], i).value, p[|p| - 1])
    decreases |p| - i
  {
    if i < |p| - 1 {
      var c := Child(d, p[i]).value;
      RemovedParent(c, p, i + 1);
      ChildOfWith(d, p[i], Patched(c, p, i + 1, Remove).value);
    }
  }

  /** What was removed from an object is gone, and its other fields are as they were. */
  lemma RemovedFromObject(d: Doc, p: Path, key: string, rest: Path)
    requires p != [] && Patched(d, p, 0, Remove).Some? && Get(d, p[..|p| - 1], 0).Some?
      && Get(d, p[..|p| - 1], 0).value.Obj?
    ensures Get(Patched(d, p, 0, Remove).value, p[..|p| - 1] + ([key] + rest), 0)
            == if key == p[|p| - 1] then None else Get(d, p[..|p| - 1] + ([key] + rest), 0)
  {
    var up, s := p[..|p| - 1], [key] + rest;
    RemovedParent(d, p, 0);
    GetJoin(d, up, s, 0);
    GetJoin(Patched(d, p, 0, Remove).value, up, s, 0);
    assert s[0] == key;
    SkipFirst(Get(d, up, 0).value, key, rest);
    SkipFirst(Get(Patched(d, p, 0, Remove).value, up, 0).value, key, rest);
  }

  lemma SkipFirst(d: Doc, key: string, rest: Path)
    ensures Get(d, [key] + rest, 0) == if Child(d, key) == None then None else Get(Child(d, key).value, rest, 0)
  {
    GetJoin(d, [key], rest, 0);
    assert Child(d, key).Some? ==> Get(Child(d, key).value, [key], 1) == Child(d, key);
  }

  /** What was removed from an array lets every later element move down by one, and no other move. */
  lemma RemovedFromArray(d: Doc, p: Path, k: nat, rest: Path)
    requires p != [] && Patched(d, p, 0, Remove).Some? && Get(d, p[..|p| - 1], 0).Some?
      && Get(d, p[..|p| - 1], 0).value.Arr?
    ensures var up, j := p[..|p| - 1], Index(p[|p| - 1], |Get(d, p[..|p| - 1], 0).value.elems|);
      j.Some? && Get(Patched(d, p, 0, Remove).value, up + ([DecimalText(k)] + rest), 0)
                 == Get(d, up + ([DecimalText(if k < j.value then k else k + 1)] + rest), 0)
  {
    var up := p[..|p| - 1];
    RemovedParent(d, p, 0);
    var arr, less := Get(d, up, 0).value, Get(Patched(d, p, 0, Remove).value, up, 0).value;
    var j := Index(p[|p| - 1], |arr.elems|).value;
    var from := if k < j then k else k + 1;
    GetJoin(d, up, [DecimalText(from)] + rest, 0);
    GetJoin(Patched(d, p, 0, Remove).value, up, [DecimalText(k)] + rest, 0);
    SkipFirst(arr, DecimalText(from), rest);
    SkipFirst(less, DecimalText(k), rest);
    IndexOfDecimal(k, |less.elems|);
    IndexOfDecimal(from, |arr.elems|);
  }
}

/** The paths reported of a template, in the body it becomes (adapter/message_paths.go, adapter/request_fields.go). */
module TemplatePaths {
  import opened Decimals
  import P = Patches
  import opened TemplateScan
  import opened TemplateTrees

  // ---------- The body a template becomes ----------

  /** What placeholders come to: a value where one stands for a value, and the text of anything written. */
  datatype Fill = Fill(value: string -> P.Doc, text: Tree -> string)

  function Filled(t: Tree, fill: Fill): P.Doc {
    match t
    case Object(members) => P.Obj(Fields(members, fill))
    case List(elems) => P.Arr(Items(elems, fill))
    case Whole(name) => fill.value(name)
    case _ => P.Leaf(fill.text(t))
  }

  function Fields(m: Members, fill: Fill): map<string, P.Doc> {
    match m
    case NoMembers => map[]
    case Member(key, val, rest) => map[key := Filled(val, fill)] + Fields(rest, fill)
  }

  function Items(e: Elems, fill: Fill): seq<P.Doc> {
    match e
    case NoElems => []
    case Elem(val, rest) => [Filled(val, fill)] + Items(rest, fill)
  }

  function Keys(m: Members): set<string> {
    match m
    case NoMembers => {}
    case Member(key, _, rest) => {key} + Keys(rest)
  }

  /** No object has a key twice. */
  predicate DistinctKeys(t: Tree) {
    match t
    case Object(members) => DistinctIn(members)
    case List(elems) => DistinctInAll(elems)
    case _ => true
  }

  predicate DistinctIn(m: Members) {
    match m
    case NoMembers => true
    case Member(key, val, rest) => key !in Keys(rest) && DistinctKeys(val) && DistinctIn(rest)
  }

  predicate DistinctInAll(e: Elems) {
    match e
    case NoElems => true
    case Elem(val, rest) => DistinctKeys(val) && DistinctInAll(rest)
  }

  // ---------- Every path addresses a value ----------

  /** What is at a reported path is what was reported. */
  predicate Shows(e: Event, d: P.Doc, fill: Fill) {
    match e
    case Placeholder(name, _, _, bare, _) => if bare then d == fill.value(name) else d.Leaf?
    case Literal(_, _, _) => d.Leaf?
    case Container(_, kind, _) => if kind == AnObject then d.Obj? else d.Arr?
  }

  ghost predicate Addresses(e: Event, d: P.Doc, from: nat, fill: Fill) {
    from <= |e.path| && P.Get(d, e.path, from).Some? && Shows(e, P.Get(d, e.path, from).value, fill)
  }

  lemma KeysAreFields(m: Members, fill: Fill)
    ensures Fields(m, fill).Keys == Keys(m)
  {
  }

  lemma {:induction false} TreeAddresses(t: Tree, path: Path, fill: Fill, i: nat)
    requires DistinctKeys(t) && i < |EventsOf(t, path)|
    ensures Addresses(EventsOf(t, path)[i], Filled(t, fill), |path|, fill)
    decreases t, 0
  {
    match t {
      case Object(members) =>
        if i > 0 {
          MembersAddress(members, path, fill, i - 1);
          var e := MemberEvents(members, path)[i - 1];
          KeysAreFields(members, fill);
        }
      case List(elems) =>
        if i > 0 {
          ElemsAddress(elems, path, fill, 0, i - 1);
        }
      case _ =>
    }
  }

  /** A reported path goes on with a key of the object. */
  ghost predicate InFields(e: Event, m: Members, from: nat, fill: Fill) {
    && from < |e.path| && e.path[from] in Fields(m, fill) && e.path[from] in Keys(m)
    && Addresses(e, Fields(m, fill)[e.path[from]], from + 1, fill)
  }

  lemma {:induction false} MembersAddress(m: Members, path: Path, fill: Fill, i: nat)
    requires DistinctIn(m) && i < |MemberEvents(m, path)|
    ensures InFields(MemberEvents(m, path)[i], m, |path|, fill) && MemberEvents(m, path)[i].path[..|path|] == path
    decreases m, 1
  {
    match m {
      case Member(key, val, rest) =>
        var mine := EventsOf(val, path + [key]);
        KeysAreFields(rest, fill);
        if i < |mine| {
          TreeAddresses(val, path + [key], fill, i);
          StaysUnder(val, path + [key], i);
          assert mine[i].path[..|path| + 1][|path|] == key;
          assert mine[i].path[..|path| + 1][..|path|] == path;
        } else {
          MembersAddress(rest, path, fill, i - |mine|);
        }
    }
  }

  /** Every path reported of a value begins with the value's own. */
  lemma {:induction false} StaysUnder(t: Tree, path: Path, i: nat)
    requires i < |EventsOf(t, path)|
    ensures var e := EventsOf(t, path)[i]; |path| <= |e.path| && e.path[..|path|] == path
    decreases t, 0
  {
    match t {
      case Object(members) =>
        if i > 0 {
          MemberStaysUnder(members, path, i - 1);
        }
      case List(elems) =>
        if i > 0 {
          ElemStaysUnder(elems, path, 0, i - 1);
        }
      case _ =>
    }
  }

  lemma {:induction false} MemberStaysUnder(m: Members, path: Path, i: nat)
    requires i < |MemberEvents(m, path)|
    ensures var e := MemberEvents(m, path)[i];
      |path| < |e.path| && e.path[..|path|] == path && e.path[|path|] in Keys(m)
    decreases m, 1
  {
    match m {
      case Member(key, val, rest) =>
        var mine := EventsOf(val, path + [key]);
        if i < |mine| {
          StaysUnder(val, path + [key], i);
          assert mine[i].path[..|path| + 1][..|path|] == path && mine[i].path[..|path| + 1][|path|] == key;
        } else {
          MemberStaysUnder(rest, path, i - |mine|);
        }
    }
  }

  lemma {:induction false} ElemStaysUnder(e: Elems, path: Path, at: nat, i: nat)
    requires i < |ElemEvents(e, path, at)|
    ensures var v := ElemEvents(e, path, at)[i];
      |path| < |v.path| && v.path[..|path|] == path && exists k: nat :: at <= k && v.path[|path|] == DecimalText(k)
    decreases e, 1
  {
    match e {
      case Elem(val, rest) =>
        var mine := EventsOf(val, path + [DecimalText(at)]);
        if i < |mine| {
          StaysUnder(val, path + [DecimalText(at)], i);
          assert mine[i].path[..|path| + 1][..|path|] == path && mine[i].path[..|path| + 1][|path|] == DecimalText(at);
        } else {
          ElemStaysUnder(rest, path, at + 1, i - |mine|);
        }
    }
  }

  /** A reported path goes on with the index of an element, counted from the whole array's first. */
  ghost predicate InItems(v: Event, items: seq<P.Doc>, from: nat, at: nat, fill: Fill) {
    from < |v.path| && exists k: nat :: k < |items| && v.path[from] == DecimalText(at + k)
                         && Addresses(v, items[k], from + 1, fill)
  }

  lemma {:induction false} ElemsWithin(e: Elems, path: Path, fill: Fill, at: nat, i: nat)
    requires DistinctInAll(e) && i < |ElemEvents(e, path, at)|
    ensures InItems(ElemEvents(e, path, at)[i], Items(e, fill), |path|, at, fill)
    decreases e, 1
  {
    match e {
      case Elem(val, rest) =>
        var mine := EventsOf(val, path + [DecimalText(at)]);
        var items := Items(e, fill);
        assert items[0] == Filled(val, fill);
        if i < |mine| {
          TreeAddresses(val, path + [DecimalText(at)], fill, i);
          StaysUnder(val, path + [DecimalText(at)], i);
          assert mine[i].path[..|path| + 1][|path|] == DecimalText(at);
          assert DecimalText(at) == DecimalText(at + 0);
        } else {
          ElemsWithin(rest, path, fill, at + 1, i - |mine|);
          var v := ElemEvents(rest, path, at + 1)[i - |mine|];
          var k: nat :| k < |Items(rest, fill)| && v.path[|path|] == DecimalText(at + 1 + k)
            && Addresses(v, Items(rest, fill)[k], |path| + 1, fill);
          assert items[k + 1] == Items(rest, fill)[k] && at + 1 + k == at + (k + 1);
        }
    }
  }

  lemma {:induction false} ElemsAddress(e: Elems, path: Path, fill: Fill, at: nat, i: nat)
    requires DistinctInAll(e) && at == 0 && i < |ElemEvents(e, path, 0)|
    ensures Addresses(ElemEvents(e, path, 0)[i], P.Arr(Items(e, fill)), |path|, fill)
    decreases e, 2
  {
    ElemsWithin(e, path, fill, 0, i);
    var v, items := ElemEvents(e, path, 0)[i], Items(e, fill);
    var k: nat :| k < |items| && v.path[|path|] == DecimalText(0 + k) && Addresses(v, items[k], |path| + 1, fill);
    P.IndexOfDecimal(k, |items|);
  }

  /** Every path the scan of a template reports addresses a value of the body, and the one that was reported. */
  lemma EveryPathAddresses(m: Members, fill: Fill, i: nat)
    requires DistinctIn(m) && i < |MemberEvents(m, [])|
    ensures Addresses(MemberEvents(m, [])[i], Filled(Object(m), fill), 0, fill)
  {
    MembersAddress(m, [], fill, i);
  }

  // ---------- Each value once ----------

  /** Two reports of one path are two placeholders in one string. */
  predicate Alike(a: Event, b: Event) {
    a.path == b.path ==> a.Placeholder? && !a.bare && b.Placeholder? && !b.bare
  }

  lemma {:induction false} ReportedApart(t: Tree, path: Path, i: nat, j: nat)
    requires DistinctKeys(t) && i < j < |EventsOf(t, path)|
    ensures Alike(EventsOf(t, path)[i], EventsOf(t, path)[j])
    decreases t, 0
  {
    match t {
      case Object(members) =>
        if i > 0 {
          MembersApart(members, path, i - 1, j - 1);
        } else {
          MemberStaysUnder(members, path, j - 1);
        }
      case List(elems) =>
        if i > 0 {
          ElemsApart(elems, path, 0, i - 1, j - 1);
        } else {
          ElemStaysUnder(elems, path, 0, j - 1);
        }
      case _ =>
    }
  }

  lemma {:induction false} MembersApart(m: Members, path: Path, i: nat, j: nat)
    requires DistinctIn(m) && i < j < |MemberEvents(m, path)|
    ensures Alike(MemberEvents(m, path)[i], MemberEvents(m, path)[j])
    decreases m, 1
  {
    match m {
      case Member(key, val, rest) =>
        var n := |EventsOf(val, path + [key])|;
        if j < n {
          ReportedApart(val, path + [key], i, j);
        } else if i >= n {
          MembersApart(rest, path, i - n, j - n);
        } else {
          StaysUnder(val, path + [key], i);
          MemberStaysUnder(rest, path, j - n);
          assert EventsOf(val, path + [key])[i].path[..|path| + 1][|path|] == key;
        }
    }
  }

  lemma {:induction false} ElemsApart(e: Elems, path: Path, at: nat, i: nat, j: nat)
    requires DistinctInAll(e) && i < j < |ElemEvents(e, path, at)|
    ensures Alike(ElemEvents(e, path, at)[i], ElemEvents(e, path, at)[j])
    decreases e, 1
  {
    match e {
      case Elem(val, rest) =>
        var n := |EventsOf(val, path + [DecimalText(at)])|;
        if j < n {
          ReportedApart(val, path + [DecimalText(at)], i, j);
        } else if i >= n {
          ElemsApart(rest, path, at + 1, i - n, j - n);
        } else {
          StaysUnder(val, path + [DecimalText(at)], i);
          ElemStaysUnder(rest, path, at + 1, j - n);
          assert EventsOf(val, path + [DecimalText(at)])[i].path[..|path| + 1][|path|] == DecimalText(at);
          LaterIndex(ElemEvents(rest, path, at + 1)[j - n].path[|path|], at);
        }
    }
  }

  lemma LaterIndex(key: string, at: nat)
    requires exists k: nat :: at + 1 <= k && key == DecimalText(k)
    ensures key != DecimalText(at)
  {
    var k: nat :| at + 1 <= k && key == DecimalText(k);
    if key == DecimalText(at) {
      TextsDiffer(k, at);
    }
  }

  // ---------- None missed ----------

  /** sub is the value of the template at the path, from its segment i on. */
  ghost predicate Holds(t: Tree, q: Path, i: nat, sub: Tree)
    requires i <= |q|
    decreases |q| - i, t, 0
  {
    if i == |q| then sub == t
    else match t
      case Object(members) => HoldsIn(members, q, i, sub)
      case List(elems) => HoldsAt(elems, 0, q, i, sub)
      case _ => false
  }

  ghost predicate HoldsIn(m: Members, q: Path, i: nat, sub: Tree)
    requires i < |q|
    decreases |q| - i, m, 1
  {
    match m
    case NoMembers => false
    case Member(key, val, rest) => (q[i] == key && Holds(val, q, i + 1, sub)) || HoldsIn(rest, q, i, sub)
  }

  ghost predicate HoldsAt(e: Elems, at: nat, q: Path, i: nat, sub: Tree)
    requires i < |q|
    decreases |q| - i, e, 1
  {
    match e
    case NoElems => false
    case Elem(val, rest) => (q[i] == DecimalText(at) && Holds(val, q, i + 1, sub)) || HoldsAt(rest, at + 1, q, i, sub)
  }

  ghost predicate Reports(events: seq<Event>, q: Path) {
    exists k :: 0 <= k < |events| && events[k].path == q
  }

  lemma ReportsMore(a: seq<Event>, b: seq<Event>, q: Path)
    ensures Reports(a, q) || Reports(b, q) ==> Reports(a + b, q)
  {
    if Reports(a, q) {
      var k :| 0 <= k < |a| && a[k].path == q;
      assert (a + b)[k].path == q;
    }
    if Reports(b, q) {
      var k :| 0 <= k < |b| && b[k].path == q;
      assert (a + b)[|a| + k].path == q;
    }
  }

  lemma {:induction false} ValueIsReported(t: Tree, q: Path, i: nat, sub: Tree)
    requires i <= |q| && Holds(t, q, i, sub)
    ensures Reports(EventsOf(t, q[..i]), q)
    decreases |q| - i, t, 0
  {
    if i == |q| {
      assert q[..i] == q;
      assert EventsOf(t, q)[0].path == q;
    } else {
      match t {
        case Object(members) =>
          MemberIsReported(members, q, i, sub);
          ReportsMore([Container(q[..i], AnObject, false)], MemberEvents(members, q[..i]), q);
        case List(elems) =>
          ElemIsReported(elems, 0, q, i, sub);
          ReportsMore([Container(q[..i], AnArray, false)], ElemEvents(elems, q[..i], 0), q);
      }
    }
  }

  lemma {:induction false} MemberIsReported(m: Members, q: Path, i: nat, sub: Tree)
    requires i < |q| && HoldsIn(m, q, i, sub)
    ensures Reports(MemberEvents(m, q[..i]), q)
    decreases |q| - i, m, 1
  {
    match m {
      case Member(key, val, rest) =>
        if q[i] == key && Holds(val, q, i + 1, sub) {
          ValueIsReported(val, q, i + 1, sub);
          assert q[..i + 1] == q[..i] + [key];
        } else {
          MemberIsReported(rest, q, i, sub);
        }
        ReportsMore(EventsOf(val, q[..i] + [key]), MemberEvents(rest, q[..i]), q);
    }
  }

  lemma {:induction false} ElemIsReported(e: Elems, at: nat, q: Path, i: nat, sub: Tree)
    requires i < |q| && HoldsAt(e, at, q, i, sub)
    ensures Reports(ElemEvents(e, q[..i], at), q)
    decreases |q| - i, e, 1
  {
    match e {
      case Elem(val, rest) =>
        if q[i] == DecimalText(at) && Holds(val, q, i + 1, sub) {
          ValueIsReported(val, q, i + 1, sub);
          assert q[..i + 1] == q[..i] + [DecimalText(at)];
        } else {
          ElemIsReported(rest, at + 1, q, i, sub);
        }
        ReportsMore(EventsOf(val, q[..i] + [DecimalText(at)]), ElemEvents(rest, q[..i], at + 1), q);
    }
  }

  /** The scan of a template reports every value in it, and each once: two reports of a path are
      two placeholders in one string. */
  lemma EachValueOnce(m: Members, q: Path, sub: Tree, i: nat, j: nat)
    requires DistinctIn(m) && q != [] && Holds(Object(m), q, 0, sub) && i < j < |MemberEvents(m, [])|
    ensures Reports(MemberEvents(m, []), q) && Alike(MemberEvents(m, [])[i], MemberEvents(m, [])[j])
  {
    MemberIsReported(m, q, 0, sub);
    assert q[..0] == [];
    MembersApart(m, [], i, j);
  }
}

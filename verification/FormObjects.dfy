/** The value read back from a form body is the value sent, in normal form: a one-element list reads
    back as its element, and a list of maps as a map keyed by index (archive/formbody.go FormObject). */
module FormObjects {
  import opened Bytes
  import opened Decimals
  import opened Form
  import opened FormBody
  import opened FormTheorems

  predicate GoodName(name: Bytes) {
    name != [] && forall i :: 0 <= i < |name| ==> name[i] != OPEN && name[i] != CLOSE
  }

  ghost predicate GoodNames(path: seq<Bytes>) {
    path != [] && forall i :: 0 <= i < |path| ==> GoodName(path[i])
  }

  /** The key of the first n segments. */
  function KeyTo(path: seq<Bytes>, n: nat): Bytes
    requires n <= |path|
  {
    if n == 0 then [] else if n == 1 then path[0] else SubKey(KeyTo(path, n - 1), path[n - 1])
  }

  function KeyOf(path: seq<Bytes>): Bytes {
    KeyTo(path, |path|)
  }

  // ---------- A key splits into its path ----------

  lemma IndexIs(s: Bytes, b: byte, from: nat, i: nat)
    requires from <= i < |s| && s[i] == b && forall k :: from <= k < i ==> s[k] != b
    ensures IndexFrom(s, [b], from) == i
  {
    assert s[i..i + 1] == [b];
    assert Occurs(s, [b], i);
    forall k: nat | from <= k < i ensures !Occurs(s, [b], k) {
      assert s[k..k + 1][0] == s[k];
    }
  }

  /** Segment k of key lies between its brackets. */
  ghost predicate SegmentLies(key: Bytes, at: nat, segment: Bytes) {
    && at + |segment| + 2 <= |key| && key[at] == OPEN && key[at + 1 + |segment|] == CLOSE
    && forall j :: 0 <= j < |segment| ==> key[at + 1 + j] == segment[j]
  }

  lemma {:induction false} SegmentLiesIn(path: seq<Bytes>, k: nat, n: nat)
    requires 0 < k < n <= |path|
    ensures |KeyTo(path, k + 1)| == |KeyTo(path, k)| + |path[k]| + 2
    ensures SegmentLies(KeyTo(path, n), |KeyTo(path, k)|, path[k])
    decreases n
  {
    if k + 1 < n {
      SegmentLiesIn(path, k, n - 1);
    }
  }

  lemma {:induction false} FirstLiesIn(path: seq<Bytes>, n: nat)
    requires 0 < n <= |path|
    ensures |path[0]| <= |KeyTo(path, n)| && KeyTo(path, n)[..|path[0]|] == path[0]
    ensures n > 1 ==> |path[0]| < |KeyTo(path, n)| && KeyTo(path, n)[|KeyTo(path, n)| - 1] == CLOSE
  {
    if n > 1 {
      FirstLiesIn(path, n - 1);
      assert KeyTo(path, n)[..|path[0]|] == KeyTo(path, n - 1)[..|path[0]|];
    }
  }

  lemma SegmentFound(key: Bytes, at: nat, segment: Bytes)
    requires SegmentLies(key, at, segment) && GoodName(segment)
    ensures IndexFrom(key, [CLOSE], at) == at + 1 + |segment| && key[at + 1..at + 1 + |segment|] == segment
  {
    forall k | at <= k < at + 1 + |segment| ensures key[k] != CLOSE {
      if k > at {
        assert key[at + 1 + (k - at - 1)] == segment[k - at - 1];
      }
    }
    IndexIs(key, CLOSE, at, at + 1 + |segment|);
  }

  lemma {:induction false} SegmentsRead(path: seq<Bytes>, k: nat, before: seq<Bytes>)
    requires GoodNames(path) && |path| <= MaxFormKeyDepth && 0 < k <= |path| && before == path[..k]
    ensures |KeyTo(path, k)| <= |KeyOf(path)|
    ensures SegmentsFrom(KeyOf(path), |KeyTo(path, k)|, before) == Segments(Path(path, false))
    decreases |path| - k
  {
    hide SegmentsFrom, KeyTo;
    if k < |path| {
      SegmentLiesIn(path, k, |path|);
      SegmentRead(KeyOf(path), |KeyTo(path, k)|, path[k], before);
      assert before + [path[k]] == path[..k + 1];
      SegmentsRead(path, k + 1, before + [path[k]]);
    } else {
      NothingLeft(KeyOf(path), before);
      assert before == path;
    }
  }

  lemma SegmentRead(key: Bytes, at: nat, segment: Bytes, before: seq<Bytes>)
    requires SegmentLies(key, at, segment) && GoodName(segment) && |before| < MaxFormKeyDepth
    ensures SegmentsFrom(key, at, before) == SegmentsFrom(key, at + |segment| + 2, before + [segment])
  {
    SegmentFound(key, at, segment);
  }

  lemma NothingLeft(key: Bytes, before: seq<Bytes>)
    ensures SegmentsFrom(key, |key|, before) == Segments(Path(before, false))
  {
  }

  lemma KeySplits(path: seq<Bytes>)
    requires GoodNames(path) && |path| <= MaxFormKeyDepth
    ensures PathOf(KeyOf(path)) == Path(path, false)
  {
    var key := KeyOf(path);
    FirstLiesIn(path, |path|);
    forall k | 0 <= k < |path[0]| ensures key[k] != OPEN {
      assert key[..|path[0]|][k] == path[0][k];
    }
    if |path| == 1 {
      assert path == [key];
    } else {
      SegmentLiesIn(path, 1, |path|);
      IndexIs(key, OPEN, 0, |path[0]|);
      SegmentsRead(path, 1, [key[..|path[0]|]]);
    }
  }

  // ---------- What is sent, by path ----------

  datatype Sent = Sent(path: seq<Bytes>, value: Bytes)

  function SentBy(path: seq<Bytes>, v: FormValue): seq<Sent>
    decreases v, 0
  {
    match v
    case Nil => []
    case Scalar(text) => [Sent(path, text)]
    case Dict(entries) => SentEntries(path, entries)
    case Multi(elems) => SentElems(path, elems, 0)
  }

  function SentEntries(path: seq<Bytes>, e: Entries): seq<Sent>
    decreases e, 1
  {
    if e.NoEntries? then [] else SentBy(path + [e.name], e.value) + SentEntries(path, e.rest)
  }

  function SentElems(path: seq<Bytes>, e: Elems, i: nat): seq<Sent>
    decreases e, 1
  {
    if e.NoElems? then []
    else SentBy(if IsNested(e.value) then path + [Decimal(i)] else path, e.value) + SentElems(path, e.rest, i + 1)
  }

  function AsPairs(sent: seq<Sent>): (r: seq<Pair>)
    ensures |r| == |sent|
  {
    seq(|sent|, i requires 0 <= i < |sent| => Pair(KeyOf(sent[i].path), sent[i].value))
  }

  /** Every map key inside v is a bracket-free name. */
  predicate GoodValue(v: FormValue)
    decreases v, 0
  {
    match v
    case Nil => true
    case Scalar(_) => true
    case Dict(entries) => GoodEntries(entries)
    case Multi(elems) => GoodElems(elems)
  }

  predicate GoodEntries(e: Entries)
    decreases e, 1
  {
    e.Entry? ==> GoodName(e.name) && GoodValue(e.value) && GoodEntries(e.rest)
  }

  predicate GoodElems(e: Elems)
    decreases e, 1
  {
    e.Elem? ==> GoodValue(e.value) && GoodElems(e.rest)
  }

  lemma {:induction false} DecimalIsGood(n: nat)
    ensures GoodName(Decimal(n))
  {
    if n >= 10 {
      DecimalIsGood(n / 10);
    }
  }

  lemma {:induction false} KeySame(a: seq<Bytes>, b: seq<Bytes>, n: nat)
    requires n <= |a| && n <= |b| && forall i :: 0 <= i < n ==> a[i] == b[i]
    ensures KeyTo(a, n) == KeyTo(b, n)
  {
    if n > 0 {
      KeySame(a, b, n - 1);
    }
  }

  lemma KeyOfLonger(path: seq<Bytes>, name: Bytes)
    requires path != []
    ensures KeyOf(path + [name]) == SubKey(KeyOf(path), name)
  {
    KeySame(path + [name], path, |path|);
  }

  lemma NeverTrimmed(path: seq<Bytes>)
    requires GoodNames(path)
    ensures !EndsInBrackets(KeyOf(path))
  {
    var last := path[|path| - 1];
    assert GoodName(last);
    if |path| > 1 {
      var key := KeyOf(path);
      assert key[|key| - 2] == last[|last| - 1];
    }
  }

  lemma AsPairsConcat(a: seq<Sent>, b: seq<Sent>)
    ensures AsPairs(a + b) == AsPairs(a) + AsPairs(b)
  {
  }

  lemma {:induction false} PairsAreSent(path: seq<Bytes>, v: FormValue)
    requires GoodNames(path) && GoodValue(v)
    ensures PairsOf(KeyOf(path), v) == AsPairs(SentBy(path, v))
    decreases v, 0
  {
    match v {
      case Dict(entries) => EntriesAreSent(path, entries);
      case Multi(elems) => ElemsAreSent(path, elems, 0);
      case _ =>
    }
  }

  lemma {:induction false} EntriesAreSent(path: seq<Bytes>, e: Entries)
    requires GoodNames(path) && GoodEntries(e)
    ensures EntryPairs(KeyOf(path), e) == AsPairs(SentEntries(path, e))
    decreases e, 1
  {
    if e.Entry? {
      KeyOfLonger(path, e.name);
      PairsAreSent(path + [e.name], e.value);
      EntriesAreSent(path, e.rest);
      AsPairsConcat(SentBy(path + [e.name], e.value), SentEntries(path, e.rest));
    }
  }

  lemma {:induction false} ElemsAreSent(path: seq<Bytes>, e: Elems, i: nat)
    requires GoodNames(path) && GoodElems(e)
    ensures ElemPairs(KeyOf(path), e, i) == AsPairs(SentElems(path, e, i))
    decreases e, 1
  {
    if e.Elem? {
      NeverTrimmed(path);
      DecimalIsGood(i);
      KeyOfLonger(path, Decimal(i));
      var at := if IsNested(e.value) then path + [Decimal(i)] else path;
      PairsAreSent(at, e.value);
      ElemsAreSent(path, e.rest, i + 1);
      AsPairsConcat(SentBy(at, e.value), SentElems(path, e.rest, i + 1));
    }
  }

  // ---------- Setting what was sent ----------

  /** m with the first n values set, at their paths' segments from i on. */
  function SetAll(m: Object, i: nat, sent: seq<Sent>, n: nat): Object
    requires n <= |sent| && forall k :: 0 <= k < |sent| ==> i < |sent[k].path|
  {
    if n == 0 then m else SetPath(SetAll(m, i, sent, n - 1), Path(sent[n - 1].path, false), i, sent[n - 1].value)
  }

  ghost predicate Deep(sent: seq<Sent>, i: nat) {
    forall k :: 0 <= k < |sent| ==> i < |sent[k].path|
  }

  lemma {:induction false} SetAllSame(m: Object, i: nat, a: seq<Sent>, b: seq<Sent>, n: nat)
    requires Deep(a, i) && Deep(b, i) && n <= |a| && n <= |b| && forall k :: 0 <= k < n ==> a[k] == b[k]
    ensures SetAll(m, i, a, n) == SetAll(m, i, b, n)
  {
    if n > 0 {
      SetAllSame(m, i, a, b, n - 1);
    }
  }

  lemma {:induction false} SetAllConcat(m: Object, i: nat, a: seq<Sent>, b: seq<Sent>, n: nat)
    requires Deep(a, i) && Deep(b, i) && n <= |b|
    ensures Deep(a + b, i) && SetAll(m, i, a + b, |a| + n) == SetAll(SetAll(m, i, a, |a|), i, b, n)
  {
    if n == 0 {
      SetAllSame(m, i, a + b, a, |a|);
    } else {
      SetAllConcat(m, i, a, b, n - 1);
      assert (a + b)[|a| + n - 1] == b[n - 1];
    }
  }

  /** Every path goes on below name at segment i. */
  ghost predicate Below(sent: seq<Sent>, i: nat, name: Bytes) {
    forall k :: 0 <= k < |sent| ==> i + 1 < |sent[k].path| && sent[k].path[i] == name
  }

  /** Values below a name are set in the map there. */
  lemma {:induction false} SetBelow(m: Object, i: nat, name: Bytes, sent: seq<Sent>, n: nat)
    requires Below(sent, i, name) && n <= |sent|
    ensures Deep(sent, i) && Deep(sent, i + 1)
    ensures SetAll(m, i, sent, n) == if n == 0 then m else m[name := Node(SetAll(Child(m, name), i + 1, sent, n))]
  {
    if n > 0 {
      SetBelow(m, i, name, sent, n - 1);
    }
  }

  // ---------- The normal form ----------

  /** Whether a value sends anything. */
  predicate Sends(v: FormValue)
    decreases v, 0
  {
    match v
    case Nil => false
    case Scalar(_) => true
    case Dict(entries) => EntriesSend(entries)
    case Multi(elems) => ElemsSend(elems)
  }

  predicate EntriesSend(e: Entries)
    decreases e, 1
  {
    e.Entry? && (Sends(e.value) || EntriesSend(e.rest))
  }

  predicate ElemsSend(e: Elems)
    decreases e, 1
  {
    e.Elem? && (Sends(e.value) || ElemsSend(e.rest))
  }

  predicate HasScalars(e: Elems) {
    e.Elem? && (e.value.Scalar? || HasScalars(e.rest))
  }

  predicate HasNested(e: Elems) {
    e.Elem? && (IsNested(e.value) || HasNested(e.rest))
  }

  /** No list mixes scalars with maps or lists. */
  predicate Unmixed(v: FormValue)
    decreases v, 0
  {
    match v
    case Nil => true
    case Scalar(_) => true
    case Dict(entries) => UnmixedEntries(entries)
    case Multi(elems) => !(HasScalars(elems) && HasNested(elems)) && UnmixedElems(elems)
  }

  predicate UnmixedEntries(e: Entries)
    decreases e, 1
  {
    e.Entry? ==> !Named(e.rest, e.name) && Unmixed(e.value) && UnmixedEntries(e.rest)
  }

  predicate UnmixedElems(e: Elems)
    decreases e, 1
  {
    e.Elem? ==> Unmixed(e.value) && UnmixedElems(e.rest)
  }

  predicate Named(e: Entries, name: Bytes) {
    e.Entry? && (e.name == name || Named(e.rest, name))
  }

  /** The scalars of a list, in order. */
  function Scalars(e: Elems): seq<Bytes> {
    if e.NoElems? then [] else (if e.value.Scalar? then [e.value.text] else []) + Scalars(e.rest)
  }

  function Strs(texts: seq<Bytes>): seq<Decoded> {
    seq(|texts|, i requires 0 <= i < |texts| => Str(texts[i]))
  }

  /** What a list of scalars reads back as: one as itself, more as a list. */
  function ListOf(texts: seq<Bytes>): Decoded
    requires texts != []
  {
    if |texts| == 1 then Str(texts[0]) else Arr(Strs(texts))
  }

  function NormalForm(v: FormValue): Decoded
    requires Sends(v)
    decreases v, 0
  {
    match v
    case Scalar(text) => Str(text)
    case Dict(entries) => Node(Adding(map[], entries))
    case Multi(elems) => if Scalars(elems) != [] then ListOf(Scalars(elems)) else Node(AddingElems(map[], elems, 0))
  }

  /** m with each entry that sends anything, in normal form. */
  function Adding(m: Object, e: Entries): Object
    decreases e, 1
  {
    if e.NoEntries? then m else Adding(if Sends(e.value) then m[e.name := NormalForm(e.value)] else m, e.rest)
  }

  /** m with each map or list among the elements that sends anything, under its index. */
  function AddingElems(m: Object, e: Elems, i: nat): Object
    decreases e, 1
  {
    if e.NoElems? then m
    else
      AddingElems(if IsNested(e.value) && Sends(e.value) then m[Decimal(i) := NormalForm(e.value)] else m,
        e.rest, i + 1)
  }

  // ---------- Setting a value sets its normal form ----------

  /** Every path goes on from path, or stops at it. */
  ghost predicate From(sent: seq<Sent>, path: seq<Bytes>) {
    forall k :: 0 <= k < |sent| ==> path <= sent[k].path
  }

  lemma {:induction false} SentFrom(path: seq<Bytes>, v: FormValue)
    ensures From(SentBy(path, v), path) && (SentBy(path, v) != [] <==> Sends(v))
    decreases v, 0
  {
    match v {
      case Dict(entries) => EntriesFrom(path, entries);
      case Multi(elems) => ElemsFrom(path, elems, 0);
      case _ =>
    }
  }

  lemma {:induction false} EntriesFrom(path: seq<Bytes>, e: Entries)
    ensures From(SentEntries(path, e), path) && (SentEntries(path, e) != [] <==> EntriesSend(e))
    ensures Deep(SentEntries(path, e), |path|)
    decreases e, 1
  {
    if e.Entry? {
      SentFrom(path + [e.name], e.value);
      EntriesFrom(path, e.rest);
    }
  }

  lemma {:induction false} ElemsFrom(path: seq<Bytes>, e: Elems, i: nat)
    ensures From(SentElems(path, e, i), path) && (SentElems(path, e, i) != [] <==> ElemsSend(e))
    ensures !HasScalars(e) ==> Deep(SentElems(path, e, i), |path|)
    decreases e, 1
  {
    if e.Elem? {
      SentFrom(if IsNested(e.value) then path + [Decimal(i)] else path, e.value);
      ElemsFrom(path, e.rest, i + 1);
    }
  }

  lemma IsBelow(sent: seq<Sent>, path: seq<Bytes>, name: Bytes)
    requires From(sent, path + [name]) && Deep(sent, |path| + 1)
    ensures Below(sent, |path|, name)
  {
    forall k | 0 <= k < |sent| ensures sent[k].path[|path|] == name {
      assert (path + [name])[|path|] == name;
    }
  }

  lemma FromIsDeep(sent: seq<Sent>, path: seq<Bytes>, i: nat)
    requires From(sent, path) && i < |path|
    ensures Deep(sent, i)
  {
  }

  /** The keys are indices below i. */
  ghost predicate Indices(m: Object, i: nat) {
    forall key :: key in m ==> exists j: nat :: j < i && key == Decimal(j)
  }

  lemma IndexIsFree(m: Object, i: nat)
    requires Indices(m, i)
    ensures Decimal(i) !in m
  {
    if Decimal(i) in m {
      var j: nat :| j < i && Decimal(i) == Decimal(j);
      DecimalsDiffer(i, j);
    }
  }

  lemma IndicesGrow(m: Object, i: nat, d: Decoded)
    requires Indices(m, i)
    ensures Indices(m, i + 1) && Indices(m[Decimal(i) := d], i + 1)
  {
  }

  /** Setting all that v sends under a new name sets the name to v's normal form. */
  lemma {:induction false} SetsValue(m: Object, path: seq<Bytes>, name: Bytes, v: FormValue)
    requires name !in m && Unmixed(v)
    ensures var sent := SentBy(path + [name], v);
      Deep(sent, |path|) && SetAll(m, |path|, sent, |sent|) == if Sends(v) then m[name := NormalForm(v)] else m
    decreases v, 0
  {
    var q := path + [name];
    SentFrom(q, v);
    FromIsDeep(SentBy(q, v), q, |path|);
    match v {
      case Nil =>
      case Scalar(text) => SetsScalar(m, path, name, text);
      case Dict(entries) =>
        EntriesFrom(q, entries);
        IsBelow(SentEntries(q, entries), path, name);
        SetBelow(m, |path|, name, SentEntries(q, entries), |SentEntries(q, entries)|);
        SetsEntries(map[], q, entries);
      case Multi(elems) =>
        NoScalars(elems);
        if HasScalars(elems) {
          SetsScalars(m, path, name, elems);
        } else {
          ElemsFrom(q, elems, 0);
          IsBelow(SentElems(q, elems, 0), path, name);
          SetBelow(m, |path|, name, SentElems(q, elems, 0), |SentElems(q, elems, 0)|);
          SetsElems(map[], q, elems, 0);
        }
    }
  }

  lemma {:induction false} NoScalars(e: Elems)
    ensures HasScalars(e) <==> Scalars(e) != []
    decreases e
  {
    if e.Elem? {
      NoScalars(e.rest);
    }
  }

  lemma SetsScalar(m: Object, path: seq<Bytes>, name: Bytes, text: Bytes)
    requires name !in m
    ensures SetAll(m, |path|, [Sent(path + [name], text)], 1) == m[name := Str(text)]
  {
    var sent := [Sent(path + [name], text)];
    assert SetAll(m, |path|, sent, 0) == m;
    assert (path + [name])[|path|] == name;
  }

  lemma {:induction false} SetsEntries(m: Object, path: seq<Bytes>, e: Entries)
    requires UnmixedEntries(e) && forall n :: Named(e, n) ==> n !in m
    ensures var sent := SentEntries(path, e); Deep(sent, |path|) && SetAll(m, |path|, sent, |sent|) == Adding(m, e)
    decreases e, 1
  {
    EntriesFrom(path, e);
    if e.Entry? {
      var a, b := SentBy(path + [e.name], e.value), SentEntries(path, e.rest);
      assert Named(e, e.name);
      SetsValue(m, path, e.name, e.value);
      EntriesFrom(path, e.rest);
      SetAllConcat(m, |path|, a, b, |b|);
      var next := if Sends(e.value) then m[e.name := NormalForm(e.value)] else m;
      forall n | Named(e.rest, n) ensures n !in next {
        assert Named(e, n);
      }
      SetsEntries(next, path, e.rest);
    }
  }

  lemma {:induction false} SetsElems(m: Object, path: seq<Bytes>, e: Elems, i: nat)
    requires UnmixedElems(e) && !HasScalars(e) && Indices(m, i)
    ensures var sent := SentElems(path, e, i);
      Deep(sent, |path|) && SetAll(m, |path|, sent, |sent|) == AddingElems(m, e, i)
    decreases e, 1
  {
    ElemsFrom(path, e, i);
    if e.Elem? {
      ElemsFrom(path, e.rest, i + 1);
      NextElems(m, e, i);
      SetsElems(AfterElem(m, e, i), path, e.rest, i + 1);
      if IsNested(e.value) {
        IndexIsFree(m, i);
        SetsValue(m, path, Decimal(i), e.value);
        NestedElem(m, path, e, i);
      } else {
        assert SentElems(path, e, i) == SentElems(path, e.rest, i + 1);
      }
    }
  }

  /** m once the first of the elements is in. */
  function AfterElem(m: Object, e: Elems, i: nat): Object
    requires e.Elem?
  {
    if IsNested(e.value) && Sends(e.value) then m[Decimal(i) := NormalForm(e.value)] else m
  }

  lemma NestedElem(m: Object, path: seq<Bytes>, e: Elems, i: nat)
    requires e.Elem? && IsNested(e.value)
    requires var a := SentBy(path + [Decimal(i)], e.value);
      Deep(a, |path|) && SetAll(m, |path|, a, |a|) == AfterElem(m, e, i)
    requires Deep(SentElems(path, e.rest, i + 1), |path|) && Deep(SentElems(path, e, i), |path|)
    ensures SetAll(m, |path|, SentElems(path, e, i), |SentElems(path, e, i)|) ==
            SetAll(AfterElem(m, e, i), |path|, SentElems(path, e.rest, i + 1), |SentElems(path, e.rest, i + 1)|)
  {
    var a, b := SentBy(path + [Decimal(i)], e.value), SentElems(path, e.rest, i + 1);
    SetAllConcat(m, |path|, a, b, |b|);
  }

  lemma NextElems(m: Object, e: Elems, i: nat)
    requires e.Elem? && Indices(m, i)
    ensures Indices(AfterElem(m, e, i), i + 1)
  {
    if Sends(e.value) {
      IndicesGrow(m, i, NormalForm(e.value));
    } else {
      IndicesGrow(m, i, Str([]));
    }
  }

  function Repeats(path: seq<Bytes>, texts: seq<Bytes>): seq<Sent> {
    seq(|texts|, i requires 0 <= i < |texts| => Sent(path, texts[i]))
  }

  lemma {:induction false} ScalarsAreRepeats(path: seq<Bytes>, e: Elems, i: nat)
    requires !HasNested(e)
    ensures SentElems(path, e, i) == Repeats(path, Scalars(e))
    decreases e
  {
    if e.Elem? {
      ScalarsAreRepeats(path, e.rest, i + 1);
    }
  }

  /** A repeated key collects a list. */
  lemma {:induction false} RepeatsCollect(m: Object, path: seq<Bytes>, name: Bytes, texts: seq<Bytes>, n: nat)
    requires name !in m && 0 < n <= |texts| && Deep(Repeats(path + [name], texts), |path|)
    ensures SetAll(m, |path|, Repeats(path + [name], texts), n) == m[name := ListOf(texts[..n])]
  {
    var sent := Repeats(path + [name], texts);
    assert (path + [name])[|path|] == name;
    if n == 1 {
      assert SetAll(m, |path|, sent, 0) == m;
    } else {
      RepeatsCollect(m, path, name, texts, n - 1);
      OneMoreInList(texts, n);
      assert SetAll(m, |path|, sent, n)
        == SetPath(SetAll(m, |path|, sent, n - 1), Path(path + [name], false), |path|, texts[n - 1]);
    }
  }

  lemma OneMoreInList(texts: seq<Bytes>, n: nat)
    requires 1 < n <= |texts|
    ensures var was := ListOf(texts[..n - 1]);
      ListOf(texts[..n]) == if was.Arr? then Arr(was.items + [Str(texts[n - 1])]) else Arr([was, Str(texts[n - 1])])
  {
    assert texts[..n] == texts[..n - 1] + [texts[n - 1]];
    assert Strs(texts[..n]) == Strs(texts[..n - 1]) + [Str(texts[n - 1])];
    assert n == 2 ==> Strs(texts[..n - 1]) == [Str(texts[0])];
  }

  lemma SetsScalars(m: Object, path: seq<Bytes>, name: Bytes, e: Elems)
    requires name !in m && Scalars(e) != [] && !HasNested(e)
    ensures var sent := SentElems(path + [name], e, 0);
      Deep(sent, |path|) && SetAll(m, |path|, sent, |sent|) == m[name := ListOf(Scalars(e))]
  {
    ScalarsAreRepeats(path + [name], e, 0);
    ElemsFrom(path + [name], e, 0);
    FromIsDeep(SentElems(path + [name], e, 0), path + [name], |path|);
    RepeatsCollect(m, path, name, Scalars(e), |Scalars(e)|);
    assert Scalars(e)[..|Scalars(e)|] == Scalars(e);
  }

  // ---------- The whole body ----------

  function Longer(a: nat, b: nat): nat {
    if a < b then b else a
  }

  /** How many more segments the keys inside a value have. */
  function Depth(v: FormValue): nat
    decreases v, 0
  {
    match v
    case Nil => 0
    case Scalar(_) => 0
    case Dict(entries) => EntriesDepth(entries)
    case Multi(elems) => ElemsDepth(elems)
  }

  function EntriesDepth(e: Entries): nat
    decreases e, 1
  {
    if e.NoEntries? then 0 else Longer(1 + Depth(e.value), EntriesDepth(e.rest))
  }

  function ElemsDepth(e: Elems): nat
    decreases e, 1
  {
    if e.NoElems? then 0 else Longer((if IsNested(e.value) then 1 else 0) + Depth(e.value), ElemsDepth(e.rest))
  }

  /** Every path is of good names, and no longer than n. */
  ghost predicate GoodPaths(sent: seq<Sent>, n: nat) {
    forall k :: 0 <= k < |sent| ==> GoodNames(sent[k].path) && |sent[k].path| <= n
  }

  lemma GoodLonger(path: seq<Bytes>, name: Bytes)
    requires (path == [] || GoodNames(path)) && GoodName(name)
    ensures GoodNames(path + [name])
  {
  }

  lemma {:induction false} SentIsGood(path: seq<Bytes>, v: FormValue, n: nat)
    requires GoodNames(path) && GoodValue(v) && |path| + Depth(v) <= n
    ensures GoodPaths(SentBy(path, v), n)
    decreases v, 0
  {
    match v {
      case Dict(entries) => EntriesAreGood(path, entries, n);
      case Multi(elems) => ElemsAreGood(path, elems, 0, n);
      case _ =>
    }
  }

  lemma {:induction false} EntriesAreGood(path: seq<Bytes>, e: Entries, n: nat)
    requires (path == [] || GoodNames(path)) && GoodEntries(e) && |path| + EntriesDepth(e) <= n
    ensures GoodPaths(SentEntries(path, e), n)
    decreases e, 1
  {
    if e.Entry? {
      GoodLonger(path, e.name);
      SentIsGood(path + [e.name], e.value, n);
      EntriesAreGood(path, e.rest, n);
    }
  }

  lemma {:induction false} ElemsAreGood(path: seq<Bytes>, e: Elems, i: nat, n: nat)
    requires GoodNames(path) && GoodElems(e) && |path| + ElemsDepth(e) <= n
    ensures GoodPaths(SentElems(path, e, i), n)
    decreases e, 1
  {
    if e.Elem? {
      DecimalIsGood(i);
      GoodLonger(path, Decimal(i));
      SentIsGood(if IsNested(e.value) then path + [Decimal(i)] else path, e.value, n);
      ElemsAreGood(path, e.rest, i + 1, n);
    }
  }

  lemma {:induction false} ObjectIsSetAll(sent: seq<Sent>, n: nat)
    requires GoodPaths(sent, MaxFormKeyDepth) && n <= |sent|
    ensures Deep(sent, 0) && ObjectOf(AsPairs(sent), n) == SetAll(map[], 0, sent, n)
  {
    hide PathOf, SetPath, KeyOf;
    if n > 0 {
      ObjectIsSetAll(sent, n - 1);
      KeySplits(sent[n - 1].path);
    }
  }

  /** The pairs of a form's inputs, one name after another. */
  function FormPairs(e: Entries): seq<Pair> {
    if e.NoEntries? then [] else PairsOf(e.name, e.value) + FormPairs(e.rest)
  }

  lemma {:induction false} FormIsSent(e: Entries)
    requires GoodEntries(e)
    ensures FormPairs(e) == AsPairs(SentEntries([], e))
  {
    if e.Entry? {
      FormIsSent(e.rest);
      assert [] + [e.name] == [e.name];
      GoodLonger([], e.name);
      PairsAreSent([e.name], e.value);
      AsPairsConcat(SentBy([e.name], e.value), SentEntries([], e.rest));
    }
  }

  /** The object read back from a form body is the inputs' normal form. */
  lemma ObjectReadsBack(e: Entries)
    requires GoodEntries(e) && UnmixedEntries(e) && EntriesDepth(e) <= MaxFormKeyDepth
    ensures var fields := FieldsIn(BodyOf(FormPairs(e))); ObjectOf(fields, |fields|) == Adding(map[], e)
  {
    BodyReadsBack(FormPairs(e));
    FormIsSent(e);
    EntriesAreGood([], e, MaxFormKeyDepth);
    ObjectIsSetAll(SentEntries([], e), |SentEntries([], e)|);
    SetsEntries(map[], [], e);
  }
}

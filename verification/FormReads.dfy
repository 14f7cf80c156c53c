/** What a form body reads as, said of its bytes and of what stands where (archive/formbody.go). */
module FormReads {
  import opened Ampersands
  import opened Bytes
  import opened Form
  import opened FormBody
  import opened Sequences
  import opened UrlEscape
  import opened UrlFacts

  // ---------- Fields ----------

  /** value is what s spells, or s itself where s spells nothing. */
  ghost predicate Unescapes(s: Bytes, value: Bytes) {
    || (exists parts: seq<Bytes> :: Flatten(parts) == s && SpellsAll(parts, value, true))
    || (value == s && forall parts: seq<Bytes>, w: Bytes :: Flatten(parts) == s ==> !SpellsAll(parts, w, true))
  }

  lemma FormUnescapes(s: Bytes)
    ensures Unescapes(s, UnescapeForm(s))
  {
    if Unescape(s, true).Ok? {
      var parts := DecodedIsSpelled(s, true);
    } else {
      forall parts: seq<Bytes>, w: Bytes | Flatten(parts) == s ensures !SpellsAll(parts, w, true) {
        if SpellsAll(parts, w, true) {
          SpelledDecodes(parts, w, true);
        }
      }
    }
  }

  /** A field's name ends at its first equals sign; without one, all of it is the name and its value is empty. */
  predicate IsCut(part: Bytes, name: Bytes, value: Bytes) {
    61 !in name && (part == name + ([61] + value) || (part == name && value == []))
  }

  ghost predicate IsField(part: Bytes, f: Pair) {
    exists name: Bytes, value: Bytes :: IsCut(part, name, value) && Unescapes(name, f.key) && Unescapes(value, f.value)
  }

  lemma NotThere(s: Bytes, b: byte, k: nat)
    requires k < |s| && !Occurs(s, [b], k)
    ensures s[k] != b
  {
    assert s[k..k + 1] == [s[k]];
  }

  lemma CutAt(part: Bytes) returns (name: Bytes, value: Bytes)
    ensures IsCut(part, name, value) && FieldOf(part) == Pair(UnescapeForm(name), UnescapeForm(value))
  {
    var i := IndexFrom(part, [EQUALS], 0);
    name, value := if i < 0 then part else part[..i], if i < 0 then [] else part[i + 1..];
    forall k: nat | k < |name| ensures name[k] != 61 {
      NotThere(part, EQUALS, k);
    }
    if i >= 0 {
      assert part[i..i + 1] == [EQUALS] && part[i] == part[i..i + 1][0];
      assert part == name + ([61] + value);
    }
  }

  lemma FieldIs(part: Bytes)
    ensures IsField(part, FieldOf(part))
  {
    hide FieldOf, UnescapeForm, Unescapes, IsCut;
    var name, value := CutAt(part);
    FormUnescapes(name);
    FormUnescapes(value);
  }

  lemma {:induction false} JoinFirst(a: Bytes, rest: seq<Bytes>, separator: Bytes, n: nat)
    requires 0 < n <= |rest|
    ensures JoinTo([a] + rest, separator, n + 1) == a + (separator + JoinTo(rest, separator, n))
  {
    if n > 1 {
      JoinFirst(a, rest, separator, n - 1);
      assert ([a] + rest)[n] == rest[n - 1];
      Joins(separator, JoinTo(rest, separator, n - 1), separator + rest[n - 1]);
      Joins(a, separator + JoinTo(rest, separator, n - 1), separator + rest[n - 1]);
    } else {
      assert JoinTo([a] + rest, separator, 2) == JoinTo([a] + rest, separator, 1) + (separator + ([a] + rest)[1]);
    }
  }

  /** Cut at the ampersands, a text is the parts with an ampersand between any two. */
  lemma {:induction false} SplitJoins(s: Bytes, from: nat, n: nat)
    requires from <= n <= |s| && forall k :: from <= k < n ==> s[k] != 38
    ensures NoAmps(SplitAt(s, from, n)) && Join(SplitAt(s, from, n), [38]) == s[from..]
    decreases |s| - n
  {
    if n < |s| && s[n] == AMPERSAND {
      SplitJoins(s, n + 1, n + 1);
      var rest := SplitAt(s, n + 1, n + 1);
      JoinFirst(s[from..n], rest, [38], |rest|);
      assert s[from..] == s[from..n] + ([38] + s[n + 1..]);
    } else if n < |s| {
      SplitJoins(s, from, n + 1);
    } else {
      assert s[from..n] == s[from..];
    }
  }

  /** The fields are those of the parts between ampersands that are not empty, in order. */
  lemma FieldsAre(text: Bytes) returns (parts: seq<Bytes>, at: seq<nat>)
    ensures NoAmps(parts) && Join(parts, [38]) == text
    ensures |at| == |FieldsIn(text)| && (forall j, k :: 0 <= j < k < |at| ==> at[j] < at[k])
    ensures forall i: nat :: i in at <==> i < |parts| && parts[i] != []
    ensures forall k :: 0 <= k < |at| ==> at[k] < |parts| && IsField(parts[at[k]], FieldsIn(text)[k])
  {
    if text == [] {
      parts, at := [], [];
    } else {
      parts := Split(text);
      SplitJoins(text, 0, 0);
      at := FieldPlaces(parts, |parts|);
    }
  }

  lemma {:induction false} FieldPlaces(parts: seq<Bytes>, n: nat) returns (at: seq<nat>)
    requires n <= |parts|
    ensures |at| == |FieldsOf(parts, n)| && (forall j, k :: 0 <= j < k < |at| ==> at[j] < at[k])
    ensures forall i: nat :: i in at <==> i < n && parts[i] != []
    ensures forall k :: 0 <= k < |at| ==> at[k] < |parts| && IsField(parts[at[k]], FieldsOf(parts, n)[k])
  {
    hide IsField, FieldOf;
    at := [];
    if n > 0 {
      var was := FieldPlaces(parts, n - 1);
      at := was + if parts[n - 1] == [] then [] else [n - 1];
      assert was + [] == was;
      FieldIs(parts[n - 1]);
      forall j, k | 0 <= j < k < |at| ensures at[j] < at[k] {
        assert at[j] in was;
      }
      forall i: nat ensures i in at <==> i < n && parts[i] != [] {
        assert i in at <==> i in was || (i == n - 1 && parts[n - 1] != []);
      }
    }
  }

  // ---------- Keys ----------

  /** Each segment in brackets. */
  function Brackets(segments: seq<Bytes>): Bytes {
    if segments == [] then [] else [91] + segments[0] + [93] + Brackets(segments[1..])
  }

  predicate Segment(s: Bytes) {
    s != [] && 93 !in s
  }

  /** The key is a name and then brackets, at most 32 steps in all; empty brackets may come last. */
  ghost predicate Names(key: Bytes, path: seq<Bytes>, appends: bool) {
    && 0 < |path| <= 32 && (|path| > 1 || appends)
    && 91 !in path[0] && (forall i :: 1 <= i < |path| ==> Segment(path[i]))
    && key == path[0] + (Brackets(path[1..]) + if appends then [91, 93] else [])
  }

  /** The rest of a key is these segments in brackets, and room is left for them. */
  ghost predicate Goes(key: Bytes, at: nat, more: seq<Bytes>, appends: bool) {
    && at <= |key| && key[at..] == Brackets(more) + (if appends then [91, 93] else [])
    && forall i :: 0 <= i < |more| ==> Segment(more[i])
  }

  lemma ClosesAt(key: Bytes, at: nat, segment: Bytes, rest: Bytes)
    requires at <= |key| && key[at..] == [91] + segment + [93] + rest && 93 !in segment
    ensures at < |key| && key[at] == OPEN && IndexFrom(key, [CLOSE], at) == at + 1 + |segment|
    ensures key[at + 1..at + 1 + |segment|] == segment && key[at + 2 + |segment|..] == rest
  {
    var end := at + 1 + |segment|;
    var tail := key[at..];
    assert forall k :: 0 <= k < |tail| ==> tail[k] == key[at + k];
    assert key[at + 1..end] == tail[1..1 + |segment|] == segment;
    assert key[end..end + 1] == [CLOSE];
    assert Occurs(key, [CLOSE], end);
    forall k: nat | at <= k < end ensures !Occurs(key, [CLOSE], k) {
      if k > at {
        assert key[k] == segment[k - at - 1];
      }
      assert k + 1 <= |key| && key[k..k + 1][0] == key[k];
    }
  }

  lemma OneStep(key: Bytes, at: nat, before: seq<Bytes>, segment: Bytes, rest: Bytes)
    requires at <= |key| && key[at..] == [91] + segment + [93] + rest && Segment(segment) && |before| < 32
    ensures at + |segment| + 2 <= |key| && key[at + |segment| + 2..] == rest
    ensures SegmentsFrom(key, at, before) == SegmentsFrom(key, at + |segment| + 2, before + [segment])
  {
    ClosesAt(key, at, segment, rest);
  }

  lemma LastStep(key: Bytes, at: nat, before: seq<Bytes>)
    requires at <= |key| && key[at..] == [91] + [] + [93] + []
    ensures SegmentsFrom(key, at, before) == Segments(Path(before, true))
  {
    ClosesAt(key, at, [], []);
  }

  lemma NoStep(key: Bytes, before: seq<Bytes>)
    ensures SegmentsFrom(key, |key|, before) == Segments(Path(before, false))
  {
  }

  lemma {:induction false} GoesReads(key: Bytes, at: nat, before: seq<Bytes>, more: seq<Bytes>, appends: bool)
    requires Goes(key, at, more, appends) && |before| + |more| <= 32
    ensures SegmentsFrom(key, at, before) == Segments(Path(before + more, appends))
    decreases |more|
  {
    hide Brackets, SegmentsFrom;
    if more == [] {
      BracketsOfNone();
      assert before + more == before;
      NoStep(key, before);
      if appends {
        assert key[at..] == [91] + [] + [93] + [];
        LastStep(key, at, before);
      }
    } else {
      var tail := Brackets(more[1..]) + if appends then [91, 93] else [];
      BracketsOfMore(more);
      assert key[at..] == [91] + more[0] + [93] + tail;
      OneStep(key, at, before, more[0], tail);
      assert forall i :: 0 <= i < |more[1..]| ==> more[1..][i] == more[i + 1];
      GoesReads(key, at + |more[0]| + 2, before + [more[0]], more[1..], appends);
      assert before + [more[0]] + more[1..] == before + more;
    }
  }

  lemma BracketsOfNone()
    ensures Brackets([]) == []
  {
  }

  lemma BracketsOfMore(more: seq<Bytes>)
    requires more != []
    ensures Brackets(more) == [91] + more[0] + [93] + Brackets(more[1..])
  {
  }

  lemma {:induction false} ReadGoes(key: Bytes, at: nat, before: seq<Bytes>) returns (more: seq<Bytes>)
    requires at <= |key| && |before| <= 32 && SegmentsFrom(key, at, before).Segments?
    ensures var p := SegmentsFrom(key, at, before).path;
      p.segments == before + more && |p.segments| <= 32 && Goes(key, at, more, p.appends)
    decreases |key| - at
  {
    hide SegmentsFrom, Goes;
    more := [];
    if at == |key| || key[at..] == [91, 93] {
      EndGoes(key, at, before);
      assert before + more == before;
    } else {
      var end := StepBack(key, at, before);
      var segment := key[at + 1..end];
      var rest := ReadGoes(key, end + 1, before + [segment]);
      more := [segment] + rest;
      GoesMore(key, at, end, rest, SegmentsFrom(key, at, before).path.appends);
      assert before + [segment] + rest == before + more;
    }
  }

  lemma EndGoes(key: Bytes, at: nat, before: seq<Bytes>)
    requires at == |key| || (at <= |key| && key[at..] == [91, 93])
    ensures SegmentsFrom(key, at, before) == Segments(Path(before, at < |key|)) && Goes(key, at, [], at < |key|)
  {
    if at < |key| {
      assert key[at..] == [91] + [] + [93] + [];
      LastStep(key, at, before);
    }
  }

  lemma GoesMore(key: Bytes, at: nat, end: nat, rest: seq<Bytes>, appends: bool)
    requires at < end < |key| && key[at..] == [91] + key[at + 1..end] + [93] + key[end + 1..]
    requires Goes(key, end + 1, rest, appends) && Segment(key[at + 1..end])
    ensures Goes(key, at, [key[at + 1..end]] + rest, appends)
  {
    var more := [key[at + 1..end]] + rest;
    assert more[1..] == rest;
  }

  lemma LastTwo(key: Bytes, at: nat)
    ensures at + 2 == |key| ==> key[at..] == [key[at], key[at + 1]]
  {
  }

  /** Where a key reads as a path on, the next segment is a good one. */
  lemma StepBack(key: Bytes, at: nat, before: seq<Bytes>) returns (end: nat)
    requires at < |key| && key[at..] != [91, 93] && SegmentsFrom(key, at, before).Segments?
    ensures at < end < |key| && Segment(key[at + 1..end]) && |before| < 32
    ensures key[at..] == [91] + key[at + 1..end] + [93] + key[end + 1..]
    ensures SegmentsFrom(key, at, before) == SegmentsFrom(key, end + 1, before + [key[at + 1..end]])
  {
    end := IndexFrom(key, [CLOSE], at);
    assert key[end..end + 1] == [CLOSE] && key[end] == key[end..end + 1][0];
    OneSegment(key, at, end);
    assert |key[at + 1..end]| == end - at - 1;
    LastTwo(key, at);
  }

  lemma OneSegment(key: Bytes, at: nat, end: nat)
    requires at < end < |key| && key[at] == OPEN && key[end] == CLOSE && IndexFrom(key, [CLOSE], at) == end
    ensures key[at..] == [91] + key[at + 1..end] + [93] + key[end + 1..] && 93 !in key[at + 1..end]
  {
    forall k | at <= k < end ensures key[k] != CLOSE {
      NotThere(key, CLOSE, k);
    }
  }

  /** A key that is a name and brackets stands for its path; any other is one name. */
  lemma PathIs(key: Bytes)
    ensures forall path, appends :: Names(key, path, appends) ==> PathOf(key) == Path(path, appends)
    ensures var r := PathOf(key);
      Names(key, r.segments, r.appends)
        || (r == Path([key], false) && forall path, appends :: !Names(key, path, appends))
  {
    forall path, appends | Names(key, path, appends) ensures PathOf(key) == Path(path, appends) {
      NamedReads(key, path, appends);
    }
    var r := PathOf(key);
    var open := IndexFrom(key, [OPEN], 0);
    if open >= 0 && key[|key| - 1] == CLOSE && SegmentsFrom(key, open, [key[..open]]).Segments? {
      var more := ReadGoes(key, open, [key[..open]]);
      NamedSo(key, open, more, r.appends);
    }
  }

  lemma NamedSo(key: Bytes, open: nat, more: seq<Bytes>, appends: bool)
    requires open < |key| && IndexFrom(key, [OPEN], 0) == open && Goes(key, open, more, appends) && |more| < 32
    ensures Names(key, [key[..open]] + more, appends)
  {
    var path := [key[..open]] + more;
    assert path[1..] == more && key == key[..open] + key[open..];
    forall k | 0 <= k < open ensures key[k] != OPEN {
      NotThere(key, OPEN, k);
    }
  }

  lemma NamedReads(key: Bytes, path: seq<Bytes>, appends: bool)
    requires Names(key, path, appends)
    ensures PathOf(key) == Path(path, appends)
  {
    hide Brackets;
    var open, more := |path[0]|, path[1..];
    var tail := Brackets(more) + if appends then [91, 93] else [];
    assert key[open..] == tail && key[..open] == path[0];
    BracketsEnd(more, appends);
    assert key[open] == tail[0] && key[|key| - 1] == tail[|tail| - 1];
    assert key[open..open + 1] == [OPEN];
    assert Occurs(key, [OPEN], open);
    forall k: nat | k < open ensures !Occurs(key, [OPEN], k) {
      assert key[k..k + 1][0] == path[0][k];
    }
    GoesReads(key, open, [path[0]], more, appends);
    assert [path[0]] + more == path;
  }

  lemma {:induction false} BracketsEnd(more: seq<Bytes>, appends: bool)
    requires more != [] || appends
    ensures var tail := Brackets(more) + if appends then [91, 93] else [];
      |tail| > 0 && tail[0] == 91 && tail[|tail| - 1] == 93
  {
    if more != [] && (more[1..] != [] || appends) {
      BracketsEnd(more[1..], appends);
    }
  }

  // ---------- What stands where ----------

  datatype Found = Nothing | Found(value: Decoded)

  /** What stands in m at the end of these names. */
  function Look(m: Object, names: seq<Bytes>): Found
    requires names != []
    decreases |names|
  {
    if names[0] !in m then Nothing
    else if |names| == 1 then Found(m[names[0]])
    else if m[names[0]].Node? then Look(m[names[0]].fields, names[1..])
    else Nothing
  }

  /** The first names of the two that differ. */
  ghost predicate Part(a: seq<Bytes>, b: seq<Bytes>) {
    exists k :: 0 <= k < |a| && k < |b| && a[k] != b[k]
  }

  /** A field sets its value at its path: on its own where nothing stood, in a list if the key asked for one, and
      otherwise behind what stood there. */
  lemma {:induction false} FieldSets(m: Object, path: Path, i: nat, value: Bytes)
    requires i < |path.segments|
    ensures var names := path.segments[i..];
      Look(SetPath(m, path, i, value), names) == Found(
        match Look(m, names)
        case Nothing => if path.appends then Arr([Str(value)]) else Str(value)
        case Found(Arr(items)) => Arr(items + [Str(value)])
        case Found(other) => Arr([other, Str(value)]))
    decreases |path.segments| - i
  {
    var names := path.segments[i..];
    if i + 1 < |path.segments| {
      FieldSets(Child(m, names[0]), path, i + 1, value);
      assert names[1..] == path.segments[i + 1..];
    }
  }

  /** It leaves what stands on paths that part from its own, and makes every step of its own a map. */
  lemma {:induction false} FieldLeaves(m: Object, path: Path, i: nat, value: Bytes, other: seq<Bytes>)
    requires i < |path.segments| && other != []
    ensures Part(other, path.segments[i..]) ==> Look(SetPath(m, path, i, value), other) == Look(m, other)
    ensures |other| < |path.segments| - i && other == path.segments[i..i + |other|]
      ==> var r := Look(SetPath(m, path, i, value), other); r.Found? && r.value.Node?
    decreases |path.segments| - i
  {
    var names := path.segments[i..];
    assert names[0] == path.segments[i];
    if |other| > 1 && other[0] == names[0] && i + 1 < |path.segments| {
      FieldLeaves(Child(m, names[0]), path, i + 1, value, other[1..]);
      assert names[1..] == path.segments[i + 1..];
      if i + |other| <= |path.segments| && other == path.segments[i..i + |other|] {
        assert other[1..] == path.segments[i + 1..i + |other|];
      }
      if Part(other, names) {
        var k :| 0 <= k < |other| && k < |names| && other[k] != names[k];
        assert other[1..][k - 1] != names[1..][k - 1];
      }
    }
  }
}

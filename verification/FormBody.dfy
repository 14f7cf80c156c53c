/** Reading a form body back (archive/formbody.go): its fields in order, and the value their bracketed
    keys describe. */
module FormBody {
  import opened Ampersands
  import opened Bytes
  import opened Form
  import opened UrlEscape

  const MaxFormKeyDepth: nat := 32

  // ---------- Fields ----------

  /** Undoes the escaping of a name or a value, leaving text that does not decode as it is. */
  function UnescapeForm(s: Bytes): Bytes {
    var r := Unescape(s, true);
    if r.Ok? then r.value else s
  }

  /** A part's name and value: what is before its first equals sign, and after it. */
  function FieldOf(part: Bytes): Pair {
    var i := IndexFrom(part, [EQUALS], 0);
    if i < 0 then Pair(UnescapeForm(part), UnescapeForm([]))
    else Pair(UnescapeForm(part[..i]), UnescapeForm(part[i + 1..]))
  }

  function FieldsOf(parts: seq<Bytes>, n: nat): seq<Pair>
    requires n <= |parts|
  {
    if n == 0 then [] else FieldsOf(parts, n - 1) + if parts[n - 1] == [] then [] else [FieldOf(parts[n - 1])]
  }

  function FieldsIn(text: Bytes): seq<Pair> {
    if text == [] then [] else FieldsOf(Split(text), |Split(text)|)
  }

  /** The pairs of a form body, unescaped, first to last. */
  method FormFields(text: Bytes) returns (fields: seq<Pair>)
    ensures fields == FieldsIn(text)
  {
    if text == [] {
      return [];
    }
    var parts := Split(text);
    fields := [];
    for n := 0 to |parts|
      invariant fields == FieldsOf(parts, n)
    {
      if parts[n] != [] {
        fields := fields + [FieldOf(parts[n])];
      }
    }
  }

  // ---------- Keys ----------

  datatype Path = Path(segments: seq<Bytes>, appends: bool)

  datatype Segments = NotAKey | Segments(path: Path)

  /** The segments from at on, after those in path. */
  function SegmentsFrom(key: Bytes, at: nat, path: seq<Bytes>): Segments
    requires at <= |key|
    decreases |key| - at
  {
    if at == |key| then Segments(Path(path, false))
    else if key[at] != OPEN then NotAKey
    else
      var end := IndexFrom(key, [CLOSE], at);
      if end < 0 then NotAKey
      else
        var segment := if at + 1 <= end then key[at + 1..end] else [];
        if segment == [] && end + 1 == |key| then Segments(Path(path, true))
        else if segment == [] || |path| >= MaxFormKeyDepth then NotAKey
        else SegmentsFrom(key, end + 1, path + [segment])
  }

  function PathOf(key: Bytes): Path {
    var open := IndexFrom(key, [OPEN], 0);
    if open < 0 || key[|key| - 1] != CLOSE then Path([key], false)
    else
      var s := SegmentsFrom(key, open, [key[..open]]);
      if s.Segments? then s.path else Path([key], false)
  }

  /** The path a key stands for: a name and then a bracketed segment for each step down. Any other text is
      a path of one name. */
  method SplitFormKey(key: Bytes) returns (r: Path)
    ensures r == PathOf(key)
  {
    var open := IndexFrom(key, [OPEN], 0);
    if open < 0 || key[|key| - 1] != CLOSE {
      return Path([key], false);
    }
    var path, at: nat := [key[..open]], open;
    while at < |key|
      invariant at <= |key| && SegmentsFrom(key, at, path) == SegmentsFrom(key, open, [key[..open]])
      decreases |key| - at
    {
      if key[at] != OPEN {
        return Path([key], false);
      }
      var end := IndexFrom(key, [CLOSE], at);
      if end < 0 {
        return Path([key], false);
      }
      var segment := if at + 1 <= end then key[at + 1..end] else [];
      if segment == [] && end + 1 == |key| {
        return Path(path, true);
      }
      if segment == [] || |path| >= MaxFormKeyDepth {
        return Path([key], false);
      }
      path, at := path + [segment], end + 1;
    }
    r := Path(path, false);
  }

  // ---------- The value ----------

  datatype Decoded = Str(s: Bytes) | Arr(items: seq<Decoded>) | Node(fields: Object)

  type Object = map<Bytes, Decoded>

  /** What stands at name once value is sent there too: a repeated key collects a list. */
  function Put(m: Object, name: Bytes, appends: bool, value: Bytes): Decoded {
    if name !in m then (if appends then Arr([Str(value)]) else Str(value))
    else if m[name].Arr? then Arr(m[name].items + [Str(value)])
    else Arr([m[name], Str(value)])
  }

  function Child(m: Object, name: Bytes): Object {
    if name in m && m[name].Node? then m[name].fields else map[]
  }

  /** m with value set at the path's segments from i on, nesting maps as it goes. */
  function SetPath(m: Object, path: Path, i: nat, value: Bytes): Object
    requires i < |path.segments|
    decreases |path.segments| - i
  {
    var name := path.segments[i];
    if i + 1 == |path.segments| then m[name := Put(m, name, path.appends, value)]
    else m[name := Node(SetPath(Child(m, name), path, i + 1, value))]
  }

  lemma PathIsSome(key: Bytes)
    ensures PathOf(key).segments != []
  {
    var open := IndexFrom(key, [OPEN], 0);
    if open >= 0 {
      SegmentsGrow(key, open, [key[..open]]);
    }
  }

  lemma {:induction false} SegmentsGrow(key: Bytes, at: nat, path: seq<Bytes>)
    requires at <= |key| && path != []
    ensures SegmentsFrom(key, at, path).Segments? ==> SegmentsFrom(key, at, path).path.segments != []
    decreases |key| - at
  {
    if at < |key| && key[at] == OPEN {
      var end := IndexFrom(key, [CLOSE], at);
      if end >= 0 {
        SegmentsGrow(key, end + 1, path + [if at + 1 <= end then key[at + 1..end] else []]);
      }
    }
  }

  function ObjectOf(fields: seq<Pair>, n: nat): Object
    requires n <= |fields|
  {
    if n == 0 then map[]
    else
      PathIsSome(fields[n - 1].key);
      SetPath(ObjectOf(fields, n - 1), PathOf(fields[n - 1].key), 0, fields[n - 1].value)
  }

  /** The object a form body stands for, field by field. */
  method FormObject(text: Bytes) returns (root: Object)
    ensures root == ObjectOf(FieldsIn(text), |FieldsIn(text)|)
  {
    hide FieldsIn, PathOf, SetPath;
    var fields := FormFields(text);
    root := map[];
    for n := 0 to |fields|
      invariant root == ObjectOf(fields, n)
    {
      var path := SplitFormKey(fields[n].key);
      PathIsSome(fields[n].key);
      root := SetPath(root, path, 0, fields[n].value);
    }
  }
}

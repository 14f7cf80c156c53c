/** Replacing a set of secrets in strings (archive/redact.go newRedactor, redact). */
module Redact {
  import opened Bytes
  import opened Sequences
  import opened UrlEscape

  const Redacted: Bytes := [91, 82, 69, 68, 65, 67, 84, 69, 68, 93]

  const MinSubstringSecretLen: nat := 8

  // ---------- The forms ----------

  /** A secret as it is, query-escaped, and path-escaped. */
  function Forms(secret: Bytes): seq<Bytes> {
    [secret, QueryEscape(secret), PathEscape(secret)]
  }

  /** Every form of every secret, which a whole string may equal. */
  function ExactForms(secrets: set<Bytes>): set<Bytes> {
    set s, i | s in secrets && s != [] && 0 <= i < 3 :: Forms(s)[i]
  }

  /** Those long enough to be replaced inside strings too. */
  function LongForms(secrets: set<Bytes>): set<Bytes> {
    set f | f in ExactForms(secrets) && |f| >= MinSubstringSecretLen
  }

  ghost predicate Lists(forms: seq<Bytes>, all: set<Bytes>) {
    forall f :: f in forms <==> f in all
  }

  // ---------- The order they are searched in ----------

  predicate BytesLess(a: Bytes, b: Bytes) {
    b != [] && (a == [] || a[0] < b[0] || (a[0] == b[0] && BytesLess(a[1..], b[1..])))
  }

  /** a is searched for before b: the longer one, or else the one that sorts first. */
  predicate Sooner(a: Bytes, b: Bytes) {
    |a| > |b| || (|a| == |b| && BytesLess(a, b))
  }

  ghost predicate LongestFirst(forms: seq<Bytes>) {
    forall i, j :: 0 <= i < j < |forms| ==> !Sooner(forms[j], forms[i])
  }

  lemma {:induction false} LessIsStrict(a: Bytes, b: Bytes, c: Bytes)
    ensures !BytesLess(a, a) && (BytesLess(a, b) && BytesLess(b, c) ==> BytesLess(a, c))
  {
    if a != [] {
      LessIsStrict(a[1..], if b == [] then [] else b[1..], if c == [] then [] else c[1..]);
    }
  }

  lemma SoonerIsStrict(a: Bytes, b: Bytes, c: Bytes)
    ensures !Sooner(a, a) && (Sooner(a, b) && Sooner(b, c) ==> Sooner(a, c))
  {
    LessIsStrict(a, b, c);
  }

  method InsertForm(sorted: seq<Bytes>, form: Bytes) returns (r: seq<Bytes>)
    requires LongestFirst(sorted)
    ensures LongestFirst(r) && multiset(r) == multiset(sorted) + multiset{form}
  {
    var i := 0;
    while i < |sorted| && !Sooner(form, sorted[i])
      invariant i <= |sorted| && forall k :: 0 <= k < i ==> !Sooner(form, sorted[k])
    {
      i := i + 1;
    }
    r := sorted[..i] + [form] + sorted[i..];
    forall k | i <= k < |sorted| ensures !Sooner(sorted[k], form) {
      SoonerIsStrict(sorted[k], form, sorted[i]);
      SoonerIsStrict(sorted[i], form, sorted[i]);
    }
    assert sorted == sorted[..i] + sorted[i..];
  }

  method SortForms(forms: seq<Bytes>) returns (r: seq<Bytes>)
    ensures LongestFirst(r) && multiset(r) == multiset(forms)
  {
    r := [];
    for i := 0 to |forms|
      invariant LongestFirst(r) && multiset(r) == multiset(forms[..i])
    {
      r := InsertForm(r, forms[i]);
      assert forms[..i + 1] == forms[..i] + [forms[i]];
    }
    assert forms[..|forms|] == forms;
  }

  lemma SameMembers(s: seq<Bytes>, t: seq<Bytes>)
    requires multiset(s) == multiset(t)
    ensures forall f :: f in s <==> f in t
  {
    forall f ensures f in s <==> f in t {
      assert f in s <==> f in multiset(s);
      assert f in t <==> f in multiset(t);
    }
  }

  method NewRedactor(secrets: set<Bytes>) returns (exact: set<Bytes>, substr: seq<Bytes>)
    ensures exact == ExactForms(secrets) && Lists(substr, LongForms(secrets)) && LongestFirst(substr)
  {
    var found: seq<Bytes>;
    exact, found := CollectForms(secrets);
    substr := SortForms(found);
    SameMembers(found, substr);
  }

  method CollectForms(secrets: set<Bytes>) returns (exact: set<Bytes>, substr: seq<Bytes>)
    ensures exact == ExactForms(secrets) && Lists(substr, LongForms(secrets))
  {
    exact, substr := {}, [];
    var left := secrets;
    while left != {}
      invariant left <= secrets && exact == ExactForms(secrets - left) && Lists(substr, LongForms(secrets - left))
      decreases left
    {
      var secret :| secret in left;
      ghost var done := secrets - left;
      left := left - {secret};
      assert secrets - left == done + {secret};
      if secret != [] {
        exact, substr := AddForms(secret, done, exact, substr);
      }
    }
    assert secrets - {} == secrets;
  }

  method AddForms(secret: Bytes, ghost done: set<Bytes>, exact: set<Bytes>, substr: seq<Bytes>)
    returns (exact': set<Bytes>, substr': seq<Bytes>)
    requires secret != [] && exact == ExactForms(done) && Lists(substr, LongForms(done))
    ensures exact' == ExactForms(done + {secret}) && Lists(substr', LongForms(done + {secret}))
  {
    exact', substr' := exact, substr;
    var forms := Forms(secret);
    for i := 0 to 3
      invariant forall f :: f in exact' <==> f in ExactForms(done) || f in forms[..i]
      invariant forall f :: f in substr' <==> f in exact' && |f| >= MinSubstringSecretLen
    {
      if forms[i] !in exact' {
        exact' := exact' + {forms[i]};
        if |forms[i]| >= MinSubstringSecretLen {
          substr' := substr' + [forms[i]];
        }
      }
      assert forms[..i + 1] == forms[..i] + [forms[i]];
    }
    assert forms[..3] == forms;
    FormsOfOneMore(done, secret);
  }

  lemma FormsOfOneMore(done: set<Bytes>, secret: Bytes)
    requires secret != []
    ensures forall f :: f in ExactForms(done + {secret}) <==> f in ExactForms(done) || f in Forms(secret)
  {
    forall f | f in Forms(secret) ensures f in ExactForms(done + {secret}) {
      var i :| 0 <= i < 3 && Forms(secret)[i] == f;
    }
  }

  // ---------- What is covered ----------

  /** Byte k lies in an occurrence of form that starts before upto. */
  ghost predicate CoveredBy(s: Bytes, form: Bytes, upto: nat, k: nat) {
    exists i: nat :: i < upto && Occurs(s, form, i) && i <= k < i + |form|
  }

  /** Byte k lies in some occurrence of some form. */
  ghost predicate IsCovered(s: Bytes, forms: set<Bytes>, k: nat) {
    exists f :: f in forms && CoveredBy(s, f, |s| + 1, k)
  }

  ghost function Cover(s: Bytes, forms: set<Bytes>): (cover: seq<bool>)
    ensures |cover| == |s|
  {
    seq(|s|, k requires 0 <= k < |s| => IsCovered(s, forms, k))
  }

  /** What stands for byte i: itself, the marker where a covered run begins, or nothing. */
  function Stands(s: Bytes, cover: seq<bool>, i: nat): Bytes
    requires |cover| == |s| && i < |s|
  {
    if !cover[i] then [s[i]]
    else if i == 0 || !cover[i - 1] then Redacted
    else []
  }

  /** The uncovered bytes in order, with one marker for each maximal covered run. */
  function Masked(s: Bytes, cover: seq<bool>, i: nat): Bytes
    requires |cover| == |s| && i <= |s|
    decreases |s| - i
  {
    if i == |s| then [] else Stands(s, cover, i) + Masked(s, cover, i + 1)
  }

  /** What redacting a string comes to. */
  ghost function RedactedText(secrets: set<Bytes>, s: Bytes): Bytes {
    if s in ExactForms(secrets) then Redacted else Masked(s, Cover(s, LongForms(secrets)), 0)
  }

  // ---------- Marking and writing ----------

  /** marks, unless it is null, covers what the forms before n cover, and form n's occurrences before from. */
  ghost predicate Marks(s: Bytes, forms: seq<Bytes>, n: nat, from: nat, marks: seq<bool>) {
    && |marks| == |s| && n <= |forms|
    && forall k :: 0 <= k < |s| ==> (marks[k] <==> MarkedSoFar(s, forms, n, from, k))
  }

  ghost predicate MarkedSoFar(s: Bytes, forms: seq<Bytes>, n: nat, from: nat, k: nat) {
    || (exists j :: 0 <= j < n && j < |forms| && CoveredBy(s, forms[j], |s| + 1, k))
    || (n < |forms| && CoveredBy(s, forms[n], from, k))
  }

  lemma CoveredBefore(s: Bytes, form: Bytes, from: nat, start: nat, k: nat)
    requires from <= start && Occurs(s, form, start)
    requires forall j: nat :: from <= j < start ==> !Occurs(s, form, j)
    ensures CoveredBy(s, form, start + 1, k) <==> CoveredBy(s, form, from, k) || start <= k < start + |form|
  {
    if CoveredBy(s, form, start + 1, k) && !(start <= k < start + |form|) {
      var i: nat :| i < start + 1 && Occurs(s, form, i) && i <= k < i + |form|;
      assert i < from;
    }
    if start <= k < start + |form| {
      assert CoveredBy(s, form, start + 1, k);
    }
  }

  lemma CoveredInAll(s: Bytes, form: Bytes, from: nat, k: nat)
    requires forall j: nat :: from <= j ==> !Occurs(s, form, j)
    ensures CoveredBy(s, form, |s| + 1, k) <==> CoveredBy(s, form, from, k)
  {
    if CoveredBy(s, form, |s| + 1, k) {
      var i: nat :| i < |s| + 1 && Occurs(s, form, i) && i <= k < i + |form|;
      assert i < from;
    }
    if CoveredBy(s, form, from, k) {
      var i: nat :| i < from && Occurs(s, form, i) && i <= k < i + |form|;
      assert i < |s| + 1;
    }
  }

  method MarkRun(covered: array<bool>, start: nat, len: nat)
    requires start + len <= covered.Length
    modifies covered
    ensures forall k :: 0 <= k < covered.Length ==> covered[k] == (old(covered[k]) || start <= k < start + len)
  {
    for k := start to start + len
      invariant forall j :: 0 <= j < covered.Length ==> covered[j] == (old(covered[j]) || start <= j < k)
    {
      covered[k] := true;
    }
  }

  lemma OccurrenceMarked(s: Bytes, forms: seq<Bytes>, n: nat, from: nat, start: nat, was: seq<bool>, now: seq<bool>)
    requires n < |forms| && Marks(s, forms, n, from, was) && |now| == |was|
    requires from <= start && Occurs(s, forms[n], start)
      && forall j: nat :: from <= j < start ==> !Occurs(s, forms[n], j)
    requires forall k :: 0 <= k < |was| ==> now[k] == (was[k] || start <= k < start + |forms[n]|)
    ensures Marks(s, forms, n, start + 1, now)
  {
    forall k | 0 <= k < |s| ensures now[k] <==> MarkedSoFar(s, forms, n, start + 1, k) {
      CoveredBefore(s, forms[n], from, start, k);
    }
  }

  lemma FormMarked(s: Bytes, forms: seq<Bytes>, n: nat, from: nat, marks: seq<bool>)
    requires n < |forms| && Marks(s, forms, n, from, marks)
    requires forall j: nat :: from <= j ==> !Occurs(s, forms[n], j)
    ensures Marks(s, forms, n + 1, 0, marks)
  {
    forall k | 0 <= k < |s| ensures marks[k] <==> MarkedSoFar(s, forms, n + 1, 0, k) {
      CoveredInAll(s, forms[n], from, k);
      if MarkedSoFar(s, forms, n + 1, 0, k) {
        var j :| 0 <= j < n + 1 && j < |forms| && CoveredBy(s, forms[j], |s| + 1, k);
        assert j < n || CoveredBy(s, forms[n], from, k);
      }
    }
  }

  /** Marks the bytes of every occurrence of form n. */
  method MarkForm(s: Bytes, forms: seq<Bytes>, n: nat, covered: array<bool>) returns (found: bool)
    requires n < |forms| && Marks(s, forms, n, 0, covered[..])
    modifies covered
    ensures Marks(s, forms, n + 1, 0, covered[..]) && (!found ==> covered[..] == old(covered[..]))
  {
    var form, from := forms[n], 0;
    var start := IndexFrom(s, form, from);
    found := false;
    while start >= 0
      invariant from <= |s| + 1 && start == IndexFrom(s, form, from)
      invariant Marks(s, forms, n, from, covered[..]) && (!found ==> covered[..] == old(covered[..]))
      decreases |s| + 1 - from
    {
      found := true;
      ghost var was := covered[..];
      MarkRun(covered, start, |form|);
      OccurrenceMarked(s, forms, n, from, start, was, covered[..]);
      from := start + 1;
      start := IndexFrom(s, form, from);
    }
    FormMarked(s, forms, n, from, covered[..]);
  }

  method RedactString(exact: set<Bytes>, substr: seq<Bytes>, s: Bytes) returns (r: Bytes)
    ensures s in exact ==> r == Redacted
    ensures s !in exact ==> r == Masked(s, Cover(s, Members(substr)), 0)
  {
    if s in exact {
      return Redacted;
    }
    var covered := new bool[|s|](_ => false);
    var found := false;
    for n := 0 to |substr|
      invariant Marks(s, substr, n, 0, covered[..])
      invariant !found ==> forall k :: 0 <= k < |s| ==> !covered[k]
    {
      var more := MarkForm(s, substr, n, covered);
      found := found || more;
    }
    MarksAreCover(s, substr, covered[..]);
    if !found {
      NothingMasked(s, covered[..], 0);
      return s;
    }
    r := Write(s, covered);
  }

  function Members(forms: seq<Bytes>): set<Bytes> {
    set f | f in forms
  }

  lemma MarksAreCover(s: Bytes, forms: seq<Bytes>, marks: seq<bool>)
    requires Marks(s, forms, |forms|, 0, marks)
    ensures marks == Cover(s, Members(forms))
  {
    forall k | 0 <= k < |s| ensures marks[k] <==> IsCovered(s, Members(forms), k) {
      if IsCovered(s, Members(forms), k) {
        var f :| f in Members(forms) && CoveredBy(s, f, |s| + 1, k);
        var j :| 0 <= j < |forms| && forms[j] == f;
        assert MarkedSoFar(s, forms, |forms|, 0, k);
      }
      if MarkedSoFar(s, forms, |forms|, 0, k) {
        var j :| 0 <= j < |forms| && CoveredBy(s, forms[j], |s| + 1, k);
        assert forms[j] in Members(forms);
      }
    }
  }

  lemma {:induction false} NothingMasked(s: Bytes, cover: seq<bool>, i: nat)
    requires |cover| == |s| && i <= |s| && forall k :: 0 <= k < |s| ==> !cover[k]
    ensures Masked(s, cover, i) == s[i..]
    decreases |s| - i
  {
    if i < |s| {
      NothingMasked(s, cover, i + 1);
      assert s[i..] == [s[i]] + s[i + 1..];
    }
  }

  /** Writes the uncovered bytes, and the marker once for each run of covered ones. */
  method Write(s: Bytes, covered: array<bool>) returns (r: Bytes)
    requires covered.Length == |s|
    ensures r == Masked(s, covered[..], 0)
  {
    r := [];
    var i := 0;
    ghost var cover := covered[..];
    while i < |s|
      invariant i <= |s| && (0 < i < |s| && cover[i] ==> !cover[i - 1])
      invariant r + Masked(s, cover, i) == Masked(s, cover, 0)
      decreases |s| - i
    {
      if !covered[i] {
        KeptByte(r, s, cover, i);
        r := r + [s[i]];
        i := i + 1;
      } else {
        ghost var start := i;
        i := SkipRun(s, covered, i);
        RunSkipped(s, cover, start, i);
        Joins(r, Redacted, Masked(s, cover, i));
        r := r + Redacted;
      }
    }
  }

  /** The end of the covered run at i. */
  method SkipRun(s: Bytes, covered: array<bool>, i: nat) returns (end: nat)
    requires covered.Length == |s| && i < |s| && covered[i]
    ensures i < end <= |s| && (forall k :: i <= k < end ==> covered[k]) && (end < |s| ==> !covered[end])
  {
    end := i + 1;
    while end < |s| && covered[end]
      invariant i < end <= |s| && forall k :: i <= k < end ==> covered[k]
    {
      end := end + 1;
    }
  }

  lemma KeptByte(r: Bytes, s: Bytes, cover: seq<bool>, i: nat)
    requires |cover| == |s| && i < |s| && !cover[i]
    ensures r + [s[i]] + Masked(s, cover, i + 1) == r + Masked(s, cover, i)
  {
    Joins(r, [s[i]], Masked(s, cover, i + 1));
  }

  /** A maximal covered run stands as one marker. */
  lemma RunSkipped(s: Bytes, cover: seq<bool>, start: nat, end: nat)
    requires |cover| == |s| && start < end <= |s| && (start > 0 ==> !cover[start - 1])
    requires forall k :: start <= k < end ==> cover[k]
    ensures Masked(s, cover, start) == Redacted + Masked(s, cover, end)
  {
    InsideRun(s, cover, start + 1, end);
  }

  lemma {:induction false} InsideRun(s: Bytes, cover: seq<bool>, i: nat, end: nat)
    requires |cover| == |s| && 0 < i <= end <= |s| && forall k :: i - 1 <= k < end ==> cover[k]
    ensures Masked(s, cover, i) == Masked(s, cover, end)
    decreases end - i
  {
    if i < end {
      InsideRun(s, cover, i + 1, end);
    }
  }

  // ---------- What redaction promises ----------

  /** Redacts s as the whole program does: the result depends on the set of secrets alone, in whatever
      order they are taken and their forms tried. */
  method RedactWith(secrets: set<Bytes>, s: Bytes) returns (r: Bytes)
    ensures r == RedactedText(secrets, s)
  {
    var exact, substr := NewRedactor(secrets);
    assert Members(substr) == LongForms(secrets);
    r := RedactString(exact, substr, s);
  }

  /** Bytes i to j of the original, none of them covered, all kept. */
  ghost predicate Survives(s: Bytes, forms: set<Bytes>, i: nat, j: nat) {
    i <= j <= |s| && forall k :: i <= k < j ==> !IsCovered(s, forms, k)
  }

  lemma OccurrenceIsCovered(s: Bytes, forms: set<Bytes>, f: Bytes, at: nat, k: nat)
    requires f in forms && Occurs(s, f, at) && at <= k < at + |f|
    ensures IsCovered(s, forms, k)
  {
    assert CoveredBy(s, f, |s| + 1, k);
  }

  /** No long form of a secret is left in what survives, nor part of an occurrence of one. */
  lemma NoFormSurvives(s: Bytes, forms: set<Bytes>, i: nat, j: nat, f: Bytes, at: nat)
    requires f in forms && f != [] && Survives(s, forms, i, j) && i < j
    ensures Occurs(s, f, at) ==> at + |f| <= i || j <= at
    ensures !Occurs(s[i..j], f, at)
  {
    if Occurs(s, f, at) && at < j && i < at + |f| {
      OccurrenceIsCovered(s, forms, f, at, if at < i then i else at);
    }
    if at + |f| <= j - i && s[i..j][at..at + |f|] == f {
      SliceOfSlice(s, i, j, at, at + |f|);
      OccurrenceIsCovered(s, forms, f, i + at, i + at);
    }
  }

  /** A string that neither is a secret nor holds a long one is left as it is. */
  lemma CleanTextIsKept(secrets: set<Bytes>, s: Bytes)
    requires s !in ExactForms(secrets) && forall f, i: nat :: f in LongForms(secrets) ==> !Occurs(s, f, i)
    ensures RedactedText(secrets, s) == s
  {
    forall k | 0 <= k < |s| ensures !IsCovered(s, LongForms(secrets), k) {
    }
    NothingMasked(s, Cover(s, LongForms(secrets)), 0);
    assert s[0..] == s;
  }
}

/** What redacting a string does, said of the secrets and of the text alone (archive/redact.go). */
module RedactFacts {
  import opened Bytes
  import opened Redact
  import opened Sequences
  import opened UrlEscape

  /** f is how a secret may stand in a text: as it is, or escaped for a URL's query or its path. */
  ghost predicate IsForm(secrets: set<Bytes>, f: Bytes) {
    exists s :: s in secrets && s != [] && (f == s || f == QueryEscape(s) || f == PathEscape(s))
  }

  lemma FormsAre(secrets: set<Bytes>, f: Bytes)
    ensures f in ExactForms(secrets) <==> IsForm(secrets, f)
    ensures f in LongForms(secrets) <==> IsForm(secrets, f) && |f| >= 8
  {
    if s :| s in secrets && s != [] && (f == s || f == QueryEscape(s) || f == PathEscape(s)) {
      var i := if f == s then 0 else if f == QueryEscape(s) then 1 else 2;
      assert Forms(s)[i] == f;
    }
  }

  /** Byte k of the text lies in a form of eight bytes or more. */
  ghost predicate InLongForm(secrets: set<Bytes>, text: Bytes, k: nat) {
    exists f, at: nat :: IsForm(secrets, f) && |f| >= 8 && Stands(text, f, at) && at <= k < at + |f|
  }

  predicate Stands(text: Bytes, f: Bytes, at: nat) {
    at + |f| <= |text| && text[at..at + |f|] == f
  }

  lemma CoveredIs(secrets: set<Bytes>, text: Bytes, k: nat)
    requires k < |text|
    ensures IsCovered(text, LongForms(secrets), k) <==> InLongForm(secrets, text, k)
  {
    if IsCovered(text, LongForms(secrets), k) {
      var f :| f in LongForms(secrets) && CoveredBy(text, f, |text| + 1, k);
      FormsAre(secrets, f);
      var at: nat :| at < |text| + 1 && Occurs(text, f, at) && at <= k < at + |f|;
      assert Stands(text, f, at);
    }
    if f, at: nat :| IsForm(secrets, f) && |f| >= 8 && Stands(text, f, at) && at <= k < at + |f| {
      FormsAre(secrets, f);
      assert Occurs(text, f, at);
      assert CoveredBy(text, f, |text| + 1, k);
    }
  }

  // ---------- The text in parts ----------

  /** kept[0], hidden[0], kept[1], and so on. */
  function Woven(kept: seq<Bytes>, hidden: seq<Bytes>): Bytes
    requires |kept| == |hidden| + 1
  {
    if hidden == [] then kept[0] else kept[0] + (hidden[0] + Woven(kept[1..], hidden[1..]))
  }

  /** Bytes from to at are all hidden, or all kept. */
  ghost predicate AllSo(cover: seq<bool>, from: nat, at: nat, b: bool) {
    from <= at <= |cover| && forall k :: from <= k < at ==> cover[k] == b
  }

  /** Parts of a text from a byte on: what is hidden of it is exactly what cover has, and something is kept between
      any two hidden parts. */
  ghost predicate Parts(cover: seq<bool>, from: nat, kept: seq<Bytes>, hidden: seq<Bytes>)
    requires |kept| == |hidden| + 1
    decreases |hidden|
  {
    var at := from + |kept[0]|;
    && AllSo(cover, from, at, false)
    && if hidden == [] then at == |cover|
       else
         var end := at + |hidden[0]|;
         && at < end && AllSo(cover, at, end, true) && (end < |cover| ==> kept[1] != [])
         && Parts(cover, end, kept[1..], hidden[1..])
  }

  const Marker: Bytes := [91, 82, 69, 68, 65, 67, 84, 69, 68, 93]

  function Markers(n: nat): seq<Bytes> {
    seq(n, i => Marker)
  }

  lemma Boundary(cover: seq<bool>, from: nat, b: bool) returns (end: nat)
    requires from <= |cover|
    ensures AllSo(cover, from, end, b) && (end < |cover| ==> cover[end] != b)
  {
    end := from;
    while end < |cover| && cover[end] == b
      invariant from <= end <= |cover| && forall k :: from <= k < end ==> cover[k] == b
    {
      end := end + 1;
    }
  }

  lemma {:induction false} KeptPart(s: Bytes, cover: seq<bool>, from: nat, at: nat)
    requires |cover| == |s| && from <= at <= |s| && forall k :: from <= k < at ==> !cover[k]
    ensures Masked(s, cover, from) == s[from..at] + Masked(s, cover, at)
    decreases at - from
  {
    if from < at {
      KeptPart(s, cover, from + 1, at);
      assert s[from..at] == [s[from]] + s[from + 1..at];
      Joins([s[from]], s[from + 1..at], Masked(s, cover, at));
    } else {
      assert s[from..at] == [];
    }
  }

  lemma {:induction false} MaskedInParts(s: Bytes, cover: seq<bool>, from: nat)
      returns (kept: seq<Bytes>, hidden: seq<Bytes>)
    requires |cover| == |s| && from <= |s| && (0 < from < |s| ==> !cover[from])
    ensures |kept| == |hidden| + 1 && Parts(cover, from, kept, hidden)
    ensures s[from..] == Woven(kept, hidden) && Masked(s, cover, from) == Woven(kept, Markers(|hidden|))
    ensures 0 < from < |s| ==> kept[0] != []
    decreases |s| - from
  {
    hide Masked, Parts, Woven, Markers;
    var at := Boundary(cover, from, false);
    KeptPart(s, cover, from, at);
    if at == |s| {
      kept, hidden := [s[from..]], [];
      LastPart(s, cover, from);
    } else {
      var end := Boundary(cover, at, true);
      RunSkipped(s, cover, at, end);
      var k, h := MaskedInParts(s, cover, end);
      kept, hidden := [s[from..at]] + k, [s[at..end]] + h;
      PartsMore(cover, from, s[from..at], s[at..end], k, h);
      WovenMore(s[from..at], s[at..end], k, h);
      assert s[from..] == s[from..at] + (s[at..end] + s[end..]);
    }
  }

  lemma LastPart(s: Bytes, cover: seq<bool>, from: nat)
    requires |cover| == |s| && from <= |s| && forall k :: from <= k < |s| ==> !cover[k]
    ensures Parts(cover, from, [s[from..]], []) && Woven([s[from..]], []) == s[from..]
    ensures s[from..|s|] + Masked(s, cover, |s|) == Woven([s[from..]], Markers(0))
  {
    assert s[from..|s|] + [] == s[from..];
  }

  lemma PartsMore(cover: seq<bool>, from: nat, a: Bytes, b: Bytes, k: seq<Bytes>, h: seq<Bytes>)
    requires |k| == |h| + 1 && b != []
    requires var at := from + |a|;
      && AllSo(cover, from, at, false) && AllSo(cover, at, at + |b|, true) && Parts(cover, at + |b|, k, h)
      && (at + |b| < |cover| ==> k[0] != [])
    ensures Parts(cover, from, [a] + k, [b] + h)
  {
    hide AllSo;
    var kept, hidden := [a] + k, [b] + h;
    assert kept[1..] == k && hidden[1..] == h;
    assert kept[0] == a && hidden[0] == b && kept[1] == k[0];
  }

  lemma WovenMore(a: Bytes, b: Bytes, k: seq<Bytes>, h: seq<Bytes>)
    requires |k| == |h| + 1
    ensures Woven([a] + k, [b] + h) == a + (b + Woven(k, h))
    ensures Woven([a] + k, Markers(|h| + 1)) == a + (Marker + Woven(k, Markers(|h|)))
  {
    assert ([a] + k)[1..] == k && ([b] + h)[1..] == h;
    assert Markers(|h| + 1)[1..] == Markers(|h|);
  }

  /** A text that is a form of a secret is replaced whole. In any other, every form of eight bytes or more is: what is
      written is the text with one marker for each stretch such forms cover, and all the rest as it was. */
  lemma RedactedIs(secrets: set<Bytes>, text: Bytes) returns (kept: seq<Bytes>, hidden: seq<Bytes>)
    ensures IsForm(secrets, text) ==> RedactedText(secrets, text) == Marker
    ensures |kept| == |hidden| + 1 && text == Woven(kept, hidden)
    ensures !IsForm(secrets, text) ==> RedactedText(secrets, text) == Woven(kept, Markers(|hidden|))
    ensures Parts(seq(|text|, k requires 0 <= k < |text| => InLongForm(secrets, text, k)), 0, kept, hidden)
  {
    FormsAre(secrets, text);
    var cover := Cover(text, LongForms(secrets));
    forall k | 0 <= k < |text| ensures cover[k] <==> InLongForm(secrets, text, k) {
      CoveredIs(secrets, text, k);
    }
    assert cover == seq(|text|, k requires 0 <= k < |text| => InLongForm(secrets, text, k));
    kept, hidden := MaskedInParts(text, cover, 0);
    assert text[0..] == text;
  }
}

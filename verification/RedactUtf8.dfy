/** Redaction keeps text well-formed (UTF-8, RFC 3629): a secret never starts or ends inside a character. */
module RedactUtf8 {
  import opened Bytes
  import opened Sequences
  import opened UrlEscape
  import opened Redact
  import opened Utf8Text

  /** Whole characters lead from p to i. */
  predicate Reaches(s: Bytes, p: nat, i: nat)
    requires p <= |s|
    decreases |s| - p
  {
    p == i || (CharAt(s, p) && p + CharLen(s[p]) <= i && Reaches(s, p + CharLen(s[p]), i))
  }

  /** A character of s starts at i, or s ends there. */
  predicate Boundary(s: Bytes, i: nat) {
    Reaches(s, 0, i)
  }

  // ---------- Where characters begin ----------

  lemma {:induction false} LeadIsReached(s: Bytes, p: nat, i: nat)
    requires p <= i <= |s| && ValidFrom(s, p) && (i < |s| ==> !IsContinuation(s[i]))
    ensures Reaches(s, p, i)
    decreases |s| - p
  {
    if p < i {
      LeadIsReached(s, p + CharLen(s[p]), i);
    }
  }

  lemma {:induction false} ReachesOn(s: Bytes, p: nat, i: nat, e: nat)
    requires p <= |s| && i <= |s| && Reaches(s, p, i) && Reaches(s, i, e)
    ensures Reaches(s, p, e)
    decreases |s| - p
  {
    if p != i {
      ReachesOn(s, p + CharLen(s[p]), i, e);
    }
  }

  lemma {:induction false} OccurrenceEnds(s: Bytes, f: Bytes, i: nat, q: nat)
    requires q <= |f| && ValidFrom(f, q) && Occurs(s, f, i)
    ensures Reaches(s, i + q, i + |f|)
    decreases |f| - q
  {
    if q < |f| {
      forall k | q <= k < q + CharLen(f[q]) ensures s[i + k] == f[k] {
        assert s[i..i + |f|][k] == f[k];
      }
      assert CharAt(s, i + q);
      OccurrenceEnds(s, f, i, q + CharLen(f[q]));
    }
  }

  /** No boundary lies inside a character. */
  lemma {:induction false} NothingInside(s: Bytes, q: nat, p: nat, i: nat)
    requires q <= |s| && Reaches(s, q, p) && Reaches(s, q, i) && p < |s|
    ensures i <= p || p + CharLen(s[p]) <= i
    decreases |s| - q
  {
    if q != p && q != i {
      NothingInside(s, q + CharLen(s[q]), p, i);
    }
  }

  lemma {:induction false} CharAtBoundary(s: Bytes, q: nat, p: nat)
    requires q <= |s| && ValidFrom(s, q) && Reaches(s, q, p) && p < |s|
    ensures CharAt(s, p) && Reaches(s, q, p + CharLen(s[p]))
    decreases |s| - q
  {
    if q != p {
      CharAtBoundary(s, q + CharLen(s[q]), p);
    }
  }

  // ---------- What is covered is whole characters ----------

  ghost predicate ValidForms(forms: set<Bytes>) {
    forall f :: f in forms ==> f != [] && Valid(f)
  }

  lemma OccurrenceBounds(s: Bytes, f: Bytes, i: nat)
    requires Valid(s) && Valid(f) && f != [] && Occurs(s, f, i)
    ensures Boundary(s, i) && Boundary(s, i + |f|)
  {
    assert s[i..i + |f|][0] == s[i];
    LeadIsReached(s, 0, i);
    OccurrenceEnds(s, f, i, 0);
    ReachesOn(s, 0, i, i + |f|);
  }

  lemma BetweenBounds(s: Bytes, i: nat, e: nat, p: nat, k: nat, m: nat)
    requires Boundary(s, i) && Boundary(s, e) && Boundary(s, p) && p < |s|
    requires p <= k < p + CharLen(s[p]) && p <= m < p + CharLen(s[p]) && i <= k < e
    ensures i <= m < e
  {
    NothingInside(s, 0, p, i);
    NothingInside(s, 0, p, e);
  }

  lemma CoverIsWhole(s: Bytes, forms: set<Bytes>, p: nat, k: nat, m: nat)
    requires Valid(s) && ValidForms(forms) && Boundary(s, p) && p < |s|
    requires p <= k < p + CharLen(s[p]) && p <= m < p + CharLen(s[p]) && IsCovered(s, forms, k)
    ensures IsCovered(s, forms, m)
  {
    var f :| f in forms && CoveredBy(s, f, |s| + 1, k);
    var i: nat :| i < |s| + 1 && Occurs(s, f, i) && i <= k < i + |f|;
    OccurrenceBounds(s, f, i);
    BetweenBounds(s, i, i + |f|, p, k, m);
    assert CoveredBy(s, f, |s| + 1, m);
  }

  // ---------- The result ----------

  lemma {:induction false} KeptRun(s: Bytes, cover: seq<bool>, p: nat, n: nat)
    requires |cover| == |s| && p + n <= |s| && forall k :: p <= k < p + n ==> !cover[k]
    ensures Masked(s, cover, p) == s[p..p + n] + Masked(s, cover, p + n)
    decreases n
  {
    if n > 0 {
      KeptRun(s, cover, p + 1, n - 1);
      Joins([s[p]], s[p + 1..p + n], Masked(s, cover, p + n));
      assert s[p..p + n] == [s[p]] + s[p + 1..p + n];
    }
  }

  /** What a whole character stands for: itself, the marker, or nothing. */
  lemma CharMasked(s: Bytes, forms: set<Bytes>, p: nat) returns (piece: Bytes)
    requires Valid(s) && ValidForms(forms) && Boundary(s, p) && p < |s|
    ensures CharAt(s, p) && Boundary(s, p + CharLen(s[p])) && Valid(piece)
    ensures Masked(s, Cover(s, forms), p) == piece + Masked(s, Cover(s, forms), p + CharLen(s[p]))
  {
    CharAtBoundary(s, 0, p);
    if IsCovered(s, forms, p) {
      MarkedChar(s, forms, p);
      piece := Stands(s, Cover(s, forms), p);
      AsciiIsValid(piece, 0);
    } else {
      KeptChar(s, forms, p);
      CharIsValid(s, p);
      piece := s[p..p + CharLen(s[p])];
    }
  }

  lemma {:induction false} MaskedIsValid(s: Bytes, forms: set<Bytes>, p: nat)
    requires Valid(s) && ValidForms(forms) && Boundary(s, p) && p <= |s|
    ensures Valid(Masked(s, Cover(s, forms), p))
    decreases |s| - p
  {
    if p < |s| {
      var piece := CharMasked(s, forms, p);
      MaskedIsValid(s, forms, p + CharLen(s[p]));
      ValidJoined(piece, Masked(s, Cover(s, forms), p + CharLen(s[p])), 0);
    }
  }

  lemma MarkedChar(s: Bytes, forms: set<Bytes>, p: nat)
    requires Valid(s) && ValidForms(forms) && Boundary(s, p) && p < |s| && 0 < CharLen(s[p]) && p + CharLen(s[p]) <= |s|
      && IsCovered(s, forms, p)
    ensures var n, cover := CharLen(s[p]), Cover(s, forms);
      Masked(s, cover, p) == Stands(s, cover, p) + Masked(s, cover, p + n)
  {
    forall k | p <= k < p + CharLen(s[p]) ensures IsCovered(s, forms, k) {
      CoverIsWhole(s, forms, p, p, k);
    }
    MarkedRun(s, Cover(s, forms), p, CharLen(s[p]));
  }

  lemma MarkedRun(s: Bytes, cover: seq<bool>, p: nat, n: nat)
    requires |cover| == |s| && p + n <= |s| && n > 0 && forall k :: p <= k < p + n ==> cover[k]
    ensures Masked(s, cover, p) == Stands(s, cover, p) + Masked(s, cover, p + n)
  {
    InsideRun(s, cover, p + 1, p + n);
  }

  lemma KeptChar(s: Bytes, forms: set<Bytes>, p: nat)
    requires Valid(s) && ValidForms(forms) && Boundary(s, p) && p < |s| && p + CharLen(s[p]) <= |s|
      && !IsCovered(s, forms, p)
    ensures var n, cover := CharLen(s[p]), Cover(s, forms);
      Masked(s, cover, p) == s[p..p + n] + Masked(s, cover, p + n)
  {
    forall k | p <= k < p + CharLen(s[p]) ensures !IsCovered(s, forms, k) {
      if IsCovered(s, forms, k) {
        CoverIsWhole(s, forms, p, k, p);
      }
    }
    KeptRun(s, Cover(s, forms), p, CharLen(s[p]));
  }

  lemma {:induction false} EscapesAreAscii(s: Bytes)
    ensures forall i :: 0 <= i < |QueryEscape(s)| ==> QueryEscape(s)[i] < 0x80
    ensures forall i :: 0 <= i < |PathEscape(s)| ==> PathEscape(s)[i] < 0x80
  {
    if s != [] {
      EscapesAreAscii(s[1..]);
    }
  }

  /** With well-formed secrets, well-formed text stays so. */
  lemma RedactedIsValid(secrets: set<Bytes>, s: Bytes)
    requires Valid(s) && forall x :: x in secrets ==> Valid(x)
    ensures Valid(RedactedText(secrets, s))
  {
    AsciiIsValid(Redacted, 0);
    forall f | f in LongForms(secrets) ensures f != [] && Valid(f) {
      var x, i :| x in secrets && x != [] && 0 <= i < 3 && Forms(x)[i] == f;
      EscapesAreAscii(x);
      if i > 0 {
        AsciiIsValid(f, 0);
      }
    }
    MaskedIsValid(s, LongForms(secrets), 0);
  }

  /** So what is written of it reads back as it was. */
  lemma RedactedReadsBack(secrets: set<Bytes>, s: Bytes)
    requires Valid(s) && forall x :: x in secrets ==> Valid(x)
    ensures Repaired(RedactedText(secrets, s)) == RedactedText(secrets, s)
  {
    RedactedIsValid(secrets, s);
    RepairOfValid(RedactedText(secrets, s), 0);
  }
}

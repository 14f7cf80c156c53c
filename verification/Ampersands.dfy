/** Parts joined with ampersands, and text split at them. */
module Ampersands {
  import opened Bytes
  import opened Sequences

  const Amp: Bytes := [AMPERSAND]

  predicate NoAmp(s: Bytes) {
    forall i :: 0 <= i < |s| ==> s[i] != AMPERSAND
  }

  ghost predicate NoAmps(parts: seq<Bytes>) {
    forall i :: 0 <= i < |parts| ==> NoAmp(parts[i])
  }

  /** The pieces between ampersands; from is where the one under way begins. */
  function SplitAt(s: Bytes, from: nat, n: nat): (r: seq<Bytes>)
    requires from <= n <= |s|
    ensures r != []
    decreases |s| - n
  {
    if n == |s| then [s[from..n]]
    else if s[n] == AMPERSAND then [s[from..n]] + SplitAt(s, n + 1, n + 1)
    else SplitAt(s, from, n + 1)
  }

  function Split(s: Bytes): (r: seq<Bytes>)
    ensures r != []
  {
    SplitAt(s, 0, 0)
  }

  /** The first n parts, each with its ampersand. */
  function Lead(done: seq<Bytes>, n: nat): Bytes
    requires n <= |done|
  {
    if n == 0 then [] else Lead(done, n - 1) + (done[n - 1] + Amp)
  }

  lemma {:induction false} LeadSame(a: seq<Bytes>, b: seq<Bytes>, n: nat)
    requires n <= |a| && n <= |b| && forall k :: 0 <= k < n ==> a[k] == b[k]
    ensures Lead(a, n) == Lead(b, n)
  {
    if n > 0 {
      LeadSame(a, b, n - 1);
    }
  }

  /** pair lies in s from from on. */
  ghost predicate Lies(s: Bytes, pair: Bytes, from: nat) {
    from + |pair| <= |s| && forall k :: 0 <= k < |pair| ==> s[from + k] == pair[k]
  }

  lemma {:induction false} SplitSkips(s: Bytes, pair: Bytes, from: nat, n: nat)
    requires Lies(s, pair, from) && NoAmp(pair) && from <= n <= from + |pair|
    ensures SplitAt(s, from, n) == SplitAt(s, from, from + |pair|)
    decreases from + |pair| - n
  {
    if n < from + |pair| {
      assert s[from + (n - from)] == pair[n - from];
      SplitSkips(s, pair, from, n + 1);
    }
  }

  lemma SplitTakes(s: Bytes, pair: Bytes, from: nat)
    requires Lies(s, pair, from) && NoAmp(pair)
    ensures from + |pair| < |s| && s[from + |pair|] == AMPERSAND ==>
              SplitAt(s, from, from) == [pair] + SplitAt(s, from + |pair| + 1, from + |pair| + 1)
    ensures from + |pair| == |s| ==> SplitAt(s, from, from) == [pair]
  {
    SplitSkips(s, pair, from, from);
    assert s[from..from + |pair|] == pair;
  }

  lemma {:induction false} LeadLies(done: seq<Bytes>, rest: Bytes, i: nat, n: nat)
    requires i < n <= |done|
    ensures var s := Lead(done, n) + rest;
      |Lead(done, i + 1)| == |Lead(done, i)| + |done[i]| + 1 <= |s| && Lies(s, done[i], |Lead(done, i)|)
        && s[|Lead(done, i)| + |done[i]|] == AMPERSAND
    decreases n
  {
    Joins(Lead(done, n - 1), done[n - 1] + Amp, rest);
    if i < n - 1 {
      LeadLies(done, done[n - 1] + Amp + rest, i, n - 1);
    } else {
      var s := Lead(done, n) + rest;
      forall k | 0 <= k < |done[i]| ensures s[|Lead(done, i)| + k] == done[i][k] {
      }
    }
  }

  /** From part i on, the text splits into the parts. */
  lemma {:induction false} SplitFromPart(done: seq<Bytes>, last: Bytes, i: nat)
    requires NoAmps(done) && NoAmp(last) && i <= |done|
    ensures var s := Lead(done, |done|) + last;
      |Lead(done, i)| <= |s| && SplitAt(s, |Lead(done, i)|, |Lead(done, i)|) == done[i..] + [last]
    decreases |done| - i
  {
    hide Lead, SplitAt;
    var n := |done|;
    var s := Lead(done, n) + last;
    if i == n {
      assert Lies(s, last, |Lead(done, n)|);
      SplitTakes(s, last, |Lead(done, n)|);
    } else {
      LeadLies(done, last, i, n);
      SplitFromPart(done, last, i + 1);
      SplitTakes(s, done[i], |Lead(done, i)|);
      assert done[i..] == [done[i]] + done[i + 1..];
    }
  }

  lemma SplitsIntoParts(done: seq<Bytes>, last: Bytes)
    requires NoAmps(done) && NoAmp(last)
    ensures Split(Lead(done, |done|) + last) == done + [last]
  {
    SplitFromPart(done, last, 0);
    assert done[0..] == done;
  }

  lemma {:induction false} JoinIsLead(parts: seq<Bytes>, n: nat)
    requires 0 < n <= |parts|
    ensures JoinTo(parts, Amp, n) == Lead(parts, n - 1) + parts[n - 1]
  {
    if n > 1 {
      JoinIsLead(parts, n - 1);
      Joins(Lead(parts, n - 2), parts[n - 2], Amp + parts[n - 1]);
      Joins(parts[n - 2], Amp, parts[n - 1]);
      Joins(Lead(parts, n - 2), parts[n - 2] + Amp, parts[n - 1]);
    }
  }

  /** Parts without ampersands are what their join splits into. */
  lemma SplitOfJoin(parts: seq<Bytes>)
    requires parts != [] && NoAmps(parts)
    ensures Split(Join(parts, Amp)) == parts
  {
    var n := |parts|;
    JoinIsLead(parts, n);
    LeadSame(parts, parts[..n - 1], n - 1);
    SplitsIntoParts(parts[..n - 1], parts[n - 1]);
  }
}

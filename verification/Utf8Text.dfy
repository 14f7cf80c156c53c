/** Well-formed text (UTF-8, section 4 of RFC 3629), and text made well-formed as the program's JSON
    library makes it: each byte that begins no character becomes the replacement character. */
module Utf8Text {
  import opened Bytes

  predicate IsContinuation(b: byte) {
    0x80 <= b < 0xC0
  }

  /** The length of the character a byte leads, or 0 when it leads none. */
  function CharLen(b: byte): nat {
    if b < 0x80 then 1 else if 0xC2
      <= b < 0xE0 then 2 else if 0xE0 <= b < 0xF0 then 3 else if 0xF0 <= b < 0xF5 then 4 else 0
  }

  /** No overlong forms, no surrogates, nothing past the last code point. */
  predicate SecondOk(first: byte, second: byte) {
    && (first == 0xE0 ==> second >= 0xA0) && (first == 0xED ==> second < 0xA0)
    && (first == 0xF0 ==> second >= 0x90) && (first == 0xF4 ==> second < 0x90)
  }

  /** A whole character lies at p. */
  predicate CharAt(s: Bytes, p: nat) {
    && p < |s| && 0 < CharLen(s[p]) && p + CharLen(s[p]) <= |s|
    && (CharLen(s[p]) > 1 ==> IsContinuation(s[p + 1]) && SecondOk(s[p], s[p + 1]))
    && (CharLen(s[p]) > 2 ==> IsContinuation(s[p + 2]))
    && (CharLen(s[p]) > 3 ==> IsContinuation(s[p + 3]))
  }

  /** From p on, s is whole characters. */
  predicate ValidFrom(s: Bytes, p: nat)
    requires p <= |s|
    decreases |s| - p
  {
    p == |s| || (CharAt(s, p) && ValidFrom(s, p + CharLen(s[p])))
  }

  predicate Valid(s: Bytes) {
    ValidFrom(s, 0)
  }

  lemma {:induction false} ValidShifted(a: Bytes, b: Bytes, q: nat)
    requires q <= |b| && ValidFrom(b, q)
    ensures ValidFrom(a + b, |a| + q)
    decreases |b| - q
  {
    if q < |b| {
      ValidShifted(a, b, q + CharLen(b[q]));
      assert CharAt(a + b, |a| + q);
    }
  }

  lemma {:induction false} ValidJoined(a: Bytes, b: Bytes, p: nat)
    requires p <= |a| && ValidFrom(a, p) && Valid(b)
    ensures ValidFrom(a + b, p)
    decreases |a| - p
  {
    if p < |a| {
      ValidJoined(a, b, p + CharLen(a[p]));
      assert CharAt(a + b, p);
    } else {
      ValidShifted(a, b, 0);
    }
  }

  lemma {:induction false} AsciiIsValid(s: Bytes, p: nat)
    requires p <= |s| && forall i :: 0 <= i < |s| ==> s[i] < 0x80
    ensures ValidFrom(s, p)
    decreases |s| - p
  {
    if p < |s| {
      AsciiIsValid(s, p + 1);
    }
  }

  // ---------- Text made well-formed ----------

  const Replacement: Bytes := [0xEF, 0xBF, 0xBD]

  function RepairFrom(s: Bytes, p: nat): Bytes
    requires p <= |s|
    decreases |s| - p
  {
    if p == |s| then []
    else if CharAt(s, p) then s[p..p + CharLen(s[p])] + RepairFrom(s, p + CharLen(s[p]))
    else Replacement + RepairFrom(s, p + 1)
  }

  function Repaired(s: Bytes): Bytes {
    RepairFrom(s, 0)
  }

  lemma CharIsValid(s: Bytes, p: nat)
    requires CharAt(s, p)
    ensures Valid(s[p..p + CharLen(s[p])])
  {
    assert CharAt(s[p..p + CharLen(s[p])], 0);
  }

  lemma {:induction false} RepairedIsValid(s: Bytes, p: nat)
    requires p <= |s|
    ensures Valid(RepairFrom(s, p))
    decreases |s| - p
  {
    if p < |s| {
      if CharAt(s, p) {
        CharIsValid(s, p);
        RepairedIsValid(s, p + CharLen(s[p]));
        ValidJoined(s[p..p + CharLen(s[p])], RepairFrom(s, p + CharLen(s[p])), 0);
      } else {
        assert CharAt(Replacement, 0);
        RepairedIsValid(s, p + 1);
        ValidJoined(Replacement, RepairFrom(s, p + 1), 0);
      }
    }
  }

  /** Text that is well-formed stays as it is. */
  lemma {:induction false} RepairOfValid(s: Bytes, p: nat)
    requires p <= |s| && ValidFrom(s, p)
    ensures RepairFrom(s, p) == s[p..]
    decreases |s| - p
  {
    if p < |s| {
      var e := p + CharLen(s[p]);
      RepairOfValid(s, e);
      assert s[p..] == s[p..e] + s[e..];
    }
  }

  lemma RepairedOnce(s: Bytes)
    ensures Repaired(Repaired(s)) == Repaired(s)
  {
    RepairedIsValid(s, 0);
    RepairOfValid(Repaired(s), 0);
    assert Repaired(s)[0..] == Repaired(s);
  }
}

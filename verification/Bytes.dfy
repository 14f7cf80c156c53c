/** Byte strings, as Go's strings are, and the ASCII bytes the code names. */
module Bytes {
  type byte = b: int | 0 <= b < 256

  type Bytes = seq<byte>

  const TAB: byte := 9
  const NEWLINE: byte := 10
  const RETURN: byte := 13
  const SPACE: byte := 32
  const QUOTE: byte := 34
  const PERCENT: byte := 37
  const AMPERSAND: byte := 38
  const PLUS: byte := 43
  const COMMA: byte := 44
  const COLON: byte := 58
  const EQUALS: byte := 61
  const BACKSLASH: byte := 92

  predicate IsDigit(b: byte) {
    48 <= b <= 57
  }

  predicate IsLetter(b: byte) {
    65 <= b <= 90 || 97 <= b <= 122
  }

  predicate IsHex(b: byte) {
    IsDigit(b) || 65 <= b <= 70 || 97 <= b <= 102
  }

  function HexValue(b: byte): (n: nat)
    requires IsHex(b)
    ensures n < 16
  {
    if b <= 57 then b - 48 else if b <= 70 then b - 55 else b - 87
  }

  predicate Occurs(s: Bytes, form: Bytes, i: nat) {
    i + |form| <= |s| && s[i..i + |form|] == form
  }

  /** Where form first occurs in s from from on, if it does. */
  function IndexFrom(s: Bytes, form: Bytes, from: nat): (i: int)
    ensures i < 0 ==> forall k: nat :: from <= k ==> !Occurs(s, form, k)
    ensures i >= 0 ==> from <= i && Occurs(s, form, i) && forall k: nat :: from <= k < i ==> !Occurs(s, form, k)
    decreases |s| - from
  {
    if from > |s| then -1
    else if Occurs(s, form, from) then from
    else IndexFrom(s, form, from + 1)
  }

  lemma SliceOfSlice(s: Bytes, i: nat, j: nat, a: nat, b: nat)
    requires i <= j <= |s| && a <= b <= j - i
    ensures s[i..j][a..b] == s[i + a..i + b]
  {
    var x, y := s[i..j][a..b], s[i + a..i + b];
    forall k | 0 <= k < b - a ensures x[k] == y[k] {
      assert x[k] == s[i..j][a + k];
    }
  }
}

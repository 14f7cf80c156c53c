/** Percent-encoding, said byte by byte: what each byte is written as, and what any text decodes to. */
module UrlFacts {
  import opened Bytes
  import opened Sequences
  import opened UrlEscape

  const HexDigits: Bytes := [48, 49, 50, 51, 52, 53, 54, 55, 56, 57, 65, 66, 67, 68, 69, 70]

  /** Letters, digits and the four marks - . _ ~ stand for themselves everywhere. */
  predicate Plain(b: byte) {
    48 <= b <= 57 || 65 <= b <= 90 || 97 <= b <= 122 || b in [45, 46, 95, 126]
  }

  predicate InHex(b: byte, t: Bytes) {
    t == [37, HexDigits[b / 16], HexDigits[b % 16]]
  }

  /** In a query a space is a plus sign, and every other byte that is not plain is in hex. */
  predicate WrittenInQuery(b: byte, t: Bytes) {
    if Plain(b) then t == [b] else if b == 32 then t == [43] else InHex(b, t)
  }

  /** In a path segment the bytes $ & + : = @ stand for themselves too. */
  predicate WrittenInPath(b: byte, t: Bytes) {
    if Plain(b) || b in [36, 38, 43, 58, 61, 64] then t == [b] else InHex(b, t)
  }

  lemma PercentIsInHex(b: byte)
    ensures InHex(b, Percent(b))
  {
    assert HexDigits[b / 16] == HexDigit(b / 16) && HexDigits[b % 16] == HexDigit(b % 16);
  }

  /** A query is written byte by byte. */
  lemma {:induction false} QueryBytes(s: Bytes) returns (parts: seq<Bytes>)
    ensures |parts| == |s| && QueryEscape(s) == Flatten(parts)
    ensures forall i :: 0 <= i < |s| ==> WrittenInQuery(s[i], parts[i])
  {
    parts := [];
    if s != [] {
      var rest := QueryBytes(s[1..]);
      PercentIsInHex(s[0]);
      parts := [QueryByte(s[0])] + rest;
      assert parts[1..] == rest;
      forall i | 0 <= i < |s| ensures WrittenInQuery(s[i], parts[i]) {
        assert i > 0 ==> WrittenInQuery(s[1..][i - 1], rest[i - 1]);
      }
    }
  }

  /** So is a path segment. */
  lemma {:induction false} PathBytes(s: Bytes) returns (parts: seq<Bytes>)
    ensures |parts| == |s| && PathEscape(s) == Flatten(parts)
    ensures forall i :: 0 <= i < |s| ==> WrittenInPath(s[i], parts[i])
  {
    parts := [];
    if s != [] {
      var rest := PathBytes(s[1..]);
      PercentIsInHex(s[0]);
      parts := [PathByte(s[0])] + rest;
      assert parts[1..] == rest;
      forall i | 0 <= i < |s| ensures WrittenInPath(s[i], parts[i]) {
        assert i > 0 ==> WrittenInPath(s[1..][i - 1], rest[i - 1]);
      }
    }
  }

  // ---------- Decoding ----------

  predicate HexIs(d: byte, n: nat) {
    (48 <= d <= 57 && n == d - 48) || (65 <= d <= 70 && n == d - 55) || (97 <= d <= 102 && n == d - 87)
  }

  /** t is one byte of a text, b, or its escape. */
  predicate Spells(t: Bytes, b: byte, plusIsSpace: bool) {
    || (|t| == 1 && t[0] != 37 && b == if plusIsSpace && t[0] == 43 then 32 else t[0])
    || (|t| == 3 && t[0] == 37 && HexIs(t[1], b / 16) && HexIs(t[2], b % 16))
  }

  ghost predicate SpellsAll(parts: seq<Bytes>, value: Bytes, plusIsSpace: bool) {
    |parts| == |value| && forall i :: 0 <= i < |parts| ==> Spells(parts[i], value[i], plusIsSpace)
  }

  lemma SpellsOneMore(parts: seq<Bytes>, value: Bytes, plusIsSpace: bool, t: Bytes, b: byte)
    requires SpellsAll(parts, value, plusIsSpace) && Spells(t, b, plusIsSpace)
    ensures SpellsAll([t] + parts, [b] + value, plusIsSpace)
  {
  }

  /** What decodes is spelled, byte by byte, by the text. */
  lemma {:induction false} DecodedIsSpelled(s: Bytes, plusIsSpace: bool) returns (parts: seq<Bytes>)
    requires Unescape(s, plusIsSpace).Ok?
    ensures Flatten(parts) == s && SpellsAll(parts, Unescape(s, plusIsSpace).value, plusIsSpace)
  {
    parts := [];
    if s != [] {
      var n := if s[0] == PERCENT then 3 else 1;
      var rest := DecodedIsSpelled(s[n..], plusIsSpace);
      parts := [s[..n]] + rest;
      assert parts[1..] == rest && s == s[..n] + s[n..];
      SpellsOneMore(rest, Unescape(s[n..], plusIsSpace).value, plusIsSpace, s[..n],
        Unescape(s, plusIsSpace).value[0]);
      assert [Unescape(s, plusIsSpace).value[0]] + Unescape(s[n..], plusIsSpace).value
          == Unescape(s, plusIsSpace).value;
    }
  }

  /** A text that spells bytes decodes to them; so one that does not decode spells none. */
  lemma {:induction false} SpelledDecodes(parts: seq<Bytes>, value: Bytes, plusIsSpace: bool)
    requires SpellsAll(parts, value, plusIsSpace)
    ensures Unescape(Flatten(parts), plusIsSpace) == Ok(value)
  {
    if parts != [] {
      var t, s := parts[0], Flatten(parts);
      assert SpellsAll(parts[1..], value[1..], plusIsSpace);
      SpelledDecodes(parts[1..], value[1..], plusIsSpace);
      assert Spells(t, value[0], plusIsSpace) && s[|t|..] == Flatten(parts[1..]);
      assert [value[0]] + value[1..] == value;
    }
  }
}

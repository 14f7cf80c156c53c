/** Percent-encoding as the program's URL library does it: for query components, where a space becomes a
    plus sign (application/x-www-form-urlencoded, section 5 of the WHATWG URL Standard), and for path
    segments (sections 2.1 and 3.3 of RFC 3986). */
module UrlEscape {
  import opened Bytes

  predicate Unreserved(b: byte) {
    IsDigit(b) || IsLetter(b) || b == 45 || b == 46 || b == 95 || b == 126
  }

  /** A path segment also leaves the characters $ & + : = @ as they are. */
  predicate KeptInPath(b: byte) {
    Unreserved(b) || b == 36 || b == 38 || b == 43 || b == 58 || b == 61 || b == 64
  }

  function HexDigit(n: nat): (d: byte)
    requires n < 16
    ensures IsHex(d) && HexValue(d) == n && Unreserved(d)
  {
    if n < 10 then 48 + n else 55 + n
  }

  function Percent(b: byte): (r: Bytes)
    ensures |r| == 3
  {
    [PERCENT, HexDigit(b / 16), HexDigit(b % 16)]
  }

  function QueryByte(b: byte): Bytes {
    if Unreserved(b) then [b] else if b == SPACE then [PLUS] else Percent(b)
  }

  function PathByte(b: byte): Bytes {
    if KeptInPath(b) then [b] else Percent(b)
  }

  function QueryEscape(s: Bytes): Bytes {
    if s == [] then [] else QueryByte(s[0]) + QueryEscape(s[1..])
  }

  function PathEscape(s: Bytes): Bytes {
    if s == [] then [] else PathByte(s[0]) + PathEscape(s[1..])
  }

  datatype Result = Ok(value: Bytes) | Malformed

  /** Undoes percent-encoding, and plus signs in a query component. */
  function Unescape(s: Bytes, plusIsSpace: bool): Result {
    if s == [] then Ok([])
    else if s[0] == PERCENT then
      if |s| < 3 || !IsHex(s[1]) || !IsHex(s[2]) then Malformed
      else Before(HexValue(s[1]) * 16 + HexValue(s[2]), Unescape(s[3..], plusIsSpace))
    else Before(if plusIsSpace && s[0] == PLUS then SPACE else s[0], Unescape(s[1..], plusIsSpace))
  }

  function Before(b: byte, r: Result): Result {
    if r.Ok? then Ok([b] + r.value) else r
  }

  lemma UnescapePercent(b: byte, rest: Bytes, plusIsSpace: bool)
    ensures Unescape(Percent(b) + rest, plusIsSpace) == Before(b, Unescape(rest, plusIsSpace))
  {
    var s := Percent(b) + rest;
    assert s[3..] == rest;
  }

  lemma UnescapePlain(b: byte, rest: Bytes, plusIsSpace: bool)
    requires b != PERCENT
    ensures Unescape([b] + rest, plusIsSpace)
      == Before(if plusIsSpace && b == PLUS then SPACE else b, Unescape(rest, plusIsSpace))
  {
    assert ([b] + rest)[1..] == rest;
  }

  /** What was escaped for a query reads back as it was. */
  lemma {:induction false} QueryRoundTrip(s: Bytes)
    ensures Unescape(QueryEscape(s), true) == Ok(s)
  {
    if s != [] {
      QueryRoundTrip(s[1..]);
      assert s == [s[0]] + s[1..];
      if Unreserved(s[0]) {
        UnescapePlain(s[0], QueryEscape(s[1..]), true);
      } else if s[0] == SPACE {
        UnescapePlain(PLUS, QueryEscape(s[1..]), true);
      } else {
        UnescapePercent(s[0], QueryEscape(s[1..]), true);
      }
    }
  }

  /** So does what was escaped for a path. */
  lemma {:induction false} PathRoundTrip(s: Bytes)
    ensures Unescape(PathEscape(s), false) == Ok(s)
  {
    if s != [] {
      PathRoundTrip(s[1..]);
      assert s == [s[0]] + s[1..];
      if KeptInPath(s[0]) {
        UnescapePlain(s[0], PathEscape(s[1..]), false);
      } else {
        UnescapePercent(s[0], PathEscape(s[1..]), false);
      }
    }
  }

  /** An escaped query component holds none of the characters that structure a query or a form. */
  lemma {:induction false} QueryEscapeIsPlain(s: Bytes)
    ensures forall i :: 0 <= i < |QueryEscape(s)|
              ==> Unreserved(QueryEscape(s)[i]) || QueryEscape(s)[i] == PLUS || QueryEscape(s)[i] == PERCENT
  {
    if s != [] {
      QueryEscapeIsPlain(s[1..]);
    }
  }
}

/** String literals of JSON (section 7 of RFC 8259), as the program's JSON library writes and reads them. */
module JsonString {
  import opened Bytes

  /** One character of a string literal, as written. */
  datatype Elem =
    | Raw(b: byte)
    | Escaped(c: byte)
    | Unicode(h3: byte, h2: byte, h1: byte, h0: byte)

  const BACKSPACE: byte := 8
  const FORMFEED: byte := 12

  /** The byte a two-character escape stands for. */
  function Unescaped(c: byte): Option<byte> {
    if c == QUOTE || c == BACKSLASH || c == 47 then Some(c)
    else if c == 98 then Some(BACKSPACE)
    else if c == 102 then Some(FORMFEED)
    else if c == 110 then Some(NEWLINE)
    else if c == 114 then Some(RETURN)
    else if c == 116 then Some(TAB)
    else None
  }

  datatype Option<T> = None | Some(value: T)

  predicate ElemOk(e: Elem) {
    match e
    case Raw(b) => b >= 32 && b != QUOTE && b != BACKSLASH
    case Escaped(c) => Unescaped(c).Some?
    case Unicode(a, b, c, d) => IsHex(a) && IsHex(b) && IsHex(c) && IsHex(d)
  }

  predicate BodyOk(body: seq<Elem>) {
    forall i :: 0 <= i < |body| ==> ElemOk(body[i])
  }

  function ElemText(e: Elem): Bytes {
    match e
    case Raw(b) => [b]
    case Escaped(c) => [BACKSLASH, c]
    case Unicode(a, b, c, d) => [BACKSLASH, 117, a, b, c, d]
  }

  function BodyText(body: seq<Elem>): Bytes {
    if body == [] then [] else ElemText(body[0]) + BodyText(body[1..])
  }

  // ---------- What a literal means ----------

  function CodeUnit(e: Elem): (u: nat)
    requires e.Unicode? && ElemOk(e)
    ensures u < 0x10000
  {
    ((HexValue(e.h3) * 16 + HexValue(e.h2)) * 16 + HexValue(e.h1)) * 16 + HexValue(e.h0)
  }

  predicate IsHigh(u: nat) {
    0xD800 <= u < 0xDC00
  }

  predicate IsLow(u: nat) {
    0xDC00 <= u < 0xE000
  }

  const ReplacementChar: nat := 0xFFFD

  /** The UTF-8 encoding of a code point. */
  function Utf8(code: nat): (r: Bytes)
    requires code < 0x110000
    ensures |r| > 0
  {
    if code < 0x80 then [code]
    else if code < 0x800 then [0xC0 + code / 0x40, 0x80 + code % 0x40]
    else if code < 0x10000 then [0xE0 + code / 0x1000, 0x80 + code / 0x40 % 0x40, 0x80 + code % 0x40]
    else [0xF0 + code / 0x40000, 0x80 + code / 0x1000 % 0x40, 0x80 + code / 0x40 % 0x40, 0x80 + code % 0x40]
  }

  predicate PairAt(body: seq<Elem>)
    requires BodyOk(body)
  {
    |body| > 1 && body[0].Unicode? && body[1].Unicode? && IsHigh(CodeUnit(body[0])) && IsLow(CodeUnit(body[1]))
  }

  /** A pair of surrogates is one code point; one without its partner is the replacement character. */
  function Decode(body: seq<Elem>): Bytes
    requires BodyOk(body)
  {
    if body == [] then []
    else if PairAt(body) then
      Utf8(0x10000 + (CodeUnit(body[0]) - 0xD800) * 0x400 + (CodeUnit(body[1]) - 0xDC00)) + Decode(body[2..])
    else DecodeElem(body[0]) + Decode(body[1..])
  }

  function DecodeElem(e: Elem): Bytes
    requires ElemOk(e)
  {
    match e
    case Raw(b) => [b]
    case Escaped(c) => [Unescaped(c).value]
    case Unicode(_, _, _, _) =>
      var u := CodeUnit(e);
      Utf8(if IsHigh(u) || IsLow(u) then ReplacementChar else u)
  }

  // ---------- How a string is written ----------

  function LowerHex(n: nat): (d: byte)
    requires n < 16
    ensures IsHex(d) && HexValue(d) == n
  {
    if n < 10 then 48 + n else 87 + n
  }

  function UnicodeByte(b: byte): Elem {
    Unicode(48, 48, LowerHex(b / 16), LowerHex(b % 16))
  }

  /** html says whether <, > and & are escaped too. */
  function EncodeByte(b: byte, html: bool): Elem {
    if b == QUOTE || b == BACKSLASH then Escaped(b)
    else if b == BACKSPACE then Escaped(98)
    else if b == FORMFEED then Escaped(102)
    else if b == NEWLINE then Escaped(110)
    else if b == RETURN then Escaped(114)
    else if b == TAB then Escaped(116)
    else if b < 32 || (html && (b == 38 || b == 60 || b == 62)) then UnicodeByte(b)
    else Raw(b)
  }

  /** The line and paragraph separators U+2028 and U+2029, which are always escaped. */
  predicate SeparatorAt(s: Bytes) {
    |s| >= 3 && s[0] == 0xE2 && s[1] == 0x80 && (s[2] == 0xA8 || s[2] == 0xA9)
  }

  lemma EncodeByteOk(b: byte, html: bool)
    ensures ElemOk(EncodeByte(b, html)) && DecodeElem(EncodeByte(b, html)) == [b]
    ensures EncodeByte(b, html).Unicode? ==> CodeUnit(EncodeByte(b, html)) == b
  {
  }

  lemma DecodeFirst(e: Elem, rest: seq<Elem>)
    requires ElemOk(e) && BodyOk(rest) && (e.Unicode? ==> !IsHigh(CodeUnit(e)))
    ensures BodyOk([e] + rest) && Decode([e] + rest) == DecodeElem(e) + Decode(rest)
  {
    var body := [e] + rest;
    assert body[1..] == rest;
  }

  function SeparatorElem(last: byte): (e: Elem)
    requires last == 0xA8 || last == 0xA9
    ensures ElemOk(e)
  {
    Unicode(50, 48, 50, if last == 0xA8 then 56 else 57)
  }

  lemma SeparatorDecodes(last: byte)
    requires last == 0xA8 || last == 0xA9
    ensures DecodeElem(SeparatorElem(last)) == [0xE2, 0x80, last] && !IsHigh(CodeUnit(SeparatorElem(last)))
  {
    assert CodeUnit(SeparatorElem(last)) == 0x2028 + (last - 0xA8);
  }

  // ---------- Reading a literal back ----------

  /** The characters of a literal's text. */
  function Parse(text: Bytes): seq<Elem> {
    if text == [] then []
    else if text[0] == BACKSLASH && |text| >= 6
        && text[1] == 117 then [Unicode(text[2], text[3], text[4], text[5])] + Parse(text[6..])
    else if text[0] == BACKSLASH && |text| >= 2 then [Escaped(text[1])] + Parse(text[2..])
    else [Raw(text[0])] + Parse(text[1..])
  }

  lemma ParseFirst(e: Elem, rest: Bytes)
    requires ElemOk(e)
    ensures Parse(ElemText(e) + rest) == [e] + Parse(rest)
  {
    var text := ElemText(e) + rest;
    assert text[|ElemText(e)|..] == rest;
  }

  /** A literal can be read in one way only. */
  lemma {:induction false} ParseReads(body: seq<Elem>)
    requires BodyOk(body)
    ensures Parse(BodyText(body)) == body
  {
    if body != [] {
      ParseReads(body[1..]);
      ParseFirst(body[0], BodyText(body[1..]));
    }
  }
}

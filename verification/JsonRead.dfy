/** What a JSON string literal means to the program's JSON library, and how the library writes a string:
    bytes that are not UTF-8 read, and are written, as the replacement character. */
module JsonRead {
  import opened Bytes
  import opened JsonString
  import opened Sequences
  import opened Utf8Text

  /** An escape decodes to whole characters, so a character is never put together of an escape and raw bytes. */
  function Read(body: seq<Elem>): Bytes
    requires BodyOk(body)
  {
    Repaired(Decode(body))
  }

  const ReplacementElem := Unicode(102, 102, 102, 100)

  /** The character at p. */
  function MarshalChar(s: Bytes, p: nat, html: bool): seq<Elem>
    requires CharAt(s, p)
  {
    var c := s[p..p + CharLen(s[p])];
    if SeparatorAt(c) then [SeparatorElem(c[2])] else seq(|c|, i requires 0 <= i < |c| => EncodeByte(c[i], html))
  }

  function MarshalFrom(s: Bytes, p: nat, html: bool): seq<Elem>
    requires p <= |s|
    decreases |s| - p
  {
    if p == |s| then []
    else if CharAt(s, p) then MarshalChar(s, p, html) + MarshalFrom(s, p + CharLen(s[p]), html)
    else [ReplacementElem] + MarshalFrom(s, p + 1, html)
  }

  function Marshal(s: Bytes, html: bool): seq<Elem> {
    MarshalFrom(s, 0, html)
  }

  /** No element begins a pair of surrogates. */
  predicate Unpaired(body: seq<Elem>) {
    forall i :: 0 <= i < |body| ==> ElemOk(body[i]) && (body[i].Unicode? ==> !IsHigh(CodeUnit(body[i])))
  }

  lemma {:induction false} DecodeJoined(a: seq<Elem>, rest: seq<Elem>)
    requires Unpaired(a) && BodyOk(rest)
    ensures BodyOk(a + rest) && BodyOk(a) && Decode(a + rest) == Decode(a) + Decode(rest)
  {
    if a == [] {
      assert a + rest == rest;
    } else {
      var tail := a[1..];
      DecodeJoined(tail, rest);
      DecodeFirst(a[0], tail);
      DecodeFirst(a[0], tail + rest);
      assert a == [a[0]] + tail && a + rest == [a[0]] + (tail + rest);
      Joins(DecodeElem(a[0]), Decode(tail), Decode(rest));
    }
  }

  lemma {:induction false} BytesDecode(c: Bytes, html: bool)
    ensures var e := seq(|c|, i requires 0 <= i < |c| => EncodeByte(c[i], html));
      Unpaired(e) && BodyOk(e) && Decode(e) == c
  {
    var e := seq(|c|, i requires 0 <= i < |c| => EncodeByte(c[i], html));
    forall i | 0 <= i < |c| ensures ElemOk(e[i]) && (e[i].Unicode? ==> !IsHigh(CodeUnit(e[i]))) {
      EncodeByteOk(c[i], html);
    }
    if c != [] {
      BytesDecode(c[1..], html);
      EncodeByteOk(c[0], html);
      assert e[1..] == seq(|c[1..]|, i requires 0 <= i < |c[1..]| => EncodeByte(c[1..][i], html));
      DecodeFirst(e[0], e[1..]);
      assert e == [e[0]] + e[1..] && c == [c[0]] + c[1..];
    }
  }

  lemma CharDecodes(s: Bytes, p: nat, html: bool)
    requires CharAt(s, p)
    ensures Unpaired(MarshalChar(s, p, html)) && BodyOk(MarshalChar(s, p, html))
      && Decode(MarshalChar(s, p, html)) == s[p..p + CharLen(s[p])]
  {
    var c := s[p..p + CharLen(s[p])];
    if SeparatorAt(c) {
      var e := SeparatorElem(c[2]);
      SeparatorDecodes(c[2]);
      DecodeFirst(e, []);
      assert [e] + [] == [e] && c == [0xE2, 0x80, c[2]];
    } else {
      BytesDecode(c, html);
    }
  }

  lemma ReplacementDecodes()
    ensures Unpaired([ReplacementElem]) && BodyOk([ReplacementElem]) && Decode([ReplacementElem]) == Replacement
  {
    assert CodeUnit(ReplacementElem) == 0xFFFD;
    DecodeFirst(ReplacementElem, []);
    assert [ReplacementElem] + [] == [ReplacementElem];
  }

  lemma {:induction false} MarshalDecodes(s: Bytes, p: nat, html: bool)
    requires p <= |s|
    ensures BodyOk(MarshalFrom(s, p, html)) && Decode(MarshalFrom(s, p, html)) == RepairFrom(s, p)
    decreases |s| - p
  {
    hide Decode, MarshalChar;
    if p == |s| {
      DecodeNothing();
    } else if CharAt(s, p) {
      MarshalDecodes(s, p + CharLen(s[p]), html);
      CharDecodes(s, p, html);
      DecodeJoined(MarshalChar(s, p, html), MarshalFrom(s, p + CharLen(s[p]), html));
    } else {
      MarshalDecodes(s, p + 1, html);
      ReplacementDecodes();
      DecodeJoined([ReplacementElem], MarshalFrom(s, p + 1, html));
    }
  }

  lemma DecodeNothing()
    ensures Decode([]) == []
  {
  }

  /** What the library writes it reads back, made well-formed. */
  lemma MarshalReadsBack(s: Bytes, html: bool)
    ensures BodyOk(Marshal(s, html)) && Read(Marshal(s, html)) == Repaired(s)
  {
    MarshalDecodes(s, 0, html);
    RepairedOnce(s);
  }
}

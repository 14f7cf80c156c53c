/** The form encoder and decoder undo each other, up to a normal form (adapter/form.go,
    archive/formbody.go; application/x-www-form-urlencoded, section 5 of the WHATWG URL Standard). */
module FormTheorems {
  import opened Ampersands
  import opened Bytes
  import opened Form
  import opened FormBody
  import opened UrlEscape

  // ---------- A pair reads back ----------

  /** A key as it is sent: escaped, but for its brackets. */
  function KeyByte(b: byte): Bytes {
    if b == OPEN || b == CLOSE then [b] else QueryByte(b)
  }

  function KeyEscape(s: Bytes): Bytes {
    if s == [] then [] else KeyByte(s[0]) + KeyEscape(s[1..])
  }

  lemma RestoreByte(b: byte, rest: Bytes)
    ensures RestoreBrackets(QueryByte(b) + rest) == KeyByte(b) + RestoreBrackets(rest)
  {
    var s := QueryByte(b) + rest;
    if Unreserved(b) || b == SPACE {
      assert s[1..] == rest;
    } else {
      assert s[..3] == Percent(b) && s[3..] == rest;
      if b == OPEN {
        assert Percent(b) == ESCAPED_OPEN;
      } else if b == CLOSE {
        assert Percent(b) == ESCAPED_CLOSE;
      } else {
        RestoreOther(b, rest);
      }
    }
  }

  lemma RestoreOther(b: byte, rest: Bytes)
    requires b != OPEN && b != CLOSE
    ensures RestoreBrackets(Percent(b) + rest) == Percent(b) + RestoreBrackets(rest)
  {
    var s := Percent(b) + rest;
    OnlyBrackets(b);
    assert s[..3] == Percent(b) && s[3..] == rest;
    RestorePlain(s);
    RestoreDigit(HexDigit(b / 16), [HexDigit(b % 16)] + rest);
    RestoreDigit(HexDigit(b % 16), rest);
    assert s[1..] == [HexDigit(b / 16)] + ([HexDigit(b % 16)] + rest);
  }

  lemma RestoreDigit(d: byte, rest: Bytes)
    requires d != PERCENT
    ensures RestoreBrackets([d] + rest) == [d] + RestoreBrackets(rest)
  {
    var s := [d] + rest;
    assert |s| >= 3 ==> s[..3][0] == d;
    assert s[1..] == rest;
  }

  lemma OnlyBrackets(b: byte)
    requires b != OPEN && b != CLOSE
    ensures Percent(b) != ESCAPED_OPEN && Percent(b) != ESCAPED_CLOSE
  {
    assert HexValue(HexDigit(b / 16)) == b / 16 && HexValue(HexDigit(b % 16)) == b % 16;
  }

  /** What does not start an escaped bracket is left as it is. */
  lemma RestorePlain(s: Bytes)
    requires s != [] && !StartsWith(s, ESCAPED_OPEN) && !StartsWith(s, ESCAPED_CLOSE)
    ensures RestoreBrackets(s) == [s[0]] + RestoreBrackets(s[1..])
  {
  }

  lemma {:induction false} RestoreIsKeyEscape(s: Bytes)
    ensures RestoreBrackets(QueryEscape(s)) == KeyEscape(s)
  {
    if s != [] {
      RestoreIsKeyEscape(s[1..]);
      RestoreByte(s[0], QueryEscape(s[1..]));
    }
  }

  lemma {:induction false} KeyRoundTrip(s: Bytes)
    ensures Unescape(KeyEscape(s), true) == Ok(s)
  {
    if s != [] {
      KeyRoundTrip(s[1..]);
      assert s == [s[0]] + s[1..];
      if s[0] == OPEN || s[0] == CLOSE || Unreserved(s[0]) {
        UnescapePlain(s[0], KeyEscape(s[1..]), true);
      } else if s[0] == SPACE {
        UnescapePlain(PLUS, KeyEscape(s[1..]), true);
      } else {
        UnescapePercent(s[0], KeyEscape(s[1..]), true);
      }
    }
  }

  predicate NoSeparator(s: Bytes) {
    forall i :: 0 <= i < |s| ==> s[i] != AMPERSAND && s[i] != EQUALS
  }

  lemma {:induction false} KeyHasNoSeparator(s: Bytes)
    ensures NoSeparator(KeyEscape(s))
  {
    if s != [] {
      KeyHasNoSeparator(s[1..]);
    }
  }

  lemma ValueHasNoSeparator(s: Bytes)
    ensures NoSeparator(QueryEscape(s))
  {
    QueryEscapeIsPlain(s);
  }

  lemma CutAtEquals(key: Bytes, value: Bytes)
    requires NoSeparator(key)
    ensures var s := key + [EQUALS] + value;
      IndexFrom(s, [EQUALS], 0) == |key| && s[..|key|] == key && s[|key| + 1..] == value
  {
    var s := key + [EQUALS] + value;
    assert s[|key|..|key| + 1] == [EQUALS];
    assert Occurs(s, [EQUALS], |key|);
    forall k: nat | k < |key| ensures !Occurs(s, [EQUALS], k) {
      assert s[k..k + 1][0] == key[k];
    }
  }

  lemma PairReadsBack(p: Pair)
    ensures FieldOf(PairText(p)) == p && PairText(p) != [] && NoAmp(PairText(p))
  {
    RestoreIsKeyEscape(p.key);
    KeyHasNoSeparator(p.key);
    ValueHasNoSeparator(p.value);
    CutAtEquals(KeyEscape(p.key), QueryEscape(p.value));
    KeyRoundTrip(p.key);
    QueryRoundTrip(p.value);
  }

  lemma {:induction false} PairsReadBack(pairs: seq<Pair>, n: nat)
    requires n <= |pairs|
    ensures FieldsOf(PairTexts(pairs), n) == pairs[..n]
  {
    if n > 0 {
      PairsReadBack(pairs, n - 1);
      PairReadsBack(pairs[n - 1]);
      assert pairs[..n] == pairs[..n - 1] + [pairs[n - 1]];
    }
  }

  /** Decoding a form body gives back the pairs that were sent, in order. */
  lemma BodyReadsBack(pairs: seq<Pair>)
    ensures FieldsIn(BodyOf(pairs)) == pairs
  {
    if pairs != [] {
      var texts := PairTexts(pairs);
      forall i | 0 <= i < |texts| ensures NoAmp(texts[i]) {
        PairReadsBack(pairs[i]);
      }
      SplitOfJoin(texts);
      PairsReadBack(pairs, |pairs|);
      assert pairs[..|pairs|] == pairs;
      BodyIsSome(pairs);
    }
  }

  lemma BodyIsSome(pairs: seq<Pair>)
    requires pairs != []
    ensures BodyOf(pairs) != []
  {
    var texts := PairTexts(pairs);
    PairReadsBack(pairs[|pairs| - 1]);
    JoinIsLead(texts, |texts|);
  }
}

/** Values in a JSON body (adapter/render.go): the scanner stays right although no value is ever fed to it. */
module RenderJson {
  import opened Bytes
  import opened Filling
  import opened JsonRead
  import opened JsonString
  import opened JsonText
  import opened Scanner
  import opened Values

  // ---------- Reading the text back ----------

  /** Where a reader of JSON text stands after it. */
  function Reading(s: State, text: Bytes): State {
    Fed(JsonBody, s, text, |text|)
  }

  lemma {:induction false} ReadingPrefix(s: State, a: Bytes, b: Bytes, n: nat)
    requires n <= |a|
    ensures Fed(JsonBody, s, a + b, n) == Fed(JsonBody, s, a, n)
  {
    if n > 0 {
      ReadingPrefix(s, a, b, n - 1);
      assert (a + b)[n - 1] == a[n - 1];
    }
  }

  lemma {:induction false} ReadingRest(s: State, a: Bytes, b: Bytes, n: nat)
    requires n <= |b|
    ensures Fed(JsonBody, s, a + b, |a| + n) == Fed(JsonBody, Reading(s, a), b, n)
  {
    if n == 0 {
      ReadingPrefix(s, a, b, |a|);
    } else {
      ReadingRest(s, a, b, n - 1);
      assert (a + b)[|a| + n - 1] == b[n - 1];
    }
  }

  lemma ReadingJoined(s: State, a: Bytes, b: Bytes)
    ensures Reading(s, a + b) == Reading(Reading(s, a), b)
  {
    ReadingRest(s, a, b, |b|);
  }

  lemma ReadingByte(s: State, b: byte)
    ensures Reading(s, [b]) == FedJson(s, b)
  {
    assert Fed(JsonBody, s, [b], 0) == s;
  }

  lemma ReadingTwo(s: State, a: byte, b: byte)
    ensures Reading(s, [a, b]) == FedJson(FedJson(s, a), b)
  {
    assert [a, b] == [a] + [b];
    ReadingJoined(s, [a], [b]);
    ReadingByte(s, a);
    ReadingByte(FedJson(s, a), b);
  }

  /** One character of a string literal, read inside the literal, leaves the reader inside it. */
  lemma ElemStaysInside(s: State, e: Elem)
    requires s.inString && !s.escaped && ElemOk(e)
    ensures Reading(s, ElemText(e)) == s
  {
    match e {
      case Raw(b) => ReadingByte(s, b);
      case Escaped(c) => ReadingTwo(s, BACKSLASH, c);
      case Unicode(a, b, c, d) =>
        assert ElemText(e) == [BACKSLASH, 117] + ([a, b] + [c, d]);
        ReadingTwo(s, BACKSLASH, 117);
        ReadingTwo(s, a, b);
        ReadingTwo(s, c, d);
        ReadingJoined(s, [a, b], [c, d]);
        ReadingJoined(s, [BACKSLASH, 117], [a, b] + [c, d]);
    }
  }

  lemma {:induction false} BodyStaysInside(s: State, body: seq<Elem>)
    requires s.inString && !s.escaped && JsonString.BodyOk(body)
    ensures Reading(s, BodyText(body)) == s
  {
    if body != [] {
      ElemStaysInside(s, body[0]);
      BodyStaysInside(s, body[1..]);
      ReadingJoined(s, ElemText(body[0]), BodyText(body[1..]));
    }
  }

  lemma TokenStaysOutside(s: State, t: Token)
    requires !s.inString && !s.escaped && TokenOk(t)
    ensures Reading(s, TokenText(t)) == s
  {
    match t {
      case Gap(b) => ReadingByte(s, b);
      case Quoted(body, _) =>
        var inside := s.(inString := true);
        ReadingByte(s, QUOTE);
        BodyStaysInside(inside, body);
        ReadingByte(inside, QUOTE);
        ReadingJoined(s, [QUOTE], BodyText(body));
        ReadingJoined(s, [QUOTE] + BodyText(body), [QUOTE]);
    }
  }

  lemma {:induction false} TokensStayOutside(s: State, tokens: seq<Token>)
    requires !s.inString && !s.escaped && TokensOk(tokens)
    ensures Reading(s, JsonText.Text(tokens)) == s
  {
    if tokens != [] {
      TokenStaysOutside(s, tokens[0]);
      TokensStayOutside(s, tokens[1..]);
      assert Texts(tokens)[1..] == Texts(tokens[1..]);
      ReadingJoined(s, TokenText(tokens[0]), JsonText.Text(tokens[1..]));
    }
  }

  /** A value inside a string literal, or one that is not a string outside any, leaves a reader where it
      was; no escape may be pending. */
  lemma ValueStays(s: State, v: Val)
    requires ValOk(v) && !s.escaped && (s.inString || !v.Text?)
    ensures Reading(s, Rendered(JsonBody, s, v)) == s
  {
    if s.inString {
      MarshalReadsBack(FormatValue(v), false);
      BodyStaysInside(s, Marshal(FormatValue(v), false));
    } else {
      JsonIsOk(v);
      ValueTokensOk(JsonOf(v));
      TokensStayOutside(s, Tokens(JsonOf(v)));
    }
  }

  // ---------- Whole templates ----------

  /** No value meets a pending backslash, and no string stands outside a literal. */
  ghost predicate Placed(pieces: seq<Piece>) {
    forall i :: 0 <= i < |pieces| && pieces[i].Hole?
      ==> !StateAt(JsonBody, pieces, i).escaped && NotBare(StateAt(JsonBody, pieces, i), pieces[i])
  }

  predicate NotBare(s: State, p: Piece) {
    p.Hole? && !s.inString ==> !p.v.Text?
  }

  /** A reader of what was written is, at each piece, where the scanner is. */
  ghost predicate InStep(pieces: seq<Piece>)
    requires PiecesOk(pieces)
  {
    forall n :: 0 <= n <= |pieces| ==> Reading(Start, Output(JsonBody, pieces, n)) == StateAt(JsonBody, pieces, n)
  }

  lemma {:induction false} ScannerIsRight(pieces: seq<Piece>, n: nat)
    requires PiecesOk(pieces) && n <= |pieces|
    requires forall i :: 0 <= i < n && pieces[i].Hole?
               ==> !StateAt(JsonBody, pieces, i).escaped && NotBare(StateAt(JsonBody, pieces, i), pieces[i])
    ensures Reading(Start, Output(JsonBody, pieces, n)) == StateAt(JsonBody, pieces, n)
  {
    hide Rendered, FedByte;
    if n > 0 {
      ScannerIsRight(pieces, n - 1);
      var s, p := StateAt(JsonBody, pieces, n - 1), pieces[n - 1];
      ReadingJoined(Start, Output(JsonBody, pieces, n - 1), PieceText(JsonBody, s, p));
      if p.Hole? {
        ValueStays(s, p.v);
      }
    }
  }

  /** A substituted value never moves the scanner. */
  lemma ValuesNeverMoveIt(pieces: seq<Piece>)
    requires PiecesOk(pieces) && Placed(pieces)
    ensures InStep(pieces)
  {
    forall n | 0 <= n <= |pieces| ensures Reading(Start, Output(JsonBody, pieces, n)) == StateAt(JsonBody, pieces, n) {
      ScannerIsRight(pieces, n);
    }
  }

  // ---------- Exactly when ----------

  /** The same template, filled with other values. */
  ghost predicate SameTemplate(a: seq<Piece>, b: seq<Piece>) {
    |a| == |b| && forall i :: 0 <= i < |a| ==> SamePlace(a[i], b[i])
  }

  predicate SamePlace(p: Piece, q: Piece) {
    if p.Literal? then q == p else q.Hole?
  }

  lemma {:induction false} StatesAgree(a: seq<Piece>, b: seq<Piece>, n: nat)
    requires SameTemplate(a, b) && n <= |a|
    ensures StateAt(JsonBody, a, n) == StateAt(JsonBody, b, n)
  {
    if n > 0 {
      StatesAgree(a, b, n - 1);
      assert SamePlace(a[n - 1], b[n - 1]);
    }
  }

  ghost predicate PendingAt(pieces: seq<Piece>, i: nat) {
    i < |pieces| && pieces[i].Hole? && StateAt(JsonBody, pieces, i).escaped
  }

  /** A template whose values are all right, but for strings outside literals. */
  ghost predicate Fills(template: seq<Piece>, pieces: seq<Piece>) {
    && SameTemplate(template, pieces) && PiecesOk(pieces)
    && forall i :: 0 <= i < |pieces| ==> NotBare(StateAt(JsonBody, pieces, i), pieces[i])
  }

  lemma {:induction false} EscapedIsInString(pieces: seq<Piece>, n: nat)
    requires n <= |pieces|
    ensures StateAt(JsonBody, pieces, n).escaped ==> StateAt(JsonBody, pieces, n).inString
  {
    if n > 0 {
      EscapedIsInString(pieces, n - 1);
      if pieces[n - 1].Literal? {
        FedEscapedIsInString(StateAt(JsonBody, pieces, n - 1), pieces[n - 1].text, |pieces[n - 1].text|);
      }
    }
  }

  lemma {:induction false} FedEscapedIsInString(s: State, text: Bytes, n: nat)
    requires n <= |text| && (s.escaped ==> s.inString)
    ensures Fed(JsonBody, s, text, n).escaped ==> Fed(JsonBody, s, text, n).inString
  {
    if n > 0 {
      FedEscapedIsInString(s, text, n - 1);
    }
  }

  const AnX: Bytes := [120]

  /** Values that show the scanner wrong at the hole k: nothing before it, an x in it. */
  ghost function Witness(template: seq<Piece>, k: nat): (r: seq<Piece>)
    ensures SameTemplate(template, r) && PiecesOk(r)
  {
    seq(|template|, i requires 0 <= i < |template| =>
      if template[i].Literal? then template[i] else Hole(if i == k then Val.Text(AnX) else Null))
  }

  lemma PendingMovesIt(template: seq<Piece>, k: nat)
    requires PendingAt(template, k) && forall i: nat :: i < k ==> !PendingAt(template, i)
    ensures Fills(template, Witness(template, k)) && !InStep(Witness(template, k))
  {
    var pieces := Witness(template, k);
    StatesAgree(template, pieces, k);
    EscapedIsInString(pieces, k);
    forall i: nat | i < |pieces| ensures NotBare(StateAt(JsonBody, pieces, i), pieces[i]) {
      WitnessIsNotBare(template, k, i);
    }
    forall i: nat | i < k && pieces[i].Hole? ensures !StateAt(JsonBody, pieces, i).escaped {
      NotPending(template, pieces, i);
    }
    ScannerIsRight(pieces, k);
    XEndsEscape(pieces, k);
  }

  lemma WitnessIsNotBare(template: seq<Piece>, k: nat, i: nat)
    requires PendingAt(template, k) && i < |template|
    ensures NotBare(StateAt(JsonBody, Witness(template, k), i), Witness(template, k)[i])
  {
    StatesAgree(template, Witness(template, k), i);
    EscapedIsInString(template, i);
  }

  lemma NotPending(template: seq<Piece>, pieces: seq<Piece>, i: nat)
    requires SameTemplate(template, pieces) && i < |pieces| && pieces[i].Hole? && !PendingAt(template, i)
    ensures !StateAt(JsonBody, pieces, i).escaped
  {
    StatesAgree(template, pieces, i);
    assert SamePlace(template[i], pieces[i]);
  }

  lemma XEndsEscape(pieces: seq<Piece>, k: nat)
    requires PiecesOk(pieces) && k < |pieces| && pieces[k] == Hole(Val.Text(AnX))
    requires StateAt(JsonBody, pieces, k).escaped && StateAt(JsonBody, pieces, k).inString
    requires Reading(Start, Output(JsonBody, pieces, k)) == StateAt(JsonBody, pieces, k)
    ensures !InStep(pieces)
  {
    var s := StateAt(JsonBody, pieces, k);
    XIsPlain();
    ReadingByte(s, 120);
    ReadingJoined(Start, Output(JsonBody, pieces, k), AnX);
    OutOfStep(pieces, k, s);
  }

  lemma OutOfStep(pieces: seq<Piece>, k: nat, s: State)
    requires PiecesOk(pieces) && k < |pieces| && pieces[k] == Hole(Val.Text(AnX)) && s == StateAt(JsonBody, pieces, k)
    requires s.escaped && s.inString && JsonStringContent(AnX) == AnX
    requires Reading(Start, Output(JsonBody, pieces, k) + AnX) == FedJson(s, 120)
    ensures Reading(Start, Output(JsonBody, pieces, k + 1)) != StateAt(JsonBody, pieces, k + 1)
  {
    assert Output(JsonBody, pieces, k + 1) == Output(JsonBody, pieces, k) + AnX;
  }

  lemma XIsPlain()
    ensures JsonStringContent(AnX) == AnX
  {
    assert AnX[1..] == [];
    assert Marshal(AnX, false) == [Raw(120)];
    assert [Raw(120)][1..] == [];
  }

  lemma {:induction false} FirstPending(template: seq<Piece>, k: nat) returns (j: nat)
    requires PendingAt(template, k)
    ensures PendingAt(template, j) && forall i: nat :: i < j ==> !PendingAt(template, i)
    decreases k
  {
    if i: nat :| i < k && PendingAt(template, i) {
      j := FirstPending(template, i);
    } else {
      j := k;
    }
  }

  /** For all values, strings outside literals aside, exactly when no literal ends in a pending backslash
      just before a value. */
  lemma InStepIff(template: seq<Piece>)
    ensures (forall pieces: seq<Piece> :: Fills(template, pieces) ==> InStep(pieces))
      <==> forall k: nat :: !PendingAt(template, k)
  {
    if forall k: nat :: !PendingAt(template, k) {
      forall pieces: seq<Piece> | Fills(template, pieces) ensures InStep(pieces) {
        forall i: nat | i < |pieces| && pieces[i].Hole? ensures !StateAt(JsonBody, pieces, i).escaped {
          NotPending(template, pieces, i);
        }
        ValuesNeverMoveIt(pieces);
      }
    } else {
      var k: nat :| PendingAt(template, k);
      var j := FirstPending(template, k);
      PendingMovesIt(template, j);
    }
  }

  // ---------- With strings outside literals too ----------

  const AQuote: Bytes := [QUOTE]

  ghost predicate OutsideAt(pieces: seq<Piece>, i: nat) {
    i < |pieces| && pieces[i].Hole? && !StateAt(JsonBody, pieces, i).inString
  }

  /** Nothing in any place but k, and a quote there. */
  ghost function QuoteAt(template: seq<Piece>, k: nat): (r: seq<Piece>)
    ensures SameTemplate(template, r) && PiecesOk(r)
  {
    seq(|template|, i requires 0 <= i < |template| =>
      if template[i].Literal? then template[i] else Hole(if i == k then Val.Text(AQuote) else Null))
  }

  /** A string outside a literal goes in as it is: one that is a quote moves the scanner. */
  lemma OutsideMovesIt(template: seq<Piece>, k: nat)
    requires OutsideAt(template, k) && forall i: nat :: i < k ==> !OutsideAt(template, i) && !PendingAt(template, i)
    ensures !InStep(QuoteAt(template, k))
  {
    var pieces := QuoteAt(template, k);
    StatesAgree(template, pieces, k);
    EscapedIsInString(pieces, k);
    forall i: nat | i < k && pieces[i].Hole?
        ensures !StateAt(JsonBody, pieces, i).escaped && NotBare(StateAt(JsonBody, pieces, i), pieces[i]) {
      NotPending(template, pieces, i);
    }
    ScannerIsRight(pieces, k);
    QuoteOpens(pieces, k, StateAt(JsonBody, pieces, k));
  }

  lemma QuoteOpens(pieces: seq<Piece>, k: nat, s: State)
    requires PiecesOk(pieces) && k < |pieces| && pieces[k] == Hole(Val.Text(AQuote))
      && s == StateAt(JsonBody, pieces, k)
    requires !s.inString && !s.escaped && Reading(Start, Output(JsonBody, pieces, k)) == s
    ensures Reading(Start, Output(JsonBody, pieces, k + 1)) != StateAt(JsonBody, pieces, k + 1)
  {
    ReadingByte(s, QUOTE);
    ReadingJoined(Start, Output(JsonBody, pieces, k), AQuote);
    assert Output(JsonBody, pieces, k + 1) == Output(JsonBody, pieces, k) + AQuote;
  }

  ghost predicate BadAt(template: seq<Piece>, k: nat) {
    PendingAt(template, k) || OutsideAt(template, k)
  }

  lemma {:induction false} FirstBad(template: seq<Piece>, k: nat) returns (j: nat)
    requires BadAt(template, k)
    ensures BadAt(template, j) && forall i: nat :: i < j ==> !BadAt(template, i)
    decreases k
  {
    if i: nat :| i < k && BadAt(template, i) {
      j := FirstBad(template, i);
    } else {
      j := k;
    }
  }

  lemma NothingBadStays(template: seq<Piece>, pieces: seq<Piece>)
    requires SameTemplate(template, pieces) && PiecesOk(pieces) && forall k: nat :: !BadAt(template, k)
    ensures InStep(pieces)
  {
    forall i: nat | i < |pieces| && pieces[i].Hole?
        ensures !StateAt(JsonBody, pieces, i).escaped && NotBare(StateAt(JsonBody, pieces, i), pieces[i]) {
      assert !BadAt(template, i);
      NotPending(template, pieces, i);
      StatesAgree(template, pieces, i);
      assert SamePlace(template[i], pieces[i]);
    }
    ValuesNeverMoveIt(pieces);
  }

  /** For all values whatever, exactly when every value stands inside a literal and none meets a pending backslash. */
  lemma AlwaysInStepIff(template: seq<Piece>)
    ensures (forall pieces: seq<Piece> :: SameTemplate(template, pieces) && PiecesOk(pieces) ==> InStep(pieces))
      <==> forall k: nat :: !BadAt(template, k)
  {
    hide InStep, SameTemplate, PiecesOk;
    if forall k: nat :: !BadAt(template, k) {
      forall pieces: seq<Piece> | SameTemplate(template, pieces) && PiecesOk(pieces) ensures InStep(pieces) {
        NothingBadStays(template, pieces);
      }
    } else {
      var k: nat :| BadAt(template, k);
      var j := FirstBad(template, k);
      forall i: nat | i < j ensures !OutsideAt(template, i) && !PendingAt(template, i) {
        assert !BadAt(template, i);
      }
      if PendingAt(template, j) {
        PendingMovesIt(template, j);
        FilledIsSame(template, Witness(template, j));
      } else {
        OutsideMovesIt(template, j);
        assert SameTemplate(template, QuoteAt(template, j)) && PiecesOk(QuoteAt(template, j));
      }
    }
  }

  lemma FilledIsSame(template: seq<Piece>, pieces: seq<Piece>)
    requires Fills(template, pieces)
    ensures SameTemplate(template, pieces) && PiecesOk(pieces)
  {
  }
}

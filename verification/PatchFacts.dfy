/** Which texts name an element of an array (adapter/request_fields.go child, removeIndex). */
module PatchFacts {
  import opened Decimals
  import opened JsonString
  import opened Patches

  function Zeros(n: nat): string {
    seq(n, _ => '0')
  }

  /** s is a number in decimal, with a sign or without, and with any zeros in front. */
  ghost predicate Writes(s: string, a: int) {
    exists sign: string, zeros: nat, n: nat :: WritesSo(s, a, sign, zeros, n)
  }

  predicate WritesSo(s: string, a: int, sign: string, zeros: nat, n: nat) {
    && (sign == "" || sign == "+" || sign == "-")
    && s == sign + (Zeros(zeros) + DecimalText(n)) && a == if sign == "-" then -(n as int) else n
  }

  lemma {:induction false} ZerosAdd(zeros: nat, t: string, n: nat)
    requires AllDigits(t) && n <= |t|
    ensures AllDigits(Zeros(zeros) + t) && DigitsValue(Zeros(zeros) + t, zeros + n) == DigitsValue(t, n)
  {
    var s := Zeros(zeros) + t;
    if n > 0 {
      ZerosAdd(zeros, t, n - 1);
      assert s[zeros + n - 1] == t[n - 1];
    } else {
      ZerosAreNothing(s, zeros, zeros);
    }
  }

  lemma {:induction false} ZerosAreNothing(s: string, zeros: nat, n: nat)
    requires AllDigits(s) && n <= zeros <= |s| && s[..zeros] == Zeros(zeros)
    ensures DigitsValue(s, n) == 0
  {
    if n > 0 {
      ZerosAreNothing(s, zeros, n - 1);
      assert s[n - 1] == s[..zeros][n - 1];
    }
  }

  lemma {:induction false} DigitsAreDecimal(s: string) returns (zeros: nat)
    requires AllDigits(s)
    ensures s == Zeros(zeros) + DecimalText(DigitsValue(s, |s|))
  {
    var k, d := |s| - 1, (s[|s| - 1] as int - '0' as int) as nat;
    assert s == s[..k] + [Digit(d)];
    if k == 0 {
      zeros := 0;
      assert DigitsValue(s, 0) == 0 && s == [Digit(d)] && [] + s == s;
    } else {
      zeros := DigitsAreDecimal(s[..k]);
      PrefixValue(s, s[..k], k);
      var n := DigitsValue(s[..k], k);
      assert DigitsValue(s, |s|) == n * 10 + d;
      if n == 0 {
        assert DecimalText(0) == "0";
        zeros := zeros + 1;
        assert s == Zeros(zeros) + [Digit(d)];
      } else {
        assert DecimalText(n * 10 + d) == DecimalText(n) + [Digit(d)];
      }
    }
  }

  /** A text counts as a number exactly when it writes one. */
  lemma NumberIff(s: string, a: int)
    ensures Number(s) == Some(a) <==> Writes(s, a)
  {
    if sign, zeros: nat, n: nat :| WritesSo(s, a, sign, zeros, n) {
      WrittenReads(s, a, sign, zeros, n);
    }
    if Number(s) == Some(a) {
      ReadIsWritten(s, a);
    }
  }

  lemma WrittenReads(s: string, a: int, sign: string, zeros: nat, n: nat)
    requires WritesSo(s, a, sign, zeros, n)
    ensures Number(s) == Some(a)
  {
    var digits := Zeros(zeros) + DecimalText(n);
    DecimalIsNumber(n);
    ZerosAdd(zeros, DecimalText(n), |DecimalText(n)|);
    assert IsDigit(digits[0]);
    if sign == "" {
      assert s == digits;
    } else {
      assert s[0] == sign[0] && s[1..] == digits;
    }
  }

  lemma ReadIsWritten(s: string, a: int)
    requires Number(s) == Some(a)
    ensures Writes(s, a)
  {
    var sign := if s[0] == '+' then "+" else if s[0] == '-' then "-" else "";
    var digits := s[|sign|..];
    assert s == sign + digits;
    var zeros := DigitsAreDecimal(digits);
    assert WritesSo(s, a, sign, zeros, DigitsValue(digits, |digits|));
  }

  /** The children of a document: of an object the value of the key, of an array the element whose place the text
      writes, of anything else none. */
  lemma ChildIs(d: Doc, key: string, c: Doc)
    ensures Child(d, key) == Some(c) <==>
      match d
      case Leaf(_) => false
      case Obj(fields) => key in fields && fields[key] == c
      case Arr(elems) => exists i: nat :: i < |elems| && elems[i] == c && Writes(key, i)
  {
    if d.Arr? {
      forall i: nat ensures Writes(key, i) <==> Number(key) == Some(i as int) {
        NumberIff(key, i);
      }
      var i := Index(key, |d.elems|);
      if i.Some? {
        assert Writes(key, i.value);
      }
    }
  }
}

/** Numbers in decimal, as bytes and as names have them. */
module Decimals {
  import opened Bytes

  function Decimal(n: nat): Bytes {
    if n < 10 then [48 + n] else Decimal(n / 10) + [48 + n % 10]
  }

  /** A number's last digit, and the number before it. */
  lemma {:induction false} DecimalParts(n: nat)
    ensures var d := Decimal(n);
      |d| > 0 && d[|d| - 1] == 48 + n % 10 && (n < 10 <==> |d| == 1) && (n >= 10 ==> d[..|d| - 1] == Decimal(n / 10))
  {
    if n >= 10 {
      DecimalParts(n / 10);
    }
  }

  lemma {:induction false} DecimalsDiffer(a: nat, b: nat)
    requires Decimal(a) == Decimal(b)
    ensures a == b
  {
    DecimalParts(a);
    DecimalParts(b);
    if a >= 10 {
      DecimalsDiffer(a / 10, b / 10);
    }
  }

  function Digit(n: nat): char
    requires n < 10
  {
    ('0' as int + n) as char
  }

  function DecimalText(n: nat): string {
    if n < 10 then [Digit(n)] else DecimalText(n / 10) + [Digit(n % 10)]
  }

  lemma {:induction false} TextParts(n: nat)
    ensures var d := DecimalText(n);
      |d| > 0 && d[|d| - 1] == Digit(n % 10) && (n < 10 <==> |d| == 1)
        && (n >= 10 ==> d[..|d| - 1] == DecimalText(n / 10))
  {
    if n >= 10 {
      TextParts(n / 10);
    }
  }

  lemma {:induction false} TextsDiffer(a: nat, b: nat)
    requires DecimalText(a) == DecimalText(b)
    ensures a == b
  {
    TextParts(a);
    TextParts(b);
    if a >= 10 {
      TextsDiffer(a / 10, b / 10);
    }
  }
}

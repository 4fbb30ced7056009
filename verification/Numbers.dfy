/** Decimal numerals. */
module Numbers {

  predicate IsDigit(c: char) {
    '0' <= c <= '9'
  }

  function DigitChar(d: nat): (c: char)
    requires d < 10
    ensures IsDigit(c)
  {
    "0123456789"[d]
  }

  function DigitValue(c: char): (d: nat)
    requires IsDigit(c)
    ensures d < 10 && DigitChar(d) == c
  {
    (c as int - '0' as int) as nat
  }

  predicate AllDigits(s: string) {
    forall k :: 0 <= k < |s| ==> IsDigit(s[k])
  }

  /** `str(n)`. */
  function Digits(n: nat): (s: string)
    ensures s != "" && AllDigits(s)
  {
    if n < 10 then [DigitChar(n)] else Digits(n / 10) + [DigitChar(n % 10)]
  }

  /** `int(s)`. */
  function Value(s: string): nat
    requires AllDigits(s)
  {
    if s == "" then 0 else Value(s[..|s| - 1]) * 10 + DigitValue(s[|s| - 1])
  }

  lemma DigitOf(d: nat)
    requires d < 10
    ensures DigitValue(DigitChar(d)) == d
  {
  }

  lemma {:induction false} ValueOfDigits(n: nat)
    ensures Value(Digits(n)) == n
  {
    if n < 10 {
      DigitOf(n);
      assert Digits(n)[..0] == "";
    } else {
      ValueOfDigits(n / 10);
      DigitOf(n % 10);
      assert Digits(n)[..|Digits(n)| - 1] == Digits(n / 10);
    }
  }

  /** A numeral with no leading zero is the one its value is written as. */
  lemma {:induction false} DigitsOfValue(s: string)
    requires s != "" && AllDigits(s) && s[0] != '0'
    ensures Value(s) > 0 && Digits(Value(s)) == s
  {
    var n := |s| - 1;
    var last := DigitValue(s[n]);
    if n == 0 {
      assert s[..0] == "" && s == [s[0]];
      assert last != 0;
    } else {
      DigitsOfValue(s[..n]);
      assert s == s[..n] + [s[n]];
      assert Value(s) / 10 == Value(s[..n]) && Value(s) % 10 == last;
    }
  }

  /** How long a number's numeral is. */
  lemma {:induction false} DigitsLength(n: nat)
    ensures |Digits(n)| <= 3 <==> n <= 999
    ensures n > 0 ==> Digits(n)[0] != '0'
  {
    if n >= 10 {
      DigitsLength(n / 10);
      TwoDigits(n / 10);
    }
  }

  lemma {:induction false} TwoDigits(n: nat)
    ensures |Digits(n)| <= 2 <==> n <= 99
    ensures |Digits(n)| <= 1 <==> n <= 9
  {
    if n >= 10 {
      TwoDigits(n / 10);
    }
  }
}

/**
 Decimal texts of the integers that a double holds exactly (`bound_encoding.cpp`): the reader accepts one spelling of
 each, the one that printing produces.
 */
module SafeIntegers {
  import opened Wrappers

  const SAFE_MAX := 0x1F_FFFF_FFFF_FFFF

  predicate IsDigit(c: char) {
    '0' <= c <= '9'
  }

  predicate AllDigits(s: string) {
    forall i | 0 <= i < |s| :: IsDigit(s[i])
  }

  function DigitsValue(s: string): nat
    requires AllDigits(s)
  {
    if s == "" then 0 else DigitsValue(s[..|s| - 1]) * 10 + (s[|s| - 1] as int - '0' as int)
  }

  function DigitChar(d: nat): (c: char)
    requires d < 10
    ensures IsDigit(c)
  {
    ('0' as int + d) as char
  }

  lemma DigitChars(d: nat)
    requires d < 10
    ensures DigitChar(d) == "0123456789"[d]
  {
  }

  /** What printing an integer produces. */
  function Decimal(n: nat): (s: string)
    ensures s != "" && AllDigits(s)
  {
    if n < 10 then [DigitChar(n)] else Decimal(n / 10) + [DigitChar(n % 10)]
  }

  predicate Canonical(s: string) {
    s != "" && AllDigits(s) && (|s| > 1 ==> s[0] != '0')
  }

  function SafeInteger(text: string): Option<nat> {
    if text == "" || (|text| > 1 && text[0] == '0') || !AllDigits(text) then None
    else if DigitsValue(text) > SAFE_MAX then None
    else Some(DigitsValue(text))
  }

  lemma {:induction false} DecimalIsCanonical(n: nat)
    ensures Canonical(Decimal(n)) && DigitsValue(Decimal(n)) == n
    ensures n > 0 ==> Decimal(n)[0] != '0'
  {
    if n >= 10 {
      DecimalIsCanonical(n / 10);
      assert Decimal(n)[..|Decimal(n)| - 1] == Decimal(n / 10);
    } else {
      assert Decimal(n)[..0] == "";
    }
  }

  lemma {:induction false} CanonicalIsDecimal(s: string)
    requires Canonical(s)
    ensures Decimal(DigitsValue(s)) == s
    ensures s[0] != '0' ==> DigitsValue(s) > 0
  {
    var rest, last := s[..|s| - 1], s[|s| - 1];
    if rest == "" {
      assert s == [last];
    } else {
      CanonicalIsDecimal(rest);
      LastDigit(DigitsValue(rest), last as int - '0' as int);
      assert s == rest + [last];
    }
  }

  lemma LastDigit(q: nat, d: nat)
    requires d < 10
    ensures (q * 10 + d) / 10 == q && (q * 10 + d) % 10 == d
  {
  }

  /** The reader accepts exactly the printed forms of the safe integers, each as the integer printed. */
  lemma {:induction false} SafeIntegerIsDecimal(text: string, n: nat)
    ensures SafeInteger(text) == Some(n) <==> n <= SAFE_MAX && text == Decimal(n)
  {
    DecimalIsCanonical(n);
    if Canonical(text) {
      CanonicalIsDecimal(text);
    }
  }

  /** Distinct integers print differently. */
  lemma {:induction false} DecimalInjective(m: nat, n: nat)
    requires Decimal(m) == Decimal(n)
    ensures m == n
  {
    DecimalIsCanonical(m);
    DecimalIsCanonical(n);
  }
}

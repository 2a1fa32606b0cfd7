/** Decimal text of big integers, as `big.Int.SetString(s, 10)` reads it and
    `big.Int.String` writes it. */
module Decimal {
  import opened Wrappers
  import opened Lexing

  predicate AllDigits(s: string) { forall i | 0 <= i < |s| :: IsDigit(s[i]) }

  /** A non-negative number without superfluous leading zeros. */
  predicate Canonical(s: string) { s != "" && AllDigits(s) && (s[0] == '0' ==> s == "0") }

  function DigitChar(d: nat): (c: char)
    requires d < 10
    ensures IsDigit(c)
  {
    ('0' as int + d) as char
  }

  function Digits(n: nat): string {
    if n < 10 then [DigitChar(n)] else Digits(n / 10) + [DigitChar(n % 10)]
  }

  function ValueOf(s: string): nat
    requires AllDigits(s)
  {
    if s == "" then 0 else 10 * ValueOf(s[..|s| - 1]) + (s[|s| - 1] as int - '0' as int)
  }

  /** An optional sign and at least one digit; anything else is not a number. */
  function SetString(s: string): Option<int> {
    var signed := s != "" && (s[0] == '-' || s[0] == '+');
    var digits := if signed then s[1..] else s;
    if digits == "" || !AllDigits(digits) then None
    else if s[0] == '-' then Some(0 - ValueOf(digits))
    else Some(ValueOf(digits))
  }

  function String(n: int): string { if n < 0 then "-" + Digits(-n) else Digits(n) }

  lemma {:induction false} DigitsCanonical(n: nat)
    ensures Canonical(Digits(n)) && ValueOf(Digits(n)) == n
    ensures Digits(n)[0] == '0' ==> n == 0
  {
    if n >= 10 {
      DigitsCanonical(n / 10);
      assert Digits(n)[..|Digits(n)| - 1] == Digits(n / 10);
    }
  }

  lemma {:induction false} ValuePositive(s: string)
    requires Canonical(s) && s != "0"
    ensures ValueOf(s) > 0
  {
    if |s| > 1 {
      var t := s[..|s| - 1];
      assert t[0] == s[0];
      ValuePositive(t);
    }
  }

  lemma {:induction false} CanonicalDigits(s: string)
    requires Canonical(s)
    ensures Digits(ValueOf(s)) == s
  {
    if |s| > 1 {
      var t := s[..|s| - 1];
      assert t[0] == s[0];
      CanonicalDigits(t);
      ValuePositive(t);
      assert s == t + [s[|s| - 1]];
      assert ValueOf(s) / 10 == ValueOf(t) && ValueOf(s) % 10 == s[|s| - 1] as int - '0' as int;
    } else {
      assert s[..0] == "" && s == [s[0]];
    }
  }

  /** Reading back what was written gives the same number, for every integer. */
  lemma SetStringOfString(n: int)
    ensures SetString(String(n)) == Some(n)
  {
    DigitsCanonical(if n < 0 then -n else n);
    assert n < 0 ==> String(n)[1..] == Digits(-n);
  }

  /** An INT token (digits only) is always a number, and its text is rewritten canonically:
      `007` becomes `7`, and canonical text is left alone. */
  lemma StringOfSetString(s: string)
    requires s != "" && AllDigits(s)
    ensures SetString(s) == Some(ValueOf(s))
    ensures Canonical(String(ValueOf(s)))
    ensures Canonical(s) ==> String(ValueOf(s)) == s
  {
    DigitsCanonical(ValueOf(s));
    if Canonical(s) {
      CanonicalDigits(s);
    }
  }
}

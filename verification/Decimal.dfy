// Decimal numerals without leading zeros, shared by JSON integers, the DSSE
// length prefixes and release tags.
module Decimal {

  predicate IsDigit(c: char) { '0' <= c <= '9' }

  /** The hexadecimal digits, written out. */
  const TEN_DIGITS := "0123456789"
  const SIX_LETTERS := "abcdef"

  lemma HexDigitsExactly(c: char)
    ensures c in TEN_DIGITS <==> '0' <= c <= '9'
    ensures c in SIX_LETTERS <==> 'a' <= c <= 'f'
  {
    if '0' <= c <= '9' { assert TEN_DIGITS[c as int - '0' as int] == c; }
    if 'a' <= c <= 'f' { assert SIX_LETTERS[c as int - 'a' as int] == c; }
  }

  predicate AllDigits(s: string) { forall i :: 0 <= i < |s| ==> IsDigit(s[i]) }

  /** A non-empty digit string whose first digit is zero only if it is the only one. */
  predicate Numeral(s: string) {
    s != [] && AllDigits(s) && (|s| > 1 ==> s[0] != '0')
  }

  function DigitOf(d: nat): char
    requires d < 10
  {
    ('0' as int + d) as char
  }

  function Digits(n: nat): string {
    if n < 10 then [DigitOf(n)] else Digits(n / 10) + [DigitOf(n % 10)]
  }

  function NumberOf(s: string): nat
    requires AllDigits(s)
  {
    if s == [] then 0 else NumberOf(s[..|s| - 1]) * 10 + (s[|s| - 1] as int - '0' as int)
  }

  lemma {:induction false} DigitsRoundTrip(n: nat)
    ensures Numeral(Digits(n))
    ensures NumberOf(Digits(n)) == n
    ensures n > 0 ==> Digits(n)[0] != '0'
  {
    if n >= 10 {
      DigitsRoundTrip(n / 10);
      var s := Digits(n);
      assert s[..|s| - 1] == Digits(n / 10);
    } else {
      var s := Digits(n);
      assert s[..0] == [];
      assert NumberOf(s[..0]) == 0;
      assert NumberOf(s) == n;
    }
  }

  lemma {:induction false} NumeralRoundTrip(s: string)
    requires Numeral(s)
    ensures Digits(NumberOf(s)) == s
    ensures s[0] != '0' ==> NumberOf(s) > 0
  {
    var last := s[|s| - 1] as int - '0' as int;
    if |s| == 1 {
      assert s[..0] == [];
      assert s == [DigitOf(last)];
    } else {
      var front := s[..|s| - 1];
      NumeralRoundTrip(front);
      assert front[0] == s[0];
      assert NumberOf(s) / 10 == NumberOf(front) && NumberOf(s) % 10 == last;
      assert s == front + [DigitOf(last)];
    }
  }

  lemma DigitsInjective(m: nat, n: nat)
    requires Digits(m) == Digits(n)
    ensures m == n
  {
    DigitsRoundTrip(m);
    DigitsRoundTrip(n);
  }

  /** Length of the longest prefix of digits. */
  function DigitRun(s: string): (n: nat)
    ensures n <= |s| && AllDigits(s[..n])
    ensures n < |s| ==> !IsDigit(s[n])
  {
    if s == [] || !IsDigit(s[0]) then 0
    else
      var n := DigitRun(s[1..]) + 1;
      assert forall i :: 0 < i < n ==> s[i] == s[1..][..n - 1][i - 1];
      n
  }

  lemma {:induction false} DigitRunStops(digits: string, rest: string)
    requires AllDigits(digits)
    requires rest == [] || !IsDigit(rest[0])
    ensures DigitRun(digits + rest) == |digits|
  {
    if digits == [] {
      assert digits + rest == rest;
    } else {
      assert (digits + rest)[1..] == digits[1..] + rest;
      DigitRunStops(digits[1..], rest);
    }
  }
}

/** Page tokens: decimal text, formatted and parsed as the 32-bit integers the list handler uses. */
module Tokens {
  import opened Prelude

  const INT32_MAX: int := 0x7fff_ffff

  function DigitChar(d: nat): char
    requires d < 10
  {
    '0' + d as char
  }

  predicate IsDigit(c: char) {
    '0' <= c <= '9'
  }

  function FormatNat(n: nat): (s: string)
    ensures s != [] && forall i :: 0 <= i < |s| ==> IsDigit(s[i])
  {
    if n < 10 then [DigitChar(n)] else FormatNat(n / 10) + [DigitChar(n % 10)]
  }

  /** `strconv.FormatInt` in base ten. */
  function FormatInt(n: int): string {
    if n < 0 then "-" + FormatNat(-n) else FormatNat(n)
  }

  /** The value of a text of digits; None for the empty text and for any other character. */
  function ParseDigits(s: string): Option<nat> {
    if s == "" then None
    else
      var last := s[|s| - 1];
      if !IsDigit(last) then None
      else if |s| == 1 then Some((last - '0') as nat)
      else
        var front := ParseDigits(s[..|s| - 1]);
        if front.None? then None else Some(front.value * 10 + (last - '0') as nat)
  }

  /** `strconv.ParseInt(s, 10, 32)`: an optional sign, digits, and a value in range. */
  function ParseInt32(s: string): Option<int> {
    if s == "" then None
    else
      var negative := s[0] == '-';
      var digits := ParseDigits(if s[0] == '-' || s[0] == '+' then s[1..] else s);
      if digits.None? then None
      else if !negative && digits.value > INT32_MAX then None
      else if negative && digits.value > INT32_MAX + 1 then None
      else
        var value: int := digits.value;
        Some(if negative then -value else value)
  }

  lemma {:induction false} DigitsRoundTrip(n: nat)
    ensures ParseDigits(FormatNat(n)) == Some(n)
  {
    if n >= 10 {
      DigitsRoundTrip(n / 10);
      var s := FormatNat(n);
      assert s[..|s| - 1] == FormatNat(n / 10);
    }
  }

  lemma ParseNegative(s: string, n: nat)
    requires ParseDigits(s) == Some(n)
    ensures var value: int := n; ParseInt32("-" + s) == if n <= INT32_MAX + 1 then Some(-value) else None
  {
    assert ("-" + s)[1..] == s;
  }

  lemma ParsePositive(s: string, n: nat)
    requires ParseDigits(s) == Some(n) && s != "" && IsDigit(s[0])
    ensures ParseInt32(s) == if n <= INT32_MAX then Some(n) else None
  {
  }

  /** Parsing undoes formatting, for exactly the 32-bit integers. */
  lemma TokenRoundTrip(n: int)
    ensures ParseInt32(FormatInt(n)) == if -INT32_MAX - 1 <= n <= INT32_MAX then Some(n) else None
  {
    if n < 0 {
      DigitsRoundTrip(-n);
      ParseNegative(FormatNat(-n), -n);
    } else {
      DigitsRoundTrip(n);
      ParsePositive(FormatNat(n), n);
    }
  }

  /** A text is read as digits if and only if it is not empty and has nothing else. */
  lemma {:induction false} DigitsReadExactly(s: string)
    ensures ParseDigits(s).Some? <==> s != "" && forall i :: 0 <= i < |s| ==> IsDigit(s[i])
  {
    if s != "" {
      var n := |s| - 1;
      DigitsReadExactly(s[..n]);
      assert forall i :: 0 <= i < n ==> s[..n][i] == s[i];
    }
  }

  /** A token is read if and only if it is digits, with a sign or not, and fits 32 bits. */
  lemma TokenReadExactly(s: string)
    ensures var digits := if s != "" && (s[0] == '-' || s[0] == '+') then s[1..] else s;
            var bound := if s != "" && s[0] == '-' then INT32_MAX + 1 else INT32_MAX;
            ParseInt32(s).Some? <==>
              && digits != "" && (forall i :: 0 <= i < |digits| ==> IsDigit(digits[i]))
              && ParseDigits(digits).Some? && ParseDigits(digits).value <= bound
  {
    if s != "" {
      DigitsReadExactly(if s[0] == '-' || s[0] == '+' then s[1..] else s);
    }
  }
}

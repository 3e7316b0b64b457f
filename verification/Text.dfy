/** Decimal numbers, character search and keyword matching in text without NUL characters. */
module Text {
  import opened Basics

  // ------------------------------------------------------------------ numbers

  predicate IsDigit(c: char) {
    '0' <= c <= '9'
  }

  predicate AllDigits(s: string) {
    forall i :: 0 <= i < |s| ==> IsDigit(s[i])
  }

  function DigitValue(c: char): nat
    requires IsDigit(c)
  {
    c as nat - '0' as nat
  }

  /** The number that a string of digits denotes. */
  function Value(s: string): nat
    requires AllDigits(s)
  {
    if s == "" then 0 else Value(s[..|s| - 1]) * 10 + DigitValue(s[|s| - 1])
  }

  /** The number of digits that `s` starts with. */
  function DigitCount(s: string): (n: nat)
    ensures n <= |s| && AllDigits(s[..n]) && (n < |s| ==> !IsDigit(s[n]))
  {
    if s == "" || !IsDigit(s[0]) then 0 else
      var n := 1 + DigitCount(s[1..]);
      assert s[..n] == [s[0]] + s[1..][..n - 1];
      n
  }

  /** What the conversion gives: nothing when the text starts with something else than a digit, or else
      the leading digits, as a 32-bit number; empty text counts as zero. */
  function ToUl(s: string): Option<nat> {
    if s != "" && !IsDigit(s[0]) then None else Some(Value(s[..DigitCount(s)]) % TWO_32)
  }

  /** The prefix of digits is the only one that a non-digit, or the end, can follow. */
  lemma {:induction false} DigitCountUnique(s: string, n: nat)
    requires n <= |s| && AllDigits(s[..n]) && (n < |s| ==> !IsDigit(s[n]))
    ensures DigitCount(s) == n
  {
  }

  /** The conversion wraps at every digit; the result is the wrapped number all the same. */
  method ConvertStringToUl(s: string) returns (result: Option<nat>)
    ensures result == ToUl(s)
  {
    var number := 0;
    var i := 0;
    while i < |s| && IsDigit(s[i])
      invariant i <= |s| && AllDigits(s[..i])
      invariant number == Value(s[..i]) % TWO_32
    {
      assert s[..i + 1][..i] == s[..i];
      WrapDigit(Value(s[..i]), DigitValue(s[i]));
      number := (number * 10 + DigitValue(s[i])) % TWO_32;
      i := i + 1;
    }
    DigitCountUnique(s, i);
    if i == 0 && s != "" {
      return None;
    }
    return Some(number);
  }

  lemma WrapDigit(v: nat, d: nat)
    ensures (v % TWO_32 * 10 + d) % TWO_32 == (v * 10 + d) % TWO_32
  {
  }

  function DigitChar(d: nat): char
    requires d < 10
  {
    '0' + d as char
  }

  /** The decimal form of a number, without leading zeros. */
  function Decimal(n: nat): string {
    if n < 10 then [DigitChar(n)] else Decimal(n / 10) + [DigitChar(n % 10)]
  }

  lemma {:induction false} DecimalValue(n: nat)
    ensures Decimal(n) != "" && AllDigits(Decimal(n)) && Value(Decimal(n)) == n
  {
    if n >= 10 {
      DecimalValue(n / 10);
      var s := Decimal(n);
      assert s[..|s| - 1] == Decimal(n / 10);
    } else {
      assert Decimal(n)[..0] == "";
    }
  }

  lemma DecimalPlain(n: nat, c: char)
    requires !IsDigit(c)
    ensures c !in Decimal(n)
  {
  }

  /** Reading back a printed number. */
  lemma DecimalRoundTrip(n: nat)
    ensures ToUl(Decimal(n)) == Some(n % TWO_32)
  {
    DecimalValue(n);
    var s := Decimal(n);
    assert s[..|s|] == s;
    DigitCountUnique(s, |s|);
  }

  lemma DecimalReads(token: string, n: nat)
    requires token == Decimal(n) && n < TWO_32
    ensures ToUl(token) == Some(n)
  {
    DecimalRoundTrip(n);
  }

  function Power10(k: nat): nat {
    if k == 0 then 1 else 10 * Power10(k - 1)
  }

  lemma {:induction false} DecimalLength(n: nat, k: nat)
    requires k > 0 && n < Power10(k)
    ensures |Decimal(n)| <= k
  {
    if n >= 10 {
      DecimalLength(n / 10, k - 1);
    }
  }

  // ------------------------------------------------------------------ characters

  /** The first position of `c` in `s`, or the length when there is none. */
  function Find(c: char, s: string): (i: nat)
    ensures i <= |s| && c !in s[..i] && (i < |s| ==> s[i] == c)
  {
    if s == "" || s[0] == c then 0 else
      var i := 1 + Find(c, s[1..]);
      assert s[..i] == [s[0]] + s[1..][..i - 1];
      i
  }

  lemma {:induction false} FindUnique(c: char, s: string, i: nat)
    requires i <= |s| && c !in s[..i] && (i < |s| ==> s[i] == c)
    ensures Find(c, s) == i
  {
  }

  /** `strncmp( token, keyword, tokenLength ) == 0`: the token is an initial part of the keyword. */
  predicate Matches(token: string, keyword: string) {
    token <= keyword
  }
}

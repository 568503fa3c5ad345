/** Reading and writing numbers as the Go library does it for the assembler:
    `strconv.ParseInt(s, base, 16)` on the digit strings a number lexeme can
    hold, and the `%o` verb of `fmt` used by the object and URL writers. */
module Numerals {
  import opened Wrappers

  /** Largest value `strconv.ParseInt` accepts with bit size 16. */
  const MaxInt16: int := 32767

  /** ASCII lower-casing, as strconv's `lower` acts on letters. */
  function Lower(c: char): (r: char)
    ensures 'A' <= c <= 'Z' ==> r as int == c as int + 32
    ensures !('A' <= c <= 'Z') ==> r == c
  {
    if 'A' <= c <= 'Z' then (c as int + 32) as char else c
  }

  /** The value strconv gives a digit character: 0-9, then letters of either
      case from 10 upwards; -1 for a byte that is no digit in any base. */
  function DigitValue(c: char): (d: int)
    ensures -1 <= d < 36
    ensures d >= 0 <==> ('0' <= c <= '9' || 'a' <= Lower(c) <= 'z')
  {
    if '0' <= c <= '9' then c as int - '0' as int
    else if 'a' <= Lower(c) <= 'z' then Lower(c) as int - 'a' as int + 10
    else -1
  }

  predicate AllDigits(s: string, base: nat)
  {
    forall i :: 0 <= i < |s| ==> 0 <= DigitValue(s[i]) < base
  }

  /** The value of a digit string in the given base, most significant first. */
  function DigitsValue(s: string, base: nat): nat
    requires AllDigits(s, base)
  {
    if s == [] then 0 else DigitsValue(s[..|s| - 1], base) * base + DigitValue(s[|s| - 1])
  }

  /** Appending a zero digit multiplies the value by the base. */
  lemma AppendZero(s: string, base: nat)
    requires AllDigits(s, base) && base > 0
    ensures AllDigits(s + "0", base) && DigitsValue(s + "0", base) == DigitsValue(s, base) * base
  {
    assert (s + "0")[..|s|] == s;
  }

  /** The digit loop of strconv.ParseUint followed by the 16-bit range check
      of ParseInt: an empty string reads as 0 here (the caller rejects an
      empty input before stripping a prefix). */
  function Digits16(s: string, base: nat): (r: Option<int>)
    ensures r.Some? ==> 0 <= r.value <= MaxInt16
    ensures r.Some? ==> AllDigits(s, base) && r.value == DigitsValue(s, base)
  {
    if AllDigits(s, base) && DigitsValue(s, base) <= MaxInt16 then Some(DigitsValue(s, base)) else None
  }

  /** strconv.ParseInt(s, base, 16) for a string without sign or underscores. */
  function ParseInt16(s: string, base: nat): (r: Option<int>)
    ensures r.Some? ==> s != [] && 0 <= r.value <= MaxInt16
  {
    if s == [] then None else Digits16(s, base)
  }

  /** strconv.ParseInt(s, 0, 16): the base comes from a `0b`, `0o` or `0x`
      prefix, a bare leading `0` means octal, and anything else decimal. */
  function ParseInt16Auto(s: string): (r: Option<int>)
    ensures r.Some? ==> s != [] && 0 <= r.value <= MaxInt16
  {
    if s == [] then None
    else if s[0] == '0' then
      if |s| >= 3 && Lower(s[1]) == 'b' then Digits16(s[2..], 2)
      else if |s| >= 3 && Lower(s[1]) == 'o' then Digits16(s[2..], 8)
      else if |s| >= 3 && Lower(s[1]) == 'x' then Digits16(s[2..], 16)
      else Digits16(s[1..], 8)
    else Digits16(s, 10)
  }

  function DigitChar(d: nat): (c: char)
    requires d < 10
    ensures '0' <= c <= '9' && DigitValue(c) == d
  {
    ('0' as int + d) as char
  }

  /** The digits `%o` prints for a non-negative value: no leading zero. */
  function OctalDigits(n: nat): (s: string)
    ensures |s| >= 1 && (s[0] == '0' ==> n == 0)
    ensures forall i :: 0 <= i < |s| ==> '0' <= s[i] <= '7'
  {
    if n < 8 then [DigitChar(n)] else OctalDigits(n / 8) + [DigitChar(n % 8)]
  }

  /** The digits `%d` prints for a non-negative value. */
  function DecimalDigits(n: nat): (s: string)
    ensures |s| >= 1 && forall i :: 0 <= i < |s| ==> '0' <= s[i] <= '9'
  {
    if n < 10 then [DigitChar(n)] else DecimalDigits(n / 10) + [DigitChar(n % 10)]
  }

  /** `fmt.Sprintf("%o", x)`: a minus sign, then the octal digits of |x|. */
  function FormatOctal(x: int): (s: string)
    ensures x >= 0 ==> s == OctalDigits(x)
    ensures x < 0 ==> s == "-" + OctalDigits(-x)
  {
    if x < 0 then "-" + OctalDigits(-x) else OctalDigits(x)
  }

  /** Reading back what OctalDigits writes gives the value written. */
  lemma {:induction false} OctalDigitsValue(n: nat)
    ensures AllDigits(OctalDigits(n), 8)
    ensures DigitsValue(OctalDigits(n), 8) == n
  {
    var s := OctalDigits(n);
    if n >= 8 {
      OctalDigitsValue(n / 8);
      assert s[..|s| - 1] == OctalDigits(n / 8);
    }
  }

  /** Reading back what DecimalDigits writes gives the value written. */
  lemma {:induction false} DecimalDigitsValue(n: nat)
    ensures AllDigits(DecimalDigits(n), 10)
    ensures DigitsValue(DecimalDigits(n), 10) == n
  {
    var s := DecimalDigits(n);
    if n >= 10 {
      DecimalDigitsValue(n / 10);
      assert s[..|s| - 1] == DecimalDigits(n / 10);
    }
  }

  /** An octal digit string is a valid input to ParseInt(s, 8, 16) exactly
      when its value fits in 16 signed bits. */
  lemma OctalRoundTrip(n: nat)
    ensures ParseInt16(OctalDigits(n), 8) == (if n <= MaxInt16 then Some(n) else None)
  {
    OctalDigitsValue(n);
  }
}

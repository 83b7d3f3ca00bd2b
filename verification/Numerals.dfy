/** Positional numerals as the C library prints and reads them: decimal ports, sizes and identifiers,
    hexadecimal chunk sizes and archive header fields. */
module Numerals {

  predicate IsDecimal(c: char) {
    '0' <= c <= '9'
  }

  /** The value of a digit character in any base up to sixteen, or 16 for other characters. */
  function DigitValue(c: char): nat {
    if '0' <= c <= '9' then c as nat - '0' as nat
    else if 'a' <= c <= 'f' then c as nat - 'a' as nat + 10
    else if 'A' <= c <= 'F' then c as nat - 'A' as nat + 10
    else 16
  }

  function DigitChar(d: nat, upper: bool): (c: char)
    requires d < 16
    ensures DigitValue(c) == d && (d < 10 ==> IsDecimal(c))
  {
    if d < 10 then (d + '0' as nat) as char
    else if upper then (d - 10 + 'A' as nat) as char
    else (d - 10 + 'a' as nat) as char
  }

  predicate AllDigits(s: string, base: nat) {
    forall i | 0 <= i < |s| :: DigitValue(s[i]) < base
  }

  function LeadingDigits(s: string): (k: nat)
    ensures k <= |s| && (forall i | 0 <= i < k :: IsDecimal(s[i])) && (k < |s| ==> !IsDecimal(s[k]))
  {
    if s != "" && IsDecimal(s[0]) then 1 + LeadingDigits(s[1..]) else 0
  }

  predicate Decimals(s: string) {
    forall i | 0 <= i < |s| :: IsDecimal(s[i])
  }

  lemma {:induction false} AllLeading(s: string)
    requires Decimals(s)
    ensures LeadingDigits(s) == |s|
  {
    if s != "" { AllLeading(s[1..]); }
  }

  lemma {:induction false} LeadingExactly(digits: string, rest: string)
    requires Decimals(digits) && (rest != "" ==> !IsDecimal(rest[0]))
    ensures LeadingDigits(digits + rest) == |digits|
  {
    if digits == "" {
      assert digits + rest == rest;
    } else {
      assert (digits + rest)[1..] == digits[1..] + rest;
      LeadingExactly(digits[1..], rest);
    }
  }

  function Value(s: string, base: nat): nat {
    if s == [] then 0 else Value(s[..|s| - 1], base) * base + DigitValue(s[|s| - 1])
  }

  /** The shortest numeral of `n`. */
  function Print(n: nat, base: nat, upper: bool): (s: string)
    requires 2 <= base <= 16
    ensures s != [] && AllDigits(s, base)
    decreases n
  {
    if n < base then [DigitChar(n, upper)]
    else
      QuotientShrinks(n, base);
      Print(n / base, base, upper) + [DigitChar(n % base, upper)]
  }

  lemma QuotientShrinks(n: nat, base: nat)
    requires 2 <= base <= n
    ensures n / base < n && n % base < base && n == (n / base) * base + n % base
  {
  }

  lemma {:induction false} PrintValue(n: nat, base: nat, upper: bool)
    requires 2 <= base <= 16
    ensures Value(Print(n, base, upper), base) == n
    decreases n
  {
    if n >= base {
      QuotientShrinks(n, base);
      PrintValue(n / base, base, upper);
      var s := Print(n, base, upper);
      assert s[..|s| - 1] == Print(n / base, base, upper);
    }
  }

  /** No leading zeros. */
  lemma {:induction false} ShortestNumeral(n: nat, base: nat, upper: bool)
    requires 2 <= base <= 16 && n > 0
    ensures DigitValue(Print(n, base, upper)[0]) > 0
    decreases n
  {
    if n >= base {
      QuotientShrinks(n, base);
      PositiveQuotient(n, base);
      ShortestNumeral(n / base, base, upper);
    }
  }

  lemma PositiveQuotient(n: nat, base: nat)
    requires 2 <= base <= n
    ensures n / base > 0
  {
  }

  function Decimal(n: nat): (s: string)
    ensures s != [] && forall i | 0 <= i < |s| :: IsDecimal(s[i])
  {
    DecimalDigits(Print(n, 10, false));
    Print(n, 10, false)
  }

  lemma DecimalDigits(s: string)
    requires AllDigits(s, 10)
    ensures forall i | 0 <= i < |s| :: IsDecimal(s[i])
  {
  }

  lemma DecimalValue(n: nat)
    ensures Value(Decimal(n), 10) == n
  {
    PrintValue(n, 10, false);
  }

  function Zeros(k: nat): (s: string)
    ensures |s| == k && forall i | 0 <= i < k :: s[i] == '0'
  {
    if k == 0 then "" else Zeros(k - 1) + "0"
  }

  lemma {:induction false} LeadingZeros(k: nat, s: string, base: nat)
    ensures Value(Zeros(k) + s, base) == Value(s, base)
  {
    var z := Zeros(k);
    if s != [] {
      LeadingZeros(k, s[..|s| - 1], base);
      assert (z + s)[..|z + s| - 1] == z + s[..|s| - 1];
    } else if k > 0 {
      LeadingZeros(k - 1, "", base);
      assert Zeros(k - 1) + "" == Zeros(k - 1);
      assert (z + s)[..k - 1] == Zeros(k - 1);
    }
  }

  /** `%0<width>X`: upper-case hexadecimal, at least `width` digits. */
  function PaddedHex(n: nat, width: nat): (s: string)
    ensures |s| >= width && AllDigits(s, 16)
  {
    var digits := Print(n, 16, true);
    if |digits| < width then Zeros(width - |digits|) + digits else digits
  }

  lemma PaddedHexValue(n: nat, width: nat)
    ensures Value(PaddedHex(n, width), 16) == n
  {
    PrintValue(n, 16, true);
    var digits := Print(n, 16, true);
    if |digits| < width {
      LeadingZeros(width - |digits|, digits, 16);
    }
  }

  function Power16(k: nat): (p: nat)
    ensures p > 0
  {
    if k == 0 then 1 else 16 * Power16(k - 1)
  }

  lemma {:induction false} HexWidth(n: nat, width: nat)
    requires 0 < width
    ensures |Print(n, 16, true)| <= width <==> n < Power16(width)
    decreases n
  {
    if n < 16 {
    } else {
      if width > 1 { HexWidth(n / 16, width - 1); }
    }
  }
}

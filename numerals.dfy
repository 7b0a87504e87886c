/**
 * The positional text of integers, as Rust's formatting machinery writes it:
 * the digits of the magnitude in base 10 (or base 16, in lower case, for the
 * `\u{...}` escapes), with no leading zeros, and a `-` before a negative
 * decimal value.
 */
module Numerals {
  import opened Wrappers

  const Alphabet := "0123456789abcdef"

  /** The two bases the formatter writes: decimal and hexadecimal. */
  predicate IsBase(base: nat) {
    base == 10 || base == 16
  }

  lemma DivFacts(n: nat, base: nat)
    requires IsBase(base)
    ensures n == (n / base) * base + n % base && n % base < base
    ensures n >= base ==> 1 <= n / base < n
  {
    if base == 10 {
    } else {
    }
  }

  function DigitChar(d: nat, base: nat): (c: char)
    requires IsBase(base) && d < base
  {
    Alphabet[d]
  }

  /** The digit a character stands for, if it is one in this base. */
  function DigitOf(c: char, base: nat): (r: Option<nat>)
    requires IsBase(base)
    ensures r.Some? ==> r.value < base && DigitChar(r.value, base) == c
  {
    if '0' <= c <= '9' && (c as int - '0' as int) < base then Some(c as int - '0' as int)
    else if 'a' <= c <= 'f' && (c as int - 'a' as int) + 10 < base then Some(c as int - 'a' as int + 10)
    else None
  }

  lemma DigitCharOf(d: nat, base: nat)
    requires IsBase(base) && d < base
    ensures DigitOf(DigitChar(d, base), base) == Some(d)
  {
  }

  predicate IsDigit(c: char, base: nat)
    requires IsBase(base)
  {
    DigitOf(c, base).Some?
  }

  predicate IsDigits(s: string, base: nat)
    requires IsBase(base)
  {
    forall i :: 0 <= i < |s| ==> IsDigit(s[i], base)
  }

  /** Non-empty digits with no leading zero, except for the single digit `0`. */
  predicate IsCanonical(s: string, base: nat)
    requires IsBase(base)
  {
    |s| >= 1 && IsDigits(s, base) && (s[0] == '0' ==> |s| == 1)
  }

  /** The value a string of digits denotes. */
  function DigitsValue(s: string, base: nat): nat
    requires IsBase(base) && IsDigits(s, base)
  {
    if s == [] then 0
    else DigitsValue(s[..|s| - 1], base) * base + DigitOf(s[|s| - 1], base).value
  }

  function ToDigits(n: nat, base: nat): (s: string)
    requires IsBase(base)
    ensures IsCanonical(s, base)
    ensures s[0] == '0' <==> n == 0
  {
    if n < base then [DigitChar(n, base)]
    else
      DivFacts(n, base);
      ToDigits(n / base, base) + [DigitChar(n % base, base)]
  }

  lemma DivMod(n: nat, base: nat, v: nat, d: nat)
    requires IsBase(base) && d < base && n == v * base + d
    ensures n / base == v && n % base == d
    ensures v >= 1 ==> n >= base
  {
    if base == 10 {
    } else {
    }
  }

  /** The digits read back give the number. */
  lemma {:induction false} ToDigitsValue(n: nat, base: nat)
    requires IsBase(base)
    ensures DigitsValue(ToDigits(n, base), base) == n
  {
    if n >= base {
      var s := ToDigits(n, base);
      assert s[..|s| - 1] == ToDigits(n / base, base);
      ToDigitsValue(n / base, base);
      DigitCharOf(n % base, base);
      DivFacts(n, base);
    } else {
      DigitCharOf(n, base);
    }
  }

  lemma {:induction false} ZeroValueAllZeros(s: string, base: nat)
    requires IsBase(base) && IsDigits(s, base) && DigitsValue(s, base) == 0
    ensures forall i :: 0 <= i < |s| ==> s[i] == '0'
  {
    if s != [] {
      ZeroValueAllZeros(s[..|s| - 1], base);
      assert forall i :: 0 <= i < |s| - 1 ==> s[i] == s[..|s| - 1][i];
    }
  }

  /** Every canonical digit string is the text of exactly one number. */
  lemma {:induction false} CanonicalIsToDigits(s: string, base: nat)
    requires IsBase(base) && IsCanonical(s, base)
    ensures ToDigits(DigitsValue(s, base), base) == s
  {
    var c := s[|s| - 1];
    var last := DigitOf(c, base).value;
    if |s| > 1 {
      var p := s[..|s| - 1];
      assert p[0] == s[0];
      CanonicalIsToDigits(p, base);
      var v := DigitsValue(p, base);
      if v == 0 {
        ZeroValueAllZeros(p, base);
        assert false;
      }
      var n := DigitsValue(s, base);
      assert n == v * base + last;
      DivMod(n, base, v, last);
      ToDigitsStep(n, base);
      LastSplit(s);
    } else {
      assert s == [c];
    }
  }

  lemma LastSplit(s: string)
    requires |s| > 0
    ensures s == s[..|s| - 1] + [s[|s| - 1]]
  {
  }

  lemma ToDigitsStep(n: nat, base: nat)
    requires IsBase(base) && n >= base
    ensures ToDigits(n, base) == ToDigits(n / base, base) + [DigitChar(n % base, base)]
  {
  }

  lemma ToDigitsInjective(m: nat, n: nat, base: nat)
    requires IsBase(base) && ToDigits(m, base) == ToDigits(n, base)
    ensures m == n
  {
    ToDigitsValue(m, base);
    ToDigitsValue(n, base);
  }

  /** `Display` for an unsigned integer. */
  function NatToString(n: nat): (s: string)
    ensures IsCanonical(s, 10)
  {
    ToDigits(n, 10)
  }

  /** The lower-case hexadecimal text used by `\u{...}` escapes. */
  function Hex(n: nat): (s: string)
    ensures IsCanonical(s, 16)
  {
    ToDigits(n, 16)
  }

  /** `i64::to_string`: a minus sign for negative values, then the magnitude. */
  function IntToString(i: int): (s: string)
    ensures i < 0 <==> (|s| > 0 && s[0] == '-')
  {
    if i < 0 then "-" + NatToString(-i) else NatToString(i)
  }

  /** Reads the text `IntToString` writes; anything else is rejected. */
  function ParseInt(s: string): Option<int> {
    if |s| > 0 && s[0] == '-' then
      if IsCanonical(s[1..], 10) && s[1..] != "0" then Some(-(DigitsValue(s[1..], 10) as int)) else None
    else if IsCanonical(s, 10) then Some(DigitsValue(s, 10) as int)
    else None
  }

  lemma IntToStringRoundTrip(i: int)
    ensures ParseInt(IntToString(i)) == Some(i)
  {
    if i < 0 {
      var d := NatToString(-i);
      assert d[0] != '0';
      var s := "-" + d;
      assert s[0] == '-' && s[1..] == d;
      ToDigitsValue(-i, 10);
    } else {
      var d := NatToString(i);
      assert d[0] != '-';
      ToDigitsValue(i, 10);
    }
  }

  lemma ParseIntRoundTrip(s: string)
    requires ParseInt(s).Some?
    ensures IntToString(ParseInt(s).value) == s
  {
    if |s| > 0 && s[0] == '-' {
      CanonicalIsToDigits(s[1..], 10);
      assert s == "-" + s[1..];
    } else {
      CanonicalIsToDigits(s, 10);
    }
  }
}

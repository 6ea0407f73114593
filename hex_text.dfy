/** The integer formatting and parsing of .NET that the source relies on: the `X` and `X8`
    format specifiers, `uint.ToString()`, `uint.TryParse` with the default and with the
    `HexNumber` number styles, and the `TryParseHex` string extension. */
module HexText {
  import opened Wrappers
  import opened Numbers

  function Pow(b: nat, e: nat): nat
  {
    if e == 0 then 1 else b * Pow(b, e - 1)
  }

  predicate IsHexDigit(c: char)
  {
    '0' <= c <= '9' || 'A' <= c <= 'F' || 'a' <= c <= 'f'
  }

  predicate IsUpperHexDigit(c: char)
  {
    '0' <= c <= '9' || 'A' <= c <= 'F'
  }

  function DigitValue(c: char): (d: nat)
    requires IsHexDigit(c)
    ensures d < 16
    ensures d < 10 <==> '0' <= c <= '9'
  {
    if '0' <= c <= '9' then c as int - '0' as int
    else if 'A' <= c <= 'F' then c as int - 'A' as int + 10
    else c as int - 'a' as int + 10
  }

  /** The upper-case digit for `d`, as the `X` specifier and `ToString()` print it. */
  function DigitChar(d: nat): (c: char)
    requires d < 16
    ensures IsUpperHexDigit(c) && DigitValue(c) == d
  {
    if d < 10 then ('0' as int + d) as char else ('A' as int + d - 10) as char
  }

  /** Every character of `s` is a digit of base `b` (hex digits of either case). */
  predicate AllDigits(s: string, b: nat)
  {
    forall i :: 0 <= i < |s| ==> IsHexDigit(s[i]) && DigitValue(s[i]) < b
  }

  /** The number a digit string denotes in base `b`, most significant digit first. */
  function ValueIn(s: string, b: nat): nat
    requires AllDigits(s, b)
  {
    if s == [] then 0 else ValueIn(s[..|s| - 1], b) * b + DigitValue(s[|s| - 1])
  }

  /** The shortest upper-case rendering of `n` in base `b`: no sign, no leading zero. */
  function Digits(n: nat, b: nat): (s: string)
    requires 2 <= b <= 16
    ensures |s| >= 1 && AllDigits(s, b)
    ensures forall i :: 0 <= i < |s| ==> IsUpperHexDigit(s[i])
    ensures s[0] == '0' ==> n == 0
    decreases n
  {
    if n < b then [DigitChar(n)]
    else
      DivStep(n, b);
      Digits(n / b, b) + [DigitChar(n % b)]
  }

  /** Euclidean division facts for one digit step. */
  lemma DivStep(n: nat, b: nat)
    requires 2 <= b <= n
    ensures n == b * (n / b) + n % b && n % b < b
    ensures 1 <= n / b < n
  {
  }

  /** `n.ToString("X")`. */
  function FormatHex(n: nat): string
  {
    Digits(n, 16)
  }

  /** `n.ToString()` of a non-negative integer. */
  function FormatDecimal(n: nat): string
  {
    Digits(n, 10)
  }

  function Zeros(k: nat): (z: string)
    ensures |z| == k && forall i :: 0 <= i < k ==> z[i] == '0'
  {
    if k == 0 then [] else Zeros(k - 1) + ['0']
  }

  /** `s` padded on the left with '0' up to `width` characters. */
  function PadLeftZeros(s: string, width: nat): string
  {
    if |s| >= width then s else Zeros(width - |s|) + s
  }

  /** `v.ToString("X8")`: at least eight upper-case hex digits, zero-padded. */
  function FormatHex8(v: uint32): (s: string)
    ensures |s| == 8
    ensures forall i :: 0 <= i < 8 ==> IsUpperHexDigit(s[i])
    ensures AllDigits(s, 16) && ValueIn(s, 16) == v
  {
    DigitsLength(v, 16, 8);
    DigitsValue(v, 16);
    PadLeftZerosFacts(Digits(v, 16), 8, 16);
    PadLeftZeros(Digits(v, 16), 8)
  }

  /** Zero-padding a digit string to a width it does not exceed: the width is reached, the
      characters stay upper-case digits and the value is unchanged. */
  lemma PadLeftZerosFacts(s: string, width: nat, b: nat)
    requires 2 <= b <= 16 && |s| <= width
    requires AllDigits(s, b) && forall i :: 0 <= i < |s| ==> IsUpperHexDigit(s[i])
    ensures |PadLeftZeros(s, width)| == width
    ensures forall i :: 0 <= i < width ==> IsUpperHexDigit(PadLeftZeros(s, width)[i])
    ensures AllDigits(PadLeftZeros(s, width), b)
    ensures ValueIn(PadLeftZeros(s, width), b) == ValueIn(s, b)
  {
    var z := Zeros(width - |s|);
    ZerosValue(z, s, b);
    if |s| < width {
      assert PadLeftZeros(s, width) == z + s;
      forall i | 0 <= i < width ensures IsUpperHexDigit((z + s)[i]) {
        if i >= |z| { assert (z + s)[i] == s[i - |z|]; }
      }
    }
  }

  /** White space as .NET number parsing skips it: U+0009 to U+000D and U+0020. */
  predicate IsWhite(c: char)
  {
    c == ' ' || '\t' <= c <= '\r'
  }

  function TrimStartWhite(s: string): string
  {
    if |s| > 0 && IsWhite(s[0]) then TrimStartWhite(s[1..]) else s
  }

  function TrimEndWhite(s: string): string
  {
    if |s| > 0 && IsWhite(s[|s| - 1]) then TrimEndWhite(s[..|s| - 1]) else s
  }

  function TrimEndNul(s: string): string
  {
    if |s| > 0 && s[|s| - 1] == '\0' then TrimEndNul(s[..|s| - 1]) else s
  }

  /** What .NET number parsing leaves of `s` for the number itself: leading white space, and
      trailing white space followed by any number of NUL characters, are skipped. */
  function TrimWhite(s: string): string
  {
    TrimEndWhite(TrimEndNul(TrimStartWhite(s)))
  }

  /** The digits of `t` as a `uint`, or None when `t` is empty, holds a non-digit of base `b`
      or denotes 2^32 or more (the overflow check of `uint.TryParse`). */
  function UIntOfDigits(t: string, b: nat): (r: Option<uint32>)
  {
    if |t| > 0 && AllDigits(t, b) && ValueIn(t, b) < TWO_32 then Some(ValueIn(t, b)) else None
  }

  /** `uint.TryParse(s, NumberStyles.HexNumber, ...)`: optional white space around one or
      more hex digits of either case, then optional NUL characters; no prefix, no sign. */
  function ParseHexNumber(s: string): Option<uint32>
  {
    UIntOfDigits(TrimWhite(s), 16)
  }

  /** `uint.TryParse(s)` (NumberStyles.Integer): optional white space around an optionally
      signed run of decimal digits, then optional NUL characters; a minus sign is accepted only
      on a value of zero. */
  function ParseInteger(s: string): Option<uint32>
  {
    var t := TrimWhite(s);
    if |t| > 0 && t[0] == '+' then UIntOfDigits(t[1..], 10)
    else if |t| > 0 && t[0] == '-' then
      (if UIntOfDigits(t[1..], 10) == Some(0) then Some(0) else None)
    else UIntOfDigits(t, 10)
  }

  /** The `TryParseHex` string extension, whose source is not part of this model. Assumed:
      an optional "0x" or "0X" prefix is dropped and the rest is parsed as by
      `ParseHexNumber`, so it fails on a value of 2^32 or more. */
  function TryParseHex(s: string): Option<uint32>
  {
    var body := if |s| >= 2 && s[0] == '0' && (s[1] == 'x' || s[1] == 'X') then s[2..] else s;
    ParseHexNumber(body)
  }

  // ---------------------------------------------------------------------------------------
  // Lemmas

  /** Reading back the digits that `Digits` prints gives the number printed. */
  lemma {:induction false} DigitsValue(n: nat, b: nat)
    requires 2 <= b <= 16
    ensures ValueIn(Digits(n, b), b) == n
    decreases n
  {
    var s := Digits(n, b);
    if n >= b {
      var q := n / b;
      DivStep(n, b);
      DigitsValue(q, b);
      assert s[..|s| - 1] == Digits(q, b);
      assert DigitValue(s[|s| - 1]) == n % b;
      assert ValueIn(s, b) == ValueIn(Digits(q, b), b) * b + n % b;
    }
  }

  /** A number below b^k needs at most k digits (k >= 1), and conversely. */
  lemma {:induction false} DigitsLength(n: nat, b: nat, k: nat)
    requires 2 <= b <= 16 && k >= 1
    ensures |Digits(n, b)| <= k <==> n < Pow(b, k)
    decreases n
  {
    if n < b {
      PowAtLeastBase(b, k);
    } else {
      var q := n / b;
      DivStep(n, b);
      if k == 1 {
        assert Pow(b, k) == b;
        assert |Digits(n, b)| == |Digits(q, b)| + 1;
      } else {
        DigitsLength(q, b, k - 1);
        assert Pow(b, k) == b * Pow(b, k - 1);
        DigitCarry(q, n % b, Pow(b, k - 1), b);
      }
    }
  }

  lemma {:induction false} PowAtLeastBase(b: nat, k: nat)
    requires b >= 2 && k >= 1
    ensures Pow(b, k) >= b
  {
    if k > 1 {
      PowAtLeastBase(b, k - 1);
      assert Pow(b, k) == b * Pow(b, k - 1);
    }
  }

  /** Appending a digit below `b` keeps the order against a multiple of `b`. */
  lemma DigitCarry(h: nat, d: nat, p: nat, b: nat)
    requires d < b
    ensures b * h + d < b * p <==> h < p
  {
    if h < p {
      assert b * h <= b * (p - 1) == b * p - b;
    } else {
      assert b * h >= b * p;
    }
  }

  /** Leading zeros do not change the value of a digit string. */
  lemma {:induction false} ZerosValue(z: string, s: string, b: nat)
    requires 2 <= b <= 16
    requires forall i :: 0 <= i < |z| ==> z[i] == '0'
    requires AllDigits(s, b)
    ensures AllDigits(z + s, b) && ValueIn(z + s, b) == ValueIn(s, b)
    decreases |s|
  {
    if s == [] {
      assert z + s == z;
      ZerosAlone(z, b);
    } else {
      var s' := s[..|s| - 1];
      ZerosValue(z, s', b);
      assert (z + s)[..|z + s| - 1] == z + s';
    }
  }

  lemma {:induction false} ZerosAlone(z: string, b: nat)
    requires 2 <= b <= 16
    requires forall i :: 0 <= i < |z| ==> z[i] == '0'
    ensures AllDigits(z, b) && ValueIn(z, b) == 0
    decreases |z|
  {
    if z != [] {
      ZerosAlone(z[..|z| - 1], b);
    }
  }

  /** A string that neither starts nor ends with white space, nor ends with NUL, is left alone
      by trimming. */
  lemma TrimWhiteNoop(s: string)
    requires |s| > 0 && !IsWhite(s[0]) && !IsWhite(s[|s| - 1]) && s[|s| - 1] != '\0'
    ensures TrimWhite(s) == s
  {
  }

  /** `X` round trip: the hex-number parser reads back what `FormatHex` prints. */
  lemma FormatHexParses(v: uint32)
    ensures ParseHexNumber(FormatHex(v)) == Some(v)
  {
    DigitsValue(v, 16);
    TrimWhiteNoop(FormatHex(v));
  }

  /** `X8` round trip: the hex-number parser reads back what `FormatHex8` prints. */
  lemma FormatHex8Parses(v: uint32)
    ensures ParseHexNumber(FormatHex8(v)) == Some(v)
  {
    TrimWhiteNoop(FormatHex8(v));
  }

  /** `ToString()` round trip: the decimal parser reads back what `FormatDecimal` prints. */
  lemma FormatDecimalParses(v: uint32)
    ensures ParseInteger(FormatDecimal(v)) == Some(v)
  {
    var s := FormatDecimal(v);
    DigitsValue(v, 10);
    TrimWhiteNoop(s);
    assert s[0] != '+' && s[0] != '-';
  }

  /** .NET accepts NUL characters after the number and its trailing white space, but nothing
      after those NULs. */
  lemma ParseTrailingNul()
    ensures ParseHexNumber("1F \0\0") == Some(31)
    ensures ParseInteger("31\0") == Some(31)
    ensures ParseHexNumber("1F\0 ") == None
  {
    assert TrimStartWhite("1F \0\0") == "1F \0\0";
    assert "1F \0\0"[..4] == "1F \0" && "1F \0"[..3] == "1F " && "1F "[..2] == "1F";
    assert TrimEndNul("1F \0\0") == "1F ";
    assert TrimWhite("1F \0\0") == "1F";
    assert TrimWhite("31\0") == "31";
    assert TrimWhite("1F\0 ") == "1F\0";
    assert "1F"[..1] == "1" && "1"[..0] == [] && ValueIn("1F", 16) == 31;
    assert "31"[..1] == "3" && "3"[..0] == [] && ValueIn("31", 10) == 31;
  }
}

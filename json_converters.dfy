/** `HexUintJsonConverter`: the JSON converter for `uint` values that writes them as
    "0x"-prefixed hex strings and reads them back from string or number tokens. */
module JsonConverters {
  import opened Wrappers
  import opened Numbers
  import opened HexText

  /** What `Read` sees of the `Utf8JsonReader`: the type of the current token and its payload. */
  datatype JsonToken =
    | StringToken(text: string)
    | NumberToken(number: int)  // an integral JSON number
    | OtherToken                // null, true, false, or the start of an object or array

  /** The exceptions `Read` lets escape. */
  datatype JsonError =
    | InvalidHexFormat  // the JsonException "Invalid format for hex number"
    | NotAUInt32        // the FormatException of GetUInt32 on a number outside uint

  /** `HexUintJsonConverter.Read`: a string token is parsed as hex; a number token is printed
      in decimal and those digits are parsed as hex; anything else is rejected. */
  function Read(token: JsonToken): Result<uint32, JsonError>
  {
    match token
    case StringToken(text) =>
      (match TryParseHex(text)
       case Some(v) => Ok(v)
       case None => Err(InvalidHexFormat))
    case NumberToken(n) =>
      if !(0 <= n < TWO_32) then Err(NotAUInt32)
      else
        (match TryParseHex(FormatDecimal(n))
         case Some(v) => Ok(v)
         case None => Err(InvalidHexFormat))
    case OtherToken => Err(InvalidHexFormat)
  }

  /** `HexUintJsonConverter.Write`: the string value "0x" followed by `value.ToString("X8")`. */
  function Write(v: uint32): (s: string)
    ensures |s| == 10 && s[..2] == "0x"
    ensures forall i :: 2 <= i < 10 ==> IsUpperHexDigit(s[i])
  {
    "0x" + FormatHex8(v)
  }

  /** The number the decimal digits of `n` denote when read as hex digits: 10 reads as 0x10. */
  function DecimalDigitsAsHex(n: nat): nat
  {
    if n < 10 then n else 16 * DecimalDigitsAsHex(n / 10) + n % 10
  }

  // ---------------------------------------------------------------------------------------
  // Lemmas

  /** Reading the string that `Write` produced gives back the value written. */
  lemma ReadWriteRoundTrip(v: uint32)
    ensures Read(StringToken(Write(v))) == Ok(v)
  {
    var s := Write(v);
    assert s[2..] == FormatHex8(v);
    FormatHex8Parses(v);
  }

  /** The bare string "0" reads as zero. */
  lemma ReadZeroString()
    ensures Read(StringToken("0")) == Ok(0)
  {
    TrimWhiteNoop("0");
  }

  /** A token that is neither a string nor a number is rejected with the converter's error. */
  lemma ReadRejectsOtherTokens(token: JsonToken)
    requires !token.StringToken? && !token.NumberToken?
    ensures Read(token) == Err(InvalidHexFormat)
  {
  }

  /** A number token whose digits read as hex fit in 32 bits, that is one below 10^8, reads as
      the hex value of its decimal digits; one of nine or more digits is rejected. */
  lemma ReadNumberToken(n: uint32)
    ensures n < 100_000_000 ==> Read(NumberToken(n)) == Ok(DecimalDigitsAsHex(n))
    ensures n >= 100_000_000 ==> Read(NumberToken(n)) == Err(InvalidHexFormat)
  {
    var s := FormatDecimal(n);
    assert s[1..] != [] ==> s[1] != 'x' && s[1] != 'X';
    TrimWhiteNoop(s);
    DecimalDigitsReadAsHex(n);
    DecimalDigitsAsHexBound(n, 8);
    assert Pow(16, 8) == TWO_32 && Pow(10, 8) == 100_000_000;
  }

  /** A number token reads as itself exactly when it is a single digit. */
  lemma ReadNumberIsIdentityOnlyOnOneDigit(n: uint32)
    ensures Read(NumberToken(n)) == Ok(n) <==> n < 10
  {
    ReadNumberToken(n);
    DecimalDigitsAsHexGrows(n);
  }

  /** The example the converter's quirk is known by: 10 reads as 16. */
  lemma ReadNumberTen()
    ensures Read(NumberToken(10)) == Ok(16)
  {
    ReadNumberToken(10);
  }

  /** `DecimalDigitsAsHex` is what the hex parser computes on the decimal digits. */
  lemma {:induction false} DecimalDigitsReadAsHex(n: nat)
    ensures AllDigits(FormatDecimal(n), 16)
    ensures ValueIn(FormatDecimal(n), 16) == DecimalDigitsAsHex(n)
    decreases n
  {
    var s := FormatDecimal(n);
    if n >= 10 {
      DivStep(n, 10);
      DecimalDigitsReadAsHex(n / 10);
      assert s[..|s| - 1] == FormatDecimal(n / 10);
      assert DigitValue(s[|s| - 1]) == n % 10;
    }
  }

  /** The hex reading of n's digits is below 16^j exactly when n is below 10^j. */
  lemma {:induction false} DecimalDigitsAsHexBound(n: nat, j: nat)
    ensures DecimalDigitsAsHex(n) < Pow(16, j) <==> n < Pow(10, j)
    decreases n
  {
    if n < 10 {
      if j > 0 {
        PowAtLeastBase(16, j);
        PowAtLeastBase(10, j);
      }
    } else {
      var q := n / 10;
      DivStep(n, 10);
      DecimalDigitsAsHexBound(q, 0);
      if j > 0 {
        DecimalDigitsAsHexBound(q, j - 1);
        assert Pow(16, j) == 16 * Pow(16, j - 1);
        assert Pow(10, j) == 10 * Pow(10, j - 1);
        DigitCarry(DecimalDigitsAsHex(q), n % 10, Pow(16, j - 1), 16);
        DigitCarry(q, n % 10, Pow(10, j - 1), 10);
      }
    }
  }

  /** The hex reading never shrinks a number, and grows every number of two digits or more. */
  lemma {:induction false} DecimalDigitsAsHexGrows(n: nat)
    ensures DecimalDigitsAsHex(n) >= n
    ensures n >= 10 ==> DecimalDigitsAsHex(n) > n
    decreases n
  {
    if n >= 10 {
      DivStep(n, 10);
      DecimalDigitsAsHexGrows(n / 10);
    }
  }
}

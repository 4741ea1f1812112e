/**
  `strconv.ParseUint(s, 10, 16)` as the attribute reader uses it: a decimal
  numeral, no sign, no underscores, no surrounding blanks, of value at most 65535.
*/
module GoStrconv {
  import opened Wrappers

  /** Go's `uint16`. */
  newtype uint16 = x: int | 0 <= x < 0x1_0000

  predicate IsDigit(c: char) {
    '0' <= c <= '9'
  }

  /** A non-empty run of ASCII decimal digits. */
  predicate IsDecimal(s: string) {
    |s| > 0 && forall k :: 0 <= k < |s| ==> IsDigit(s[k])
  }

  function DigitValue(c: char): (d: nat)
    requires IsDigit(c)
    ensures d < 10
  {
    (c as int) - ('0' as int)
  }

  function DigitChar(d: nat): (c: char)
    requires d < 10
    ensures IsDigit(c) && DigitValue(c) == d
  {
    ('0' as int + d) as char
  }

  /** The value of a run of digits, most significant first. */
  function DecimalValue(s: string): nat
    requires forall k :: 0 <= k < |s| ==> IsDigit(s[k])
  {
    if s == [] then 0 else DecimalValue(s[..|s| - 1]) * 10 + DigitValue(s[|s| - 1])
  }

  /** The shortest decimal numeral of `n` (the reference printer for the round trip). */
  function FormatDecimal(n: nat): (s: string)
    ensures IsDecimal(s)
  {
    if n < 10 then [DigitChar(n)] else FormatDecimal(n / 10) + [DigitChar(n % 10)]
  }

  /** Every character is an ASCII decimal digit. */
  predicate AllDigits(s: string) {
    forall k :: 0 <= k < |s| ==> IsDigit(s[k])
  }

  /** A prefix of a run of digits is worth no more than the whole run. */
  lemma {:induction false} DecimalValuePrefix(s: string, j: nat)
    requires AllDigits(s) && j <= |s|
    ensures DecimalValue(s[..j]) <= DecimalValue(s)
    decreases |s|
  {
    if j < |s| {
      var t := s[..|s| - 1];
      assert t[..j] == s[..j];
      DecimalValuePrefix(t, j);
    } else {
      assert s[..j] == s;
    }
  }

  /**
    The loop of `strconv.ParseUint` from index `i` on, with `acc` the value of
    the digits already read: a character that is not a digit is a syntax error,
    and the value passing 65535 is a range error, reported at once.
  */
  function ParseDigits(s: string, i: nat, acc: nat): (r: Option<uint16>)
    requires i <= |s| && AllDigits(s[..i]) && acc == DecimalValue(s[..i]) && acc < 0x1_0000
    ensures r.Some? <==> AllDigits(s) && DecimalValue(s) < 0x1_0000
    ensures r.Some? ==> r.value as int == DecimalValue(s)
    decreases |s| - i
  {
    if i == |s| then
      assert s[..i] == s;
      Some(acc as uint16)
    else if !IsDigit(s[i]) then
      None
    else
      var v := acc * 10 + DigitValue(s[i]);
      assert s[..i + 1][..i] == s[..i];
      assert AllDigits(s[..i + 1]) by {
        var u := s[..i + 1];
        forall k | 0 <= k < |u| ensures IsDigit(u[k]) {
          if k < i { assert u[k] == s[..i][k]; }
        }
      }
      assert DecimalValue(s[..i + 1]) == v;
      if v >= 0x1_0000 then
        assert AllDigits(s) ==> DecimalValue(s) >= v by {
          if AllDigits(s) { DecimalValuePrefix(s, i + 1); }
        }
        None
      else
        ParseDigits(s, i + 1, v)
  }

  /**
    `strconv.ParseUint(s, 10, 16)`: reads the digits left to right. It succeeds
    exactly for a non-empty run of ASCII digits worth at most 65535, and then
    yields that value; empty text, any other character and a larger value fail.
  */
  function ParseUint16(s: string): (r: Option<uint16>)
    ensures r.Some? <==> IsDecimal(s) && DecimalValue(s) < 0x1_0000
    ensures r.Some? ==> r.value as int == DecimalValue(s)
  {
    if s == [] then None
    else
      assert s[..0] == [];
      ParseDigits(s, 0, 0)
  }

  /** The printed value of `n` reads back as `n`. */
  lemma {:induction false} DecimalValueOfFormat(n: nat)
    ensures DecimalValue(FormatDecimal(n)) == n
  {
    var s := FormatDecimal(n);
    if n < 10 {
      assert s[..0] == [];
    } else {
      DecimalValueOfFormat(n / 10);
      assert s[..|s| - 1] == FormatDecimal(n / 10);
    }
  }

  /** Round trip: every `uint16` printed in decimal parses back to itself. */
  lemma ParseFormatRoundTrip(n: uint16)
    ensures ParseUint16(FormatDecimal(n as nat)) == Some(n)
  {
    DecimalValueOfFormat(n as nat);
  }

  /** Numerals above the 16-bit range are rejected rather than truncated. */
  lemma ParseRejectsOutOfRange(n: nat)
    requires n >= 0x1_0000
    ensures ParseUint16(FormatDecimal(n)) == None
  {
    DecimalValueOfFormat(n);
  }

  /** `"1"` is 1; `"abc"` and `"70000"` are refused. */
  lemma ParseUint16Examples()
    ensures ParseUint16("1") == Some(1)
    ensures ParseUint16("abc") == None
    ensures ParseUint16("70000") == None
  {
    assert !IsDigit("abc"[0]);
    ParseRejectsOutOfRange(70000);
    assert FormatDecimal(7) == "7";
    assert FormatDecimal(70) == "70";
    assert FormatDecimal(700) == "700";
    assert FormatDecimal(7000) == "7000";
    assert FormatDecimal(70000) == "70000";
  }
}

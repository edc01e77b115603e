/**
 * `String.hexadecimal`: the bytes of the hex digits in a string, read by the pattern
 * `[0-9a-f]{1,2}` matched case-insensitively, leftmost first and without overlap; and the
 * `%02X` encoding the notification manager writes a device token with.
 */
module Hexadecimal {
  import opened Wrappers
  import opened Strings

  type byte = x: int | 0 <= x < 256

  predicate IsHexDigit(c: char)
  {
    '0' <= c <= '9' || 'a' <= c <= 'f' || 'A' <= c <= 'F'
  }

  /** The value of a hex digit, either case. */
  function DigitValue(c: char): (v: nat)
    requires IsHexDigit(c)
    ensures v < 16
  {
    if '0' <= c <= '9' then c as int - '0' as int
    else if 'a' <= c <= 'f' then c as int - 'a' as int + 10
    else c as int - 'A' as int + 10
  }

  /**
   * The bytes the matches give: a match of two digits is one byte, high digit first; a
   * single digit, with no digit after it, is a byte 0..15; every other character is
   * skipped. Parsing a match of one or two hex digits as a `UInt8` always succeeds.
   */
  function HexBytes(s: string): (r: seq<byte>)
    ensures |r| <= |s|
    decreases |s|
  {
    if s == [] then []
    else if !IsHexDigit(s[0]) then HexBytes(s[1..])
    else if |s| >= 2 && IsHexDigit(s[1]) then [16 * DigitValue(s[0]) + DigitValue(s[1])] + HexBytes(s[2..])
    else [DigitValue(s[0])] + HexBytes(s[1..])
  }

  /** No byte comes out exactly when the string has no hex digit. */
  lemma {:induction false} NoBytesIffNoDigit(s: string)
    ensures HexBytes(s) == [] <==> forall i :: 0 <= i < |s| ==> !IsHexDigit(s[i])
    decreases |s|
  {
    if s != [] && !IsHexDigit(s[0]) {
      NoBytesIffNoDigit(s[1..]);
      assert forall i :: 1 <= i < |s| ==> s[i] == s[1..][i - 1];
    }
  }

  /** One step of the matching at index `i`: a skipped character, a two-digit byte, or a one-digit byte. */
  lemma HexBytesAt(s: string, i: nat)
    requires i < |s|
    ensures !IsHexDigit(s[i]) ==> HexBytes(s[i..]) == HexBytes(s[i + 1..])
    ensures IsHexDigit(s[i]) && i + 1 < |s| && IsHexDigit(s[i + 1]) ==>
      HexBytes(s[i..]) == [16 * DigitValue(s[i]) + DigitValue(s[i + 1])] + HexBytes(s[i + 2..])
    ensures IsHexDigit(s[i]) && !(i + 1 < |s| && IsHexDigit(s[i + 1])) ==>
      HexBytes(s[i..]) == [DigitValue(s[i])] + HexBytes(s[i + 1..])
  {
    assert s[i..][1..] == s[i + 1..];
    if i + 1 < |s| {
      assert s[i..][2..] == s[i + 2..];
    }
  }

  /**
   * `hexadecimal`: the enumeration of the matches, each appending its byte to `data`; nil
   * when no byte came out.
   */
  method HexadecimalData(s: string) returns (r: Option<seq<byte>>)
    ensures r.None? <==> HexBytes(s) == []
    ensures r.Some? ==> r.value == HexBytes(s)
  {
    var data: seq<byte> := [];
    var i := 0;
    while i < |s|
      invariant 0 <= i <= |s|
      invariant data + HexBytes(s[i..]) == HexBytes(s)
    {
      HexBytesAt(s, i);
      if !IsHexDigit(s[i]) {
        i := i + 1;
      } else if i + 1 < |s| && IsHexDigit(s[i + 1]) {
        data := data + [16 * DigitValue(s[i]) + DigitValue(s[i + 1])];
        i := i + 2;
      } else {
        data := data + [DigitValue(s[i])];
        i := i + 1;
      }
    }
    assert s[|s|..] == [];
    if data == [] {
      return None;
    }
    return Some(data);
  }

  // ---------------------------------------------------------------- runs of digits

  /** The number of hex digits at the head of `s`. */
  function LeadingDigits(s: string): (n: nat)
    ensures n <= |s|
    ensures forall i :: 0 <= i < n ==> IsHexDigit(s[i])
    ensures n < |s| ==> !IsHexDigit(s[n])
  {
    if s == [] || !IsHexDigit(s[0]) then 0
    else
      var n := 1 + LeadingDigits(s[1..]);
      assert forall i :: 1 <= i < n ==> s[i] == s[1..][i - 1];
      n
  }

  /** The lengths of the maximal runs of hex digits, left to right. */
  function RunLengths(s: string): seq<nat>
    decreases |s|
  {
    if s == [] then []
    else if !IsHexDigit(s[0]) then RunLengths(s[1..])
    else [LeadingDigits(s)] + RunLengths(s[LeadingDigits(s)..])
  }

  /** The sum of the runs' halves, rounded up. */
  function HalvesUp(runs: seq<nat>): nat
  {
    if runs == [] then 0 else (runs[0] + 1) / 2 + HalvesUp(runs[1..])
  }

  /** A run of `n` digits at the head gives `n` halved, rounded up, bytes before the rest. */
  lemma {:induction false} RunBytes(s: string, n: nat)
    requires n == LeadingDigits(s)
    ensures |HexBytes(s)| == (n + 1) / 2 + |HexBytes(s[n..])|
    decreases n
  {
    if n >= 2 {
      assert LeadingDigits(s[1..]) == n - 1;
      assert LeadingDigits(s[2..]) == n - 2 by {
        assert s[1..][1..] == s[2..];
      }
      RunBytes(s[2..], n - 2);
      assert s[2..][n - 2..] == s[n..];
    }
  }

  /** The number of bytes is the sum over the runs of digits of each run's length halved, rounded up. */
  lemma {:induction false} ByteCount(s: string)
    ensures |HexBytes(s)| == HalvesUp(RunLengths(s))
    decreases |s|
  {
    if s != [] {
      if !IsHexDigit(s[0]) {
        ByteCount(s[1..]);
      } else {
        var n := LeadingDigits(s);
        RunBytes(s, n);
        ByteCount(s[n..]);
        assert RunLengths(s)[0] == n && RunLengths(s)[1..] == RunLengths(s[n..]);
      }
    }
  }

  // ---------------------------------------------------------------- the %02X encoding

  /** The uppercase hex digit of a value below 16. */
  function UpperDigit(v: nat): (c: char)
    requires v < 16
    ensures IsHexDigit(c) && DigitValue(c) == v
    ensures !('a' <= c <= 'f')
  {
    if v < 10 then ('0' as int + v) as char else ('A' as int + v - 10) as char
  }

  /** `String(format: "%02X", byte)`: two uppercase digits, high first. */
  function Format02X(b: byte): (r: string)
    ensures |r| == 2
  {
    [UpperDigit(b / 16), UpperDigit(b % 16)]
  }

  /** The device token string: the bytes' `%02X` forms concatenated. */
  function TokenString(bytes: seq<byte>): (r: string)
    ensures |r| == 2 * |bytes|
  {
    if bytes == [] then [] else Format02X(bytes[0]) + TokenString(bytes[1..])
  }

  /** Reading the `%02X` encoding back gives the bytes. */
  lemma {:induction false} TokenRoundTrip(bytes: seq<byte>)
    ensures HexBytes(TokenString(bytes)) == bytes
  {
    if bytes != [] {
      var s := TokenString(bytes);
      assert s[0] == UpperDigit(bytes[0] / 16) && s[1] == UpperDigit(bytes[0] % 16);
      assert s[2..] == TokenString(bytes[1..]);
      TokenRoundTrip(bytes[1..]);
    }
  }

  /** For a non-empty token, `hexadecimal` of its string gives the token back. */
  method TokenDecodes(bytes: seq<byte>) returns (r: Option<seq<byte>>)
    requires bytes != []
    ensures r == Some(bytes)
  {
    TokenRoundTrip(bytes);
    r := HexadecimalData(TokenString(bytes));
  }

  // ---------------------------------------------------------------- case

  /** Digits are matched case-insensitively: uppercasing the letters changes no byte. */
  lemma {:induction false} CaseInsensitive(s: string)
    ensures HexBytes(AsciiUppercased(s)) == HexBytes(s)
    decreases |s|
  {
    var u := AsciiUppercased(s);
    if s != [] {
      assert u[1..] == AsciiUppercased(s[1..]);
      CaseInsensitive(s[1..]);
      if |s| >= 2 {
        assert u[2..] == AsciiUppercased(s[2..]);
        CaseInsensitive(s[2..]);
      }
    }
  }
}

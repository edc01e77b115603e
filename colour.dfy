/**
 * The integer part of the `UIColor` hex initialisers: the red, green and blue channels
 * (0...255 each, before Core Graphics divides them by 255) and the alpha. Foundation's
 * `Scanner.scanHexInt64` is a parameter, `scanHex`, giving the value it scans.
 */
module Colours {
  import opened Strings

  datatype Rgba = Rgba(red: int, green: int, blue: int, alpha: real)

  /**
   * `init(hex:alpha:)`: `(hex >> 16) & 0xff`, `(hex >> 8) & 0xff` and `hex & 0xff`. On a
   * two's-complement `Int`, an arithmetic right shift is floor division by a power of two
   * and `& 0xff` the non-negative remainder modulo 256, which Dafny's `/` and `%` by a
   * positive divisor are, negative values included.
   */
  function InitHex(hex: int, alpha: real := 1.0): (c: Rgba)
    ensures 0 <= c.red < 256 && 0 <= c.green < 256 && 0 <= c.blue < 256
    ensures c.alpha == alpha
  {
    Rgba((hex / 0x1_0000) % 0x100, (hex / 0x100) % 0x100, hex % 0x100, alpha)
  }

  /** `(v & 0xFF0000) >> 16`, `(v & 0x00FF00) >> 8` and `v & 0x0000FF` on an unsigned value. */
  function Masked(v: nat): (c: Rgba)
    ensures 0 <= c.red < 256 && 0 <= c.green < 256 && 0 <= c.blue < 256
    ensures c.alpha == 1.0
  {
    Rgba((v % 0x100_0000) / 0x1_0000, (v % 0x1_0000) / 0x100, v % 0x100, 1.0)
  }

  lemma DivMod256(a: int, b: int)
    requires 0 <= b < 0x100
    ensures (a * 0x100 + b) / 0x100 == a && (a * 0x100 + b) % 0x100 == b
  {
  }

  lemma DivMod65536(a: int, b: int)
    requires 0 <= b < 0x1_0000
    ensures (a * 0x1_0000 + b) / 0x1_0000 == a && (a * 0x1_0000 + b) % 0x1_0000 == b
  {
  }

  /** Channels in range are read back from the value they make by shifting. */
  lemma ShiftedChannels(red: int, green: int, blue: int)
    requires 0 <= red < 256 && 0 <= green < 256 && 0 <= blue < 256
    ensures InitHex(red * 0x1_0000 + green * 0x100 + blue, 1.0) == Rgba(red, green, blue, 1.0)
  {
    var v := red * 0x1_0000 + green * 0x100 + blue;
    DivMod65536(red, green * 0x100 + blue);
    assert v == (red * 0x100 + green) * 0x100 + blue;
    DivMod256(red * 0x100 + green, blue);
    DivMod256(red, green);
    DivMod256(0, red);
    assert v == (red * 0x100 + green) * 0x100 + blue;
    DivMod256(v / 0x100, blue);
  }

  /** Channels in range are read back from the value they make by masking. */
  lemma MaskedChannels(red: int, green: int, blue: int)
    requires 0 <= red < 256 && 0 <= green < 256 && 0 <= blue < 256
    ensures Masked(red * 0x1_0000 + green * 0x100 + blue) == Rgba(red, green, blue, 1.0)
  {
    var v := red * 0x1_0000 + green * 0x100 + blue;
    assert v % 0x100_0000 == v;
    DivMod65536(red, green * 0x100 + blue);
    DivMod256(green, blue);
    assert v == (red * 0x100 + green) * 0x100 + blue;
    DivMod256(red * 0x100 + green, blue);
  }

  /** `whitespacesAndNewlines`: the Unicode white space and line separators. */
  predicate IsWhitespaceOrNewline(c: char)
  {
    c == ' ' || '\t' <= c <= '\r' || c == '\U{85}' || c == '\U{A0}' || c == '\U{1680}'
    || '\U{2000}' <= c <= '\U{200A}' || c == '\U{2028}' || c == '\U{2029}' || c == '\U{202F}'
    || c == '\U{205F}' || c == '\U{3000}'
  }

  /** White space cut from the start: a suffix of `s` that does not start with white space. */
  function TrimStart(s: string): (r: string)
    ensures |r| <= |s| && r == s[|s| - |r|..]
    ensures r != [] ==> !IsWhitespaceOrNewline(r[0])
  {
    if s != [] && IsWhitespaceOrNewline(s[0]) then
      var r := TrimStart(s[1..]);
      assert s[1..][|s| - 1 - |r|..] == s[|s| - |r|..];
      r
    else s
  }

  /** White space cut from the end: a prefix of `s` that does not end with white space. */
  function TrimEnd(s: string): (r: string)
    ensures |r| <= |s| && r == s[..|r|]
    ensures r != [] ==> !IsWhitespaceOrNewline(r[|r| - 1])
  {
    if s != [] && IsWhitespaceOrNewline(s[|s| - 1]) then
      var r := TrimEnd(s[..|s| - 1]);
      assert s[..|s| - 1][..|r|] == s[..|r|];
      r
    else s
  }

  /** `trimmingCharacters(in: .whitespacesAndNewlines)`: white space cut from both ends. */
  function Trimmed(s: string): (r: string)
    ensures |r| <= |s|
    ensures r != [] ==> !IsWhitespaceOrNewline(r[0]) && !IsWhitespaceOrNewline(r[|r| - 1])
  {
    var t := TrimStart(s);
    var r := TrimEnd(t);
    assert r != [] ==> r[0] == t[0];
    r
  }

  /** The colour string as `init(hexString:)` reads it: trimmed, uppercased, one leading '#' removed. */
  function Normalised(hexString: string): (r: string)
    ensures |r| <= |hexString|
  {
    var c := AsciiUppercased(Trimmed(hexString));
    if |c| > 0 && c[0] == '#' then c[1..] else c
  }

  /**
   * `init(hexString:)`: a normalised string of other than six characters is black;
   * otherwise the channels are masked out of the scanned value, with alpha 1.
   */
  method InitHexString(hexString: string, scanHex: string -> nat) returns (c: Rgba)
    ensures |Normalised(hexString)| != 6 ==> c == InitHex(0)
    ensures |Normalised(hexString)| == 6 ==>
      c == Masked(scanHex(Normalised(hexString)))
  {
    var cString := AsciiUppercased(Trimmed(hexString));
    if |cString| > 0 && cString[0] == '#' {
      cString := cString[1..];
    }
    if |cString| != 6 {
      c := InitHex(0x000000);
      return;
    }
    var rgbValue := scanHex(cString);
    c := Rgba((rgbValue % 0x100_0000) / 0x1_0000, (rgbValue % 0x1_0000) / 0x100, rgbValue % 0x100, 1.0);
  }

  lemma TrimmedLowercase()
    ensures Trimmed("#ff8800") == "#ff8800"
  {
  }

  lemma UppercasedLowercase()
    ensures AsciiUppercased("#ff8800") == "#FF8800"
  {
    var u := AsciiUppercased("#ff8800");
    assert u[0] == '#' && u[1] == 'F' && u[2] == 'F' && u[3] == '8' && u[4] == '8' && u[5] == '0' && u[6] == '0';
  }

  /** "#ff8800" reads as "FF8800". */
  lemma LowercaseSpelling()
    ensures Normalised("#ff8800") == "FF8800"
  {
    TrimmedLowercase();
    UppercasedLowercase();
  }

  lemma TrimStartPadded()
    ensures TrimStart(" #FF8800\n") == "#FF8800\n"
  {
    var t := "#FF8800\n";
    assert t[0] == '#' && !IsWhitespaceOrNewline(t[0]);
    assert TrimStart(t) == t;
    var s := " " + t;
    assert s[0] == ' ' && s[1..] == t;
  }

  lemma TrimEndPadded()
    ensures TrimEnd("#FF8800\n") == "#FF8800"
  {
    assert "#FF8800\n"[..7] == "#FF8800";
    assert TrimEnd("#FF8800") == "#FF8800";
  }

  lemma TrimmedPadded()
    ensures Trimmed(" #FF8800\n") == "#FF8800"
  {
    TrimStartPadded();
    TrimEndPadded();
  }

  lemma UppercasedUppercase()
    ensures AsciiUppercased("#FF8800") == "#FF8800"
  {
    var u := AsciiUppercased("#FF8800");
    assert u[0] == '#' && u[1] == 'F' && u[2] == 'F' && u[3] == '8' && u[4] == '8' && u[5] == '0' && u[6] == '0';
  }

  /** " #FF8800\n" reads as "FF8800". */
  lemma PaddedSpelling()
    ensures Normalised(" #FF8800\n") == "FF8800"
  {
    TrimmedPadded();
    UppercasedUppercase();
  }

  lemma UppercasedPlain()
    ensures AsciiUppercased("FF8800") == "FF8800"
  {
    var u := AsciiUppercased("FF8800");
    assert u[0] == 'F' && u[1] == 'F' && u[2] == '8' && u[3] == '8' && u[4] == '0' && u[5] == '0';
  }

  lemma TrimmedPlain()
    ensures Trimmed("FF8800") == "FF8800"
  {
  }

  /** "FF8800" reads as itself, so all three spellings give the same channels, whatever the scanner does. */
  lemma PlainSpelling()
    ensures Normalised("FF8800") == "FF8800"
  {
    TrimmedPlain();
    UppercasedPlain();
  }

  /** The value of a string of hex digits, most significant first. */
  function HexValue(s: string): nat
    requires forall i :: 0 <= i < |s| ==> '0' <= s[i] <= '9' || 'A' <= s[i] <= 'F'
  {
    if s == [] then 0
    else
      HexValue(s[..|s| - 1]) * 16 + UpperDigitValue(s[|s| - 1])
  }

  function UpperDigitValue(c: char): (v: nat)
    requires '0' <= c <= '9' || 'A' <= c <= 'F'
    ensures v < 16
  {
    if c <= '9' then c as int - '0' as int else c as int - 'A' as int + 10
  }

  lemma TwoDigitsBelow256(s: string)
    requires |s| == 2 && forall i :: 0 <= i < |s| ==> '0' <= s[i] <= '9' || 'A' <= s[i] <= 'F'
    ensures HexValue(s) < 256
  {
    assert s[..1][..0] == [] && s[..1][0] == s[0];
    assert HexValue(s[..1]) == UpperDigitValue(s[0]);
  }

  /** The last two digits split off: the value of the rest, times 256, plus theirs. */
  lemma SplitLastTwo(s: string)
    requires |s| >= 2 && forall i :: 0 <= i < |s| ==> '0' <= s[i] <= '9' || 'A' <= s[i] <= 'F'
    ensures HexValue(s) == HexValue(s[..|s| - 2]) * 256 + HexValue(s[|s| - 2..])
  {
    var n := |s|;
    var t := s[n - 2..];
    assert s[..n - 1][..n - 2] == s[..n - 2];
    assert t[..1] == [s[n - 2]] && t[..1][..0] == [] && t[1] == s[n - 1];
  }

  /** Six digits are three pairs, most significant first, each below 256. */
  lemma SixDigitPairs(n: string)
    requires |n| == 6 && forall i :: 0 <= i < 6 ==> '0' <= n[i] <= '9' || 'A' <= n[i] <= 'F'
    ensures HexValue(n) == HexValue(n[..2]) * 0x1_0000 + HexValue(n[2..4]) * 0x100 + HexValue(n[4..])
    ensures HexValue(n[..2]) < 256 && HexValue(n[2..4]) < 256 && HexValue(n[4..]) < 256
  {
    SplitLastTwo(n);
    SplitLastTwo(n[..4]);
    assert n[..4][..2] == n[..2] && n[..4][2..] == n[2..4];
    TwoDigitsBelow256(n[..2]);
    TwoDigitsBelow256(n[2..4]);
    TwoDigitsBelow256(n[4..]);
  }

  /** With a scanner that reads six uppercase digits as their value, red is the first pair, and so on. */
  lemma SixDigitChannels(hexString: string, scanHex: string -> nat)
    requires var n := Normalised(hexString);
      |n| == 6 && (forall i :: 0 <= i < 6 ==> '0' <= n[i] <= '9' || 'A' <= n[i] <= 'F') && scanHex(n) == HexValue(n)
    ensures var n := Normalised(hexString);
      Masked(scanHex(n)) == Rgba(HexValue(n[..2]), HexValue(n[2..4]), HexValue(n[4..]), 1.0)
  {
    var n := Normalised(hexString);
    SixDigitPairs(n);
    MaskedChannels(HexValue(n[..2]), HexValue(n[2..4]), HexValue(n[4..]));
  }
}

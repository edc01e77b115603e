/**
 * The string helpers `firstUppercased` and `strippedHTML`. A string is its sequence of
 * characters; case mapping is Foundation's and is a parameter, `uppercase`, in
 * `firstUppercased`. Where a caller uppercases strings made of ASCII characters (colour
 * strings, log-level names), the ASCII mapping `AsciiUppercased` stands in for it.
 */
module Strings {
  import opened Seqs

  /** ASCII uppercasing of one character; any other character is left as it is. */
  function AsciiUpper(c: char): (r: char)
    ensures 'a' <= c <= 'z' ==> 'A' <= r <= 'Z' && r as int == c as int - 32
    ensures !('a' <= c <= 'z') ==> r == c
  {
    if 'a' <= c <= 'z' then (c as int - 32) as char else c
  }

  /** ASCII uppercasing of a string, character by character. */
  function AsciiUppercased(s: string): (r: string)
    ensures |r| == |s|
    ensures forall i :: 0 <= i < |s| ==> r[i] == AsciiUpper(s[i])
  {
    seq(|s|, i requires 0 <= i < |s| => AsciiUpper(s[i]))
  }

  /** `firstUppercased`: the first character uppercased, the rest as it was; "" stays "". */
  function FirstUppercased(s: string, uppercase: string -> string): (r: string)
    ensures s == [] ==> r == []
    ensures s != [] ==> |s| - 1 <= |r| && r[|r| - (|s| - 1)..] == s[1..]
    ensures s != [] ==> r[..|r| - (|s| - 1)] == uppercase(s[..1])
  {
    if s == [] then [] else uppercase(s[..1]) + s[1..]
  }

  /**
   * With a case mapping that turns one character into one and is stable on its own
   * output, uppercasing the first character twice is the same as once.
   */
  lemma FirstUppercasedIdempotent(s: string, uppercase: string -> string)
    requires forall c: char :: |uppercase([c])| == 1 && uppercase(uppercase([c])) == uppercase([c])
    ensures FirstUppercased(FirstUppercased(s, uppercase), uppercase) == FirstUppercased(s, uppercase)
  {
    if s != [] {
      var r := FirstUppercased(s, uppercase);
      assert s[..1] == [s[0]];
      var u := uppercase([s[0]]);
      assert |u| == 1 && u == [u[0]];
      assert r[..1] == u;
    }
  }

  // ---------------------------------------------------------------- strippedHTML

  /** The index of the first `c` in `s`. */
  function IndexOf(s: string, c: char): (r: nat)
    requires c in s
    ensures r < |s| && s[r] == c && c !in s[..r]
  {
    if s[0] == c then 0 else 1 + IndexOf(s[1..], c)
  }

  /**
   * A match of `<[^>]+>` starts at the head of `s`: a '<', then at least one character
   * other than '>', then a '>'.
   */
  predicate StartsWithTag(s: string)
  {
    |s| >= 3 && s[0] == '<' && s[1] != '>' && '>' in s[2..]
  }

  /** The length of that match: up to and including the first '>'. */
  function TagLength(s: string): (n: nat)
    requires StartsWithTag(s)
    ensures 3 <= n <= |s| && s[n - 1] == '>' && '>' !in s[1..n - 1]
  {
    assert s[1..][1..] == s[2..];
    2 + IndexOf(s[1..], '>')
  }

  /** `s` holds no match of `<[^>]+>` anywhere. */
  ghost predicate NoTag(s: string)
  {
    forall i :: 0 <= i < |s| ==> !StartsWithTag(s[i..])
  }

  /**
   * `strippedHTML`: every match of `<[^>]+>`, leftmost first and without overlap, removed.
   * The result keeps the other characters in order, is never longer, and holds no match.
   */
  function StrippedHtml(s: string): (r: string)
    ensures |r| <= |s|
    ensures forall c :: c in r ==> c in s
    ensures IsSubsequence(r, s)
    ensures NoTag(r)
    decreases |s|
  {
    if s == [] then []
    else if StartsWithTag(s) then
      var n := TagLength(s);
      var r := StrippedHtml(s[n..]);
      SubsequenceOfSuffix(r, s, n);
      r
    else
      var rest := StrippedHtml(s[1..]);
      var r := [s[0]] + rest;
      assert r[0] == s[0] && r[1..] == rest;
      KeptHeadNoTag(s, rest);
      r
  }

  /**
   * The character kept at the head does not start a match: a '<' kept is followed either
   * by a '>', which is kept as well, or by no '>' at all.
   */
  lemma KeptHeadNoTag(s: string, rest: string)
    requires s != [] && !StartsWithTag(s)
    requires |rest| <= |s| - 1 && (forall c :: c in rest ==> c in s[1..]) && NoTag(rest)
    requires |s| >= 2 && s[1] == '>' ==> rest != [] && rest[0] == '>'
    ensures NoTag([s[0]] + rest)
  {
    var r := [s[0]] + rest;
    forall i | 0 <= i < |r|
      ensures !StartsWithTag(r[i..])
    {
      if i > 0 {
        assert r[i..] == rest[i - 1..];
      } else if s[0] != '<' || |s| < 3 {
        assert r[0] == s[0] && |r| <= |s|;
      } else if s[1] == '>' {
        assert r[1] == '>';
      } else {
        assert s[1..] == [s[1]] + s[2..];
        assert '>' !in rest;
        if |r| >= 3 {
          assert r[2..] == rest[1..];
        }
      }
    }
  }

  /** A string that holds no match comes back unchanged. */
  lemma {:induction false} NoTagUnchanged(s: string)
    requires NoTag(s)
    ensures StrippedHtml(s) == s
    decreases |s|
  {
    if s != [] {
      assert !StartsWithTag(s[0..]) && s[0..] == s;
      forall i | 0 <= i < |s[1..]|
        ensures !StartsWithTag(s[1..][i..])
      {
        assert s[1..][i..] == s[i + 1..];
      }
      NoTagUnchanged(s[1..]);
    }
  }

  /** Stripping twice is stripping once. */
  lemma StrippedHtmlIdempotent(s: string)
    ensures StrippedHtml(StrippedHtml(s)) == StrippedHtml(s)
  {
    NoTagUnchanged(StrippedHtml(s));
  }

  /** A string without '<' holds no match and comes back unchanged. */
  lemma NoOpenBracketUnchanged(s: string)
    requires '<' !in s
    ensures StrippedHtml(s) == s
  {
    forall i | 0 <= i < |s|
      ensures !StartsWithTag(s[i..])
    {
      assert s[i..][0] == s[i];
    }
    NoTagUnchanged(s);
  }

  /** "<>" is kept, since the pattern needs a character between the brackets. */
  lemma EmptyBracketsKept()
    ensures StrippedHtml("<>") == "<>"
  {
    assert !StartsWithTag("<>") && !StartsWithTag(">");
    assert "<>"[1..] == ">" && ">"[1..] == [];
  }

  /** A closing tag is one match, and goes. */
  lemma ClosingTagRemoved()
    ensures StrippedHtml("</b>") == ""
  {
    assert StartsWithTag("</b>") && TagLength("</b>") == 4;
  }

  /** "<b>x</b>": both tags go, the text stays. */
  lemma BoldCase()
    ensures StrippedHtml("<b>x</b>") == "x"
  {
    var s := "<b>x</b>";
    assert StartsWithTag(s) && TagLength(s) == 3;
    assert s[3..] == "x</b>" && !StartsWithTag("x</b>") && "x</b>"[1..] == "</b>";
    ClosingTagRemoved();
  }
}

/** The character and string operations the scoring rules rely on: lowercasing a
    character, testing it against the alphanumeric alphabet, and stripping space
    characters from both ends of a string. */
module Text {

  /** The alphabet a lowercased retailer character is looked up in. */
  const Alphanumeric: string := "abcdefghijklmnopqrstuvwxyz1234567890"

  /** Lowercasing, restricted to ASCII: 'A'..'Z' become 'a'..'z', all else is unchanged. */
  function Lower(c: char): (l: char)
    ensures !('A' <= l <= 'Z')
    ensures 'A' <= c <= 'Z' ==> l as int - 'a' as int == c as int - 'A' as int
    ensures !('A' <= c <= 'Z') ==> l == c
  {
    if 'A' <= c <= 'Z' then (c as int - 'A' as int + 'a' as int) as char else c
  }

  /** An ASCII letter of either case or an ASCII digit. */
  predicate IsAsciiAlphanumeric(c: char) {
    'a' <= c <= 'z' || 'A' <= c <= 'Z' || '0' <= c <= '9'
  }

  /** Every lower-case ASCII letter and every ASCII digit is in the alphabet. */
  lemma AlphabetHasLettersAndDigits(c: char)
    requires 'a' <= c <= 'z' || '0' <= c <= '9'
    ensures c in Alphanumeric
  {
    if 'a' <= c <= 'z' {
      assert Alphanumeric[c as int - 'a' as int] == c;
    } else if c == '0' {
      assert Alphanumeric[35] == c;
    } else {
      assert Alphanumeric[c as int - '1' as int + 26] == c;
    }
  }

  /** Nothing but lower-case ASCII letters and ASCII digits is in the alphabet. */
  lemma AlphabetHasNothingElse(c: char)
    requires c in Alphanumeric
    ensures 'a' <= c <= 'z' || '0' <= c <= '9'
  {
    var i :| 0 <= i < |Alphanumeric| && Alphanumeric[i] == c;
  }

  /** The alphabet holds exactly the lower-case ASCII letters and the ASCII digits. */
  lemma AlphabetMembers(c: char)
    ensures c in Alphanumeric <==> 'a' <= c <= 'z' || '0' <= c <= '9'
  {
    if 'a' <= c <= 'z' || '0' <= c <= '9' {
      AlphabetHasLettersAndDigits(c);
    }
    if c in Alphanumeric {
      AlphabetHasNothingElse(c);
    }
  }

  /** The retailer rule's test, lowercase the character and look it up in the
      alphabet, accepts exactly the ASCII letters of either case and the ASCII digits. */
  method LookUpLowered(c: char) returns (found: bool)
    ensures found <==> IsAsciiAlphanumeric(c)
  {
    var l := Lower(c);
    AlphabetMembers(l);
    found := l in Alphanumeric;
  }

  /** Strips leading spaces (only the character ' ', not other whitespace). */
  function StripLeft(s: string): string {
    if s != [] && s[0] == ' ' then StripLeft(s[1..]) else s
  }

  /** Strips trailing spaces (only the character ' ', not other whitespace). */
  function StripRight(s: string): string {
    if s != [] && s[|s| - 1] == ' ' then StripRight(s[..|s| - 1]) else s
  }

  /** Strips spaces from both ends: the result is no longer than `s`, neither starts
      nor ends with a space, and a string that already does neither is left as it is. */
  function Strip(s: string): (t: string)
    ensures |t| <= |s|
    ensures t == [] || (t[0] != ' ' && t[|t| - 1] != ' ')
    ensures (s == [] || (s[0] != ' ' && s[|s| - 1] != ' ')) ==> t == s
  {
    StripLeftRemovesLeadingSpaces(s);
    StripRightRemovesTrailingSpaces(StripLeft(s));
    StripRight(StripLeft(s))
  }

  /** The number of spaces that begin `s`. */
  ghost function LeadingSpaces(s: string): nat {
    StripLeftRemovesLeadingSpaces(s);
    |s| - |StripLeft(s)|
  }

  /** Stripping the front leaves a suffix of `s` that does not start with a space,
      and everything removed was a space. */
  lemma {:induction false} StripLeftRemovesLeadingSpaces(s: string)
    ensures |StripLeft(s)| <= |s| && StripLeft(s) == s[|s| - |StripLeft(s)|..]
    ensures forall i :: 0 <= i < |s| - |StripLeft(s)| ==> s[i] == ' '
    ensures StripLeft(s) == [] || StripLeft(s)[0] != ' '
  {
    if s != [] && s[0] == ' ' {
      var rest := s[1..];
      StripLeftRemovesLeadingSpaces(rest);
      var t := StripLeft(rest);
      assert StripLeft(s) == t;
      assert rest[|rest| - |t|..] == s[|s| - |t|..];
      forall i | 1 <= i < |s| - |t| ensures s[i] == ' ' {
        assert s[i] == rest[i - 1];
      }
    } else {
      assert StripLeft(s) == s;
      assert s[0..] == s;
    }
  }

  /** Stripping the back leaves a prefix of `s` that does not end with a space,
      and everything removed was a space. */
  lemma {:induction false} StripRightRemovesTrailingSpaces(s: string)
    ensures |StripRight(s)| <= |s| && StripRight(s) == s[..|StripRight(s)|]
    ensures forall i :: |StripRight(s)| <= i < |s| ==> s[i] == ' '
    ensures StripRight(s) == [] || StripRight(s)[|StripRight(s)| - 1] != ' '
  {
    if s != [] && s[|s| - 1] == ' ' {
      var rest := s[..|s| - 1];
      StripRightRemovesTrailingSpaces(rest);
      var t := StripRight(rest);
      assert StripRight(s) == t;
      assert rest[..|t|] == s[..|t|];
      forall i | |t| <= i < |s| - 1 ensures s[i] == ' ' {
        assert s[i] == rest[i];
      }
    } else {
      assert StripRight(s) == s;
      assert s[..|s|] == s;
    }
  }

  /** Stripping both ends leaves the slice of `s` that starts after its leading
      spaces; everything before and after that slice is a space, and the slice
      neither starts nor ends with one. */
  lemma StripRemovesSpacesAtBothEnds(s: string)
    ensures LeadingSpaces(s) + |Strip(s)| <= |s|
    ensures Strip(s) == s[LeadingSpaces(s)..LeadingSpaces(s) + |Strip(s)|]
    ensures forall i :: 0 <= i < LeadingSpaces(s) ==> s[i] == ' '
    ensures forall i :: LeadingSpaces(s) + |Strip(s)| <= i < |s| ==> s[i] == ' '
    ensures Strip(s) == [] || (Strip(s)[0] != ' ' && Strip(s)[|Strip(s)| - 1] != ' ')
  {
    StripLeftRemovesLeadingSpaces(s);
    StripRightRemovesTrailingSpaces(StripLeft(s));
  }

  /** A string of spaces only (the empty string included) strips to nothing. */
  lemma StripAllSpaces(s: string)
    requires forall i :: 0 <= i < |s| ==> s[i] == ' '
    ensures Strip(s) == []
  {
    StripRemovesSpacesAtBothEnds(s);
  }

  /** Stripping the front removes exactly a run of leading spaces. */
  lemma {:induction false} StripLeftPadded(pad: string, rest: string)
    requires forall i :: 0 <= i < |pad| ==> pad[i] == ' '
    requires rest == [] || rest[0] != ' '
    ensures StripLeft(pad + rest) == rest
  {
    if pad == [] {
      assert pad + rest == rest;
    } else {
      assert (pad + rest)[1..] == pad[1..] + rest;
      StripLeftPadded(pad[1..], rest);
    }
  }

  /** Stripping the back removes exactly a run of trailing spaces. */
  lemma {:induction false} StripRightPadded(rest: string, pad: string)
    requires forall i :: 0 <= i < |pad| ==> pad[i] == ' '
    requires rest == [] || rest[|rest| - 1] != ' '
    ensures StripRight(rest + pad) == rest
  {
    if pad == [] {
      assert rest + pad == rest;
    } else {
      var shorter := pad[..|pad| - 1];
      assert (rest + pad)[..|rest + pad| - 1] == rest + shorter;
      StripRightPadded(rest, shorter);
    }
  }

  /** Stripping recovers any text that neither starts nor ends with a space from
      the spaces padded around it. */
  lemma StripPadded(before: string, text: string, after: string)
    requires forall i :: 0 <= i < |before| ==> before[i] == ' '
    requires forall i :: 0 <= i < |after| ==> after[i] == ' '
    requires text != [] && text[0] != ' ' && text[|text| - 1] != ' '
    ensures Strip(before + text + after) == text
  {
    assert before + text + after == before + (text + after);
    StripLeftPadded(before, text + after);
    StripRightPadded(text, after);
  }
}

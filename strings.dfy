/** The two Python string methods the analyzer uses, `str.upper` and
    `str.capitalize`, restricted to the ASCII letters: every other character
    is left as it is. */
module Strings {

  predicate IsAsciiLower(c: char) { 'a' <= c <= 'z' }

  predicate IsAsciiUpper(c: char) { 'A' <= c <= 'Z' }

  /** `c` and `d` are the same character, or the same ASCII letter in the
      other case. */
  predicate SameIgnoringCase(c: char, d: char) {
    || c == d
    || (IsAsciiLower(c) && d as int == c as int - 32)
    || (IsAsciiUpper(c) && d as int == c as int + 32)
  }

  function UpperChar(c: char): (d: char)
    ensures !IsAsciiLower(d) && SameIgnoringCase(c, d)
  {
    if IsAsciiLower(c) then (c as int - 32) as char else c
  }

  function LowerChar(c: char): (d: char)
    ensures !IsAsciiUpper(d) && SameIgnoringCase(c, d)
  {
    if IsAsciiUpper(c) then (c as int + 32) as char else c
  }

  /** `s.upper()`. */
  function Upper(s: string): (r: string)
    ensures |r| == |s|
  {
    seq(|s|, i requires 0 <= i < |s| => UpperChar(s[i]))
  }

  /** `s.lower()`. */
  function Lower(s: string): (r: string)
    ensures |r| == |s|
  {
    seq(|s|, i requires 0 <= i < |s| => LowerChar(s[i]))
  }

  /** `s.capitalize()`. */
  function Capitalize(s: string): (r: string)
    ensures |r| == |s|
  {
    if s == [] then [] else [UpperChar(s[0])] + Lower(s[1..])
  }

  /** `s.upper()` has the letters of `s`, none of them lower case. */
  lemma UpperLetters(s: string)
    ensures forall i :: 0 <= i < |s| ==> !IsAsciiLower(Upper(s)[i]) && SameIgnoringCase(s[i], Upper(s)[i])
  {
  }

  /** `s.capitalize()` has the letters of `s`, the first not lower case and
      the others not upper case. */
  lemma CapitalizeLetters(s: string)
    ensures |s| > 0 ==> !IsAsciiLower(Capitalize(s)[0]) && SameIgnoringCase(s[0], Capitalize(s)[0])
    ensures forall i :: 0 < i < |s| ==> !IsAsciiUpper(Capitalize(s)[i]) && SameIgnoringCase(s[i], Capitalize(s)[i])
  {
    if s != [] {
      assert forall i :: 0 < i < |s| ==> Capitalize(s)[i] == Lower(s[1..])[i - 1];
    }
  }

  /** Two strings that differ only in the case of ASCII letters have the same
      upper-case form. */
  lemma UpperIgnoresCase(a: string, b: string)
    requires |a| == |b|
    requires forall i :: 0 <= i < |a| ==> SameIgnoringCase(a[i], b[i])
    ensures Upper(a) == Upper(b)
  {
    forall i | 0 <= i < |a| ensures Upper(a)[i] == Upper(b)[i] {
      assert SameIgnoringCase(a[i], b[i]);
    }
  }

  /** Capitalizing does not depend on the case the string was written in. */
  lemma CapitalizeOfUpper(s: string)
    ensures Capitalize(Upper(s)) == Capitalize(s)
  {
    if s != [] {
      var u := Upper(s);
      assert Lower(u[1..]) == Lower(s[1..]) by {
        forall i | 0 <= i < |s| - 1 ensures Lower(u[1..])[i] == Lower(s[1..])[i] {
          assert u[1..][i] == UpperChar(s[i + 1]);
        }
      }
    }
  }
}

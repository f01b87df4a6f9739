/**
 * `String.capitalizingFirstLetter()`: the first character capitalized, the
 * rest as it was. Letters are ASCII here: `capitalized` maps a-z to A-Z and
 * leaves every other character alone.
 */
module StringExtensions {

  predicate IsAsciiLower(c: char) {
    'a' <= c <= 'z'
  }

  /** `capitalized` on a one-character string, ASCII letters only. */
  function UpperAscii(c: char): (u: char)
    ensures !IsAsciiLower(u)
    ensures IsAsciiLower(c) ==> 'A' <= u <= 'Z' && (u as int) + 32 == c as int
    ensures !IsAsciiLower(c) ==> u == c
  {
    if IsAsciiLower(c) then ((c as int) - 32) as char else c
  }

  /** Lower case of an ASCII letter, the character itself otherwise. */
  function LowerAscii(c: char): char {
    if 'A' <= c <= 'Z' then ((c as int) + 32) as char else c
  }

  /** Two strings that differ at most in letter case. */
  predicate EqualIgnoringCase(a: string, b: string) {
    |a| == |b| && forall i :: 0 <= i < |a| ==> LowerAscii(a[i]) == LowerAscii(b[i])
  }

  /** `prefix(1).capitalized + dropFirst()`. */
  function CapitalizingFirstLetter(s: string): (r: string)
    ensures s == [] ==> r == []
    ensures |r| == |s|
    ensures r != [] ==> !IsAsciiLower(r[0]) && r[1..] == s[1..]
    ensures EqualIgnoringCase(r, s)
  {
    if s == [] then [] else [UpperAscii(s[0])] + s[1..]
  }

  /** Capitalizing an already capitalized string changes nothing. */
  lemma CapitalizingIsIdempotent(s: string)
    ensures CapitalizingFirstLetter(CapitalizingFirstLetter(s)) == CapitalizingFirstLetter(s)
  {
  }
}

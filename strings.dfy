/** Character and string helpers used by the argument binder and the argument reader.
    Strings are sequences of characters; ASCII case mapping is exact, while
    `IsAsciiLowercase` and `IsNumeric` cover the ASCII range only. */
module Strings {

  /** `s` begins with `prefix`. */
  predicate StartsWith(s: string, prefix: string) {
    |prefix| <= |s| && s[..|prefix|] == prefix
  }

  /** Every occurrence of the character `from` in `s` replaced by `to`. */
  function ReplaceChar(s: string, from: char, to: char): (r: string)
    ensures |r| == |s|
    ensures forall i :: 0 <= i < |s| ==> r[i] == (if s[i] == from then to else s[i])
  {
    if |s| == 0 then []
    else ReplaceChar(s[..|s| - 1], from, to) + [if s[|s| - 1] == from then to else s[|s| - 1]]
  }

  /** Replacing `a` by `b` and then `b` by `a` gives back any string that had no `b`. */
  lemma ReplaceCharRoundTrip(s: string, a: char, b: char)
    requires b !in s
    ensures ReplaceChar(ReplaceChar(s, a, b), b, a) == s
  {
    var once := ReplaceChar(s, a, b);
    var twice := ReplaceChar(once, b, a);
    assert forall i :: 0 <= i < |s| ==> twice[i] == s[i] by {
      forall i | 0 <= i < |s| ensures twice[i] == s[i] {
        assert s[i] != b by { assert s[i] in s; }
      }
    }
  }

  /** The ASCII upper-case letter `c` as lower case; any other character unchanged. */
  function AsciiLower(c: char): (r: char)
    ensures 'A' <= c <= 'Z' ==> 'a' <= r <= 'z' && r as int - c as int == 32
    ensures !('A' <= c <= 'Z') ==> r == c
  {
    if 'A' <= c <= 'Z' then (c as int + 32) as char else c
  }

  /** The ASCII lower-case letter `c` as upper case; any other character unchanged. */
  function AsciiUpper(c: char): (r: char)
    ensures 'a' <= c <= 'z' ==> 'A' <= r <= 'Z' && c as int - r as int == 32
    ensures !('a' <= c <= 'z') ==> r == c
  {
    if 'a' <= c <= 'z' then (c as int - 32) as char else c
  }

  predicate IsAsciiLowercase(c: char) {
    'a' <= c <= 'z'
  }

  predicate IsDigit(c: char) {
    '0' <= c <= '9'
  }

  /** Every character of `s` is a digit; holds of the empty string. */
  predicate IsNumeric(s: string) {
    forall i :: 0 <= i < |s| ==> IsDigit(s[i])
  }
}

/**
 * `String.Equals(a, b, StringComparison.OrdinalIgnoreCase)`: code-unit-wise
 * equality after mapping every character to upper case. Only the ASCII
 * letters are case-mapped here.
 */
module IgnoreCase {

  /** Upper-case mapping of one character (ASCII letters only). */
  function ToUpper(c: char): char {
    if 'a' <= c <= 'z' then (c as int - 32) as char else c
  }

  /** The upper-cased copy of s. */
  function UpperString(s: string): (u: string)
    ensures |u| == |s|
    ensures forall i :: 0 <= i < |s| ==> u[i] == ToUpper(s[i])
  {
    if |s| == 0 then [] else [ToUpper(s[0])] + UpperString(s[1..])
  }

  /** Ordinal case-insensitive equality of two strings. */
  predicate EqualsIgnoreCase(a: string, b: string) {
    |a| == |b| && forall i :: 0 <= i < |a| ==> ToUpper(a[i]) == ToUpper(b[i])
  }

  /** Two strings are equal ignoring case exactly when their upper-cased copies are equal. */
  lemma EqualsIgnoreCaseIffSameUpper(a: string, b: string)
    ensures EqualsIgnoreCase(a, b) <==> UpperString(a) == UpperString(b)
  {
    if UpperString(a) == UpperString(b) {
      forall i | 0 <= i < |a| ensures ToUpper(a[i]) == ToUpper(b[i]) {
        assert UpperString(a)[i] == UpperString(b)[i];
      }
    }
  }
}

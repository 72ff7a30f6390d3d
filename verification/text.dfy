/**
 * The .NET string operations the classifier script relies on, stated over
 * `string` (= `seq<char>`): `String.Trim`, `String.IndexOf(char)`,
 * `String.StartsWith` and `String.Split` (with and without
 * `RemoveEmptyEntries`).
 */
module Text {

  /** `Char.IsWhiteSpace`: the characters `String.Trim()` strips. */
  predicate IsWhiteSpace(c: char) {
    || c == ' '
    || ('\t' <= c <= '\r')        // tab, line feed, vertical tab, form feed, carriage return
    || c == '\U{85}' || c == '\U{A0}' || c == '\U{1680}'
    || ('\U{2000}' <= c <= '\U{200A}')
    || c == '\U{2028}' || c == '\U{2029}' || c == '\U{202F}' || c == '\U{205F}' || c == '\U{3000}'
  }

  predicate AllWhiteSpace(s: string) {
    forall i :: 0 <= i < |s| ==> IsWhiteSpace(s[i])
  }

  /** True when s neither begins nor ends with white space. */
  predicate IsTrimmed(s: string) {
    |s| == 0 || (!IsWhiteSpace(s[0]) && !IsWhiteSpace(s[|s| - 1]))
  }

  /** Length of the longest all-white-space prefix of s. */
  function LeadingWhiteSpace(s: string): (k: nat)
    ensures k <= |s|
    ensures forall i :: 0 <= i < k ==> IsWhiteSpace(s[i])
    ensures k < |s| ==> !IsWhiteSpace(s[k])
  {
    if |s| == 0 || !IsWhiteSpace(s[0]) then 0 else 1 + LeadingWhiteSpace(s[1..])
  }

  /** Length of the longest all-white-space suffix of s. */
  function TrailingWhiteSpace(s: string): (k: nat)
    ensures k <= |s|
    ensures forall i :: |s| - k <= i < |s| ==> IsWhiteSpace(s[i])
    ensures k < |s| ==> !IsWhiteSpace(s[|s| - k - 1])
  {
    if |s| == 0 || !IsWhiteSpace(s[|s| - 1]) then 0 else 1 + TrailingWhiteSpace(s[..|s| - 1])
  }

  /**
   * `String.Trim()`: s without its leading and its trailing white space.
   * TrimIsSlice states which slice of s this is.
   */
  function Trim(s: string): (r: string)
    ensures IsTrimmed(r)
    ensures |r| <= |s|
  {
    var i := LeadingWhiteSpace(s);
    var j := |s| - TrailingWhiteSpace(s[i..]);
    s[i..j]
  }

  /** `Trim(s)` is the slice of s between an all-white-space prefix and an all-white-space suffix. */
  lemma TrimIsSlice(s: string)
    ensures exists i, j :: 0 <= i <= j <= |s| && Trim(s) == s[i..j] && AllWhiteSpace(s[..i]) && AllWhiteSpace(s[j..])
  {
    var i := LeadingWhiteSpace(s);
    var j := |s| - TrailingWhiteSpace(s[i..]);
    assert Trim(s) == s[i..j];
    assert AllWhiteSpace(s[..i]) by {
      forall k | 0 <= k < i ensures IsWhiteSpace(s[..i][k]) {
        assert s[..i][k] == s[k];
      }
    }
    assert AllWhiteSpace(s[j..]) by {
      forall k | 0 <= k < |s| - j ensures IsWhiteSpace(s[j..][k]) {
        assert s[j..][k] == s[i..][j - i + k];
      }
    }
  }

  /** Every character of `Trim(s)` is a character of s. */
  lemma TrimSubset(s: string)
    ensures forall c :: c in Trim(s) ==> c in s
  {
    TrimIsSlice(s);
    var i, j :| 0 <= i <= j <= |s| && Trim(s) == s[i..j];
    forall c | c in Trim(s) ensures c in s {
      var k :| 0 <= k < |Trim(s)| && Trim(s)[k] == c;
      assert s[i + k] == c;
    }
  }

  /** A string that is already trimmed is left as it is. */
  lemma {:induction false} TrimOfTrimmed(s: string)
    requires IsTrimmed(s)
    ensures Trim(s) == s
  {
    if |s| > 0 {
      assert LeadingWhiteSpace(s) == 0;
      assert TrailingWhiteSpace(s) == 0;
    }
  }

  /** A string made only of white space trims to the empty string. */
  lemma TrimAllWhiteSpace(s: string)
    requires AllWhiteSpace(s)
    ensures Trim(s) == []
  {
    TrimIsSlice(s);
  }

  /**
   * Trim removes exactly the surrounding white space: a trimmed, non-empty s
   * padded with white space on both sides trims back to s.
   */
  lemma TrimAround(pre: string, s: string, post: string)
    requires AllWhiteSpace(pre) && AllWhiteSpace(post)
    requires s != [] && IsTrimmed(s)
    ensures Trim(pre + s + post) == s
  {
    var t := pre + s + post;
    var i := LeadingWhiteSpace(t);
    assert t[|pre|] == s[0];
    assert i == |pre|;
    var u := t[i..];
    assert u == s + post;
    var k := TrailingWhiteSpace(u);
    assert u[|s| - 1] == s[|s| - 1];
    assert k == |post|;
    assert t[i..|t| - k] == s;
  }

  /**
   * `String.IndexOf(char)`: the position of the first occurrence of c in s,
   * or -1 when c does not occur.
   */
  function IndexOf(s: string, c: char): (r: int)
    ensures -1 <= r < |s|
    ensures r == -1 <==> c !in s
    ensures r >= 0 ==> s[r] == c && c !in s[..r]
  {
    if |s| == 0 then -1
    else if s[0] == c then 0
    else
      var k := IndexOf(s[1..], c);
      if k == -1 then -1
      else
        assert s[..k + 1] == [s[0]] + s[1..][..k];
        k + 1
  }

  /** The first c in x + y is the one that starts y when x holds no c. */
  lemma IndexOfAfter(x: string, y: string, c: char)
    requires c !in x && |y| > 0 && y[0] == c
    ensures IndexOf(x + y, c) == |x|
  {
    var s := x + y;
    var p := IndexOf(s, c);
    assert s[|x|] == c;
    assert s[..|x|] == x;
  }

  /** `String.StartsWith` with an ordinal comparison. */
  predicate StartsWith(s: string, prefix: string) {
    |prefix| <= |s| && forall i :: 0 <= i < |prefix| ==> s[i] == prefix[i]
  }

  /** True when no character of s is in seps. */
  predicate NoneOf(s: string, seps: set<char>) {
    forall i :: 0 <= i < |s| ==> s[i] !in seps
  }

  /** The separator characters of s, in order. */
  function Separators(s: string, seps: set<char>): (d: string)
    ensures |d| <= |s|
    ensures forall i :: 0 <= i < |d| ==> d[i] in seps
  {
    if |s| == 0 then []
    else if s[0] in seps then [s[0]] + Separators(s[1..], seps)
    else Separators(s[1..], seps)
  }

  /** pieces[0] + delims[0] + pieces[1] + ... + delims[n-1] + pieces[n]. */
  function Interleave(pieces: seq<string>, delims: string): string
    requires |pieces| == |delims| + 1
    decreases |delims|
  {
    if |delims| == 0 then pieces[0]
    else pieces[0] + [delims[0]] + Interleave(pieces[1..], delims[1..])
  }

  /**
   * `String.Split(seps)` without options: the maximal separator-free pieces of s,
   * keeping empty pieces; there is always one more piece than separators.
   */
  function Split(s: string, seps: set<char>): (r: seq<string>)
    ensures |r| == |Separators(s, seps)| + 1
    ensures forall k :: 0 <= k < |r| ==> NoneOf(r[k], seps)
  {
    if |s| == 0 then [[]]
    else
      var rest := Split(s[1..], seps);
      if s[0] in seps then [[]] + rest else [[s[0]] + rest[0]] + rest[1..]
  }

  /** Split's round trip: putting the separators back between the pieces restores s. */
  lemma {:induction false} InterleaveSplit(s: string, seps: set<char>)
    ensures Interleave(Split(s, seps), Separators(s, seps)) == s
    decreases |s|
  {
    if |s| > 0 {
      InterleaveSplit(s[1..], seps);
      if s[0] !in seps {
        InterleaveExtendFirst(Split(s[1..], seps), Separators(s[1..], seps), s[0]);
      }
    }
  }

  lemma InterleaveExtendFirst(p: seq<string>, d: string, c: char)
    requires |p| == |d| + 1
    ensures Interleave([[c] + p[0]] + p[1..], d) == [c] + Interleave(p, d)
  {
    var q := [[c] + p[0]] + p[1..];
    assert q[1..] == p[1..];
  }

  /** Splitting a string that starts with a separator-free prefix x. */
  lemma {:induction false} SplitAfterPlainPrefix(x: string, y: string, seps: set<char>)
    requires NoneOf(x, seps)
    ensures Split(x + y, seps) == [x + Split(y, seps)[0]] + Split(y, seps)[1..]
    ensures Separators(x + y, seps) == Separators(y, seps)
    decreases |x|
  {
    if |x| > 0 {
      assert (x + y)[1..] == x[1..] + y;
      SplitAfterPlainPrefix(x[1..], y, seps);
      assert [x[0]] + (x[1..] + Split(y, seps)[0]) == x + Split(y, seps)[0];
    } else {
      var r := Split(y, seps);
      assert x + y == y;
      assert x + r[0] == r[0];
      assert [r[0]] + r[1..] == r;
    }
  }

  /**
   * The inverse direction of Split's round trip: interleaving separator-free
   * pieces with separators and splitting again gives back the pieces.
   */
  lemma {:induction false} SplitInterleave(p: seq<string>, d: string, seps: set<char>)
    requires |p| == |d| + 1
    requires forall k :: 0 <= k < |p| ==> NoneOf(p[k], seps)
    requires forall i :: 0 <= i < |d| ==> d[i] in seps
    ensures Split(Interleave(p, d), seps) == p
    ensures Separators(Interleave(p, d), seps) == d
    decreases |d|
  {
    if |d| == 0 {
      SplitAfterPlainPrefix(p[0], [], seps);
      assert p[0] + [] == p[0];
    } else {
      var tail := Interleave(p[1..], d[1..]);
      SplitInterleave(p[1..], d[1..], seps);
      var y := [d[0]] + tail;
      assert y[1..] == tail;
      assert Interleave(p, d) == p[0] + y;
      SplitAfterPlainPrefix(p[0], y, seps);
      assert Split(y, seps) == [[]] + p[1..];
      assert p[0] + [] == p[0];
      assert [p[0]] + p[1..] == p;
    }
  }

  /** `StringSplitOptions.RemoveEmptyEntries`: the non-empty pieces, in order. */
  function RemoveEmpty(pieces: seq<string>): (r: seq<string>)
    ensures |r| <= |pieces|
    ensures forall k :: 0 <= k < |r| ==> r[k] != []
    ensures forall x :: x in r <==> x in pieces && x != []
  {
    if |pieces| == 0 then []
    else if pieces[0] == [] then RemoveEmpty(pieces[1..])
    else [pieces[0]] + RemoveEmpty(pieces[1..])
  }

  /** Removing empties distributes over concatenation, so the order of pieces is kept. */
  lemma {:induction false} RemoveEmptyAppend(a: seq<string>, b: seq<string>)
    ensures RemoveEmpty(a + b) == RemoveEmpty(a) + RemoveEmpty(b)
    decreases |a|
  {
    if |a| > 0 {
      assert (a + b)[1..] == a[1..] + b;
      RemoveEmptyAppend(a[1..], b);
    } else {
      assert a + b == b;
    }
  }
}

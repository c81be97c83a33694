/** The string helpers of the JDK and of commons-lang `StringUtils` that the plugin
    relies on, over `string` (a sequence of Unicode scalar values, where Java has UTF-16
    code units). */
module Text {
  import opened Wrappers

  /** `Character.isWhitespace` for one character: the space, line and paragraph
      separators except the non-breaking ones, and the controls \t \n \u000B \f \r
      and \u001C to \u001F. */
  predicate IsWhitespace(c: char) {
    var n := c as int;
    (0x09 <= n <= 0x0D) || (0x1C <= n <= 0x20) || n == 0x1680
    || (0x2000 <= n <= 0x2006) || (0x2008 <= n <= 0x200A)
    || n == 0x2028 || n == 0x2029 || n == 0x205F || n == 0x3000
  }

  /** `StringUtils.isBlank`: null, empty, or whitespace only. */
  predicate IsBlank(s: Option<string>) {
    s.None? || forall i :: 0 <= i < |s.value| ==> IsWhitespace(s.value[i])
  }

  /** The code units `String.trim` removes: everything up to and including U+0020. */
  predicate IsTrimmed(c: char) {
    c <= ' '
  }

  function TrimStart(s: string): (r: string)
    ensures |r| <= |s| && r == s[|s| - |r|..]
    ensures forall i :: 0 <= i < |s| - |r| ==> IsTrimmed(s[i])
    ensures r != [] ==> !IsTrimmed(r[0])
  {
    if s != [] && IsTrimmed(s[0]) then TrimStart(s[1..]) else s
  }

  function TrimEnd(s: string): (r: string)
    ensures |r| <= |s| && r == s[..|r|]
    ensures forall i :: |r| <= i < |s| ==> IsTrimmed(s[i])
    ensures r != [] ==> !IsTrimmed(r[|r| - 1])
  {
    if s != [] && IsTrimmed(s[|s| - 1]) then TrimEnd(s[..|s| - 1]) else s
  }

  /** `StringUtils.trim` (that is, `String.trim`) of a non-null string. */
  function Trim(s: string): (r: string)
    ensures r != [] ==> !IsTrimmed(r[0]) && !IsTrimmed(r[|r| - 1])
  {
    TrimEnd(TrimStart(s))
  }

  /** Trim removes exactly a run of trimmable code units at either end. */
  lemma TrimIsInnerSlice(s: string)
    ensures exists i, j :: 0 <= i <= j <= |s| && Trim(s) == s[i..j]
                           && (forall k :: 0 <= k < i ==> IsTrimmed(s[k]))
                           && (forall k :: j <= k < |s| ==> IsTrimmed(s[k]))
  {
    var t := TrimStart(s);
    var i := |s| - |t|;
    var j := i + |TrimEnd(t)|;
    assert Trim(s) == s[i..j];
    assert forall k :: j <= k < |s| ==> s[k] == t[k - i];
  }

  lemma TrimIdempotent(s: string)
    ensures Trim(Trim(s)) == Trim(s)
  {
    var t := Trim(s);
    if t != [] {
      assert TrimStart(t) == t;
      assert TrimEnd(t) == t;
    }
  }

  /** `Character.toLowerCase` restricted to ASCII letters. */
  function LowerChar(c: char): (r: char)
    ensures r < 'A' || 'Z' < r
    ensures !('A' <= c <= 'Z') ==> r == c
  {
    if 'A' <= c <= 'Z' then (c as int + 32) as char else c
  }

  /** `String.toLowerCase` over the ASCII letters. */
  function Lower(s: string): (r: string)
    ensures |r| == |s|
    ensures forall i :: 0 <= i < |s| ==> r[i] == LowerChar(s[i])
  {
    if s == [] then [] else [LowerChar(s[0])] + Lower(s[1..])
  }

  /** A string without upper-case ASCII letters is its own lower-case form. */
  lemma LowerKeepsNonCapitals(s: string)
    requires forall i :: 0 <= i < |s| ==> !('A' <= s[i] <= 'Z')
    ensures Lower(s) == s
  {
    assert forall i :: 0 <= i < |s| ==> Lower(s)[i] == s[i];
  }

  /** `String.endsWith`: case-sensitive suffix test. */
  predicate EndsWith(s: string, suffix: string) {
    |suffix| <= |s| && s[|s| - |suffix|..] == suffix
  }

  /** `StringUtils.endsWithIgnoreCase` over the ASCII letters. */
  predicate EndsWithIgnoreCase(s: string, suffix: string) {
    |suffix| <= |s| && Lower(s[|s| - |suffix|..]) == Lower(suffix)
  }

  /** Ignoring case is testing the lower-cased strings. */
  lemma EndsWithIgnoreCaseIsLowerEndsWith(s: string, suffix: string)
    ensures EndsWithIgnoreCase(s, suffix) <==> EndsWith(Lower(s), Lower(suffix))
  {
    if |suffix| <= |s| {
      var k := |s| - |suffix|;
      assert Lower(s)[k..] == Lower(s[k..]);
    }
  }

  /** `String.lastIndexOf(char)`: the last position of `c`, or -1. */
  function LastIndexOfChar(s: string, c: char): (r: int)
    ensures -1 <= r < |s|
    ensures r == -1 <==> c !in s
    ensures 0 <= r ==> s[r] == c && c !in s[r + 1..]
  {
    if s == [] then -1
    else if s[|s| - 1] == c then |s| - 1
    else LastIndexOfChar(s[..|s| - 1], c)
  }

  /** `t` occurs in `s` starting at position `k`. */
  predicate OccursAt(s: string, t: string, k: int) {
    0 <= k && k + |t| <= |s| && s[k..k + |t|] == t
  }

  /** `String.lastIndexOf(String)`: the last position where `t` starts, or -1. */
  function LastIndexOf(s: string, t: string): (r: int)
    ensures -1 <= r
    ensures r == -1 <==> forall k :: !OccursAt(s, t, k)
    ensures 0 <= r ==> OccursAt(s, t, r) && forall k :: r < k ==> !OccursAt(s, t, k)
    decreases |s|
  {
    if |s| < |t| then -1
    else if s[|s| - |t|..] == t then
      assert OccursAt(s, t, |s| - |t|);
      |s| - |t|
    else
      var r := LastIndexOf(s[..|s| - 1], t);
      assert r == -1 ==> forall k :: !OccursAt(s, t, k) by {
        if r == -1 {
          forall k ensures !OccursAt(s, t, k) {
            if 0 <= k && k + |t| < |s| {
              assert s[..|s| - 1][k..k + |t|] == s[k..k + |t|];
              assert !OccursAt(s[..|s| - 1], t, k);
            } else if k + |t| == |s| {
              assert s[k..k + |t|] == s[|s| - |t|..];
            }
          }
        }
      }
      assert 0 <= r ==> OccursAt(s, t, r) && forall k :: r < k ==> !OccursAt(s, t, k) by {
        if 0 <= r {
          assert s[r..r + |t|] == s[..|s| - 1][r..r + |t|];
          forall k | r < k ensures !OccursAt(s, t, k) {
            if 0 <= k && k + |t| < |s| {
              assert s[..|s| - 1][k..k + |t|] == s[k..k + |t|];
              assert !OccursAt(s[..|s| - 1], t, k);
            } else if k + |t| == |s| {
              assert s[k..k + |t|] == s[|s| - |t|..];
            }
          }
        }
      }
      r
  }

  /** `String.replace(char, char)`. */
  function ReplaceChar(s: string, from: char, to: char): (r: string)
    ensures |r| == |s|
    ensures forall i :: 0 <= i < |s| ==> r[i] == if s[i] == from then to else s[i]
  {
    if s == [] then [] else [if s[0] == from then to else s[0]] + ReplaceChar(s[1..], from, to)
  }
}

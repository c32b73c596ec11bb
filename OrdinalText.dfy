/** The string operations the catalog resolver takes from .NET's
    `System.String` with `StringComparison.OrdinalIgnoreCase`, over an ASCII
    case fold, and the ordinal `IndexOf(char)` and `TrimEnd(params char[])`. */
module OrdinalText {

  /** Case fold of one character: ASCII upper-case letters map to lower case,
      every other character to itself. */
  function Fold(c: char): char {
    if 'A' <= c <= 'Z' then (c as int + 32) as char else c
  }

  function FoldString(s: string): (r: string)
    ensures |r| == |s|
    ensures forall i :: 0 <= i < |s| ==> r[i] == Fold(s[i])
  {
    seq(|s|, i requires 0 <= i < |s| => Fold(s[i]))
  }

  /** `a.Equals(b, OrdinalIgnoreCase)`: the same length and the same
      characters up to case. */
  function EqualsIgnoreCase(a: string, b: string): (r: bool)
    ensures r <==> |a| == |b| && forall i :: 0 <= i < |a| ==> Fold(a[i]) == Fold(b[i])
  {
    FoldString(a) == FoldString(b)
  }

  /** `s.StartsWith(p, OrdinalIgnoreCase)`: `p` occurs at the start of `s`. */
  function StartsWithIgnoreCase(s: string, p: string): (r: bool)
    ensures r <==> MatchesAt(s, p, 0)
    ensures r ==> ContainsIgnoreCase(s, p)
  {
    |p| <= |s| && EqualsIgnoreCase(s[..|p|], p)
  }

  /** `s.EndsWith(p, OrdinalIgnoreCase)`: `p` occurs at the end of `s`. */
  function EndsWithIgnoreCase(s: string, p: string): (r: bool)
    ensures r <==> |p| <= |s| && MatchesAt(s, p, |s| - |p|)
    ensures r ==> ContainsIgnoreCase(s, p)
  {
    |p| <= |s| && EqualsIgnoreCase(s[|s| - |p|..], p)
  }

  /** `t` occurs in `s` at index `i`, ignoring case. */
  predicate MatchesAt(s: string, t: string, i: int) {
    0 <= i && i + |t| <= |s| && EqualsIgnoreCase(s[i..i + |t|], t)
  }

  predicate ContainsIgnoreCase(s: string, t: string) {
    exists i :: 0 <= i <= |s| && MatchesAt(s, t, i)
  }

  /** Equal strings under the fold have equal lengths. */
  lemma EqualsIgnoreCaseLength(a: string, b: string)
    requires EqualsIgnoreCase(a, b)
    ensures |a| == |b|
  {
  }

  /** A string whose last character differs from the suffix's, up to case,
      does not end with it. */
  lemma EndsWithLastDiffers(s: string, p: string)
    requires 0 < |p| <= |s| && Fold(s[|s| - 1]) != Fold(p[|p| - 1])
    ensures !EndsWithIgnoreCase(s, p)
  {
    assert s[|s| - |p|..][|p| - 1] == s[|s| - 1];
  }

  /** A string starts with its own first character. */
  lemma StartsWithFirst(s: string, c: char)
    requires 0 < |s| && s[0] == c
    ensures StartsWithIgnoreCase(s, [c])
  {
    assert s[..1] == [c];
  }

  /** The first index at or after `from` where `t` occurs in `s`, or -1. */
  function IndexOfFrom(s: string, t: string, from: nat): (r: int)
    decreases |s| - from
    ensures r == -1 || (from <= r && MatchesAt(s, t, r))
    ensures r == -1 ==> forall j :: from <= j ==> !MatchesAt(s, t, j)
    ensures r != -1 ==> forall j :: from <= j < r ==> !MatchesAt(s, t, j)
  {
    if from + |t| > |s| then -1
    else if EqualsIgnoreCase(s[from..from + |t|], t) then from
    else IndexOfFrom(s, t, from + 1)
  }

  /** `s.IndexOf(t, OrdinalIgnoreCase)`: the first occurrence of `t`, or -1. */
  function IndexOfIgnoreCase(s: string, t: string): (r: int)
    ensures r >= -1
    ensures r > -1 <==> ContainsIgnoreCase(s, t)
    ensures r > -1 ==> MatchesAt(s, t, r) && forall j :: 0 <= j < r ==> !MatchesAt(s, t, j)
  {
    IndexOfFrom(s, t, 0)
  }

  /** `s.IndexOf(c)`: the first position of `c` in `s`, or -1. */
  function IndexOfChar(s: string, c: char): (r: int)
    ensures -1 <= r < |s|
    ensures r == -1 <==> c !in s
    ensures r >= 0 ==> s[r] == c && c !in s[..r]
  {
    if |s| == 0 then -1
    else if s[0] == c then 0
    else
      var k := IndexOfChar(s[1..], c);
      assert s[1..][..k + 1] == s[1..k + 2] by {
        if k >= 0 { assert k + 2 <= |s|; }
      }
      if k == -1 then -1 else k + 1
  }

  /** `s.TrimEnd(cs)`: drops trailing characters that belong to `cs`. */
  function TrimEnd(s: string, cs: set<char>): (r: string)
    ensures |r| <= |s| && r == s[..|r|]
    ensures |r| == 0 || r[|r| - 1] !in cs
    ensures forall k :: |r| <= k < |s| ==> s[k] in cs
  {
    if |s| > 0 && s[|s| - 1] in cs then TrimEnd(s[..|s| - 1], cs) else s
  }
}

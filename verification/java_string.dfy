/** The part of `java.lang.String` the category check relies on: `trim()`
    strips every leading and trailing character at or below U+0020. */
module JavaString {

  /** A character `trim()` removes from either end of a string. */
  predicate IsTrimmable(c: char) {
    c <= ' '
  }

  /** Every character of `s` would be removed by `trim()`. */
  predicate IsBlank(s: string) {
    forall i :: 0 <= i < |s| ==> IsTrimmable(s[i])
  }

  /** Drops the leading trimmable characters. */
  function TrimStart(s: string): (r: string)
    ensures |r| <= |s| && r == s[|s| - |r|..]
    ensures forall i :: 0 <= i < |s| - |r| ==> IsTrimmable(s[i])
    ensures r == [] || !IsTrimmable(r[0])
  {
    if s == [] || !IsTrimmable(s[0]) then s else TrimStart(s[1..])
  }

  /** Drops the trailing trimmable characters. */
  function TrimEnd(s: string): (r: string)
    ensures |r| <= |s| && r == s[..|r|]
    ensures forall i :: |r| <= i < |s| ==> IsTrimmable(s[i])
    ensures r == [] || !IsTrimmable(r[|r| - 1])
  {
    if s == [] || !IsTrimmable(s[|s| - 1]) then s else TrimEnd(s[..|s| - 1])
  }

  /** `String.trim()`: `s` with its leading and trailing trimmable characters
      removed and nothing else; the result neither starts nor ends with a
      trimmable character, and it is empty exactly when `s` is blank. */
  function Trim(s: string): (r: string)
    ensures exists i, j :: 0 <= i <= j <= |s| && r == s[i..j] && IsBlank(s[..i]) && IsBlank(s[j..])
    ensures r == [] || (!IsTrimmable(r[0]) && !IsTrimmable(r[|r| - 1]))
    ensures r == [] <==> IsBlank(s)
  {
    var front := TrimStart(s);
    var r := TrimEnd(front);
    var i := |s| - |front|;
    var j := i + |r|;
    PrefixOfSuffix(s, front, r, i);
    TrimEmptyIffBlank(s, front, r);
    TrimmedEndsBlank(s, front, r);
    r
  }

  /** Taking a prefix of a suffix of `s` yields an infix of `s`. */
  lemma PrefixOfSuffix(s: string, front: string, r: string, k: int)
    requires |front| <= |s| && k == |s| - |front| && front == s[k..]
    requires |r| <= |front| && r == front[..|r|]
    ensures r == s[k..k + |r|]
  {
  }

  /** What trimming cuts off at either end is blank. */
  lemma TrimmedEndsBlank(s: string, front: string, r: string)
    requires |front| <= |s| && front == s[|s| - |front|..]
    requires forall i :: 0 <= i < |s| - |front| ==> IsTrimmable(s[i])
    requires |r| <= |front| && r == front[..|r|]
    requires forall i :: |r| <= i < |front| ==> IsTrimmable(front[i])
    ensures IsBlank(s[..|s| - |front|])
    ensures IsBlank(s[|s| - |front| + |r|..])
  {
    var i, j := |s| - |front|, |s| - |front| + |r|;
    var head, tail := s[..i], s[j..];
    forall k | 0 <= k < |head|
      ensures IsTrimmable(head[k])
    {
      assert head[k] == s[k];
    }
    forall k | 0 <= k < |tail|
      ensures IsTrimmable(tail[k])
    {
      assert tail[k] == front[|r| + k];
    }
  }

  /** Trimming leaves nothing exactly when every character is trimmable. */
  lemma TrimEmptyIffBlank(s: string, front: string, r: string)
    requires |front| <= |s| && front == s[|s| - |front|..]
    requires forall i :: 0 <= i < |s| - |front| ==> IsTrimmable(s[i])
    requires front == [] || !IsTrimmable(front[0])
    requires |r| <= |front| && r == front[..|r|]
    requires forall i :: |r| <= i < |front| ==> IsTrimmable(front[i])
    ensures r == [] <==> IsBlank(s)
  {
  }
}

/** Searching in character strings. */
module Strings {
  /** Position of the first c at or after i, or the length of s. */
  function IndexFrom(s: string, c: char, i: nat): (j: nat)
    requires i <= |s|
    ensures i <= j <= |s| && (j < |s| ==> s[j] == c) && c !in s[i..j]
    decreases |s| - i
  {
    if i == |s| || s[i] == c then i else IndexFrom(s, c, i + 1)
  }

  lemma IndexFromIs(s: string, c: char, i: nat, j: nat)
    requires i <= j <= |s| && (j < |s| ==> s[j] == c) && forall k :: i <= k < j ==> s[k] != c
    ensures IndexFrom(s, c, i) == j
  {
    var e := IndexFrom(s, c, i);
    assert e < |s| ==> s[e] == c;
    assert forall k :: i <= k < e ==> s[k] == s[i..e][k - i];
  }
}

/**
 * Scanning a string for a character: the strchr-style search that both
 * the C loaders (strcmp stops at the first NUL) and the prototype parser
 * (split(":") cuts at each ':') rely on.
 */
module Text {
  /** The index of the first `c` at or after i, or |s| when there is none. */
  function IndexFrom(s: string, i: nat, c: char): (n: nat)
    requires i <= |s|
    ensures i <= n <= |s|
    ensures forall j :: i <= j < n ==> s[j] != c
    ensures n < |s| ==> s[n] == c
    decreases |s| - i
  {
    if i == |s| || s[i] == c then i else IndexFrom(s, i + 1, c)
  }

  /** The search stops at the first `c` at or after i. */
  lemma {:induction false} IndexFromAt(s: string, i: nat, n: nat, c: char)
    requires i <= n < |s| && s[n] == c
    requires forall k :: i <= k < n ==> s[k] != c
    ensures IndexFrom(s, i, c) == n
    decreases n - i
  {
    if i < n {
      IndexFromAt(s, i + 1, n, c);
    }
  }

  /** The search reaches the end when no `c` follows i. */
  lemma {:induction false} IndexFromNone(s: string, i: nat, c: char)
    requires i <= |s|
    requires forall k :: i <= k < |s| ==> s[k] != c
    ensures IndexFrom(s, i, c) == |s|
    decreases |s| - i
  {
    if i < |s| {
      IndexFromNone(s, i + 1, c);
    }
  }
}

/**
 * Plain substring facts on `string` (a `seq<char>`): where a literal occurs,
 * whether a text contains or ends with a literal, and the leftmost occurrence,
 * which is what `re.search` finds for a pattern that is an escaped literal.
 */
module Strings {
  import opened Wrappers

  /** `lit` occurs in `s` starting at index `i`. */
  predicate StartsAt(s: string, i: nat, lit: string) {
    i + |lit| <= |s| && s[i..i + |lit|] == lit
  }

  /** `lit` occurs somewhere in `s`. */
  predicate Contains(s: string, lit: string) {
    exists i: nat :: i <= |s| && StartsAt(s, i, lit)
  }

  /** Python's `s.endswith(suffix)`. */
  predicate EndsWith(s: string, suffix: string): (r: bool)
    ensures r <==> exists pre :: s == pre + suffix
  {
    assert |suffix| <= |s| ==> s == s[..|s| - |suffix|] + s[|s| - |suffix|..];
    |suffix| <= |s| && s[|s| - |suffix|..] == suffix
  }

  /** The leftmost occurrence of `lit` in `s` at an index no smaller than `from`. */
  function FindFrom(s: string, lit: string, from: nat): (r: Option<nat>)
    decreases |s| - from
    ensures r.Some? ==> from <= r.value <= |s| && StartsAt(s, r.value, lit)
    ensures r.Some? ==> forall k: nat :: from <= k < r.value ==> !StartsAt(s, k, lit)
    ensures r.None? ==> forall k: nat :: from <= k <= |s| ==> !StartsAt(s, k, lit)
  {
    if |s| < from then None
    else if StartsAt(s, from, lit) then Some(from)
    else if from == |s| then None
    else FindFrom(s, lit, from + 1)
  }

  /** `re.search(re.escape(lit), s)`: the leftmost occurrence of `lit`, if any. */
  function Find(s: string, lit: string): (r: Option<nat>)
    ensures r.Some? <==> Contains(s, lit)
    ensures r.Some? ==> StartsAt(s, r.value, lit) && forall k: nat :: k < r.value ==> !StartsAt(s, k, lit)
  {
    FindFrom(s, lit, 0)
  }

  /** An occurrence stays an occurrence when text is added on either side. */
  lemma StartsAtInfix(a: string, c: string, b: string, i: nat, lit: string)
    requires StartsAt(c, i, lit)
    ensures StartsAt(a + c + b, |a| + i, lit)
  {
    var t := a + c + b;
    forall k | 0 <= k < |lit|
      ensures t[|a| + i + k] == lit[k]
    {
      assert t[|a| + i + k] == c[i + k];
      assert c[i..i + |lit|][k] == c[i + k];
    }
    assert t[|a| + i..|a| + i + |lit|] == lit;
  }

  /** Containment is preserved by adding text on either side. */
  lemma ContainsInfix(a: string, c: string, b: string, lit: string)
    requires Contains(c, lit)
    ensures Contains(a + c + b, lit)
  {
    var i: nat :| i <= |c| && StartsAt(c, i, lit);
    StartsAtInfix(a, c, b, i, lit);
  }

  /** An occurrence of `lit` gives an occurrence of each infix of `lit`. */
  lemma StartsAtPart(s: string, i: nat, lit: string, j: nat, k: nat)
    requires StartsAt(s, i, lit) && j <= k <= |lit|
    ensures StartsAt(s, i + j, lit[j..k])
  {
    forall m | 0 <= m < k - j
      ensures s[i + j..i + k][m] == lit[j..k][m]
    {
      assert s[i..i + |lit|][j + m] == s[i + j + m];
    }
    assert s[i + j..i + k] == lit[j..k];
  }

  /** A text holding `lit` holds every slice of `lit`. */
  lemma ContainsPart(s: string, lit: string, j: nat, k: nat)
    requires Contains(s, lit) && j <= k <= |lit|
    ensures Contains(s, lit[j..k])
  {
    var i: nat :| i <= |s| && StartsAt(s, i, lit);
    StartsAtPart(s, i, lit, j, k);
  }

  /** A text lacking one of the literal's characters does not contain the literal. */
  lemma MissingCharNotContained(s: string, lit: string, c: char)
    requires c in lit && c !in s
    ensures !Contains(s, lit)
  {
    var k :| 0 <= k < |lit| && lit[k] == c;
    forall i: nat | i <= |s| ensures !StartsAt(s, i, lit) {
      if i + |lit| <= |s| {
        assert s[i..i + |lit|][k] == s[i + k];
        assert s[i + k] in s;
      }
    }
  }
}

/**
 * The pattern table of find1.py and what `re.search` does with each entry.
 *
 * The four patterns are, in declared order:
 *   bitnami  \bbitnami/([\w\-.]+)\b
 *   docker   \bdocker\.io/bitnami/([\w\-.]+)\b
 *   charts   https://charts\.bitnami\.com/bitnami
 *   oci      oci://registry-1\.docker\.io/bitnamicharts(?:/([\w\-.]+))?
 * Each begins with a literal prefix. `bitnami` and `docker` then need a greedy
 * run of name characters that the regex engine shortens until a word boundary
 * follows it; `oci` takes an optional `/name` suffix, greedily. Word characters
 * are the ASCII ones.
 */
module Patterns {
  import opened Wrappers
  import opened Strings

  datatype Pattern = Bitnami | Docker | Charts | Oci

  /** The table's iteration order. */
  const Declared: seq<Pattern> := [Bitnami, Docker, Charts, Oci]

  /** The dictionary key of each pattern. */
  function Name(p: Pattern): string {
    match p
    case Bitnami => "bitnami"
    case Docker => "docker"
    case Charts => "charts"
    case Oci => "oci"
  }

  /** The literal text each pattern starts with, unescaped. */
  function Prefix(p: Pattern): string {
    match p
    case Bitnami => "bitnami/"
    case Docker => "docker.io/bitnami/"
    case Charts => "https://charts.bitnami.com/bitnami"
    case Oci => "oci://registry-1.docker.io/bitnamicharts"
  }

  /** `len(m.groups())`: the number of capture groups in the pattern. */
  function GroupCount(p: Pattern): nat {
    if p == Charts then 0 else 1
  }

  /** `\w`, restricted to ASCII. */
  predicate IsWordChar(c: char) {
    ('a' <= c <= 'z') || ('A' <= c <= 'Z') || ('0' <= c <= '9') || c == '_'
  }

  /** The class `[\w\-.]`. */
  predicate IsNameChar(c: char) {
    IsWordChar(c) || c == '-' || c == '.'
  }

  predicate WordBefore(s: string, p: nat) {
    0 < p <= |s| && IsWordChar(s[p - 1])
  }

  predicate WordAfter(s: string, p: nat) {
    p < |s| && IsWordChar(s[p])
  }

  /** `\b` at position `p`: exactly one side of `p` is a word character. */
  predicate Boundary(s: string, p: nat) {
    WordBefore(s, p) != WordAfter(s, p)
  }

  /** Every character of `s[j..q]` is a name character. */
  predicate AllNameChars(s: string, j: nat, q: nat)
    requires j <= q <= |s|
  {
    forall m :: j <= m < q ==> IsNameChar(s[m])
  }

  /**
   * What `[\w\-.]+\b` matches from `j`, stated as the regex engine promises it:
   * the longest non-empty run of name characters from `j` that a word boundary
   * follows.
   */
  ghost predicate GreedyNameEnd(s: string, j: nat, q: nat) {
    && j < q <= |s|
    && AllNameChars(s, j, q)
    && Boundary(s, q)
    && forall q': nat :: q < q' <= |s| && AllNameChars(s, j, q') ==> !Boundary(s, q')
  }

  /** End of the maximal run of name characters that starts at `j`. */
  function RunEnd(s: string, j: nat): (k: nat)
    requires j <= |s|
    decreases |s| - j
    ensures j <= k <= |s| && AllNameChars(s, j, k)
    ensures k < |s| ==> !IsNameChar(s[k])
  {
    if j < |s| && IsNameChar(s[j]) then RunEnd(s, j + 1) else j
  }

  /** Backtracking from `p` towards `j`: the largest end in `(j, p]` where `\b` holds. */
  function BacktrackEnd(s: string, j: nat, p: nat): (r: Option<nat>)
    requires j <= p <= |s|
    decreases p
    ensures r.Some? ==> j < r.value <= p && Boundary(s, r.value)
    ensures r.Some? ==> forall q: nat :: r.value < q <= p ==> !Boundary(s, q)
    ensures r.None? ==> forall q: nat :: j < q <= p ==> !Boundary(s, q)
  {
    if p == j then None
    else if Boundary(s, p) then Some(p)
    else BacktrackEnd(s, j, p - 1)
  }

  /** `([\w\-.]+)\b` from `j`: the end of the group, if the tail can match. */
  function NameTail(s: string, j: nat): (r: Option<nat>)
    requires j <= |s|
    ensures r.Some? ==> GreedyNameEnd(s, j, r.value)
    ensures r.None? ==> forall q: nat :: j < q <= |s| && AllNameChars(s, j, q) ==> !Boundary(s, q)
  {
    var k := RunEnd(s, j);
    var r := BacktrackEnd(s, j, k);
    assert forall q: nat :: k < q <= |s| ==> !AllNameChars(s, j, q) by {
      forall q: nat | k < q <= |s| ensures !AllNameChars(s, j, q) {
        assert !IsNameChar(s[k]);
      }
    }
    r
  }

  /** `(?:/([\w\-.]+))?` at `j`: the end of the group when the slash and one name character are there. */
  function OptionalName(s: string, j: nat): (r: Option<nat>)
    requires j <= |s|
    ensures r.Some? ==> j + 1 < r.value <= |s| && s[j] == '/' && AllNameChars(s, j + 1, r.value)
    ensures r.Some? ==> r.value == |s| || !IsNameChar(s[r.value])
    ensures r.None? <==> !(j + 1 < |s| && s[j] == '/' && IsNameChar(s[j + 1]))
  {
    if j + 1 < |s| && s[j] == '/' && IsNameChar(s[j + 1]) then Some(RunEnd(s, j + 1)) else None
  }

  /** One `re.search` hit: where it starts, `m.group(0)`, and `m.group(1)` (None when the group did not take part). */
  datatype Hit = Hit(start: nat, full: string, group: Option<string>)

  /** `charts` tried at index `i`: the bare literal, which has no group. */
  function LiteralAt(pre: string, s: string, i: nat): (r: Option<Hit>)
    requires i <= |s|
    ensures r.Some? <==> StartsAt(s, i, pre)
    ensures r.Some? ==> r.value == Hit(i, pre, None)
  {
    if StartsAt(s, i, pre) then Some(Hit(i, pre, None)) else None
  }

  /** `oci` tried at index `i`: the literal, then the optional `/name` taken whenever it is there. */
  function OptionalNameAt(pre: string, s: string, i: nat): (r: Option<Hit>)
    requires i <= |s|
    ensures r.Some? <==> StartsAt(s, i, pre)
    ensures r.Some? ==> r.value.start == i && StartsAt(s, i, r.value.full)
    ensures r.Some? && r.value.group.None? ==>
              r.value.full == pre && OptionalName(s, i + |pre|).None?
    ensures r.Some? && r.value.group.Some? ==>
              r.value.group.value != [] && r.value.full == pre + "/" + r.value.group.value
              && OptionalName(s, i + |pre|) == Some(i + |r.value.full|)
  {
    if StartsAt(s, i, pre) then
      var j := i + |pre|;
      match OptionalName(s, j)
      case Some(q) =>
        assert s[i..q] == s[i..j] + [s[j]] + s[j + 1..q];
        Some(Hit(i, s[i..q], Some(s[j + 1..q])))
      case None => Some(Hit(i, s[i..j], None))
    else None
  }

  /** `bitnami` and `docker` tried at index `i`: `\b`, the literal, then `([\w\-.]+)\b`. */
  function BoundedNameAt(pre: string, s: string, i: nat): (r: Option<Hit>)
    requires i <= |s|
    ensures r.Some? ==> r.value.start == i && Boundary(s, i) && StartsAt(s, i, pre)
    ensures r.Some? ==> StartsAt(s, i, r.value.full)
    ensures r.Some? ==>
              && r.value.group.Some?
              && r.value.full == pre + r.value.group.value
              && GreedyNameEnd(s, i + |pre|, i + |r.value.full|)
    ensures r.None? && Boundary(s, i) && StartsAt(s, i, pre) ==>
              forall q: nat :: i + |pre| < q <= |s| && AllNameChars(s, i + |pre|, q) ==> !Boundary(s, q)
  {
    if Boundary(s, i) && StartsAt(s, i, pre) then
      var j := i + |pre|;
      match NameTail(s, j)
      case Some(q) =>
        assert s[i..q] == s[i..j] + s[j..q];
        Some(Hit(i, s[i..q], Some(s[j..q])))
      case None => None
    else None
  }

  /** The result of trying pattern `p` at index `i` alone. */
  function MatchAt(p: Pattern, s: string, i: nat): (r: Option<Hit>)
    requires i <= |s|
    ensures r.Some? ==> r.value.start == i && StartsAt(s, i, Prefix(p)) && StartsAt(s, i, r.value.full)
  {
    match p
    case Charts => LiteralAt(Prefix(p), s, i)
    case Oci => OptionalNameAt(Prefix(p), s, i)
    case _ => BoundedNameAt(Prefix(p), s, i)
  }

  /** `re.search` from index `from`: the hit at the leftmost index where the pattern matches. */
  function FirstMatch(p: Pattern, s: string, from: nat): (r: Option<Hit>)
    decreases |s| - from
    ensures r.Some? ==> from <= r.value.start <= |s| && MatchAt(p, s, r.value.start) == r
    ensures r.Some? ==> forall k: nat :: from <= k < r.value.start ==> MatchAt(p, s, k).None?
    ensures r.None? ==> forall k: nat :: from <= k <= |s| ==> MatchAt(p, s, k).None?
  {
    if |s| < from then None
    else match MatchAt(p, s, from)
      case Some(h) => Some(h)
      case None => if from == |s| then None else FirstMatch(p, s, from + 1)
  }

  /** `re.search(pattern, s)`. */
  function Search(p: Pattern, s: string): Option<Hit> {
    FirstMatch(p, s, 0)
  }

  /** The `charts` and `oci` patterns hit exactly the strings that contain their literal prefix. */
  lemma LiteralPatternHits(p: Pattern, s: string)
    requires p == Charts || p == Oci
    ensures Search(p, s).Some? <==> Contains(s, Prefix(p))
  {
    if Contains(s, Prefix(p)) {
      var i: nat :| i <= |s| && StartsAt(s, i, Prefix(p));
      assert MatchAt(p, s, i).Some?;
    }
  }

  /** Every hit of every pattern lies in the text and starts with the pattern's literal prefix. */
  lemma HitContainsPrefix(p: Pattern, s: string)
    requires Search(p, s).Some?
    ensures Contains(s, Prefix(p)) && Contains(s, Search(p, s).value.full)
  {
    var h := Search(p, s).value;
    assert StartsAt(s, h.start, Prefix(p)) && StartsAt(s, h.start, h.full);
  }

  /** A text without the pattern's literal prefix has no hit for it. */
  lemma AbsentPrefixNoHit(p: Pattern, s: string)
    requires !Contains(s, Prefix(p))
    ensures Search(p, s).None?
  {
    if Search(p, s).Some? {
      HitContainsPrefix(p, s);
    }
  }

  /** Indices where the pattern cannot match may be skipped: the search from `from` is the search from `to`. */
  lemma {:induction false} FirstMatchSkip(p: Pattern, s: string, from: nat, upto: nat)
    requires from <= upto <= |s|
    requires forall k: nat :: from <= k < upto ==> MatchAt(p, s, k).None?
    ensures FirstMatch(p, s, from) == FirstMatch(p, s, upto)
    decreases upto - from
  {
    if from < upto {
      assert MatchAt(p, s, from).None?;
      assert FirstMatch(p, s, from) == FirstMatch(p, s, from + 1);
      FirstMatchSkip(p, s, from + 1, upto);
    }
  }
}

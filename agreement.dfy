/**
 * How the two scanners relate: their YAML file filters are the same, and
 * every string for which find1.py's pattern table yields a triple is one
 * that find.py's `contains_bitnami` flags.
 */
module Agreement {
  import opened Strings
  import opened Yaml
  import GitHub
  import P = Patterns
  import S = StructuralSearch
  import D = Detector
  import Structured = StructuredScan
  import Text = TextScan

  /** The order of the two conjuncts does not matter: both files keep the same paths in the same order. */
  lemma {:induction false} FiltersAgree(tree: seq<GitHub.Entry>)
    ensures Text.YamlFiles(tree) == Structured.YamlFiles(tree)
  {
    if tree != [] {
      assert Text.IsYamlBlob(tree[0]) == Structured.IsYamlBlob(tree[0]);
      FiltersAgree(tree[1..]);
    }
  }

  /** A hit of any find1 pattern lies on one of find.py's three texts. */
  lemma PatternHitIsFlagged(p: P.Pattern, s: string)
    requires P.Search(p, s).Some?
    ensures D.ContainsBitnami(s)
  {
    P.HitContainsPrefix(p, s);
    PrefixIsFlagged(p, s);
  }

  /** A string holding a pattern's literal prefix holds that pattern's text of find.py's list. */
  lemma PrefixIsFlagged(p: P.Pattern, s: string)
    requires Contains(s, P.Prefix(p))
    ensures Contains(s, FlaggedText(p))
  {
    var lit, off := FlaggedText(p), if p == P.Docker then 10 else 0;
    assert P.Prefix(p)[off..off + |lit|] == lit;
    ContainsPart(s, P.Prefix(p), off, off + |lit|);
  }

  /** The text of find.py's list that each find1 pattern's literal prefix contains. */
  function FlaggedText(p: P.Pattern): (lit: string)
    ensures lit in D.Literals
  {
    match p
    case Bitnami => D.BitnamiPath
    case Docker => D.BitnamiPath
    case Charts => D.ChartsUrl
    case Oci => D.OciRegistry
  }

  /** Any string that yields a triple in find1.py is flagged by find.py. */
  lemma StringHitIsFlagged(s: string)
    requires S.StringMatches(s) != []
    ensures D.ContainsBitnami(s)
  {
    var m := S.StringMatches(s)[0];
    S.MatchesForMembers(P.Declared, s, m);
    var p :| p in P.Declared && P.Search(p, s).Some? && m == S.Triple(p, P.Search(p, s).value);
    PatternHitIsFlagged(p, s);
  }

  lemma {:induction false} SomeLeafHits(ss: seq<string>)
    requires S.ConcatMatches(ss) != []
    ensures exists s :: s in ss && S.StringMatches(s) != []
  {
    if S.StringMatches(ss[0]) == [] {
      SomeLeafHits(ss[1..]);
      var s :| s in ss[1..] && S.StringMatches(s) != [];
      assert s in ss;
    } else {
      assert ss[0] in ss;
    }
  }

  /** A document with triples has a string, key or value, that `contains_bitnami` flags. */
  lemma DocumentHitIsFlagged(doc: Node)
    requires S.Search(doc) != []
    ensures exists s :: s in S.Leaves(doc) && D.ContainsBitnami(s)
  {
    S.SearchByLeaves(doc);
    SomeLeafHits(S.Leaves(doc));
    var s :| s in S.Leaves(doc) && S.StringMatches(s) != [];
    StringHitIsFlagged(s);
  }
}

/**
 * `contains_bitnami` of find.py. Its three patterns are regular expressions
 * made only of literal characters and escaped dots, so each one matches
 * exactly where its unescaped text occurs.
 */
module Detector {
  import opened Strings

  const BitnamiPath := "bitnami/"
  const ChartsUrl := "https://charts.bitnami.com/bitnami"
  const OciRegistry := "oci://registry-1.docker.io/bitnamicharts"

  /** find.py's `BITNAMI_PATTERNS`, in order and unescaped. */
  const Literals: seq<string> := [BitnamiPath, ChartsUrl, OciRegistry]

  /** Whether a search for any of the literal patterns `ps`, in order, succeeds on `content`. */
  function AnyOccurs(ps: seq<string>, content: string): (r: bool)
    ensures r <==> exists k :: 0 <= k < |ps| && Contains(content, ps[k])
  {
    if ps == [] then false
    else
      assert forall k :: 1 <= k < |ps| ==> ps[k] == ps[1..][k - 1];
      Find(content, ps[0]).Some? || AnyOccurs(ps[1..], content)
  }

  /** `contains_bitnami(content)`: one of the three texts occurs in it. */
  function ContainsBitnami(content: string): (r: bool)
    ensures r <==> Contains(content, BitnamiPath) || Contains(content, ChartsUrl) || Contains(content, OciRegistry)
  {
    assert Literals[0] == BitnamiPath && Literals[1] == ChartsUrl && Literals[2] == OciRegistry;
    AnyOccurs(Literals, content)
  }

  /** The empty text (what a failed fetch returns) is never flagged. */
  lemma EmptyNotFlagged()
    ensures !ContainsBitnami("")
  {
    forall lit | lit in Literals ensures !Contains("", lit) {
      assert |lit| > 0;
    }
  }

  /** Flagged text stays flagged inside any larger text. */
  lemma FlaggedInfix(a: string, c: string, b: string)
    requires ContainsBitnami(c)
    ensures ContainsBitnami(a + c + b)
  {
    if Contains(c, BitnamiPath) {
      ContainsInfix(a, c, b, BitnamiPath);
    } else if Contains(c, ChartsUrl) {
      ContainsInfix(a, c, b, ChartsUrl);
    } else {
      ContainsInfix(a, c, b, OciRegistry);
    }
  }
}

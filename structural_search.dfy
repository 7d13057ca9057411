/**
 * `search_bitnami_in_yaml` of find1.py: a depth-first walk that tests every
 * string of a loaded document, including mapping keys, against the pattern
 * table and collects `(name, full match, group 1 or "")` triples.
 */
module StructuralSearch {
  import opened Wrappers
  import opened Strings
  import opened Yaml
  import P = Patterns

  /** One triple; `extracted` is None where Python's `m.group(1)` is None. */
  datatype Match = Match(name: string, full: string, extracted: Option<string>)

  /** The triple recorded for hit `h` of pattern `p` (find1.py lines 75-77). */
  function Triple(p: P.Pattern, h: P.Hit): Match {
    Match(P.Name(p), h.full, if P.GroupCount(p) >= 1 then h.group else Some(""))
  }

  /** What one pattern contributes for one string: its first hit, or nothing. */
  function PatternMatches(p: P.Pattern, s: string): seq<Match> {
    match P.Search(p, s)
    case Some(h) => [Triple(p, h)]
    case None => []
  }

  /** The patterns `ps`, in order, applied to one string. */
  function MatchesFor(ps: seq<P.Pattern>, s: string): seq<Match> {
    if ps == [] then [] else PatternMatches(ps[0], s) + MatchesFor(ps[1..], s)
  }

  /** The triples of one string scalar: the whole table, in declared order. */
  function StringMatches(s: string): seq<Match> {
    MatchesFor(P.Declared, s)
  }

  /** The specification of the walk: the triples of a node, in traversal order. */
  function Search(n: Node): seq<Match>
    decreases n
  {
    match n
    case Mapping(es) => SearchEntries(es)
    case Sequence(xs) => SearchItems(xs)
    case Str(s) => StringMatches(s)
    case Other(_) => []
  }

  /** Each entry contributes the key's triples, then the value's. */
  function SearchEntries(es: seq<KeyValue>): seq<Match>
    decreases es
  {
    if es == [] then []
    else
      assert es[0] in es && es[0].key < es[0] && es[0].value < es[0];
      Search(es[0].key) + Search(es[0].value) + SearchEntries(es[1..])
  }

  function SearchItems(xs: seq<Node>): seq<Match>
    decreases xs
  {
    if xs == [] then [] else Search(xs[0]) + SearchItems(xs[1..])
  }

  // ----- the walk as find1.py runs it: appending into one list -----

  /**
   * `recursive_search(obj)`, with the enclosing `matches` list passed in and
   * handed back: the walk appends exactly `Search(obj)`.
   */
  method RecursiveSearch(obj: Node, matches: seq<Match>) returns (out: seq<Match>)
    ensures out == matches + Search(obj)
    decreases obj
  {
    out := matches;
    match obj
    case Mapping(es) =>
      for i := 0 to |es|
        invariant out == matches + SearchEntries(es[..i])
      {
        assert es[i] in es && es[i].key < es[i] && es[i].value < es[i];
        out := RecursiveSearch(es[i].key, out);
        out := RecursiveSearch(es[i].value, out);
        SearchEntriesStep(es, i);
      }
      assert es[..|es|] == es;
    case Sequence(xs) =>
      for i := 0 to |xs|
        invariant out == matches + SearchItems(xs[..i])
      {
        out := RecursiveSearch(xs[i], out);
        SearchItemsStep(xs, i);
      }
      assert xs[..|xs|] == xs;
    case Str(s) =>
      out := SearchString(s, out);
    case Other(_) =>
  }

  /** The pattern loop of `recursive_search` for one string scalar. */
  method SearchString(s: string, matches: seq<Match>) returns (out: seq<Match>)
    ensures out == matches + StringMatches(s)
  {
    out := matches;
    for k := 0 to |P.Declared|
      invariant out == matches + MatchesFor(P.Declared[..k], s)
    {
      out := SearchPattern(P.Declared[k], s, out);
      MatchesForStep(P.Declared, k, s);
    }
    assert P.Declared[..|P.Declared|] == P.Declared;
  }

  /** One round of the pattern loop: record the first hit of `p`, if any. */
  method SearchPattern(p: P.Pattern, s: string, matches: seq<Match>) returns (out: seq<Match>)
    ensures out == matches + PatternMatches(p, s)
  {
    out := matches;
    var m := P.Search(p, s);
    if m.Some? {
      var full := m.value.full;
      var extracted := if P.GroupCount(p) >= 1 then m.value.group else Some("");
      out := out + [Match(P.Name(p), full, extracted)];
    }
  }

  /** `search_bitnami_in_yaml(data)`. */
  method SearchBitnamiInYaml(data: Node) returns (matches: seq<Match>)
    ensures matches == Search(data)
  {
    matches := RecursiveSearch(data, []);
  }

  // ----- order: results are concatenations of sub-results -----

  lemma {:induction false} MatchesForAppend(a: seq<P.Pattern>, b: seq<P.Pattern>, s: string)
    ensures MatchesFor(a + b, s) == MatchesFor(a, s) + MatchesFor(b, s)
  {
    if a != [] {
      assert (a + b)[1..] == a[1..] + b;
      MatchesForAppend(a[1..], b, s);
    } else {
      assert a + b == b;
    }
  }

  lemma MatchesForStep(ps: seq<P.Pattern>, k: nat, s: string)
    requires k < |ps|
    ensures MatchesFor(ps[..k + 1], s) == MatchesFor(ps[..k], s) + PatternMatches(ps[k], s)
  {
    var p := ps[k];
    MatchesForSingle(p, s);
    MatchesForAppend(ps[..k], [p], s);
    assert ps[..k + 1] == ps[..k] + [p];
  }

  /** The entries of a mapping contribute in the mapping's iteration order. */
  lemma {:induction false} SearchEntriesAppend(a: seq<KeyValue>, b: seq<KeyValue>)
    ensures SearchEntries(a + b) == SearchEntries(a) + SearchEntries(b)
  {
    if a != [] {
      assert (a + b)[0] == a[0];
      assert (a + b)[1..] == a[1..] + b;
      SearchEntriesAppend(a[1..], b);
    } else {
      assert a + b == b;
    }
  }

  /** The elements of a list contribute in list order. */
  lemma {:induction false} SearchItemsAppend(a: seq<Node>, b: seq<Node>)
    ensures SearchItems(a + b) == SearchItems(a) + SearchItems(b)
  {
    if a != [] {
      assert (a + b)[0] == a[0];
      assert (a + b)[1..] == a[1..] + b;
      SearchItemsAppend(a[1..], b);
    } else {
      assert a + b == b;
    }
  }

  lemma SearchEntriesStep(es: seq<KeyValue>, i: nat)
    requires i < |es|
    ensures SearchEntries(es[..i + 1]) == SearchEntries(es[..i]) + Search(es[i].key) + Search(es[i].value)
  {
    var one := [es[i]];
    assert one[0] == es[i] && one[1..] == [];
    assert SearchEntries(one) == Search(es[i].key) + Search(es[i].value) + SearchEntries([]);
    SearchEntriesAppend(es[..i], one);
    assert es[..i + 1] == es[..i] + one;
  }

  lemma SearchItemsStep(xs: seq<Node>, i: nat)
    requires i < |xs|
    ensures SearchItems(xs[..i + 1]) == SearchItems(xs[..i]) + Search(xs[i])
  {
    var one := [xs[i]];
    assert one[0] == xs[i] && one[1..] == [];
    assert SearchItems(one) == Search(xs[i]) + SearchItems([]);
    SearchItemsAppend(xs[..i], one);
    assert xs[..i + 1] == xs[..i] + one;
  }

  /** A mapping's triples: the first entries' triples, then the remaining entries'; one entry gives its key's then its value's. */
  lemma MappingIsConcatenation(a: seq<KeyValue>, b: seq<KeyValue>, k: Node, v: Node)
    ensures Search(Mapping(a + b)) == Search(Mapping(a)) + Search(Mapping(b))
    ensures Search(Mapping([KeyValue(k, v)])) == Search(k) + Search(v)
  {
    SearchEntriesAppend(a, b);
    var one := [KeyValue(k, v)];
    assert one[0] == KeyValue(k, v) && one[1..] == [];
    assert SearchEntries(one) == Search(k) + Search(v) + SearchEntries([]);
  }

  /** A list's triples: the first elements' triples, then the remaining elements'; one element gives its own. */
  lemma ListIsConcatenation(a: seq<Node>, b: seq<Node>, x: Node)
    ensures Search(Sequence(a + b)) == Search(Sequence(a)) + Search(Sequence(b))
    ensures Search(Sequence([x])) == Search(x)
  {
    SearchItemsAppend(a, b);
    var one := [x];
    assert one[0] == x && one[1..] == [];
    assert SearchItems(one) == Search(x) + SearchItems([]);
  }

  // ----- one string: at most one triple per pattern, in declared order -----

  /** Position of a pattern name in the table; -1 for any other text. */
  function Rank(name: string): int {
    if name == "bitnami" then 0
    else if name == "docker" then 1
    else if name == "charts" then 2
    else if name == "oci" then 3
    else -1
  }

  ghost predicate InDeclaredOrder(ms: seq<Match>) {
    forall i, j :: 0 <= i < j < |ms| ==> Rank(ms[i].name) < Rank(ms[j].name)
  }

  /** One pattern contributes at most one triple, carrying the pattern's name. */
  lemma PatternMatchesNamed(p: P.Pattern, s: string)
    ensures |PatternMatches(p, s)| <= 1
    ensures forall m :: m in PatternMatches(p, s) ==> m.name == P.Name(p)
  {
  }

  /** Putting at most one triple of rank `k` before triples of higher ranks keeps the order. */
  lemma PrependInOrder(head: seq<Match>, tail: seq<Match>, k: int)
    requires |head| <= 1 && forall m :: m in head ==> Rank(m.name) == k
    requires forall m :: m in tail ==> k + 1 <= Rank(m.name)
    requires InDeclaredOrder(tail)
    ensures forall m :: m in head + tail ==> k <= Rank(m.name)
    ensures InDeclaredOrder(head + tail)
  {
    forall i, j | 0 <= i < j < |head + tail|
      ensures Rank((head + tail)[i].name) < Rank((head + tail)[j].name)
    {
      if i < |head| {
        assert (head + tail)[i] in head;
        assert (head + tail)[j] == tail[j - |head|] && tail[j - |head|] in tail;
      } else {
        assert (head + tail)[i] == tail[i - |head|] && (head + tail)[j] == tail[j - |head|];
      }
    }
  }

  lemma {:induction false} SuffixInDeclaredOrder(k: nat, s: string)
    requires k <= |P.Declared|
    ensures |MatchesFor(P.Declared[k..], s)| <= |P.Declared| - k
    ensures forall m :: m in MatchesFor(P.Declared[k..], s) ==> k <= Rank(m.name)
    ensures InDeclaredOrder(MatchesFor(P.Declared[k..], s))
    decreases |P.Declared| - k
  {
    if k < |P.Declared| {
      var ps := P.Declared[k..];
      assert ps[0] == P.Declared[k] && ps[1..] == P.Declared[k + 1..];
      SuffixInDeclaredOrder(k + 1, s);
      assert Rank(P.Name(P.Declared[k])) == k;
      PatternMatchesNamed(P.Declared[k], s);
      var head := PatternMatches(P.Declared[k], s);
      var tail := MatchesFor(P.Declared[k + 1..], s);
      assert MatchesFor(ps, s) == head + tail;
      PrependInOrder(head, tail, k);
    }
  }

  /** A string yields at most one triple per pattern, in the order bitnami, docker, charts, oci. */
  lemma StringMatchesInDeclaredOrder(s: string)
    ensures |StringMatches(s)| <= 4
    ensures forall m :: m in StringMatches(s) ==> 0 <= Rank(m.name)
    ensures InDeclaredOrder(StringMatches(s))
  {
    SuffixInDeclaredOrder(0, s);
    assert P.Declared[0..] == P.Declared;
  }

  /** The triples of patterns `ps` are exactly the first hits of those patterns that hit. */
  lemma {:induction false} MatchesForMembers(ps: seq<P.Pattern>, s: string, m: Match)
    ensures m in MatchesFor(ps, s) <==>
              exists p :: p in ps && P.Search(p, s).Some? && m == Triple(p, P.Search(p, s).value)
  {
    if ps != [] {
      MatchesForMembers(ps[1..], s, m);
      assert forall p :: p in ps <==> p == ps[0] || p in ps[1..];
    }
  }

  /** What a triple's `full` and `extracted` hold, for each pattern name. */
  ghost predicate WellExtracted(m: Match) {
    && (m.name == "charts" ==> m.full == P.Prefix(P.Charts) && m.extracted == Some(""))
    && (m.name == "bitnami" || m.name == "docker" ==>
          && m.extracted.Some? && m.extracted.value != ""
          && m.full == (if m.name == "bitnami" then P.Prefix(P.Bitnami) else P.Prefix(P.Docker)) + m.extracted.value)
    && (m.name == "oci" && m.extracted.None? ==> m.full == P.Prefix(P.Oci))
    && (m.name == "oci" && m.extracted.Some? ==>
          m.extracted.value != "" && m.full == P.Prefix(P.Oci) + "/" + m.extracted.value)
  }

  lemma TripleWellExtracted(p: P.Pattern, s: string)
    requires P.Search(p, s).Some?
    ensures WellExtracted(Triple(p, P.Search(p, s).value))
  {
    var h := P.Search(p, s).value;
    assert P.MatchAt(p, s, h.start) == Some(h);
    match p
    case Charts => LiteralTripleWellExtracted(s, h);
    case Oci => OptionalTripleWellExtracted(s, h);
    case Bitnami => BoundedTripleWellExtracted(p, s, h);
    case Docker => BoundedTripleWellExtracted(p, s, h);
  }

  lemma LiteralTripleWellExtracted(s: string, h: P.Hit)
    requires h.start <= |s| && P.MatchAt(P.Charts, s, h.start) == Some(h)
    ensures WellExtracted(Triple(P.Charts, h))
  {
    assert P.LiteralAt(P.Prefix(P.Charts), s, h.start) == Some(h);
    assert Triple(P.Charts, h) == Match("charts", P.Prefix(P.Charts), Some(""));
  }

  lemma OptionalTripleWellExtracted(s: string, h: P.Hit)
    requires h.start <= |s| && P.MatchAt(P.Oci, s, h.start) == Some(h)
    ensures WellExtracted(Triple(P.Oci, h))
  {
    assert P.OptionalNameAt(P.Prefix(P.Oci), s, h.start) == Some(h);
    assert Triple(P.Oci, h) == Match("oci", h.full, h.group);
  }

  lemma BoundedTripleWellExtracted(p: P.Pattern, s: string, h: P.Hit)
    requires p == P.Bitnami || p == P.Docker
    requires h.start <= |s| && P.MatchAt(p, s, h.start) == Some(h)
    ensures WellExtracted(Triple(p, h))
  {
    var pre := P.Prefix(p);
    assert P.BoundedNameAt(pre, s, h.start) == Some(h);
    assert P.GreedyNameEnd(s, h.start + |pre|, h.start + |h.full|);
    assert Triple(p, h) == Match(P.Name(p), h.full, h.group);
    assert |h.group.value| > 0;
  }

  /**
   * `charts` has no group, so its extracted value is exactly ""; the others
   * carry group 1 of the first hit, which for `oci` is None without `/name`.
   */
  lemma StringMatchesWellExtracted(s: string)
    ensures forall m :: m in StringMatches(s) ==> WellExtracted(m)
  {
    forall m | m in StringMatches(s) ensures WellExtracted(m) {
      MatchesForMembers(P.Declared, s, m);
      var p :| p in P.Declared && P.Search(p, s).Some? && m == Triple(p, P.Search(p, s).value);
      TripleWellExtracted(p, s);
    }
  }

  /** A table of one pattern contributes that pattern's first hit. */
  lemma MatchesForSingle(p: P.Pattern, s: string)
    ensures MatchesFor([p], s) == PatternMatches(p, s)
  {
    assert [p][1..] == [];
    assert MatchesFor([p], s) == PatternMatches(p, s) + MatchesFor([], s);
  }

  /** A table of four patterns contributes pattern by pattern. */
  lemma MatchesForFour(a: P.Pattern, b: P.Pattern, c: P.Pattern, e: P.Pattern, s: string)
    ensures MatchesFor([a, b, c, e], s) ==
              PatternMatches(a, s) + (PatternMatches(b, s) + (PatternMatches(c, s) + PatternMatches(e, s)))
  {
    var ps := [a, b, c, e];
    assert ps[1..] == [b, c, e];
    assert ps[1..][1..] == [c, e];
    assert ps[1..][1..][1..] == [e];
    MatchesForSingle(e, s);
    var ma, mb, mc, me := PatternMatches(a, s), PatternMatches(b, s), PatternMatches(c, s), PatternMatches(e, s);
    assert MatchesFor([c, e], s) == mc + me;
    assert MatchesFor([b, c, e], s) == mb + (mc + me);
  }

  /** The triples of a scalar are the four patterns' contributions, in the table's order. */
  lemma StringMatchesUnrolled(s: string)
    ensures StringMatches(s) ==
              PatternMatches(P.Bitnami, s) + (PatternMatches(P.Docker, s)
              + (PatternMatches(P.Charts, s) + PatternMatches(P.Oci, s)))
  {
    MatchesForFour(P.Bitnami, P.Docker, P.Charts, P.Oci, s);
  }

  /** Every pattern's literal has a slash, so a scalar without one is no hit for it. */
  lemma NoSlashNoHit(p: P.Pattern, s: string)
    requires '/' !in s
    ensures PatternMatches(p, s) == []
  {
    var pre := P.Prefix(p);
    assert '/' in pre by {
      match p {
        case Bitnami => assert pre[7] == '/';
        case Docker => assert pre[9] == '/';
        case Charts => assert pre[6] == '/';
        case Oci => assert pre[4] == '/';
      }
    }
    MissingCharNotContained(s, pre, '/');
    P.AbsentPrefixNoHit(p, s);
  }

  /** A scalar without a slash yields no triple. */
  lemma NoSlashNoMatches(s: string)
    requires '/' !in s
    ensures StringMatches(s) == []
  {
    NoSlashNoHit(P.Bitnami, s);
    NoSlashNoHit(P.Docker, s);
    NoSlashNoHit(P.Charts, s);
    NoSlashNoHit(P.Oci, s);
    StringMatchesUnrolled(s);
  }

  /** A falsy document has no triples, so skipping it before the walk loses nothing. */
  lemma FalsyHasNoMatches(n: Node)
    requires !Truthy(n)
    ensures Search(n) == []
  {
    if n == Str("") {
      NoSlashNoMatches("");
    }
  }

  /** `charts` yields its triple exactly for the strings containing the charts URL. */
  lemma ChartsHitIff(s: string)
    ensures Match("charts", P.Prefix(P.Charts), Some("")) in StringMatches(s) <==> Contains(s, P.Prefix(P.Charts))
  {
    var m := Match("charts", P.Prefix(P.Charts), Some(""));
    MatchesForMembers(P.Declared, s, m);
    P.LiteralPatternHits(P.Charts, s);
    if Contains(s, P.Prefix(P.Charts)) {
      assert P.Charts in P.Declared && m == Triple(P.Charts, P.Search(P.Charts, s).value);
    }
  }

  /** The table's names tell the patterns apart. */
  lemma NameIdentifies(p: P.Pattern, q: P.Pattern)
    requires P.Name(p) == P.Name(q)
    ensures p == q
  {
    assert Rank(P.Name(P.Bitnami)) == 0 && Rank(P.Name(P.Docker)) == 1;
    assert Rank(P.Name(P.Charts)) == 2 && Rank(P.Name(P.Oci)) == 3;
  }

  /** `oci` yields a triple exactly for the strings containing the OCI registry prefix. */
  lemma OciHitIff(s: string)
    ensures (exists m :: m in StringMatches(s) && m.name == "oci") <==> Contains(s, P.Prefix(P.Oci))
  {
    P.LiteralPatternHits(P.Oci, s);
    if Contains(s, P.Prefix(P.Oci)) {
      var m := Triple(P.Oci, P.Search(P.Oci, s).value);
      MatchesForMembers(P.Declared, s, m);
      assert P.Oci in P.Declared;
      assert m in StringMatches(s) && m.name == "oci";
    }
    if m :| m in StringMatches(s) && m.name == "oci" {
      MatchesForMembers(P.Declared, s, m);
      var p :| p in P.Declared && P.Search(p, s).Some? && m == Triple(p, P.Search(p, s).value);
      assert P.Name(p) == P.Name(P.Oci);
      NameIdentifies(p, P.Oci);
    }
  }

  // ----- nesting does not change the result -----

  /** One level of nesting: an element of a one-element list, or the value under one key. */
  datatype Step = InList | UnderKey(key: Node)

  function Embed(path: seq<Step>, n: Node): Node {
    if path == [] then n
    else match path[0]
      case InList => Sequence([Embed(path[1..], n)])
      case UnderKey(k) => Mapping([KeyValue(k, Embed(path[1..], n))])
  }

  /** A document nested at any depth under keys that match nothing gives the same triples. */
  lemma {:induction false} DepthInvariant(path: seq<Step>, n: Node)
    requires forall i :: 0 <= i < |path| && path[i].UnderKey? ==> Search(path[i].key) == []
    ensures Search(Embed(path, n)) == Search(n)
  {
    if path != [] {
      var inner := Embed(path[1..], n);
      forall i | 0 <= i < |path[1..]| && path[1..][i].UnderKey?
        ensures Search(path[1..][i].key) == []
      {
        assert path[1..][i] == path[i + 1];
      }
      DepthInvariant(path[1..], n);
      match path[0]
      case InList =>
        ListIsConcatenation([], [], inner);
      case UnderKey(k) =>
        MappingIsConcatenation([], [], k, inner);
    }
  }

  // ----- only strings matter: the walk is the per-string step over the string leaves -----

  /** The strings of a document, keys included, in traversal order. */
  function Leaves(n: Node): seq<string>
    decreases n
  {
    match n
    case Mapping(es) => EntryLeaves(es)
    case Sequence(xs) => ItemLeaves(xs)
    case Str(s) => [s]
    case Other(_) => []
  }

  function EntryLeaves(es: seq<KeyValue>): seq<string>
    decreases es
  {
    if es == [] then []
    else
      assert es[0] in es && es[0].key < es[0] && es[0].value < es[0];
      Leaves(es[0].key) + Leaves(es[0].value) + EntryLeaves(es[1..])
  }

  function ItemLeaves(xs: seq<Node>): seq<string>
    decreases xs
  {
    if xs == [] then [] else Leaves(xs[0]) + ItemLeaves(xs[1..])
  }

  /** The per-string step applied to each string in turn. */
  function ConcatMatches(ss: seq<string>): seq<Match> {
    if ss == [] then [] else StringMatches(ss[0]) + ConcatMatches(ss[1..])
  }

  lemma {:induction false} ConcatMatchesAppend(a: seq<string>, b: seq<string>)
    ensures ConcatMatches(a + b) == ConcatMatches(a) + ConcatMatches(b)
  {
    if a != [] {
      assert (a + b)[0] == a[0];
      assert (a + b)[1..] == a[1..] + b;
      ConcatMatchesAppend(a[1..], b);
    } else {
      assert a + b == b;
    }
  }

  /** The walk's triples are the per-string triples of the document's strings, in traversal order. */
  lemma {:induction false} SearchByLeaves(n: Node)
    ensures Search(n) == ConcatMatches(Leaves(n))
    decreases n
  {
    match n
    case Mapping(es) => EntriesByLeaves(es);
    case Sequence(xs) => ItemsByLeaves(xs);
    case Str(s) =>
      assert [s][0] == s && [s][1..] == [];
      assert ConcatMatches([s]) == StringMatches(s) + ConcatMatches([]);
    case Other(_) =>
  }

  lemma {:induction false} EntriesByLeaves(es: seq<KeyValue>)
    ensures SearchEntries(es) == ConcatMatches(EntryLeaves(es))
    decreases es
  {
    if es != [] {
      assert es[0] in es && es[0].key < es[0] && es[0].value < es[0];
      SearchByLeaves(es[0].key);
      SearchByLeaves(es[0].value);
      EntriesByLeaves(es[1..]);
      ConcatMatchesAppend(Leaves(es[0].key), Leaves(es[0].value));
      ConcatMatchesAppend(Leaves(es[0].key) + Leaves(es[0].value), EntryLeaves(es[1..]));
    }
  }

  lemma {:induction false} ItemsByLeaves(xs: seq<Node>)
    ensures SearchItems(xs) == ConcatMatches(ItemLeaves(xs))
    decreases xs
  {
    if xs != [] {
      SearchByLeaves(xs[0]);
      ItemsByLeaves(xs[1..]);
      ConcatMatchesAppend(Leaves(xs[0]), ItemLeaves(xs[1..]));
    }
  }

  /** Numbers, booleans, null and other non-string scalars contribute nothing: a document without strings has no triples. */
  lemma NonStringsContributeNothing(n: Node)
    requires Leaves(n) == []
    ensures Search(n) == []
  {
    SearchByLeaves(n);
  }
}

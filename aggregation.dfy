/**
 * The `results` dictionary both scanners build: repository name to the list
 * of what was found in it, where a repository gets a key only when something
 * is appended for it (Python's `setdefault` followed by `append`).
 */
module Aggregation {

  /** The list recorded for `repo`, or [] while it has no key. */
  function Get<V>(results: map<string, seq<V>>, repo: string): seq<V> {
    if repo in results then results[repo] else []
  }

  /** Appending `e` to the list of `repo`, creating the key when it is missing. */
  function SetDefaultAppend<V>(results: map<string, seq<V>>, repo: string, e: V): (r: map<string, seq<V>>)
    ensures r.Keys == results.Keys + {repo}
    ensures Get(r, repo) == Get(results, repo) + [e]
    ensures forall other :: other != repo ==> Get(r, other) == Get(results, other)
  {
    results[repo := Get(results, repo) + [e]]
  }

  /** The dictionary after appending `entries` for `repo` one by one; no entries, no new key. */
  function Record<V>(results: map<string, seq<V>>, repo: string, entries: seq<V>): (r: map<string, seq<V>>)
    ensures r.Keys == if entries == [] then results.Keys else results.Keys + {repo}
    ensures Get(r, repo) == Get(results, repo) + entries
    ensures forall other :: other != repo ==> Get(r, other) == Get(results, other)
  {
    if entries == [] then results else results[repo := Get(results, repo) + entries]
  }

  /** Appending one entry at a time builds what recording them together builds. */
  lemma RecordStep<V>(results: map<string, seq<V>>, repo: string, entries: seq<V>, e: V)
    ensures Record(results, repo, entries + [e]) == SetDefaultAppend(Record(results, repo, entries), repo, e)
  {
    if entries == [] {
      assert entries + [e] == [e];
    } else {
      var m := Record(results, repo, entries);
      assert Get(m, repo) == Get(results, repo) + entries;
      assert Get(results, repo) + (entries + [e]) == Get(m, repo) + [e];
    }
  }

  /** The dictionary after recording, for each repository in turn, the entries `entriesOf` gives it. */
  function RecordAll<V>(repos: seq<string>, entriesOf: string -> seq<V>): map<string, seq<V>> {
    if repos == [] then map[]
    else
      var last := repos[|repos| - 1];
      Record(RecordAll(repos[..|repos| - 1], entriesOf), last, entriesOf(last))
  }

  lemma RecordAllStep<V>(repos: seq<string>, r: nat, entriesOf: string -> seq<V>)
    requires r < |repos|
    ensures RecordAll(repos[..r + 1], entriesOf) == Record(RecordAll(repos[..r], entriesOf), repos[r], entriesOf(repos[r]))
  {
    assert repos[..r + 1][..r] == repos[..r];
  }

  /** A repository is a key exactly when it was visited and was given some entry. */
  lemma {:induction false} RecordAllKeys<V>(repos: seq<string>, entriesOf: string -> seq<V>, repo: string)
    ensures repo in RecordAll(repos, entriesOf) <==> repo in repos && entriesOf(repo) != []
  {
    if repos != [] {
      var init := repos[..|repos| - 1];
      RecordAllKeys(init, entriesOf, repo);
      assert repos == init + [repos[|repos| - 1]];
      assert repo in repos <==> repo in init || repo == repos[|repos| - 1];
    }
  }

  /** Every recorded entry of a repository is one of the entries it was given. */
  lemma {:induction false} RecordAllEntries<V>(repos: seq<string>, entriesOf: string -> seq<V>, repo: string, e: V)
    requires e in Get(RecordAll(repos, entriesOf), repo)
    ensures e in entriesOf(repo)
  {
    var init := repos[..|repos| - 1];
    var last := repos[|repos| - 1];
    var before := RecordAll(init, entriesOf);
    if e in Get(before, repo) {
      RecordAllEntries(init, entriesOf, repo, e);
    } else {
      assert repo == last;
      assert Get(RecordAll(repos, entriesOf), repo) == Get(before, repo) + entriesOf(last);
    }
  }

  /** With distinct repositories, a repository's list is exactly the entries it was given. */
  lemma {:induction false} RecordAllOfDistinct<V>(repos: seq<string>, entriesOf: string -> seq<V>, repo: string)
    requires forall i, j :: 0 <= i < j < |repos| ==> repos[i] != repos[j]
    requires repo in repos
    ensures Get(RecordAll(repos, entriesOf), repo) == entriesOf(repo)
  {
    var init := repos[..|repos| - 1];
    var last := repos[|repos| - 1];
    RecordAllKeys(init, entriesOf, repo);
    assert repos == init + [last];
    if repo != last {
      assert repo in init;
      assert forall i, j :: 0 <= i < j < |init| ==> init[i] != init[j] by {
        forall i, j | 0 <= i < j < |init| ensures init[i] != init[j] {
          assert init[i] == repos[i] && init[j] == repos[j];
        }
      }
      RecordAllOfDistinct(init, entriesOf, repo);
    } else {
      assert repo !in init;
      assert Get(RecordAll(init, entriesOf), repo) == [];
      assert [] + entriesOf(repo) == entriesOf(repo);
    }
  }
}

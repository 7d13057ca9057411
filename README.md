# Bitnami usage scanners, modelled in Dafny

The repository holds two scripts. Each scans every repository of a GitHub
organization for references to Bitnami charts and images.

- `find1.py` lists the organization's repositories page by page. It keeps the
  `.yaml`/`.yml` blobs of each repository's tree and loads each one with
  `yaml.safe_load`. It then walks the loaded document depth-first, keys
  included, and tests every string against a table of four regular
  expressions: `bitnami`, `docker`, `charts` and `oci`. A file is recorded
  under its repository, together with its `(name, full match, group)` triples,
  only when the walk found something.
- `find.py` does the same crawl. It flags a file when its raw text contains
  one of three fixed texts, and records only the path.

The model keeps the decision logic of both scripts and proves what it
promises. The HTTP responses are inputs: a sequence of listing pages, a tree
response per repository and a file response per path. `yaml.safe_load` is a
given function from text to a parse outcome. What the scripts change step by
step is written as imperative Dafny:

- the paging loops;
- the accumulator walk of `recursive_search`;
- the nested loops of `main` that fill the `results` dictionary.

Each such method is proved equal to a specification function, and the
properties are lemmas about those functions.

Modules, leaves first:

- `Wrappers`: Option and Result.
- `Strings`: occurrence, containment and suffix of literals.
- `GitHub`: the API responses and the paging specification shared by both scripts.
- `Yaml`: the loaded document tree and Python truthiness.
- `Aggregation`: the `results` dictionary and its setdefault-and-append update.
- `Patterns`: find1's pattern table and an ASCII model of `re.search` on it.
- `StructuralSearch`: `search_bitnami_in_yaml`.
- `StructuredScan`: find1's crawl.
- `Detector`: find.py's `contains_bitnami`.
- `TextScan`: find.py's crawl.
- `Agreement`: lemmas relating the two scripts.
- `Scenarios`: worked documents.

The regex model follows the code:

- `\w` is `[A-Za-z0-9_]`, and `\b` holds where exactly one neighbour is a word character.
- `[\w\-.]+\b` takes the longest run of name characters and backs off to the last position where `\b` holds.
- `(?:/([\w\-.]+))?` takes the slash and the whole run whenever one name character follows.
- `re.search` returns the hit at the leftmost index where the pattern matches.

Behaviour of the code that the model keeps and a reader might not expect:

- Only the first hit of each pattern in a string is recorded (find1.py line 73); later hits of the same pattern in that string are not.
- A file that fails to load is skipped (find1.py lines 99-102), with no raw-text fallback.
- The `oci` group is optional, so its extracted value can be None (find1.py lines 20 and 76).
- `docker.io/bitnami/nginx:1.2` yields two triples, `bitnami` then `docker`. `\b` holds between `/` and `b`, so `bitnami` hits `bitnami/nginx` as well as `docker` hitting `docker.io/bitnami/nginx`, the reference up to the tag, where `\b` holds before the colon (`Scenarios.ImageMatches`).
- find1.py ends its listing quietly at a failed page, with the repositories seen so far (find1.py lines 30-32), while find.py raises there (find.py lines 25-26).
- In find.py an undecodable file body raises, and nothing catches it, so it ends the whole scan. The model returns `DecodeFailed` for it.

## Model

| member | source | states |
|---|---|---|
| Strings.Find | find.py:50 | the search for an escaped literal succeeds exactly when the text contains it, and it reports the leftmost occurrence |
| Strings.MissingCharNotContained | find.py:50 | a text that lacks one of a literal's characters does not contain the literal |
| Strings.ContainsPart | find.py:50 | a text that contains a literal contains every slice of it |
| Strings.EndsWith | find1.py:47 | Python's `str.endswith`: the text ends with the suffix exactly when it is some text followed by the suffix |
| Patterns.RunEnd | find1.py:17-18 | the end of the maximal run of `[\w\-.]` characters from an index |
| Patterns.BacktrackEnd | find1.py:17-18 | the largest end in the run where `\b` holds, or none when no end in the run has `\b` |
| Patterns.NameTail | find1.py:17-18 | a group end found meets GreedyNameEnd: a non-empty run of name characters, followed by `\b`, and longest among such runs; none found means no run from that index is followed by `\b` |
| Patterns.OptionalName | find1.py:20 | the optional `/name` group is taken exactly when a slash and one name character follow, and it then runs to the end of the name characters |
| Patterns.LiteralAt | find1.py:19 | `charts` hits at an index exactly when its text starts there; the hit is the literal, with no group |
| Patterns.OptionalNameAt | find1.py:20 | `oci` hits exactly where its literal starts; the group is None and the hit is the literal when no `/name` follows; otherwise the group is that name and the hit is literal + "/" + name |
| Patterns.BoundedNameAt | find1.py:17-18 | a `bitnami`/`docker` hit has `\b` before it and the literal at its start; its group is a greedy name ending at `\b`; when `\b` and the literal are present but no name end has `\b`, there is no hit |
| Patterns.MatchAt | find1.py:16-21 | any hit starts at the tried index, begins with the pattern's literal, and its full text occurs there |
| Patterns.FirstMatch | find1.py:73 | `re.search` finds the leftmost matching index: no index before the hit matches; no hit means no index matches |
| Patterns.LiteralPatternHits | find1.py:19-20 | `charts` and `oci` hit a string exactly when it contains their literal |
| Patterns.HitContainsPrefix | find1.py:16-21 | a hit lies in the string and the string contains the pattern's literal |
| Patterns.AbsentPrefixNoHit | find1.py:16-21 | a string without the pattern's literal gets no hit for that pattern |
| Patterns.FirstMatchSkip | find1.py:73 | indices where the pattern cannot match do not change the search result |
| StructuralSearch.RecursiveSearch | find1.py:63-77 | the walk appends to the enclosing list exactly the triples of Search(obj): keys before values, list order, strings only |
| StructuralSearch.SearchString | find1.py:72-77 | the pattern loop appends exactly the table's per-pattern first-hit triples, in declared order |
| StructuralSearch.SearchPattern | find1.py:73-77 | one pattern's step appends its first-hit triple when it hits, and nothing otherwise |
| StructuralSearch.SearchBitnamiInYaml | find1.py:60-80 | the returned list is Search(data) |
| StructuralSearch.MatchesForAppend | find1.py:72-77 | a split table contributes the triples of its first part, then those of the rest |
| StructuralSearch.SearchEntriesAppend | find1.py:64-67 | a mapping's entries contribute in iteration order: the first entries' triples, then the rest's |
| StructuralSearch.SearchItemsAppend | find1.py:68-70 | a list's elements contribute in order |
| StructuralSearch.MappingIsConcatenation | find1.py:64-67 | a mapping's triples concatenate over any split of its entries, and one entry gives its key's triples, then its value's |
| StructuralSearch.ListIsConcatenation | find1.py:68-70 | a list's triples concatenate over any split, and a one-element list gives its element's triples |
| StructuralSearch.StringMatchesInDeclaredOrder | find1.py:72-77 | one string yields at most four triples, each named by the table, with strictly increasing rank: at most one per pattern, in the order bitnami, docker, charts, oci |
| StructuralSearch.PatternMatchesNamed | find1.py:73-77 | one pattern contributes at most one triple, named by that pattern |
| StructuralSearch.SuffixInDeclaredOrder | find1.py:72-77 | the table from any position on yields at most one triple per remaining pattern, in increasing rank, none ranked before that position |
| StructuralSearch.MatchesForMembers | find1.py:72-77 | a triple is in a string's result exactly when some pattern of the table hits and the triple is built from its first hit |
| StructuralSearch.TripleWellExtracted | find1.py:75-77 | a triple's contents follow its pattern: `charts` is the URL with extracted ""; `bitnami`/`docker` is the literal plus a non-empty group; `oci` is the literal alone with None, or literal/name with the name |
| StructuralSearch.LiteralTripleWellExtracted | find1.py:19 | a `charts` hit gives the triple (charts, URL, "") |
| StructuralSearch.OptionalTripleWellExtracted | find1.py:20 | an `oci` hit gives the literal with None, or literal/name with the name |
| StructuralSearch.BoundedTripleWellExtracted | find1.py:17-18 | a `bitnami` or `docker` hit gives the literal followed by its non-empty group, with that group extracted |
| StructuralSearch.StringMatchesWellExtracted | find1.py:72-77 | every triple of a string has the shape TripleWellExtracted states |
| StructuralSearch.MatchesForSingle | find1.py:72-77 | a one-pattern table yields that pattern's first-hit triple or nothing |
| StructuralSearch.MatchesForFour | find1.py:72-77 | a four-pattern table yields the four patterns' contributions, in order |
| StructuralSearch.StringMatchesUnrolled | find1.py:72-77 | a string's triples are bitnami's, then docker's, then charts', then oci's |
| StructuralSearch.NoSlashNoHit | find1.py:16-21 | every pattern's literal contains a slash, so a string without one is no hit |
| StructuralSearch.NoSlashNoMatches | find1.py:16-21 | a string without a slash yields no triple |
| StructuralSearch.ChartsHitIff | find1.py:19 | the `charts` triple (URL, "") is in a string's result exactly when the string contains the charts URL |
| StructuralSearch.NameIdentifies | find1.py:16-21 | the table's names are distinct |
| StructuralSearch.OciHitIff | find1.py:20 | a string yields an `oci` triple exactly when it contains the OCI registry literal |
| StructuralSearch.DepthInvariant | find1.py:63-70 | a finite document, nested in any number of one-element lists or under keys that match nothing, yields the same triples (within Python's recursion limit; see "## Left out") |
| StructuralSearch.ConcatMatchesAppend | find1.py:72-77 | the per-string step distributes over concatenation of the strings |
| StructuralSearch.SearchByLeaves | find1.py:63-77 | the walk's triples are the per-string triples of the document's strings (keys included) in traversal order |
| StructuralSearch.EntriesByLeaves | find1.py:64-67 | the same, for the entries of a mapping |
| StructuralSearch.ItemsByLeaves | find1.py:68-70 | the same, for the elements of a list |
| StructuralSearch.NonStringsContributeNothing | find1.py:63-77 | numbers, booleans, null and empty containers contribute nothing: a document without strings has no triples |
| Yaml.Truthy | find1.py:103 | `not parsed_yaml` holds exactly for the empty mapping, the empty list, the empty string and a false scalar |
| StructuralSearch.FalsyHasNoMatches | find1.py:103-104 | a falsy document has no triples, so the skip before the walk loses nothing |
| GitHub.StopIndex | find1.py:27-35 | the index of the first page that fails or is empty; every earlier page succeeded and was non-empty |
| GitHub.NamesStep | find1.py:36 | the names of one more page are the earlier names followed by that page's names |
| Aggregation.SetDefaultAppend | find1.py:107 | the repository becomes a key; its list gains the entry at the end; no other repository changes |
| Aggregation.Record | find1.py:95-107 | recording no entries adds no key; otherwise the repository's list gains the entries at its end and no other list changes |
| Aggregation.RecordStep | find1.py:107 | recording entries one setdefault-and-append at a time equals recording them together |
| Aggregation.RecordAllStep | find1.py:87-107 | recording one more repository records its entries on top of the earlier dictionary |
| Aggregation.RecordAllKeys | find1.py:87-107 | a repository is a key exactly when it was visited and had entries |
| Aggregation.RecordAllEntries | find1.py:87-107 | every recorded entry of a repository is one of its entries |
| Aggregation.RecordAllOfDistinct | find1.py:87-107 | with distinct repository names, each repository's list is exactly its entries, in order |
| StructuredScan.GetAllRepos | find1.py:23-39 | the names of all pages before the first page that fails or is empty, in page order; a failure ends the listing without error |
| StructuredScan.YamlFiles | find1.py:46-47 | a path is kept exactly when some tree entry with that path is a blob ending in .yaml or .yml; no more paths than entries |
| StructuredScan.YamlFilesAppend | find1.py:46-47 | the filter keeps tree order |
| StructuredScan.GetYamlFiles | find1.py:41-47 | a tree request that is not 200 gives no paths; otherwise a path is kept exactly when the tree has a `.yaml`/`.yml` blob with that path |
| StructuredScan.FetchFileContent | find1.py:49-58 | the text is present exactly when the request is 200 and its body could be decoded, and it is then the decoded body; otherwise None |
| StructuredScan.ScanFile | find1.py:96-105 | one file's step yields FileHits: nothing when the fetch fails, the text is empty, loading fails or the document is falsy; otherwise the document's triples |
| StructuredScan.ScanRepoFiles | find1.py:95-107 | the file loop appends to the repository's list exactly the entries RepoEntries specifies |
| StructuredScan.EntriesStep | find1.py:95-107 | one more file adds its `(path, triples)` entry exactly when its triples are non-empty |
| StructuredScan.EntriesMembers | find1.py:95-107 | an entry is recorded exactly when its path is listed and its triples, which are the recorded ones, are non-empty |
| StructuredScan.EntriesAppend | find1.py:95-107 | entries over concatenated path lists are the concatenation of the entries |
| StructuredScan.ScanStep | find1.py:87-107 | one more repository records that repository's entries on top of the earlier results |
| StructuredScan.ScanOrganization | find1.py:82-107 | the results dictionary is Scan over the listed repositories |
| StructuredScan.FileHitsExactly | find1.py:96-106 | a file yields triples exactly when it was fetched with 200, decoded to non-empty text, loaded without error to a truthy document, and that document has triples; the triples are the document's |
| StructuredScan.RepoEntriesMembers | find1.py:95-107 | an entry is recorded for a repository exactly when its path is listed and the file's triples are non-empty and are the recorded ones |
| StructuredScan.RepoEntriesAppend | find1.py:95-107 | entries follow listing order |
| StructuredScan.ScanKeys | find1.py:87-107 | a repository is a key of the results exactly when it was listed and one of its files yielded triples |
| StructuredScan.ScanEntriesRecorded | find1.py:87-107 | every recorded entry of a repository is one of that repository's entries |
| StructuredScan.RecordedOnlyWhenFound | find1.py:87-107 | every recorded `(path, matches)` was listed as a YAML blob of a listed repository, fetched with 200, decoded to non-empty text and loaded to a truthy document, and `matches` are that document's non-empty triples |
| StructuredScan.ScanOfDistinct | find1.py:87-107 | with distinct repository names, a repository's recorded list is exactly its entries, in listing order |
| Detector.AnyOccurs | find.py:50 | any-of-search over literal patterns holds exactly when one of them occurs in the text |
| Detector.ContainsBitnami | find.py:49-50 | the text is flagged exactly when it contains `bitnami/`, the charts URL or the OCI registry text |
| Detector.EmptyNotFlagged | find.py:49-50 | the empty text is never flagged |
| Detector.FlaggedInfix | find.py:49-50 | flagged text stays flagged inside any larger text |
| TextScan.GetRepos | find.py:19-32 | the listing fails exactly when a failed page comes before the first empty page, with that page's body as the error; otherwise it yields the names of all pages before the first empty page |
| TextScan.YamlFiles | find.py:39-40 | a path is kept exactly when some tree entry with that path ends in .yaml or .yml and is a blob |
| TextScan.GetYamlFiles | find.py:34-40 | a tree request that is not 200 gives no paths; otherwise a path is kept exactly when the tree has a `.yaml`/`.yml` blob with that path |
| TextScan.GetFileContent | find.py:42-47 | a failed request gives ""; the call raises exactly when the request succeeded and the body cannot be decoded; a succeeded request with a decodable body gives that decoded text |
| TextScan.ScanRepoFiles | find.py:58-61 | the file loop either raises Flagged's error or appends exactly Flagged's paths to the repository's list |
| TextScan.ScanOrganization | find.py:52-61 | a failed listing ends the scan with its error; otherwise the result is Scan over the listed repositories |
| TextScan.ScanStep | find.py:56-61 | one more repository either ends the scan with its error or records its flagged paths on top of the earlier results |
| TextScan.RecordFlaggedFailureStays | find.py:56-61 | once some repository's paths are an error, the fold keeps that error to the end |
| TextScan.RecordFlaggedFailsIff | find.py:56-61 | the fold fails exactly when some visited repository's paths are an error |
| TextScan.RecordFlaggedKeys | find.py:56-61 | without error, a repository is a key exactly when it was visited and had flagged paths |
| TextScan.RecordFlaggedOfDistinct | find.py:56-61 | with distinct names and no error, each repository's list is exactly its flagged paths |
| TextScan.FlaggedFailureStays | find.py:58-61 | once a file raises, the repository's scan ends with that error, whatever follows |
| TextScan.ScanFailureStays | find.py:56-61 | once a repository raises, the whole scan ends with that error, whatever follows |
| TextScan.FlaggedFailsIff | find.py:58-61 | a repository's scan fails exactly when one of its listed files is fetched with 200 but cannot be decoded |
| TextScan.FlaggedMembers | find.py:58-61 | without error, the flagged paths are exactly the listed paths whose text contains_bitnami flags |
| TextScan.FailedFetchNotFlagged | find.py:45-46 | a file whose request failed reads as "" and is never recorded |
| TextScan.FlaggedAppend | find.py:58-61 | flagged paths follow listing order |
| TextScan.ScanFailsIff | find.py:56-61 | the whole scan fails exactly when some listed file of some listed repository raises |
| TextScan.ScanKeys | find.py:56-61 | a repository is a key of the results exactly when it was listed and one of its files was flagged |
| TextScan.ScanOfDistinct | find.py:56-61 | with distinct repository names, a repository's recorded list is exactly its flagged paths, in listing order |
| Agreement.FiltersAgree | find.py:39-40 | the two scripts' YAML filters keep the same paths in the same order, whatever the order of the two conditions |
| Agreement.FlaggedText | find.py:13-17 | the text of find.py's list that each find1 pattern's literal contains |
| Agreement.PatternHitIsFlagged | find.py:13-17 | a hit of any find1 pattern makes find.py flag the string |
| Agreement.PrefixIsFlagged | find.py:13-17 | a string containing a find1 pattern's literal contains that pattern's text of find.py's list |
| Agreement.StringHitIsFlagged | find.py:49-50 | a string that yields a triple in find1.py is flagged by find.py |
| Agreement.SomeLeafHits | find1.py:72-77 | triples over a list of strings come from some string of it |
| Agreement.DocumentHitIsFlagged | find.py:49-50 | a document with triples has a string, key or value, that find.py flags |
| Scenarios.ImageNameTail | find1.py:17 | in `docker.io/bitnami/nginx:1.2` the name after `bitnami/` is `nginx`, ending at the colon |
| Scenarios.ImageNoEarlyBitnami | find1.py:17 | `bitnami` cannot match before index 10 of that reference |
| Scenarios.ImageBitnamiAt | find1.py:17 | `bitnami` matches `bitnami/nginx` at index 10, with the group `nginx` |
| Scenarios.ImageBitnami | find1.py:17 | `bitnami`'s first hit in the reference is `bitnami/nginx`, with the group `nginx` |
| Scenarios.ImageDocker | find1.py:18 | `docker`'s first hit is the whole reference up to the tag, with the group `nginx` |
| Scenarios.ImageNoLiteralHits | find1.py:19-20 | neither `charts` nor `oci` hits the reference |
| Scenarios.ImageMatches | find1.py:72-77 | the reference yields the `bitnami` triple, then the `docker` triple |
| Scenarios.ImageDocument | find1.py:63-77 | the document `{image: docker.io/bitnami/nginx:1.2}` yields those two triples and nothing for the key |
| Scenarios.ChartRepoHit | find1.py:19 | the charts URL is a `charts` hit with no group, recorded with extracted "" |
| Scenarios.OciChartHit | find1.py:20 | `oci://registry-1.docker.io/bitnamicharts/redis` is an `oci` hit of the whole string, with the group `redis` |
| Scenarios.ChartRepoNoBitnamiPath | find1.py:17 | `bitnami/` does not occur in the chart repository URL |
| Scenarios.ChartRepoNoBitnami | find1.py:17 | `bitnami` does not hit the chart repository URL |
| Scenarios.ChartRepoNoDockerOciPrefix | find1.py:18-20 | the chart repository URL contains neither `docker`'s nor `oci`'s literal |
| Scenarios.ChartRepoNoDockerOci | find1.py:18-20 | neither `docker` nor `oci` hits the chart repository URL |
| Scenarios.ChartRepoMatches | find1.py:72-77 | the chart repository URL yields exactly one triple, (charts, URL, "") |
| Scenarios.ChartRepositoryEntry | find1.py:63-77 | `{repository: <charts URL>}` yields that one triple, and the key nothing |
| Scenarios.ChartDocument | find1.py:63-77 | `{chart: {repository: "https://charts.bitnami.com/bitnami"}}` yields exactly one triple, (charts, URL, "") |
| Scenarios.OciChartNoDockerPath | find1.py:18 | `docker.io/bitnami/` does not occur in the OCI reference |
| Scenarios.OciChartNoBitnamiPath | find1.py:17 | `bitnami/` does not occur in the OCI reference |
| Scenarios.OciChartNoBitnamiDocker | find1.py:17-18 | neither `bitnami` nor `docker` hits the OCI reference |
| Scenarios.OciChartNoChartsUrl | find1.py:19 | the charts URL does not occur in the OCI reference |
| Scenarios.OciChartNoCharts | find1.py:19 | `charts` does not hit the OCI reference |
| Scenarios.OciChartMatches | find1.py:72-77 | the OCI reference yields exactly one triple, (oci, reference, "redis") |
| Scenarios.OciDocument | find1.py:63-77 | `{dependency: "oci://registry-1.docker.io/bitnamicharts/redis"}` yields exactly one triple, (oci, reference, "redis") |

## Left out

- HTTP requests, the token and headers, URL construction and `time.sleep`. These are network I/O and rate-limit plumbing, so the responses are inputs to the model.
- Base64 and UTF-8 decoding, with invalid bytes dropped. These are library calls, so a file response carries the decoded text or None.
- `yaml.safe_load`, a foreign parser. It is the given function `parse` from text to `ParseError | Parsed(doc)`.
- Listing pages past the given sequence. They answer 200 with an empty list, which is what the exhausted listing returns.
- Unicode `\w` and `\b`. Word characters are the ASCII ones, so a non-ASCII letter next to a name ends it in the model, unlike Python.
- Exceptions other than `yaml.YAMLError` raised while loading. find1.py catches only `yaml.YAMLError` around `yaml.safe_load` (lines 99-102). PyYAML can raise other errors: a date-shaped scalar that is not a real date, such as `d: 2020-13-45`, raises `ValueError` when the timestamp is built, and a document nested past Python's recursion limit raises `RecursionError` in PyYAML's recursive composer. Nothing catches these, so the whole find1 scan ends. The model's `parse` has only the outcomes `ParseError` and `Parsed`, so the model skips the loading error or walks the document and goes on.
- Documents the walk cannot finish. `recursive_search` (find1.py lines 63-70) makes one Python call per nesting level. A self-referential document such as `&a [*a]` loads as a list that contains itself, and the walk then raises `RecursionError`, which nothing catches, so the whole find1 scan ends. A `Node` is finite and the model has no recursion limit, so the model walks every document to the end and never takes this path.
- Scalars other than strings. They are `Other` with their truthiness only, because the walk ignores them.
- A mapping is the sequence of its entries in iteration order. Duplicate keys, which `safe_load` collapses, are the parser's concern.
- Printing the report, the emoji and progress messages (find1.py lines 109-121, find.py lines 62-66). This is console output.
- API bodies without the expected fields. That covers a repository record without `name` and a tree response without `tree`: the scripts raise `KeyError`, and the API never answers that way. In find1.py the `except` around `get_yaml_files` would skip that repository.
- `requests` exceptions (connection errors, invalid JSON). These are transport failures.
- Python dictionary insertion order across repositories. It affects only the printing order of the report, and `results` is a `map`.
- Concurrency, worker pools and a raw-text fallback. Neither script has them.

/**
 * The crawl of find1.py: list every repository page by page (stopping
 * quietly at the first failed or empty page), keep the `.yaml`/`.yml` blobs
 * of each repository's tree, fetch and load each one, and record a file with
 * its triples only when the structural search found some.
 */
module StructuredScan {
  import opened Wrappers
  import opened Strings
  import opened GitHub
  import opened Yaml
  import opened StructuralSearch
  import opened Aggregation

  // ----- get_all_repos -----

  /** `get_all_repos()`: the names of all pages before the first page that fails or is empty; a failure ends the listing with no error. */
  method GetAllRepos(pages: seq<Page>) returns (repos: seq<string>)
    ensures repos == Names(pages[..StopIndex(pages)])
  {
    repos := [];
    var page: nat := 1;
    while true
      invariant 1 <= page <= |pages| + 1
      invariant page - 1 <= StopIndex(pages)
      invariant repos == Names(pages[..page - 1])
      decreases |pages| + 1 - page
    {
      var res := Respond(pages, page);
      if res.status != OK {
        break;
      }
      var data := res.names;
      if data == [] {
        break;
      }
      NamesStep(pages, page - 1);
      repos := repos + data;
      page := page + 1;
    }
  }

  // ----- get_yaml_files -----

  /** The comprehension's condition, conjuncts in find1.py's order. */
  predicate IsYamlBlob(e: Entry) {
    e.kind == "blob" && (EndsWith(e.path, ".yaml") || EndsWith(e.path, ".yml"))
  }

  /** The paths of the tree's YAML blobs. */
  function YamlFiles(tree: seq<Entry>): (r: seq<string>)
    ensures |r| <= |tree|
    ensures forall p :: p in r <==> exists e :: e in tree && IsYamlBlob(e) && e.path == p
  {
    if tree == [] then []
    else (if IsYamlBlob(tree[0]) then [tree[0].path] else []) + YamlFiles(tree[1..])
  }

  /** The filter keeps tree order: it distributes over concatenation, one entry at a time. */
  lemma {:induction false} YamlFilesAppend(a: seq<Entry>, b: seq<Entry>)
    ensures YamlFiles(a + b) == YamlFiles(a) + YamlFiles(b)
  {
    if a != [] {
      assert (a + b)[0] == a[0];
      assert (a + b)[1..] == a[1..] + b;
      YamlFilesAppend(a[1..], b);
    } else {
      assert a + b == b;
    }
  }

  /** `get_yaml_files(repo)`: nothing when the tree cannot be listed. */
  function GetYamlFiles(res: TreeResponse): (r: seq<string>)
    ensures res.status != OK ==> r == []
    ensures forall p :: p in r <==> res.status == OK && exists e :: e in res.tree && IsYamlBlob(e) && e.path == p
  {
    if res.status != OK then [] else YamlFiles(res.tree)
  }

  // ----- fetch_file_content -----

  /** `fetch_file_content(repo, path)`: None on a failed request or an undecodable body. */
  function FetchFileContent(res: FileResponse): (r: Option<string>)
    ensures r.Some? <==> res.status == OK && res.decoded.Some?
    ensures r.Some? ==> r == res.decoded
  {
    if res.status != OK then None else res.decoded
  }

  // ----- main -----

  /** One recorded file: its path and its triples. */
  type FileMatches = (string, seq<Match>)

  /** The triples lines 96-106 of find1.py find for one file; [] when the file is skipped. */
  function FileHits(res: FileResponse, parse: string -> ParseOutcome): seq<Match> {
    match FetchFileContent(res)
    case None => []
    case Some(content) =>
      if content == "" then []
      else match parse(content)
        case ParseError => []
        case Parsed(doc) => if !Truthy(doc) then [] else Search(doc)
  }

  /** The `(path, matches)` entries of a listing, given each path's triples: the paths with triples, in listing order. */
  function Entries(paths: seq<string>, hits: string -> seq<Match>): seq<FileMatches> {
    if paths == [] then []
    else
      var last := paths[|paths| - 1];
      Entries(paths[..|paths| - 1], hits) + (if hits(last) != [] then [(last, hits(last))] else [])
  }

  /** The entries one repository contributes for its listed paths, in listing order. */
  function RepoEntries(repo: string, paths: seq<string>,
                       files: (string, string) -> FileResponse,
                       parse: string -> ParseOutcome): seq<FileMatches>
  {
    Entries(paths, path => FileHits(files(repo, path), parse))
  }

  /** The `results` dictionary after the given repositories have been scanned. */
  function Scan(repos: seq<string>, trees: string -> TreeResponse,
                files: (string, string) -> FileResponse,
                parse: string -> ParseOutcome): map<string, seq<FileMatches>>
  {
    RecordAll(repos, repo => RepoEntries(repo, GetYamlFiles(trees(repo)), files, parse))
  }

  lemma RepoEntriesStep(repo: string, paths: seq<string>, f: nat,
                        files: (string, string) -> FileResponse, parse: string -> ParseOutcome)
    requires f < |paths|
    ensures var ms := FileHits(files(repo, paths[f]), parse);
            RepoEntries(repo, paths[..f + 1], files, parse)
              == RepoEntries(repo, paths[..f], files, parse) + (if ms != [] then [(paths[f], ms)] else [])
  {
    EntriesStep(paths, f, path => FileHits(files(repo, path), parse));
  }

  lemma EntriesStep(paths: seq<string>, f: nat, hits: string -> seq<Match>)
    requires f < |paths|
    ensures Entries(paths[..f + 1], hits)
              == Entries(paths[..f], hits) + (if hits(paths[f]) != [] then [(paths[f], hits(paths[f]))] else [])
  {
    assert paths[..f + 1][..f] == paths[..f];
  }

  lemma ScanStep(repos: seq<string>, r: nat, trees: string -> TreeResponse,
                 files: (string, string) -> FileResponse, parse: string -> ParseOutcome)
    requires r < |repos|
    ensures Scan(repos[..r + 1], trees, files, parse)
              == Record(Scan(repos[..r], trees, files, parse), repos[r],
                        RepoEntries(repos[r], GetYamlFiles(trees(repos[r])), files, parse))
  {
    RecordAllStep(repos, r, repo => RepoEntries(repo, GetYamlFiles(trees(repo)), files, parse));
  }

  /** The body of main's file loop for one path: fetch, skip, load, skip, search. */
  method ScanFile(res: FileResponse, parse: string -> ParseOutcome) returns (matches: seq<Match>)
    ensures matches == FileHits(res, parse)
  {
    matches := [];
    var content := FetchFileContent(res);
    if content.None? || content.value == "" {
      return;
    }
    var parsed := parse(content.value);
    if parsed.ParseError? {
      return;
    }
    if !Truthy(parsed.doc) {
      return;
    }
    matches := SearchBitnamiInYaml(parsed.doc);
  }

  /** The organization scan's loop over the YAML files of one repository (find1.py lines 95-107). */
  method ScanRepoFiles(results0: map<string, seq<FileMatches>>, repo: string, yamlFiles: seq<string>,
                       files: (string, string) -> FileResponse, parse: string -> ParseOutcome)
    returns (results: map<string, seq<FileMatches>>)
    ensures results == Record(results0, repo, RepoEntries(repo, yamlFiles, files, parse))
  {
    results := results0;
    for f := 0 to |yamlFiles|
      invariant results == Record(results0, repo, RepoEntries(repo, yamlFiles[..f], files, parse))
    {
      var path := yamlFiles[f];
      var matches := ScanFile(files(repo, path), parse);
      ghost var done := RepoEntries(repo, yamlFiles[..f], files, parse);
      RepoEntriesStep(repo, yamlFiles, f, files, parse);
      if matches != [] {
        RecordStep(results0, repo, done, (path, matches));
        results := SetDefaultAppend(results, repo, (path, matches));
        assert RepoEntries(repo, yamlFiles[..f + 1], files, parse) == done + [(path, matches)];
      } else {
        assert RepoEntries(repo, yamlFiles[..f + 1], files, parse) == done + [];
        assert done + [] == done;
      }
    }
    assert yamlFiles[..|yamlFiles|] == yamlFiles;
  }

  /**
   * `main()` without its report: the per-repository loop of find1.py.
   * Listing, fetching and loading are the given responses and the given parser.
   */
  method ScanOrganization(pages: seq<Page>, trees: string -> TreeResponse,
              files: (string, string) -> FileResponse,
              parse: string -> ParseOutcome) returns (results: map<string, seq<FileMatches>>)
    ensures results == Scan(Names(pages[..StopIndex(pages)]), trees, files, parse)
  {
    var repos := GetAllRepos(pages);
    results := map[];
    for r := 0 to |repos|
      invariant results == Scan(repos[..r], trees, files, parse)
    {
      var repo := repos[r];
      var yamlFiles := GetYamlFiles(trees(repo));
      results := ScanRepoFiles(results, repo, yamlFiles, files, parse);
      ScanStep(repos, r, trees, files, parse);
    }
    assert repos[..|repos|] == repos;
  }

  // ----- what gets recorded -----

  /** A file yields triples exactly when it was fetched, is non-empty, loaded without error to a truthy document, and that document has triples; they are the document's. */
  lemma FileHitsExactly(res: FileResponse, parse: string -> ParseOutcome)
    ensures FileHits(res, parse) != [] <==>
              && res.status == OK && res.decoded.Some? && res.decoded.value != ""
              && parse(res.decoded.value).Parsed?
              && Truthy(parse(res.decoded.value).doc)
              && Search(parse(res.decoded.value).doc) != []
    ensures FileHits(res, parse) != [] ==> FileHits(res, parse) == Search(parse(res.decoded.value).doc)
  {
  }

  /** A repository's entries are exactly its listed paths that yielded triples, each with those triples. */
  lemma RepoEntriesMembers(repo: string, paths: seq<string>,
                           files: (string, string) -> FileResponse,
                           parse: string -> ParseOutcome, e: FileMatches)
    ensures e in RepoEntries(repo, paths, files, parse) <==>
              e.0 in paths && e.1 == FileHits(files(repo, e.0), parse) && e.1 != []
  {
    EntriesMembers(paths, path => FileHits(files(repo, path), parse), e);
  }

  lemma {:induction false} EntriesMembers(paths: seq<string>, hits: string -> seq<Match>, e: FileMatches)
    ensures e in Entries(paths, hits) <==> e.0 in paths && e.1 == hits(e.0) && e.1 != []
  {
    if paths != [] {
      var init := paths[..|paths| - 1];
      var last := paths[|paths| - 1];
      EntriesMembers(init, hits, e);
      assert paths == init + [last];
      assert e.0 in paths <==> e.0 in init || e.0 == last;
    }
  }

  /** Entries follow listing order: the entries of a listing are those of its first part, then those of the rest. */
  lemma RepoEntriesAppend(repo: string, a: seq<string>, b: seq<string>,
                          files: (string, string) -> FileResponse,
                          parse: string -> ParseOutcome)
    ensures RepoEntries(repo, a + b, files, parse)
              == RepoEntries(repo, a, files, parse) + RepoEntries(repo, b, files, parse)
  {
    EntriesAppend(a, b, path => FileHits(files(repo, path), parse));
  }

  lemma {:induction false} EntriesAppend(a: seq<string>, b: seq<string>, hits: string -> seq<Match>)
    ensures Entries(a + b, hits) == Entries(a, hits) + Entries(b, hits)
    decreases |b|
  {
    if b == [] {
      assert a + b == a;
    } else {
      var init := b[..|b| - 1];
      EntriesAppend(a, init, hits);
      assert (a + b)[..|a + b| - 1] == a + init;
      assert (a + b)[|a + b| - 1] == b[|b| - 1];
    }
  }

  /** A repository is a key of the results exactly when one of its files yielded triples. */
  lemma ScanKeys(repos: seq<string>, trees: string -> TreeResponse,
                 files: (string, string) -> FileResponse,
                 parse: string -> ParseOutcome, repo: string)
    ensures repo in Scan(repos, trees, files, parse) <==>
              repo in repos && RepoEntries(repo, GetYamlFiles(trees(repo)), files, parse) != []
  {
    RecordAllKeys(repos, r => RepoEntries(r, GetYamlFiles(trees(r)), files, parse), repo);
  }

  /** Every recorded entry of a repository is one of that repository's entries. */
  lemma ScanEntriesRecorded(repos: seq<string>, trees: string -> TreeResponse,
                            files: (string, string) -> FileResponse,
                            parse: string -> ParseOutcome, repo: string, e: FileMatches)
    requires e in Get(Scan(repos, trees, files, parse), repo)
    ensures e in RepoEntries(repo, GetYamlFiles(trees(repo)), files, parse)
  {
    RecordAllEntries(repos, r => RepoEntries(r, GetYamlFiles(trees(r)), files, parse), repo, e);
  }

  /**
   * Recorded means found: every `(path, matches)` in the results was listed as a
   * YAML blob, fetched with status 200, decoded to non-empty text that loaded to a
   * truthy document, and `matches` are that document's non-empty triples.
   */
  lemma RecordedOnlyWhenFound(repos: seq<string>, trees: string -> TreeResponse,
                              files: (string, string) -> FileResponse,
                              parse: string -> ParseOutcome, repo: string, e: FileMatches)
    requires e in Get(Scan(repos, trees, files, parse), repo)
    ensures repo in repos
    ensures trees(repo).status == OK && e.0 in YamlFiles(trees(repo).tree)
    ensures files(repo, e.0).status == OK
    ensures files(repo, e.0).decoded.Some? && files(repo, e.0).decoded.value != ""
    ensures parse(files(repo, e.0).decoded.value).Parsed?
    ensures Truthy(parse(files(repo, e.0).decoded.value).doc)
    ensures e.1 == Search(parse(files(repo, e.0).decoded.value).doc) && e.1 != []
  {
    ScanEntriesRecorded(repos, trees, files, parse, repo, e);
    RepoEntriesMembers(repo, GetYamlFiles(trees(repo)), files, parse, e);
    FileHitsExactly(files(repo, e.0), parse);
    ScanKeys(repos, trees, files, parse, repo);
  }

  /** With distinct repository names, each repository's value is exactly its entries, in listing order. */
  lemma ScanOfDistinct(repos: seq<string>, trees: string -> TreeResponse,
                       files: (string, string) -> FileResponse,
                       parse: string -> ParseOutcome, repo: string)
    requires forall i, j :: 0 <= i < j < |repos| ==> repos[i] != repos[j]
    requires repo in repos
    ensures Get(Scan(repos, trees, files, parse), repo) == RepoEntries(repo, GetYamlFiles(trees(repo)), files, parse)
  {
    RecordAllOfDistinct(repos, r => RepoEntries(r, GetYamlFiles(trees(r)), files, parse), repo);
  }
}

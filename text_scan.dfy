/**
 * The crawl of find.py: list every repository page by page, failing the
 * whole scan on the first failed page; keep the `.yaml`/`.yml` blobs of each
 * tree; fetch each file (an empty text when the request fails, a fatal error
 * when its body cannot be decoded); record the path when `contains_bitnami`
 * flags its text.
 */
module TextScan {
  import opened Wrappers
  import opened Strings
  import opened GitHub
  import opened Aggregation
  import opened Detector

  /** The exceptions that end find.py's scan. */
  datatype ScanError =
    | ListingFailed(text: string)             // get_repos on a failed page, with the response body
    | DecodeFailed(repo: string, path: string) // get_file_content on a body it cannot decode

  // ----- get_repos -----

  /** Whether the listing hits a failed page before an empty one. */
  predicate ListingFails(pages: seq<Page>) {
    StopIndex(pages) < |pages| && pages[StopIndex(pages)].status != OK
  }

  /** `get_repos()`: the names of all pages before the first empty page, or an error at the first failed page. */
  method GetRepos(pages: seq<Page>) returns (r: Result<seq<string>, ScanError>)
    ensures r.Failure? <==> ListingFails(pages)
    ensures r.Failure? ==> r.error == ListingFailed(pages[StopIndex(pages)].text)
    ensures r.Success? ==> r.value == Names(pages[..StopIndex(pages)])
  {
    var repos := [];
    var page: nat := 1;
    while true
      invariant 1 <= page <= |pages| + 1
      invariant page - 1 <= StopIndex(pages)
      invariant repos == Names(pages[..page - 1])
      decreases |pages| + 1 - page
    {
      var res := Respond(pages, page);
      if res.status != OK {
        return Failure(ListingFailed(res.text));
      }
      var data := res.names;
      if data == [] {
        break;
      }
      NamesStep(pages, page - 1);
      repos := repos + data;
      page := page + 1;
    }
    return Success(repos);
  }

  // ----- get_yaml_files -----

  /** The comprehension's condition, conjuncts in find.py's order. */
  predicate IsYamlBlob(e: Entry) {
    (EndsWith(e.path, ".yaml") || EndsWith(e.path, ".yml")) && e.kind == "blob"
  }

  /** The paths of the tree's YAML blobs. */
  function YamlFiles(tree: seq<Entry>): (r: seq<string>)
    ensures |r| <= |tree|
    ensures forall p :: p in r <==> exists e :: e in tree && IsYamlBlob(e) && e.path == p
  {
    if tree == [] then []
    else (if IsYamlBlob(tree[0]) then [tree[0].path] else []) + YamlFiles(tree[1..])
  }

  /** `get_yaml_files(repo)`: nothing when the tree cannot be listed. */
  function GetYamlFiles(res: TreeResponse): (r: seq<string>)
    ensures res.status != OK ==> r == []
    ensures forall p :: p in r <==> res.status == OK && exists e :: e in res.tree && IsYamlBlob(e) && e.path == p
  {
    if res.status != OK then [] else YamlFiles(res.tree)
  }

  // ----- get_file_content -----

  /** `get_file_content(repo, path)`: "" on a failed request; an undecodable body raises. */
  function GetFileContent(repo: string, path: string, res: FileResponse): (r: Result<string, ScanError>)
    ensures res.status != OK ==> r == Success("")
    ensures r.Failure? <==> res.status == OK && res.decoded.None?
    ensures res.status == OK && res.decoded.Some? ==> r == Success(res.decoded.value)
  {
    if res.status != OK then Success("")
    else match res.decoded
      case Some(text) => Success(text)
      case None => Failure(DecodeFailed(repo, path))
  }

  // ----- main -----

  /** The flagged paths among one repository's listed paths, in listing order, or the first error. */
  function Flagged(repo: string, paths: seq<string>, files: (string, string) -> FileResponse): Result<seq<string>, ScanError> {
    if paths == [] then Success([])
    else
      var last := paths[|paths| - 1];
      match Flagged(repo, paths[..|paths| - 1], files)
      case Failure(e) => Failure(e)
      case Success(done) =>
        match GetFileContent(repo, last, files(repo, last))
        case Failure(e) => Failure(e)
        case Success(content) => Success(done + if ContainsBitnami(content) then [last] else [])
  }

  /** The dictionary after recording, repository by repository, the paths `flaggedOf` gives, or the first error. */
  function RecordFlagged(repos: seq<string>, flaggedOf: string -> Result<seq<string>, ScanError>)
    : Result<map<string, seq<string>>, ScanError>
  {
    if repos == [] then Success(map[])
    else
      var last := repos[|repos| - 1];
      match RecordFlagged(repos[..|repos| - 1], flaggedOf)
      case Failure(e) => Failure(e)
      case Success(results) =>
        match flaggedOf(last)
        case Failure(e) => Failure(e)
        case Success(paths) => Success(Record(results, last, paths))
  }

  /** The `results` dictionary after the given repositories, or the first error. */
  function Scan(repos: seq<string>, trees: string -> TreeResponse,
                files: (string, string) -> FileResponse): Result<map<string, seq<string>>, ScanError>
  {
    RecordFlagged(repos, repo => Flagged(repo, GetYamlFiles(trees(repo)), files))
  }

  /** The organization scan's loop over the YAML files of one repository (find.py lines 58-61). */
  method ScanRepoFiles(results0: map<string, seq<string>>, repo: string, yamlFiles: seq<string>,
                       files: (string, string) -> FileResponse)
    returns (r: Result<map<string, seq<string>>, ScanError>)
    ensures Flagged(repo, yamlFiles, files).Failure? ==> r == Failure(Flagged(repo, yamlFiles, files).error)
    ensures Flagged(repo, yamlFiles, files).Success? ==>
              r == Success(Record(results0, repo, Flagged(repo, yamlFiles, files).value))
  {
    var results := results0;
    for f := 0 to |yamlFiles|
      invariant Flagged(repo, yamlFiles[..f], files).Success?
      invariant results == Record(results0, repo, Flagged(repo, yamlFiles[..f], files).value)
    {
      var filePath := yamlFiles[f];
      ghost var done := Flagged(repo, yamlFiles[..f], files).value;
      assert yamlFiles[..f + 1][..f] == yamlFiles[..f];
      var content := GetFileContent(repo, filePath, files(repo, filePath));
      if content.Failure? {
        FlaggedFailureStays(repo, yamlFiles, f + 1, files);
        return Failure(content.error);
      }
      if ContainsBitnami(content.value) {
        RecordStep(results0, repo, done, filePath);
        results := SetDefaultAppend(results, repo, filePath);
        assert Flagged(repo, yamlFiles[..f + 1], files).value == done + [filePath];
      } else {
        assert Flagged(repo, yamlFiles[..f + 1], files).value == done + [];
        assert done + [] == done;
      }
    }
    assert yamlFiles[..|yamlFiles|] == yamlFiles;
    return Success(results);
  }

  /**
   * `main()` without its report: the per-repository loop of find.py. Any
   * exception ends the scan, so the result is the dictionary or the error.
   */
  method ScanOrganization(pages: seq<Page>, trees: string -> TreeResponse, files: (string, string) -> FileResponse)
    returns (r: Result<map<string, seq<string>>, ScanError>)
    ensures ListingFails(pages) ==> r == Failure(ListingFailed(pages[StopIndex(pages)].text))
    ensures !ListingFails(pages) ==> r == Scan(Names(pages[..StopIndex(pages)]), trees, files)
  {
    var listed := GetRepos(pages);
    if listed.Failure? {
      return Failure(listed.error);
    }
    var repos := listed.value;
    var results := map[];
    for i := 0 to |repos|
      invariant Scan(repos[..i], trees, files) == Success(results)
    {
      var repo := repos[i];
      var next := ScanRepoFiles(results, repo, GetYamlFiles(trees(repo)), files);
      ScanStep(repos, i, trees, files, results);
      if next.Failure? {
        ScanFailureStays(repos, i + 1, trees, files);
        return next;
      }
      results := next.value;
    }
    assert repos[..|repos|] == repos;
    return Success(results);
  }

  lemma ScanStep(repos: seq<string>, i: nat, trees: string -> TreeResponse,
                 files: (string, string) -> FileResponse, results: map<string, seq<string>>)
    requires i < |repos| && Scan(repos[..i], trees, files) == Success(results)
    ensures var fl := Flagged(repos[i], GetYamlFiles(trees(repos[i])), files);
            Scan(repos[..i + 1], trees, files)
              == if fl.Failure? then Failure(fl.error) else Success(Record(results, repos[i], fl.value))
  {
    assert repos[..i + 1][..i] == repos[..i];
  }

  /** A file that raised ends the repository's scan with that error, whatever follows it. */
  lemma {:induction false} FlaggedFailureStays(repo: string, paths: seq<string>, k: nat,
                                               files: (string, string) -> FileResponse)
    requires k <= |paths| && Flagged(repo, paths[..k], files).Failure?
    ensures Flagged(repo, paths, files) == Flagged(repo, paths[..k], files)
    decreases |paths| - k
  {
    if k < |paths| {
      var p := paths[..k + 1];
      assert p[..|p| - 1] == paths[..k];
      FlaggedFailureStays(repo, paths, k + 1, files);
    } else {
      assert paths[..k] == paths;
    }
  }

  /** A repository that raised ends the whole scan with that error, whatever follows it. */
  lemma ScanFailureStays(repos: seq<string>, k: nat, trees: string -> TreeResponse,
                         files: (string, string) -> FileResponse)
    requires k <= |repos| && Scan(repos[..k], trees, files).Failure?
    ensures Scan(repos, trees, files) == Scan(repos[..k], trees, files)
  {
    RecordFlaggedFailureStays(repos, k, repo => Flagged(repo, GetYamlFiles(trees(repo)), files));
  }

  lemma {:induction false} RecordFlaggedFailureStays(repos: seq<string>, k: nat,
                                                     flaggedOf: string -> Result<seq<string>, ScanError>)
    requires k <= |repos| && RecordFlagged(repos[..k], flaggedOf).Failure?
    ensures RecordFlagged(repos, flaggedOf) == RecordFlagged(repos[..k], flaggedOf)
    decreases |repos| - k
  {
    if k < |repos| {
      var p := repos[..k + 1];
      assert p[..|p| - 1] == repos[..k];
      RecordFlaggedFailureStays(repos, k + 1, flaggedOf);
    } else {
      assert repos[..k] == repos;
    }
  }

  // ----- what gets recorded -----

  /** A file raises exactly when its request succeeded and its body could not be decoded. */
  predicate Undecodable(res: FileResponse) {
    res.status == OK && res.decoded.None?
  }

  /** One repository's scan fails exactly when one of its listed files raises. */
  lemma {:induction false} FlaggedFailsIff(repo: string, paths: seq<string>, files: (string, string) -> FileResponse)
    ensures Flagged(repo, paths, files).Failure? <==> exists p :: p in paths && Undecodable(files(repo, p))
  {
    if paths != [] {
      var init := paths[..|paths| - 1];
      var last := paths[|paths| - 1];
      FlaggedFailsIff(repo, init, files);
      assert paths == init + [last];
      assert forall p :: p in paths <==> p in init || p == last;
    }
  }

  /** When the repository is scanned without error, its flagged paths are exactly the listed paths whose text `contains_bitnami` flags. */
  lemma {:induction false} FlaggedMembers(repo: string, paths: seq<string>, files: (string, string) -> FileResponse, p: string)
    requires Flagged(repo, paths, files).Success?
    ensures p in Flagged(repo, paths, files).value <==>
              p in paths && GetFileContent(repo, p, files(repo, p)).Success?
              && ContainsBitnami(GetFileContent(repo, p, files(repo, p)).value)
  {
    if paths != [] {
      var init := paths[..|paths| - 1];
      var last := paths[|paths| - 1];
      FlaggedMembers(repo, init, files, p);
      FlaggedFailsIff(repo, init, files);
      FlaggedFailsIff(repo, paths, files);
      assert paths == init + [last];
      assert forall q :: q in paths <==> q in init || q == last;
      if p in init {
        assert !Undecodable(files(repo, p));
      }
    }
  }

  /** A file whose request failed reads as "" and so is never recorded. */
  lemma FailedFetchNotFlagged(repo: string, paths: seq<string>, files: (string, string) -> FileResponse, p: string)
    requires Flagged(repo, paths, files).Success?
    requires files(repo, p).status != OK
    ensures p !in Flagged(repo, paths, files).value
  {
    FlaggedMembers(repo, paths, files, p);
    EmptyNotFlagged();
  }

  /** Flagged paths follow listing order: a listing's flagged paths are its first part's, then the rest's. */
  lemma {:induction false} FlaggedAppend(repo: string, a: seq<string>, b: seq<string>, files: (string, string) -> FileResponse)
    requires Flagged(repo, a, files).Success? && Flagged(repo, b, files).Success?
    ensures Flagged(repo, a + b, files) == Success(Flagged(repo, a, files).value + Flagged(repo, b, files).value)
    decreases |b|
  {
    if b == [] {
      assert a + b == a;
      assert Flagged(repo, a, files).value + [] == Flagged(repo, a, files).value;
    } else {
      var init := b[..|b| - 1];
      var last := b[|b| - 1];
      FlaggedFailsIff(repo, init, files);
      FlaggedFailsIff(repo, b, files);
      assert b == init + [last];
      assert forall q :: q in init ==> q in b;
      FlaggedAppend(repo, a, init, files);
      assert (a + b)[..|a + b| - 1] == a + init;
      assert (a + b)[|a + b| - 1] == last;
      var va := Flagged(repo, a, files).value;
      var vi := Flagged(repo, init, files).value;
      var content := GetFileContent(repo, last, files(repo, last));
      assert content.Success?;
      var piece := if ContainsBitnami(content.value) then [last] else [];
      assert Flagged(repo, b, files) == Success(vi + piece);
      assert Flagged(repo, a + b, files) == Success((va + vi) + piece);
      assert (va + vi) + piece == va + (vi + piece);
    }
  }

  /** The whole scan fails exactly when some listed file of some repository raises. */
  lemma ScanFailsIff(repos: seq<string>, trees: string -> TreeResponse, files: (string, string) -> FileResponse)
    ensures Scan(repos, trees, files).Failure? <==>
              exists repo :: repo in repos && Flagged(repo, GetYamlFiles(trees(repo)), files).Failure?
  {
    var flaggedOf := repo => Flagged(repo, GetYamlFiles(trees(repo)), files);
    RecordFlaggedFailsIff(repos, flaggedOf);
    assert forall repo :: flaggedOf(repo) == Flagged(repo, GetYamlFiles(trees(repo)), files);
  }

  lemma {:induction false} RecordFlaggedFailsIff(repos: seq<string>, flaggedOf: string -> Result<seq<string>, ScanError>)
    ensures RecordFlagged(repos, flaggedOf).Failure? <==> exists repo :: repo in repos && flaggedOf(repo).Failure?
  {
    if repos != [] {
      var init := repos[..|repos| - 1];
      var last := repos[|repos| - 1];
      RecordFlaggedFailsIff(init, flaggedOf);
      assert repos == init + [last];
      assert forall q :: q in repos <==> q in init || q == last;
    }
  }

  /** A repository is a key of the results exactly when one of its files was flagged. */
  lemma ScanKeys(repos: seq<string>, trees: string -> TreeResponse,
                 files: (string, string) -> FileResponse, repo: string)
    requires Scan(repos, trees, files).Success?
    ensures repo in Scan(repos, trees, files).value <==>
              repo in repos && Flagged(repo, GetYamlFiles(trees(repo)), files) != Success([])
  {
    RecordFlaggedKeys(repos, r => Flagged(r, GetYamlFiles(trees(r)), files), repo);
  }

  lemma {:induction false} RecordFlaggedKeys(repos: seq<string>, flaggedOf: string -> Result<seq<string>, ScanError>,
                                             repo: string)
    requires RecordFlagged(repos, flaggedOf).Success?
    ensures repo in RecordFlagged(repos, flaggedOf).value <==> repo in repos && flaggedOf(repo) != Success([])
  {
    if repos != [] {
      var init := repos[..|repos| - 1];
      var last := repos[|repos| - 1];
      var before := RecordFlagged(init, flaggedOf);
      assert before.Success? && flaggedOf(last).Success?;
      assert RecordFlagged(repos, flaggedOf).value == Record(before.value, last, flaggedOf(last).value);
      RecordFlaggedKeys(init, flaggedOf, repo);
      assert repos == init + [last];
      assert repo in repos <==> repo in init || repo == last;
      if repo in init && repo != last {
        RecordFlaggedFailsIff(init, flaggedOf);
      }
    }
  }

  /** With distinct repository names, each repository's value is exactly its flagged paths, in listing order. */
  lemma ScanOfDistinct(repos: seq<string>, trees: string -> TreeResponse,
                       files: (string, string) -> FileResponse, repo: string)
    requires Scan(repos, trees, files).Success?
    requires forall i, j :: 0 <= i < j < |repos| ==> repos[i] != repos[j]
    requires repo in repos
    ensures Success(Get(Scan(repos, trees, files).value, repo)) == Flagged(repo, GetYamlFiles(trees(repo)), files)
  {
    RecordFlaggedOfDistinct(repos, r => Flagged(r, GetYamlFiles(trees(r)), files), repo);
  }

  lemma {:induction false} RecordFlaggedOfDistinct(repos: seq<string>,
                                                   flaggedOf: string -> Result<seq<string>, ScanError>, repo: string)
    requires RecordFlagged(repos, flaggedOf).Success?
    requires forall i, j :: 0 <= i < j < |repos| ==> repos[i] != repos[j]
    requires repo in repos
    ensures Success(Get(RecordFlagged(repos, flaggedOf).value, repo)) == flaggedOf(repo)
  {
    var init := repos[..|repos| - 1];
    var last := repos[|repos| - 1];
    var before := RecordFlagged(init, flaggedOf);
    var fl := flaggedOf(last);
    assert before.Success? && fl.Success?;
    assert RecordFlagged(repos, flaggedOf).value == Record(before.value, last, fl.value);
    RecordFlaggedKeys(init, flaggedOf, repo);
    assert repos == init + [last];
    if repo != last {
      assert repo in init;
      assert forall i, j :: 0 <= i < j < |init| ==> init[i] != init[j] by {
        forall i, j | 0 <= i < j < |init| ensures init[i] != init[j] {
          assert init[i] == repos[i] && init[j] == repos[j];
        }
      }
      RecordFlaggedOfDistinct(init, flaggedOf, repo);
    } else {
      assert repo !in init;
      assert Get(before.value, repo) == [];
      assert [] + fl.value == fl.value;
    }
  }
}

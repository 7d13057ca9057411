/**
 * The three remote operations both scanners use, reduced to the responses
 * they return: a status code and the part of the JSON body that is read.
 * The pages of the organization's repository listing are given as a
 * sequence (page 1 first); a page past its end answers 200 with an empty
 * list, as the real listing does once it is exhausted.
 */
module GitHub {
  import opened Wrappers

  /** One page of `GET /orgs/{org}/repos`: status, the `name` of each repo record, and the raw body text. */
  datatype Page = Page(status: int, names: seq<string>, text: string)

  /** One item of `GET /repos/{org}/{repo}/git/trees/HEAD?recursive=1`. */
  datatype Entry = Entry(path: string, kind: string)

  datatype TreeResponse = TreeResponse(status: int, tree: seq<Entry>)

  /**
   * `GET /repos/{org}/{repo}/contents/{path}`: the status, and the file's text
   * (its base64 `content` field decoded, invalid UTF-8 dropped), or None when
   * the field is missing or is not valid base64.
   */
  datatype FileResponse = FileResponse(status: int, decoded: Option<string>)

  const OK := 200

  /** The response to the request for page number `page` (1-based). */
  function Respond(pages: seq<Page>, page: nat): Page {
    if 1 <= page <= |pages| then pages[page - 1] else Page(OK, [], "[]")
  }

  /** A page that ends the paging loop: a failure or an empty list. */
  predicate EndsListing(pg: Page) {
    pg.status != OK || pg.names == []
  }

  /** Index of the first page that ends the listing, or `|pages|` when none does. */
  function StopIndex(pages: seq<Page>): (k: nat)
    ensures k <= |pages|
    ensures forall i :: 0 <= i < k ==> !EndsListing(pages[i])
    ensures k < |pages| ==> EndsListing(pages[k])
  {
    if pages == [] || EndsListing(pages[0]) then 0 else 1 + StopIndex(pages[1..])
  }

  /** The repo names of the given pages, page after page. */
  function Names(pages: seq<Page>): seq<string> {
    if pages == [] then [] else Names(pages[..|pages| - 1]) + pages[|pages| - 1].names
  }

  lemma NamesStep(pages: seq<Page>, k: nat)
    requires k < |pages|
    ensures Names(pages[..k + 1]) == Names(pages[..k]) + pages[k].names
  {
    assert pages[..k + 1][..k] == pages[..k];
  }
}

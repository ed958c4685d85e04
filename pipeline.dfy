/**
 * The crawler as a program: `crawl_publications` around the extraction walk, and the script entry
 * point that crawls and then rebuilds the index.
 */
module Pipeline {
  import opened Wrappers
  import opened Text
  import opened Records
  import opened Extract
  import opened Index

  /**
   * `crawl_publications()` once the browser is done: `page` is the listing's result items, or `None`
   * when the results container did not appear within the wait, in which case there is nothing to
   * extract. The `KeyError` of a title anchor without `href` is not caught here.
   */
  method CrawlPublications(page: Option<seq<ResultItem>>) returns (r: Result<seq<Paper>, ExtractError>)
    ensures page.None? ==> r == Success([])
    ensures page.Some? ==> r == Extracted(page.value)
  {
    if page.None? {
      return Success([]);
    }
    r := ExtractPublications(page.value);
  }

  /**
   * The script entry point: crawl, rebuild the index from the records, report how many were indexed.
   * An exception from the crawl ends the run before the index is touched.
   */
  method CrawlAndIndex(store: IndexStore, page: Option<seq<ResultItem>>) returns (indexed: Result<nat, ExtractError>)
    requires store.Valid() && !store.writing
    modifies store
    ensures store.Valid() && !store.writing
    ensures indexed.Failure? ==> unchanged(store)
    ensures page.None? ==> indexed == Success(0) && store.Generation() == Some([])
    ensures page.Some? ==> match Extracted(page.value)
      case Failure(e) => indexed == Failure(e)
      case Success(papers) => indexed == Success(|papers|) && store.Generation() == Some(DocsOf(papers))
  {
    var papers := CrawlPublications(page);
    if papers.Failure? {
      return Failure(papers.error);
    }
    store.CreateIndex(papers.value);
    indexed := Success(|papers.value|);
  }

  /**
   * What a run that succeeds leaves for the searches that follow: every result of every query is a
   * crawled record, whose link is empty or starts with "http" and whose authors' profile links are
   * absolute.
   */
  lemma CrawledResultLinksWellFormed(items: seq<ResultItem>, e: Engine, query: string)
    requires Extracted(items).Success?
    ensures var results := Search(Some(DocsOf(Extracted(items).value)), e, query);
      forall k :: 0 <= k < |results| ==>
        results[k] in Extracted(items).value &&
        (results[k].link == "" || StartsWith(results[k].link, "http")) &&
        forall j :: 0 <= j < |results[k].authors| ==> IsProfileUrl(results[k].authors[j].profileLink)
  {
    var papers := Extracted(items).value;
    ExtractedLinks(items);
    SearchAfterCreate(papers, e, query);
  }
}

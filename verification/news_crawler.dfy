/**
 * Composition (`crawl_news_article`): crawl the URL; when that yields None,
 * resolve the original, unstripped URL in the web archive and crawl the
 * snapshot URL once. The fallback runs for every URL whose first crawl gave
 * None, including URLs that already contain "http".
 */
module NewsCrawler {
  import opened Options
  import opened LinkCrawler
  import opened WebArchive

  /** How the call ends: with a value (possibly None), or with the IndexError of a short archive row. */
  datatype Outcome = Returned(article: Option<CrawledArticle>) | Raised

  /** The outcome, every URL handed to the extractor, and every URL looked up in the archive. */
  datatype Retrieval = Retrieval(outcome: Outcome, attempts: seq<string>, lookups: seq<string>)

  /** `crawl_news_article`: the crawl, and the archive fallback when it gives None. */
  function CrawlNewsArticle(extract: Extractor, cdx: CdxClient, url: string): (r: Retrieval)
    ensures CrawlLink(extract, url).attempts <= r.attempts
    ensures r.lookups == if CrawlLink(extract, url).result.Some? then [] else [url]
    ensures r.outcome.Raised? <==>
      CrawlLink(extract, url).result.None? && WebsiteUrlFromArchive(cdx, url).RowTooShort?
    ensures !(CrawlLink(extract, url).result.None? && WebsiteUrlFromArchive(cdx, url).Snapshot?) ==>
      r.attempts == CrawlLink(extract, url).attempts
  {
    var first := CrawlLink(extract, url);
    if first.result.Some? then Retrieval(Returned(first.result), first.attempts, [])
    else match WebsiteUrlFromArchive(cdx, url)
      case NoSnapshot => Retrieval(Returned(None), first.attempts, [url])
      case RowTooShort => Retrieval(Raised, first.attempts, [url])
      case Snapshot(archiveUrl) =>
        var second := CrawlLink(extract, archiveUrl);
        Retrieval(Returned(second.result), first.attempts + second.attempts, [url])
  }

  /** A non-None first result is returned unchanged and the archive is never consulted. */
  lemma FirstResultKept(extract: Extractor, cdx: CdxClient, url: string)
    requires CrawlLink(extract, url).result.Some?
    ensures CrawlNewsArticle(extract, cdx, url) ==
      Retrieval(Returned(CrawlLink(extract, url).result), CrawlLink(extract, url).attempts, [])
  {
  }

  /**
   * When the first crawl gives None, the archive is asked exactly once, about
   * the original URL as given (not slash-stripped, whether or not it contains
   * "http"), and the call raises exactly when the first data row is short.
   */
  lemma FallbackLooksUpOriginal(extract: Extractor, cdx: CdxClient, url: string)
    requires CrawlLink(extract, url).result.None?
    ensures var r := CrawlNewsArticle(extract, cdx, url);
      && r.lookups == [url]
      && (r.outcome.Raised? <==> WebsiteUrlFromArchive(cdx, url).RowTooShort?)
      && (WebsiteUrlFromArchive(cdx, url).NoSnapshot? ==> r.outcome == Returned(None))
      && (!WebsiteUrlFromArchive(cdx, url).Snapshot? ==> r.attempts == CrawlLink(extract, url).attempts)
  {
  }

  /**
   * A snapshot URL contains "http", so it takes the single-attempt branch: it
   * is crawled exactly once, as it is, after the first crawl's attempts.
   */
  lemma ArchiveCrawledOnce(extract: Extractor, cdx: CdxClient, url: string)
    requires CrawlLink(extract, url).result.None?
    requires WebsiteUrlFromArchive(cdx, url).Snapshot?
    ensures var a := WebsiteUrlFromArchive(cdx, url).url;
      var r := CrawlNewsArticle(extract, cdx, url);
      && r.attempts == CrawlLink(extract, url).attempts + [a]
      && (extract(a).Some? && extract(a).value.isParsed <==> r.outcome.article.Some?)
      && (r.outcome.article.Some? ==> r.outcome.article.value == CrawledArticle(a, extract(a).value.text))
  {
  }

  /** At most three extraction attempts in all: two at the origin, one at the archive. */
  lemma AtMostThreeAttempts(extract: Extractor, cdx: CdxClient, url: string)
    ensures |CrawlNewsArticle(extract, cdx, url).attempts| <= 3
  {
  }

  /** A schemeless URL that raises under http but is parsed under https needs no archive lookup. */
  lemma HttpsFallbackSkipsArchive(extract: Extractor, cdx: CdxClient, url: string, a: Article)
    requires IsSchemeless(url) && url != []
    requires extract(HttpPrefix + Normalized(url)).None?
    requires extract(HttpsPrefix + Normalized(url)) == Some(a) && a.isParsed
    ensures CrawlNewsArticle(extract, cdx, url) ==
      Retrieval(Returned(Some(CrawledArticle(Normalized(url), a.text))),
                [HttpPrefix + Normalized(url), HttpsPrefix + Normalized(url)], [])
  {
    HttpsFallbackWins(extract, url, a);
  }
}

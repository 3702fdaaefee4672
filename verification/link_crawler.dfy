/**
 * The fetch strategy for one URL (`crawl_link_article`): a URL without "http"
 * anywhere in it loses one leading slash and is tried under "http://", then,
 * only if that attempt raised, under "https://"; a URL containing "http" is
 * tried once as it is. A page the extractor did not report as parsed is
 * rejected. The extractor (newspaper's Article download + parse) is an oracle.
 */
module LinkCrawler {
  import opened Options
  import opened Strings

  /** What the extractor reports once download and parse both returned. */
  datatype Article = Article(text: string, isParsed: bool)

  /** The page extractor: `None` stands for an exception raised by download or parse. */
  type Extractor = string -> Option<Article>

  /** The result record: its "url" field and its "text" field. */
  datatype CrawledArticle = CrawledArticle(url: string, text: string)

  /** The outcome of one crawl and the URLs handed to the extractor, in order. */
  datatype Fetch = Fetch(result: Option<CrawledArticle>, attempts: seq<string>)

  /** The outcome of trying candidates in order: the first article obtained and the URLs tried. */
  datatype Attempted = Attempted(article: Option<Article>, tried: seq<string>)

  const HttpMarker: string := "http"
  const HttpPrefix: string := "http://"
  const HttpsPrefix: string := "https://"

  /** The source's scheme test: "http" occurs nowhere in the URL. */
  predicate IsSchemeless(url: string)
    ensures IsSchemeless(url) <==> !exists i :: OccursAt(url, HttpMarker, i)
  {
    ContainsIff(url, HttpMarker);
    !Contains(url, HttpMarker)
  }

  /** The URL the result record carries: a schemeless URL loses one leading '/'. */
  function Normalized(url: string): (u: string)
    ensures u == url || (IsSchemeless(url) && url != [] && url[0] == '/' && [url[0]] + u == url)
    ensures !IsSchemeless(url) ==> u == url
    ensures IsSchemeless(url) && url != [] && url[0] == '/' ==> u == url[1..]
  {
    if IsSchemeless(url) && url != [] && url[0] == '/' then url[1..] else url
  }

  /**
   * The URLs the strategy may hand to the extractor, in order. An empty URL has
   * none: indexing its first character raises, and the outer handler returns None.
   */
  function Candidates(url: string): (c: seq<string>)
    ensures |c| <= 2
  {
    if !IsSchemeless(url) then [url]
    else if url == [] then []
    else [HttpPrefix + Normalized(url), HttpsPrefix + Normalized(url)]
  }

  /** Hands the candidates to the extractor in order and stops at the first that does not raise. */
  function TryInOrder(extract: Extractor, cands: seq<string>): (r: Attempted)
    ensures |r.tried| <= |cands| && r.tried == cands[..|r.tried|]
    ensures cands != [] ==> r.tried != []
    ensures forall i :: 0 <= i < |r.tried| - 1 ==> extract(r.tried[i]).None?
    ensures r.article.Some? ==> r.tried != [] && extract(r.tried[|r.tried| - 1]) == r.article
    ensures r.article.None? ==> r.tried == cands && forall i :: 0 <= i < |cands| ==> extract(cands[i]).None?
  {
    if cands == [] then Attempted(None, [])
    else match extract(cands[0])
      case Some(a) => Attempted(Some(a), [cands[0]])
      case None =>
        var rest := TryInOrder(extract, cands[1..]);
        Attempted(rest.article, [cands[0]] + rest.tried)
  }

  /** The specification of `crawl_link_article`: the strategy's result and its trace of attempts. */
  function CrawlLink(extract: Extractor, url: string): (f: Fetch)
    ensures |f.attempts| <= 2
    ensures f.result.Some? ==> f.attempts != [] && f.result.value.url == Normalized(url)
    ensures f.result.None? && f.attempts != [] ==>
      extract(f.attempts[|f.attempts| - 1]).None? || !extract(f.attempts[|f.attempts| - 1]).value.isParsed
  {
    var t := TryInOrder(extract, Candidates(url));
    if t.article.Some? && t.article.value.isParsed
    then Fetch(Some(CrawledArticle(Normalized(url), t.article.value.text)), t.tried)
    else Fetch(None, t.tried)
  }

  /** `crawl_link_article` step by step: the flag, the sequential attempts and the early returns. */
  method CrawlLinkArticle(extract: Extractor, url: string) returns (result: Option<CrawledArticle>, attempts: seq<string>)
    ensures Fetch(result, attempts) == CrawlLink(extract, url)
  {
    result, attempts := None, [];
    var target := url;
    var article: Article;
    if !Contains(target, HttpMarker) {
      if target == [] {
        // url[0] raises IndexError; the outer handler logs it and returns None
        return;
      }
      if target[0] == '/' {
        target := target[1..];
      }
      var got := extract(HttpPrefix + target);
      attempts := attempts + [HttpPrefix + target];
      var flag := got.Some?;
      if !flag {
        got := extract(HttpsPrefix + target);
        attempts := attempts + [HttpsPrefix + target];
        flag := got.Some?;
      }
      if !flag {
        return;
      }
      article := got.value;
    } else {
      var got := extract(target);
      attempts := attempts + [target];
      if got.None? {
        return;
      }
      article := got.value;
    }
    if !article.isParsed {
      return;
    }
    result := Some(CrawledArticle(target, article.text));
  }

  /** At most two attempts, always a prefix of the candidates in their order. */
  lemma AttemptsBounded(extract: Extractor, url: string)
    ensures var f := CrawlLink(extract, url);
      |f.attempts| <= 2 && f.attempts == Candidates(url)[..|f.attempts|]
  {
  }

  /** An empty URL yields None without any attempt. */
  lemma EmptyUrlFails(extract: Extractor)
    ensures CrawlLink(extract, []) == Fetch(None, [])
  {
  }

  /**
   * Schemeless branch: "http://" first, "https://" only when the http attempt
   * raised, None when both raised; an http attempt that completed unparsed
   * gives None with no https attempt.
   */
  lemma SchemelessOrder(extract: Extractor, url: string)
    requires IsSchemeless(url) && url != []
    ensures var f := CrawlLink(extract, url);
      var u := Normalized(url);
      && u == (if url[0] == '/' then url[1..] else url)
      && 1 <= |f.attempts| <= 2
      && f.attempts[0] == HttpPrefix + u
      && (|f.attempts| == 2 <==> extract(HttpPrefix + u).None?)
      && (|f.attempts| == 2 ==> f.attempts[1] == HttpsPrefix + u)
      && (extract(HttpPrefix + u).None? && extract(HttpsPrefix + u).None? ==> f.result.None?)
      && (extract(HttpPrefix + u).Some? && !extract(HttpPrefix + u).value.isParsed ==> f.result.None?)
  {
  }

  /** Scheme branch: exactly one attempt, with the URL unchanged; a raise gives None. */
  lemma SchemeSingleAttempt(extract: Extractor, url: string)
    requires !IsSchemeless(url)
    ensures var f := CrawlLink(extract, url);
      && f.attempts == [url]
      && (extract(url).None? ==> f.result.None?)
      && (f.result.Some? ==> f.result.value.url == url)
  {
  }

  /**
   * A result comes from the last attempt, which completed with a parsed page;
   * its url field is the slash-stripped URL without any added prefix; and
   * conversely a completed, parsed last attempt always yields a result.
   */
  lemma ResultProvenance(extract: Extractor, url: string)
    ensures var f := CrawlLink(extract, url);
      && (f.result.Some? ==>
            && f.attempts != []
            && extract(f.attempts[|f.attempts| - 1]) == Some(Article(f.result.value.text, true))
            && f.result.value.url == Normalized(url))
      && ((f.attempts != [] && extract(f.attempts[|f.attempts| - 1]).Some? &&
           extract(f.attempts[|f.attempts| - 1]).value.isParsed) ==> f.result.Some?)
  {
  }

  /** A schemeless URL that raises under http but is parsed under https yields the https page. */
  lemma HttpsFallbackWins(extract: Extractor, url: string, a: Article)
    requires IsSchemeless(url) && url != []
    requires extract(HttpPrefix + Normalized(url)).None?
    requires extract(HttpsPrefix + Normalized(url)) == Some(a) && a.isParsed
    ensures CrawlLink(extract, url) ==
      Fetch(Some(CrawledArticle(Normalized(url), a.text)),
            [HttpPrefix + Normalized(url), HttpsPrefix + Normalized(url)])
  {
    SchemelessOrder(extract, url);
  }
}

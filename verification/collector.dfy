/**
 * The collection driver (`collect_news_articles`): a header row, then for
 * each record in input order the article retrieval, the record's "H" field
 * set to the extracted text or the sentinel, and the record written out at
 * once. A short archive row raises out of the loop; the rows already written
 * stay written.
 */
module Collector {
  import opened Options
  import opened LinkCrawler
  import opened WebArchive
  import opened NewsCrawler

  const Sentinel: string := "none/not available"
  const Header: seq<string> := ["id", "news_url", "title", "H", "tweet_ids"]

  /** One input row; `h` is the "H" column, absent until the driver sets it. */
  datatype NewsRecord = NewsRecord(id: string, newsUrl: string, title: string, tweetIds: string, h: Option<string>)

  /** How the driver retrieves the article for a URL: how `crawl_news_article` ends. */
  type Retriever = string -> Outcome

  /** The retrieval the driver performs: `crawl_news_article` over the two oracles. */
  function NewsRetriever(extract: Extractor, cdx: CdxClient): (retrieve: Retriever)
    ensures forall url :: retrieve(url).Raised? <==>
      CrawlLink(extract, url).result.None? && WebsiteUrlFromArchive(cdx, url).RowTooShort?
  {
    url => CrawlNewsArticle(extract, cdx, url).outcome
  }

  /** The "H" value for a retrieval result. */
  function ContentText(r: Option<CrawledArticle>): (h: string)
    ensures h != []
    ensures h == Sentinel || (r.Some? && h == r.value.text)
    ensures r.Some? && r.value.text != [] ==> h == r.value.text
    ensures !(r.Some? && r.value.text != []) ==> h == Sentinel
  {
    if r.Some? && r.value.text != [] then r.value.text else Sentinel
  }

  /** The row the writer emits for a record, in header order; an absent "H" is written empty. */
  function OutputRow(rec: NewsRecord): (row: seq<string>)
    ensures |row| == |Header|
  {
    [rec.id, rec.newsUrl, rec.title, if rec.h.Some? then rec.h.value else "", rec.tweetIds]
  }

  /** Whether retrieving this record's URL raises. */
  predicate Raises(retrieve: Retriever, rec: NewsRecord)
  {
    retrieve(rec.newsUrl).Raised?
  }

  /** The record after its iteration: "H" set from the retrieval result. */
  function Annotate(retrieve: Retriever, rec: NewsRecord): (out: NewsRecord)
    ensures out.id == rec.id && out.newsUrl == rec.newsUrl && out.title == rec.title && out.tweetIds == rec.tweetIds
  {
    match retrieve(rec.newsUrl)
    case Returned(a) => rec.(h := Some(ContentText(a)))
    case Raised => rec
  }

  function AnnotateAll(retrieve: Retriever, recs: seq<NewsRecord>): (out: seq<NewsRecord>)
    ensures |out| == |recs|
  {
    seq(|recs|, i requires 0 <= i < |recs| => Annotate(retrieve, recs[i]))
  }

  function Rows(recs: seq<NewsRecord>): (rows: seq<seq<string>>)
    ensures |rows| == |recs|
    ensures forall i :: 0 <= i < |recs| ==>
      && |rows[i]| == |Header|
      && rows[i][0] == recs[i].id && rows[i][1] == recs[i].newsUrl
      && rows[i][2] == recs[i].title && rows[i][4] == recs[i].tweetIds
      && rows[i][3] == (if recs[i].h.Some? then recs[i].h.value else "")
  {
    seq(|recs|, i requires 0 <= i < |recs| => OutputRow(recs[i]))
  }

  /** The index of the first record whose retrieval raises, or the count when none does. */
  function FirstRaise(retrieve: Retriever, recs: seq<NewsRecord>): (k: nat)
    ensures k <= |recs|
    ensures forall i :: 0 <= i < k ==> !Raises(retrieve, recs[i])
    ensures k < |recs| ==> Raises(retrieve, recs[k])
  {
    if recs == [] then 0
    else if Raises(retrieve, recs[0]) then 0
    else 1 + FirstRaise(retrieve, recs[1..])
  }

  /** The output file as rows, written one at a time. */
  class RowWriter {
    var rows: seq<seq<string>>

    constructor ()
      ensures rows == []
    {
      rows := [];
    }

    method WriteHeader()
      modifies this
      ensures rows == old(rows) + [Header]
    {
      rows := rows + [Header];
    }

    method WriteRecord(rec: NewsRecord)
      modifies this
      ensures rows == old(rows) + [OutputRow(rec)]
    {
      rows := rows + [OutputRow(rec)];
    }
  }

  /**
   * One iteration of the driver's loop: retrieve the record's article and set
   * "H" to its text, or to the sentinel when there is no text; or raise.
   */
  method ProcessRecord(retrieve: Retriever, rec: NewsRecord) returns (updated: NewsRecord, raised: bool)
    ensures raised == Raises(retrieve, rec)
    ensures !raised ==> updated == Annotate(retrieve, rec)
  {
    var outcome := retrieve(rec.newsUrl);
    updated, raised := rec, outcome.Raised?;
    if raised {
      return;
    }
    var h := Sentinel;
    if outcome.article.Some? && outcome.article.value.text != [] {
      h := outcome.article.value.text;
    }
    updated := rec.(h := Some(h));
  }

  /**
   * The driver's loop for a given retrieval: writes the header, then
   * annotates and writes each record in order until one raises. Records
   * before that point are updated in place and written; the raising record
   * and those after it are untouched. The writer is created here, standing
   * for the output file opened (and truncated) by the driver itself.
   */
  method CollectRecords(retrieve: Retriever, news: array<NewsRecord>) returns (w: RowWriter, raised: bool)
    modifies news
    ensures fresh(w)
    ensures var k := FirstRaise(retrieve, old(news[..]));
      && raised == (k < news.Length)
      && news[..] == AnnotateAll(retrieve, old(news[..])[..k]) + old(news[..])[k..]
      && w.rows == [Header] + Rows(AnnotateAll(retrieve, old(news[..])[..k]))
  {
    ghost var input := news[..];
    w := new RowWriter();
    w.WriteHeader();
    var i := 0;
    raised := false;
    while i < news.Length
      invariant 0 <= i <= news.Length
      invariant !raised
      invariant forall j :: 0 <= j < i ==> !Raises(retrieve, input[j])
      invariant forall j :: 0 <= j < i ==> news[j] == Annotate(retrieve, input[j])
      invariant forall j :: i <= j < news.Length ==> news[j] == input[j]
      invariant fresh(w)
      invariant |w.rows| == i + 1 && w.rows[0] == Header
      invariant forall j :: 0 <= j < i ==> w.rows[j + 1] == OutputRow(Annotate(retrieve, input[j]))
    {
      var rec := news[i];
      var updated, recRaised := ProcessRecord(retrieve, rec);
      if recRaised {
        raised := true;
        break;
      }
      news[i] := updated;
      w.WriteRecord(updated);
      i := i + 1;
    }
    FirstRaiseAt(retrieve, input, i);
    DriverResult(retrieve, input, i, news[..], w.rows);
  }

  /** `collect_news_articles`: the driver's loop with `crawl_news_article` as its retrieval. */
  method CollectNewsArticles(extract: Extractor, cdx: CdxClient, news: array<NewsRecord>) returns (w: RowWriter, raised: bool)
    modifies news
    ensures fresh(w)
    ensures var retrieve := NewsRetriever(extract, cdx);
      var k := FirstRaise(retrieve, old(news[..]));
      && raised == (k < news.Length)
      && news[..] == AnnotateAll(retrieve, old(news[..])[..k]) + old(news[..])[k..]
      && w.rows == [Header] + Rows(AnnotateAll(retrieve, old(news[..])[..k]))
  {
    w, raised := CollectRecords(NewsRetriever(extract, cdx), news);
  }

  /** The driver's pointwise loop state, restated as whole sequences. */
  lemma DriverResult(retrieve: Retriever, input: seq<NewsRecord>, k: nat, news: seq<NewsRecord>, rows: seq<seq<string>>)
    requires k <= |input| == |news|
    requires forall j :: 0 <= j < k ==> news[j] == Annotate(retrieve, input[j])
    requires forall j :: k <= j < |news| ==> news[j] == input[j]
    requires |rows| == k + 1 && rows[0] == Header
    requires forall j :: 0 <= j < k ==> rows[j + 1] == OutputRow(Annotate(retrieve, input[j]))
    ensures news == AnnotateAll(retrieve, input[..k]) + input[k..]
    ensures rows == [Header] + Rows(AnnotateAll(retrieve, input[..k]))
  {
    var done := AnnotateAll(retrieve, input[..k]);
    assert news == done + input[k..];
    assert rows == [Header] + Rows(done);
  }

  /** The first raising index is pinned down by the records before and at it. */
  lemma FirstRaiseAt(retrieve: Retriever, recs: seq<NewsRecord>, i: nat)
    requires i <= |recs|
    requires forall j :: 0 <= j < i ==> !Raises(retrieve, recs[j])
    requires i < |recs| ==> Raises(retrieve, recs[i])
    ensures FirstRaise(retrieve, recs) == i
  {
  }

  /** A record keeps its other fields; "H" is set from the retrieval unless it raises. */
  lemma AnnotateContent(retrieve: Retriever, rec: NewsRecord)
    ensures Raises(retrieve, rec) ==> Annotate(retrieve, rec) == rec
    ensures !Raises(retrieve, rec) ==>
      Annotate(retrieve, rec) == rec.(h := Some(ContentText(retrieve(rec.newsUrl).article)))
  {
  }

  /**
   * The rows the driver writes: one per record before the first raising one,
   * in input order (so one per input record when nothing raises), with every
   * field but "H" passed through and "H" the text when a non-empty text was
   * retrieved, otherwise the sentinel.
   */
  lemma RowPerRecord(retrieve: Retriever, recs: seq<NewsRecord>, i: nat)
    requires i < FirstRaise(retrieve, recs)
    ensures var k := FirstRaise(retrieve, recs);
      var rows := Rows(AnnotateAll(retrieve, recs[..k]));
      var a := retrieve(recs[i].newsUrl).article;
      && |rows| == k
      && (k == |recs| ==> |rows| == |recs|)
      && rows[i][0] == recs[i].id && rows[i][1] == recs[i].newsUrl
      && rows[i][2] == recs[i].title && rows[i][4] == recs[i].tweetIds
      && (a.Some? && a.value.text != [] ==> rows[i][3] == a.value.text)
      && (!(a.Some? && a.value.text != []) ==> rows[i][3] == Sentinel)
  {
    var k := FirstRaise(retrieve, recs);
    assert recs[..k][i] == recs[i];
    assert !Raises(retrieve, recs[i]);
  }

  /** A record whose retrieval fails at every stage gets exactly the sentinel. */
  lemma FailedRecordGetsSentinel(extract: Extractor, cdx: CdxClient, rec: NewsRecord)
    requires CrawlNewsArticle(extract, cdx, rec.newsUrl).outcome == Returned(None)
    ensures OutputRow(Annotate(NewsRetriever(extract, cdx), rec))[3] == Sentinel
  {
  }
}

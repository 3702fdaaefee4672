# FakeNewsNet article retrieval: the decision layer

This project models the decision layer of FakeNewsNet's news-content
collector (`code/gen.py`): the fetch strategy that turns a news URL into an
article record, the web-archive fallback, their composition, and the driver
that streams one output row per labelled news record. The page extractor
(newspaper's `Article` download and parse) and the archive's CDX index are
oracles passed in as function values:

- `Extractor = string -> Option<Article>`: `None` is an exception raised by
  download or parse; `Some(Article(text, isParsed))` is a page whose parse returned.
- `CdxClient = string -> Option<seq<seq<string>>>`: the JSON rows returned for
  a CDX query URL, `None` for a failed request or undecodable response.

Each retrieval returns, next to its result, the trace of URLs handed to the
extractor and the URLs looked up in the archive, so that order and number of
attempts can be stated.

Modules, one per component of `gen.py`:

- `Strings`: Python's substring test `sub in s`, with its positional characterisation.
- `LinkCrawler`: `crawl_link_article`. `CrawlLink` specifies it declaratively
  (the candidate URLs, tried in order until one does not raise, the page
  rejected when not parsed); `CrawlLinkArticle` follows the code step by step
  (the `flag`, the sequential attempts, the early returns) and is proved equal to it.
- `WebArchive`: `get_web_archieve_results` and `get_website_url_from_arhieve`.
  The IndexError raised at `gen.py:128` by a first data row with fewer than
  three fields is outside any handler, so it is the explicit outcome `RowTooShort`.
- `NewsCrawler`: `crawl_news_article`. That IndexError propagates as `Raised`.
- `Collector`: `collect_news_articles`, a method over the array of records
  (each record's "H" field is set in place) that creates a `RowWriter`
  object (the output file, opened and truncated by the function) whose row
  sequence grows by one row per write. The loop itself, `CollectRecords`, is
  stated for any retrieval function; `CollectNewsArticles` runs it with
  `crawl_news_article` (`NewsRetriever`), as the source does.

Behaviour of `gen.py` the model keeps as written:

- The scheme test is whether "http" occurs anywhere in the URL, not whether
  the URL starts with a scheme.
- The archive fallback runs whenever the first crawl gives None, including
  URLs that already contain "http"; it is not restricted to schemeless URLs.
- The https attempt is made only when the http attempt raised. An http attempt
  that completed with `is_parsed` false gives None with no https attempt.
- A short archive row is not swallowed: it aborts the whole collection run,
  leaving the rows already written in place.

## Model

| member | source | states |
|---|---|---|
| `Strings.ContainsIff` | code/gen.py:22 | the scheme test `"http" in url` holds exactly when "http" occurs at some position of the URL (both directions) |
| `LinkCrawler.IsSchemeless` | code/gen.py:22 | the branch test: true exactly when "http" occurs at no position of the URL (via `Strings.ContainsIff`) |
| `LinkCrawler.Normalized` | code/gen.py:23-24 | a schemeless URL starting with '/' loses exactly that one character; every other URL is unchanged |
| `LinkCrawler.Candidates` | code/gen.py:22-58 | at most two URLs are ever candidates for one crawl |
| `LinkCrawler.TryInOrder` | code/gen.py:25-58 | the attempts are a prefix of the candidates in order; every attempt but the last raised; a result is what the last attempt returned; no result means every candidate was tried and raised |
| `LinkCrawler.CrawlLink` | code/gen.py:18-94 | the strategy's result and attempt trace: at most two attempts; a result carries the normalised URL; no result after an attempt means the last attempt raised or was unparsed; characterised fully by `AttemptsBounded`, `EmptyUrlFails`, `SchemelessOrder`, `SchemeSingleAttempt`, `ResultProvenance` and `HttpsFallbackWins` |
| `LinkCrawler.CrawlLinkArticle` | code/gen.py:18-94 | the step-by-step crawl (flag, fallback, early returns) yields exactly the result and attempt trace of the declarative strategy `CrawlLink` |
| `LinkCrawler.AttemptsBounded` | code/gen.py:25-58 | at most two attempts, in candidate order |
| `LinkCrawler.EmptyUrlFails` | code/gen.py:22-24 | an empty URL yields None with no attempt (its IndexError is caught by the outer handler) |
| `LinkCrawler.SchemelessOrder` | code/gen.py:22-49 | a URL without "http" loses one leading '/'; "http://" + it is tried first, "https://" + it second and only if the http attempt raised; both raising gives None; a completed but unparsed http page gives None |
| `LinkCrawler.SchemeSingleAttempt` | code/gen.py:50-58 | a URL containing "http" is tried exactly once, unchanged; a raise gives None; a result carries that URL |
| `LinkCrawler.ResultProvenance` | code/gen.py:60-78 | a result exists exactly when the last attempt completed with a parsed page; it carries that page's text and the slash-stripped URL without protocol prefix |
| `LinkCrawler.HttpsFallbackWins` | code/gen.py:35-49 | a schemeless URL raising under http and parsed under https yields the https page after exactly those two attempts |
| `WebArchive.CdxQueryUrl` | code/gen.py:106-110 | the index query is the CDX endpoint, the search URL verbatim, then "&output=json" |
| `WebArchive.WebArchiveResults` | code/gen.py:104-120 | a failed query gives None; otherwise the response rows with the header row dropped, in order |
| `WebArchive.WebsiteUrlFromArchive` | code/gen.py:123-132 | no snapshot exactly when the lookup failed or had no data row; a snapshot URL starts with "https://web.archive.org/web/" and contains "http"; characterised in terms of the raw response by `ResolutionOfResponse` and `SnapshotUrlRoundTrip` |
| `WebArchive.SnapshotUrl` | code/gen.py:127-129 | a snapshot URL starts with "https://web.archive.org/web/" and contains "http" |
| `WebArchive.ResolutionOfResponse` | code/gen.py:123-132 | no data row (or a failed query) gives None; a first data row with three fields or more gives "https://web.archive.org/web/" + row[1] + "/" + row[2]; a shorter one raises |
| `WebArchive.SnapshotUrlRoundTrip` | code/gen.py:127-129 | for a timestamp without '/' (CDX timestamps are digits), the timestamp and original URL are embedded verbatim: both are read back from the snapshot URL |
| `NewsCrawler.CrawlNewsArticle` | code/gen.py:135-144 | the first crawl's attempts come first; the archive is looked up (with the original URL) exactly when the first crawl gave None; it raises exactly when the first crawl gave None and the archive's first data row is short; unless an archived snapshot is crawled, the attempts are exactly the first crawl's; characterised by `FirstResultKept`, `FallbackLooksUpOriginal`, `ArchiveCrawledOnce`, `AtMostThreeAttempts` and `HttpsFallbackSkipsArchive` |
| `NewsCrawler.FirstResultKept` | code/gen.py:135-139 | a non-None first crawl is returned unchanged with no archive lookup |
| `NewsCrawler.FallbackLooksUpOriginal` | code/gen.py:139-142 | a None first crawl leads to one archive lookup of the original, unstripped URL, for every URL; it raises exactly on a short first data row, gives None without a snapshot, and without a snapshot makes no attempt beyond the first crawl's |
| `NewsCrawler.ArchiveCrawledOnce` | code/gen.py:140-142 | a snapshot URL is crawled exactly once, as it is, after the first crawl's attempts; a result exists exactly when that page is parsed and carries the snapshot URL and its text |
| `NewsCrawler.AtMostThreeAttempts` | code/gen.py:135-144 | one news article costs at most three extraction attempts |
| `NewsCrawler.HttpsFallbackSkipsArchive` | code/gen.py:135-144 | a schemeless URL that succeeds under https makes no archive lookup |
| `Collector.NewsRetriever` | code/gen.py:154 | the driver stops on a URL exactly when its first crawl gives None and the archive's first data row is short |
| `Collector.ContentText` | code/gen.py:155-157 | "H" is the retrieved text when a result with non-empty text exists, otherwise exactly the sentinel "none/not available"; never empty |
| `Collector.Annotate` | code/gen.py:154-158 | a record keeps its id, url, title and tweet_ids; how "H" is set is stated by `AnnotateContent` |
| `Collector.AnnotateContent` | code/gen.py:154-158 | a raising record is left as it was; otherwise exactly its "H" is set, to `ContentText` of the retrieval result |
| `Collector.AnnotateAll` | code/gen.py:153-158 | one updated record per input record (see `AnnotateContent`, `RowPerRecord`) |
| `Collector.Rows` | code/gen.py:153-159 | one row per record, in order, with id, url, title, "H" and tweet_ids in header order |
| `Collector.OutputRow` | code/gen.py:151 | a written row has one field per header column |
| `Collector.FirstRaise` | code/gen.py:153-154 | the index of the first record whose retrieval raises: no record before it raises, the one at it does |
| `Collector.RowWriter.constructor` | code/gen.py:149 | a fresh output has no rows |
| `Collector.RowWriter.WriteHeader` | code/gen.py:151-152 | appends the header `id, news_url, title, H, tweet_ids` |
| `Collector.RowWriter.WriteRecord` | code/gen.py:159 | appends the record's row in header order |
| `Collector.ProcessRecord` | code/gen.py:154-158 | one loop iteration: it raises exactly when the record's retrieval raises, and otherwise returns the record with "H" set |
| `Collector.CollectRecords` | code/gen.py:147-159 | on a freshly created output: the header first, then one row per record in input order up to the first raising record; those records get "H" in place and the rest are untouched; it raises exactly when some record's retrieval raises |
| `Collector.CollectNewsArticles` | code/gen.py:147-159 | the same, with each record retrieved by `crawl_news_article` |
| `Collector.RowPerRecord` | code/gen.py:153-159 | the rows written number the records before the first raise (all records when nothing raises); row i passes record i's id, url, title and tweet_ids through, and "H" is the non-empty retrieved text, otherwise the sentinel |
| `Collector.FailedRecordGetsSentinel` | code/gen.py:155-159 | a record for which every stage fails gets exactly "none/not available" |

## Left out

- The extractor itself (`Article` download, parse, and the fields images, keywords, authors, title, summary and others): foreign code; the result record keeps only its "url" and "text" fields.
- `requests.get`, `json.loads` and the CDX HTTP endpoint: network and foreign parsing, replaced by the `CdxClient` oracle; a response that is not a list of lists of strings is folded into `None`.
- `time.sleep(2)` between download and parse: a courtesy delay with no effect on state.
- `get_epoch_time` and the "publish_date" field: a float timestamp from `datetime`; the model assumes building the result record never raises.
- The `field_size_limit` loop and the rest of `load_news_file` and `collect_data`: file reading and the foreign `csv` module.
- `csv.DictWriter` mechanics (quoting, its error on keys outside the header), `create_dir`, `tqdm`, `init_logging`, `init_config`, `download_dataset`: I/O, UI and configuration. Input records carry exactly the columns id, news_url, title and tweet_ids.
- Logging calls: a side channel only.

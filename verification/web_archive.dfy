/**
 * Archive resolution (`get_web_archieve_results`, `get_website_url_from_arhieve`):
 * the CDX index is queried for a URL, its header row is dropped, and the first
 * data row's timestamp (field 1) and original URL (field 2) build a snapshot
 * URL. The HTTP GET plus JSON decoding is an oracle.
 */
module WebArchive {
  import opened Options
  import opened Strings

  /** GET of a CDX query URL, decoded as JSON rows; `None` stands for any exception. */
  type CdxClient = string -> Option<seq<seq<string>>>

  const CdxEndpoint: string := "http://web.archive.org/cdx/search/cdx?url="
  const CdxSuffix: string := "&output=json"
  const SnapshotPrefix: string := "https://web.archive.org/web/"

  /** The index query for `searchUrl`; the URL is inserted as it is, without escaping. */
  function CdxQueryUrl(searchUrl: string): (q: string)
    ensures |q| == |CdxEndpoint| + |searchUrl| + |CdxSuffix|
    ensures q[..|CdxEndpoint|] == CdxEndpoint && q[|q| - |CdxSuffix|..] == CdxSuffix
    ensures q[|CdxEndpoint|..|q| - |CdxSuffix|] == searchUrl
  {
    CdxEndpoint + searchUrl + CdxSuffix
  }

  /** The rows of the index response after the header row, or None when the query failed. */
  function WebArchiveResults(cdx: CdxClient, searchUrl: string): (r: Option<seq<seq<string>>>)
    ensures r.None? <==> cdx(CdxQueryUrl(searchUrl)).None?
    ensures r.Some? ==>
      var rows := cdx(CdxQueryUrl(searchUrl)).value;
      && |r.value| == (if rows == [] then 0 else |rows| - 1)
      && forall i :: 0 <= i < |r.value| ==> r.value[i] == rows[i + 1]
  {
    match cdx(CdxQueryUrl(searchUrl))
    case None => None
    case Some(rows) => Some(if rows == [] then [] else rows[1..])
  }

  /** The snapshot address for a timestamp and an archived original URL. */
  function SnapshotUrl(timestamp: string, original: string): (s: string)
    ensures |s| >= |SnapshotPrefix| && s[..|SnapshotPrefix|] == SnapshotPrefix
    ensures Contains(s, "http")
  {
    var s := SnapshotPrefix + timestamp + "/" + original;
    assert s[..4] == "http";
    s
  }

  /**
   * What `get_website_url_from_arhieve` does: a snapshot URL, None, or the
   * IndexError a data row with fewer than three fields raises outside any handler.
   */
  datatype Resolution = Snapshot(url: string) | NoSnapshot | RowTooShort

  function WebsiteUrlFromArchive(cdx: CdxClient, url: string): (res: Resolution)
    ensures res.NoSnapshot? <==> WebArchiveResults(cdx, url).None? || WebArchiveResults(cdx, url).value == []
    ensures res.Snapshot? ==> |res.url| >= |SnapshotPrefix| && res.url[..|SnapshotPrefix|] == SnapshotPrefix && Contains(res.url, "http")
  {
    match WebArchiveResults(cdx, url)
    case None => NoSnapshot
    case Some(rows) =>
      if rows == [] then NoSnapshot
      else if |rows[0]| < 3 then RowTooShort
      else Snapshot(SnapshotUrl(rows[0][1], rows[0][2]))
  }

  /**
   * The resolution in terms of the raw index response: nothing without a data
   * row, otherwise the snapshot built from the first data row (the row after
   * the header) or a raise when that row is short.
   */
  lemma ResolutionOfResponse(cdx: CdxClient, url: string)
    ensures var resp := cdx(CdxQueryUrl(url));
      var res := WebsiteUrlFromArchive(cdx, url);
      && (res.NoSnapshot? <==> resp.None? || |resp.value| <= 1)
      && (res.RowTooShort? <==> resp.Some? && |resp.value| >= 2 && |resp.value[1]| < 3)
      && (res.Snapshot? <==> resp.Some? && |resp.value| >= 2 && |resp.value[1]| >= 3)
      && (res.Snapshot? ==>
            res.url == "https://web.archive.org/web/" + resp.value[1][1] + "/" + resp.value[1][2])
  {
  }

  /** Splits a string at its first '/', when there is one. */
  function SplitAtSlash(s: string): (r: Option<(string, string)>)
    ensures r.Some? ==> '/' !in r.value.0 && s == r.value.0 + "/" + r.value.1
  {
    if s == [] then None
    else if s[0] == '/' then Some(([], s[1..]))
    else match SplitAtSlash(s[1..])
      case None => None
      case Some(p) => Some(([s[0]] + p.0, p.1))
  }

  /** Reads the timestamp and the original URL back out of a snapshot address. */
  function ParseSnapshotUrl(s: string): Option<(string, string)>
  {
    if |s| >= |SnapshotPrefix| && s[..|SnapshotPrefix|] == SnapshotPrefix
    then SplitAtSlash(s[|SnapshotPrefix|..])
    else None
  }

  lemma {:induction false} SplitAtSlashJoin(t: string, o: string)
    requires '/' !in t
    ensures SplitAtSlash(t + "/" + o) == Some((t, o))
  {
    if t != [] {
      var s := t + "/" + o;
      assert s[0] == t[0] && t[0] != '/';
      assert s[1..] == t[1..] + "/" + o;
      SplitAtSlashJoin(t[1..], o);
      assert [t[0]] + t[1..] == t;
    } else {
      assert t + "/" + o == ['/'] + o;
    }
  }

  /**
   * The snapshot URL carries its timestamp and original URL verbatim: for a
   * timestamp without '/' (CDX timestamps are digits) both are read back exactly.
   */
  lemma SnapshotUrlRoundTrip(timestamp: string, original: string)
    requires '/' !in timestamp
    ensures ParseSnapshotUrl(SnapshotUrl(timestamp, original)) == Some((timestamp, original))
  {
    var s := SnapshotUrl(timestamp, original);
    assert s[|SnapshotPrefix|..] == timestamp + "/" + original;
    SplitAtSlashJoin(timestamp, original);
  }
}

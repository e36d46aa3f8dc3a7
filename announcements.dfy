/** The NSE corporate-announcements monitor: table cells with typed links, the page
    walk capped at 100 pages, header-keyed records, the `latest_<market>.json`
    snapshot name and the clean-up of older snapshot files. */
module Announcements {
  import opened Wrappers
  import opened Text
  import opened PyDict
  import opened TableRows

  datatype LinkType = Pdf | Xbrl | Link

  /** A cell of a scraped row: its stripped text, or that text with the link it carries. */
  datatype Cell = Plain(text: string) | Linked(text: string, link: string, kind: LinkType)

  /** A cell's link type: `pdf` wins over `xbrl`, which wins over a plain link. */
  function LinkTypeOf(href: string): (t: LinkType)
    ensures t == Pdf <==> Contains(Lower(href), ".pdf")
    ensures t == Xbrl <==> !Contains(Lower(href), ".pdf") && Contains(Lower(href), "xbrl")
  {
    if Contains(Lower(href), ".pdf") then Pdf
    else if Contains(Lower(href), "xbrl") then Xbrl
    else Link
  }

  /** What one `td` becomes: a linked cell exactly when it has a non-empty `href`. */
  function CellOf(c: RawCell): (r: Cell)
    ensures r.text == Strip(c.text)
    ensures r.Linked? <==> c.href.Some? && c.href.value != ""
    ensures r.Linked? ==> r.link == c.href.value && r.kind == LinkTypeOf(c.href.value)
  {
    match c.href
    case Some(h) => if h != "" then Linked(Strip(c.text), h, LinkTypeOf(h)) else Plain(Strip(c.text))
    case None => Plain(Strip(c.text))
  }

  /** The column names used when the page shows no header cells. */
  const FallbackHeaders: seq<string> :=
    ["SYMBOL", "COMPANY NAME", "SUBJECT", "DETAILS", "ATTACHMENT", "XBRL", "BROADCAST DATE/TIME"]

  /** The safety limit on pages. */
  const PageCap: nat := 100

  /** The snapshot `scrape_all_pages` returns (timestamp and URL left out). */
  datatype Snapshot = Snapshot(
    headers: seq<string>,
    data: seq<Dict<Cell>>,
    totalRecords: nat,
    totalPages: int,
    marketType: string)

  /** `scrape_all_pages` once the table is on screen, with the announcements
      fallback headers and the 100-page cap. */
  method ScrapeAllPages(thTexts: seq<string>, pages: seq<PageView<RawRow>>, maxPages: Option<int>, marketType: string)
    returns (s: Snapshot)
    ensures s.headers == HeadersOr(thTexts, FallbackHeaders) && s.headers != []
    ensures var rows := PageData(pages, PagesRead(pages, maxPages, PageCap), CellOf);
      |s.data| == |rows| && forall j :: 0 <= j < |rows| ==> s.data[j] == RecordOf(s.headers, rows[j])
    ensures s.totalRecords == |s.data|
    ensures s.totalPages == FinalPage(pages, maxPages, PageCap)
    ensures 1 <= s.totalPages <= PageCap + 1
    ensures s.marketType == marketType
  {
    var headers, records, page := ScrapeTable(thTexts, FallbackHeaders, pages, maxPages, PageCap, CellOf);
    s := Snapshot(headers, records, |records|, page, marketType);
  }

  /** The snapshot file name of a market: `latest_<market lower-cased>.json`. */
  function LatestName(marketType: string): string {
    "latest_" + Lower(marketType) + ".json"
  }

  /** `save_latest`: where the snapshot is written, `None` when there is nothing to save. */
  function SaveLatestPath(outputDir: string, marketType: string, hasData: bool): (p: Option<string>)
    ensures p.Some? <==> hasData
    ensures p.Some? ==> EndsWith(p.value, LatestName(marketType))
  {
    if hasData then Some(JoinPath(outputDir, LatestName(marketType))) else None
  }

  /** `cleanup_old_files` deletes a file iff its name ends in `.json` (any case) and
      does not start with `latest_<market lower-cased>`. */
  predicate Deletes(filename: string, marketType: string) {
    EndsWith(Lower(filename), ".json") && !StartsWith(filename, "latest_" + Lower(marketType))
  }

  /** The loop of `cleanup_old_files`: the names it removes, in directory order. */
  method CleanupOldFiles(listing: seq<string>, marketType: string) returns (deleted: seq<string>)
    ensures forall f :: f in deleted <==> f in listing && Deletes(f, marketType)
    ensures |deleted| <= |listing|
  {
    deleted := [];
    for i := 0 to |listing|
      invariant forall f :: f in deleted <==> f in listing[..i] && Deletes(f, marketType)
      invariant |deleted| <= i
    {
      var filename := listing[i];
      assert listing[..i + 1] == listing[..i] + [filename];
      if !EndsWith(Lower(filename), ".json") {
        continue;
      }
      if StartsWith(filename, "latest_" + Lower(marketType)) {
        continue;
      }
      deleted := deleted + [filename];
    }
    assert listing[..|listing|] == listing;
  }

  /** The name `save_json` writes: `<prefix>_<market lower-cased>_<timestamp>.json`. */
  function SaveJsonName(prefix: string, marketType: string, timestamp: string): string {
    prefix + "_" + Lower(marketType) + "_" + timestamp + ".json"
  }

  /** The timestamped files `save_json` writes with its default prefix are all removed by the clean-up. */
  lemma CleanupRemovesTimestamped(marketType: string, timestamp: string)
    ensures Deletes(SaveJsonName("announcements", marketType, timestamp), marketType)
  {
    var name := SaveJsonName("announcements", marketType, timestamp);
    var low := Lower(name);
    assert low[|low| - 5..] == ".json";
    assert name[0] == 'a';
  }

  /** The clean-up never deletes the snapshot `save_latest` writes for the same market. */
  lemma CleanupKeepsLatest(marketType: string)
    ensures !Deletes(LatestName(marketType), marketType)
  {
    var prefix := "latest_" + Lower(marketType);
    assert LatestName(marketType)[..|prefix|] == prefix;
  }
}

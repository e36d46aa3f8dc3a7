/** The NSE credit-rating (CRD) monitor: the same table walk as the announcements
    monitor, with untyped links, its own fallback headers, a 50-page cap and a
    single `latest.json` snapshot. */
module Crd {
  import opened Wrappers
  import opened Text
  import opened PyDict
  import opened TableRows

  /** A cell of a scraped row: its stripped text, or that text with its link. */
  datatype Cell = Plain(text: string) | Linked(text: string, link: string)

  /** What one `td` becomes: a linked cell exactly when it has a non-empty `href`. */
  function CellOf(c: RawCell): (r: Cell)
    ensures r.text == Strip(c.text)
    ensures r.Linked? <==> c.href.Some? && c.href.value != ""
    ensures r.Linked? ==> r.link == c.href.value
  {
    match c.href
    case Some(h) => if h != "" then Linked(Strip(c.text), h) else Plain(Strip(c.text))
    case None => Plain(Strip(c.text))
  }

  /** The column names used when the page shows no header cells. */
  const FallbackHeaders: seq<string> :=
    ["COMPANY NAME", "ISIN", "NAME OF CREDIT RATING AGENCY", "CREDIT RATING",
     "RATING ACTION", "DATE OF CREDIT RATING", "REPORTING DATE", "BROADCAST DATE/TIME"]

  /** The safety limit on pages. */
  const PageCap: nat := 50

  /** The snapshot `scrape_all_pages` returns (timestamp and URL left out). */
  datatype Snapshot = Snapshot(headers: seq<string>, data: seq<Dict<Cell>>, totalRecords: nat, totalPages: int)

  /** `scrape_all_pages` once the table is on screen, with the CRD fallback headers
      and the 50-page cap. */
  method ScrapeAllPages(thTexts: seq<string>, pages: seq<PageView<RawRow>>, maxPages: Option<int>)
    returns (s: Snapshot)
    ensures s.headers == HeadersOr(thTexts, FallbackHeaders) && s.headers != []
    ensures var rows := PageData(pages, PagesRead(pages, maxPages, PageCap), CellOf);
      |s.data| == |rows| && forall j :: 0 <= j < |rows| ==> s.data[j] == RecordOf(s.headers, rows[j])
    ensures s.totalRecords == |s.data|
    ensures s.totalPages == FinalPage(pages, maxPages, PageCap)
    ensures 1 <= s.totalPages <= PageCap + 1
  {
    var headers, records, page := ScrapeTable(thTexts, FallbackHeaders, pages, maxPages, PageCap, CellOf);
    s := Snapshot(headers, records, |records|, page);
  }

  /** The snapshot file the API serves. */
  const LatestName: string := "latest.json"

  /** `save_latest`: where the snapshot is written, `None` when there is nothing to save. */
  function SaveLatestPath(outputDir: string, hasData: bool): (p: Option<string>)
    ensures p.Some? <==> hasData
    ensures p.Some? ==> EndsWith(p.value, LatestName)
  {
    if hasData then Some(JoinPath(outputDir, LatestName)) else None
  }

  /** The name `save_json` writes: `<prefix>_<timestamp>.json`. */
  function SaveJsonName(prefix: string, timestamp: string): string {
    prefix + "_" + timestamp + ".json"
  }

  /** `cleanup_old_files` deletes a file iff its name ends in `.json` (any case) and
      is not exactly `latest.json`. */
  predicate Deletes(filename: string) {
    EndsWith(Lower(filename), ".json") && filename != LatestName
  }

  /** The loop of `cleanup_old_files`: the names it removes, in directory order. */
  method CleanupOldFiles(listing: seq<string>) returns (deleted: seq<string>)
    ensures forall f :: f in deleted <==> f in listing && Deletes(f)
    ensures |deleted| <= |listing|
  {
    deleted := [];
    for i := 0 to |listing|
      invariant forall f :: f in deleted <==> f in listing[..i] && Deletes(f)
      invariant |deleted| <= i
    {
      var filename := listing[i];
      assert listing[..i + 1] == listing[..i] + [filename];
      if !EndsWith(Lower(filename), ".json") {
        continue;
      }
      if filename == LatestName {
        continue;
      }
      deleted := deleted + [filename];
    }
    assert listing[..|listing|] == listing;
  }

  /** The clean-up keeps the snapshot `save_latest` writes and removes every
      timestamped file `save_json` writes with its default prefix. */
  lemma CleanupKeepsOnlyLatest(timestamp: string)
    ensures !Deletes(LatestName)
    ensures Deletes(SaveJsonName("crd", timestamp))
  {
    var name := SaveJsonName("crd", timestamp);
    var low := Lower(name);
    assert low[|low| - 5..] == ".json";
    assert name[0] != LatestName[0];
  }
}

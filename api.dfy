/** The snapshot API: page arithmetic over a snapshot's records, the response
    document, and which snapshot file each endpoint serves. */
module Api {
  import opened Wrappers
  import opened Text
  import TableRows
  import Announcements
  import Crd

  // ---------------------------------------------------------------- Python arithmetic and slicing

  /** Python's `a // b` (rounds toward negative infinity). */
  function FloorDiv(a: int, b: int): (q: int)
    requires b != 0
    ensures b > 0 ==> b * q <= a < b * q + b
    ensures b < 0 ==> b * q >= a > b * q + b
  {
    if b > 0 then a / b else (-a) / (-b)
  }

  /** A slice bound as Python reads it: negative counts from the end; then clamped to `0..n`. */
  function SliceBound(i: int, n: nat): (r: nat)
    ensures r <= n
    ensures 0 <= i <= n ==> r == i
    ensures i > n ==> r == n
  {
    if i < 0 then (if i + n < 0 then 0 else i + n) else if i > n then n else i
  }

  /** `s[start:end]` */
  function PySlice<T>(s: seq<T>, start: int, end: int): (r: seq<T>)
    ensures |r| <= |s|
  {
    var lo, hi := SliceBound(start, |s|), SliceBound(end, |s|);
    if lo < hi then s[lo..hi] else []
  }

  // ---------------------------------------------------------------- paginate_data

  /** One page of records with the totals of the whole snapshot. */
  datatype Paged<T> = Paged(items: seq<T>, total: nat, totalPages: int)

  /** `paginate_data`; `None` is the `ZeroDivisionError` a zero `per_page` raises on non-empty data. */
  function Paginate<T>(data: seq<T>, page: int, perPage: int): (r: Option<Paged<T>>)
    ensures data == [] ==> r == Some(Paged([], 0, 0))
    ensures r.None? <==> data != [] && perPage == 0
    ensures r.Some? ==> r.value.total == |data|
  {
    if data == [] then Some(Paged([], 0, 0))
    else if perPage == 0 then None
    else
      var total := |data|;
      var totalPages := FloorDiv(total + perPage - 1, perPage);
      var start := (page - 1) * perPage;
      var end := start + perPage;
      Some(Paged(PySlice(data, start, end), total, totalPages))
  }

  /** The records page `page` holds, for a positive `per_page`: the slice from
      `(page - 1) * per_page`, `per_page` long. */
  function PageItems<T>(data: seq<T>, page: int, perPage: int): (r: seq<T>)
    requires perPage >= 1
    ensures r == Paginate(data, page, perPage).value.items
  {
    var start := (page - 1) * perPage;
    PySlice(data, start, start + perPage)
  }

  /** The number of pages, for a positive `per_page`. */
  function TotalPages<T>(data: seq<T>, perPage: int): int
    requires perPage >= 1
  {
    Paginate(data, 1, perPage).value.totalPages
  }

  /** `total_pages` is the ceiling of `len(data) / per_page`: enough pages for every
      record, and no page more than needed. */
  lemma TotalPagesIsCeiling<T>(data: seq<T>, perPage: int)
    requires perPage >= 1
    ensures var tp := TotalPages(data, perPage);
      tp >= 0 && (tp - 1) * perPage < |data| + (if data == [] then perPage else 0) && |data| <= tp * perPage
    ensures TotalPages(data, perPage) == 0 <==> data == []
  {
    if data != [] {
      var tp := TotalPages(data, perPage);
      var a := |data| + perPage - 1;
      assert perPage * tp <= a < perPage * tp + perPage;
      assert (tp - 1) * perPage == perPage * tp - perPage;
      assert tp * perPage == perPage * tp;
    }
  }

  /** A page from 1 on is the contiguous run of records from `(page-1)*per_page`, at most
      `per_page` of them, cut short by the end of the data. */
  lemma PageIsContiguous<T>(data: seq<T>, page: int, perPage: int)
    requires perPage >= 1 && page >= 1
    ensures var lo := TableRows.Min((page - 1) * perPage, |data|);
      var hi := TableRows.Min(page * perPage, |data|);
      0 <= lo <= hi && PageItems(data, page, perPage) == data[lo..hi]
    ensures |PageItems(data, page, perPage)| <= perPage
  {
    var start := (page - 1) * perPage;
    MulMonotone(0, page - 1, perPage);
    assert start + perPage == page * perPage;
    SliceWindow(data, start, perPage);
  }

  /** A window of `len` records from `start` on, cut short by the end of the data. */
  lemma SliceWindow<T>(data: seq<T>, start: int, len: int)
    requires start >= 0 && len >= 1
    ensures var lo := TableRows.Min(start, |data|);
      var hi := TableRows.Min(start + len, |data|);
      lo <= hi && hi - lo <= len && PySlice(data, start, start + len) == data[lo..hi]
  {
  }

  lemma MulMonotone(a: int, b: int, c: int)
    requires a <= b && c >= 0
    ensures a * c <= b * c
  {
    assert b * c - a * c == (b - a) * c;
  }

  /** Pages 1, 2, ..., n joined in order. */
  function PagesJoined<T>(data: seq<T>, perPage: int, n: nat): seq<T>
    requires perPage >= 1
  {
    if n == 0 then [] else PagesJoined(data, perPage, n - 1) + PageItems(data, n, perPage)
  }

  lemma {:induction false} PagesJoinedPrefix<T>(data: seq<T>, perPage: int, n: nat)
    requires perPage >= 1
    ensures PagesJoined(data, perPage, n) == data[..TableRows.Min(n * perPage, |data|)]
  {
    if n > 0 {
      PagesJoinedPrefix(data, perPage, n - 1);
      PageIsContiguous(data, n, perPage);
      var lo := TableRows.Min((n - 1) * perPage, |data|);
      var hi := TableRows.Min(n * perPage, |data|);
      assert data[..lo] + data[lo..hi] == data[..hi];
    }
  }

  /** Reading pages 1 to `total_pages` in order yields the whole snapshot, once each. */
  lemma PagesCoverData<T>(data: seq<T>, perPage: int)
    requires perPage >= 1
    ensures PagesJoined(data, perPage, TotalPages(data, perPage) as nat) == data
  {
    TotalPagesIsCeiling(data, perPage);
    PagesJoinedPrefix(data, perPage, TotalPages(data, perPage) as nat);
  }

  /** Every page past the last one, and page 0, is empty. */
  lemma PastLastPageEmpty<T>(data: seq<T>, page: int, perPage: int)
    requires perPage >= 1
    requires page > TotalPages(data, perPage) || page == 0
    ensures PageItems(data, page, perPage) == []
  {
    TotalPagesIsCeiling(data, perPage);
    if page > 0 {
      PageIsContiguous(data, page, perPage);
      var tp := TotalPages(data, perPage);
      MulMonotone(tp, page - 1, perPage);
    }
  }

  /** From page 1 up to `total_pages`, every page is non-empty. */
  lemma PagesUpToLastNonEmpty<T>(data: seq<T>, page: int, perPage: int)
    requires perPage >= 1
    requires 1 <= page <= TotalPages(data, perPage)
    ensures PageItems(data, page, perPage) != []
  {
    TotalPagesIsCeiling(data, perPage);
    PageIsContiguous(data, page, perPage);
    var tp := TotalPages(data, perPage);
    MulMonotone(page - 1, tp - 1, perPage);
    assert (page - 1) * perPage < page * perPage;
  }

  // ---------------------------------------------------------------- create_response

  /** The snapshot metadata keys the response copies; `None` is a missing key. */
  datatype Metadata = Metadata(
    scrapeTimestamp: Option<string>,
    totalRecords: Option<int>,
    totalPages: Option<int>,
    sourceUrl: Option<string>,
    marketType: Option<string>)

  const NoMetadata: Metadata := Metadata(None, None, None, None, None)

  /** The response's copy of the metadata: missing keys are `null`, except the market type, which reads `N/A`. */
  datatype ResponseMetadata = ResponseMetadata(
    scrapeTimestamp: Option<string>,
    totalRecords: Option<int>,
    totalPagesScraped: Option<int>,
    sourceUrl: Option<string>,
    marketType: string)

  datatype Pagination = Pagination(page: int, perPage: int, totalRecords: nat, totalPages: int, hasNext: bool, hasPrev: bool)

  datatype Response<T> = Response(success: bool, metadata: ResponseMetadata, pagination: Pagination, data: seq<T>)

  /** `create_response` */
  function CreateResponse<T>(data: seq<T>, metadata: Metadata, page: int, perPage: int, total: nat, totalPages: int)
    : (r: Response<T>)
    ensures r.success
    ensures r.data == data
    ensures r.metadata.marketType == if metadata.marketType.Some? then metadata.marketType.value else "N/A"
    ensures r.metadata.totalRecords == metadata.totalRecords && r.metadata.totalPagesScraped == metadata.totalPages
    ensures r.pagination.hasNext <==> page < totalPages
    ensures r.pagination.hasPrev <==> page > 1
  {
    Response(
      true,
      ResponseMetadata(metadata.scrapeTimestamp, metadata.totalRecords, metadata.totalPages,
                       metadata.sourceUrl, metadata.marketType.GetOr("N/A")),
      Pagination(page, perPage, total, totalPages, page < totalPages, page > 1),
      data)
  }

  // ---------------------------------------------------------------- the data endpoints

  datatype Endpoint = EventCalendar | AnnouncementsFeed | CrdFeed | CreditRating

  /** The query parameters as Flask's `type=int` hands them over: `None` when absent or not a number. */
  datatype Query = Query(page: Option<int>, perPage: Option<int>, market: Option<string>)

  /** A loaded snapshot document: its `data` and `metadata` keys, and how many other keys it has. */
  datatype Doc<T> = Doc(data: Option<seq<T>>, metadata: Option<Metadata>, otherKeys: nat)

  /** `not json_data`: nothing could be loaded, or the document is an empty object. */
  predicate Missing<T>(doc: Option<Doc<T>>) {
    doc.None? || (doc.value.data.None? && doc.value.metadata.None? && doc.value.otherKeys == 0)
  }

  const MaxPerPage: int := 1000

  /** The page size: the `per_page` parameter (50 when absent or not a number), capped at 1000. */
  function PerPage(q: Query): (pp: int)
    ensures pp <= MaxPerPage
    ensures q.perPage.None? ==> pp == 50
    ensures q.perPage.Some? && q.perPage.value <= MaxPerPage ==> pp == q.perPage.value
    ensures q.perPage.Some? && q.perPage.value > MaxPerPage ==> pp == MaxPerPage
  {
    TableRows.Min(q.perPage.GetOr(50), MaxPerPage)
  }

  /** The market, lower-cased, `equity` when absent. */
  function Market(q: Query): string {
    Lower(q.market.GetOr("equity"))
  }

  /** The snapshot file an endpoint reads. */
  function SnapshotPath(ep: Endpoint, q: Query): string {
    match ep
    case EventCalendar => "event_calendar_data/latest.json"
    case AnnouncementsFeed => "announcements_data/latest_" + Market(q) + ".json"
    case CrdFeed => "crd_data/latest.json"
    case CreditRating => "credit_rating_data/latest_" + Market(q) + ".json"
  }

  function NotFoundMessage(ep: Endpoint, market: string): string {
    match ep
    case EventCalendar => "Event calendar data not found. Please ensure the monitor is running."
    case AnnouncementsFeed =>
      "Announcements data not found for market: " + market + ". "
      + "Available markets: equity, sme, debt, mf. "
      + "Please ensure the monitor is running for this market type."
    case CrdFeed => "CRD data not found. Please ensure the monitor is running."
    case CreditRating =>
      "Credit rating data not found for market: " + market + ". "
      + "Available markets: equity, sme. "
      + "Please ensure the monitor is running for this market type."
  }

  /** What an endpoint answers: a response document, or an error body with its status code. */
  datatype Reply<T> = Ok(response: Response<T>) | Error(message: string, code: int)

  /** A data endpoint: `load` is `load_json_file`, from a path to the document read there. */
  function Serve<T>(ep: Endpoint, q: Query, load: string -> Option<Doc<T>>): (r: Reply<T>)
    ensures r.Error? && r.code == 404 <==> Missing(load(SnapshotPath(ep, q)))
    ensures r.Error? && r.code == 404 ==> r.message == NotFoundMessage(ep, Market(q))
    ensures r.Error? && r.code == 500 <==>
      !Missing(load(SnapshotPath(ep, q))) && load(SnapshotPath(ep, q)).value.data.GetOr([]) != [] && PerPage(q) == 0
    ensures r.Error? ==> r.code == 404 || r.code == 500
    ensures r.Ok? ==> r.response.success && r.response.pagination.perPage == PerPage(q) <= MaxPerPage
    ensures r.Ok? ==> r.response.pagination.page == q.page.GetOr(1)
    ensures r.Ok? ==> r.response.pagination.totalRecords == |load(SnapshotPath(ep, q)).value.data.GetOr([])|
  {
    var page := q.page.GetOr(1);
    var perPage := PerPage(q);
    var doc := load(SnapshotPath(ep, q));
    if Missing(doc) then Error(NotFoundMessage(ep, Market(q)), 404)
    else
      match Paginate(doc.value.data.GetOr([]), page, perPage)
      case None => Error("Internal server error", 500)
      case Some(p) => Ok(CreateResponse(p.items, doc.value.metadata.GetOr(NoMetadata), page, perPage, p.total, p.totalPages))
  }

  /** A served page from 1 on is the run of the snapshot's records that page covers,
      and `has_next` holds exactly when the following page has records. */
  lemma ServedPage<T>(ep: Endpoint, q: Query, load: string -> Option<Doc<T>>)
    requires !Missing(load(SnapshotPath(ep, q)))
    requires PerPage(q) >= 1 && q.page.GetOr(1) >= 1
    ensures var r := Serve(ep, q, load);
      var data := load(SnapshotPath(ep, q)).value.data.GetOr([]);
      var page, pp := q.page.GetOr(1), PerPage(q);
      r.Ok? && r.response.data == PageItems(data, page, pp) && |r.response.data| <= pp
      && (r.response.pagination.hasNext <==> PageItems(data, page + 1, pp) != [])
  {
    var data := load(SnapshotPath(ep, q)).value.data.GetOr([]);
    var page, pp := q.page.GetOr(1), PerPage(q);
    PageIsContiguous(data, page, pp);
    assert TotalPages(data, pp) == Paginate(data, page, pp).value.totalPages;
    if page + 1 <= TotalPages(data, pp) {
      PagesUpToLastNonEmpty(data, page + 1, pp);
    } else {
      PastLastPageEmpty(data, page + 1, pp);
    }
  }

  /** The announcements endpoint reads the very file the announcements monitor writes
      for a market, whatever the letter case of the query and of the monitor's market
      type; the CRD endpoint reads the CRD monitor's snapshot. */
  lemma EndpointsReadMonitorSnapshots(q: Query, marketType: string)
    requires q.market.Some? && Lower(q.market.value) == Lower(marketType)
    ensures SnapshotPath(AnnouncementsFeed, q) == TableRows.JoinPath("announcements_data", Announcements.LatestName(marketType))
    ensures SnapshotPath(CrdFeed, q) == TableRows.JoinPath("crd_data", Crd.LatestName)
  {
    assert !EndsWith("announcements_data", "/");
    assert !EndsWith("crd_data", "/");
  }
}

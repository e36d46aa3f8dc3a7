/** What both NSE table monitors do with a paginated HTML table: read the rows of
    each result page, walk the pages up to the limits, then turn every row into a
    record keyed by the table headers. The cell type `C` is each monitor's own. */
module TableRows {
  import opened Wrappers
  import opened PyDict
  import opened Text

  function Min(a: int, b: int): (r: int)
    ensures r <= a && r <= b && (r == a || r == b)
  {
    if a <= b then a else b
  }

  // ---------------------------------------------------------------- row extraction

  /** One `td` as the browser gives it: its text, and the `href` of the `a` inside it
      (`None` when the cell has no link or the link has no `href`). */
  datatype RawCell = RawCell(text: string, href: Option<string>)

  /** A table row as the browser gives it: its `td` cells. */
  type RawRow = seq<RawCell>

  /** A raw row converted cell by cell. */
  function RowOf<C>(cells: RawRow, conv: RawCell -> C): (r: seq<C>)
    ensures |r| == |cells|
    ensures forall i :: 0 <= i < |cells| ==> r[i] == conv(cells[i])
  {
    seq(|cells|, i requires 0 <= i < |cells| => conv(cells[i]))
  }

  /** The rows `_extract_table_data` returns: every row with at least one cell, converted, in order. */
  function TableData<C>(rows: seq<RawRow>, conv: RawCell -> C): seq<seq<C>>
    decreases |rows|
  {
    if rows == [] then []
    else TableData(rows[..|rows| - 1], conv) + (if rows[|rows| - 1] != [] then [RowOf(rows[|rows| - 1], conv)] else [])
  }

  /** Extraction treats the rows one by one, so extracting page by page and then
      joining the pages gives the same rows as extracting the joined pages. */
  lemma {:induction false} TableDataAppend<C>(a: seq<RawRow>, b: seq<RawRow>, conv: RawCell -> C)
    ensures TableData(a + b, conv) == TableData(a, conv) + TableData(b, conv)
    decreases |b|
  {
    if b != [] {
      var b' := b[..|b| - 1];
      assert (a + b)[..|a + b| - 1] == a + b';
      TableDataAppend(a, b', conv);
    } else {
      assert a + b == a;
    }
  }

  /** Extraction never adds rows, never yields an empty row, and every row it yields is a raw row converted cell by cell. */
  lemma {:induction false} TableDataShape<C>(rows: seq<RawRow>, conv: RawCell -> C)
    ensures |TableData(rows, conv)| <= |rows|
    ensures forall r :: r in TableData(rows, conv) ==> r != []
    ensures forall r :: r in TableData(rows, conv) ==> exists raw :: raw in rows && r == RowOf(raw, conv)
    decreases |rows|
  {
    if rows != [] {
      var init := rows[..|rows| - 1];
      TableDataShape(init, conv);
      forall r | r in TableData(rows, conv)
        ensures exists raw :: raw in rows && r == RowOf(raw, conv)
      {
        if r in TableData(init, conv) {
          var raw :| raw in init && r == RowOf(raw, conv);
          assert raw in rows;
        } else {
          assert rows[|rows| - 1] in rows;
        }
      }
    }
  }

  /** The row and cell loops of `_extract_table_data`, with the monitor's own cell conversion. */
  method ExtractTableData<C>(rows: seq<RawRow>, conv: RawCell -> C) returns (data: seq<seq<C>>)
    ensures data == TableData(rows, conv)
  {
    data := [];
    for j := 0 to |rows|
      invariant data == TableData(rows[..j], conv)
    {
      var cells := rows[j];
      assert rows[..j + 1][..j] == rows[..j];
      if |cells| > 0 {
        var rowData: seq<C> := [];
        for i := 0 to |cells|
          invariant rowData == RowOf(cells[..i], conv)
        {
          rowData := rowData + [conv(cells[i])];
        }
        assert cells[..|cells|] == cells;
        data := data + [rowData];
      }
    }
    assert rows[..|rows|] == rows;
  }

  /** `os.path.join(directory, name)` for a relative `name`. */
  function JoinPath(directory: string, name: string): (p: string)
    ensures EndsWith(p, name)
  {
    if directory == [] || EndsWith(directory, "/") then directory + name else directory + "/" + name
  }

  // ---------------------------------------------------------------- row structuring

  /** The (header, cell) pairs of the first `n` columns. */
  function Pairs<C>(headers: seq<string>, row: seq<C>, n: nat): (r: seq<(string, C)>)
    requires n <= |headers| && n <= |row|
    ensures |r| == n
    ensures forall i :: 0 <= i < n ==> r[i] == (headers[i], row[i])
  {
    seq(n, i requires 0 <= i < n => (headers[i], row[i]))
  }

  /** The record a raw row becomes: the first min(|headers|, |row|) headers are
      assigned their cells in column order; extra cells and extra headers are dropped. */
  function RecordOf<C>(headers: seq<string>, row: seq<C>): Dict<C> {
    FromPairs(Pairs(headers, row, Min(|headers|, |row|)))
  }

  lemma PairsPrefix<C>(headers: seq<string>, row: seq<C>, i: nat)
    requires i < |headers| && i < |row|
    ensures Pairs(headers, row, i + 1)[..i] == Pairs(headers, row, i)
  {
  }

  /** `row_dict = {}` then `row_dict[header] = row[i]` column by column: the long-row
      branch walks the headers, the short-row branch walks the cells. */
  method BuildRecord<C>(headers: seq<string>, row: seq<C>) returns (record: Dict<C>)
    ensures record == RecordOf(headers, row)
  {
    record := [];
    if |row| >= |headers| {
      for i := 0 to |headers|
        invariant record == FromPairs(Pairs(headers, row, i))
      {
        PairsPrefix(headers, row, i);
        record := Assign(record, headers[i], row[i]);
      }
    } else {
      // Every index of the row is below |headers| here, so no `Column_{i+1}` name arises.
      for i := 0 to |row|
        invariant record == FromPairs(Pairs(headers, row, i))
      {
        PairsPrefix(headers, row, i);
        record := Assign(record, headers[i], row[i]);
      }
    }
  }

  /** One record per raw row, in order. */
  method StructureRows<C>(headers: seq<string>, rows: seq<seq<C>>) returns (records: seq<Dict<C>>)
    ensures |records| == |rows|
    ensures forall j :: 0 <= j < |rows| ==> records[j] == RecordOf(headers, rows[j])
  {
    records := [];
    for j := 0 to |rows|
      invariant |records| == j
      invariant forall m :: 0 <= m < j ==> records[m] == RecordOf(headers, rows[m])
    {
      var record := BuildRecord(headers, rows[j]);
      records := records + [record];
    }
  }

  /** With distinct headers a record is exactly the header/cell pairs of its first
      min(|headers|, |row|) columns: a long row is keyed by all the headers, a short
      one by the first |row| headers, in header order. */
  lemma RecordOfDistinctHeaders<C>(headers: seq<string>, row: seq<C>)
    requires forall i, j :: 0 <= i < j < |headers| ==> headers[i] != headers[j]
    ensures RecordOf(headers, row) == Pairs(headers, row, Min(|headers|, |row|))
    ensures |row| >= |headers| ==> Keys(RecordOf(headers, row)) == headers
    ensures |row| < |headers| ==> Keys(RecordOf(headers, row)) == headers[..|row|]
  {
    FromDistinctPairs(Pairs(headers, row, Min(|headers|, |row|)));
  }

  /** Whatever the headers, a record's keys are distinct and are exactly the headers of
      the columns the row reaches; a header repeated among them holds the cell of its
      last column. */
  lemma RecordOfKeys<C>(headers: seq<string>, row: seq<C>, i: nat)
    requires i < |headers| && i < |row|
    requires forall j :: i < j < Min(|headers|, |row|) ==> headers[j] != headers[i]
    ensures DistinctKeys(RecordOf(headers, row))
    ensures |RecordOf(headers, row)| <= Min(|headers|, |row|)
    ensures forall k :: k in Keys(RecordOf(headers, row)) <==> k in headers[..Min(|headers|, |row|)]
    ensures Get(RecordOf(headers, row), headers[i]) == Some(row[i])
  {
    var n := Min(|headers|, |row|);
    var ps := Pairs(headers, row, n);
    FromPairsKeys(ps);
    FromPairsLastWins(ps, i);
    forall k | k in headers[..n]
      ensures exists m :: 0 <= m < |ps| && ps[m].0 == k
    {
      var m :| 0 <= m < n && headers[m] == k;
      assert ps[m].0 == k;
    }
    RecordSize(ps);
  }

  lemma {:induction false} RecordSize<C>(ps: seq<(string, C)>)
    ensures |FromPairs(ps)| <= |ps|
    decreases |ps|
  {
    if ps != [] {
      RecordSize(ps[..|ps| - 1]);
    }
  }

  // ---------------------------------------------------------------- page walk

  /** What the browser shows on one result page: the rows `_extract_table_data` reads,
      whether `_has_next_page` finds an enabled Next button, and whether
      `_click_next_page` then succeeds. */
  datatype PageView<R> = PageView(rows: seq<R>, hasNext: bool, clickOk: bool)

  /** Page `i` (0-based) of the site; past the pages given, an empty last page. */
  function View<R>(pages: seq<PageView<R>>, i: nat): PageView<R> {
    if i < |pages| then pages[i] else PageView([], false, false)
  }

  /** The walk moves on from page `i` (0-based). */
  predicate Advances<R>(pages: seq<PageView<R>>, i: nat) {
    View(pages, i).hasNext && View(pages, i).clickOk
  }

  /** How many pages the walk reads when no limit stops it: up to and including the
      first page it cannot move on from. */
  function NaturalEnd<R>(pages: seq<PageView<R>>): (n: nat)
    ensures 1 <= n <= |pages| + 1
    decreases |pages|
  {
    if pages == [] || !(pages[0].hasNext && pages[0].clickOk) then 1
    else 1 + NaturalEnd(pages[1..])
  }

  lemma {:induction false} NaturalEndIsFirstStop<R>(pages: seq<PageView<R>>)
    ensures forall i :: 0 <= i < NaturalEnd(pages) - 1 ==> Advances(pages, i)
    ensures !Advances(pages, NaturalEnd(pages) - 1)
    decreases |pages|
  {
    if pages != [] && pages[0].hasNext && pages[0].clickOk {
      var rest := pages[1..];
      NaturalEndIsFirstStop(rest);
      forall i | 0 <= i < NaturalEnd(pages) - 1
        ensures Advances(pages, i)
      {
        if i > 0 {
          assert View(pages, i) == View(rest, i - 1);
          assert Advances(rest, i - 1);
        }
      }
      assert View(pages, NaturalEnd(pages) - 1) == View(rest, NaturalEnd(rest) - 1);
    }
  }

  /** `max_pages` of 0 or None means no limit. */
  predicate Limited(maxPages: Option<int>) {
    maxPages.Some? && maxPages.value != 0
  }

  /** The number of pages the limits allow: `max_pages` when set, and never more than the safety cap. */
  function Limit(maxPages: Option<int>, cap: nat): int {
    if Limited(maxPages) then Min(maxPages.value, cap) else cap
  }

  /** The number of pages whose rows are collected. */
  function PagesRead<R>(pages: seq<PageView<R>>, maxPages: Option<int>, cap: nat): nat {
    var m := Limit(maxPages, cap);
    if m < 1 then 0 else Min(NaturalEnd(pages), m)
  }

  /** The page counter when the walk stops: the last page read when the site ran out of
      pages, one past it when a limit stopped the walk. */
  function FinalPage<R>(pages: seq<PageView<R>>, maxPages: Option<int>, cap: nat): int {
    var m := Limit(maxPages, cap);
    if m < 1 then 1 else if NaturalEnd(pages) <= m then NaturalEnd(pages) else m + 1
  }

  /** The rows of the first `n` pages, page after page. */
  function RowsOfPages<R>(pages: seq<PageView<R>>, n: nat): seq<R> {
    if n == 0 then [] else RowsOfPages(pages, n - 1) + View(pages, n - 1).rows
  }

  /** What the source's loop accumulates in `all_data`: each page's rows extracted,
      page after page. */
  function PageData<C>(pages: seq<PageView<RawRow>>, n: nat, conv: RawCell -> C): seq<seq<C>> {
    if n == 0 then [] else PageData(pages, n - 1, conv) + TableData(View(pages, n - 1).rows, conv)
  }

  /** Extracting the rows of the pages read, once the walk is over, gives what
      extracting on every page gives. */
  lemma {:induction false} ExtractAfterWalk<C>(pages: seq<PageView<RawRow>>, n: nat, conv: RawCell -> C)
    ensures TableData(RowsOfPages(pages, n), conv) == PageData(pages, n, conv)
  {
    if n > 0 {
      ExtractAfterWalk(pages, n - 1, conv);
      TableDataAppend(RowsOfPages(pages, n - 1), View(pages, n - 1).rows, conv);
    } else {
      assert RowsOfPages(pages, 0) == [];
    }
  }

  /** The `while True` loop of `scrape_all_pages`, with the safety cap as `cap`. */
  method WalkPages<R>(pages: seq<PageView<R>>, maxPages: Option<int>, cap: nat)
    returns (allRows: seq<R>, page: int)
    requires cap >= 1
    ensures allRows == RowsOfPages(pages, PagesRead(pages, maxPages, cap))
    ensures page == FinalPage(pages, maxPages, cap)
  {
    NaturalEndIsFirstStop(pages);
    ghost var n := NaturalEnd(pages);
    allRows := [];
    page := 1;
    while true
      invariant 1 <= page <= cap
      invariant page <= n
      invariant Limited(maxPages) && page > 1 ==> page - 1 <= maxPages.value
      invariant allRows == RowsOfPages(pages, page - 1)
      decreases cap - page
    {
      if Limited(maxPages) && page > maxPages.value {
        assert PagesRead(pages, maxPages, cap) == page - 1;
        break;
      }
      var view := View(pages, page - 1);
      allRows := allRows + view.rows;
      if !view.hasNext || !view.clickOk {
        assert !Advances(pages, page - 1);
        assert page == n;
        break;
      }
      assert Advances(pages, page - 1);
      page := page + 1;
      if page > cap {
        break;
      }
    }
  }

  /** The limits hold: never more pages than `max_pages` or the cap, and the reported
      page counter is the number of pages read, or one more exactly when a limit
      (rather than the last page) ended the walk. */
  lemma WalkBounds<R>(pages: seq<PageView<R>>, maxPages: Option<int>, cap: nat)
    requires cap >= 1
    ensures PagesRead(pages, maxPages, cap) <= cap
    ensures Limited(maxPages) ==> PagesRead(pages, maxPages, cap) <= if maxPages.value < 0 then 0 else maxPages.value
    ensures PagesRead(pages, maxPages, cap) <= NaturalEnd(pages)
    ensures FinalPage(pages, maxPages, cap) == PagesRead(pages, maxPages, cap)
         || FinalPage(pages, maxPages, cap) == PagesRead(pages, maxPages, cap) + 1
    ensures FinalPage(pages, maxPages, cap) == PagesRead(pages, maxPages, cap) + 1
        <==> PagesRead(pages, maxPages, cap) < NaturalEnd(pages)
  {
  }

  // ---------------------------------------------------------------- the whole scrape

  /** The headers used for structuring: the stripped non-empty `th` texts, or the
      monitor's fixed list when the page shows none. */
  function HeadersOr(thTexts: seq<string>, fallback: seq<string>): (h: seq<string>)
    ensures StrippedNonEmpty(thTexts) != [] ==> h == StrippedNonEmpty(thTexts)
    ensures StrippedNonEmpty(thTexts) == [] ==> h == fallback
    ensures fallback != [] ==> h != []
  {
    var found := StrippedNonEmpty(thTexts);
    if found != [] then found else fallback
  }

  /** The body of `scrape_all_pages` once the table is on screen: read the headers,
      walk the pages extracting each one's rows, and structure every collected row. */
  method ScrapeTable<C>(thTexts: seq<string>, fallback: seq<string>, pages: seq<PageView<RawRow>>,
                        maxPages: Option<int>, cap: nat, conv: RawCell -> C)
    returns (headers: seq<string>, records: seq<Dict<C>>, page: int)
    requires cap >= 1
    ensures headers == HeadersOr(thTexts, fallback)
    ensures var rows := PageData(pages, PagesRead(pages, maxPages, cap), conv);
      |records| == |rows| && forall j :: 0 <= j < |rows| ==> records[j] == RecordOf(headers, rows[j])
    ensures page == FinalPage(pages, maxPages, cap)
  {
    headers := HeadersOr(thTexts, fallback);
    var rawRows;
    rawRows, page := WalkPages(pages, maxPages, cap);
    var allData := ExtractTableData(rawRows, conv);
    ExtractAfterWalk(pages, PagesRead(pages, maxPages, cap), conv);
    records := StructureRows(headers, allData);
  }
}

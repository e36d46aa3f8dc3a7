# NSE event board scrapers and API, modelled in Dafny

The repository scrapes Indian market pages into JSON snapshots and serves those snapshots
over a small HTTP API. The parts modelled here are the deterministic ones: how each scraper
turns the texts, links and colours it reads off a page into records, and how the API pages
through a snapshot.

- `announcements_monitor.py` and `crd_monitor.py` (modules `Announcements`, `Crd`, sharing
  `TableRows`). The monitors read the NSE announcement and credit-rating tables row by row
  (cell text, link and link type). They walk the pages until the "next" button stops or a
  page cap is reached, then turn each row into a header-keyed record. The model also covers
  the snapshot metadata, the `latest_*.json` name and the cleanup of older snapshots.
- `api.py` (module `Api`). The modelled parts are pagination with Python's floor division
  and slicing (negative pages included), the response envelope, the `per_page` cap of 1000,
  and the snapshot path each endpoint reads. An endpoint answers 404 when its snapshot is
  missing, and 500 when `per_page` is zero for non-empty data.
- `heatmap_api.py` (module `HeatmapApi`). The modelled parts are category and request
  validation, index cards, the index-name match, and symbol validation. The model also
  covers the trend read off an `rgb(...)` background colour, the three stock-collection
  passes sharing one set of seen symbols, and the final de-duplication.
- `heatmap_scraper.py` (module `HeatmapScraper`). The modelled parts are the index cards
  from two searches, numbered and de-duplicated, the value/change scan of a card, stock
  tiles, text elements and the colour-to-trend step (see Findings).
- `groww_stock_news_scraper.py` (module `GrowwNews`). The modelled parts are the regular
  expressions the scraper uses, the stock name/percentage extraction, and the source/time
  split of an "… ago" line. The model also covers headline choice, news-container
  extraction, the scan over time elements with its 30-element and 15-item limits, and the
  final headline de-duplication.
- `trading_economics_scraper.py` (module `TradingEconomics`). The row loop over the
  calendar table produces events with positional fields, importance and flag. When no row
  yields an event, event-like elements are read instead. When neither yields anything, a
  page-text summary is returned.

Shared helpers: `Wrappers` (Option), `Text` (Python `str` methods over ASCII),
`Collect` (the keep-what-yields loop), `Dedup` (first occurrence by key), `PyDict`
(insertion-ordered dict assignment).

The browser is not modelled. Each scraper takes what Selenium would have returned as
plain input values: element texts, `href` attributes, computed colours, display flags and
ancestor chains.

## Model

| member | source | states |
|---|---|---|
| Api.Paginate | api.py:46-57 | empty data gives no items, total 0 and 0 pages; otherwise total is the record count; the only failure is `per_page == 0` on non-empty data (the division error) |
| Api.TotalPagesIsCeiling | api.py:51-52 | `total_pages` is the ceiling of records over `per_page`, and is 0 exactly when there is no data |
| Api.PageIsContiguous | api.py:54-57 | page `p >= 1` is the contiguous run of records from `(p-1)*per_page` to `p*per_page`, clipped to the data, at most `per_page` long |
| Api.PagesCoverData | api.py:46-57 | pages 1 to `total_pages`, concatenated, give back the whole data in order |
| Api.PastLastPageEmpty | api.py:54-57 | page 0 and every page after `total_pages` are empty |
| Api.PagesUpToLastNonEmpty | api.py:51-57 | every page from 1 to `total_pages` holds at least one record |
| Api.CreateResponse | api.py:60-80 | the envelope reports success, carries the page data, defaults the market type to `N/A`, and sets `has_next` iff `page < total_pages` and `has_prev` iff `page > 1` |
| Api.PerPage | api.py:147 | `per_page` is the parameter when given and at most 1000, exactly 1000 when given above 1000, and 50 when absent |
| Api.Serve | api.py:142-285 | an endpoint answers 404 (with its own message) exactly when its snapshot is missing or an empty document, answers 500 exactly when `per_page` is 0 for non-empty data, and otherwise returns a successful page with the requested page number and the record count |
| Api.ServedPage | api.py:142-174 | for a present snapshot and positive page and `per_page`, the reply is that page of the data, at most `per_page` records, with `has_next` iff the next page is non-empty |
| Api.EndpointsReadMonitorSnapshots | api.py:176-247 | the announcements endpoint reads the `latest_<market>.json` the announcements monitor saves, for any case of the market name, and the CRD endpoint reads `crd_data/latest.json` |
| TableRows.ExtractTableData | announcements_monitor.py:145-194 | the rows read from a page are the rows with at least one cell, each converted cell by cell, in order |
| TableRows.TableDataShape | announcements_monitor.py:150-153 | no more rows than the page has, none empty, each the conversion of some page row |
| TableRows.TableDataAppend | announcements_monitor.py:263-291 | extracting rows page by page and concatenating equals extracting the concatenated rows |
| TableRows.BuildRecord | announcements_monitor.py:297-308 | the record of one row pairs header `i` with cell `i` for as many positions as both have, a later equal header overwriting an earlier one in place |
| TableRows.StructureRows | announcements_monitor.py:296-309 | one record per row, in order, each built from the headers and that row |
| TableRows.RecordOfDistinctHeaders | announcements_monitor.py:297-308 | with distinct headers the record keys are all headers for a long enough row, and the first `len(row)` headers for a short row |
| TableRows.RecordOfKeys | announcements_monitor.py:297-308 | record keys are distinct, drawn from the used headers, and the last position of a header holds its value |
| TableRows.NaturalEndIsFirstStop | announcements_monitor.py:263-291 | without a cap, the walk stops at the first page whose "next" control is missing or fails |
| TableRows.WalkPages | announcements_monitor.py:263-291 | the page loop collects the rows of exactly the pages read, and its final page counter is the one the metadata reports |
| TableRows.WalkBounds | announcements_monitor.py:263-291 | never more pages than the hard cap, than `max_pages` when given, or than the natural end; the counter is one past the pages read only when the loop ran to the cap or `max_pages` |
| TableRows.ExtractAfterWalk | announcements_monitor.py:263-291 | converting the rows collected over the pages equals converting page by page |
| TableRows.HeadersOr | announcements_monitor.py:255-257 | the non-empty stripped header texts are used when there are any, the fixed fallback list otherwise, so headers are never empty |
| TableRows.ScrapeTable | announcements_monitor.py:224-320 | headers, the rows of all pages read, and the final page number, as the page walk and row extraction define them |
| Announcements.LinkTypeOf | announcements_monitor.py:159-184 | a link is a PDF iff its lower-cased URL contains `.pdf`, XBRL iff not a PDF and it contains `xbrl`, otherwise a plain link |
| Announcements.CellOf | announcements_monitor.py:153-184 | a cell keeps its stripped text, and carries a link (with its type) exactly when it has a non-empty `href` |
| Announcements.ScrapeAllPages | announcements_monitor.py:224-320 | the snapshot has non-empty headers, the records of all rows read, `total_records` equal to the record count, and a page count between 1 and the cap plus one |
| Announcements.SaveLatestPath | announcements_monitor.py:364-380 | a latest snapshot is written only when there is data, under `latest_<market>.json` |
| Announcements.CleanupOldFiles | announcements_monitor.py:382-400 | deletes exactly the listed `.json` files (any case) not starting with `latest_<market>` |
| Announcements.CleanupRemovesTimestamped | announcements_monitor.py:330-349 | a timestamped snapshot written by `save_json` is removed by the next cleanup |
| Announcements.CleanupKeepsLatest | announcements_monitor.py:388-394 | cleanup never removes the latest snapshot of its own market |
| Crd.CellOf | crd_monitor.py:118-150 | a cell keeps its stripped text and carries its link exactly when it has a non-empty `href` |
| Crd.ScrapeAllPages | crd_monitor.py:181-277 | as for announcements, with the CRD fallback headers and cap |
| Crd.SaveLatestPath | crd_monitor.py:312-328 | `latest.json` is written only when there is data |
| Crd.CleanupOldFiles | crd_monitor.py:330-347 | deletes exactly the listed `.json` files (any case) other than `latest.json` |
| Crd.CleanupKeepsOnlyLatest | crd_monitor.py:283-347 | cleanup keeps `latest.json` and removes every timestamped snapshot `save_json` wrote |
| HeatmapApi.CategoryName | heatmap_api.py:60-65 | exactly four category keys are known |
| HeatmapApi.EveryCategoryRoutes | heatmap_api.py:713-722 | every known category has a click method and no unknown key has one |
| HeatmapApi.IndicesRequest | heatmap_api.py:1123-1131 | `/indices` proceeds iff the category (default `broad-market`) is known, else answers the invalid-category error |
| HeatmapApi.HeatmapRequest | heatmap_api.py:1154-1169 | `/heatmap` needs a non-empty index and a known category; a missing index is reported first |
| HeatmapApi.CardEntry | heatmap_api.py:190-205 | a card yields an entry iff its text mentions `NIFTY` in any case and its first line is shorter than 50; the name is the first line, value and change are the second and third lines, empty when missing |
| HeatmapApi.GetIndices | heatmap_api.py:165-238 | the indices are those of both searches, first occurrence per name kept, names distinct, no name lost |
| HeatmapApi.IsMatchProperties | heatmap_api.py:282-287 | the card/name match is symmetric, reflexive, and for equal lengths is equality |
| HeatmapApi.FindCard | heatmap_api.py:263-287 | the card clicked is the first whose first line matches the upper-cased index name; none is clicked when none matches |
| HeatmapApi.ValidSymbolChars | heatmap_api.py:774-781 | a valid symbol is 2-20 characters of letters, digits, space, `&`, `-` and `.`, with a letter and not all digits |
| HeatmapApi.PriceIsToken | heatmap_api.py:784-788 | the price is a non-empty, comma-free word of the price line |
| HeatmapApi.Classify | heatmap_api.py:917-932 | gain iff green exceeds red by more than 20, loss iff red exceeds green by more than 20, neutral otherwise |
| HeatmapApi.RgbTrend | heatmap_api.py:917-932 | the trend read from a rendered `rgb(r, g, b)` colour is the classification of `r` and `g` |
| HeatmapApi.TileStock | heatmap_api.py:757-940 | a tile yields a stock iff displayed, with at least 3 characters, (in the grid pass) no skip word, 2+ lines, a valid unseen symbol on the first line and a digit on the second; the symbol is the stripped first line, price and change are read from the lines; only the grid pass sets a trend, from the colour, and an empty grid colour becomes `unknown` |
| HeatmapApi.ScanTilesProperties | heatmap_api.py:814-940 | a pass keeps only unseen valid symbols, each once, at most one stock per tile, and adds exactly their symbols to the seen set |
| HeatmapApi.RunScan | heatmap_api.py:814-940 | the tile loop computes the pass as specified |
| HeatmapApi.CollectedDistinct | heatmap_api.py:757-1002 | the three passes together never collect a symbol twice |
| HeatmapApi.GetHeatmap | heatmap_api.py:697-1036 | a result exists iff the category is known and the index was clicked; it carries the collected stocks, already distinct, unchanged by the final de-duplication, with their count |
| HeatmapScraper.ValueChangeIsRef | heatmap_scraper.py:159-167 | the value is the first word of the first line with a digit; the change is that line's second word, else the first later line with a digit and `%` |
| HeatmapScraper.ReadValueChange | heatmap_scraper.py:159-167 | the line loop computes that value and change |
| HeatmapScraper.CardFields | heatmap_scraper.py:146-176 | a card yields fields iff it mentions `NIFTY` and a digit; the name is its first line |
| HeatmapScraper.ElementFields | heatmap_scraper.py:182-222 | an element without a parent yields its stripped text when longer than 5; with a parent, it yields iff the parent's text has a digit and a line, and then name, value and change are the parent's lines 1 to 3, empty when missing |
| HeatmapScraper.NumberedPositions | heatmap_scraper.py:170 | cards are numbered from 1 in order of discovery |
| HeatmapScraper.ReadCards | heatmap_scraper.py:146-176 | the first search's loop yields the numbered card fields |
| HeatmapScraper.ReadElements | heatmap_scraper.py:182-222 | the second search's loop yields the numbered element fields |
| HeatmapScraper.FoundCardNames | heatmap_scraper.py:146-222 | every found card has a non-empty name |
| HeatmapScraper.GetIndexCards | heatmap_scraper.py:123-236 | cards from the first search, or the second only when the first found none, first occurrence per name kept, names distinct, none lost |
| HeatmapScraper.Compare | heatmap_scraper.py:363-373 | gain iff green exceeds red, loss iff red exceeds green, neutral iff equal |
| HeatmapScraper.AsWrittenLosesEveryRgb | heatmap_scraper.py:354-373 | as written, every colour containing `rgb` is reported as `unknown` |
| HeatmapScraper.GreenTileExample | heatmap_scraper.py:354-373 | `rgb(0, 128, 0)` is `unknown` as written and a gain as intended |
| HeatmapScraper.RgbColorTrend | heatmap_scraper.py:354-373 | as intended, a rendered `rgb(r, g, b)` keeps its colour string and gets the trend comparing `r` and `g` |
| HeatmapScraper.TileStock | heatmap_scraper.py:328-377 | a tile yields a stock iff it has 3+ characters, no skip word, 2+ lines and an upper-case first line under 20; symbol, price and change are the first three lines; the colour as written: an unread or `rgb` colour becomes `unknown` with an `unknown` trend, any other colour is kept with no trend |
| HeatmapScraper.TextStock | heatmap_scraper.py:404-437 | a text element yields a stock iff it has 2 or 3 lines, no skip word, an upper-case non-`NIFTY` symbol of at most 20 characters and a digit on line 2; price and change are the first two words of line 2, the change falling back to line 3; colour from the parent, no trend |
| HeatmapScraper.TextScanProperties | heatmap_scraper.py:383-440 | each text is processed once: every stock comes from a new text, no raw text twice, at most one stock per element |
| HeatmapScraper.ScanTexts | heatmap_scraper.py:383-440 | the element loop computes the text pass as specified |
| HeatmapScraper.CollectedListed | heatmap_scraper.py:328-440 | every collected stock has an upper-case symbol of at most 20 characters |
| HeatmapScraper.ScrapeHeatmap | heatmap_scraper.py:299-456 | tile stocks (colours as written) then text stocks, first occurrence per symbol kept, symbols distinct, none lost, all listed |
| GrowwNews.FoundPercent | groww_stock_news_scraper.py:607 | a match of `[-+]?\d+\.\d+%` is a signed decimal percentage |
| GrowwNews.FoundTime | groww_stock_news_scraper.py:655 | a match of the time pattern is digits, a unit and `ago` |
| GrowwNews.StockInfo | groww_stock_news_scraper.py:574-617 | no `%` means no stock; a stock found has a name of 2 to 49 characters other than `.` and a change of at least 4 characters |
| GrowwNews.FindStock | groww_stock_news_scraper.py:757-772 | the first candidate text (5 to 60 characters, no `ago`) that yields a stock |
| GrowwNews.CleanName | groww_stock_news_scraper.py:810-812 | the names `.`, empty, ` ` and `..` are cleared and every other name is kept |
| GrowwNews.PercentNotZero | groww_stock_news_scraper.py:817-819 | a decimal percentage never looks like the all-zero placeholder |
| GrowwNews.CleanChange | groww_stock_news_scraper.py:814-825 | an acceptable change is kept; a zero or under-4-character change is replaced by the first decimal percentage in the container text, or cleared when there is none; the result is never short or all zeros |
| GrowwNews.StockFields | groww_stock_news_scraper.py:712-825 | the first stock element's name and change, cleaned; the name empty or valid, the change empty or a 4+ character non-zero percentage |
| GrowwNews.SplitOnce | groww_stock_news_scraper.py:663 | `split(c, 1)` gives two parts iff `c` occurs, the first without `c`, rejoining to the line |
| GrowwNews.DashSourceTime | groww_stock_news_scraper.py:663-670 | with a dash, the line is cut at its first dash: the source is the stripped text before it, the time the first time match in the stripped rest; without a dash both are empty |
| GrowwNews.TimeIn | groww_stock_news_scraper.py:666-668 | the time is the first match of the time pattern in the text, empty when none |
| GrowwNews.FirstTwoCuts | groww_stock_news_scraper.py:671-673 | the first two pieces of `split(c)` are the text before the first `c` and the text between it and the next `c` or the end |
| GrowwNews.DotSourceTime | groww_stock_news_scraper.py:671-678 | with a middle dot, the source is the stripped first piece (no middle dot) and the time the first time match in the stripped second piece; without one both are empty |
| GrowwNews.InlineSourceTime | groww_stock_news_scraper.py:679-688 | the time is the first pattern match (empty iff none); the source is the stripped text before it with middle dots and dashes removed, and both are empty without a match |
| GrowwNews.LineReadAs | groww_stock_news_scraper.py:661-686 | a line is cut at its first dash when it has ` - ` or exactly one dash, else at its middle dots, else at its first time match, where the source is the stripped text before the match without middle dots and dashes; the time is empty or time-shaped |
| GrowwNews.SourceTimeProperties | groww_stock_news_scraper.py:652-688 | only the first line with `ago` is read, cut at its dash, else at its middle dots, else at its time match, as the three readers do; with no such line, source and time are empty; the time is always empty or time-shaped |
| GrowwNews.LongestIsEarliestMax | groww_stock_news_scraper.py:692-711 | the headline is the earliest of the longest qualifying lines, or the start value when none is longer |
| GrowwNews.PickLongest | groww_stock_news_scraper.py:692-711 | the line loop computes that headline |
| GrowwNews.ExtractNews | groww_stock_news_scraper.py:619-862 | short containers and containers with fewer than 2 lines give nothing; an item's headline is over 20 characters and not a placeholder |
| GrowwNews.ExtractNewsFinds | groww_stock_news_scraper.py:826-857 | a long enough container gives an item exactly when its longest headline-like line is valid, or else when it has a source or time and its longest qualifying descendant text is valid; that text is the headline |
| GrowwNews.ExtractNewsHeadline | groww_stock_news_scraper.py:692-857 | the headline is the longest qualifying line, or, when none and a source or time exists, a descendant's text |
| GrowwNews.ExtractNewsFields | groww_stock_news_scraper.py:652-825 | source and time come from the first `ago` line; stock name and change passed their checks or are empty |
| GrowwNews.ExtractNewsFromContainer | groww_stock_news_scraper.py:619-862 | the container routine with its loops computes that item |
| GrowwNews.ScanTimeElements | groww_stock_news_scraper.py:329-377 | the loop computes the search over the first 30 time elements (ancestors tried in order until one adds, containers read once, stop at 15); at most 15 items, each extracted from a news-like ancestor of one of them, no headline twice ignoring case |
| GrowwNews.TryAncestor | groww_stock_news_scraper.py:340-370 | an ancestor adds its item iff its container is unread, looks like news and gives a valid headline not yet taken; its identifier is recorded exactly when its container is read |
| GrowwNews.ScanPrefixSound | groww_stock_news_scraper.py:329-377 | every item the search finds is extracted from a news-like ancestor of one of the first 30 time elements, and no headline is found twice |
| GrowwNews.ScanMissesNothing | groww_stock_news_scraper.py:329-377 | when identifiers tell containers apart, each valid item of an ancestor of a time element at which the search added nothing, before it stopped, has its headline among the items found |
| GrowwNews.DedupHeadlines | groww_stock_news_scraper.py:543-550 | keeps the first item per lower-cased stripped headline longer than 10 characters, and loses no such key |
| GrowwNews.ScrapeNewsItems | groww_stock_news_scraper.py:263-556 | the result is the de-duplication of the first search's items followed, only when it found fewer than 10, by the later items; keys are distinct and over 10 characters, each item from the first search or (under 10 found) the later ones, and every candidate with a key over 10 characters has its key kept |
| TradingEconomics.CellTexts | trading_economics_scraper.py:156-161 | the cell texts are the non-empty stripped cells, in order |
| TradingEconomics.FieldAt | trading_economics_scraper.py:164-174 | a positional field is the cell text when present and empty otherwise |
| TradingEconomics.Importance | trading_economics_scraper.py:176-190 | importance is the first marker's class, or its `data-importance`, or else the row class when it names a level |
| TradingEconomics.FlagText | trading_economics_scraper.py:192-197 | the flag is its `src`, or its `alt` when `src` is empty, or empty when there is no flag |
| TradingEconomics.RowEvent | trading_economics_scraper.py:139-203 | a row gives an event iff displayed, not a header row, with 2+ cells and 2+ non-empty cell texts |
| TradingEconomics.RowEventFields | trading_economics_scraper.py:156-199 | the event keeps the row index and the raw cell texts; date and time are the first two; the seven named fields are the first seven texts, empty past the end |
| TradingEconomics.ReadRow | trading_economics_scraper.py:139-203 | the row body with its early `continue`s computes that event |
| TradingEconomics.ScrapeTableRows | trading_economics_scraper.py:139-203 | the row loop collects the events of the rows in order |
| TradingEconomics.TableEventsFromRows | trading_economics_scraper.py:139-203 | every table event is the event of the row at its index |
| TradingEconomics.TableEventsOrdered | trading_economics_scraper.py:139-203 | row indices of the table events strictly increase |
| TradingEconomics.TableEventsKeep | trading_economics_scraper.py:139-203 | no row event is lost |
| TradingEconomics.DivEventOf | trading_economics_scraper.py:222-238 | an element gives an event iff displayed with 10+ stripped characters; its HTML is the first 200 characters of the element's |
| TradingEconomics.PageSummary | trading_economics_scraper.py:248-260 | the summary counts the non-empty lines and samples the first 50 |
| TradingEconomics.ScrapeCalendar | trading_economics_scraper.py:119-270 | the scrape computes the calendar as specified |
| TradingEconomics.TableEventsEmpty | trading_economics_scraper.py:139-207 | the table gives no events iff no row gives one |
| TradingEconomics.DivEventsEmpty | trading_economics_scraper.py:212-245 | the elements give no events iff none qualifies |
| TradingEconomics.CalendarOrder | trading_economics_scraper.py:119-270 | the table events when there are any, else element events when any, else the page summary; empty iff all three are unavailable |
| TradingEconomics.CalendarKinds | trading_economics_scraper.py:119-270 | the result never mixes kinds: all table events, all element events, or one summary |

## Left out

- Selenium itself (navigation, waits, clicks, XPath and CSS selectors, `is_displayed`, scrolling) is not modelled. The model starts from the element texts, attributes and flags the selectors return.
- Timestamps, `time.sleep`, logging, JSON file reading and writing, `os.listdir`/`os.remove`, the monitoring loops and process start-up are not modelled. `save_json` is modelled only through the file name it builds.
- `load_json_file` (api.py:33-43) is a parameter of `Api.Serve`: any read or parse failure is a missing snapshot.
- Flask's parsing of `page` and `per_page` as integers is not modelled: they arrive as optional integers.
- Text is modelled over ASCII: `str.isspace` and `str.strip` treat only the ASCII whitespace characters (space, tab, line feed, vertical tab, form feed, carriage return and 0x1C to 0x1F) as space. Regular expressions are modelled over ASCII too. Python's Unicode `\d` and `\s` and the special `IGNORECASE` folds of non-ASCII letters are not modelled, and neither is `str.lower`/`str.upper` beyond ASCII.
- `announcements_monitor.py:388` and `crd_monitor.py:336` open a `try:` with no `except` or `finally`. The cleanup is modelled as its loop body reads.
- GrowwNews.ScanMissesNothing: assumes that identifiers tell containers apart. The search identifies a container by the first 200 characters of its HTML, and two containers that share them are read only once, so the item of the second can be lost.
- GrowwNews.ScrapeNewsItems: Methods 2 and 3 of `scrape_news_items` search the page by stock links and by news-source names, and that search is not modelled. The items they add are an input (`laterItems`), appended only when the first method found fewer than 10.
- GrowwNews.StockFields: the line-scan fallback at groww_stock_news_scraper.py:775-806 calls `stock_pattern` at line 786, a name that is never defined. The `NameError` is caught at line 807, so the fallback never changes the stock fields, and the model leaves them unchanged.
- `heatmap_api.py` broad-market click (`_click_broad_market_index`, 399-695): the page check after the click and the `unique_clickables` name it reads without defining are not modelled. Whether the click succeeded is an input of `HeatmapApi.GetHeatmap`.
- HeatmapApi.GetHeatmap: the text-element pass reads `skip_texts`, which is bound only inside the grid loop and only after a tile passed the visibility and length checks. The model runs that pass only when such a grid tile exists (`SkipListBound`) and otherwise finds nothing in it.
- HeatmapApi.TileStock: a colour that cannot be read is given as `unknown`. The transparent-background fallback to the parent's colour is an input.
- TradingEconomics.ScrapeCalendar: an exception raised inside a row (skipping it) and the outer `except` returning `[]` are not modelled. Elements whose attributes are missing are given as empty strings.
- The `get_page_info`, `get_categories` and `index`/`health` routes are not modelled. They only return fixed text or browser state.

## Findings

| source | as written | input that shows it | evidently intended | confidence | as-written member | corrected member |
|---|---|---|---|---|---|---|
| heatmap_scraper.py:363 | the RGB components are read by unpacking a one-element list of the whole colour, which fails, so the `except` reports every rgb colour as `unknown`; `HeatmapScraper.TileStock` and `ScrapeHeatmap` follow this code | a tile whose background is `rgb(0, 128, 0)` | the trend compares the red and green components: gain, loss or neutral | not executed | HeatmapScraper.AsWrittenLosesEveryRgb | HeatmapScraper.RgbColorTrend |

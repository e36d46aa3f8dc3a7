/** `scrape_calendar` of the Trading Economics calendar scraper: every shown table row
    that is not a header and has at least two non-empty cells becomes an event whose
    fields are its non-empty cell texts by position. When no row yields an event, the
    event-like elements are read instead, and failing those a summary of the page text. */
module TradingEconomics {
  import opened Wrappers
  import opened Text
  import opened Collect
  import opened TableRows

  /** The first element inside a row that looks like an importance marker, with its
      `class` and `data-importance` attributes (`''` when missing). */
  datatype Marker = Marker(cls: string, dataImportance: string)

  /** A flag image inside a row, with its `src` and `alt` attributes (`''` when missing). */
  datatype Flag = Flag(src: string, alt: string)

  /** A row of the calendar table as the browser shows it. `cells` are the texts of its
      `td` cells; `markers` the importance-like elements inside it, in page order. */
  datatype CalendarRow = CalendarRow(displayed: bool, rowClass: string, cells: seq<string>,
                                     markers: seq<Marker>, flag: Option<Flag>)

  /** An element matched by the calendar/event/row selectors of the second method. */
  datatype EventElement = EventElement(displayed: bool, text: string, outerHtml: string)

  /** What `scrape_calendar` returns, one dict shape per method. */
  datatype Event =
    | TableEvent(rowIndex: nat, date: string, time: string, country: string, event: string,
                 actual: string, forecast: string, previous: string, rawCells: seq<string>,
                 importance: string, countryFlag: string)
    | DivEvent(text: string, html: string)
    | TextSummary(totalLines: nat, sampleLines: seq<string>)

  // ---------------------------------------------------------------- one table row

  /** A header row by its class: `'header'` or `'thead'` in the lower-cased class. */
  predicate HeaderRow(rowClass: string) {
    Contains(Lower(rowClass), "header") || Contains(Lower(rowClass), "thead")
  }

  /** `cell_texts`: the stripped, non-empty cell texts in cell order. */
  method CellTexts(cells: seq<string>) returns (texts: seq<string>)
    ensures texts == StrippedNonEmpty(cells)
  {
    texts := [];
    for i := 0 to |cells|
      invariant texts == StrippedNonEmpty(cells[..i])
    {
      assert cells[..i + 1] == cells[..i] + [cells[i]];
      StrippedNonEmptySnoc(cells[..i], cells[i]);
      var text := Strip(cells[i]);
      if text != [] {
        texts := texts + [text];
      }
    }
    assert cells[..|cells|] == cells;
  }

  /** `cell_texts[k] if len(cell_texts) > k else ''` */
  function FieldAt(texts: seq<string>, k: nat): (r: string)
    ensures k < |texts| ==> r == texts[k]
    ensures k >= |texts| ==> r == []
  {
    if k < |texts| then texts[k] else []
  }

  /** A row class that names an importance level. */
  predicate LevelClass(rowClass: string) {
    exists level :: level in ["high", "medium", "low", "importance"] && Contains(Lower(rowClass), level)
  }

  /** The `importance` field: the first marker's class, else its `data-importance`; without
      a marker, the row's own class when it names a level, else `''`. */
  function Importance(row: CalendarRow): (r: string)
    ensures row.markers != [] ==> r == row.markers[0].cls || r == row.markers[0].dataImportance
    ensures row.markers != [] && row.markers[0].cls != [] ==> r == row.markers[0].cls
    ensures row.markers == [] ==> (r != [] <==> row.rowClass != [] && LevelClass(row.rowClass))
    ensures row.markers == [] && r != [] ==> r == row.rowClass
  {
    if row.markers != [] then
      var m := row.markers[0];
      if m.cls != [] then m.cls else m.dataImportance
    else if LevelClass(row.rowClass) then row.rowClass
    else []
  }

  /** The `country_flag` field: the flag's `src`, else its `alt`, else `''`. */
  function FlagText(flag: Option<Flag>): (r: string)
    ensures flag.None? ==> r == []
    ensures flag.Some? && flag.value.src != [] ==> r == flag.value.src
    ensures flag.Some? && flag.value.src == [] ==> r == flag.value.alt
  {
    match flag
    case None => []
    case Some(f) => if f.src != [] then f.src else f.alt
  }

  /** The event built from `texts`, the row's non-empty cell texts. */
  function EventOf(i: nat, texts: seq<string>, row: CalendarRow): Event {
    TableEvent(i, FieldAt(texts, 0), FieldAt(texts, 1), FieldAt(texts, 2), FieldAt(texts, 3),
               FieldAt(texts, 4), FieldAt(texts, 5), FieldAt(texts, 6), texts,
               Importance(row), FlagText(row.flag))
  }

  /** The event the row at position `i` yields, if any. */
  function RowEvent(i: nat, row: CalendarRow): (r: Option<Event>)
    ensures r.Some? <==>
      row.displayed && !HeaderRow(row.rowClass) && |row.cells| >= 2 && |StrippedNonEmpty(row.cells)| >= 2
    ensures r.Some? ==> r.value.TableEvent? && r.value.rowIndex == i
  {
    if !row.displayed || HeaderRow(row.rowClass) || |row.cells| < 2 then None
    else
      var texts := StrippedNonEmpty(row.cells);
      if |texts| < 2 then None else Some(EventOf(i, texts, row))
  }

  /** The seven named fields, in column order. */
  function Named(e: Event): (r: seq<string>)
    requires e.TableEvent?
    ensures |r| == 7
  {
    [e.date, e.time, e.country, e.event, e.actual, e.forecast, e.previous]
  }

  /** The positional mapping reads the texts back: the named fields are the first seven
      texts, and the ones past the last text are empty. */
  lemma PositionalFields(i: nat, texts: seq<string>, row: CalendarRow)
    ensures var f := Named(EventOf(i, texts, row)); var n := Min(7, |texts|);
      f[..n] == texts[..n] && forall k :: n <= k < 7 ==> f[k] == []
  {
    var f := Named(EventOf(i, texts, row));
    forall k | 0 <= k < 7
      ensures f[k] == FieldAt(texts, k)
    {
    }
  }

  /** A row's event: its index, the row's non-empty cells as `raw_cells`, each a stripped
      cell text, at least two of them, and the named fields read from them by position. */
  lemma RowEventFields(i: nat, row: CalendarRow)
    requires RowEvent(i, row).Some?
    ensures var e := RowEvent(i, row).value; var raw := e.rawCells;
      && e.TableEvent?
      && e.rowIndex == i
      && raw == StrippedNonEmpty(row.cells)
      && 2 <= |raw| <= |row.cells|
      && (forall k :: 0 <= k < |raw| ==> raw[k] != [])
      && (forall t :: t in raw ==> exists j :: 0 <= j < |row.cells| && t == Strip(row.cells[j]))
      && e.date == raw[0] && e.time == raw[1]
      && Named(e)[..Min(7, |raw|)] == raw[..Min(7, |raw|)]
      && (forall k :: |raw| <= k < 7 ==> Named(e)[k] == [])
  {
    var texts := StrippedNonEmpty(row.cells);
    PositionalFields(i, texts, row);
    StrippedNonEmptyFrom(row.cells);
  }

  /** The body of the row loop, with its early `continue`s. */
  method ReadRow(i: nat, row: CalendarRow) returns (e: Option<Event>)
    ensures e == RowEvent(i, row)
  {
    if !row.displayed {
      return None;
    }
    if HeaderRow(row.rowClass) {
      return None;
    }
    if |row.cells| < 2 {
      return None;
    }
    var texts := CellTexts(row.cells);
    if |texts| < 2 {
      return None;
    }
    var importance: string;
    if row.markers != [] {
      var m := row.markers[0];
      importance := if m.cls != [] then m.cls else m.dataImportance;
    } else if LevelClass(row.rowClass) {
      importance := row.rowClass;
    } else {
      importance := [];
    }
    var flag := FlagText(row.flag);
    e := Some(TableEvent(i, FieldAt(texts, 0), FieldAt(texts, 1), FieldAt(texts, 2), FieldAt(texts, 3),
                         FieldAt(texts, 4), FieldAt(texts, 5), FieldAt(texts, 6), texts, importance, flag));
  }

  // ---------------------------------------------------------------- the table method

  /** The events of the table rows, in row order; a row's index counts skipped rows too. */
  function TableEvents(rows: seq<CalendarRow>): seq<Event> {
    FilterMapIndexed(rows, RowEvent)
  }

  /** Method 1: `for i, row in enumerate(rows)`, appending each row's event. */
  method ScrapeTableRows(rows: seq<CalendarRow>) returns (events: seq<Event>)
    ensures events == TableEvents(rows)
  {
    events := [];
    for i := 0 to |rows|
      invariant events == FilterMapIndexed(rows[..i], RowEvent)
    {
      FilterMapIndexedSnoc(rows, i, RowEvent);
      var e := ReadRow(i, rows[i]);
      if e.Some? {
        events := events + [e.value];
      }
    }
    assert rows[..|rows|] == rows;
  }

  /** The row index an event records; only table events have one. */
  function RowPos(e: Event): int {
    if e.TableEvent? then e.rowIndex else -1
  }

  /** `e` is the event of the row its index names. */
  predicate FromRow(e: Event, rows: seq<CalendarRow>) {
    e.TableEvent? && e.rowIndex < |rows| && RowEvent(e.rowIndex, rows[e.rowIndex]) == Some(e)
  }

  /** Every table event is the event of the row its index names. */
  lemma TableEventsFromRows(rows: seq<CalendarRow>)
    ensures forall k :: 0 <= k < |TableEvents(rows)| ==> FromRow(TableEvents(rows)[k], rows)
  {
    var r := TableEvents(rows);
    FilterMapIndexedPositions(rows, RowEvent, RowPos);
    forall k | 0 <= k < |r|
      ensures FromRow(r[k], rows)
    {
      var p := RowPos(r[k]);
      assert 0 <= p < |rows| && RowEvent(p, rows[p]) == Some(r[k]);
    }
  }

  /** The row indices of the table events strictly increase: events keep the row order
      and no row yields two. */
  lemma TableEventsOrdered(rows: seq<CalendarRow>)
    ensures forall j, k :: 0 <= j < k < |TableEvents(rows)| ==>
      TableEvents(rows)[j].TableEvent? && TableEvents(rows)[k].TableEvent? &&
      TableEvents(rows)[j].rowIndex < TableEvents(rows)[k].rowIndex
  {
    var r := TableEvents(rows);
    FilterMapIndexedPositions(rows, RowEvent, RowPos);
    forall j, k | 0 <= j < k < |r|
      ensures r[j].TableEvent? && r[k].TableEvent? && r[j].rowIndex < r[k].rowIndex
    {
      assert 0 <= RowPos(r[j]) < RowPos(r[k]);
    }
  }

  /** No row that yields an event is lost. */
  lemma TableEventsKeep(rows: seq<CalendarRow>, i: nat)
    requires i < |rows| && RowEvent(i, rows[i]).Some?
    ensures RowEvent(i, rows[i]).value in TableEvents(rows)
  {
    FilterMapIndexedKeeps(rows, RowEvent, i);
  }

  // ---------------------------------------------------------------- the fallbacks

  /** Method 2 for one element: a shown element whose stripped text has at least ten
      characters, with the first 200 characters of its outer HTML. */
  function DivEventOf(el: EventElement): (r: Option<Event>)
    ensures r.Some? <==> el.displayed && |Strip(el.text)| >= 10
    ensures r.Some? ==>
      r.value.DivEvent? && r.value.text == Strip(el.text)
      && |r.value.html| <= 200 && StartsWith(el.outerHtml, r.value.html)
      && (|el.outerHtml| >= 200 ==> |r.value.html| == 200)
      && (|el.outerHtml| < 200 ==> r.value.html == el.outerHtml)
  {
    if !el.displayed then None
    else
      var text := Strip(el.text);
      if |text| < 10 then None
      else Some(DivEvent(text, el.outerHtml[..Min(200, |el.outerHtml|)]))
  }

  /** Method 3: the number of non-empty page lines and the first fifty of them. */
  function PageSummary(pageText: string): (r: Event)
    ensures r.TextSummary? && r.totalLines == |Lines(pageText)|
    ensures |r.sampleLines| == Min(50, r.totalLines) && r.sampleLines == Lines(pageText)[..|r.sampleLines|]
  {
    var lines := Lines(pageText);
    TextSummary(|lines|, lines[..Min(50, |lines|)])
  }

  /** What `scrape_calendar` returns: the table events; else the element events; else, when
      the page body could be read, its one summary. */
  function Calendar(rows: seq<CalendarRow>, elements: seq<EventElement>, pageText: Option<string>): seq<Event> {
    var table := TableEvents(rows);
    if table != [] then table
    else
      var divs := FilterMap(elements, DivEventOf);
      if divs != [] then divs
      else if pageText.Some? then [PageSummary(pageText.value)] else []
  }

  /** `scrape_calendar` after the page has been scrolled. */
  method ScrapeCalendar(rows: seq<CalendarRow>, elements: seq<EventElement>, pageText: Option<string>)
    returns (events: seq<Event>)
    ensures events == Calendar(rows, elements, pageText)
  {
    events := ScrapeTableRows(rows);
    if |events| == 0 {
      events := CollectAll(elements, DivEventOf);
    }
    if |events| == 0 && pageText.Some? {
      var lines := Lines(pageText.value);
      events := events + [TextSummary(|lines|, lines[..Min(50, |lines|)])];
    }
  }

  /** No table row yields an event. */
  predicate NoRowEvent(rows: seq<CalendarRow>) {
    forall i :: 0 <= i < |rows| ==> RowEvent(i, rows[i]).None?
  }

  /** No element yields an event. */
  predicate NoDivEvent(elements: seq<EventElement>) {
    forall k :: 0 <= k < |elements| ==> DivEventOf(elements[k]).None?
  }

  /** The table method finds nothing exactly when no row yields an event. */
  lemma TableEventsEmpty(rows: seq<CalendarRow>)
    ensures TableEvents(rows) == [] <==> NoRowEvent(rows)
  {
    if !NoRowEvent(rows) {
      var i :| 0 <= i < |rows| && RowEvent(i, rows[i]).Some?;
      TableEventsKeep(rows, i);
    }
    if TableEvents(rows) != [] {
      TableEventsFromRows(rows);
      var e := TableEvents(rows)[0];
      assert RowEvent(e.rowIndex, rows[e.rowIndex]).Some?;
    }
  }

  /** The element method finds nothing exactly when no element yields an event. */
  lemma DivEventsEmpty(elements: seq<EventElement>)
    ensures FilterMap(elements, DivEventOf) == [] <==> NoDivEvent(elements)
  {
    if !NoDivEvent(elements) {
      var k :| 0 <= k < |elements| && DivEventOf(elements[k]).Some?;
      FilterMapKeeps(elements, DivEventOf, k);
    } else if FilterMap(elements, DivEventOf) != [] {
      FilterMapFrom(elements, DivEventOf);
    }
  }

  /** A later method runs only when every earlier one found nothing, and the result is
      empty only when nothing was found and the page text could not be read. */
  lemma CalendarOrder(rows: seq<CalendarRow>, elements: seq<EventElement>, pageText: Option<string>)
    ensures !NoRowEvent(rows) ==> Calendar(rows, elements, pageText) == TableEvents(rows)
    ensures NoRowEvent(rows) && !NoDivEvent(elements) ==>
      Calendar(rows, elements, pageText) == FilterMap(elements, DivEventOf)
    ensures NoRowEvent(rows) && NoDivEvent(elements) && pageText.Some? ==>
      Calendar(rows, elements, pageText) == [PageSummary(pageText.value)]
    ensures Calendar(rows, elements, pageText) == [] <==> NoRowEvent(rows) && NoDivEvent(elements) && pageText.None?
  {
    TableEventsEmpty(rows);
    DivEventsEmpty(elements);
  }

  /** The methods never mix: the result is all table events, or all element events, or
      one page summary. */
  lemma CalendarKinds(rows: seq<CalendarRow>, elements: seq<EventElement>, pageText: Option<string>)
    ensures var r := Calendar(rows, elements, pageText);
      || (forall k :: 0 <= k < |r| ==> r[k].TableEvent?)
      || (forall k :: 0 <= k < |r| ==> r[k].DivEvent?)
      || (|r| == 1 && r[0].TextSummary?)
  {
    var r := Calendar(rows, elements, pageText);
    if TableEvents(rows) != [] {
      TableEventsFromRows(rows);
    } else {
      var divs := FilterMap(elements, DivEventOf);
      FilterMapFrom(elements, DivEventOf);
      forall k | 0 <= k < |divs|
        ensures divs[k].DivEvent?
      {
        assert divs[k] in divs;
      }
    }
  }
}

/** The stand-alone NSE heatmap scraper: index cards read off the category page
    (name, value, change and their position), de-duplicated by name, and the stock
    tiles of an index's heatmap, filtered by their symbol line and de-duplicated by
    symbol. The browser is reduced to the texts and colours it shows. */
module HeatmapScraper {
  import opened Wrappers
  import opened Text
  import opened Dedup
  import opened Collect
  import HeatmapApi

  // ---------------------------------------------------------------- value and change of a card

  /** A later line that may stand in for a missing change: a digit and a `%`. */
  predicate PercentLine(line: string) { HasDigit(line) && '%' in line }

  /** One turn of the loop over the lines after the name: the first line with a digit
      gives the value (its first token, else the line) and the change (its second
      token, else nothing); while the change is missing, a later digit line with a `%`
      becomes the change. */
  function Absorb(vc: (string, string), line: string): (string, string) {
    var (value, change) := vc;
    if !HasDigit(line) then vc
    else if value == [] then
      var parts := Tokens(line);
      (if parts != [] then parts[0] else line, if |parts| > 1 then parts[1] else "")
    else if change == [] && '%' in line then (value, line)
    else vc
  }

  /** The value and change the loop leaves after reading `lines` in order. */
  function ValueChange(lines: seq<string>): (string, string)
    decreases |lines|
  {
    if lines == [] then ("", "") else Absorb(ValueChange(lines[..|lines| - 1]), lines[|lines| - 1])
  }

  /** A digit line's value: its first token, else the whole line. */
  function FirstToken(line: string): string {
    var parts := Tokens(line);
    if parts != [] then parts[0] else line
  }

  /** A digit line's change: its second token, else the first later line with a digit and a `%`. */
  function ChangeRef(line: string, later: seq<string>): string {
    var parts := Tokens(line);
    if |parts| > 1 then parts[1]
    else match FirstWhere(later, PercentLine)
      case Some(j) => later[j]
      case None => ""
  }

  /** Reference definition: value and change read off the first line with a digit,
      the change otherwise taken from the first later line with a digit and a `%`. */
  function ValueChangeRef(lines: seq<string>): (string, string) {
    match FirstWhere(lines, HasDigit)
    case None => ("", "")
    case Some(k) => (FirstToken(lines[k]), ChangeRef(lines[k], lines[k + 1..]))
  }

  /** Once a line with a digit has been read, the value is set for good. */
  lemma FirstDigitValue(line: string)
    requires HasDigit(line)
    ensures FirstToken(line) != []
  {
  }

  /** The reference definition, one more line read, before any line with a digit. */
  lemma RefStepBeforeDigit(init: seq<string>, x: string)
    requires FirstWhere(init, HasDigit).None?
    ensures ValueChangeRef(init + [x]) == Absorb(ValueChangeRef(init), x)
  {
    var lines := init + [x];
    FirstWhereAppendNone(init, x, HasDigit);
    if HasDigit(x) {
      assert lines[|init|] == x;
      assert lines[|init| + 1..] == [];
      assert FirstWhere([], PercentLine).None?;
    }
  }

  /** Reading one more line changes the reference change only while it is missing. */
  lemma ChangeRefAppend(line: string, later: seq<string>, x: string)
    ensures ChangeRef(line, later + [x]) == if ChangeRef(line, later) == [] && PercentLine(x) then x else ChangeRef(line, later)
  {
    if |Tokens(line)| <= 1 {
      match FirstWhere(later, PercentLine)
      case Some(j) =>
        FirstWhereAppendFound(later, x, PercentLine, j);
        assert (later + [x])[j] == later[j];
      case None =>
        FirstWhereAppendNone(later, x, PercentLine);
        assert (later + [x])[|later|] == x;
    }
  }

  /** The reference definition, one more line read, after the first line with a digit. */
  lemma RefStepAfterDigit(init: seq<string>, x: string, k: nat)
    requires FirstWhere(init, HasDigit) == Some(k)
    ensures ValueChangeRef(init + [x]) == Absorb(ValueChangeRef(init), x)
  {
    var lines := init + [x];
    FirstWhereAppendFound(init, x, HasDigit, k);
    assert lines[k] == init[k];
    FirstDigitValue(init[k]);
    assert lines[k + 1..] == init[k + 1..] + [x];
    ChangeRefAppend(init[k], init[k + 1..], x);
  }

  /** The loop computes the reference definition. */
  lemma {:induction false} ValueChangeIsRef(lines: seq<string>)
    ensures ValueChange(lines) == ValueChangeRef(lines)
    decreases |lines|
  {
    if lines != [] {
      var init, x := lines[..|lines| - 1], lines[|lines| - 1];
      assert lines == init + [x];
      ValueChangeIsRef(init);
      match FirstWhere(init, HasDigit)
      case None => RefStepBeforeDigit(init, x);
      case Some(k) => RefStepAfterDigit(init, x, k);
    }
  }

  /** `for line in lines[1:]: if any(char.isdigit() ...): if not value: ... elif not change and '%' in line: ...` */
  method ReadValueChange(rest: seq<string>) returns (value: string, change: string)
    ensures (value, change) == ValueChangeRef(rest)
  {
    value, change := "", "";
    for i := 0 to |rest|
      invariant (value, change) == ValueChange(rest[..i])
    {
      assert rest[..i + 1][..i] == rest[..i];
      var line := rest[i];
      if HasDigit(line) {
        if value == [] {
          var parts := Tokens(line);
          value := if parts != [] then parts[0] else line;
          change := if |parts| > 1 then parts[1] else "";
        } else if change == [] && '%' in line {
          change := line;
        }
      }
    }
    assert rest[..|rest|] == rest;
    ValueChangeIsRef(rest);
  }

  // ---------------------------------------------------------------- index cards

  /** An index card as `get_index_cards` lists it; `number` is its 1-based position
      in the list before de-duplication. */
  datatype IndexCard = IndexCard(number: nat, name: string, value: string, change: string)

  function CardName(c: IndexCard): string { c.name }

  /** The fields a card yields: name, value, change. */
  type Fields = (string, string, string)

  /** The card test of the first search: the text names `NIFTY` in any case and has a digit. */
  predicate IsIndexText(t: string) { Contains(Upper(t), "NIFTY") && HasDigit(t) }

  /** What a clickable element yields in the first search: its first line as the name,
      value and change from the lines after it. */
  function CardFields(text: string): (r: Option<Fields>)
    ensures r.Some? ==> IsIndexText(Strip(text)) && Lines(Strip(text)) != [] && r.value.0 == Lines(Strip(text))[0]
    ensures r.Some? ==> (r.value.1, r.value.2) == ValueChangeRef(Lines(Strip(text))[1..])
    ensures IsIndexText(Strip(text)) && Lines(Strip(text)) != [] ==> r.Some?
  {
    var t := Strip(text);
    if !IsIndexText(t) then None
    else
      var lines := Lines(t);
      if lines == [] then None
      else
        ValueChangeIsRef(lines[1..]);
        var (value, change) := ValueChange(lines[1..]);
        Some((lines[0], value, change))
  }

  /** One element of the second search: a `NIFTY` text, with the text of its nearest
      clickable ancestor when it has one. */
  datatype NiftyElement = NiftyElement(text: string, parentText: Option<string>)

  /** What an element yields in the second search: with a clickable ancestor whose text
      has a digit, that text's first three lines; without an ancestor, the element's
      own text whole, when longer than five characters. */
  function ElementFields(e: NiftyElement): (r: Option<Fields>)
    ensures r.Some? ==> r.value.0 != []
    ensures e.parentText.None? ==> (r.Some? <==> |Strip(e.text)| > 5) && (r.Some? ==> r.value == (Strip(e.text), "", ""))
    ensures e.parentText.Some? ==> (r.Some? <==> HasDigit(Strip(e.parentText.value)) && Lines(Strip(e.parentText.value)) != [])
    ensures e.parentText.Some? && r.Some? ==>
      var lines := Lines(Strip(e.parentText.value));
      r.value == (lines[0], if |lines| > 1 then lines[1] else "", if |lines| > 2 then lines[2] else "")
  {
    match e.parentText
    case Some(p) =>
      var t := Strip(p);
      if t != [] && HasDigit(t) then
        var lines := Lines(t);
        if lines != [] then
          Some((lines[0], if |lines| > 1 then lines[1] else "", if |lines| > 2 then lines[2] else ""))
        else None
      else None
    case None =>
      var t := Strip(e.text);
      if t != [] && |t| > 5 then Some((t, "", "")) else None
  }

  /** Cards numbered by their position, from 1. */
  function Numbered(fields: seq<Fields>): (cards: seq<IndexCard>)
    ensures |cards| == |fields|
  {
    seq(|fields|, i requires 0 <= i < |fields| => IndexCard(i + 1, fields[i].0, fields[i].1, fields[i].2))
  }

  /** The number of a card is where it stands. */
  lemma NumberedPositions(fields: seq<Fields>)
    ensures forall c :: c in Numbered(fields) ==> 1 <= c.number <= |fields| && Numbered(fields)[c.number - 1] == c
  {
  }

  /** The cards found before de-duplication: the first search, or the second when the
      first found none. */
  function FoundCards(texts: seq<string>, elements: seq<NiftyElement>): seq<IndexCard> {
    var first := FilterMap(texts, CardFields);
    Numbered(if first != [] then first else FilterMap(elements, ElementFields))
  }

  /** A card's name is never empty. */
  lemma FoundCardNames(texts: seq<string>, elements: seq<NiftyElement>)
    ensures forall c :: c in FoundCards(texts, elements) ==> c.name != []
  {
    FilterMapFrom(texts, CardFields);
    FilterMapFrom(elements, ElementFields);
    var first := FilterMap(texts, CardFields);
    var fields := if first != [] then first else FilterMap(elements, ElementFields);
    forall c | c in Numbered(fields)
      ensures c.name != []
    {
      var i :| 0 <= i < |fields| && Numbered(fields)[i] == c;
      assert fields[i] in fields;
    }
  }

  /** Appending a card's fields numbers it one past the cards before it. */
  lemma NumberedAppend(fields: seq<Fields>, f: Fields)
    ensures Numbered(fields + [f]) == Numbered(fields) + [IndexCard(|fields| + 1, f.0, f.1, f.2)]
  {
    assert forall i :: 0 <= i < |fields| ==> (fields + [f])[i] == fields[i];
  }

  /** The body of the first search for one element, with the value and change loop. */
  method ReadCard(text: string) returns (f: Option<Fields>)
    ensures f == CardFields(text)
  {
    var t := Strip(text);
    if !IsIndexText(t) {
      return None;
    }
    var lines := Lines(t);
    if lines == [] {
      return None;
    }
    var value, change := ReadValueChange(lines[1..]);
    ValueChangeIsRef(lines[1..]);
    f := Some((lines[0], value, change));
  }

  /** The first search: each accepted element is appended with the next number. */
  method ReadCards(texts: seq<string>) returns (cards: seq<IndexCard>)
    ensures cards == Numbered(FilterMap(texts, CardFields))
  {
    cards := [];
    for i := 0 to |texts|
      invariant cards == Numbered(FilterMap(texts[..i], CardFields))
    {
      FilterMapSnoc(texts, i, CardFields);
      ghost var before := FilterMap(texts[..i], CardFields);
      var f := ReadCard(texts[i]);
      if f.Some? {
        NumberedAppend(before, f.value);
        cards := cards + [IndexCard(|cards| + 1, f.value.0, f.value.1, f.value.2)];
      }
    }
    assert texts[..|texts|] == texts;
  }

  /** The second search, over the `NIFTY` elements. */
  method ReadElements(elements: seq<NiftyElement>) returns (cards: seq<IndexCard>)
    ensures cards == Numbered(FilterMap(elements, ElementFields))
  {
    cards := [];
    for i := 0 to |elements|
      invariant cards == Numbered(FilterMap(elements[..i], ElementFields))
    {
      FilterMapSnoc(elements, i, ElementFields);
      ghost var before := FilterMap(elements[..i], ElementFields);
      var f := ElementFields(elements[i]);
      if f.Some? {
        NumberedAppend(before, f.value);
        cards := cards + [IndexCard(|cards| + 1, f.value.0, f.value.1, f.value.2)];
      }
    }
    assert elements[..|elements|] == elements;
  }

  /** `get_index_cards` once the page is shown: the two searches, then the de-dup by name
      that keeps each name's first card. Numbers are those given before the de-dup. */
  method GetIndexCards(texts: seq<string>, elements: seq<NiftyElement>) returns (unique: seq<IndexCard>)
    ensures unique == Unique(FoundCards(texts, elements), CardName)
    ensures DistinctKeys(unique, CardName)
    ensures forall k :: k in KeysOf(unique, CardName) <==> k in KeysOf(FoundCards(texts, elements), CardName)
    ensures forall c :: c in unique ==>
      c.name != [] && 1 <= c.number <= |FoundCards(texts, elements)| && FoundCards(texts, elements)[c.number - 1] == c
  {
    var cards := ReadCards(texts);
    if |cards| == 0 {
      cards := ReadElements(elements);
    }
    unique := UniqueBy(cards, CardName);
    var first := FilterMap(texts, CardFields);
    NumberedPositions(if first != [] then first else FilterMap(elements, ElementFields));
    FoundCardNames(texts, elements);
    UniqueSubset(cards, CardName);
  }

  // ---------------------------------------------------------------- tile colour

  type Trend = HeatmapApi.Trend

  /** The evidently intended comparison: more green than red is a gain, more red than green a loss. */
  function Compare(r: int, g: int): (t: Trend)
    ensures t == HeatmapApi.Gain <==> g > r
    ensures t == HeatmapApi.Loss <==> r > g
    ensures t == HeatmapApi.Neutral <==> r == g
  {
    if g > r then HeatmapApi.Gain else if r > g then HeatmapApi.Loss else HeatmapApi.Neutral
  }

  /** `r, g, b = values`: three values all read as numbers, else the unpack or `int` raises. */
  function Unpack3(values: seq<Option<int>>): (r: Option<(int, int, int)>)
    ensures r.Some? <==> |values| == 3 && values[0].Some? && values[1].Some? && values[2].Some?
  {
    if |values| == 3 && values[0].Some? && values[1].Some? && values[2].Some? then
      Some((values[0].value, values[1].value, values[2].value))
    else None
  }

  /** The stored colour and trend once the components are read: `unknown` for both when
      reading raised, otherwise the colour and the comparison of red and green. */
  function Judge(color: string, rgb: Option<(int, int, int)>): (string, Option<Trend>) {
    match rgb
    case None => ("unknown", Some(HeatmapApi.Unknown))
    case Some((r, g, _)) => (color, Some(Compare(r, g)))
  }

  /** The component list exactly as the comprehension writes it: it runs over
      `enumerate([rgb])`, so it has a single entry, the first component. */
  function ComponentsAsWritten(color: string): (values: seq<Option<int>>)
    ensures |values| == 1
  {
    var rgb := HeatmapApi.Bare(color);
    seq(|[rgb]|, i requires 0 <= i < |[rgb]| =>
      var x := [rgb][i];
      if i < |Split(x, ',')| then ParseInt(Strip(Split(x, ',')[i])) else Some(0))
  }

  /** Colour and trend of a first-search tile as written: no trend key without `rgb`. */
  function ColorTrendAsWritten(color: string): (string, Option<Trend>) {
    if !Contains(color, "rgb") then (color, None)
    else Judge(color, Unpack3(ComponentsAsWritten(color)))
  }

  /** As written, every `rgb` colour is lost: the one-entry list cannot be unpacked into
      three names, so the colour and the trend both become `unknown`. */
  lemma AsWrittenLosesEveryRgb(color: string)
    requires Contains(color, "rgb")
    ensures ColorTrendAsWritten(color) == ("unknown", Some(HeatmapApi.Unknown))
  {
  }

  /** The three components as evidently intended: the `i`-th comma-separated piece, `0` when missing. */
  function Components(color: string): (values: seq<Option<int>>)
    ensures |values| == 3
  {
    ComponentsOf(Split(HeatmapApi.Bare(color), ','))
  }

  /** `[int(parts[i].strip()) if i < len(parts) else 0 for i in range(3)]` */
  function ComponentsOf(parts: seq<string>): (values: seq<Option<int>>)
    ensures |values| == 3
  {
    [Component(parts, 0), Component(parts, 1), Component(parts, 2)]
  }

  /** The `i`-th component: the `i`-th piece read as a number, `0` when there is none. */
  function Component(parts: seq<string>, i: nat): Option<int> {
    if i < |parts| then ParseInt(Strip(parts[i])) else Some(0)
  }

  /** Colour and trend of a first-search tile as evidently intended. */
  function ColorTrend(color: string): (string, Option<Trend>) {
    if !Contains(color, "rgb") then (color, None)
    else Judge(color, Unpack3(Components(color)))
  }

  /** Three pieces that each read as a number give those numbers. */
  lemma PiecesRead(parts: seq<string>, r: int, g: int, b: int)
    requires |parts| == 3
    requires ParseInt(Strip(parts[0])) == Some(r) && ParseInt(Strip(parts[1])) == Some(g)
    requires ParseInt(Strip(parts[2])) == Some(b)
    ensures ComponentsOf(parts) == [Some(r), Some(g), Some(b)]
  {
  }

  lemma ComponentsVia(color: string, parts: seq<string>)
    requires Split(HeatmapApi.Bare(color), ',') == parts
    ensures Components(color) == ComponentsOf(parts)
  {
  }

  /** The components of a rendered `rgb(r, g, b)` read back as the three numbers. */
  lemma RgbComponents(r: nat, g: nat, b: nat)
    ensures Components(HeatmapApi.RgbString(r, g, b)) == [Some(r), Some(g), Some(b)]
  {
    var parts := Split(HeatmapApi.RgbBody(r, g, b), ',');
    HeatmapApi.RgbStripped(r, g, b);
    HeatmapApi.RgbParts(r, g, b);
    assert |parts| == 3 && parts[0] == NatString(r) && parts[1] == " " + NatString(g) && parts[2] == " " + NatString(b);
    ComponentsVia(HeatmapApi.RgbString(r, g, b), parts);
    HeatmapApi.ReadsBack(r);
    HeatmapApi.ReadsBack(g);
    HeatmapApi.ReadsBack(b);
    PiecesRead(parts, r, g, b);
  }

  /** A colour mentioning `rgb` whose components all read keeps its colour and is judged by red against green. */
  lemma JudgedColor(color: string, r: int, g: int, b: int)
    requires Contains(color, "rgb") && Components(color) == [Some(r), Some(g), Some(b)]
    ensures ColorTrend(color) == (color, Some(Compare(r, g)))
  {
  }

  /** As intended, a rendered `rgb(r, g, b)` keeps its colour and is judged by red against green. */
  lemma RgbColorTrend(r: nat, g: nat, b: nat)
    ensures ColorTrend(HeatmapApi.RgbString(r, g, b)) == (HeatmapApi.RgbString(r, g, b), Some(Compare(r, g)))
  {
    HeatmapApi.RgbStripped(r, g, b);
    RgbComponents(r, g, b);
    JudgedColor(HeatmapApi.RgbString(r, g, b), r, g, b);
  }

  /** A green tile, as written and as intended. */
  lemma GreenTileExample()
    ensures ColorTrendAsWritten(HeatmapApi.RgbString(0, 128, 0)) == ("unknown", Some(HeatmapApi.Unknown))
    ensures ColorTrend(HeatmapApi.RgbString(0, 128, 0)).1 == Some(HeatmapApi.Gain)
  {
    HeatmapApi.RgbStripped(0, 128, 0);
    AsWrittenLosesEveryRgb(HeatmapApi.RgbString(0, 128, 0));
    RgbColorTrend(0, 128, 0);
  }

  // ---------------------------------------------------------------- stock tiles

  datatype Stock = Stock(symbol: string, price: string, change: string, rawText: string, color: string, trend: Option<Trend>)

  function SymbolOf(s: Stock): string { s.symbol }

  function RawTextOf(s: Stock): string { s.rawText }

  /** A tile of the first search: its text and its background colour, `None` when
      reading the colour fails. */
  datatype Tile = Tile(text: string, color: Option<string>)

  const TileSkipWords: seq<string> := ["scan qr", "download", "login", "nse go", "ncfm", "back"]

  const TextSkipWords: seq<string> :=
    ["scan qr", "download", "login", "nse go", "ncfm", "back", "streaming", "as on", "nifty 50", "nifty next"]

  predicate HasAny(text: string, words: seq<string>) {
    exists k :: 0 <= k < |words| && Contains(Lower(text), words[k])
  }

  /** The symbol test shared by both searches: at most 20 characters and upper-case. */
  predicate Listed(s: Stock) { |s.symbol| <= 20 && IsUpperText(s.symbol) }

  /** What a tile yields in the first search: at least three characters, no navigation
      word, at least two lines, and a first line under 20 characters and upper-case as
      the symbol; price and change are the next two lines. The colour is read as
      written: every `rgb` colour ends as `unknown` with an `unknown` trend, any
      other colour is kept with no trend. */
  function TileStock(t: Tile): (r: Option<Stock>)
    ensures var text := Strip(t.text); var lines := Lines(text);
      r.Some? <==>
        |text| >= 3 && !HasAny(text, TileSkipWords) && |lines| >= 2 && |lines[0]| < 20 && IsUpperText(lines[0])
    ensures r.Some? ==> var lines := Lines(Strip(t.text));
      r.value.symbol == lines[0] && r.value.price == lines[1]
      && r.value.change == (if |lines| > 2 then lines[2] else "") && r.value.rawText == Strip(t.text)
    ensures r.Some? ==> Listed(r.value)
    ensures r.Some? ==>
      (r.value.color, r.value.trend)
        == if t.color.None? || Contains(t.color.value, "rgb") then ("unknown", Some(HeatmapApi.Unknown)) else (t.color.value, None)
  {
    var text := Strip(t.text);
    if |text| < 3 || HasAny(text, TileSkipWords) then None
    else
      var lines := Lines(text);
      if |lines| < 2 then None
      else
        var symbol := lines[0];
        if |symbol| < 20 && IsUpperText(symbol) then
          var (color, trend) := if t.color.Some? then ColorTrendAsWritten(t.color.value) else ("unknown", Some(HeatmapApi.Unknown));
          Some(Stock(symbol, lines[1], if |lines| > 2 then lines[2] else "", text, color, trend))
        else None
  }

  /** An element of the second search: its text, and its parent's colour when it can be read. */
  datatype TextElement = TextElement(text: string, parentColor: Option<string>)

  /** What a fresh text yields in the second search: two or three lines, no navigation
      word, an upper-case symbol of at most 20 characters not starting with `NIFTY`,
      and a digit on the second line, which gives the price and the change. */
  function TextStock(text: string, parentColor: Option<string>): (r: Option<Stock>)
    ensures r.Some? <==> var lines := Lines(text);
      !HasAny(text, TextSkipWords) && (|lines| == 2 || |lines| == 3) && |lines[0]| <= 20 && IsUpperText(lines[0])
      && !StartsWith(lines[0], "NIFTY") && HasDigit(lines[1])
    ensures r.Some? ==> var lines := Lines(text);
      (|lines| == 2 || |lines| == 3) && !HasAny(text, TextSkipWords) && r.value.symbol == lines[0]
      && !StartsWith(r.value.symbol, "NIFTY") && HasDigit(lines[1]) && r.value.rawText == text
    ensures r.Some? ==> Listed(r.value) && r.value.color == parentColor.GetOr("unknown") && r.value.trend.None?
    ensures r.Some? ==> var lines := Lines(text); var parts := Tokens(lines[1]);
      r.value.price == (if parts != [] then parts[0] else lines[1])
      && r.value.change == (if |parts| > 1 then parts[1] else if |lines| > 2 then lines[2] else "")
  {
    if HasAny(text, TextSkipWords) then None
    else
      var lines := Lines(text);
      if |lines| != 2 && |lines| != 3 then None
      else
        var symbol := lines[0];
        if |symbol| <= 20 && IsUpperText(symbol) && !StartsWith(symbol, "NIFTY") && HasDigit(lines[1]) then
          var second := lines[1];
          var parts := Tokens(second);
          var price := if parts != [] then parts[0] else second;
          var change := if |parts| > 1 then parts[1] else if |lines| > 2 then lines[2] else "";
          Some(Stock(symbol, price, change, text, parentColor.GetOr("unknown"), None))
        else None
  }

  /** The second search in order, threading the set of texts already processed. */
  function TextScan(elements: seq<TextElement>, processed: set<string>): (seq<Stock>, set<string>)
    decreases |elements|
  {
    if elements == [] then ([], processed)
    else
      var (stocks, done) := TextScan(elements[..|elements| - 1], processed);
      var e := elements[|elements| - 1];
      var text := Strip(e.text);
      if text == [] || text in done then (stocks, done)
      else (stocks + OptionList(TextStock(text, e.parentColor)), done + {text})
  }

  /** An empty or already processed text adds nothing. */
  lemma TextScanSkips(elements: seq<TextElement>, i: nat, processed: set<string>)
    requires i < |elements|
    requires var text := Strip(elements[i].text);
      text == [] || text in TextScan(elements[..i], processed).1
    ensures TextScan(elements[..i + 1], processed) == TextScan(elements[..i], processed)
  {
    assert elements[..i + 1][..i] == elements[..i];
  }

  /** A fresh text is recorded, and its stock, if any, goes at the end. */
  lemma TextScanReads(elements: seq<TextElement>, i: nat, processed: set<string>)
    requires i < |elements|
    requires var text := Strip(elements[i].text);
      text != [] && text !in TextScan(elements[..i], processed).1
    ensures var text := Strip(elements[i].text);
      var st := TextStock(text, elements[i].parentColor);
      TextScan(elements[..i + 1], processed).0
        == TextScan(elements[..i], processed).0 + (if st.Some? then [st.value] else [])
    ensures TextScan(elements[..i + 1], processed).1 == TextScan(elements[..i], processed).1 + {Strip(elements[i].text)}
  {
    assert elements[..i + 1][..i] == elements[..i];
  }

  /** The stock a text yields, as a list of zero or one. */
  function OptionList(o: Option<Stock>): (l: seq<Stock>)
    ensures |l| <= 1 && (forall st :: st in l <==> o == Some(st))
  {
    if o.Some? then [o.value] else []
  }

  /** The non-empty stripped texts of `elements`. */
  function TextsOf(elements: seq<TextElement>): set<string> {
    set i | 0 <= i < |elements| && Strip(elements[i].text) != [] :: Strip(elements[i].text)
  }

  lemma TextsOfAppend(init: seq<TextElement>, e: TextElement)
    ensures TextsOf(init + [e]) == TextsOf(init) + (if Strip(e.text) != [] then {Strip(e.text)} else {})
  {
    var all := init + [e];
    assert all[|init|] == e;
    forall x | x in TextsOf(all)
      ensures x in TextsOf(init) + (if Strip(e.text) != [] then {Strip(e.text)} else {})
    {
      var i :| 0 <= i < |all| && Strip(all[i].text) != [] && Strip(all[i].text) == x;
      if i < |init| {
        assert all[i] == init[i];
      }
    }
    forall x | x in TextsOf(init)
      ensures x in TextsOf(all)
    {
      var i :| 0 <= i < |init| && Strip(init[i].text) != [] && Strip(init[i].text) == x;
      assert all[i] == init[i];
    }
  }

  /** The processed set grows by exactly the non-empty texts seen. */
  lemma {:induction false} TextScanDone(elements: seq<TextElement>, processed: set<string>)
    ensures TextScan(elements, processed).1 == processed + TextsOf(elements)
    decreases |elements|
  {
    if elements != [] {
      var init := elements[..|elements| - 1];
      var e := elements[|elements| - 1];
      assert elements == init + [e];
      TextScanDone(init, processed);
      TextsOfAppend(init, e);
    }
  }

  /** A stock whose text no earlier stock has keeps the texts apart. */
  lemma AppendFresh(stocks: seq<Stock>, more: seq<Stock>, text: string)
    requires DistinctKeys(stocks, RawTextOf) && |more| <= 1
    requires forall st :: st in more ==> st.rawText == text
    requires more != [] ==> forall st :: st in stocks ==> st.rawText != text
    ensures DistinctKeys(stocks + more, RawTextOf)
  {
    if more != [] {
      forall i | 0 <= i < |stocks|
        ensures RawTextOf(stocks[i]) != RawTextOf(more[0])
      {
        assert stocks[i] in stocks;
      }
      DistinctAppend(stocks, more, RawTextOf);
    }
  }

  /** The stocks of one more element: none, or one from a text not processed before. */
  lemma TextScanStep(elements: seq<TextElement>, processed: set<string>)
    requires elements != []
    ensures var (stocks, done) := TextScan(elements[..|elements| - 1], processed);
      var text := Strip(elements[|elements| - 1].text);
      var more := TextScan(elements, processed).0[|stocks|..];
      TextScan(elements, processed).0 == stocks + more && |more| <= 1
      && TextScan(elements, processed).1 == (if text == [] then done else done + {text})
      && forall st :: st in more ==> st.rawText == text && text != [] && text !in done && Listed(st)
  {
  }

  /** Each text is looked at once: no stock comes from a text processed before, every
      stock's text is in the processed set, and no two stocks share a text. */
  lemma {:induction false} TextScanProperties(elements: seq<TextElement>, processed: set<string>)
    ensures var (stocks, done) := TextScan(elements, processed);
      (forall st :: st in stocks ==> st.rawText in done && st.rawText !in processed && Listed(st))
      && DistinctKeys(stocks, RawTextOf)
      && |stocks| <= |elements|
    decreases |elements|
  {
    if elements != [] {
      var init := elements[..|elements| - 1];
      TextScanProperties(init, processed);
      TextScanStep(elements, processed);
      TextScanDone(init, processed);
      var (stocks, done) := TextScan(init, processed);
      var text := Strip(elements[|elements| - 1].text);
      var more := TextScan(elements, processed).0[|stocks|..];
      var (stocks', done') := TextScan(elements, processed);
      assert stocks' == stocks + more;
      assert done <= done';
      if more != [] {
        assert more[0] in more;
        assert text !in done;
      }
      AppendFresh(stocks, more, text);
      forall x | x in stocks'
        ensures x.rawText in done' && x.rawText !in processed && Listed(x)
      {
        assert x in stocks || x in more;
      }
    }
  }

  /** The loop of the second search: `if not text or text in processed_texts: continue`. */
  method ScanTexts(elements: seq<TextElement>) returns (stocks: seq<Stock>)
    ensures stocks == TextScan(elements, {}).0
  {
    var processed: set<string> := {};
    stocks := [];
    for i := 0 to |elements|
      invariant stocks == TextScan(elements[..i], {}).0
      invariant processed == TextScan(elements[..i], {}).1
    {
      var text := Strip(elements[i].text);
      if text == [] || text in processed {
        TextScanSkips(elements, i, {});
        continue;
      }
      TextScanReads(elements, i, {});
      processed := processed + {text};
      var st := TextStock(text, elements[i].parentColor);
      if st.Some? {
        stocks := stocks + [st.value];
      }
    }
    assert elements[..|elements|] == elements;
  }

  /** The stocks found before de-duplication: the tile search, or the text search when
      the tiles gave none. */
  function CollectedStocks(tiles: seq<Tile>, elements: seq<TextElement>): seq<Stock> {
    var first := FilterMap(tiles, TileStock);
    if first != [] then first else TextScan(elements, {}).0
  }

  /** Every stock found passes the symbol test. */
  lemma CollectedListed(tiles: seq<Tile>, elements: seq<TextElement>)
    ensures forall st :: st in CollectedStocks(tiles, elements) ==> Listed(st)
  {
    FilterMapFrom(tiles, TileStock);
    TextScanProperties(elements, {});
  }

  /** `scrape_heatmap` once the heatmap is shown: the tile search, the text search when
      the tiles gave nothing, then the de-dup by symbol that keeps each symbol's first stock. */
  method ScrapeHeatmap(tiles: seq<Tile>, elements: seq<TextElement>) returns (stocks: seq<Stock>)
    ensures stocks == Unique(CollectedStocks(tiles, elements), SymbolOf)
    ensures DistinctKeys(stocks, SymbolOf)
    ensures forall k :: k in KeysOf(stocks, SymbolOf) <==> k in KeysOf(CollectedStocks(tiles, elements), SymbolOf)
    ensures forall st :: st in stocks ==> Listed(st)
  {
    var found := CollectAll(tiles, TileStock);
    if |found| == 0 {
      found := ScanTexts(elements);
    }
    stocks := UniqueBy(found, SymbolOf);
    CollectedListed(tiles, elements);
    UniqueSubset(found, SymbolOf);
  }
}

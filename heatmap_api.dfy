/** The NSE heatmap service: the four index categories and the request checks,
    index cards read from the category page, the rule that picks the card to click,
    and the stock tiles read from an index's heatmap. */
module HeatmapApi {
  import opened Wrappers
  import opened Text
  import PyDict
  import opened Dedup
  import opened Collect

  // ---------------------------------------------------------------- categories and requests

  /** `self.categories`, in its declared order. */
  const Categories: PyDict.Dict<string> := [
    ("broad-market", "Broad Market Indices"),
    ("sectoral", "Sectoral Indices"),
    ("thematic", "Thematic Indices"),
    ("strategy", "Strategy Indices")]

  /** The display name of a category key; `_select_category` gives up on a key without one. */
  function CategoryName(key: string): (r: Option<string>)
    ensures r.Some? <==> key == "broad-market" || key == "sectoral" || key == "thematic" || key == "strategy"
  {
    assert PyDict.Keys(Categories) == ["broad-market", "sectoral", "thematic", "strategy"];
    PyDict.Get(Categories, key)
  }

  /** Which click routine `get_heatmap` uses for a category. */
  datatype ClickMethod = BroadMarketClick | SectoralClick

  function ClickRoute(key: string): Option<ClickMethod> {
    if key == "broad-market" then Some(BroadMarketClick)
    else if key in ["sectoral", "thematic", "strategy"] then Some(SectoralClick)
    else None
  }

  /** Every category has a click routine, and nothing else does: the `Unknown category`
      branch of `get_heatmap` is reached only by keys `_select_category` has refused. */
  lemma EveryCategoryRoutes(key: string)
    ensures CategoryName(key).Some? <==> ClickRoute(key).Some?
  {
    if ClickRoute(key).Some? && key != "broad-market" {
      assert key in ["sectoral", "thematic", "strategy"];
      assert key == "sectoral" || key == "thematic" || key == "strategy";
    }
  }

  /** What a route answers before any scraping: go ahead, or a 400 with its error text. */
  datatype Check = Proceed(category: string, index: string) | BadRequest(error: string)

  const MissingIndex: string := "Missing required parameter: index"

  function InvalidCategory(): string {
    "Invalid category. Use: " + Join(PyDict.Keys(Categories), ", ")
  }

  /** The checks of `/indices`; the category defaults to `broad-market`. */
  function IndicesRequest(category: Option<string>): (r: Check)
    ensures r.Proceed? <==> CategoryName(category.GetOr("broad-market")).Some?
    ensures r.Proceed? ==> r.category == category.GetOr("broad-market")
    ensures r.BadRequest? ==> r.error == InvalidCategory()
  {
    var key := category.GetOr("broad-market");
    if CategoryName(key).None? then BadRequest(InvalidCategory()) else Proceed(key, "")
  }

  /** The checks of `/heatmap`: a missing or empty index is reported first, then an unknown category. */
  function HeatmapRequest(category: Option<string>, index: Option<string>): (r: Check)
    ensures r.Proceed? <==> index.Some? && index.value != [] && CategoryName(category.GetOr("broad-market")).Some?
    ensures (index.None? || index.value == []) ==> r == BadRequest(MissingIndex)
    ensures r.Proceed? ==> ClickRoute(r.category).Some? && r.index == index.value
  {
    var key := category.GetOr("broad-market");
    if index.None? || index.value == [] then BadRequest(MissingIndex)
    else if CategoryName(key).None? then BadRequest(InvalidCategory())
    else
      EveryCategoryRoutes(key);
      Proceed(key, index.value)
  }

  // ---------------------------------------------------------------- index cards

  datatype IndexEntry = IndexEntry(name: string, value: string, change: string)

  function NameOf(e: IndexEntry): string { e.name }

  /** What one card yields in `get_indices`: its first line as the name, the next two
      lines as value and change (empty when missing), provided the card mentions
      `NIFTY` in any case and its first line is shorter than 50 characters. */
  function CardEntry(text: string): (r: Option<IndexEntry>)
    ensures r.Some? <==> var t := Strip(text);
      t != [] && Contains(Upper(t), "NIFTY") && Lines(t) != [] && |Lines(t)[0]| < 50
    ensures r.Some? ==> 0 < |r.value.name| < 50 && r.value.name == Lines(Strip(text))[0]
    ensures r.Some? ==> var lines := Lines(Strip(text));
      r.value.value == (if |lines| > 1 then lines[1] else "") && r.value.change == (if |lines| > 2 then lines[2] else "")
    ensures r.Some? ==> var lines := Lines(Strip(text));
      (|lines| > 1 <==> r.value.value != []) && (|lines| > 2 <==> r.value.change != [])
  {
    var t := Strip(text);
    if t != [] && Contains(Upper(t), "NIFTY") then
      var lines := Lines(t);
      if lines != [] && |lines[0]| < 50 then
        Some(IndexEntry(lines[0], if |lines| > 1 then lines[1] else "", if |lines| > 2 then lines[2] else ""))
      else None
    else None
  }

  /** The entries `get_indices` finds: from the link cards, or from the cards around
      `NIFTY` texts when the links gave none. */
  function FoundIndices(linkCards: seq<string>, parentCards: seq<string>): seq<IndexEntry> {
    var fromLinks := FilterMap(linkCards, CardEntry);
    if fromLinks != [] then fromLinks else FilterMap(parentCards, CardEntry)
  }

  /** `get_indices` once the category page is shown: both card searches, then the de-dup by name. */
  method GetIndices(linkCards: seq<string>, parentCards: seq<string>) returns (unique: seq<IndexEntry>)
    ensures unique == Unique(FoundIndices(linkCards, parentCards), NameOf)
    ensures DistinctKeys(unique, NameOf)
    ensures forall k :: k in KeysOf(unique, NameOf) <==> k in KeysOf(FoundIndices(linkCards, parentCards), NameOf)
    ensures forall e :: e in unique ==> 0 < |e.name| < 50
  {
    var indices := CollectAll(linkCards, CardEntry);
    if |indices| == 0 {
      indices := CollectAll(parentCards, CardEntry);
    }
    unique := UniqueBy(indices, NameOf);
    UniqueSubset(indices, NameOf);
    FilterMapFrom(linkCards, CardEntry);
    FilterMapFrom(parentCards, CardEntry);
  }

  // ---------------------------------------------------------------- picking the card to click

  /** The index name as the click routines search for it. */
  function SearchName(indexName: string): string { Upper(Strip(indexName)) }

  /** A card's first line, trimmed and upper-cased. */
  function FirstLine(cardText: string): string { Upper(Strip(Split(Strip(cardText), '\n')[0])) }

  /** `search == first or search in first or first in search` */
  predicate IsMatch(search: string, first: string) {
    search == first || Contains(first, search) || Contains(search, first)
  }

  /** A text contains a piece only as long as itself, and a piece as long as the text is the text. */
  lemma {:induction false} ContainsLength(s: string, p: string)
    requires Contains(s, p)
    ensures |p| <= |s|
    ensures |p| == |s| ==> p == s
    decreases |s|
  {
    if !StartsWith(s, p) {
      ContainsLength(s[1..], p);
    }
  }

  /** The match is symmetric and reflexive, and between names of the same length it is equality. */
  lemma IsMatchProperties(a: string, b: string)
    ensures IsMatch(a, b) <==> IsMatch(b, a)
    ensures IsMatch(a, a)
    ensures |a| == |b| ==> (IsMatch(a, b) <==> a == b)
  {
    if |a| == |b| && IsMatch(a, b) {
      if Contains(b, a) {
        ContainsLength(b, a);
      } else if Contains(a, b) {
        ContainsLength(a, b);
      }
    }
  }

  predicate CardMatches(cardText: string, search: string) {
    Strip(cardText) != [] && IsMatch(search, FirstLine(cardText))
  }

  /** The card loop of `_click_sectoral_index`'s first method: the first card with text whose first line matches. */
  method FindCard(cards: seq<string>, indexName: string) returns (found: Option<nat>)
    ensures found.Some? ==> found.value < |cards| && CardMatches(cards[found.value], SearchName(indexName))
    ensures found.Some? ==> forall j :: 0 <= j < found.value ==> !CardMatches(cards[j], SearchName(indexName))
    ensures found.None? ==> forall j :: 0 <= j < |cards| ==> !CardMatches(cards[j], SearchName(indexName))
  {
    var search := SearchName(indexName);
    found := None;
    for i := 0 to |cards|
      invariant forall j :: 0 <= j < i ==> !CardMatches(cards[j], search)
    {
      if Strip(cards[i]) == [] {
        continue;
      }
      var firstLine := FirstLine(cards[i]);
      if IsMatch(search, firstLine) {
        found := Some(i);
        return;
      }
    }
  }

  // ---------------------------------------------------------------- stock symbols, prices and colours

  /** `symbol.replace(' ', '').replace('&', '').replace('-', '').replace('.', '')` */
  function CleanSymbol(symbol: string): string {
    RemoveChar(RemoveChar(RemoveChar(RemoveChar(symbol, ' '), '&'), '-'), '.')
  }

  /** The symbol check of the tile scan. */
  predicate ValidSymbol(symbol: string) {
    2 <= |symbol| <= 20
    && IsAlnumText(CleanSymbol(symbol))
    && HasAlpha(symbol)
    && !IsDigits(RemoveChar(RemoveChar(symbol, '.'), ','))
  }

  /** A valid symbol is 2 to 20 characters of letters, digits, spaces, `&`, `-` and `.`,
      with at least one letter; the digits-only test never rejects anything more. */
  lemma ValidSymbolChars(symbol: string)
    ensures ValidSymbol(symbol) <==>
      2 <= |symbol| <= 20 && HasAlpha(symbol)
      && forall i :: 0 <= i < |symbol| ==> IsAlnum(symbol[i]) || symbol[i] in " &-."
  {
    var clean := CleanSymbol(symbol);
    assert forall x :: x in clean <==> x in symbol && x !in " &-.";
    if HasAlpha(symbol) {
      var k :| 0 <= k < |symbol| && IsAlpha(symbol[k]);
      var a := symbol[k];
      assert a in clean;
      var noDots := RemoveChar(RemoveChar(symbol, '.'), ',');
      assert a in noDots;
      var m :| 0 <= m < |noDots| && noDots[m] == a;
      assert !IsDigits(noDots);
      if forall i :: 0 <= i < |symbol| ==> IsAlnum(symbol[i]) || symbol[i] in " &-." {
        forall j | 0 <= j < |clean|
          ensures IsAlnum(clean[j])
        {
          assert clean[j] in clean;
          var i :| 0 <= i < |symbol| && symbol[i] == clean[j];
        }
      }
      if IsAlnumText(clean) {
        forall i | 0 <= i < |symbol|
          ensures IsAlnum(symbol[i]) || symbol[i] in " &-."
        {
          if symbol[i] !in " &-." {
            assert symbol[i] in clean;
            var j :| 0 <= j < |clean| && clean[j] == symbol[i];
          }
        }
      }
    }
  }

  /** A price line's price and change: the first and second tokens of the line without
      commas; the price falls back to the whole line and the change to the third line. */
  function PriceChange(lines: seq<string>): (pc: (string, string))
    requires |lines| >= 2
  {
    var parts := Tokens(RemoveChar(lines[1], ','));
    var price := if parts != [] then parts[0] else lines[1];
    var change := if |parts| > 1 then parts[1] else if |lines| > 2 then lines[2] else "";
    (price, change)
  }

  /** On a price line with a digit, the price is a non-empty run of the line's own
      characters with no whitespace and no comma. */
  lemma PriceIsToken(lines: seq<string>)
    requires |lines| >= 2 && HasDigit(lines[1])
    ensures var price := PriceChange(lines).0;
      price != [] && ',' !in price
      && (forall i :: 0 <= i < |price| ==> !IsSpace(price[i]))
      && forall x :: x in price ==> x in lines[1]
  {
    var line := RemoveChar(lines[1], ',');
    var k :| 0 <= k < |lines[1]| && IsDigit(lines[1][k]);
    var d := lines[1][k];
    assert d in lines[1];
    assert d in line;
    var m :| 0 <= m < |line| && line[m] == d;
    TokensNonEmpty(line, m);
    var parts := Tokens(line);
    TokensChars(line);
    assert forall x :: x in parts[0] ==> x in line;
  }

  datatype Trend = Gain | Loss | Neutral | Unknown

  /** The colour thresholds: green above red by more than 20 is a gain, red above green by more than 20 a loss. */
  function Classify(r: int, g: int): (t: Trend)
    ensures t != Unknown
    ensures t == Gain <==> g > r + 20
    ensures t == Loss <==> r > g + 20
    ensures t == Neutral <==> -20 <= g - r <= 20
  {
    if g > r + 20 then Gain else if r > g + 20 then Loss else Neutral
  }

  /** `color.replace('rgba', '').replace('rgb', '').replace('(', '').replace(')', '')` */
  function Bare(color: string): string {
    RemoveChar(RemoveChar(RemoveAll(RemoveAll(color, "rgba"), "rgb"), '('), ')')
  }

  /** The trend of a CSS `background-color` value: `Unknown` without `rgb`, otherwise
      the verdict on its comma-separated components. */
  function TrendOf(color: string): Trend {
    if !Contains(color, "rgb") then Unknown else PartsTrend(Split(Bare(color), ','))
  }

  /** The first two of at least three components read as red and green; `Unknown` with
      fewer components or when one of the two is not a number. */
  function PartsTrend(parts: seq<string>): Trend {
    if |parts| < 3 then Unknown
    else
      var r, g := ParseInt(Strip(parts[0])), ParseInt(Strip(parts[1]));
      if r.Some? && g.Some? then Classify(r.value, g.value) else Unknown
  }

  /** The value a browser reports for an opaque colour: `rgb(r, g, b)`. */
  function RgbString(r: nat, g: nat, b: nat): string {
    "rgb(" + NatString(r) + ", " + NatString(g) + ", " + NatString(b) + ")"
  }

  lemma DigitsLack(s: string, c: char)
    requires IsDigits(s) && !IsDigit(c)
    ensures c !in s
  {
  }

  /** The components of a rendered colour, between the parentheses. */
  function RgbBody(r: nat, g: nat, b: nat): string {
    NatString(r) + ", " + NatString(g) + ", " + NatString(b)
  }

  lemma RgbBodyChars(r: nat, g: nat, b: nat)
    ensures forall c :: c in "r()" ==> c !in RgbBody(r, g, b)
  {
    var R, G, B := NatString(r), NatString(g), NatString(b);
    forall c | c in "r()"
      ensures c !in RgbBody(r, g, b)
    {
      DigitsLack(R, c);
      DigitsLack(G, c);
      DigitsLack(B, c);
      assert forall x :: x in RgbBody(r, g, b) ==> x in R || x in G || x in B || x in ", ";
    }
  }

  /** `replace('rgba', '')` leaves `rgb(...` alone. */
  lemma KeepRgbPrefix(tail: string)
    requires 'r' !in tail
    ensures RemoveAll("rgb(" + tail, "rgba") == "rgb(" + tail
  {
    var s := "rgb(" + tail;
    assert s[3] == '(';
    assert !StartsWith(s, "rgba");
    assert s[1..] == "gb(" + tail;
    RemoveAllAbsent(s[1..], "rgba");
  }

  /** `replace('rgb', '')` drops the prefix. */
  lemma RemoveRgbPrefix(tail: string)
    requires 'r' !in tail
    ensures RemoveAll("rgb(" + tail, "rgb") == "(" + tail
  {
    var s := "rgb(" + tail;
    assert s[..3] == "rgb";
    assert s[3..] == "(" + tail;
    RemoveAllAbsent(s[3..], "rgb");
  }

  lemma DropOpenParen(t: string)
    requires '(' !in t
    ensures RemoveChar("(" + t, '(') == t
  {
    RemoveCharAppend("(", t, '(');
    assert RemoveChar("(", '(') == [];
    RemoveCharAbsent(t, '(');
  }

  lemma DropCloseParen(body: string)
    requires ')' !in body
    ensures RemoveChar(body + ")", ')') == body
  {
    RemoveCharAppend(body, ")", ')');
    assert RemoveChar(")", ')') == [];
    RemoveCharAbsent(body, ')');
  }

  /** Dropping the parentheses around a text that has none inside. */
  lemma RemoveParens(body: string)
    requires '(' !in body && ')' !in body
    ensures RemoveChar(RemoveChar("(" + (body + ")"), '('), ')') == body
  {
    assert '(' !in body + ")";
    DropOpenParen(body + ")");
    DropCloseParen(body);
  }

  /** Removing `rgba`, `rgb` and the parentheses leaves the components. */
  lemma RgbStripped(r: nat, g: nat, b: nat)
    ensures Contains(RgbString(r, g, b), "rgb")
    ensures Bare(RgbString(r, g, b)) == RgbBody(r, g, b)
  {
    var body := RgbBody(r, g, b);
    var s := RgbString(r, g, b);
    assert s == "rgb(" + (body + ")");
    assert s[..3] == "rgb";
    RgbBodyChars(r, g, b);
    KeepRgbPrefix(body + ")");
    RemoveRgbPrefix(body + ")");
    RemoveParens(body);
  }

  lemma CommaSpaceShape(R: string, G: string, B: string)
    ensures R + ", " + G + ", " + B == R + [','] + ((" " + G) + [','] + (" " + B))
  {
  }

  /** Two comma-free pieces joined by a comma split back into the two. */
  lemma SplitTwo(a: string, b: string)
    requires ',' !in a && ',' !in b
    ensures Split(a + [','] + b, ',') == [a, b]
  {
    SplitAt(a, ',', b);
    SplitNone(b, ',');
  }

  /** Three comma-free pieces joined by `, ` split back into the pieces, the last two after a space. */
  lemma SplitCommaSpace(R: string, G: string, B: string)
    requires ',' !in R && ',' !in G && ',' !in B
    ensures Split(R + ", " + G + ", " + B, ',') == [R, " " + G, " " + B]
  {
    var Gs, Y := " " + G, " " + B;
    CommaSpaceShape(R, G, B);
    assert ',' !in Gs && ',' !in Y;
    SplitTwo(Gs, Y);
    SplitAt(R, ',', Gs + [','] + Y);
  }

  /** The components split at the commas into the three numbers, the last two after a space. */
  lemma RgbParts(r: nat, g: nat, b: nat)
    ensures Split(RgbBody(r, g, b), ',') == [NatString(r), " " + NatString(g), " " + NatString(b)]
  {
    var R, G, B := NatString(r), NatString(g), NatString(b);
    DigitsLack(R, ',');
    DigitsLack(G, ',');
    DigitsLack(B, ',');
    SplitCommaSpace(R, G, B);
  }

  /** A rendered number reads back, with or without the space after a comma. */
  lemma ReadsBack(n: nat)
    ensures ParseInt(Strip(NatString(n))) == Some(n)
    ensures ParseInt(Strip(" " + NatString(n))) == Some(n)
  {
    var N := NatString(n);
    assert forall i :: 0 <= i < |N| ==> !IsSpace(N[i]);
    StripNoSpace(N);
    StripLeadingSpace(N);
    ParseNatString(n);
  }

  /** Reading the trend off a rendered `rgb(r, g, b)` colour gives the thresholds' verdict on `r` and `g`. */
  lemma RgbTrend(r: nat, g: nat, b: nat)
    ensures TrendOf(RgbString(r, g, b)) == Classify(r, g)
  {
    var parts := Split(RgbBody(r, g, b), ',');
    RgbStripped(r, g, b);
    RgbParts(r, g, b);
    assert |parts| == 3 && parts[0] == NatString(r) && parts[1] == " " + NatString(g);
    ReadsBack(r);
    ReadsBack(g);
    PartsRead(parts, r, g);
    TrendFromParts(RgbString(r, g, b), parts);
  }

  /** A colour mentioning `rgb` has the verdict its bare components give. */
  lemma TrendFromParts(color: string, parts: seq<string>)
    requires Contains(color, "rgb") && Split(Bare(color), ',') == parts
    ensures TrendOf(color) == PartsTrend(parts)
  {
  }

  /** Components whose first two of at least three read as `r` and `g` give the thresholds' verdict on them. */
  lemma PartsRead(parts: seq<string>, r: int, g: int)
    requires |parts| >= 3 && ParseInt(Strip(parts[0])) == Some(r) && ParseInt(Strip(parts[1])) == Some(g)
    ensures PartsTrend(parts) == Classify(r, g)
  {
  }

  // ---------------------------------------------------------------- scanning stock tiles

  /** An element as the tile scan sees it: shown or not, its text, and the background
      colour found for it (on the element or an ancestor). */
  datatype Tile = Tile(displayed: bool, text: string, color: string)

  datatype Stock = Stock(symbol: string, price: string, change: string, color: string, trend: Trend)

  function SymbolOf(s: Stock): string { s.symbol }

  /** The three scans of `get_heatmap`: tiles inside heatmap containers, every grid
      element, and (when those found fewer than three stocks) every text element. */
  datatype Scan = Containers | Grid | TextElements

  /** The navigation words a grid tile's text, or a text element's symbol, must not contain. */
  const SkipWords: seq<string> := [
    "scan", "download", "login", "nse", "ncfm", "back", "streaming", "as on", "note",
    "heatmap", "indices", "nifty", "broad market", "sectoral", "thematic", "strategy"]

  predicate HasSkipWord(text: string) {
    exists k :: 0 <= k < |SkipWords| && Contains(Lower(text), SkipWords[k])
  }

  /** The symbol check of each scan; the text-element scan is the lenient one. */
  predicate SymbolOk(scan: Scan, symbol: string) {
    match scan
    case TextElements => 2 <= |symbol| <= 25 && HasAlpha(symbol) && !HasSkipWord(symbol)
    case _ => ValidSymbol(symbol)
  }

  /** What one element yields in a scan, given the symbols already taken. */
  function TileStock(scan: Scan, t: Tile, seen: set<string>): (r: Option<Stock>)
    ensures r.Some? <==> var text := Strip(t.text); var lines := Lines(text);
      t.displayed && |text| >= 3 && !(scan == Grid && HasSkipWord(text)) && |lines| >= 2
      && SymbolOk(scan, Strip(lines[0])) && Strip(lines[0]) !in seen && HasDigit(lines[1])
    ensures r.Some? ==> var lines := Lines(Strip(t.text));
      |lines| >= 2 && r.value.symbol == Strip(lines[0]) && (r.value.price, r.value.change) == PriceChange(lines)
    ensures r.Some? ==> r.value.symbol !in seen && SymbolOk(scan, r.value.symbol)
    ensures r.Some? ==> t.displayed && |Strip(t.text)| >= 3
    ensures r.Some? && scan == Grid ==> r.value.trend == TrendOf(t.color) && !HasSkipWord(Strip(t.text))
    ensures r.Some? && scan != Grid ==> r.value.trend == Unknown
    ensures r.Some? ==> r.value.color == (if scan == Grid && t.color == [] then "unknown" else t.color)
  {
    var text := Strip(t.text);
    if !t.displayed || |text| < 3 then None
    else if scan == Grid && HasSkipWord(text) then None
    else
      var lines := Lines(text);
      if |lines| < 2 then None
      else
        var symbol := Strip(lines[0]);
        if !SymbolOk(scan, symbol) || symbol in seen || !HasDigit(lines[1]) then None
        else
          var (price, change) := PriceChange(lines);
          if scan == Grid then
            Some(Stock(symbol, price, change, if t.color == [] then "unknown" else t.color, TrendOf(t.color)))
          else
            Some(Stock(symbol, price, change, t.color, Unknown))
  }

  /** A scan over elements in order, threading the set of symbols taken. */
  function ScanTiles(scan: Scan, tiles: seq<Tile>, seen: set<string>): (seq<Stock>, set<string>)
    decreases |tiles|
  {
    if tiles == [] then ([], seen)
    else
      var (stocks, seen') := ScanTiles(scan, tiles[..|tiles| - 1], seen);
      match TileStock(scan, tiles[|tiles| - 1], seen')
      case Some(st) => (stocks + [st], seen' + {st.symbol})
      case None => (stocks, seen')
  }

  /** The symbols of some stocks. */
  function Symbols(stocks: seq<Stock>): set<string> {
    set st | st in stocks :: st.symbol
  }

  /** What a scan keeps: symbols taken once each, none taken before, all acceptable. */
  predicate ScanKept(scan: Scan, stocks: seq<Stock>, seen: set<string>) {
    DistinctKeys(stocks, SymbolOf) && forall st :: st in stocks ==> st.symbol !in seen && SymbolOk(scan, st.symbol)
  }

  /** Appending a stock whose symbol is not taken yet keeps what a scan keeps. */
  lemma ScanKeptAppend(scan: Scan, stocks: seq<Stock>, seen: set<string>, st: Stock)
    requires ScanKept(scan, stocks, seen)
    requires st.symbol !in seen + Symbols(stocks) && SymbolOk(scan, st.symbol)
    ensures ScanKept(scan, stocks + [st], seen)
    ensures seen + Symbols(stocks) + {st.symbol} == seen + Symbols(stocks + [st])
  {
    forall i | 0 <= i < |stocks|
      ensures SymbolOf(stocks[i]) != SymbolOf(st)
    {
      assert stocks[i] in stocks;
    }
    DistinctAppend(stocks, [st], SymbolOf);
    assert forall x :: x in stocks + [st] ==> x in stocks || x == st;
  }

  /** A scan takes each symbol at most once, never one taken before it, and afterwards
      the taken set is the old one plus the symbols it found. */
  lemma {:induction false} ScanTilesProperties(scan: Scan, tiles: seq<Tile>, seen: set<string>)
    ensures var (stocks, seen') := ScanTiles(scan, tiles, seen);
      seen' == seen + Symbols(stocks) && ScanKept(scan, stocks, seen) && |stocks| <= |tiles|
    decreases |tiles|
  {
    if tiles != [] {
      var init := tiles[..|tiles| - 1];
      ScanTilesProperties(scan, init, seen);
      var (stocks, seen') := ScanTiles(scan, init, seen);
      match TileStock(scan, tiles[|tiles| - 1], seen')
      case Some(st) =>
        ScanKeptAppend(scan, stocks, seen, st);
      case None =>
    }
  }

  /** The loop of one scan: `if symbol in seen_symbols: skip; seen_symbols.add(symbol); stocks.append(...)`. */
  method RunScan(scan: Scan, tiles: seq<Tile>, seen0: set<string>) returns (stocks: seq<Stock>, seen: set<string>)
    ensures (stocks, seen) == ScanTiles(scan, tiles, seen0)
  {
    stocks, seen := [], seen0;
    for i := 0 to |tiles|
      invariant (stocks, seen) == ScanTiles(scan, tiles[..i], seen0)
    {
      assert tiles[..i + 1][..i] == tiles[..i];
      var found := TileStock(scan, tiles[i], seen);
      if found.Some? {
        seen := seen + {found.value.symbol};
        stocks := stocks + [found.value];
      }
    }
    assert tiles[..|tiles|] == tiles;
  }

  /** The skip-word list is bound inside the grid loop, after the visibility and length
      checks; until some grid element gets that far, the text-element scan cannot read
      it and finds nothing. */
  predicate SkipListBound(gridTiles: seq<Tile>) {
    exists i :: 0 <= i < |gridTiles| && gridTiles[i].displayed && |Strip(gridTiles[i].text)| >= 3
  }

  /** The stocks the three scans collect, in order. */
  function CollectedStocks(containerTiles: seq<Tile>, gridTiles: seq<Tile>, textTiles: seq<Tile>): seq<Stock> {
    var (a, seenA) := ScanTiles(Containers, containerTiles, {});
    var (b, seenB) := ScanTiles(Grid, gridTiles, seenA);
    if |a + b| < 3 && SkipListBound(gridTiles) then a + b + ScanTiles(TextElements, textTiles, seenB).0
    else a + b
  }

  lemma SymbolsApart(a: seq<Stock>, b: seq<Stock>, seenA: set<string>)
    requires seenA == Symbols(a)
    requires forall st :: st in b ==> st.symbol !in seenA
    ensures forall i, j :: 0 <= i < |a| && 0 <= j < |b| ==> SymbolOf(a[i]) != SymbolOf(b[j])
  {
    forall i, j | 0 <= i < |a| && 0 <= j < |b|
      ensures SymbolOf(a[i]) != SymbolOf(b[j])
    {
      assert a[i] in a && b[j] in b;
    }
  }

  /** The symbols collected are pairwise distinct already. */
  lemma CollectedDistinct(containerTiles: seq<Tile>, gridTiles: seq<Tile>, textTiles: seq<Tile>)
    ensures DistinctKeys(CollectedStocks(containerTiles, gridTiles, textTiles), SymbolOf)
  {
    var (a, seenA) := ScanTiles(Containers, containerTiles, {});
    var (b, seenB) := ScanTiles(Grid, gridTiles, seenA);
    var (c, seenC) := ScanTiles(TextElements, textTiles, seenB);
    ScanTilesProperties(Containers, containerTiles, {});
    ScanTilesProperties(Grid, gridTiles, seenA);
    ScanTilesProperties(TextElements, textTiles, seenB);
    SymbolsApart(a, b, seenA);
    DistinctAppend(a, b, SymbolOf);
    assert seenB == Symbols(a + b) by {
      assert forall x :: x in a + b <==> x in a || x in b;
    }
    SymbolsApart(a + b, c, seenB);
    DistinctAppend(a + b, c, SymbolOf);
  }

  /** The heatmap `get_heatmap` returns. */
  datatype Heatmap = Heatmap(indexName: string, category: string, totalStocks: nat, stocks: seq<Stock>)

  /** `get_heatmap` once the browser is ready: `clicked` is whether the chosen click
      routine reached the index's heatmap, the tiles are what the three scans see. */
  method GetHeatmap(categoryKey: string, indexName: string, clicked: bool,
                    containerTiles: seq<Tile>, gridTiles: seq<Tile>, textTiles: seq<Tile>)
    returns (r: Option<Heatmap>)
    ensures r.Some? <==> CategoryName(categoryKey).Some? && clicked
    ensures r.Some? ==> r.value.category == CategoryName(categoryKey).value && r.value.indexName == indexName
    ensures r.Some? ==> r.value.stocks == Unique(CollectedStocks(containerTiles, gridTiles, textTiles), SymbolOf)
    ensures r.Some? ==> r.value.stocks == CollectedStocks(containerTiles, gridTiles, textTiles)
    ensures r.Some? ==> r.value.totalStocks == |r.value.stocks| && DistinctKeys(r.value.stocks, SymbolOf)
  {
    var name := CategoryName(categoryKey);
    if name.None? {
      return None;
    }
    EveryCategoryRoutes(categoryKey);
    if !clicked {
      return None;
    }
    var stocks, seen := RunScan(Containers, containerTiles, {});
    var more;
    more, seen := RunScan(Grid, gridTiles, seen);
    stocks := stocks + more;
    if |stocks| < 3 && SkipListBound(gridTiles) {
      more, seen := RunScan(TextElements, textTiles, seen);
      stocks := stocks + more;
    }
    var unique := UniqueBy(stocks, SymbolOf);
    CollectedDistinct(containerTiles, gridTiles, textTiles);
    UniqueOfDistinct(stocks, SymbolOf);
    r := Some(Heatmap(indexName, name.value, |unique|, unique));
  }
}

/** The Groww stock-news scraper: the fields of one news item read from the text of
    the element around it (source and time, headline, stock name and change), the
    search over the elements that show a time, and the final de-duplication by
    headline. The page is reduced to the texts the browser reports. */
module GrowwNews {
  import opened Wrappers
  import opened Text
  import opened Dedup
  import opened Collect

  // ---------------------------------------------------------------- patterns

  /** End of the run of `cls` characters that starts at `i`. */
  function RunEnd(s: string, i: nat, cls: char -> bool): (e: nat)
    requires i <= |s|
    ensures i <= e <= |s|
    ensures forall k :: i <= k < e ==> cls(s[k])
    ensures e == |s| || !cls(s[e])
    decreases |s| - i
  {
    if i < |s| && cls(s[i]) then RunEnd(s, i + 1, cls) else i
  }

  predicate IsSign(c: char) { c == '+' || c == '-' }

  /** A decimal percentage as `[-+]?\d+\.\d+%` matches it: four characters or more,
      a `%` at the end and a decimal point before it. */
  predicate PercentShaped(m: string) {
    |m| >= 4 && m[|m| - 1] == '%' && '.' in m[..|m| - 1]
  }

  /** A time as the time pattern matches it: a digit first and `ago` at the end. */
  predicate TimeShaped(t: string) {
    |t| >= 3 && IsDigit(t[0]) && Lower(t[|t| - 3..]) == "ago"
  }

  /** `\d+\.\d+%` at `i`: where the match ends. */
  function DecimalPctAt(s: string, i: nat): (r: Option<nat>)
    requires i <= |s|
    ensures r.Some? ==> i + 4 <= r.value <= |s| && PercentShaped(s[i..r.value])
  {
    var d := RunEnd(s, i, IsDigit);
    if d == i || d >= |s| || s[d] != '.' then None
    else
      var e := RunEnd(s, d + 1, IsDigit);
      if e == d + 1 || e >= |s| || s[e] != '%' then None
      else
        assert s[i..e + 1][..e - i][d - i] == '.';
        Some(e + 1)
  }

  /** `[-+]?\d+\.\d+%` at `i`: a sign is taken when there is one; without the sign
      the match would have to start with that sign, so it fails. */
  function SignedDecimalAt(s: string, i: nat): (r: Option<nat>)
    requires i <= |s|
    ensures r.Some? ==> i + 4 <= r.value <= |s| && PercentShaped(s[i..r.value])
  {
    if i < |s| && IsSign(s[i]) then
      match DecimalPctAt(s, i + 1)
      case None => None
      case Some(e) =>
        var m := s[i + 1..e];
        assert s[i..e][1..] == m;
        assert s[i..e][..e - i - 1][1..] == m[..|m| - 1];
        Some(e)
    else DecimalPctAt(s, i)
  }

  /** `[-+]?\d+%` at `i`. */
  function SignedIntPctAt(s: string, i: nat): (r: Option<nat>)
    requires i <= |s|
    ensures r.Some? ==> i + 2 <= r.value <= |s| && s[r.value - 1] == '%'
  {
    var j := if i < |s| && IsSign(s[i]) then i + 1 else i;
    var d := RunEnd(s, j, IsDigit);
    if d == j || d >= |s| || s[d] != '%' then None else Some(d + 1)
  }

  /** `p` at the start of `s`, letters compared without case. */
  predicate StartsWithNoCase(s: string, p: string) {
    |p| <= |s| && Lower(s[..|p|]) == p
  }

  /** `hour|minute|day` at `w`, without case: where the unit ends. */
  function UnitEnd(s: string, w: nat): (r: Option<nat>)
    requires w <= |s|
    ensures r.Some? ==> w + 3 <= r.value <= |s|
  {
    if StartsWithNoCase(s[w..], "hour") then Some(w + 4)
    else if StartsWithNoCase(s[w..], "minute") then Some(w + 6)
    else if StartsWithNoCase(s[w..], "day") then Some(w + 3)
    else None
  }

  /** `\d+\s*(?:hour|minute|day)s?\s*ago`, without case, at `i`. Every quantifier is
      greedy and giving characters back never helps: the digits are followed by a
      space or a letter, the spaces by a letter, and without an `s` after the unit
      the next character would have to be a space or the `a` of `ago`. */
  function TimeAt(s: string, i: nat): (r: Option<nat>)
    requires i <= |s|
    ensures r.Some? ==> i < r.value <= |s| && TimeShaped(s[i..r.value])
  {
    var d := RunEnd(s, i, IsDigit);
    if d == i then None
    else
      var w := RunEnd(s, d, IsSpace);
      match UnitEnd(s, w)
      case None => None
      case Some(u) => AgoAfterUnit(s, i, u)
  }

  /** `s?\s*ago` after a unit ending at `u`, for a match that started with a digit at `i`. */
  function AgoAfterUnit(s: string, i: nat, u: nat): (r: Option<nat>)
    requires i < u <= |s| && IsDigit(s[i])
    ensures r.Some? ==> i < r.value <= |s| && TimeShaped(s[i..r.value])
  {
    var u' := if u < |s| && LowerChar(s[u]) == 's' then u + 1 else u;
    var a := RunEnd(s, u', IsSpace);
    if StartsWithNoCase(s[a..], "ago") then
      AgoEnds(s, i, a);
      Some(a + 3)
    else None
  }

  /** A digit at `i` and `ago` at `a` make `s[i..a + 3]` shaped like a time. */
  lemma AgoEnds(s: string, i: nat, a: nat)
    requires i < a <= |s| && IsDigit(s[i]) && StartsWithNoCase(s[a..], "ago")
    ensures a + 3 <= |s| && TimeShaped(s[i..a + 3])
  {
    var t := s[i..a + 3];
    assert t[|t| - 3..] == s[a..][..3];
  }

  /** A pattern matched at one position: where the match ends, if it matches there. */
  type Matcher = (string, nat) -> Option<nat>

  /** Every match ends past its start and within the text. */
  predicate Bounded(m: Matcher, s: string) {
    forall i :: 0 <= i <= |s| && m(s, i).Some? ==> i < m(s, i).value <= |s|
  }

  /** The time pattern at position `i`, no match past the end. */
  function TimeMatch(s: string, i: nat): (r: Option<nat>)
    ensures r.Some? ==> i < r.value <= |s| && TimeShaped(s[i..r.value])
  {
    if i <= |s| then TimeAt(s, i) else None
  }

  /** `[-+]?\d+\.\d+%` at position `i`, no match past the end. */
  function PercentMatch(s: string, i: nat): (r: Option<nat>)
    ensures r.Some? ==> i < r.value <= |s| && PercentShaped(s[i..r.value])
  {
    if i <= |s| then SignedDecimalAt(s, i) else None
  }

  /** `re.search`: the leftmost match at or after `from`, as start and end. */
  function Search(m: Matcher, s: string, from: nat): (r: Option<(nat, nat)>)
    requires from <= |s| && Bounded(m, s)
    ensures r.Some? ==> from <= r.value.0 < r.value.1 <= |s| && m(s, r.value.0) == Some(r.value.1)
    ensures r.Some? ==> forall j :: from <= j < r.value.0 ==> m(s, j).None?
    ensures r.None? ==> forall j :: from <= j <= |s| ==> m(s, j).None?
    decreases |s| - from
  {
    match m(s, from)
    case Some(e) => Some((from, e))
    case None => if from == |s| then None else Search(m, s, from + 1)
  }

  /** The text of the first match, `None` without one. */
  function Found(m: Matcher, s: string): (r: Option<string>)
    requires Bounded(m, s)
    ensures r.Some? <==> Search(m, s, 0).Some?
    ensures r.Some? ==> r.value == s[Search(m, s, 0).value.0..Search(m, s, 0).value.1]
  {
    match Search(m, s, 0)
    case Some((a, b)) => Some(s[a..b])
    case None => None
  }

  /** A found decimal percentage is shaped like one. */
  lemma FoundPercent(s: string)
    ensures Found(PercentMatch, s).Some? ==> PercentShaped(Found(PercentMatch, s).value)
  {
  }

  /** A found time is shaped like one. */
  lemma FoundTime(s: string)
    ensures Found(TimeMatch, s).Some? ==> TimeShaped(Found(TimeMatch, s).value)
  {
  }

  // ---------------------------------------------------------------- stock name and change

  /** The characters the name group may continue with: letters, whitespace and `&.,()`. */
  predicate NameChar(c: char) {
    IsAlpha(c) || IsSpace(c) || c == '&' || c == '.' || c == ',' || c == '(' || c == ')'
  }

  /** The change part of a name pattern. */
  datatype Change = Decimal | Whole

  function ChangeAt(kind: Change, s: string, k: nat): (r: Option<nat>)
    requires k <= |s|
    ensures r.Some? ==> k < r.value <= |s|
  {
    match kind
    case Decimal => SignedDecimalAt(s, k)
    case Whole => SignedIntPctAt(s, k)
  }

  /** A match of `([A-Za-z][A-Za-z\s&.,()]+?)\s+(change)`: the name is `s[start..nameEnd]`
      and the change `s[changeStart..end]`. */
  datatype NameMatch = NameMatch(start: nat, nameEnd: nat, changeStart: nat, end: nat)

  /** The lazy name group, `s[i..j]` so far: the shortest group after which whitespace
      and the change follow (reaching the end of the text when `anchored`). */
  function LazyName(s: string, i: nat, j: nat, kind: Change, anchored: bool): (r: Option<NameMatch>)
    requires i + 2 <= j <= |s|
    ensures r.Some? ==> r.value.start == i && j <= r.value.nameEnd < r.value.changeStart < r.value.end <= |s|
    decreases |s| - j
  {
    var k := RunEnd(s, j, IsSpace);
    var change := if k > j then ChangeAt(kind, s, k) else None;
    if change.Some? && (!anchored || change.value == |s|) then Some(NameMatch(i, j, k, change.value))
    else if j < |s| && NameChar(s[j]) then LazyName(s, i, j + 1, kind, anchored)
    else None
  }

  /** The name pattern at `i`: a letter, then at least one more name character. */
  function NameAt(s: string, i: nat, kind: Change, anchored: bool): (r: Option<NameMatch>)
    requires i <= |s|
    ensures r.Some? ==> r.value.start == i && i + 2 <= r.value.nameEnd < r.value.changeStart < r.value.end <= |s|
  {
    if i + 1 < |s| && IsAlpha(s[i]) && NameChar(s[i + 1]) then LazyName(s, i, i + 2, kind, anchored) else None
  }

  /** `re.search` with a name pattern: the leftmost start that matches. */
  function NameSearch(s: string, from: nat, kind: Change): (r: Option<NameMatch>)
    requires from <= |s|
    ensures r.Some? ==> from <= r.value.start && r.value.start + 2 <= r.value.nameEnd < r.value.changeStart < r.value.end <= |s|
    decreases |s| - from
  {
    match NameAt(s, from, kind, false)
    case Some(m) => Some(m)
    case None => if from == |s| then None else NameSearch(s, from + 1, kind)
  }

  /** The three patterns of `_extract_stock_info_from_element`, in the order tried:
      the whole text, a decimal change anywhere, a whole-number change anywhere. */
  function PatternMatch(s: string, n: nat): (r: Option<NameMatch>)
    requires n < 3
    ensures r.Some? ==> r.value.start + 2 <= r.value.nameEnd < r.value.changeStart < r.value.end <= |s|
  {
    if n == 0 then NameAt(s, 0, Decimal, true)
    else if n == 1 then NameSearch(s, 0, Decimal)
    else NameSearch(s, 0, Whole)
  }

  /** An accepted stock name: two to 49 characters and not `.`. */
  predicate NameOk(name: string) { 1 < |name| < 50 && name != "." }

  /** What pattern `n` gives: its two groups stripped, when both pass the checks. */
  function PatternInfo(t: string, n: nat): (r: Option<(string, string)>)
    requires n < 3
    ensures r.Some? ==> NameOk(r.value.0) && |r.value.1| >= 4
  {
    match PatternMatch(t, n)
    case None => None
    case Some(m) =>
      var name := Strip(t[m.start..m.nameEnd]);
      var change := Strip(t[m.changeStart..m.end]);
      if name != [] && NameOk(name) && change != [] && |change| >= 4 then Some((name, change)) else None
  }

  /** A trailing character `re.sub(r'[.,\s]+$', '', ...)` removes. */
  predicate NameTrail(c: char) { c == '.' || c == ',' || IsSpace(c) }

  /** The fallback: the first decimal percentage, and the text before it as the name. */
  function PercentInfo(t: string): (r: Option<(string, string)>)
    ensures r.Some? ==> NameOk(r.value.0) && |r.value.1| >= 4
  {
    match Search(PercentMatch, t, 0)
    case None => None
    case Some((a, b)) =>
      var name := TrimRightWhile(Strip(t[..a]), NameTrail);
      if name != [] && NameOk(name) then Some((name, t[a..b])) else None
  }

  /** `_extract_stock_info_from_element` on an element's text: `None` for `(None, None)`. */
  function StockInfo(text: string): (r: Option<(string, string)>)
    ensures '%' !in Strip(text) ==> r.None?
    ensures r.Some? ==> NameOk(r.value.0) && |r.value.1| >= 4
  {
    var t := Strip(text);
    if t == [] || '%' !in t then None
    else if PatternInfo(t, 0).Some? then PatternInfo(t, 0)
    else if PatternInfo(t, 1).Some? then PatternInfo(t, 1)
    else if PatternInfo(t, 2).Some? then PatternInfo(t, 2)
    else PercentInfo(t)
  }

  /** Text that mentions `ago`, in any case. */
  predicate HasAgo(line: string) { Contains(Lower(line), "ago") }

  /** An element worth asking for stock info: 5 to 60 characters once stripped, no `ago`. */
  predicate StockCandidate(text: string) {
    var t := Strip(text);
    5 <= |t| <= 60 && !HasAgo(t)
  }

  /** Name and change from the first stock element that yields them; empty when none does. */
  function FirstStock(texts: seq<string>): (r: (string, string))
    ensures r == ("", "") || (NameOk(r.0) && |r.1| >= 4)
  {
    match FirstYield(texts, StockCandidate, StockInfo)
    case Some(info) => info
    case None => ("", "")
  }

  /** The loop over the stock elements, left at the first that yields a name and a change. */
  method FindStock(texts: seq<string>) returns (name: string, change: string)
    ensures (name, change) == FirstStock(texts)
  {
    var found := FindFirst(texts, StockCandidate, StockInfo);
    name, change := "", "";
    if found.Some? {
      name, change := found.value.0, found.value.1;
    }
  }

  /** The stock names that are cleared: `.`, the empty name, a space and `..`. */
  function CleanName(name: string): (r: string)
    ensures name in [".", "", " ", ".."] ==> r == ""
    ensures name !in [".", "", " ", ".."] ==> r == name
  {
    if name in [".", "", " ", ".."] then "" else name
  }

  /** `re.match(r'^0+%$', change)`: zeros and a percent sign. */
  predicate ZeroPercent(change: string) {
    |change| >= 2 && change[|change| - 1] == '%' && forall i :: 0 <= i < |change| - 1 ==> change[i] == '0'
  }

  /** A decimal percentage is not all zeros: its decimal point is not a zero. */
  lemma PercentNotZero(m: string)
    requires PercentShaped(m)
    ensures !ZeroPercent(m)
  {
    var d :| 0 <= d < |m| - 1 && m[..|m| - 1][d] == '.';
    assert m[d] == '.';
  }

  /** A change of zeros or of under four characters is replaced by the first decimal
      percentage in the container text, or cleared: what is left is empty, the change
      itself when it was acceptable, or a decimal percentage, never a zero or short one. */
  function CleanChange(change: string, containerText: string): (r: string)
    ensures r == "" || (|r| >= 4 && !ZeroPercent(r))
    ensures r == change || r == "" || PercentShaped(r)
    ensures !(change != [] && (ZeroPercent(change) || |change| < 4)) ==> r == change
    ensures change != [] && (ZeroPercent(change) || |change| < 4) && Search(PercentMatch, containerText, 0).None? ==>
      r == ""
    ensures change != [] && (ZeroPercent(change) || |change| < 4) && Search(PercentMatch, containerText, 0).Some? ==>
      var (a, b) := Search(PercentMatch, containerText, 0).value;
      r == containerText[a..b]
  {
    if change != [] && (ZeroPercent(change) || |change| < 4) then
      FoundPercent(containerText);
      match Found(PercentMatch, containerText)
      case Some(m) =>
        PercentNotZero(m);
        m
      case None => ""
    else change
  }

  /** The stock fields of an item: the first stock element's name and change, cleaned. */
  function StockFields(c: Container): (r: (string, string))
    ensures r.0 == "" || NameOk(r.0)
    ensures r.1 == "" || (|r.1| >= 4 && !ZeroPercent(r.1))
    ensures r == (CleanName(FirstStock(c.stockTexts).0), CleanChange(FirstStock(c.stockTexts).1, c.text))
  {
    var (name, change) := FirstStock(c.stockTexts);
    (CleanName(name), CleanChange(change, c.text))
  }

  // ---------------------------------------------------------------- source and time

  /** `line.split(c, 1)` */
  function SplitOnce(line: string, c: char): (parts: seq<string>)
    ensures 1 <= |parts| <= 2
    ensures |parts| == 2 <==> c in line
    ensures |parts| == 2 ==> c !in parts[0] && line == parts[0] + [c] + parts[1]
  {
    var i := FindChar(line, c);
    if i == |line| then [line]
    else
      assert line == line[..i] + [c] + line[i + 1..];
      [line[..i], line[i + 1..]]
  }

  /** The time found in a piece of text, empty when there is none. */
  function TimeIn(part: string): (t: string)
    ensures t == "" || TimeShaped(t)
    ensures Search(TimeMatch, part, 0).None? ==> t == ""
    ensures Search(TimeMatch, part, 0).Some? ==>
      var (a, b) := Search(TimeMatch, part, 0).value;
      t == part[a..b]
  {
    FoundTime(part);
    match Found(TimeMatch, part)
    case Some(m) => m
    case None => ""
  }

  const MiddleDot: char := '·'

  /** The line is cut at its first dash when it has ` - ` or exactly one `-`. */
  predicate DashSeparated(line: string) {
    Contains(line, " - ") || CountChar(line, '-') == 1
  }

  /** `line` is `p`, the separator `c`, then `q`, with no `c` in `p`: a cut at the first `c`. */
  predicate CutAt(line: string, c: char, p: string, q: string) {
    line == p + [c] + q && c !in p
  }

  /** `line` is `p`, `c`, `q`, then `rest`, with no `c` in `p` or `q` and `rest` empty or
      starting with `c`: `p` and `q` are the first two pieces of `line.split(c)`. */
  predicate FirstPieces(line: string, c: char, p: string, q: string, rest: string) {
    line == p + [c] + q + rest && c !in p && c !in q && (rest == [] || rest[0] == c)
  }

  /** `Source - 2 hours ago`: the source before the first dash, the time in what follows. */
  function DashSourceTime(line: string): (r: (string, string))
    ensures '-' !in r.0 && (r.1 == "" || TimeShaped(r.1))
    ensures '-' in line ==> exists p, q :: CutAt(line, '-', p, q) && r == (Strip(p), TimeIn(Strip(q)))
    ensures '-' !in line ==> r == ("", "")
  {
    var parts := SplitOnce(line, '-');
    if |parts| >= 2 then
      StripChars(parts[0]);
      assert CutAt(line, '-', parts[0], parts[1]);
      (Strip(parts[0]), TimeIn(Strip(parts[1])))
    else ("", "")
  }

  /** The first piece of `Split` runs up to the first separator. */
  lemma SplitFirst(s: string, c: char)
    ensures Split(s, c)[0] == s[..FindChar(s, c)]
  {
  }

  /** The first two pieces of `line.split(c)`: the text before the first `c`, then the
      text from there up to the next `c` or the end. */
  function FirstTwo(line: string, c: char): (string, string) {
    var i := FindChar(line, c);
    if i == |line| then (line, "")
    else
      var tail := line[i + 1..];
      (line[..i], tail[..FindChar(tail, c)])
  }

  /** With a separator, `Split` has at least two pieces and they are the first two. */
  lemma SplitFirstTwo(line: string, c: char)
    requires c in line
    ensures |Split(line, c)| >= 2 && (Split(line, c)[0], Split(line, c)[1]) == FirstTwo(line, c)
  {
    var i := FindChar(line, c);
    var tail := line[i + 1..];
    assert Split(line, c) == [line[..i]] + Split(tail, c);
    SplitFirst(tail, c);
  }

  /** `Split` gives more than one piece exactly when the separator occurs. */
  lemma SplitPieces(line: string, c: char)
    ensures |Split(line, c)| >= 2 <==> c in line
  {
    var i := FindChar(line, c);
    if i < |line| {
      assert Split(line, c) == [line[..i]] + Split(line[i + 1..], c);
    }
  }

  /** With a separator, the line is its first piece, the separator, its second piece and
      a rest that is empty or starts with the separator. */
  lemma FirstTwoCuts(line: string, c: char)
    requires c in line
    ensures exists rest :: FirstPieces(line, c, FirstTwo(line, c).0, FirstTwo(line, c).1, rest)
  {
    var i := FindChar(line, c);
    var tail := line[i + 1..];
    var j := FindChar(tail, c);
    assert i < |line| && FirstTwo(line, c) == (line[..i], tail[..j]);
    Rejoin(line, i, tail[..j], tail[j..]);
    assert c !in line[..i];
    assert c !in tail[..j];
    assert FirstPieces(line, c, line[..i], tail[..j], tail[j..]);
  }

  /** A line cut at position `i`, with what follows the cut in two parts, is the four joined. */
  lemma Rejoin(line: string, i: nat, piece: string, rest: string)
    requires i < |line| && line[i + 1..] == piece + rest
    ensures line == line[..i] + [line[i]] + piece + rest
  {
    assert line == line[..i] + [line[i]] + line[i + 1..];
  }

  /** `Source · 2 hours ago`: the source before the first middle dot, the time in the
      piece after it, up to the next middle dot. */
  function DotSourceTime(line: string): (r: (string, string))
    ensures MiddleDot !in r.0 && (r.1 == "" || TimeShaped(r.1))
    ensures MiddleDot in line ==>
      var (p, q) := FirstTwo(line, MiddleDot);
      r == (Strip(p), TimeIn(Strip(q)))
    ensures MiddleDot !in line ==> r == ("", "")
  {
    var parts := Split(line, MiddleDot);
    SplitPieces(line, MiddleDot);
    if |parts| >= 2 then
      StripChars(parts[0]);
      SplitFirstTwo(line, MiddleDot);
      (Strip(parts[0]), TimeIn(Strip(parts[1])))
    else ("", "")
  }

  /** `Source 2 hours ago`: the first time in the line, and the text before it without
      middle dots and dashes as the source; both empty without a time. */
  function InlineSourceTime(line: string): (r: (string, string))
    ensures '-' !in r.0 && MiddleDot !in r.0
    ensures r.1 == "" || TimeShaped(r.1)
    ensures r.1 == "" <==> Found(TimeMatch, line).None?
    ensures Search(TimeMatch, line, 0).None? ==> r == ("", "")
    ensures Search(TimeMatch, line, 0).Some? ==>
      var (a, b) := Search(TimeMatch, line, 0).value;
      r == (Strip(RemoveChar(RemoveChar(Strip(line[..a]), MiddleDot), '-')), line[a..b])
  {
    FoundTime(line);
    match Search(TimeMatch, line, 0)
    case Some((a, b)) =>
      var source := RemoveChar(RemoveChar(Strip(line[..a]), MiddleDot), '-');
      StripChars(source);
      (Strip(source), line[a..b])
    case None => ("", "")
  }

  /** Source and time from a line mentioning `ago`. */
  function LineSourceTime(line: string): (string, string) {
    if DashSeparated(line) then DashSourceTime(line)
    else if MiddleDot in line then DotSourceTime(line)
    else InlineSourceTime(line)
  }

  /** Source and time from the first line mentioning `ago`, both empty without one. */
  function SourceTime(lines: seq<string>): (string, string) {
    match FirstWhere(lines, HasAgo)
    case None => ("", "")
    case Some(k) => LineSourceTime(lines[k])
  }

  lemma ContainsChar(s: string, p: string, c: char)
    requires Contains(s, p) && c in p
    ensures c in s
    decreases |s|
  {
    if !StartsWith(s, p) {
      ContainsChar(s[1..], p, c);
    } else {
      assert c in s[..|p|];
    }
  }

  /** How a line mentioning `ago` is read, by its separators: at a dash, the source is
      what precedes the first dash and the time is found in the rest; at middle dots, the
      source is the first piece and the time is found in the second; otherwise the time is
      the first match in the line itself. The source never keeps the separator it was cut at. */
  ghost predicate ReadAs(line: string, r: (string, string)) {
    && (DashSeparated(line) ==>
          '-' in line && '-' !in r.0 && exists p, q :: CutAt(line, '-', p, q) && r == (Strip(p), TimeIn(Strip(q))))
    && (!DashSeparated(line) && MiddleDot in line ==>
          MiddleDot !in r.0 && r == (Strip(FirstTwo(line, MiddleDot).0), TimeIn(Strip(FirstTwo(line, MiddleDot).1))))
    && (!DashSeparated(line) && MiddleDot !in line ==>
          '-' !in r.0 && MiddleDot !in r.0
          && (Search(TimeMatch, line, 0).None? ==> r == ("", ""))
          && (Search(TimeMatch, line, 0).Some? ==>
                var (a, b) := Search(TimeMatch, line, 0).value;
                r == (Strip(RemoveChar(RemoveChar(Strip(line[..a]), MiddleDot), '-')), line[a..b])))
  }

  /** Each line is read as its separators say, and a time found is a whole match. */
  lemma LineReadAs(line: string)
    ensures ReadAs(line, LineSourceTime(line))
    ensures var time := LineSourceTime(line).1;
      time == "" || TimeShaped(time)
  {
    if DashSeparated(line) {
      if Contains(line, " - ") {
        ContainsChar(line, " - ", '-');
      }
      assert ReadAs(line, DashSourceTime(line));
    } else if MiddleDot in line {
      assert ReadAs(line, DotSourceTime(line));
    } else {
      assert ReadAs(line, InlineSourceTime(line));
    }
  }

  /** Only the first line mentioning `ago` is read, and it is read as its separators say;
      without such a line both source and time are empty. A time, when found, is a whole
      match of the time pattern. */
  lemma SourceTimeProperties(lines: seq<string>)
    ensures FirstWhere(lines, HasAgo).None? ==> SourceTime(lines) == ("", "")
    ensures var time := SourceTime(lines).1;
      time == "" || TimeShaped(time)
    ensures FirstWhere(lines, HasAgo).Some? ==>
      var k := FirstWhere(lines, HasAgo).value;
      HasAgo(lines[k]) && (forall j :: 0 <= j < k ==> !HasAgo(lines[j]))
      && ReadAs(lines[k], SourceTime(lines))
  {
    match FirstWhere(lines, HasAgo)
    case None =>
    case Some(k) =>
      LineReadAs(lines[k]);
  }

  // ---------------------------------------------------------------- headline

  /** The longest line passing `ok`, starting from `start` and replacing it only with a
      strictly longer line, so that of equally long lines the earliest wins. */
  function Longest(lines: seq<string>, ok: string -> bool, start: string): string
    decreases |lines|
  {
    if lines == [] then start
    else
      var best := Longest(lines[..|lines| - 1], ok, start);
      var line := lines[|lines| - 1];
      if ok(line) && |line| > |best| then line else best
  }

  /** The result is at least as long as every qualifying line and the start; when it is
      not the start, it is a qualifying line longer than the start and strictly longer
      than every qualifying line before it. */
  lemma {:induction false} LongestIsEarliestMax(lines: seq<string>, ok: string -> bool, start: string)
    ensures var best := Longest(lines, ok, start);
      |start| <= |best|
      && (forall i :: 0 <= i < |lines| && ok(lines[i]) ==> |lines[i]| <= |best|)
      && (best != start ==>
            exists i :: 0 <= i < |lines| && lines[i] == best && ok(best) && |best| > |start|
              && forall j :: 0 <= j < i && ok(lines[j]) ==> |lines[j]| < |best|)
    decreases |lines|
  {
    if lines != [] {
      var init, line := lines[..|lines| - 1], lines[|lines| - 1];
      LongestIsEarliestMax(init, ok, start);
      var before := Longest(init, ok, start);
      assert forall i :: 0 <= i < |init| ==> lines[i] == init[i];
      if ok(line) && |line| > |before| {
        assert lines[|lines| - 1] == line;
      } else if before != start {
        var i :| 0 <= i < |init| && init[i] == before && ok(before) && |before| > |start|
          && forall j :: 0 <= j < i && ok(init[j]) ==> |init[j]| < |before|;
        assert lines[i] == before;
      }
    }
  }

  /** `for line in lines: if not ok(line): continue; if len(line) > len(best): best = line` */
  method PickLongest(lines: seq<string>, ok: string -> bool, start: string) returns (best: string)
    ensures best == Longest(lines, ok, start)
  {
    best := start;
    for i := 0 to |lines|
      invariant best == Longest(lines[..i], ok, start)
    {
      assert lines[..i + 1][..i] == lines[..i];
      var line := lines[i];
      if !ok(line) {
        continue;
      }
      if |line| > |best| {
        best := line;
      }
    }
    assert lines[..|lines|] == lines;
  }

  predicate HasAnyWord(text: string, words: seq<string>) {
    exists k :: 0 <= k < |words| && Contains(Lower(text), words[k])
  }

  const HeadlineSkipWords: seq<string> := ["see more", "view more", "login", "sign up", "search"]

  const ChildSkipWords: seq<string> := ["see more", "view more", "login", "no data available"]

  const RejectedHeadlines: seq<string> := ["no data available for this category", "see more", "view more"]

  /** A line that may be the headline: no `ago`, no `%`, 30 characters or more, no UI word. */
  predicate HeadlineLine(line: string) {
    !HasAgo(line) && '%' !in line && |line| >= 30 && !HasAnyWord(line, HeadlineSkipWords)
  }

  /** A child text that may be the headline, with the child loop's own UI words. */
  predicate ChildLine(text: string) {
    !HasAgo(text) && '%' !in text && |text| >= 30 && !HasAnyWord(text, ChildSkipWords)
  }

  /** The headline check: over 20 characters and not one of the rejected texts. */
  predicate ValidHeadline(headline: string) {
    headline != [] && |headline| > 20 && Lower(headline) !in RejectedHeadlines
  }

  // ---------------------------------------------------------------- one news item

  datatype NewsItem = NewsItem(source: string, time: string, headline: string, stockName: string, stockChange: string)

  /** What the scraper reads of a container: its text, the texts of the stock elements
      found in it, and the texts of its descendants. */
  datatype Container = Container(text: string, stockTexts: seq<string>, childTexts: seq<string>)

  function StrippedAll(texts: seq<string>): (r: seq<string>)
    ensures |r| == |texts| && forall i :: 0 <= i < |texts| ==> r[i] == Strip(texts[i])
  {
    seq(|texts|, i requires 0 <= i < |texts| => Strip(texts[i]))
  }

  /** The headline checks on an assembled item: its own headline when valid, else, when
      it has a source or a time, the longest qualifying descendant text when valid. */
  function Validated(item: NewsItem, childTexts: seq<string>): (r: Option<NewsItem>)
    ensures r.Some? ==> ValidHeadline(r.value.headline) && r.value == item.(headline := r.value.headline)
    ensures ValidHeadline(item.headline) ==> r == Some(item)
    ensures item.source == [] && item.time == [] ==> (r.Some? <==> ValidHeadline(item.headline))
  {
    if ValidHeadline(item.headline) then Some(item)
    else if item.source != [] || item.time != [] then
      var other := Longest(StrippedAll(childTexts), ChildLine, item.headline);
      if ValidHeadline(other) then Some(item.(headline := other)) else None
    else None
  }

  /** `h` is the stripped text of a descendant and passes the child check. */
  predicate FromChild(childTexts: seq<string>, h: string) {
    exists i :: 0 <= i < |childTexts| && Strip(childTexts[i]) == h && ChildLine(h)
  }

  /** `h` is a headline-like line of `lines` and no headline-like line is longer. */
  predicate LongestLine(lines: seq<string>, h: string) {
    exists i :: 0 <= i < |lines| && lines[i] == h && HeadlineLine(h)
      && forall j :: 0 <= j < |lines| && HeadlineLine(lines[j]) ==> |lines[j]| <= |h|
  }

  /** A headline replaced by the second check is a qualifying descendant text. */
  lemma ValidatedHeadline(item: NewsItem, childTexts: seq<string>)
    requires Validated(item, childTexts).Some?
    ensures var h := Validated(item, childTexts).value.headline;
      h == item.headline || ((item.source != [] || item.time != []) && FromChild(childTexts, h))
  {
    if !ValidHeadline(item.headline) {
      LongestIsEarliestMax(StrippedAll(childTexts), ChildLine, item.headline);
    }
  }

  /** A headline found among the lines is the longest headline-like line. */
  lemma HeadlineIsLongestLine(lines: seq<string>)
    ensures Longest(lines, HeadlineLine, "") != "" ==> LongestLine(lines, Longest(lines, HeadlineLine, ""))
  {
    LongestIsEarliestMax(lines, HeadlineLine, "");
  }

  /** The item a long enough container would give before the headline checks. */
  function Assembled(c: Container, lines: seq<string>): NewsItem {
    var (source, time) := SourceTime(lines);
    var (name, change) := StockFields(c);
    NewsItem(source, time, Longest(lines, HeadlineLine, ""), name, change)
  }

  /** `_extract_news_from_container`. The line scan for stock info is left out: it names
      a pattern that is never defined, so it changes nothing. */
  function ExtractNews(c: Container): (r: Option<NewsItem>)
    ensures |c.text| < 20 || |Lines(c.text)| < 2 ==> r.None?
    ensures r.Some? ==> ValidHeadline(r.value.headline)
  {
    if c.text == [] || |c.text| < 20 then None
    else
      var lines := Lines(c.text);
      if |lines| < 2 then None
      else Validated(Assembled(c, lines), c.childTexts)
  }

  /** A long enough container with two lines or more gives an item exactly when its
      longest headline-like line is a valid headline, or, failing that, when it has a
      source or a time and its longest qualifying descendant text is; that headline is
      the item's. */
  lemma ExtractNewsFinds(c: Container)
    ensures |c.text| >= 20 && |Lines(c.text)| >= 2 ==>
      var lines := Lines(c.text);
      var h := Longest(lines, HeadlineLine, "");
      var dated := SourceTime(lines).0 != [] || SourceTime(lines).1 != [];
      var other := Longest(StrippedAll(c.childTexts), ChildLine, h);
      && (ValidHeadline(h) ==> ExtractNews(c).Some? && ExtractNews(c).value.headline == h)
      && (!ValidHeadline(h) && dated && ValidHeadline(other) ==> ExtractNews(c).Some? && ExtractNews(c).value.headline == other)
      && (!ValidHeadline(h) && !(dated && ValidHeadline(other)) ==> ExtractNews(c).None?)
  {
  }

  /** The headline of an extracted item is the longest headline-like line of the
      container text, or, when no line qualifies and the item has a source or a time,
      a descendant's text. */
  lemma ExtractNewsHeadline(c: Container)
    requires ExtractNews(c).Some?
    ensures var item := ExtractNews(c).value;
      LongestLine(Lines(c.text), item.headline)
      || ((item.source != [] || item.time != []) && FromChild(c.childTexts, item.headline))
  {
    var lines := Lines(c.text);
    var item := Assembled(c, lines);
    assert ExtractNews(c) == Validated(item, c.childTexts);
    ValidatedHeadline(item, c.childTexts);
    HeadlineIsLongestLine(lines);
  }

  /** The other fields of an extracted item: source and time from the first line with
      `ago`, a stock name that passed the name check or none, and a change of four
      characters or more that is not all zeros, or none. */
  lemma ExtractNewsFields(c: Container)
    requires ExtractNews(c).Some?
    ensures var item := ExtractNews(c).value;
      (item.source, item.time) == SourceTime(Lines(c.text))
      && (item.stockName, item.stockChange) == StockFields(c)
      && (item.stockName == "" || NameOk(item.stockName))
      && (item.stockChange == "" || (|item.stockChange| >= 4 && !ZeroPercent(item.stockChange)))
  {
  }

  /** `_extract_news_from_container`, with its loops. */
  method ExtractNewsFromContainer(c: Container) returns (r: Option<NewsItem>)
    ensures r == ExtractNews(c)
  {
    if c.text == [] || |c.text| < 20 {
      return None;
    }
    var lines := Lines(c.text);
    if |lines| < 2 {
      return None;
    }
    var (source, time) := SourceTime(lines);
    var headline := PickLongest(lines, HeadlineLine, "");
    var name, change := FindStock(c.stockTexts);
    name, change := CleanName(name), CleanChange(change, c.text);
    if ValidHeadline(headline) {
      return Some(NewsItem(source, time, headline, name, change));
    }
    if source != [] || time != [] {
      headline := PickLongest(StrippedAll(c.childTexts), ChildLine, headline);
      if ValidHeadline(headline) {
        return Some(NewsItem(source, time, headline, name, change));
      }
    }
    return None;
  }

  // ---------------------------------------------------------------- the item search

  /** An ancestor of a time element: an identifier for it and what it contains. */
  datatype Ancestor = Ancestor(id: string, container: Container)

  /** The time elements looked at, and the item count that stops the search. */
  const TimeElementLimit: nat := 30
  const EarlyStop: nat := 15

  /** A container that looks like a news item: over 50 characters with a `%` or a `₹`. */
  predicate NewsLike(text: string) { |text| > 50 && ('%' in text || '₹' in text) }

  /** A headline already taken, compared without case. */
  predicate Taken(items: seq<NewsItem>, headline: string) {
    exists i :: 0 <= i < |items| && Lower(items[i].headline) == Lower(headline)
  }

  /** No two items share a headline, compared without case. */
  predicate DistinctHeadlines(items: seq<NewsItem>) {
    forall i, j :: 0 <= i < j < |items| ==> Lower(items[i].headline) != Lower(items[j].headline)
  }

  /** An item an ancestor of one of the first 30 time elements yields, from a container
      that looks like a news item. */
  predicate FromTimeElements(item: NewsItem, timeElements: seq<seq<Ancestor>>) {
    exists t, a :: 0 <= t < |timeElements| && t < TimeElementLimit && a in timeElements[t]
      && NewsLike(a.container.text) && ExtractNews(a.container) == Some(item)
  }

  /** An item with a valid headline that comes from the time elements. */
  predicate SourcedItem(item: NewsItem, timeElements: seq<seq<Ancestor>>) {
    ValidHeadline(item.headline) && FromTimeElements(item, timeElements)
  }

  /** Every item has a valid headline and comes from the time elements. */
  predicate Sourced(items: seq<NewsItem>, timeElements: seq<seq<Ancestor>>) {
    forall it :: it in items ==> SourcedItem(it, timeElements)
  }

  /** Appending an item whose headline is not taken keeps the headlines distinct. */
  lemma AppendUntaken(items: seq<NewsItem>, item: NewsItem)
    requires DistinctHeadlines(items) && !Taken(items, item.headline)
    ensures DistinctHeadlines(items + [item])
  {
    var xs := items + [item];
    forall i, j | 0 <= i < j < |xs|
      ensures Lower(xs[i].headline) != Lower(xs[j].headline)
    {
      assert xs[i] == items[i];
      if j < |items| {
        assert xs[j] == items[j];
      }
    }
  }

  /** Appending an item a time element yields keeps every item sourced. */
  lemma AppendSourced(items: seq<NewsItem>, timeElements: seq<seq<Ancestor>>, t: nat, a: Ancestor, item: NewsItem)
    requires Sourced(items, timeElements)
    requires t < |timeElements| && t < TimeElementLimit && a in timeElements[t]
    requires NewsLike(a.container.text) && ExtractNews(a.container) == Some(item) && ValidHeadline(item.headline)
    ensures Sourced(items + [item], timeElements)
  {
    assert FromTimeElements(item, timeElements);
  }

  /** The search state: the items found and the identifiers of the containers read. */
  datatype ScanState = ScanState(items: seq<NewsItem>, processed: set<string>)

  /** The item an ancestor's container gives, when it looks like news and the item has a
      valid headline. */
  predicate Yields(a: Ancestor) {
    NewsLike(a.container.text) && ExtractNews(a.container).Some? && ValidHeadline(ExtractNews(a.container).value.headline)
  }

  /** An ancestor adds its item: its container was not read yet, looks like news, and gives
      an item with a valid headline not taken yet. */
  predicate Adds(st: ScanState, a: Ancestor) {
    a.id !in st.processed && Yields(a) && !Taken(st.items, ExtractNews(a.container).value.headline)
  }

  /** One ancestor tried: a container not read yet that looks like news is read (its
      identifier recorded), and its item is added when `Adds` holds; the flag says whether
      an item was added. */
  function TryAncestor(st: ScanState, a: Ancestor): (r: (ScanState, bool))
    ensures r.1 <==> Adds(st, a)
    ensures r.0.items == st.items + (if r.1 then [ExtractNews(a.container).value] else [])
    ensures r.0.processed == st.processed + (if a.id !in st.processed && NewsLike(a.container.text) then {a.id} else {})
  {
    if a.id in st.processed || !NewsLike(a.container.text) then (st, false)
    else
      var read := st.processed + {a.id};
      var found := ExtractNews(a.container);
      if found.Some? && ValidHeadline(found.value.headline) && !Taken(st.items, found.value.headline) then
        (ScanState(st.items + [found.value], read), true)
      else (ScanState(st.items, read), false)
  }

  /** The ancestors of one time element, tried in order until one adds an item. */
  function TryAncestors(st: ScanState, ancestors: seq<Ancestor>): (r: ScanState)
    ensures r.items == st.items || (|r.items| == |st.items| + 1 && r.items[..|st.items|] == st.items)
    ensures st.processed <= r.processed
    decreases |ancestors|
  {
    if ancestors == [] then st
    else
      var (next, added) := TryAncestor(st, ancestors[0]);
      if added then next else TryAncestors(next, ancestors[1..])
  }

  /** The time elements the search looks at: the first 30. */
  function FirstTimeElements(timeElements: seq<seq<Ancestor>>): (r: seq<seq<Ancestor>>)
    ensures |r| <= TimeElementLimit && |r| <= |timeElements| && r == timeElements[..|r|]
    ensures |r| == TimeElementLimit || r == timeElements
  {
    if |timeElements| < TimeElementLimit then timeElements else timeElements[..TimeElementLimit]
  }

  /** The search has found enough items and stops. */
  predicate Full(st: ScanState) { |st.items| >= EarlyStop }

  /** The search over time elements, element by element; once 15 items are found the
      remaining elements are not looked at. */
  function ScanPrefix(elements: seq<seq<Ancestor>>): ScanState {
    StopFold(elements, ScanState([], {}), TryAncestors, Full)
  }

  /** The items the first search finds. */
  function ScanItems(timeElements: seq<seq<Ancestor>>): seq<NewsItem> {
    ScanPrefix(FirstTimeElements(timeElements)).items
  }

  /** Trying one ancestor keeps the items sourced and their headlines distinct. */
  lemma TryAncestorSound(timeElements: seq<seq<Ancestor>>, st: ScanState, t: nat, a: Ancestor)
    requires Sourced(st.items, timeElements) && DistinctHeadlines(st.items)
    requires t < |timeElements| && t < TimeElementLimit && a in timeElements[t]
    ensures Sourced(TryAncestor(st, a).0.items, timeElements) && DistinctHeadlines(TryAncestor(st, a).0.items)
  {
    if TryAncestor(st, a).1 {
      var item := ExtractNews(a.container).value;
      AppendSourced(st.items, timeElements, t, a, item);
      AppendUntaken(st.items, item);
    }
  }

  /** Trying the ancestors of one time element keeps the items sourced and distinct. */
  lemma {:induction false} TryAncestorsSound(timeElements: seq<seq<Ancestor>>, st: ScanState, t: nat, ancestors: seq<Ancestor>)
    requires Sourced(st.items, timeElements) && DistinctHeadlines(st.items)
    requires t < |timeElements| && t < TimeElementLimit && forall a :: a in ancestors ==> a in timeElements[t]
    ensures Sourced(TryAncestors(st, ancestors).items, timeElements) && DistinctHeadlines(TryAncestors(st, ancestors).items)
    decreases |ancestors|
  {
    if ancestors != [] {
      TryAncestorSound(timeElements, st, t, ancestors[0]);
      var rest := ancestors[1..];
      assert forall x :: x in rest ==> x in ancestors;
      TryAncestorsSound(timeElements, TryAncestor(st, ancestors[0]).0, t, rest);
    }
  }

  /** Every item the search finds comes from a time element, and no headline is found twice. */
  lemma ScanPrefixSound(timeElements: seq<seq<Ancestor>>, i: nat)
    requires i <= |FirstTimeElements(timeElements)|
    ensures var items := ScanPrefix(FirstTimeElements(timeElements)[..i]).items;
      Sourced(items, timeElements) && DistinctHeadlines(items)
  {
    var first := FirstTimeElements(timeElements);
    var inv := (st: ScanState) => Sourced(st.items, timeElements) && DistinctHeadlines(st.items);
    forall st: ScanState, k | 0 <= k < |first| && inv(st) && !Full(st)
      ensures inv(TryAncestors(st, first[k]))
    {
      assert first[k] == timeElements[k];
      TryAncestorsSound(timeElements, st, k, first[k]);
    }
    assert first[..0] == [];
    StopFoldKeeps(first, 0, i, ScanState([], {}), TryAncestors, Full, inv);
  }

  /** The ancestors of one time element, tried in order until one adds an item. */
  method TryTimeElement(items0: seq<NewsItem>, processed0: set<string>, ancestors: seq<Ancestor>)
    returns (items: seq<NewsItem>, processed: set<string>)
    ensures ScanState(items, processed) == TryAncestors(ScanState(items0, processed0), ancestors)
  {
    items, processed := items0, processed0;
    var k := 0;
    var added := false;
    while k < |ancestors| && !added
      invariant 0 <= k <= |ancestors|
      invariant TryAncestors(ScanState(items0, processed0), ancestors)
        == if added then ScanState(items, processed) else TryAncestors(ScanState(items, processed), ancestors[k..])
    {
      var a := ancestors[k];
      assert ancestors[k..][0] == a && ancestors[k..][1..] == ancestors[k + 1..];
      if a.id !in processed && NewsLike(a.container.text) {
        processed := processed + {a.id};
        var found := ExtractNewsFromContainer(a.container);
        if found.Some? && ValidHeadline(found.value.headline) && !Taken(items, found.value.headline) {
          items := items + [found.value];
          added := true;
        }
      }
      k := k + 1;
    }
  }

  /** The first search of `scrape_news_items`: the first 30 time elements, each with its
      ancestors tried in order until one yields a new item; containers are read once,
      and the search stops once 15 items are found. */
  method ScanTimeElements(timeElements: seq<seq<Ancestor>>) returns (items: seq<NewsItem>)
    ensures items == ScanItems(timeElements)
    ensures |items| <= EarlyStop && |items| <= TimeElementLimit && |items| <= |timeElements|
    ensures Sourced(items, timeElements)
    ensures DistinctHeadlines(items)
  {
    items := [];
    var processed: set<string> := {};
    var first := FirstTimeElements(timeElements);
    var n := |first|;
    var idx := 0;
    while idx < n
      invariant 0 <= idx <= n
      invariant |items| < EarlyStop && |items| <= idx
      invariant ScanState(items, processed) == ScanPrefix(first[..idx])
    {
      ghost var st := ScanState(items, processed);
      items, processed := TryTimeElement(items, processed, first[idx]);
      ScanStep(first, idx, st);
      if |items| >= EarlyStop {
        StopFoldStopped(first, idx + 1, n, ScanState([], {}), TryAncestors, Full);
        break;
      }
      idx := idx + 1;
    }
    assert first[..n] == first;
    ScanPrefixSound(timeElements, n);
  }

  /** One more time element, looked at while fewer than 15 items are found. */
  lemma ScanStep(first: seq<seq<Ancestor>>, idx: nat, st: ScanState)
    requires idx < |first| && st == ScanPrefix(first[..idx]) && |st.items| < EarlyStop
    ensures ScanPrefix(first[..idx + 1]) == TryAncestors(st, first[idx])
  {
    StopFoldSnoc(first, idx, ScanState([], {}), TryAncestors, Full);
  }

  // ---------------------------------------------------------------- nothing lost by the search

  /** Identifiers tell containers apart: two ancestors with one identifier share a container. */
  predicate IdsIdentify(elements: seq<seq<Ancestor>>) {
    forall t, u, a, b :: 0 <= t < |elements| && 0 <= u < |elements| && a in elements[t] && b in elements[u] && a.id == b.id
      ==> a.container == b.container
  }

  /** Every container read whose item is valid has its headline taken. */
  predicate ReadTaken(elements: seq<seq<Ancestor>>, st: ScanState) {
    forall t, b :: 0 <= t < |elements| && b in elements[t] && b.id in st.processed && Yields(b)
      ==> Taken(st.items, ExtractNews(b.container).value.headline)
  }

  lemma TakenGrows(items: seq<NewsItem>, more: seq<NewsItem>, h: string)
    requires Taken(items, h)
    ensures Taken(items + more, h)
  {
    var i :| 0 <= i < |items| && Lower(items[i].headline) == Lower(h);
    assert (items + more)[i] == items[i];
  }

  /** Trying one ancestor keeps every valid read item taken, and a valid item not added
      is taken afterwards. */
  lemma TryAncestorTakes(elements: seq<seq<Ancestor>>, st: ScanState, t: nat, a: Ancestor)
    requires IdsIdentify(elements) && ReadTaken(elements, st)
    requires t < |elements| && a in elements[t]
    ensures ReadTaken(elements, TryAncestor(st, a).0)
    ensures Yields(a) ==> Taken(TryAncestor(st, a).0.items, ExtractNews(a.container).value.headline)
  {
    var (next, added) := TryAncestor(st, a);
    var more := if added then [ExtractNews(a.container).value] else [];
    assert next.items == st.items + more;
    forall u, b | 0 <= u < |elements| && b in elements[u] && b.id in next.processed && Yields(b)
      ensures Taken(next.items, ExtractNews(b.container).value.headline)
    {
      if b.id in st.processed {
        TakenGrows(st.items, more, ExtractNews(b.container).value.headline);
      } else {
        assert b.container == a.container;
        TakenAfter(st, a, next, added);
      }
    }
    if Yields(a) {
      if a.id in st.processed {
        TakenGrows(st.items, more, ExtractNews(a.container).value.headline);
      } else {
        TakenAfter(st, a, next, added);
      }
    }
  }

  /** A container read now whose item is valid: the item is added, or was already taken. */
  lemma TakenAfter(st: ScanState, a: Ancestor, next: ScanState, added: bool)
    requires (next, added) == TryAncestor(st, a) && a.id !in st.processed && Yields(a)
    ensures Taken(next.items, ExtractNews(a.container).value.headline)
  {
    var h := ExtractNews(a.container).value.headline;
    if added {
      assert next.items[|st.items|] == ExtractNews(a.container).value;
    } else {
      TakenGrows(st.items, [], h);
      assert st.items + [] == st.items;
    }
  }

  /** Trying the ancestors of one time element keeps every valid read item taken; when
      none of them adds an item, each valid item among them is taken afterwards. */
  lemma {:induction false} TryAncestorsTakes(elements: seq<seq<Ancestor>>, st: ScanState, t: nat, ancestors: seq<Ancestor>)
    requires IdsIdentify(elements) && ReadTaken(elements, st)
    requires t < |elements| && forall a :: a in ancestors ==> a in elements[t]
    ensures ReadTaken(elements, TryAncestors(st, ancestors))
    ensures |TryAncestors(st, ancestors).items| == |st.items| ==>
      forall a :: a in ancestors && Yields(a) ==> Taken(TryAncestors(st, ancestors).items, ExtractNews(a.container).value.headline)
    decreases |ancestors|
  {
    if ancestors != [] {
      var a := ancestors[0];
      var (next, added) := TryAncestor(st, a);
      TryAncestorTakes(elements, st, t, a);
      if !added {
        var rest := ancestors[1..];
        assert forall x :: x in rest ==> x in ancestors;
        TryAncestorsTakes(elements, next, t, rest);
        var r := TryAncestors(next, rest);
        if |r.items| == |st.items| {
          assert r.items == next.items;
          forall x | x in ancestors && Yields(x)
            ensures Taken(r.items, ExtractNews(x.container).value.headline)
          {
            if x != a {
              assert x in rest;
            }
          }
        }
      }
    }
  }

  /** Every container the search has read with a valid item has its headline taken. */
  lemma ScanPrefixTakes(elements: seq<seq<Ancestor>>, i: nat)
    requires IdsIdentify(elements) && i <= |elements|
    ensures ReadTaken(elements, ScanPrefix(elements[..i]))
  {
    var inv := (st: ScanState) => ReadTaken(elements, st);
    forall st: ScanState, k | 0 <= k < |elements| && inv(st) && !Full(st)
      ensures inv(TryAncestors(st, elements[k]))
    {
      TryAncestorsTakes(elements, st, k, elements[k]);
    }
    assert elements[..0] == [];
    StopFoldKeeps(elements, 0, i, ScanState([], {}), TryAncestors, Full, inv);
  }

  /** A valid item of an ancestor of a time element at which nothing was added, before
      the search stopped, has its headline taken once that element is done. */
  lemma ElementMissesNothing(first: seq<seq<Ancestor>>, t: nat, a: Ancestor)
    requires IdsIdentify(first) && t < |first| && a in first[t] && Yields(a)
    requires |ScanPrefix(first[..t]).items| < EarlyStop
    requires |ScanPrefix(first[..t + 1]).items| == |ScanPrefix(first[..t]).items|
    ensures Taken(ScanPrefix(first[..t + 1]).items, ExtractNews(a.container).value.headline)
  {
    var st := ScanPrefix(first[..t]);
    ScanPrefixTakes(first, t);
    ScanStep(first, t, st);
    TryAncestorsTakes(first, st, t, first[t]);
  }

  /** A headline taken in a list is taken in every list that starts with it. */
  lemma TakenInLonger(items: seq<NewsItem>, longer: seq<NewsItem>, h: string)
    requires |items| <= |longer| && longer[..|items|] == items && Taken(items, h)
    ensures Taken(longer, h)
  {
    var i :| 0 <= i < |items| && Lower(items[i].headline) == Lower(h);
    assert longer[..|items|][i] == longer[i];
  }

  /** A headline taken after some elements stays taken at the end of the search. */
  lemma TakenAtEnd(first: seq<seq<Ancestor>>, i: nat, h: string)
    requires i <= |first| && Taken(ScanPrefix(first[..i]).items, h)
    ensures Taken(ScanPrefix(first).items, h)
  {
    var inv := (st: ScanState) => Taken(st.items, h);
    forall st: ScanState, k | 0 <= k < |first| && inv(st) && !Full(st)
      ensures inv(TryAncestors(st, first[k]))
    {
      var next := TryAncestors(st, first[k]).items;
      if next != st.items {
        TakenInLonger(st.items, next, h);
      }
    }
    StopFoldKeeps(first, i, |first|, ScanState([], {}), TryAncestors, Full, inv);
    assert first[..|first|] == first;
  }

  /** The search loses no news: when identifiers tell containers apart, every valid item
      of an ancestor of a time element at which nothing was added, before the search
      stopped, has its headline among the items found. */
  lemma ScanMissesNothing(timeElements: seq<seq<Ancestor>>, t: nat, a: Ancestor)
    requires IdsIdentify(FirstTimeElements(timeElements))
    requires var first := FirstTimeElements(timeElements);
      t < |first| && a in first[t] && Yields(a)
      && |ScanPrefix(first[..t]).items| < EarlyStop
      && |ScanPrefix(first[..t + 1]).items| == |ScanPrefix(first[..t]).items|
    ensures Taken(ScanItems(timeElements), ExtractNews(a.container).value.headline)
  {
    var first := FirstTimeElements(timeElements);
    ElementMissesNothing(first, t, a);
    TakenAtEnd(first, t + 1, ExtractNews(a.container).value.headline);
  }

  // ---------------------------------------------------------------- final de-duplication

  /** The de-duplication key: the headline lower-cased and stripped. */
  function HeadlineKey(item: NewsItem): string { Strip(Lower(item.headline)) }

  /** Items whose key is longer than ten characters. */
  function LongKey(item: NewsItem): Option<NewsItem> {
    if |HeadlineKey(item)| > 10 then Some(item) else None
  }

  /** One more element for a filter followed by a de-duplication. */
  lemma UniqueFilterStep<T, K>(xs: seq<T>, i: nat, f: T -> Option<T>, key: T -> K)
    requires i < |xs|
    ensures var u := Unique(FilterMap(xs[..i], f), key);
      Unique(FilterMap(xs[..i + 1], f), key) ==
        match f(xs[i])
        case Some(y) => if key(y) in KeysOf(u, key) then u else u + [y]
        case None => u
  {
    var next := xs[..i + 1];
    assert next[..|next| - 1] == xs[..i] && next[|next| - 1] == xs[i];
    var kept := FilterMap(xs[..i], f);
    match f(xs[i])
    case Some(y) =>
      var q := kept + [y];
      assert q[..|q| - 1] == kept && q[|q| - 1] == y;
    case None =>
  }

  /** An element the filter keeps unchanged has its key among the keys the de-duplication keeps. */
  lemma KeptKey<T, K>(items: seq<T>, f: T -> Option<T>, key: T -> K, it: T)
    requires it in items && f(it) == Some(it)
    ensures key(it) in KeysOf(Unique(FilterMap(items, f), key), key)
  {
    var i :| 0 <= i < |items| && items[i] == it;
    FilterMapKeeps(items, f, i);
    var kept := FilterMap(items, f);
    var j :| 0 <= j < |kept| && kept[j] == it;
    assert KeysOf(kept, key)[j] == key(it);
    UniqueSameKeys(kept, key, key(it));
  }

  /** The final loop: an item is kept when its key is over ten characters and not seen before. */
  method DedupHeadlines(items: seq<NewsItem>) returns (unique: seq<NewsItem>)
    ensures unique == Unique(FilterMap(items, LongKey), HeadlineKey)
    ensures forall it :: it in items && |HeadlineKey(it)| > 10 ==> HeadlineKey(it) in KeysOf(unique, HeadlineKey)
  {
    var seen: set<string> := {};
    unique := [];
    for i := 0 to |items|
      invariant unique == Unique(FilterMap(items[..i], LongKey), HeadlineKey)
      invariant forall k :: k in seen <==> k in KeysOf(unique, HeadlineKey)
    {
      var item := items[i];
      var key := HeadlineKey(item);
      UniqueFilterStep(items, i, LongKey, HeadlineKey);
      KeysOfAppend(unique, item, HeadlineKey);
      if key != [] && key !in seen && |key| > 10 {
        seen := seen + {key};
        unique := unique + [item];
      }
    }
    assert items[..|items|] == items;
    forall it | it in items && |HeadlineKey(it)| > 10
      ensures HeadlineKey(it) in KeysOf(unique, HeadlineKey)
    {
      KeptKey(items, LongKey, HeadlineKey, it);
    }
  }

  /** What a filter that keeps or drops elements, followed by a de-duplication, keeps
      out of the elements of `first` (all satisfying `p`) and possibly those of `later`. */
  lemma KeptFrom<T, K>(first: seq<T>, later: seq<T>, items: seq<T>, f: T -> Option<T>, key: T -> K, p: T -> bool)
    requires items == first || items == first + later
    requires forall x :: x in first ==> p(x)
    requires forall x :: f(x).Some? ==> f(x) == Some(x)
    ensures forall y :: y in Unique(FilterMap(items, f), key) ==> f(y).Some? && (y in later || p(y))
  {
    UniqueSubset(FilterMap(items, f), key);
    FilterMapFrom(items, f);
    forall y | y in Unique(FilterMap(items, f), key)
      ensures f(y).Some? && (y in later || p(y))
    {
      var i :| 0 <= i < |items| && f(items[i]) == Some(y);
      assert items[i] in first || items[i] in later;
    }
  }

  /** `scrape_news_items` from the time elements, with the items the later searches add
      (they run only while fewer than ten items are found): every kept item has a key of
      over ten characters, no key twice, and comes from the first search or the later ones;
      every candidate with a key of over ten characters has its key kept. `scanned` is what
      the first search found; the later items are candidates only when it found fewer than ten. */
  method ScrapeNewsItems(timeElements: seq<seq<Ancestor>>, laterItems: seq<NewsItem>)
    returns (unique: seq<NewsItem>, scanned: seq<NewsItem>)
    ensures scanned == ScanItems(timeElements)
    ensures unique == Unique(FilterMap(scanned + (if |scanned| < 10 then laterItems else []), LongKey), HeadlineKey)
    ensures Sourced(scanned, timeElements) && DistinctHeadlines(scanned) && |scanned| <= EarlyStop
    ensures forall it :: (it in scanned || (|scanned| < 10 && it in laterItems)) && |HeadlineKey(it)| > 10 ==>
      HeadlineKey(it) in KeysOf(unique, HeadlineKey)
    ensures DistinctKeys(unique, HeadlineKey)
    ensures forall it :: it in unique ==> |HeadlineKey(it)| > 10
    ensures forall it :: it in unique ==> (|scanned| < 10 && it in laterItems) || SourcedItem(it, timeElements)
    ensures |unique| <= EarlyStop + |laterItems|
  {
    var first := ScanTimeElements(timeElements);
    scanned := first;
    var items := first;
    if |items| < 10 {
      items := items + laterItems;
    }
    ghost var later := if |first| < 10 then laterItems else [];
    assert items == first + later;
    unique := DedupHeadlines(items);
    var kept := FilterMap(items, LongKey);
    UniqueDistinct(kept, HeadlineKey);
    UniqueSubset(kept, HeadlineKey);
    FilterMapFrom(items, LongKey);
    KeptFrom(first, later, items, LongKey, HeadlineKey, it => SourcedItem(it, timeElements));
  }
}

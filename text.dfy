/** The Python `str` operations the scrapers apply to element texts, over ASCII.
    Python's own versions also treat non-ASCII whitespace, digits and letters;
    this model does not. */
module Text {
  import opened Wrappers

  type String = seq<char>

  // ---------------------------------------------------------------- characters

  /** `c.isspace()` for the ASCII characters: space, tab, line feed, vertical tab, form feed,
      carriage return and the four separators 0x1C to 0x1F. */
  predicate IsSpace(c: char) {
    c == ' ' || c == '\t' || c == '\n' || c == '\r' || c == '\U{B}' || c == '\U{C}'
    || ('\U{1C}' <= c <= '\U{1F}')
  }

  predicate IsDigit(c: char) { '0' <= c <= '9' }
  predicate IsLowerChar(c: char) { 'a' <= c <= 'z' }
  predicate IsUpperChar(c: char) { 'A' <= c <= 'Z' }
  predicate IsAlpha(c: char) { IsLowerChar(c) || IsUpperChar(c) }
  predicate IsAlnum(c: char) { IsAlpha(c) || IsDigit(c) }

  function LowerChar(c: char): (r: char)
    ensures IsUpperChar(c) ==> IsLowerChar(r)
    ensures !IsUpperChar(c) ==> r == c
  {
    if IsUpperChar(c) then (c as int + 32) as char else c
  }

  function UpperChar(c: char): (r: char)
    ensures IsLowerChar(c) ==> IsUpperChar(r)
    ensures !IsLowerChar(c) ==> r == c
  {
    if IsLowerChar(c) then (c as int - 32) as char else c
  }

  // ---------------------------------------------------------------- case

  /** `s.lower()` */
  function Lower(s: String): (r: String)
    ensures |r| == |s|
    ensures forall i :: 0 <= i < |s| ==> r[i] == LowerChar(s[i])
  {
    seq(|s|, i requires 0 <= i < |s| => LowerChar(s[i]))
  }

  /** `s.upper()` */
  function Upper(s: String): (r: String)
    ensures |r| == |s|
    ensures forall i :: 0 <= i < |s| ==> r[i] == UpperChar(s[i])
  {
    seq(|s|, i requires 0 <= i < |s| => UpperChar(s[i]))
  }

  // ---------------------------------------------------------------- whitespace

  function TrimLeft(s: String): (r: String)
    ensures |r| <= |s| && r == s[|s| - |r|..]
    ensures r != [] ==> !IsSpace(r[0])
    ensures forall i :: 0 <= i < |s| - |r| ==> IsSpace(s[i])
    decreases |s|
  {
    if s != [] && IsSpace(s[0]) then TrimLeft(s[1..]) else s
  }

  function TrimRight(s: String): (r: String)
    ensures |r| <= |s| && r == s[..|r|]
    ensures r != [] ==> !IsSpace(r[|r| - 1])
    ensures forall i :: |r| <= i < |s| ==> IsSpace(s[i])
    decreases |s|
  {
    if s != [] && IsSpace(s[|s| - 1]) then TrimRight(s[..|s| - 1]) else s
  }

  /** `s.strip()`: the text between the leading and the trailing whitespace. */
  function Strip(s: String): (r: String)
    ensures |r| <= |s|
    ensures r != [] ==> !IsSpace(r[0]) && !IsSpace(r[|r| - 1])
  {
    TrimRight(TrimLeft(s))
  }

  /** `strip` keeps a piece of the text: it adds no character. */
  lemma StripChars(s: String)
    ensures forall x :: x in Strip(s) ==> x in s
  {
    var t := TrimLeft(s);
    assert forall x :: x in t ==> x in s;
    assert forall x :: x in TrimRight(t) ==> x in t;
  }

  /** `s` without its trailing run of characters in `cls` (`re.sub(r'[cls]+$', '', s)`). */
  function TrimRightWhile(s: String, cls: char -> bool): (r: String)
    ensures |r| <= |s| && r == s[..|r|]
    ensures r != [] ==> !cls(r[|r| - 1])
    decreases |s|
  {
    if s != [] && cls(s[|s| - 1]) then TrimRightWhile(s[..|s| - 1], cls) else s
  }

  // ---------------------------------------------------------------- search

  /** `s.startswith(p)` */
  predicate StartsWith(s: String, p: String) {
    |p| <= |s| && s[..|p|] == p
  }

  /** `s.endswith(p)` */
  predicate EndsWith(s: String, p: String) {
    |p| <= |s| && s[|s| - |p|..] == p
  }

  /** `p in s`: `p` occurs in `s` as a contiguous piece. */
  predicate Contains(s: String, p: String)
    decreases |s|
  {
    StartsWith(s, p) || (s != [] && Contains(s[1..], p))
  }

  /** Index of the first `c` in `s`, or `|s|` when there is none (`s.find(c)` with -1 read as `|s|`). */
  function FindChar(s: String, c: char): (r: nat)
    ensures r <= |s|
    ensures r < |s| ==> s[r] == c
    ensures forall i :: 0 <= i < r ==> s[i] != c
    decreases |s|
  {
    if s == [] then 0 else if s[0] == c then 0 else 1 + FindChar(s[1..], c)
  }

  /** `s.count(c)` for a one-character `c`. */
  function CountChar(s: String, c: char): (r: nat)
    ensures r <= |s|
    ensures r == 0 <==> c !in s
    decreases |s|
  {
    if s == [] then 0 else (if s[0] == c then 1 else 0) + CountChar(s[1..], c)
  }

  /** `s.replace(c, '')` for a one-character `c`. */
  function RemoveChar(s: String, c: char): (r: String)
    ensures |r| <= |s|
    ensures forall x :: x in r <==> x in s && x != c
    decreases |s|
  {
    if s == [] then [] else (if s[0] == c then [] else [s[0]]) + RemoveChar(s[1..], c)
  }

  lemma {:induction false} RemoveCharAppend(a: String, b: String, c: char)
    ensures RemoveChar(a + b, c) == RemoveChar(a, c) + RemoveChar(b, c)
    decreases |a|
  {
    if a != [] {
      assert (a + b)[1..] == a[1..] + b;
      RemoveCharAppend(a[1..], b, c);
    } else {
      assert a + b == b;
    }
  }

  lemma RemoveCharAbsent(s: String, c: char)
    requires c !in s
    ensures RemoveChar(s, c) == s
  {
  }

  /** `s.replace(p, '')` for a pattern of one or more characters: occurrences are
      removed left to right without overlapping. */
  function RemoveAll(s: String, p: String): (r: String)
    requires p != []
    ensures |r| <= |s|
    decreases |s|
  {
    if StartsWith(s, p) then RemoveAll(s[|p|..], p)
    else if s == [] then []
    else [s[0]] + RemoveAll(s[1..], p)
  }

  /** A text in which the pattern's first character never occurs is left as it is. */
  lemma {:induction false} RemoveAllAbsent(s: String, p: String)
    requires p != [] && p[0] !in s
    ensures RemoveAll(s, p) == s
    decreases |s|
  {
    if s != [] {
      assert s[0] in s;
      assert forall x :: x in s[1..] ==> x in s;
      RemoveAllAbsent(s[1..], p);
    }
  }

  // ---------------------------------------------------------------- splitting

  /** `s.split(c)` for a one-character separator: always at least one piece. */
  function Split(s: String, c: char): (r: seq<String>)
    ensures |r| >= 1
    ensures forall k :: 0 <= k < |r| ==> c !in r[k]
    decreases |s|
  {
    var i := FindChar(s, c);
    if i == |s| then [s] else [s[..i]] + Split(s[i + 1..], c)
  }

  /** Splitting at the first separator: the piece before it, then the pieces of the rest. */
  lemma SplitAt(a: String, c: char, b: String)
    requires c !in a
    ensures Split(a + [c] + b, c) == [a] + Split(b, c)
  {
    var s := a + [c] + b;
    assert forall i :: 0 <= i < |a| ==> s[i] == a[i];
    assert s[|a|] == c;
    assert FindChar(s, c) == |a|;
    assert s[..|a|] == a && s[|a| + 1..] == b;
  }

  /** A text with no separator is one piece. */
  lemma SplitNone(s: String, c: char)
    requires c !in s
    ensures Split(s, c) == [s]
  {
  }

  /** `sep.join(pieces)` */
  function Join(pieces: seq<String>, sep: String): String
    decreases |pieces|
  {
    if pieces == [] then [] else if |pieces| == 1 then pieces[0] else pieces[0] + sep + Join(pieces[1..], sep)
  }

  /** `[p.strip() for p in pieces if p.strip()]` */
  function StrippedNonEmpty(pieces: seq<String>): (r: seq<String>)
    ensures |r| <= |pieces|
    ensures forall k :: 0 <= k < |r| ==> r[k] != [] && !IsSpace(r[k][0]) && !IsSpace(r[k][|r[k]| - 1])
  {
    if pieces == [] then []
    else
      var p := Strip(pieces[0]);
      (if p != [] then [p] else []) + StrippedNonEmpty(pieces[1..])
  }

  /** One more piece read: its stripped text, if not empty, goes at the end. */
  lemma {:induction false} StrippedNonEmptySnoc(pieces: seq<String>, x: String)
    ensures StrippedNonEmpty(pieces + [x]) == StrippedNonEmpty(pieces) + (if Strip(x) != [] then [Strip(x)] else [])
    decreases |pieces|
  {
    if pieces != [] {
      assert (pieces + [x])[1..] == pieces[1..] + [x];
      StrippedNonEmptySnoc(pieces[1..], x);
    }
  }

  /** Each kept text is the stripped form of some piece. */
  lemma {:induction false} StrippedNonEmptyFrom(pieces: seq<String>)
    ensures forall t :: t in StrippedNonEmpty(pieces) ==> exists i :: 0 <= i < |pieces| && t == Strip(pieces[i])
    decreases |pieces|
  {
    if pieces != [] {
      var rest := pieces[1..];
      StrippedNonEmptyFrom(rest);
      forall t | t in StrippedNonEmpty(pieces)
        ensures exists i :: 0 <= i < |pieces| && t == Strip(pieces[i])
      {
        if t != Strip(pieces[0]) {
          assert t in StrippedNonEmpty(rest);
          var i :| 0 <= i < |rest| && t == Strip(rest[i]);
          assert rest[i] == pieces[i + 1];
        }
      }
    }
  }

  /** No piece whose stripped text is non-empty is dropped. */
  lemma {:induction false} StrippedNonEmptyKeeps(pieces: seq<String>, i: nat)
    requires i < |pieces| && Strip(pieces[i]) != []
    ensures Strip(pieces[i]) in StrippedNonEmpty(pieces)
    decreases |pieces|
  {
    if i > 0 {
      assert StrippedNonEmpty(pieces)
        == (if Strip(pieces[0]) != [] then [Strip(pieces[0])] else []) + StrippedNonEmpty(pieces[1..]);
      assert pieces[1..][i - 1] == pieces[i];
      StrippedNonEmptyKeeps(pieces[1..], i - 1);
    }
  }

  /** `[l.strip() for l in s.split('\n') if l.strip()]`: the trimmed, non-empty lines of `s`. */
  function Lines(s: String): (r: seq<String>)
    ensures forall k :: 0 <= k < |r| ==> r[k] != [] && !IsSpace(r[k][0]) && !IsSpace(r[k][|r[k]| - 1])
  {
    StrippedNonEmpty(Split(s, '\n'))
  }

  /** Length of the leading run of non-whitespace characters of `s`. */
  function WordLength(s: String): (r: nat)
    ensures r <= |s|
    ensures r < |s| ==> IsSpace(s[r])
    ensures forall i :: 0 <= i < r ==> !IsSpace(s[i])
    decreases |s|
  {
    if s == [] || IsSpace(s[0]) then 0 else 1 + WordLength(s[1..])
  }

  /** A non-empty text without whitespace. */
  predicate IsToken(w: String) {
    w != [] && forall i :: 0 <= i < |w| ==> !IsSpace(w[i])
  }

  /** `s.split()`: the maximal runs of non-whitespace characters, in order. */
  function Tokens(s: String): (r: seq<String>)
    ensures forall k :: 0 <= k < |r| ==> IsToken(r[k])
    decreases |s|
  {
    if s == [] then []
    else if IsSpace(s[0]) then Tokens(s[1..])
    else
      var w := WordLength(s);
      var rest := Tokens(s[w..]);
      var r := [s[..w]] + rest;
      assert forall k :: 1 <= k < |r| ==> r[k] == rest[k - 1];
      r
  }

  /** A text whose characters are all non-whitespace is left as it is by `strip`. */
  lemma StripNoSpace(s: String)
    requires forall i :: 0 <= i < |s| ==> !IsSpace(s[i])
    ensures Strip(s) == s
  {
  }

  /** `strip` removes leading whitespace. */
  lemma StripLeadingSpace(s: String)
    requires forall i :: 0 <= i < |s| ==> !IsSpace(s[i])
    ensures Strip([' '] + s) == s
  {
    var t := [' '] + s;
    assert t[1..] == s;
    assert TrimLeft(s) == s by {
      if s != [] {
        assert !IsSpace(s[0]);
      }
    }
    assert TrimLeft(t) == s;
    StripNoSpace(s);
  }

  /** Every character of a token comes from the text. */
  lemma {:induction false} TokensChars(s: String)
    ensures forall k, x :: 0 <= k < |Tokens(s)| && x in Tokens(s)[k] ==> x in s
    decreases |s|
  {
    if s != [] && IsSpace(s[0]) {
      TokensChars(s[1..]);
      assert forall x :: x in s[1..] ==> x in s;
    } else if s != [] {
      var w := WordLength(s);
      TokensChars(s[w..]);
      forall k, x | 0 <= k < |Tokens(s)| && x in Tokens(s)[k]
        ensures x in s
      {
        if k == 0 {
          assert x in s[..w];
        } else {
          assert Tokens(s)[k] == Tokens(s[w..])[k - 1];
          assert x in s[w..];
        }
      }
    }
  }

  /** A text with a non-whitespace character has at least one token. */
  lemma {:induction false} TokensNonEmpty(s: String, i: nat)
    requires i < |s| && !IsSpace(s[i])
    ensures Tokens(s) != []
    decreases |s|
  {
    if IsSpace(s[0]) {
      TokensNonEmpty(s[1..], i - 1);
    }
  }

  // ---------------------------------------------------------------- numbers

  function DigitValue(c: char): nat
    requires IsDigit(c)
  {
    c as int - '0' as int
  }

  function DigitChar(d: nat): (c: char)
    requires d < 10
    ensures IsDigit(c) && DigitValue(c) == d
  {
    ('0' as int + d) as char
  }

  /** The value of a string of decimal digits. */
  function DigitsValue(s: String): nat
    requires forall i :: 0 <= i < |s| ==> IsDigit(s[i])
    decreases |s|
  {
    if s == [] then 0 else DigitsValue(s[..|s| - 1]) * 10 + DigitValue(s[|s| - 1])
  }

  /** `int(s)` for base-10 text: surrounding whitespace, an optional sign, then digits;
      `None` where Python raises `ValueError`. */
  function ParseInt(s: String): (r: Option<int>)
    ensures r.Some? ==> Strip(s) != []
  {
    var t := Strip(s);
    if |t| >= 2 && (t[0] == '+' || t[0] == '-') && IsDigits(t[1..]) then
      var v: int := DigitsValue(t[1..]);
      Some(if t[0] == '-' then -v else v)
    else if IsDigits(t) then Some(DigitsValue(t))
    else None
  }

  /** `str(n)` for a natural number. */
  function NatString(n: nat): (s: String)
    ensures IsDigits(s)
  {
    if n < 10 then [DigitChar(n)] else NatString(n / 10) + [DigitChar(n % 10)]
  }

  /** Reading back a rendered number gives the number. */
  lemma {:induction false} NatStringValue(n: nat)
    ensures DigitsValue(NatString(n)) == n
  {
    if n >= 10 {
      NatStringValue(n / 10);
      var s := NatString(n);
      assert s[..|s| - 1] == NatString(n / 10);
    }
  }

  /** `int(str(n)) == n` */
  lemma ParseNatString(n: nat)
    ensures ParseInt(NatString(n)) == Some(n)
  {
    var s := NatString(n);
    StripNoSpace(s);
    NatStringValue(n);
  }

  // ---------------------------------------------------------------- classes

  predicate HasDigit(s: String) { exists i :: 0 <= i < |s| && IsDigit(s[i]) }
  predicate HasAlpha(s: String) { exists i :: 0 <= i < |s| && IsAlpha(s[i]) }

  /** `s.isdigit()`: non-empty and only digits. */
  predicate IsDigits(s: String) { s != [] && forall i :: 0 <= i < |s| ==> IsDigit(s[i]) }

  /** `s.isalnum()`: non-empty and only letters and digits. */
  predicate IsAlnumText(s: String) { s != [] && forall i :: 0 <= i < |s| ==> IsAlnum(s[i]) }

  /** `s.isupper()`: some cased character, and no lower-case one. */
  predicate IsUpperText(s: String) {
    HasAlpha(s) && forall i :: 0 <= i < |s| ==> !IsLowerChar(s[i])
  }
}

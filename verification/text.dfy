/** String helpers of the router: reading an id out of a resource URL, turning a
    resource name into a display label, and the search-text normalisation. */
module Text {
  import opened Wrappers

  predicate IsDigit(c: char) {
    '0' <= c <= '9'
  }

  predicate AllDigits(s: string) {
    forall i :: 0 <= i < |s| ==> IsDigit(s[i])
  }

  function DigitValue(c: char): nat
    requires IsDigit(c)
  {
    (c as int) - ('0' as int)
  }

  /** The decimal number written by `s`, most significant digit first. */
  function DecimalValue(s: string): nat
    requires AllDigits(s)
  {
    if |s| == 0 then 0 else 10 * DecimalValue(s[..|s| - 1]) + DigitValue(s[|s| - 1])
  }

  /** The decimal digits of `n`, without leading zeros. */
  function DecimalDigits(n: nat): (s: string)
    ensures |s| > 0 && AllDigits(s)
    ensures DecimalValue(s) == n
  {
    var last := ('0' as int + n % 10) as char;
    if n < 10 then [last]
    else
      var prefix := DecimalDigits(n / 10);
      assert (prefix + [last])[..|prefix|] == prefix;
      prefix + [last]
  }

  /** The length of the run of digits that ends `s`. */
  function TrailingDigitCount(s: string): (n: nat)
    ensures n <= |s|
    ensures AllDigits(s[|s| - n..])
    ensures n < |s| ==> !IsDigit(s[|s| - n - 1])
  {
    if |s| == 0 || !IsDigit(s[|s| - 1]) then 0
    else
      var n := TrailingDigitCount(s[..|s| - 1]);
      assert s[|s| - (n + 1)..] == s[..|s| - 1][|s| - 1 - n..] + [s[|s| - 1]];
      n + 1
  }

  /** `getIdFromUrl`: the number in the last path segment of a URL that ends in
      `/<digits>` or `/<digits>/`, and nothing otherwise. */
  function ParseIdFromUrl(url: string): Option<nat> {
    var body := if |url| > 0 && url[|url| - 1] == '/' then url[..|url| - 1] else url;
    var n := TrailingDigitCount(body);
    if 0 < n < |body| && body[|body| - n - 1] == '/' then Some(DecimalValue(body[|body| - n..]))
    else None
  }

  /** A URL whose last path segment is `digits`, with or without a trailing slash. */
  function UrlEndingIn(prefix: string, digits: string, trailingSlash: bool): string {
    prefix + "/" + digits + (if trailingSlash then "/" else "")
  }

  /** Every URL of the shape `<prefix>/<digits>` or `<prefix>/<digits>/` yields the
      value of its digits, leading zeros included. */
  lemma ParseIdFromUrlComplete(prefix: string, digits: string, trailingSlash: bool)
    requires |digits| > 0 && AllDigits(digits)
    ensures ParseIdFromUrl(UrlEndingIn(prefix, digits, trailingSlash)) == Some(DecimalValue(digits))
  {
    var url := UrlEndingIn(prefix, digits, trailingSlash);
    var body := prefix + "/" + digits;
    if trailingSlash {
      assert url == body + "/";
      assert url[..|url| - 1] == body;
    } else {
      assert url == body;
      assert digits[|digits| - 1] != '/';
    }
    TrailingDigitsOfSlashSuffix(prefix, digits);
    assert body[|prefix|] == '/';
    assert body[|body| - |digits|..] == digits;
  }

  lemma TrailingDigitsOfSlashSuffix(prefix: string, digits: string)
    requires AllDigits(digits)
    ensures TrailingDigitCount(prefix + "/" + digits) == |digits|
    decreases |digits|
  {
    var s := prefix + "/" + digits;
    if |digits| == 0 {
      assert s[|s| - 1] == '/';
    } else {
      assert s[..|s| - 1] == prefix + "/" + digits[..|digits| - 1];
      TrailingDigitsOfSlashSuffix(prefix, digits[..|digits| - 1]);
    }
  }

  /** Conversely, whenever an id is found, the URL has one of those two shapes. */
  lemma ParseIdFromUrlSound(url: string)
    requires ParseIdFromUrl(url).Some?
    ensures exists prefix, digits, trailingSlash ::
              && |digits| > 0 && AllDigits(digits)
              && url == UrlEndingIn(prefix, digits, trailingSlash)
              && ParseIdFromUrl(url).value == DecimalValue(digits)
  {
    var trailingSlash := |url| > 0 && url[|url| - 1] == '/';
    var body := if trailingSlash then url[..|url| - 1] else url;
    var n := TrailingDigitCount(body);
    var prefix := body[..|body| - n - 1];
    var digits := body[|body| - n..];
    assert body == prefix + "/" + digits;
    assert url == UrlEndingIn(prefix, digits, trailingSlash);
  }

  /** The URLs the catalog hands out, `<prefix>/<id>/`, give back their id. */
  lemma ParseIdFromUrlRoundTrip(prefix: string, id: nat)
    ensures ParseIdFromUrl(prefix + "/" + DecimalDigits(id) + "/") == Some(id)
  {
    ParseIdFromUrlComplete(prefix, DecimalDigits(id), true);
  }

  // ---------------------------------------------------------------- labels

  /** A character of the regular-expression class `\w`. */
  predicate IsWordChar(c: char) {
    'a' <= c <= 'z' || 'A' <= c <= 'Z' || IsDigit(c) || c == '_'
  }

  function Upper(c: char): char {
    if 'a' <= c <= 'z' then (c as int - 32) as char else c
  }

  /** Position `i` of `s` is where `\b\w` matches: a word character with no word
      character in front of it. Hyphens and the spaces replacing them are not word
      characters, so it does not matter whether they are replaced first. */
  predicate WordStart(s: string, i: int)
    requires 0 <= i < |s|
  {
    IsWordChar(s[i]) && (i == 0 || !IsWordChar(s[i - 1]))
  }

  /** What `toTitle` makes of one character, given whether a word character precedes it. */
  function TitleChar(afterWord: bool, c: char): char {
    if c == '-' then ' ' else if IsWordChar(c) && !afterWord then Upper(c) else c
  }

  function TitleFrom(afterWord: bool, s: string): (r: string)
    ensures |r| == |s|
    decreases |s|
    ensures forall i :: 0 <= i < |s| ==>
              r[i] == TitleChar(if i == 0 then afterWord else IsWordChar(s[i - 1]), s[i])
  {
    if |s| == 0 then []
    else [TitleChar(afterWord, s[0])] + TitleFrom(IsWordChar(s[0]), s[1..])
  }

  /** `toTitle`: hyphens become spaces and the first character of every word is
      upper-cased; every other character is kept. */
  function ToTitle(s: string): (r: string)
    ensures |r| == |s|
    ensures '-' !in r
    ensures forall i :: 0 <= i < |s| && s[i] == '-' ==> r[i] == ' '
    ensures forall i :: 0 <= i < |s| && WordStart(s, i) ==> r[i] == Upper(s[i])
    ensures forall i :: 0 <= i < |s| && s[i] != '-' && !WordStart(s, i) ==> r[i] == s[i]
  {
    var r := TitleFrom(false, s);
    forall i | 0 <= i < |s|
      ensures r[i] != '-'
      ensures s[i] == '-' ==> r[i] == ' '
      ensures WordStart(s, i) ==> r[i] == Upper(s[i])
      ensures s[i] != '-' && !WordStart(s, i) ==> r[i] == s[i]
    {
      assert r[i] == TitleChar(if i == 0 then false else IsWordChar(s[i - 1]), s[i]);
    }
    r
  }

  /** Labels are already titles: applying `toTitle` again changes nothing. */
  lemma ToTitleIdempotent(s: string)
    ensures ToTitle(ToTitle(s)) == ToTitle(s)
  {
    var r := ToTitle(s);
    var r2 := ToTitle(r);
    forall i | 0 <= i < |s|
      ensures r2[i] == r[i]
    {
      assert IsWordChar(r[i]) == IsWordChar(s[i]);
      if i > 0 {
        assert IsWordChar(r[i - 1]) == IsWordChar(s[i - 1]);
      }
      assert WordStart(r, i) == WordStart(s, i);
    }
  }

  // ------------------------------------------------------------ search text

  /** The characters `String.prototype.trim` removes: white space and line terminators. */
  predicate IsSpace(c: char) {
    || c == ' ' || c == '\t' || c == '\n' || c == '\r'
    || c == '\U{000B}' || c == '\U{000C}' || c == '\U{00A0}' || c == '\U{1680}'
    || ('\U{2000}' <= c <= '\U{200A}')
    || c == '\U{2028}' || c == '\U{2029}' || c == '\U{202F}' || c == '\U{205F}'
    || c == '\U{3000}' || c == '\U{FEFF}'
  }

  predicate AllSpace(s: string) {
    forall i :: 0 <= i < |s| ==> IsSpace(s[i])
  }

  /** The index of the first non-space character at or after `from`, or `|s|`. */
  function SkipSpaces(s: string, from: nat): (i: nat)
    requires from <= |s|
    ensures from <= i <= |s|
    ensures forall k :: from <= k < i ==> IsSpace(s[k])
    ensures i < |s| ==> !IsSpace(s[i])
    decreases |s| - from
  {
    if from == |s| || !IsSpace(s[from]) then from else SkipSpaces(s, from + 1)
  }

  /** The end of `s[lo..upto]` once the white space that ends it is dropped. */
  function DropTrailingSpaces(s: string, lo: nat, upto: nat): (j: nat)
    requires lo <= upto <= |s|
    ensures lo <= j <= upto
    ensures forall k :: j <= k < upto ==> IsSpace(s[k])
    ensures j > lo ==> !IsSpace(s[j - 1])
    decreases upto
  {
    if upto == lo || !IsSpace(s[upto - 1]) then upto else DropTrailingSpaces(s, lo, upto - 1)
  }

  /** `s.trim()`: the slice of `s` left after removing leading and trailing white space. */
  function Trim(s: string): (r: string)
    ensures exists i, j :: && 0 <= i <= j <= |s| && r == s[i..j]
                           && (forall k :: 0 <= k < i ==> IsSpace(s[k]))
                           && (forall k :: j <= k < |s| ==> IsSpace(s[k]))
    ensures |r| > 0 ==> !IsSpace(r[0]) && !IsSpace(r[|r| - 1])
  {
    var i := SkipSpaces(s, 0);
    var j := DropTrailingSpaces(s, i, |s|);
    s[i..j]
  }

  /** The trimmed text is empty exactly when the text is all white space. */
  lemma TrimEmptyIffAllSpace(s: string)
    ensures Trim(s) == "" <==> AllSpace(s)
  {
    var i, j :| && 0 <= i <= j <= |s| && Trim(s) == s[i..j]
                && (forall k :: 0 <= k < i ==> IsSpace(s[k]))
                && (forall k :: j <= k < |s| ==> IsSpace(s[k]));
    if Trim(s) != "" {
      assert !IsSpace(s[i]);
    }
  }

  function LowerChar(c: char): char {
    if 'A' <= c <= 'Z' then (c as int + 32) as char else c
  }

  /** `s.toLowerCase()` on the ASCII letters. */
  function Lower(s: string): (r: string)
    ensures |r| == |s|
    ensures forall i :: 0 <= i < |s| ==> r[i] == LowerChar(s[i])
  {
    if |s| == 0 then [] else [LowerChar(s[0])] + Lower(s[1..])
  }

  /** `q` occurs in `s` starting at position `i`. */
  predicate OccursAt(s: string, q: string, i: int) {
    0 <= i && i + |q| <= |s| && s[i..i + |q|] == q
  }

  /** `q` occurs in `s` at some position `from` or later. */
  function OccursFrom(s: string, q: string, from: nat): (r: bool)
    ensures r <==> exists i :: from <= i && OccursAt(s, q, i)
    decreases |s| - from
  {
    if OccursAt(s, q, from) then true
    else if from >= |s| then false
    else OccursFrom(s, q, from + 1)
  }

  /** `s.includes(q)`: `q` occurs as a contiguous piece of `s`. */
  function Contains(s: string, q: string): (r: bool)
    ensures r <==> exists i :: OccursAt(s, q, i)
  {
    OccursFrom(s, q, 0)
  }

  // --------------------------------------------------------------- ordering

  /** Lexicographic order on character codes, standing for `localeCompare(...) <= 0`. */
  predicate LexLe(a: string, b: string) {
    |a| == 0 || (|b| > 0 && (a[0] < b[0] || (a[0] == b[0] && LexLe(a[1..], b[1..]))))
  }

  lemma {:induction false} LexLeTotal(a: string, b: string)
    ensures LexLe(a, b) || LexLe(b, a)
  {
    if |a| > 0 && |b| > 0 && a[0] == b[0] {
      LexLeTotal(a[1..], b[1..]);
    }
  }

  lemma {:induction false} LexLeTransitive(a: string, b: string, c: string)
    requires LexLe(a, b) && LexLe(b, c)
    ensures LexLe(a, c)
  {
    if |a| > 0 && a[0] == b[0] && b[0] == c[0] {
      LexLeTransitive(a[1..], b[1..], c[1..]);
    }
  }
}

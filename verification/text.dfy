/**
  The Python built-in string operations that the order-text cleaner relies on:
  `str.strip`, `str.split(sep)` and `int(s)` on a run of decimal digits, with
  the whitespace notion (`str.isspace`) that `strip` and the pattern's `\s`
  use. `sep.join(parts)` is here only as the inverse of `split`, to state its
  round trips; the cleaner never joins. Characters are restricted to the ASCII
  range wherever Python's notion depends on Unicode tables (whitespace, digits).
*/
module PyText {

  /** The ASCII characters for which Python's `str.isspace()` holds; the regular
      expression class `\s` of a `str` pattern matches exactly the same ones. */
  predicate IsSpace(c: char) {
    c == ' ' || c == '\t' || c == '\n' || c == '\r' || c == '\U{0B}' || c == '\U{0C}'
    || ('\U{1C}' <= c <= '\U{1F}')
  }

  /** The regular expression class `\d`, restricted to ASCII. */
  predicate IsDigit(c: char) {
    '0' <= c <= '9'
  }

  predicate AllSpace(s: string) {
    forall k :: 0 <= k < |s| ==> IsSpace(s[k])
  }

  predicate AllDigits(s: string) {
    forall k :: 0 <= k < |s| ==> IsDigit(s[k])
  }

  /** A string with no leading and no trailing whitespace. */
  predicate IsStripped(s: string) {
    s == [] || (!IsSpace(s[0]) && !IsSpace(s[|s| - 1]))
  }

  /** The number of leading whitespace characters of `s`. */
  function LeadingSpaces(s: string): (n: nat)
    ensures n <= |s|
    ensures n < |s| ==> !IsSpace(s[n])
  {
    if |s| > 0 && IsSpace(s[0]) then LeadingSpaces(s[1..]) + 1 else 0
  }

  /** What `LeadingSpaces` skips is all whitespace. */
  lemma {:induction false} LeadingSpacesAreSpace(s: string)
    ensures forall k :: 0 <= k < LeadingSpaces(s) ==> IsSpace(s[k])
  {
    if |s| > 0 && IsSpace(s[0]) {
      LeadingSpacesAreSpace(s[1..]);
      forall k | 0 < k < LeadingSpaces(s) ensures IsSpace(s[k]) {
        assert s[k] == s[1..][k - 1];
      }
    }
  }

  /** `s.lstrip()`: `s` without its leading whitespace. */
  function TrimStart(s: string): (r: string)
    ensures r == [] || !IsSpace(r[0])
  {
    s[LeadingSpaces(s)..]
  }

  /** The number of trailing whitespace characters of `s`. */
  function TrailingSpaces(s: string): (n: nat)
    ensures n <= |s|
    ensures n < |s| ==> !IsSpace(s[|s| - n - 1])
  {
    if |s| > 0 && IsSpace(s[|s| - 1]) then TrailingSpaces(s[..|s| - 1]) + 1 else 0
  }

  /** What `TrailingSpaces` skips is all whitespace. */
  lemma {:induction false} TrailingSpacesAreSpace(s: string)
    ensures forall k :: |s| - TrailingSpaces(s) <= k < |s| ==> IsSpace(s[k])
  {
    if |s| > 0 && IsSpace(s[|s| - 1]) {
      TrailingSpacesAreSpace(s[..|s| - 1]);
      forall k | |s| - TrailingSpaces(s) <= k < |s| - 1 ensures IsSpace(s[k]) {
        assert s[k] == s[..|s| - 1][k];
      }
    }
  }

  /** `s.rstrip()`: `s` without its trailing whitespace. */
  function TrimEnd(s: string): (r: string)
    ensures r == [] || !IsSpace(r[|r| - 1])
  {
    s[..|s| - TrailingSpaces(s)]
  }

  /** `s.strip()`: `s` without its leading and trailing whitespace. */
  function Strip(s: string): (r: string)
    ensures IsStripped(r)
    ensures IsStripped(s) ==> r == s
  {
    var t := TrimStart(s);
    var r := TrimEnd(t);
    assert r == [] || r[0] == t[0];
    r
  }

  /** A string strips to nothing exactly when it is all whitespace. */
  lemma StripEmpty(s: string)
    ensures Strip(s) == [] <==> AllSpace(s)
  {
    var i := LeadingSpaces(s);
    var t := TrimStart(s);
    LeadingSpacesAreSpace(s);
    if i < |s| {
      TrailingSpacesAreSpace(t);
      assert t[0] == s[i];
    } else {
      assert s[..i] == s;
    }
  }

  /** `lstrip` removes exactly a leading run of whitespace. */
  lemma {:induction false} TrimStartPadded(pre: string, t: string)
    requires AllSpace(pre) && (t == [] || !IsSpace(t[0]))
    ensures LeadingSpaces(pre + t) == |pre|
    ensures TrimStart(pre + t) == t
  {
    if |pre| > 0 {
      TrimStartPadded(pre[1..], t);
      assert (pre + t)[1..] == pre[1..] + t;
    } else {
      assert pre + t == t;
    }
  }

  /** `rstrip` removes exactly a trailing run of whitespace. */
  lemma {:induction false} TrimEndPadded(t: string, post: string)
    requires AllSpace(post) && (t == [] || !IsSpace(t[|t| - 1]))
    ensures TrailingSpaces(t + post) == |post|
    ensures TrimEnd(t + post) == t
  {
    if |post| > 0 {
      var init := post[..|post| - 1];
      TrimEndPadded(t, init);
      assert (t + post)[..|t + post| - 1] == t + init;
    } else {
      assert t + post == t;
    }
  }

  /** `strip` removes exactly the surrounding whitespace: a stripped text padded
      with whitespace on both sides strips back to itself. */
  lemma StripPadded(pre: string, s: string, post: string)
    requires AllSpace(pre) && AllSpace(post) && IsStripped(s)
    ensures Strip(pre + s + post) == s
  {
    if s == [] {
      var t := pre + s + post;
      forall k | 0 <= k < |t| ensures IsSpace(t[k]) {
        if k < |pre| { assert t[k] == pre[k]; } else { assert t[k] == post[k - |pre|]; }
      }
      StripEmpty(t);
    } else {
      assert pre + s + post == pre + (s + post);
      TrimStartPadded(pre, s + post);
      TrimEndPadded(s, post);
    }
  }

  /** Trailing whitespace after a non-empty stripped text strips away. */
  lemma StripTrailing(s: string, post: string)
    requires AllSpace(post) && s != [] && IsStripped(s)
    ensures Strip(s + post) == s
  {
    assert [] + (s + post) == s + post;
    TrimStartPadded([], s + post);
    TrimEndPadded(s, post);
  }

  /** Stripping adds no character: one absent from `s` is absent from `Strip(s)`. */
  lemma StripAvoids(s: string, c: char)
    requires c !in s
    ensures c !in Strip(s)
  {
  }

  /** The position of the first `sep` in `s`, or `|s|` when there is none. */
  function IndexOf(s: string, sep: char): (i: nat)
    ensures i <= |s|
    ensures i < |s| ==> s[i] == sep
  {
    if |s| == 0 || s[0] == sep then 0 else IndexOf(s[1..], sep) + 1
  }

  /** There is no `sep` before `IndexOf(s, sep)`: it is the first one. */
  lemma {:induction false} IndexOfFirst(s: string, sep: char)
    ensures sep !in s[..IndexOf(s, sep)]
  {
    if |s| > 0 && s[0] != sep {
      var m := IndexOf(s[1..], sep);
      IndexOfFirst(s[1..], sep);
      assert s[..m + 1] == [s[0]] + s[1..][..m];
    }
  }

  /** A separator with none before it is the one `IndexOf` finds. */
  lemma IndexOfAt(s: string, sep: char, i: nat)
    requires i < |s| && s[i] == sep && sep !in s[..i]
    ensures IndexOf(s, sep) == i
  {
    IndexOfFirst(s, sep);
  }

  /** `s.split(sep)` for a one-character separator: the maximal runs of `s`
      between separators, always at least one (possibly empty) piece. */
  function Split(s: string, sep: char): (parts: seq<string>)
    ensures |parts| >= 1
    decreases |s|
  {
    var i := IndexOf(s, sep);
    if i == |s| then [s] else [s[..i]] + Split(s[i + 1..], sep)
  }

  /** No piece of a split holds the separator. */
  lemma {:induction false} SplitPiecesFree(s: string, sep: char)
    ensures forall k :: 0 <= k < |Split(s, sep)| ==> sep !in Split(s, sep)[k]
    decreases |s|
  {
    var i := IndexOf(s, sep);
    IndexOfFirst(s, sep);
    if i < |s| {
      SplitPiecesFree(s[i + 1..], sep);
    } else {
      assert s[..i] == s;
    }
  }

  /** A trailing separator adds one empty piece at the end. */
  lemma {:induction false} SplitTrailing(s: string, sep: char)
    ensures Split(s + [sep], sep) == Split(s, sep) + [[]]
    decreases |s|
  {
    var t := s + [sep];
    var i := IndexOf(s, sep);
    IndexOfFirst(s, sep);
    assert t[..i] == s[..i];
    IndexOfAt(t, sep, i);
    if i < |s| {
      assert t[i + 1..] == s[i + 1..] + [sep];
      SplitTrailing(s[i + 1..], sep);
    } else {
      assert t[i + 1..] == [];
      assert s[..i] == s;
    }
  }

  /** `sep.join(parts)`, the inverse of `split` (the cleaner itself never joins). */
  function Join(parts: seq<string>, sep: char): (joined: string)
  {
    if |parts| == 0 then ""
    else if |parts| == 1 then parts[0]
    else parts[0] + [sep] + Join(parts[1..], sep)
  }

  /** Joining the pieces of a split gives back the original string. */
  lemma {:induction false} JoinSplit(s: string, sep: char)
    ensures Join(Split(s, sep), sep) == s
    decreases |s|
  {
    var i := IndexOf(s, sep);
    if i < |s| {
      var rest := Split(s[i + 1..], sep);
      JoinSplit(s[i + 1..], sep);
      var parts := [s[..i]] + rest;
      assert parts[1..] == rest;
      assert s == s[..i] + [sep] + s[i + 1..];
    }
  }

  /** A string without the separator splits into itself alone. */
  lemma SplitFree(s: string, sep: char)
    requires sep !in s
    ensures Split(s, sep) == [s]
  {
  }

  /** The text before the first separator is the first piece; the rest is
      split on its own. */
  lemma SplitHead(p: string, t: string, sep: char)
    requires sep !in p
    ensures Split(p + [sep] + t, sep) == [p] + Split(t, sep)
  {
    var s := p + [sep] + t;
    var i := IndexOf(s, sep);
    IndexOfFirst(s, sep);
    assert s[..|p|] == p;
    assert s[|p|] == sep;
    assert i == |p|;
    assert s[i + 1..] == t;
  }

  /** Splitting a join of separator-free pieces gives back the pieces. */
  lemma {:induction false} SplitJoin(parts: seq<string>, sep: char)
    requires |parts| >= 1
    requires forall k :: 0 <= k < |parts| ==> sep !in parts[k]
    ensures Split(Join(parts, sep), sep) == parts
  {
    if |parts| == 1 {
      SplitFree(parts[0], sep);
    } else {
      SplitJoin(parts[1..], sep);
      SplitHead(parts[0], Join(parts[1..], sep), sep);
      assert parts == [parts[0]] + parts[1..];
    }
  }

  /** The value of one ASCII decimal digit. */
  function DigitValue(c: char): (v: nat)
    requires IsDigit(c)
    ensures v < 10
  {
    c as int - '0' as int
  }

  function Pow10(n: nat): (p: nat)
    ensures p >= 1
  {
    if n == 0 then 1 else 10 * Pow10(n - 1)
  }

  /** `int(d)` for a string of ASCII decimal digits (leading zeros allowed), without
      the interpreter's limit on the number of digits. */
  function DecimalValue(d: string): (n: nat)
    requires AllDigits(d)
    ensures n < Pow10(|d|)
  {
    if |d| == 0 then 0
    else
      var m := DecimalValue(d[..|d| - 1]);
      assert m * 10 <= (Pow10(|d| - 1) - 1) * 10;
      m * 10 + DigitValue(d[|d| - 1])
  }

  /** The ASCII digit of a value below ten. */
  function DigitChar(v: nat): (c: char)
    requires v < 10
    ensures IsDigit(c) && DigitValue(c) == v
  {
    (v + '0' as int) as char
  }

  /** `str(n)`: the canonical decimal rendering of `n`, without leading zeros. */
  function Decimal(n: nat): (d: string)
    ensures |d| >= 1 && AllDigits(d)
    ensures |d| > 1 ==> d[0] != '0'
  {
    if n < 10 then [DigitChar(n)] else Decimal(n / 10) + [DigitChar(n % 10)]
  }

  /** `int(str(n)) == n`: reading back a rendered number gives the number. */
  lemma {:induction false} DecimalRoundTrip(n: nat)
    ensures DecimalValue(Decimal(n)) == n
  {
    if n >= 10 {
      DecimalRoundTrip(n / 10);
      var d := Decimal(n);
      assert d[..|d| - 1] == Decimal(n / 10);
    }
  }

  /** Leading zeros do not change the value `int` reads. */
  lemma {:induction false} LeadingZero(d: string)
    requires AllDigits(d)
    ensures AllDigits("0" + d) && DecimalValue("0" + d) == DecimalValue(d)
  {
    if |d| > 0 {
      LeadingZero(d[..|d| - 1]);
      assert ("0" + d)[..|d|] == "0" + d[..|d| - 1];
    }
  }
}

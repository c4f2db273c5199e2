/**
 * The few operations of Rust's `str` that the five programs rely on, over
 * `string` (a sequence of `char`, one `char` per Unicode scalar value).
 * Indices are character indices; on the ASCII text these programs read
 * they coincide with Rust's byte indices.
 */
module Strings {
  import opened Wrappers

  /** Largest value of Rust's `usize` on a 64-bit target. */
  const USIZE_MAX: nat := 0xFFFF_FFFF_FFFF_FFFF

  // ---------------------------------------------------------------------
  // Whitespace, tokens and trimming
  // ---------------------------------------------------------------------

  /** `char::is_whitespace`: the characters with Unicode's White_Space property. */
  predicate IsWhitespace(c: char) {
    ('\t' <= c <= '\r') || c == ' ' || c == '\U{85}' || c == '\U{A0}' || c == '\U{1680}'
    || ('\U{2000}' <= c <= '\U{200A}') || c == '\U{2028}' || c == '\U{2029}'
    || c == '\U{202F}' || c == '\U{205F}' || c == '\U{3000}'
  }

  predicate NoWhitespace(s: string) {
    forall i :: 0 <= i < |s| ==> !IsWhitespace(s[i])
  }

  /** A token of `split_whitespace`: non-empty and free of whitespace. */
  predicate IsToken(s: string) {
    |s| > 0 && NoWhitespace(s)
  }

  /** The number of whitespace characters `s` starts with. */
  function LeadingWhitespace(s: string): (n: nat)
    ensures n <= |s|
    ensures n == |s| || !IsWhitespace(s[n])
  {
    if s != [] && IsWhitespace(s[0]) then
      var n := LeadingWhitespace(s[1..]);
      assert n < |s| - 1 ==> s[1..][n] == s[n + 1];
      1 + n
    else 0
  }

  /** `trim_start`: drops the leading whitespace. */
  function TrimStart(s: string): string {
    s[LeadingWhitespace(s)..]
  }

  /** The number of whitespace characters `s` ends with. */
  function TrailingWhitespace(s: string): (n: nat)
    ensures n <= |s|
    ensures n == |s| || !IsWhitespace(s[|s| - n - 1])
  {
    if s != [] && IsWhitespace(s[|s| - 1]) then
      var n := TrailingWhitespace(s[..|s| - 1]);
      assert n < |s| - 1 ==> s[..|s| - 1][|s| - 1 - n - 1] == s[|s| - n - 2];
      1 + n
    else 0
  }

  /** `trim_end`: drops the trailing whitespace. */
  function TrimEnd(s: string): string {
    s[..|s| - TrailingWhitespace(s)]
  }

  /** What `trim_end` keeps: a prefix that does not end in whitespace. */
  lemma TrimEndPrefix(s: string)
    ensures var r := TrimEnd(s); |r| <= |s| && r == s[..|r|] && (r == [] || !IsWhitespace(r[|r| - 1]))
  {
  }

  /** `trim`: drops whitespace at both ends. */
  function Trim(s: string): string {
    TrimStart(TrimEnd(s))
  }

  /** Length of the longest prefix of `s` without whitespace. */
  function WordLength(s: string): (n: nat)
    ensures n <= |s| && NoWhitespace(s[..n])
    ensures n == |s| || IsWhitespace(s[n])
  {
    if s == [] || IsWhitespace(s[0]) then 0
    else
      var n := 1 + WordLength(s[1..]);
      assert s[..n] == [s[0]] + s[1..][..n - 1];
      n
  }

  /** `split_whitespace`: the maximal whitespace-free runs of `s`, in order. */
  function SplitWhitespace(s: string): seq<string>
    decreases |s|
  {
    var t := TrimStart(s);
    if t == [] then []
    else
      var n := WordLength(t);
      [t[..n]] + SplitWhitespace(t[n..])
  }

  /** Every piece `split_whitespace` yields is a token. */
  lemma {:induction false} SplitWhitespaceTokens(s: string)
    ensures forall i :: 0 <= i < |SplitWhitespace(s)| ==> IsToken(SplitWhitespace(s)[i])
    decreases |s|
  {
    var t := TrimStart(s);
    if t != [] {
      var n := WordLength(t);
      SplitWhitespaceTokens(t[n..]);
      var w, rest := t[..n], SplitWhitespace(t[n..]);
      var r := SplitWhitespace(s);
      assert r == [w] + rest;
      forall i | 0 <= i < |r| ensures IsToken(r[i]) {
        if i == 0 {
          assert r[0] == w;
        } else {
          assert r[i] == rest[i - 1];
        }
      }
    }
  }

  /** `parts.join(sep)`. */
  function Join(parts: seq<string>, sep: string): (r: string)
  {
    if |parts| == 0 then []
    else if |parts| == 1 then parts[0]
    else parts[0] + sep + Join(parts[1..], sep)
  }

  lemma {:induction false} WordLengthOfToken(w: string, rest: string)
    requires NoWhitespace(w)
    requires rest == [] || IsWhitespace(rest[0])
    ensures WordLength(w + rest) == |w|
    decreases |w|
  {
    if w != [] {
      assert (w + rest)[0] == w[0];
      assert (w + rest)[1..] == w[1..] + rest;
      WordLengthOfToken(w[1..], rest);
    } else {
      assert w + rest == rest;
    }
  }

  /** A token followed by whitespace (or nothing) is split off first. */
  lemma SplitAfterToken(w: string, rest: string)
    requires IsToken(w)
    requires rest == [] || IsWhitespace(rest[0])
    ensures SplitWhitespace(w + rest) == [w] + SplitWhitespace(rest)
  {
    var s := w + rest;
    assert s[0] == w[0];
    assert TrimStart(s) == s;
    WordLengthOfToken(w, rest);
    assert s[..|w|] == w;
    assert s[|w|..] == rest;
  }

  lemma SplitAfterSpace(rest: string)
    ensures SplitWhitespace(" " + rest) == SplitWhitespace(rest)
  {
    assert (" " + rest)[1..] == rest;
  }

  /**
   * Round trip: splitting tokens joined by single spaces gives the tokens
   * back.
   */
  lemma {:induction false} SplitJoinedTokens(toks: seq<string>)
    requires forall i :: 0 <= i < |toks| ==> IsToken(toks[i])
    ensures SplitWhitespace(Join(toks, " ")) == toks
    decreases |toks|
  {
    if |toks| == 1 {
      var w := toks[0];
      assert Join(toks, " ") == w + [];
      SplitAfterToken(w, []);
      assert SplitWhitespace([]) == [];
    } else if |toks| > 1 {
      var w, tail := toks[0], toks[1..];
      var rest := " " + Join(tail, " ");
      assert Join(toks, " ") == w + rest;
      calc {
        SplitWhitespace(Join(toks, " "));
        { SplitAfterToken(w, rest); }
        [w] + SplitWhitespace(rest);
        { SplitAfterSpace(Join(tail, " ")); }
        [w] + SplitWhitespace(Join(tail, " "));
        { SplitJoinedTokens(tail); }
        [w] + tail;
      }
    }
  }

  // ---------------------------------------------------------------------
  // Prefixes, suffixes, searching
  // ---------------------------------------------------------------------

  /** `s.starts_with(p)`. */
  predicate StartsWith(s: string, p: string) {
    |p| <= |s| && s[..|p|] == p
  }

  /** `s.ends_with(p)`. */
  predicate EndsWith(s: string, p: string) {
    |p| <= |s| && s[|s| - |p|..] == p
  }

  /** `needle` occurs in `s` at position `i`. */
  predicate OccursAt(s: string, needle: string, i: int) {
    0 <= i && i + |needle| <= |s| && s[i..i + |needle|] == needle
  }

  /** `haystack.contains(needle)` for a string needle: a contiguous occurrence. */
  predicate Contains(haystack: string, needle: string)
    decreases |haystack|
  {
    StartsWith(haystack, needle) || (haystack != [] && Contains(haystack[1..], needle))
  }

  /** `Contains` means there is a position at which `needle` occurs. */
  lemma {:induction false} ContainsMeansOccurrence(haystack: string, needle: string)
    ensures Contains(haystack, needle) <==> exists i :: OccursAt(haystack, needle, i)
    decreases |haystack|
  {
    if haystack != [] {
      ContainsMeansOccurrence(haystack[1..], needle);
      if Contains(haystack[1..], needle) {
        var i :| OccursAt(haystack[1..], needle, i);
        assert haystack[i + 1..i + 1 + |needle|] == haystack[1..][i..i + |needle|];
        assert OccursAt(haystack, needle, i + 1);
      }
      if StartsWith(haystack, needle) {
        assert OccursAt(haystack, needle, 0);
      }
      if exists i :: OccursAt(haystack, needle, i) {
        var i :| OccursAt(haystack, needle, i);
        if i > 0 {
          assert haystack[1..][i - 1..i - 1 + |needle|] == haystack[i..i + |needle|];
          assert OccursAt(haystack[1..], needle, i - 1);
        } else {
          assert StartsWith(haystack, needle);
        }
      }
    } else {
      if Contains(haystack, needle) {
        assert OccursAt(haystack, needle, 0);
      }
      if exists i :: OccursAt(haystack, needle, i) {
        var i :| OccursAt(haystack, needle, i);
        assert i == 0 && |needle| == 0;
        assert StartsWith(haystack, needle);
      }
    }
  }

  /** Position of the first `c` in `s`. */
  function IndexOf(s: string, c: char): (i: nat)
    requires c in s
    ensures i < |s| && s[i] == c && c !in s[..i]
  {
    if s[0] == c then 0
    else
      var i := 1 + IndexOf(s[1..], c);
      assert s[..i] == [s[0]] + s[1..][..i - 1];
      i
  }

  /** The first `c` in `s` is the one at `j` when none comes before it. */
  lemma IndexOfAt(s: string, c: char, j: nat)
    requires j < |s| && s[j] == c && c !in s[..j]
    ensures IndexOf(s, c) == j
  {
    if j > 0 {
      assert s[0] == s[..j][0];
      assert s[1..][j - 1] == c;
      assert s[1..][..j - 1] == s[..j][1..];
      IndexOfAt(s[1..], c, j - 1);
    }
  }

  /** `s.split_once(c)`: the text before and after the first `c`. */
  function SplitOnce(s: string, c: char): (r: Option<(string, string)>)
    ensures r.None? <==> c !in s
    ensures r.Some? ==> c !in r.value.0 && r.value.0 + [c] + r.value.1 == s
  {
    if c in s then
      var i := IndexOf(s, c);
      assert s[..i] + [c] + s[i + 1..] == s;
      Some((s[..i], s[i + 1..]))
    else None
  }

  /** `s.trim_start_matches(c)`: drops every leading `c`. */
  function TrimStartMatches(s: string, c: char): (r: string)
    ensures |r| <= |s| && r == s[|s| - |r|..]
    ensures forall i :: 0 <= i < |s| - |r| ==> s[i] == c
    ensures r == [] || r[0] != c
  {
    if s != [] && s[0] == c then TrimStartMatches(s[1..], c) else s
  }

  /**
   * `s.replace(pat, v)` for a non-empty pattern: scans left to right and
   * replaces each non-overlapping occurrence of `pat` by `v`.
   */
  function Replace(s: string, pat: string, v: string): (r: string)
    requires |pat| > 0
    decreases |s|
  {
    if |s| < |pat| then s
    else if s[..|pat|] == pat then v + Replace(s[|pat|..], pat, v)
    else [s[0]] + Replace(s[1..], pat, v)
  }

  /** A string in which `pat` does not occur is left as it is by `Replace`. */
  lemma {:induction false} ReplaceAbsent(s: string, pat: string, v: string)
    requires |pat| > 0 && !Contains(s, pat)
    ensures Replace(s, pat, v) == s
    decreases |s|
  {
    if |s| >= |pat| {
      assert !StartsWith(s, pat);
      ReplaceAbsent(s[1..], pat, v);
      assert [s[0]] + s[1..] == s;
    }
  }

  /** Splits a string at every `c` (the inverse of `Join` with separator `[c]`). */
  function SplitOn(s: string, c: char): (r: seq<string>)
    ensures |r| > 0
    ensures forall i :: 0 <= i < |r| ==> c !in r[i]
    decreases |s|
  {
    if c in s then
      var i := IndexOf(s, c);
      [s[..i]] + SplitOn(s[i + 1..], c)
    else [s]
  }

  /** Round trip: parts without the separator are recovered from their join. */
  lemma {:induction false} SplitOnJoin(parts: seq<string>, c: char)
    requires |parts| > 0
    requires forall i :: 0 <= i < |parts| ==> c !in parts[i]
    ensures SplitOn(Join(parts, [c]), c) == parts
    decreases |parts|
  {
    if |parts| > 1 {
      var s := Join(parts, [c]);
      var p := parts[0];
      assert s == p + [c] + Join(parts[1..], [c]);
      assert s[|p|] == c && c in s;
      assert s[..|p|] == p;
      IndexOfAt(s, c, |p|);
      assert s[|p| + 1..] == Join(parts[1..], [c]);
      SplitOnJoin(parts[1..], c);
    }
  }

  /** The other round trip: joining the pieces of a split gives the string back. */
  lemma {:induction false} JoinSplitOn(s: string, c: char)
    ensures Join(SplitOn(s, c), [c]) == s
    decreases |s|
  {
    if c in s {
      var i := IndexOf(s, c);
      JoinSplitOn(s[i + 1..], c);
      assert s == s[..i] + [c] + s[i + 1..];
    }
  }

  /** The line ends in a carriage return. */
  predicate EndsWithCr(line: string) {
    |line| > 0 && line[|line| - 1] == '\r'
  }

  /** A line without its `\r`, when it ends in one. */
  function StripCr(line: string): (r: string)
    ensures !EndsWithCr(line) ==> r == line
    ensures EndsWithCr(line) ==> r + "\r" == line
  {
    if EndsWithCr(line) then line[..|line| - 1] else line
  }

  /** `StripCr` on every line. */
  function StripCrs(lines: seq<string>): (r: seq<string>)
    ensures |r| == |lines| && forall i :: 0 <= i < |lines| ==> r[i] == StripCr(lines[i])
  {
    if lines == [] then [] else [StripCr(lines[0])] + StripCrs(lines[1..])
  }

  /**
   * `str::lines`: the pieces between line feeds, each without a carriage
   * return just before its line feed; the text after the last line feed is
   * a line only when it is not empty.
   */
  function Lines(s: string): (r: seq<string>)
  {
    var parts := SplitOn(s, '\n');
    var n := |parts| - 1;
    StripCrs(parts[..n]) + (if parts[n] == "" then [] else [parts[n]])
  }

  /** Round trip: lines written out with a line feed after each are read back by `Lines`. */
  lemma LinesOfTerminated(ls: seq<string>)
    requires forall i :: 0 <= i < |ls| ==> '\n' !in ls[i] && !EndsWithCr(ls[i])
    ensures Lines(Join(ls + [""], "\n")) == ls
  {
    var parts := ls + [""];
    TerminatedParts(ls, parts);
    SplitOnJoin(parts, '\n');
    LinesOfParts(ls, parts);
  }

  /** No piece of `ls + [""]` holds a line feed when no line of `ls` does. */
  lemma TerminatedParts(ls: seq<string>, parts: seq<string>)
    requires forall i :: 0 <= i < |ls| ==> '\n' !in ls[i]
    requires parts == ls + [""]
    ensures forall i :: 0 <= i < |parts| ==> '\n' !in parts[i]
  {
    assert forall i :: 0 <= i < |ls| ==> parts[i] == ls[i];
  }

  /** The pieces `ls + [""]` are turned back into `ls` by `Lines`. */
  lemma LinesOfParts(ls: seq<string>, parts: seq<string>)
    requires forall i :: 0 <= i < |ls| ==> !EndsWithCr(ls[i])
    requires parts == ls + [""]
    ensures var n := |parts| - 1; StripCrs(parts[..n]) + (if parts[n] == "" then [] else [parts[n]]) == ls
  {
    assert parts[..|ls|] == ls;
    assert StripCrs(ls) == ls;
  }

  // ---------------------------------------------------------------------
  // Decimal numbers
  // ---------------------------------------------------------------------

  predicate IsDigit(c: char) {
    '0' <= c <= '9'
  }

  predicate AllDigits(s: string) {
    forall i :: 0 <= i < |s| ==> IsDigit(s[i])
  }

  function DigitValue(c: char): (d: nat)
    requires IsDigit(c)
    ensures d < 10
  {
    (c as int - '0' as int) as nat
  }

  /** The value of a digit string, most significant digit first. */
  function DigitsValue(s: string): nat
    requires AllDigits(s)
  {
    if s == [] then 0 else DigitsValue(s[..|s| - 1]) * 10 + DigitValue(s[|s| - 1])
  }

  /**
   * `s.parse::<usize>()`: an optional `+`, then one or more ASCII digits,
   * whose value must fit in a `usize`; anything else fails.
   */
  function ParseUsize(s: string): (r: Option<nat>)
    ensures r.Some? ==> r.value <= USIZE_MAX
    ensures r.Some? ==> |s| > 0
  {
    var digits := if |s| > 0 && s[0] == '+' then s[1..] else s;
    if digits != [] && AllDigits(digits) && DigitsValue(digits) <= USIZE_MAX
    then Some(DigitsValue(digits)) else None
  }

  function DigitChar(d: nat): (c: char)
    requires d < 10
    ensures IsDigit(c) && DigitValue(c) == d
  {
    ('0' as int + d) as char
  }

  /** `n.to_string()`: the decimal digits of `n` without leading zeros. */
  function NatToDecimal(n: nat): (s: string)
    ensures |s| > 0 && AllDigits(s)
    ensures |s| > 1 ==> s[0] != '0'
  {
    if n < 10 then [DigitChar(n)] else NatToDecimal(n / 10) + [DigitChar(n % 10)]
  }

  lemma {:induction false} DecimalValue(n: nat)
    ensures DigitsValue(NatToDecimal(n)) == n
  {
    if n >= 10 {
      var s := NatToDecimal(n);
      assert s[..|s| - 1] == NatToDecimal(n / 10);
      DecimalValue(n / 10);
    }
  }

  /** Round trip: parsing the decimal rendering of a `usize` gives it back. */
  lemma ParseDecimal(n: nat)
    requires n <= USIZE_MAX
    ensures ParseUsize(NatToDecimal(n)) == Some(n)
  {
    DecimalValue(n);
  }

  /** A parsed numeral is below the power of ten of its length. */
  lemma ParseUsizeBound(s: string)
    requires ParseUsize(s).Some?
    ensures ParseUsize(s).value < Pow10(|s|)
  {
    var digits := if s[0] == '+' then s[1..] else s;
    DigitsValueBound(digits);
    Pow10Mono(|digits|, |s|);
  }

  /** A non-empty run of at most three digits always parses, to its value. */
  lemma ParseShortDigits(s: string)
    requires 0 < |s| <= 3 && AllDigits(s)
    ensures ParseUsize(s) == Some(DigitsValue(s))
  {
    DigitsValueBound(s);
    Pow10Mono(|s|, 3);
  }

  // ---------------------------------------------------------------------
  // Digit slices of a decimal rendering
  // ---------------------------------------------------------------------

  function Pow10(k: nat): (p: nat)
    ensures p >= 1
  {
    if k == 0 then 1 else 10 * Pow10(k - 1)
  }

  lemma {:induction false} Pow10Mono(a: nat, b: nat)
    requires a <= b
    ensures Pow10(a) <= Pow10(b)
    decreases b
  {
    if a < b {
      Pow10Mono(a, b - 1);
    }
  }

  /** The number of digits of `n` is the `L` with `10^(L-1) <= n < 10^L` (or 1 for 0). */
  lemma {:induction false} DecimalLength(n: nat)
    ensures var len := |NatToDecimal(n)|;
      n < Pow10(len) && (len > 1 ==> Pow10(len - 1) <= n)
  {
    if n >= 10 {
      DecimalLength(n / 10);
      assert |NatToDecimal(n)| == |NatToDecimal(n / 10)| + 1;
    }
  }

  lemma DigitsValueBound(s: string)
    requires AllDigits(s)
    ensures DigitsValue(s) < Pow10(|s|)
    decreases |s|
  {
    if s != [] {
      DigitsValueBound(s[..|s| - 1]);
    }
  }

  /** `n / 10^j`, by repeated division by ten. */
  function DropDigits(n: nat, j: nat): nat {
    if j == 0 then n else DropDigits(n / 10, j - 1)
  }

  /** `n % 10^k`, the number formed by the last `k` digits of `n`. */
  function LowDigits(n: nat, k: nat): nat {
    if k == 0 then 0 else LowDigits(n / 10, k - 1) * 10 + n % 10
  }

  /** Dropping the last `j` digits of a rendering renders `n / 10^j`. */
  lemma {:induction false} DecimalPrefix(n: nat, j: nat)
    requires j < |NatToDecimal(n)|
    ensures NatToDecimal(n)[..|NatToDecimal(n)| - j] == NatToDecimal(DropDigits(n, j))
    decreases j
  {
    var s := NatToDecimal(n);
    if j == 0 {
      assert s[..|s|] == s;
    } else {
      assert n >= 10;
      var t := NatToDecimal(n / 10);
      assert s == t + [DigitChar(n % 10)];
      DecimalPrefix(n / 10, j - 1);
      assert s[..|s| - j] == t[..|t| - (j - 1)];
    }
  }

  /** The last `k` digits of a rendering, read as a number, are `n % 10^k`. */
  lemma {:induction false} DecimalSuffix(n: nat, k: nat)
    requires k <= |NatToDecimal(n)|
    ensures var s := NatToDecimal(n);
      AllDigits(s[|s| - k..]) && DigitsValue(s[|s| - k..]) == LowDigits(n, k)
    decreases k
  {
    var s := NatToDecimal(n);
    if k == 0 {
      assert s[|s| - k..] == [];
    } else if n < 10 {
      DigitSuffix(n);
    } else {
      DecimalSuffix(n / 10, k - 1);
      DecimalSuffixStep(n, k);
    }
  }

  /** A one-digit number is its own last digit. */
  lemma DigitSuffix(n: nat)
    requires n < 10
    ensures var s := NatToDecimal(n); AllDigits(s[|s| - 1..]) && DigitsValue(s[|s| - 1..]) == LowDigits(n, 1)
  {
    var s := NatToDecimal(n);
    assert s[|s| - 1..] == s == [DigitChar(n)];
    assert s[..0] == [];
    assert DigitsValue(s) == DigitsValue(s[..0]) * 10 + DigitValue(s[0]) == n;
    assert LowDigits(n, 1) == LowDigits(n / 10, 0) * 10 + n % 10 == n;
  }

  /** The step of `DecimalSuffix`: from the last `k - 1` digits of `n / 10` to the last `k` of `n`. */
  lemma DecimalSuffixStep(n: nat, k: nat)
    requires n >= 10 && 0 < k <= |NatToDecimal(n)|
    requires var t := NatToDecimal(n / 10);
      k - 1 <= |t| && AllDigits(t[|t| - (k - 1)..]) && DigitsValue(t[|t| - (k - 1)..]) == LowDigits(n / 10, k - 1)
    ensures var s := NatToDecimal(n); AllDigits(s[|s| - k..]) && DigitsValue(s[|s| - k..]) == LowDigits(n, k)
  {
    var s := NatToDecimal(n);
    var t, c := NatToDecimal(n / 10), DigitChar(n % 10);
    assert s == t + [c];
    SuffixValue(t, c, k);
    var x := DigitsValue(t[|t| - (k - 1)..]);
    assert DigitsValue(s[|s| - k..]) == x * 10 + n % 10;
    assert LowDigits(n, k) == x * 10 + n % 10;
  }

  /** The last `k` digits of `t + [c]`, read as a number: the last `k - 1` of `t`, then `c`. */
  lemma SuffixValue(t: string, c: char, k: nat)
    requires AllDigits(t) && IsDigit(c) && 0 < k <= |t| + 1
    ensures var s := t + [c];
      AllDigits(s[|s| - k..]) && DigitsValue(s[|s| - k..]) == DigitsValue(t[|t| - (k - 1)..]) * 10 + DigitValue(c)
  {
    var s := t + [c];
    var u := s[|s| - k..];
    assert u[..|u| - 1] == t[|t| - (k - 1)..];
  }

  /**
   * The digits `i..j` of the rendering of `n`, read as a number: drop the
   * digits after position `j`, then keep the last `j - i`.
   */
  lemma SliceValue(n: nat, i: nat, j: nat)
    requires i <= j && 0 < j <= |NatToDecimal(n)|
    ensures var s := NatToDecimal(n);
      AllDigits(s[i..j]) && DigitsValue(s[i..j]) == LowDigits(DropDigits(n, |s| - j), j - i)
  {
    var s := NatToDecimal(n);
    DecimalPrefix(n, |s| - j);
    var m := DropDigits(n, |s| - j);
    DecimalSuffix(m, j - i);
    SliceDigits(s, NatToDecimal(m), i, j, LowDigits(m, j - i));
  }

  /** A slice ending at `j` reads as the same digits as the suffix of the prefix of length `j`. */
  lemma SliceDigits(s: string, t: string, i: nat, j: nat, x: nat)
    requires i <= j <= |s| && t == s[..j]
    requires AllDigits(t[|t| - (j - i)..]) && DigitsValue(t[|t| - (j - i)..]) == x
    ensures AllDigits(s[i..j]) && DigitsValue(s[i..j]) == x
  {
    assert s[i..j] == t[|t| - (j - i)..];
  }

  /** A slice ending at `j` is a suffix of the prefix of length `j`. */
  lemma SliceOfPrefix(s: string, t: string, i: nat, j: nat)
    requires i <= j <= |s| && t == s[..j]
    ensures s[i..j] == t[|t| - (j - i)..]
  {
  }
}

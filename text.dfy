/**
 * Bytes, characters and the few operations on text of Rust's standard
 * library that the crate relies on: `trim`, `split_whitespace`,
 * `starts_with`, `ends_with`, `contains` and lowercasing.
 *
 * Every byte of a file stands for one character (its code point is the byte
 * value); UTF-8 decoding and validation are not part of this model, and
 * whitespace and case are those of ASCII.
 */
module Text {
  /** One byte of a file's contents. */
  type Byte = b: int | 0 <= b < 256

  /** The text of a byte string, one character per byte. */
  function Chars(bs: seq<Byte>): (s: string)
    ensures |s| == |bs|
    ensures forall k :: 0 <= k < |bs| ==> s[k] as int == bs[k]
  {
    seq(|bs|, k requires 0 <= k < |bs| => bs[k] as char)
  }

  /** `char::is_whitespace` on ASCII: tab, line feed, vertical tab, form feed, carriage return, space. */
  predicate IsWhitespace(c: char) {
    c == ' ' || 9 <= c as int <= 13
  }

  predicate NoWhitespace(s: string) {
    forall k :: 0 <= k < |s| ==> !IsWhitespace(s[k])
  }

  /** Where the leading whitespace from `p` on ends: the first other character, or the end. */
  function LeadEnd(s: string, p: nat): (a: nat)
    requires p <= |s|
    ensures p <= a <= |s|
    ensures forall k :: p <= k < a ==> IsWhitespace(s[k])
    ensures a < |s| ==> !IsWhitespace(s[a])
    decreases |s| - p
  {
    if p < |s| && IsWhitespace(s[p]) then LeadEnd(s, p + 1) else p
  }

  /** Where the trailing whitespace before `b` starts, looking no further back than `a`. */
  function TrailStart(s: string, a: nat, b: nat): (q: nat)
    requires a <= b <= |s|
    ensures a <= q <= b
    ensures forall k :: q <= k < b ==> IsWhitespace(s[k])
    ensures q > a ==> !IsWhitespace(s[q - 1])
    decreases b - a
  {
    if b > a && IsWhitespace(s[b - 1]) then TrailStart(s, a, b - 1) else b
  }

  /**
   * `str::trim`: the slice of `s` between its leading and its trailing
   * whitespace; inner characters, whitespace included, are kept.
   */
  function Trim(s: string): (r: string)
    ensures var a := LeadEnd(s, 0); a + |r| <= |s| && r == s[a..a + |r|]
    ensures forall k :: 0 <= k < LeadEnd(s, 0) ==> IsWhitespace(s[k])
    ensures forall k :: LeadEnd(s, 0) + |r| <= k < |s| ==> IsWhitespace(s[k])
    ensures r != [] ==> !IsWhitespace(r[0]) && !IsWhitespace(r[|r| - 1])
  {
    var a := LeadEnd(s, 0);
    s[a..TrailStart(s, a, |s|)]
  }

  /** A slice is the slices it is cut into. */
  lemma SliceJoin<T>(s: seq<T>, a: nat, b: nat, c: nat)
    requires a <= b <= c <= |s|
    ensures s[a..c] == s[a..b] + s[b..c]
  {
  }

  /** The first whitespace position at or after `p`, or the end of `s`. */
  function WordEnd(s: string, p: nat): (q: nat)
    requires p <= |s|
    ensures p <= q <= |s|
    ensures NoWhitespace(s[p..q])
    ensures q < |s| ==> IsWhitespace(s[q])
    decreases |s| - p
  {
    if p < |s| && !IsWhitespace(s[p]) then WordEnd(s, p + 1) else p
  }

  /** The words of `s` from position `p` on. */
  function WordsFrom(s: string, p: nat): (words: seq<string>)
    requires p <= |s|
    ensures forall k :: 0 <= k < |words| ==> words[k] != [] && NoWhitespace(words[k])
    decreases |s| - p
  {
    if p == |s| then []
    else if IsWhitespace(s[p]) then WordsFrom(s, p + 1)
    else
      var q := WordEnd(s, p);
      [s[p..q]] + WordsFrom(s, q)
  }

  /** `str::split_whitespace`: the maximal runs of non-whitespace characters, in order. */
  function SplitWhitespace(s: string): (words: seq<string>)
    ensures forall k :: 0 <= k < |words| ==> words[k] != [] && NoWhitespace(words[k])
  {
    WordsFrom(s, 0)
  }

  predicate StartsWith(s: string, prefix: string) {
    |prefix| <= |s| && s[..|prefix|] == prefix
  }

  predicate EndsWith(s: string, suffix: string) {
    |suffix| <= |s| && s[|s| - |suffix|..] == suffix
  }

  /** `str::contains` for a string pattern. */
  predicate Contains(s: string, part: string) {
    exists k | 0 <= k <= |s| - |part| :: StartsWith(s[k..], part)
  }

  function ToAsciiLower(c: char): char {
    if 'A' <= c <= 'Z' then (c as int + 32) as char else c
  }

  /** `str::to_lowercase`, on ASCII letters. */
  function ToLower(s: string): (r: string)
    ensures |r| == |s|
    ensures forall k :: 0 <= k < |s| ==> r[k] == ToAsciiLower(s[k])
  {
    seq(|s|, k requires 0 <= k < |s| => ToAsciiLower(s[k]))
  }
}

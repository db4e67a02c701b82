/**
 * The number syntaxes the crate relies on: Rust's `str::parse` and
 * `from_str_radix` for unsigned and signed integers, and the decimal
 * floating-point syntax shared by `f32::from_str` and nom's `float`
 * recogniser (optional sign, digits with an optional fraction or a fraction
 * alone, optional exponent).
 *
 * Floating-point values are exact reals here: rounding to 32 bits, overflow
 * to infinity and the `inf`/`nan` spellings are not part of this model.
 */
module Numbers {
  import opened Wrappers

  predicate IsDigit(c: char) { '0' <= c <= '9' }

  predicate IsHexDigit(c: char) { IsDigit(c) || 'a' <= c <= 'f' || 'A' <= c <= 'F' }

  /** Digits accepted in base 10 or base 16. */
  predicate IsDigitIn(c: char, radix: nat) {
    if radix == 16 then IsHexDigit(c) else IsDigit(c)
  }

  predicate AllDigitsIn(s: string, radix: nat) {
    forall k :: 0 <= k < |s| ==> IsDigitIn(s[k], radix)
  }

  function DigitValue(c: char): (v: nat)
    requires IsHexDigit(c)
    ensures v < 16 && (IsDigit(c) <==> v < 10)
  {
    if IsDigit(c) then c as int - '0' as int
    else if 'a' <= c <= 'f' then c as int - 'a' as int + 10
    else c as int - 'A' as int + 10
  }

  /** The value of a run of digits, most significant digit first. */
  function DigitsValue(s: string, radix: nat): nat
    requires radix == 10 || radix == 16
    requires AllDigitsIn(s, radix)
  {
    if s == [] then 0 else DigitsValue(s[..|s| - 1], radix) * radix + DigitValue(s[|s| - 1])
  }

  /** What follows an optional leading '+' (the digits of an unsigned number). */
  function UnsignedBody(s: string): string {
    if |s| > 0 && s[0] == '+' then s[1..] else s
  }

  /**
   * `u8/u32::from_str_radix(s, radix)` and `str::parse` for unsigned types:
   * an optional '+' followed by one or more digits whose value is below
   * `bound`; anything else (empty input, a sign alone, a '-', any other
   * character, overflow) is an error.
   */
  function ParseUnsigned(s: string, radix: nat, bound: nat): (r: Option<nat>)
    requires radix == 10 || radix == 16
    ensures r.Some? ==> r.value < bound
    ensures r.None? <==> UnsignedBody(s) == [] || !AllDigitsIn(UnsignedBody(s), radix)
                         || DigitsValue(UnsignedBody(s), radix) >= bound
  {
    var body := UnsignedBody(s);
    if body != [] && AllDigitsIn(body, radix) && DigitsValue(body, radix) < bound
    then Some(DigitsValue(body, radix))
    else None
  }

  const U8Bound: nat := 0x100
  const U32Bound: nat := 0x1_0000_0000
  const I32Bound: nat := 0x8000_0000

  /** `str::parse::<i32>`: an optional sign, then digits; the value must fit in 32 bits. */
  function ParseI32(s: string): (r: Option<int>)
    ensures r.Some? ==> -(I32Bound as int) <= r.value < I32Bound as int
  {
    if |s| > 0 && s[0] == '-' then
      var body := s[1..];
      if body != [] && AllDigitsIn(body, 10) && DigitsValue(body, 10) <= I32Bound
      then Some(-(DigitsValue(body, 10) as int))
      else None
    else
      match ParseUnsigned(s, 10, I32Bound)
      case Some(v) => Some(v)
      case None => None
  }

  function Pow10(n: nat): (r: real)
    ensures r >= 1.0
  {
    if n == 0 then 1.0 else 10.0 * Pow10(n - 1)
  }

  /** The first position at or after `p` that does not hold a decimal digit. */
  function DigitRunEnd(s: string, p: nat): (q: nat)
    requires p <= |s|
    ensures p <= q <= |s|
    ensures AllDigitsIn(s[p..q], 10)
    ensures q < |s| ==> !IsDigit(s[q])
    decreases |s| - p
  {
    if p < |s| && IsDigit(s[p]) then DigitRunEnd(s, p + 1) else p
  }

  /**
   * The outcome of recognising a float at some position: none there, an
   * exponent marker without digits (nom's `cut`, a hard failure), or the
   * position after the float and its value.
   */
  datatype FloatScan = NoFloat | BadExponent | Scanned(end: nat, value: real)

  function Sign(negative: bool, x: real): real {
    if negative then -x else x
  }

  /** Recognises the longest float starting at `p`. */
  function ScanFloat(s: string, p: nat): (r: FloatScan)
    requires p <= |s|
    ensures r.Scanned? ==> p < r.end <= |s|
  {
    var q := if p < |s| && (s[p] == '+' || s[p] == '-') then p + 1 else p;
    var negative := q > p && s[p] == '-';
    var intEnd := DigitRunEnd(s, q);
    var hasDot := intEnd < |s| && s[intEnd] == '.';
    var fracEnd := if hasDot then DigitRunEnd(s, intEnd + 1) else intEnd;
    if intEnd == q && (!hasDot || fracEnd == intEnd + 1) then NoFloat
    else
      var fraction := if hasDot then s[intEnd + 1..fracEnd] else [];
      var mantissa := DigitsValue(s[q..intEnd], 10) as real
                      + DigitsValue(fraction, 10) as real / Pow10(|fraction|);
      if fracEnd < |s| && (s[fracEnd] == 'e' || s[fracEnd] == 'E') then
        var e1 := fracEnd + 1;
        var e2 := if e1 < |s| && (s[e1] == '+' || s[e1] == '-') then e1 + 1 else e1;
        var expEnd := DigitRunEnd(s, e2);
        if expEnd == e2 then BadExponent
        else
          var e := DigitsValue(s[e2..expEnd], 10);
          var magnitude := if e2 > e1 && s[e1] == '-' then mantissa / Pow10(e) else mantissa * Pow10(e);
          Scanned(expEnd, Sign(negative, magnitude))
      else Scanned(fracEnd, Sign(negative, mantissa))
  }

  /** `str::parse::<f32>`: the whole string must be one float. */
  function ParseF32(s: string): (r: Option<real>)
    ensures r.Some? ==> s != [] && ScanFloat(s, 0) == Scanned(|s|, r.value)
  {
    match ScanFloat(s, 0)
    case Scanned(end, v) => if end == |s| then Some(v) else None
    case _ => None
  }

  /** Every string of decimal digits is a float whose value is the digits' value. */
  lemma {:induction false} DigitsAreFloat(s: string)
    requires s != [] && AllDigitsIn(s, 10)
    ensures ParseF32(s) == Some(DigitsValue(s, 10) as real)
  {
    var q := DigitRunEnd(s, 0);
    assert q == |s|;
    assert s[0..|s|] == s;
  }

  /** A '-' in front of digits negates an `i32`, down to -2^31. */
  lemma {:induction false} NegativeI32(s: string)
    requires s != [] && AllDigitsIn(s, 10) && DigitsValue(s, 10) <= I32Bound
    ensures ParseI32(['-'] + s) == Some(-(DigitsValue(s, 10) as int))
  {
    assert (['-'] + s)[1..] == s;
  }
}

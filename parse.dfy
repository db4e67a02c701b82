/**
 * The line parser (ldraw/parse.rs): nom parsers over one line of an LDraw
 * file, and `parse_commands`, which splits a file into lines and keeps the
 * command of every line that parses.
 *
 * A parser here takes the line and a position in it, and reports the
 * position after what it consumed, like the rest slice nom returns. nom's
 * recoverable `Error` and its hard `Failure` (raised by a `cut`) are kept
 * apart: `opt` and `alt` recover from the first only.
 */
module Parse {
  import opened Wrappers
  import opened Text
  import opened Numbers
  import opened Linalg
  import LDraw
  import Base64

  datatype ErrorKind = Tag | TakeWhile1 | TakeWhileMN | Digit | Space | MapRes | Switch | Float

  /** What a successful parser hands on: where the rest of the line starts, and the value. */
  datatype Parsed<T> = Parsed(pos: nat, value: T)

  /** nom's `IResult`, with the error carrying the position it was raised at. */
  datatype Res<T> = Done(pos: nat, value: T) | Error(pos: nat, kind: ErrorKind) | Failure(pos: nat, kind: ErrorKind)
  {
    predicate IsFailure() {
      !Done?
    }

    function PropagateFailure<U>(): Res<U>
      requires IsFailure()
    {
      if Error? then Error(pos, kind) else Failure(pos, kind)
    }

    function Extract(): Parsed<T>
      requires !IsFailure()
    {
      Parsed(pos, value)
    }
  }

  /** nom's `opt`: a recoverable error becomes None with nothing consumed. */
  function Opt<T>(r: Res<T>, p: nat): (o: Res<Option<T>>)
    ensures !o.Error?
    ensures o.Done? && o.value.None? ==> o.pos == p
    ensures r.Done? ==> o == Done(r.pos, Some(r.value))
    ensures r.Error? ==> o == Done(p, None)
    ensures r.Failure? ==> o == Failure(r.pos, r.kind)
  {
    match r
    case Done(q, v) => Done(q, Some(v))
    case Error(_, _) => Done(p, None)
    case Failure(q, k) => Failure(q, k)
  }

  /** nom's `alt` of two parsers: the second runs only when the first fails recoverably. */
  function Or<T>(first: Res<T>, second: Res<T>): Res<T> {
    if first.Error? then second else first
  }

  // ------------------------------------------------------------------
  // Characters and runs (parse.rs:80-123, 677-687)
  // ------------------------------------------------------------------

  /** LDraw whitespace: spaces and tabs. */
  predicate IsSpace(c: char) {
    c == '\t' || c == ' '
  }

  predicate IsCrOrLf(c: char) {
    c == '\n' || c == '\r'
  }

  /** The character sets the parsers split at. */
  datatype CharClass = Spaces | NotEol | DecDigits | NotCommaOrEol | WordChars | ColorIdChars

  predicate InClass(c: char, k: CharClass) {
    match k
    case Spaces => IsSpace(c)
    case NotEol => !IsCrOrLf(c)
    case DecDigits => IsDigit(c)
    case NotCommaOrEol => c != ',' && !IsCrOrLf(c)
    case WordChars => !IsSpace(c)
    case ColorIdChars => IsHexDigit(c) || c == 'x' || c == 'X'
  }

  /** The end of the run of class `k` that starts at `p`. */
  function RunEnd(s: string, p: nat, k: CharClass): (q: nat)
    requires p <= |s|
    ensures p <= q <= |s|
    ensures forall i :: p <= i < q ==> InClass(s[i], k)
    ensures q < |s| ==> !InClass(s[q], k)
    decreases |s| - p
  {
    if p < |s| && InClass(s[p], k) then RunEnd(s, p + 1, k) else p
  }

  /** The text of `s` from `p` up to `q` is `t`. */
  predicate Reads(s: string, p: nat, q: nat, t: string) {
    p <= q <= |s| && s[p..q] == t
  }

  /** `split_at_position_complete`: the run of class `k`, possibly empty. */
  function TakeWhile(s: string, p: nat, k: CharClass): (r: Res<string>)
    requires p <= |s|
    ensures r.Done? && r.pos == RunEnd(s, p, k) && r.value == s[p..r.pos]
  {
    var q := RunEnd(s, p, k);
    Done(q, s[p..q])
  }

  /** `take_while1` / `split_at_position1_complete`: a run of at least one character. */
  function TakeWhile1(s: string, p: nat, k: CharClass, kind: ErrorKind): (r: Res<string>)
    requires p <= |s|
    ensures !r.Failure?
    ensures r.Done? <==> RunEnd(s, p, k) > p
    ensures r.Done? ==> r.pos == RunEnd(s, p, k) && r.value == s[p..r.pos]
    ensures r.Error? ==> r == Error(p, kind)
  {
    var q := RunEnd(s, p, k);
    if q == p then Error(p, kind) else Done(q, s[p..q])
  }

  /** `space0`: zero or more spaces or tabs. */
  function Space0(s: string, p: nat): (r: Res<()>)
    requires p <= |s|
    ensures r.Done? && r.pos == RunEnd(s, p, Spaces)
  {
    Done(RunEnd(s, p, Spaces), ())
  }

  /** `sp`: one or more spaces or tabs. */
  function Sp(s: string, p: nat): (r: Res<()>)
    requires p <= |s|
    ensures p <= r.pos <= |s|
    ensures r.Done? <==> p < |s| && IsSpace(s[p])
    ensures r.Done? ==> r.pos == RunEnd(s, p, Spaces)
    ensures r.Error? ==> r == Error(p, Space)
    ensures !r.Failure?
  {
    var q := RunEnd(s, p, Spaces);
    if q == p then Error(p, Space) else Done(q, ())
  }

  /** `take_not_cr_or_lf`: the rest of the line. */
  function TakeNotCrOrLf(s: string, p: nat): (r: Res<string>)
    requires p <= |s|
    ensures r.Done? && p <= r.pos <= |s| && r.value == s[p..r.pos]
    ensures forall i :: p <= i < r.pos ==> !IsCrOrLf(s[i])
    ensures r.pos < |s| ==> IsCrOrLf(s[r.pos])
  {
    TakeWhile(s, p, NotEol)
  }

  /** `single_comma`. */
  function SingleComma(s: string, p: nat): (r: Res<string>)
    requires p <= |s|
    ensures r.Done? <==> p < |s| && s[p] == ','
    ensures r.Done? ==> r.pos == p + 1
    ensures r.Error? ==> r == Error(p, Tag)
    ensures !r.Failure?
  {
    if p < |s| && s[p] == ',' then Done(p + 1, s[p..p + 1]) else Error(p, Tag)
  }

  /** `take_not_comma_or_eol`: at least one character other than ',', CR and LF. */
  function TakeNotCommaOrEol(s: string, p: nat): (r: Res<string>)
    requires p <= |s|
    ensures p <= r.pos <= |s| && !r.Failure?
    ensures r.Done? ==> r.value == s[p..r.pos] && r.value != []
    ensures r.Done? ==> forall i :: p <= i < r.pos ==> s[i] != ',' && !IsCrOrLf(s[i])
    ensures r.Done? ==> r.pos < |s| ==> s[r.pos] == ',' || IsCrOrLf(s[r.pos])
    ensures r.Error? ==> r.pos == p && (p == |s| || s[p] == ',' || IsCrOrLf(s[p]))
  {
    TakeWhile1(s, p, NotCommaOrEol, ErrorKind.TakeWhile1)
  }

  /** `take_not_space`: the rest of the word. */
  function TakeNotSpace(line: string, start: nat): (r: Res<string>)
    requires start <= |line|
    ensures r.Done? && start <= r.pos <= |line| && |r.value| == r.pos - start
    ensures forall i :: 0 <= i < |r.value| ==> r.value[i] == line[start + i] && !IsSpace(r.value[i])
    ensures r.pos < |line| ==> IsSpace(line[r.pos])
  {
    TakeWhile(line, start, WordChars)
  }

  /** nom's `tag`. */
  function ExpectTag(s: string, p: nat, t: string): (r: Res<()>)
    requires p <= |s|
    ensures p <= r.pos <= |s| && !r.Failure?
    ensures r.Done? <==> StartsWith(s[p..], t)
    ensures r.Done? ==> r.pos == p + |t|
    ensures r.Error? ==> r == Error(p, Tag)
  {
    if StartsWith(s[p..], t) then Done(p + |t|, ()) else Error(p, Tag)
  }

  /** nom's `tag_no_case`: ASCII letters match in either case. */
  function ExpectTagNoCase(s: string, p: nat, t: string): (r: Res<()>)
    requires p <= |s|
    ensures p <= r.pos <= |s| && !r.Failure?
    ensures r.Done? <==> p + |t| <= |s| && ToLower(s[p..p + |t|]) == ToLower(t)
    ensures r.Done? ==> r.pos == p + |t|
    ensures r.Error? ==> r == Error(p, Tag)
  {
    if p + |t| <= |s| && ToLower(s[p..p + |t|]) == ToLower(t) then Done(p + |t|, ()) else Error(p, Tag)
  }

  // ------------------------------------------------------------------
  // Command ids (parse.rs:125-131)
  // ------------------------------------------------------------------

  /** `read_cmd_id_str`: optional spaces, the digits of the line type, optional spaces. */
  function ReadCmdIdStr(s: string, p: nat): (r: Res<string>)
    requires p <= |s|
    ensures p <= r.pos <= |s| && !r.Failure?
    ensures r.Done? ==> r.value != [] && AllDigitsIn(r.value, 10)
    ensures r.Done? ==> r.pos == |s| || !IsSpace(s[r.pos])
    ensures var a := RunEnd(s, p, Spaces); var b := RunEnd(s, a, DecDigits);
      (r.Done? <==> b > a) &&
      (r.Done? ==> r.value == s[a..b] && r.pos == RunEnd(s, b, Spaces)) &&
      (r.Error? ==> r == Error(a, Digit))
  {
    var lead := Space0(s, p);
    var id :- TakeWhile1(s, lead.pos, DecDigits, Digit);
    var trail := Space0(s, id.pos);
    Done(trail.pos, id.value)
  }

  // ------------------------------------------------------------------
  // Numbers and colours (parse.rs:160-212, 439-449)
  // ------------------------------------------------------------------

  /** `from_hex`: `u8::from_str_radix(s, 16)`, failing on anything but a hex number up to 255. */
  function FromHex(t: string): (r: Option<Byte>)
    ensures r.Some? <==> UnsignedBody(t) != [] && AllDigitsIn(UnsignedBody(t), 16)
                         && DigitsValue(UnsignedBody(t), 16) < U8Bound
    ensures r.Some? ==> r.value == DigitsValue(UnsignedBody(t), 16)
  {
    match ParseUnsigned(t, 16, U8Bound)
    case Some(v) => Some(v)
    case None => None
  }

  /** The byte written by two hex digits. */
  function HexByte(hi: char, lo: char): (b: Byte)
    requires IsHexDigit(hi) && IsHexDigit(lo)
  {
    DigitValue(hi) * 16 + DigitValue(lo)
  }

  lemma TwoHexDigits(t: string)
    requires |t| == 2 && IsHexDigit(t[0]) && IsHexDigit(t[1])
    ensures FromHex(t) == Some(HexByte(t[0], t[1]))
  {
    assert UnsignedBody(t) == t;
    assert t[..1][..0] == [];
    assert DigitsValue(t, 16) == DigitsValue(t[..1], 16) * 16 + DigitValue(t[1]);
  }

  /** `hex_primary`: exactly two hex digits. */
  function HexPrimary(s: string, p: nat): (r: Res<Byte>)
    requires p <= |s|
    ensures p <= r.pos <= |s| && !r.Failure?
    ensures r.Done? <==> p + 2 <= |s| && IsHexDigit(s[p]) && IsHexDigit(s[p + 1])
    ensures r.Done? ==> r.pos == p + 2 && r.value == HexByte(s[p], s[p + 1])
    ensures r.Error? ==> r == Error(p, TakeWhileMN)
  {
    if p + 2 <= |s| && IsHexDigit(s[p]) && IsHexDigit(s[p + 1]) then
      TwoHexDigits(s[p..p + 2]);
      Done(p + 2, HexByte(s[p], s[p + 1]))
    else Error(p, TakeWhileMN)
  }

  /** A `#RRGGBB` value at `p`. */
  predicate IsHexColorAt(s: string, p: nat) {
    p + 7 <= |s| && s[p] == '#' && forall k :: p + 1 <= k < p + 7 ==> IsHexDigit(s[k])
  }

  /**
   * `hex_color`: '#' and exactly two hex digits per channel; whatever
   * follows the seventh character is left to the next parser.
   */
  function HexColor(s: string, p: nat): (r: Res<LDraw.Color>)
    requires p <= |s|
    ensures p <= r.pos <= |s| && !r.Failure?
    ensures r.Done? <==> IsHexColorAt(s, p)
    ensures r.Done? ==> r.pos == p + 7
    ensures r.Done? ==> r.value == LDraw.Color(HexByte(s[p + 1], s[p + 2]), HexByte(s[p + 3], s[p + 4]), HexByte(s[p + 5], s[p + 6]))
  {
    var hash :- ExpectTag(s, p, "#");
    var red :- HexPrimary(s, hash.pos);
    var green :- HexPrimary(s, red.pos);
    var blue :- HexPrimary(s, green.pos);
    Done(blue.pos, LDraw.Color(red.value, green.value, blue.value))
  }

  /** `digit1_as_u8`: decimal digits whose value fits a byte; on failure nothing is consumed. */
  function Digit1AsU8(s: string, p: nat): (r: Res<Byte>)
    requires p <= |s|
    ensures p <= r.pos <= |s| && !r.Failure?
    ensures r.Error? ==> r.pos == p
    ensures r.Done? <==> RunEnd(s, p, DecDigits) > p && DigitsValue(s[p..RunEnd(s, p, DecDigits)], 10) < U8Bound
    ensures r.Done? ==> r.pos == RunEnd(s, p, DecDigits) && r.value == DigitsValue(s[p..RunEnd(s, p, DecDigits)], 10)
  {
    var digits :- TakeWhile1(s, p, DecDigits, Digit);
    assert UnsignedBody(digits.value) == digits.value;
    match ParseUnsigned(digits.value, 10, U8Bound)
    case Some(v) => Done(digits.pos, v)
    case None => Error(p, MapRes)
  }

  /** `digit1_as_i32`: decimal digits whose value fits an `i32`. */
  function Digit1AsI32(s: string, p: nat): (r: Res<int>)
    requires p <= |s|
    ensures p <= r.pos <= |s| && !r.Failure?
    ensures r.Error? ==> r.pos == p
    ensures r.Done? ==> 0 <= r.value < I32Bound
    ensures r.Done? <==> RunEnd(s, p, DecDigits) > p && DigitsValue(s[p..RunEnd(s, p, DecDigits)], 10) < I32Bound
    ensures r.Done? ==> r.pos == RunEnd(s, p, DecDigits) && r.value == DigitsValue(s[p..RunEnd(s, p, DecDigits)], 10)
  {
    var digits :- TakeWhile1(s, p, DecDigits, Digit);
    assert UnsignedBody(digits.value) == digits.value;
    match ParseI32(digits.value)
    case Some(v) => if v >= 0 then Done(digits.pos, v) else Error(p, MapRes)
    case None => Error(p, MapRes)
  }

  /** One `<sp> KEYWORD <sp> <byte>` clause of a `!COLOUR` line. */
  function ByteClause(s: string, p: nat, keyword: string): (r: Res<Byte>)
    requires p <= |s|
    ensures p <= r.pos <= |s| && !r.Failure?
    ensures var a := RunEnd(s, p, Spaces);
      (r.Done? <==> a > p && KeywordLine(s, a, keyword) && Digit1AsU8(s, ArgumentStart(s, a, keyword)).Done?) &&
      (r.Done? ==> r == Digit1AsU8(s, ArgumentStart(s, a, keyword)))
  {
    var lead :- Sp(s, p);
    var tag :- ExpectTag(s, lead.pos, keyword);
    var gap :- Sp(s, tag.pos);
    Digit1AsU8(s, gap.pos)
  }

  /** `colour_alpha`: an optional ` ALPHA <byte>`; when it does not parse, nothing is consumed. */
  function ColourAlpha(s: string, p: nat): (r: Res<Option<Byte>>)
    requires p <= |s|
    ensures r.Done? && p <= r.pos <= |s|
    ensures r.value.None? <==> ByteClause(s, p, "ALPHA").Error?
    ensures r.value.None? ==> r.pos == p
    ensures r.value.Some? ==> r == Done(ByteClause(s, p, "ALPHA").pos, Some(ByteClause(s, p, "ALPHA").value))
  {
    Opt(ByteClause(s, p, "ALPHA"), p)
  }

  /** `colour_luminance`: an optional ` LUMINANCE <byte>`, in the same way. */
  function ColourLuminance(s: string, p: nat): (r: Res<Option<Byte>>)
    requires p <= |s|
    ensures r.Done? && p <= r.pos <= |s|
    ensures r.value.None? <==> ByteClause(s, p, "LUMINANCE").Error?
    ensures r.value.None? ==> r.pos == p
    ensures r.value.Some? ==> r == Done(ByteClause(s, p, "LUMINANCE").pos, Some(ByteClause(s, p, "LUMINANCE").value))
  {
    Opt(ByteClause(s, p, "LUMINANCE"), p)
  }

  /** Strips every leading "0x" (`trim_start_matches("0x")`). */
  function TrimHexPrefixes(t: string): (r: string)
    ensures |r| <= |t| && r == t[|t| - |r|..]
    ensures !StartsWith(r, "0x")
  {
    if StartsWith(t, "0x") then TrimHexPrefixes(t[2..]) else t
  }

  /** The number a colour code's text stands for: decimal if that parses, else hexadecimal after the "0x" prefixes. */
  function ColorIdValue(t: string): (r: Option<LDraw.ColorCode>)
    ensures r.Some? && ParseUnsigned(t, 10, U32Bound).Some? ==> r.value == ParseUnsigned(t, 10, U32Bound).value
    ensures r.Some? <==> ParseUnsigned(t, 10, U32Bound).Some? || ParseUnsigned(TrimHexPrefixes(t), 16, U32Bound).Some?
    ensures r.Some? && ParseUnsigned(t, 10, U32Bound).None? ==>
      var h := UnsignedBody(TrimHexPrefixes(t)); AllDigitsIn(h, 16) && r.value == DigitsValue(h, 16)
  {
    match ParseUnsigned(t, 10, U32Bound)
    case Some(v) => Some(v)
    case None =>
      match ParseUnsigned(TrimHexPrefixes(t), 16, U32Bound)
      case Some(v) => Some(v)
      case None => None
  }

  /** `color_id`: a run of hex digits and 'x', read as decimal or else as hexadecimal. */
  function ColorId(s: string, p: nat): (r: Res<LDraw.ColorCode>)
    requires p <= |s|
    ensures p <= r.pos <= |s| && !r.Failure?
    ensures r.Done? <==> RunEnd(s, p, ColorIdChars) > p && ColorIdValue(s[p..RunEnd(s, p, ColorIdChars)]).Some?
    ensures r.Done? ==> r.pos == RunEnd(s, p, ColorIdChars) && Some(r.value) == ColorIdValue(s[p..RunEnd(s, p, ColorIdChars)])
    ensures r.Error? ==> r.pos == p
  {
    var text :- TakeWhile1(s, p, ColorIdChars, ErrorKind.TakeWhile1);
    match ColorIdValue(text.value)
    case Some(v) => Done(text.pos, v)
    case None => Error(p, MapRes)
  }

  // ------------------------------------------------------------------
  // Floats and vectors (parse.rs:429-437, 473-484)
  // ------------------------------------------------------------------

  /** nom's `float`; an exponent marker without digits is a hard failure (its `cut`). */
  function ReadFloat(s: string, p: nat): (r: Res<real>)
    requires p <= |s|
    ensures p <= r.pos <= |s|
    ensures r.Done? ==> r.pos > p
  {
    match ScanFloat(s, p)
    case NoFloat => Error(p, Float)
    case BadExponent => Failure(p, Float)
    case Scanned(e, v) => Done(e, v)
  }

  function V2(s: string, p: nat): (r: Res<Vec2>)
    requires p <= |s|
    ensures p <= r.pos <= |s|
  {
    var x :- ReadFloat(s, p);
    var gap :- Sp(s, x.pos);
    var y :- ReadFloat(s, gap.pos);
    Done(y.pos, Vec2(x.value, y.value))
  }

  function V3(s: string, p: nat): (r: Res<Vec3>)
    requires p <= |s|
    ensures p <= r.pos <= |s|
  {
    var x :- ReadFloat(s, p);
    var gap1 :- Sp(s, x.pos);
    var y :- ReadFloat(s, gap1.pos);
    var gap2 :- Sp(s, y.pos);
    var z :- ReadFloat(s, gap2.pos);
    Done(z.pos, Vec3(x.value, y.value, z.value))
  }

  /** Points separated by spaces, `n` of them. */
  function V3s(s: string, p: nat, n: nat): (r: Res<seq<Vec3>>)
    requires p <= |s| && n >= 1
    ensures p <= r.pos <= |s|
    ensures r.Done? ==> |r.value| == n
    decreases n
  {
    var first :- V3(s, p);
    if n == 1 then Done(first.pos, [first.value])
    else
      var gap :- Sp(s, first.pos);
      var rest :- V3s(s, gap.pos, n - 1);
      Done(rest.pos, [first.value] + rest.value)
  }

  /** UV pairs separated by spaces, `n` of them. */
  function V2s(s: string, p: nat, n: nat): (r: Res<seq<Vec2>>)
    requires p <= |s| && n >= 1
    ensures p <= r.pos <= |s|
    ensures r.Done? ==> |r.value| == n
    decreases n
  {
    var first :- V2(s, p);
    if n == 1 then Done(first.pos, [first.value])
    else
      var gap :- Sp(s, first.pos);
      var rest :- V2s(s, gap.pos, n - 1);
      Done(rest.pos, [first.value] + rest.value)
  }

  /** `transform`: the position, then the three rows of the matrix. */
  function ReadTransform(s: string, p: nat): (r: Res<LDraw.Transform>)
    requires p <= |s|
    ensures p <= r.pos <= |s|
  {
    var vs :- V3s(s, p, 4);
    Done(vs.pos, LDraw.Transform(vs.value[0], vs.value[1], vs.value[2], vs.value[3]))
  }

  // ------------------------------------------------------------------
  // Meta commands (parse.rs:133-158, 214-427)
  // ------------------------------------------------------------------

  /** The text at `p` is the keyword `t` followed by at least one space or tab. */
  predicate KeywordLine(s: string, p: nat, t: string)
    requires p <= |s|
  {
    StartsWith(s[p..], t) && p + |t| < |s| && IsSpace(s[p + |t|])
  }

  /** Where the argument of a keyword line starts: after the keyword and its spaces. */
  function ArgumentStart(s: string, p: nat, t: string): (q: nat)
    requires p <= |s| && KeywordLine(s, p, t)
    ensures p + |t| < q <= |s|
  {
    RunEnd(s, p + |t|, Spaces)
  }

  /** `category`: "!CATEGORY", spaces, the rest of the line. */
  function Category(s: string, p: nat): (r: Res<LDraw.Command>)
    requires p <= |s|
    ensures p <= r.pos <= |s| && !r.Failure?
    ensures r.Done? <==> KeywordLine(s, p, "!CATEGORY")
    ensures r.Done? ==> r.pos == RunEnd(s, ArgumentStart(s, p, "!CATEGORY"), NotEol)
    ensures r.Done? ==> r.value == LDraw.Category(s[ArgumentStart(s, p, "!CATEGORY")..RunEnd(s, ArgumentStart(s, p, "!CATEGORY"), NotEol)])
  {
    var tag :- ExpectTag(s, p, "!CATEGORY");
    var gap :- Sp(s, tag.pos);
    var content := TakeNotCrOrLf(s, gap.pos);
    Done(content.pos, LDraw.Category(content.value))
  }

  /** `s` joined with ',' between its elements. */
  function JoinCommas(items: seq<string>): string {
    if items == [] then [] else if |items| == 1 then items[0] else items[0] + [','] + JoinCommas(items[1..])
  }

  /** Joining a field onto a list puts a comma between it and the rest. */
  lemma JoinCommasCons(x: string, xs: seq<string>)
    ensures JoinCommas([x] + xs) == if xs == [] then x else x + [','] + JoinCommas(xs)
  {
    assert ([x] + xs)[1..] == xs;
  }

  /** The field that `TakeNotCommaOrEol` returns holds no comma. */
  lemma FieldHasNoComma(s: string, q: nat)
    requires q <= |s| && TakeNotCommaOrEol(s, q).Done?
    ensures ',' !in TakeNotCommaOrEol(s, q).value
  {
    var f := TakeNotCommaOrEol(s, q);
    assert forall i :: 0 <= i < |f.value| ==> f.value[i] == s[q + i];
  }

  /** One more field in front of the rest of a comma-separated list. */
  lemma TailStep(s: string, p: nat, q: nat, e: nat, pos: nat, field: string, items: seq<string>)
    requires p < q <= e <= pos <= |s| && s[p..q] == [','] && field == s[q..e] && field != [] && ',' !in field
    requires items == [] ==> pos == e
    requires items != [] ==> s[e..pos] == [','] + JoinCommas(items)
    requires forall k :: 0 <= k < |items| ==> items[k] != [] && ',' !in items[k]
    ensures s[p..pos] == [','] + JoinCommas([field] + items)
    ensures forall k :: 0 <= k < |[field] + items| ==> ([field] + items)[k] != [] && ',' !in ([field] + items)[k]
  {
    JoinCommasCons(field, items);
    Text.SliceJoin(s, q, e, pos);
    Text.SliceJoin(s, p, q, pos);
  }

  /** The fields after the first of a comma-separated list (the loop of `separated_list1`). */
  function KeywordsTail(s: string, p: nat): (r: Parsed<seq<string>>)
    requires p <= |s|
    ensures p <= r.pos <= |s|
    ensures r.value == [] ==> r.pos == p
    ensures r.value != [] ==> Reads(s, p, r.pos, [','] + JoinCommas(r.value))
    ensures forall k :: 0 <= k < |r.value| ==> r.value[k] != [] && ',' !in r.value[k]
    decreases |s| - p
  {
    var c := SingleComma(s, p);
    if !c.Done? then Parsed(p, [])
    else
      var f := TakeNotCommaOrEol(s, c.pos);
      if !f.Done? then Parsed(p, [])
      else
        var rest := KeywordsTail(s, f.pos);
        FieldHasNoComma(s, c.pos);
        assert s[p..c.pos] == [','];
        TailStep(s, p, c.pos, f.pos, rest.pos, f.value, rest.value);
        Parsed(rest.pos, [f.value] + rest.value)
  }

  /**
   * `keywords_list`: one or more fields of characters other than ',', CR
   * and LF, separated by single commas. The list stops before a comma that
   * is not followed by a field.
   */
  function KeywordsList(s: string, p: nat): (r: Res<seq<string>>)
    requires p <= |s|
    ensures p <= r.pos <= |s| && !r.Failure?
    ensures r.Error? ==> r.pos == p
    ensures r.Done? ==> r.value != [] && Reads(s, p, r.pos, JoinCommas(r.value))
    ensures r.Done? ==> forall k :: 0 <= k < |r.value| ==> r.value[k] != [] && ',' !in r.value[k]
  {
    var first :- TakeNotCommaOrEol(s, p);
    var rest := KeywordsTail(s, first.pos);
    FieldHasNoComma(s, p);
    JoinCommasCons(first.value, rest.value);
    Text.SliceJoin(s, p, first.pos, rest.pos);
    Done(rest.pos, [first.value] + rest.value)
  }

  function TrimAll(items: seq<string>): (r: seq<string>)
    ensures |r| == |items| && forall k :: 0 <= k < |items| ==> r[k] == Trim(items[k])
  {
    seq(|items|, k requires 0 <= k < |items| => Trim(items[k]))
  }

  /** `keywords`: "!KEYWORDS", spaces, the list; each keyword is trimmed. */
  function Keywords(s: string, p: nat): (r: Res<LDraw.Command>)
    requires p <= |s|
    ensures p <= r.pos <= |s| && !r.Failure?
    ensures r.Done? <==> KeywordLine(s, p, "!KEYWORDS") && KeywordsList(s, ArgumentStart(s, p, "!KEYWORDS")).Done?
    ensures r.Done? ==> r.value.Keywords? && |r.value.keywords| >= 1
    ensures r.Done? ==> r.value.keywords == TrimAll(KeywordsList(s, ArgumentStart(s, p, "!KEYWORDS")).value)
  {
    var tag :- ExpectTag(s, p, "!KEYWORDS");
    var gap :- Sp(s, tag.pos);
    var list :- KeywordsList(s, gap.pos);
    Done(list.pos, LDraw.Keywords(TrimAll(list.value)))
  }

  /** A float after a case-insensitive keyword and spaces. */
  function TaggedFloat(s: string, p: nat, keyword: string, noCase: bool): (r: Res<real>)
    requires p <= |s|
    ensures p <= r.pos <= |s|
  {
    var tag :- if noCase then ExpectTagNoCase(s, p, keyword) else ExpectTag(s, p, keyword);
    var gap :- Sp(s, tag.pos);
    ReadFloat(s, gap.pos)
  }

  /** `grain_size`: "SIZE" and a float. */
  function SingleGrainSize(s: string, p: nat): (r: Res<LDraw.GrainSize>)
    requires p <= |s|
    ensures p <= r.pos <= |s|
  {
    var size :- TaggedFloat(s, p, "SIZE", false);
    Done(size.pos, LDraw.Size(size.value))
  }

  /** `grain_min_max_size`: "MINSIZE" and a float, then "MAXSIZE" and a float. */
  function MinMaxGrainSize(s: string, p: nat): (r: Res<LDraw.GrainSize>)
    requires p <= |s|
    ensures p <= r.pos <= |s|
  {
    var min :- TaggedFloat(s, p, "MINSIZE", false);
    var gap :- Sp(s, min.pos);
    var max :- TaggedFloat(s, gap.pos, "MAXSIZE", false);
    Done(max.pos, LDraw.MinMaxSize(min.value, max.value))
  }

  /** `material_grain_size`. */
  function MaterialGrainSize(s: string, p: nat): (r: Res<LDraw.GrainSize>)
    requires p <= |s|
    ensures p <= r.pos <= |s|
  {
    Or(SingleGrainSize(s, p), MinMaxGrainSize(s, p))
  }

  /** The part shared by GLITTER and SPECKLE: the material keyword, "VALUE", a colour, alpha and luminance. */
  function MaterialHead(s: string, p: nat, keyword: string): (r: Res<(LDraw.Color, Option<Byte>, Option<Byte>)>)
    requires p <= |s|
    ensures p <= r.pos <= |s|
    ensures !AtNoCase(s, p, keyword) ==> r == Error(p, Tag)
  {
    var kw :- ExpectTagNoCase(s, p, keyword);
    var gap1 :- Sp(s, kw.pos);
    var valueTag :- ExpectTagNoCase(s, gap1.pos, "VALUE");
    var gap2 :- Sp(s, valueTag.pos);
    var value :- HexColor(s, gap2.pos);
    var alpha := ColourAlpha(s, value.pos);
    var luminance := ColourLuminance(s, alpha.pos);
    Done(luminance.pos, (value.value, alpha.value, luminance.value))
  }

  /** `glitter_material`. */
  function GlitterMaterial(s: string, p: nat): (r: Res<LDraw.ColorFinish>)
    requires p <= |s|
    ensures p <= r.pos <= |s|
    ensures !AtNoCase(s, p, "GLITTER") ==> r == Error(p, Tag)
  {
    var head :- MaterialHead(s, p, "GLITTER");
    var fractions :- GlitterFractions(s, head.pos);
    var gap :- Sp(s, fractions.pos);
    var size :- MaterialGrainSize(s, gap.pos);
    var (value, alpha, luminance) := head.value;
    Done(size.pos, LDraw.Material(LDraw.Glitter(LDraw.GlitterMaterial(
      value, alpha, luminance, fractions.value.0, fractions.value.1, size.value))))
  }

  /** The ` FRACTION f VFRACTION v` part of a glitter material. */
  function GlitterFractions(s: string, p: nat): (r: Res<(real, real)>)
    requires p <= |s|
    ensures p <= r.pos <= |s|
  {
    var gap1 :- Sp(s, p);
    var fraction :- TaggedFloat(s, gap1.pos, "FRACTION", true);
    var gap2 :- Sp(s, fraction.pos);
    var vfraction :- TaggedFloat(s, gap2.pos, "VFRACTION", true);
    Done(vfraction.pos, (fraction.value, vfraction.value))
  }

  /** `speckle_material`. */
  function SpeckleMaterial(s: string, p: nat): (r: Res<LDraw.ColorFinish>)
    requires p <= |s|
    ensures p <= r.pos <= |s|
    ensures !AtNoCase(s, p, "SPECKLE") ==> r == Error(p, Tag)
  {
    var head :- MaterialHead(s, p, "SPECKLE");
    var gap1 :- Sp(s, head.pos);
    var fraction :- TaggedFloat(s, gap1.pos, "FRACTION", true);
    var gap2 :- Sp(s, fraction.pos);
    var size :- MaterialGrainSize(s, gap2.pos);
    var (value, alpha, luminance) := head.value;
    Done(size.pos, LDraw.Material(LDraw.Speckle(LDraw.SpeckleMaterial(
      value, alpha, luminance, fraction.value, size.value))))
  }

  /** `other_material`: the trimmed rest of the line. */
  function OtherMaterial(s: string, p: nat): (r: Res<LDraw.ColorFinish>)
    requires p <= |s|
    ensures r.Done? && p <= r.pos <= |s|
    ensures r.pos == RunEnd(s, p, NotEol) && r.value == LDraw.Material(LDraw.Other(Trim(s[p..RunEnd(s, p, NotEol)])))
  {
    var content := TakeNotCrOrLf(s, p);
    Done(content.pos, LDraw.Material(LDraw.Other(Trim(content.value))))
  }

  /** `material_finish`: "MATERIAL", then glitter, speckle or any other text. */
  function MaterialFinish(s: string, p: nat): (r: Res<LDraw.ColorFinish>)
    requires p <= |s|
    ensures p <= r.pos <= |s|
    ensures !AtNoCase(s, p, "MATERIAL") ==> r == Error(p, Tag)
    ensures AtNoCase(s, p, "MATERIAL") && RunEnd(s, p + 8, Spaces) == p + 8 ==> r == Error(p + 8, Space)
    ensures AtNoCase(s, p, "MATERIAL") ==>
      var q := RunEnd(s, p + 8, Spaces);
      q > p + 8 && !AtNoCase(s, q, "GLITTER") && !AtNoCase(s, q, "SPECKLE") ==> r == OtherMaterial(s, q)
  {
    var tag :- ExpectTagNoCase(s, p, "MATERIAL");
    var gap :- Sp(s, tag.pos);
    Or(GlitterMaterial(s, gap.pos), Or(SpeckleMaterial(s, gap.pos), OtherMaterial(s, gap.pos)))
  }

  /** The text at `q` is `t`, ignoring the case of ASCII letters. */
  predicate AtNoCase(s: string, q: nat, t: string) {
    q + |t| <= |s| && ToLower(s[q..q + |t|]) == ToLower(t)
  }

  /**
   * The finish keywords of a `!COLOUR` line in the order `color_finish`
   * tries them, as the length of the keyword found at `q` and its finish.
   */
  function FinishKeyword(s: string, q: nat): Option<(nat, LDraw.ColorFinish)> {
    if AtNoCase(s, q, "CHROME") then Some((6, LDraw.Chrome))
    else if AtNoCase(s, q, "PEARLESCENT") then Some((11, LDraw.Pearlescent))
    else if AtNoCase(s, q, "RUBBER") then Some((6, LDraw.Rubber))
    else if AtNoCase(s, q, "MATTE_METALLIC") then Some((14, LDraw.MatteMetallic))
    else if AtNoCase(s, q, "METAL") then Some((5, LDraw.Metal))
    else None
  }

  function FinishTag(s: string, p: nat, t: string, finish: LDraw.ColorFinish): (r: Res<LDraw.ColorFinish>)
    requires p <= |s|
    ensures p <= r.pos <= |s| && !r.Failure?
    ensures r.Done? <==> AtNoCase(s, p, t)
    ensures r.Done? ==> r == Done(p + |t|, finish)
    ensures r.Error? ==> r == Error(p, Tag)
  {
    var tag :- ExpectTagNoCase(s, p, t);
    Done(tag.pos, finish)
  }

  /** The spaces and the finish keyword of a `!COLOUR` line; the first keyword that matches wins. */
  function FinishClause(s: string, p: nat): (r: Res<LDraw.ColorFinish>)
    requires p <= |s|
    ensures p <= r.pos <= |s|
    ensures var q := RunEnd(s, p, Spaces);
      (q == p ==> r == Error(p, Space)) &&
      (q > p && FinishKeyword(s, q).Some? ==>
        r == Done(q + FinishKeyword(s, q).value.0, FinishKeyword(s, q).value.1)) &&
      (q > p && FinishKeyword(s, q).None? ==> r == MaterialFinish(s, q))
  {
    var gap :- Sp(s, p);
    var q := gap.pos;
    Or(FinishTag(s, q, "CHROME", LDraw.Chrome),
    Or(FinishTag(s, q, "PEARLESCENT", LDraw.Pearlescent),
    Or(FinishTag(s, q, "RUBBER", LDraw.Rubber),
    Or(FinishTag(s, q, "MATTE_METALLIC", LDraw.MatteMetallic),
    Or(FinishTag(s, q, "METAL", LDraw.Metal),
       MaterialFinish(s, q))))))
  }

  /** `color_finish`: an optional finish, which needs a leading space. */
  function ColorFinish(s: string, p: nat): (r: Res<Option<LDraw.ColorFinish>>)
    requires p <= |s|
    ensures p <= r.pos <= |s| && !r.Error?
    ensures r.Done? && r.value.None? ==> r.pos == p
    ensures p == |s| || !IsSpace(s[p]) ==> r == Done(p, None)
    ensures var q := RunEnd(s, p, Spaces);
      (q > p && FinishKeyword(s, q).Some? ==>
        r == Done(q + FinishKeyword(s, q).value.0, Some(FinishKeyword(s, q).value.1))) &&
      (q > p && FinishKeyword(s, q).None? && MaterialFinish(s, q).Done? ==>
        r == Done(MaterialFinish(s, q).pos, Some(MaterialFinish(s, q).value))) &&
      (q > p && FinishKeyword(s, q).None? && MaterialFinish(s, q).Error? ==> r == Done(p, None))
  {
    Opt(FinishClause(s, p), p)
  }

  /** The "CODE c" clause of a `!COLOUR` line: the keyword, spaces and a colour code. */
  function CodeClause(s: string, q: nat): (r: Res<LDraw.ColorCode>)
    requires q <= |s|
    ensures q <= r.pos <= |s|
    ensures !StartsWith(s[q..], "CODE") ==> r == Error(q, Tag)
    ensures r.Done? <==> KeywordLine(s, q, "CODE") && ColorId(s, ArgumentStart(s, q, "CODE")).Done?
    ensures r.Done? ==> r == ColorId(s, ArgumentStart(s, q, "CODE"))
  {
    var codeTag :- ExpectTag(s, q, "CODE");
    var gap :- Sp(s, codeTag.pos);
    ColorId(s, gap.pos)
  }

  /** The start of a `!COLOUR` line: the tag, the name and "CODE c". */
  function ColourNameCode(s: string, p: nat): (r: Res<(string, LDraw.ColorCode)>)
    requires p <= |s|
    ensures p <= r.pos <= |s|
    ensures !StartsWith(s[p..], "!COLOUR") ==> r == Error(p, Tag)
    ensures r.Done? ==> KeywordLine(s, p, "!COLOUR")
    ensures r.Done? ==>
      var a := ArgumentStart(s, p, "!COLOUR"); var b := RunEnd(s, a, WordChars);
      b < |s| && IsSpace(s[b]) && r.value.0 == s[a..b]
    ensures r.Done? ==>
      var c := RunEnd(s, RunEnd(s, ArgumentStart(s, p, "!COLOUR"), WordChars), Spaces);
      KeywordLine(s, c, "CODE") && ColorId(s, ArgumentStart(s, c, "CODE")).Done? &&
      r.pos == ColorId(s, ArgumentStart(s, c, "CODE")).pos && r.value.1 == ColorId(s, ArgumentStart(s, c, "CODE")).value
  {
    var tag :- ExpectTag(s, p, "!COLOUR");
    var gap1 :- Sp(s, tag.pos);
    var name := TakeNotSpace(s, gap1.pos);
    var gap2 :- Sp(s, name.pos);
    var code :- CodeClause(s, gap2.pos);
    Done(code.pos, (name.value, code.value))
  }

  /** The keyword `t`, spaces and a hex colour. */
  function KeywordHex(s: string, a: nat, t: string): (r: Res<LDraw.Color>)
    requires a <= |s|
    ensures a <= r.pos <= |s| && !r.Failure?
    ensures r.Done? <==> KeywordLine(s, a, t) && IsHexColorAt(s, ArgumentStart(s, a, t))
    ensures r.Done? ==> r == HexColor(s, ArgumentStart(s, a, t))
  {
    var tag :- ExpectTag(s, a, t);
    var gap :- Sp(s, tag.pos);
    HexColor(s, gap.pos)
  }

  /** Spaces, a keyword such as "VALUE" or "EDGE", spaces and a hex colour. */
  function TaggedHex(s: string, p: nat, t: string): (r: Res<LDraw.Color>)
    requires p <= |s|
    ensures p <= r.pos <= |s| && !r.Failure?
    ensures var a := RunEnd(s, p, Spaces);
      (r.Done? <==> a > p && KeywordLine(s, a, t) && IsHexColorAt(s, ArgumentStart(s, a, t))) &&
      (r.Done? ==> r == HexColor(s, ArgumentStart(s, a, t)))
  {
    var gap :- Sp(s, p);
    KeywordHex(s, gap.pos, t)
  }

  /** The "VALUE #v EDGE #e" clauses of a `!COLOUR` line. */
  function ValueAndEdge(s: string, q: nat): (r: Res<(LDraw.Color, LDraw.Color)>)
    requires q <= |s|
    ensures q <= r.pos <= |s| && !r.Failure?
    ensures var value := TaggedHex(s, q, "VALUE");
      (r.Done? <==> value.Done? && TaggedHex(s, value.pos, "EDGE").Done?) &&
      (r.Done? ==> r == Done(TaggedHex(s, value.pos, "EDGE").pos, (value.value, TaggedHex(s, value.pos, "EDGE").value)))
  {
    var value :- TaggedHex(s, q, "VALUE");
    var edge :- TaggedHex(s, value.pos, "EDGE");
    Done(edge.pos, (value.value, edge.value))
  }

  /** The optional clauses of a `!COLOUR` line: alpha, luminance and finish, in this order. */
  function ColourOptions(s: string, q: nat): (r: Res<(Option<Byte>, Option<Byte>, Option<LDraw.ColorFinish>)>)
    requires q <= |s|
    ensures q <= r.pos <= |s| && !r.Error?
    ensures var alpha := ColourAlpha(s, q);
      var luminance := ColourLuminance(s, alpha.pos);
      var finish := ColorFinish(s, luminance.pos);
      (r.Done? <==> finish.Done?) &&
      (r.Done? ==> r == Done(finish.pos, (alpha.value, luminance.value, finish.value)))
  {
    var alpha := ColourAlpha(s, q);
    var luminance := ColourLuminance(s, alpha.pos);
    var finish :- ColorFinish(s, luminance.pos);
    Done(finish.pos, (alpha.value, luminance.value, finish.value))
  }

  /** The rest of a `!COLOUR` line after its name and code: the colours and the optional clauses. */
  function ColourRest(s: string, name: string, code: LDraw.ColorCode, q: nat): (r: Res<LDraw.Command>)
    requires q <= |s|
    ensures q <= r.pos <= |s|
    ensures r.Done? ==> r.value.Colour? && r.value.colour.name == name && r.value.colour.code == code
    ensures r.Done? ==>
      var colours := ValueAndEdge(s, q);
      colours.Done? && r.value.colour.value == colours.value.0 && r.value.colour.edge == colours.value.1 &&
      var options := ColourOptions(s, colours.pos);
      options.Done? && r.pos == options.pos &&
      r.value.colour.alpha == options.value.0 && r.value.colour.luminance == options.value.1 &&
      r.value.colour.finish == options.value.2
  {
    var colours :- ValueAndEdge(s, q);
    var tail :- ColourOptions(s, colours.pos);
    Done(tail.pos, LDraw.Colour(LDraw.ColourCmd(
      name, code, colours.value.0, colours.value.1, tail.value.0, tail.value.1, tail.value.2)))
  }

  /** `meta_colour`: "!COLOUR name CODE c VALUE #v EDGE #e" and the optional clauses. */
  function MetaColour(s: string, p: nat): (r: Res<LDraw.Command>)
    requires p <= |s|
    ensures p <= r.pos <= |s|
    ensures !StartsWith(s[p..], "!COLOUR") ==> r == Error(p, Tag)
    ensures r.Done? ==>
      var head := ColourNameCode(s, p);
      head.Done? && r == ColourRest(s, head.value.0, head.value.1, head.pos)
  {
    var head :- ColourNameCode(s, p);
    ColourRest(s, head.value.0, head.value.1, head.pos)
  }

  /** `comment`: the rest of the line, as it is. */
  function Comment(s: string, p: nat): (r: Res<LDraw.Command>)
    requires p <= |s|
    ensures r.Done? && r.pos == RunEnd(s, p, NotEol) && r.value == LDraw.Comment(s[p..RunEnd(s, p, NotEol)])
  {
    var content := TakeNotCrOrLf(s, p);
    Done(content.pos, LDraw.Comment(content.value))
  }

  /** `filename`: the rest of the line with surrounding whitespace trimmed. */
  function Filename(s: string, p: nat): (r: Res<string>)
    requires p <= |s|
    ensures r.Done? && r.pos == RunEnd(s, p, NotEol) && r.value == Trim(s[p..RunEnd(s, p, NotEol)])
  {
    var content := TakeNotCrOrLf(s, p);
    Done(content.pos, Trim(content.value))
  }

  /** `meta_file`: "FILE", spaces, a file name. */
  function MetaFile(s: string, p: nat): (r: Res<LDraw.Command>)
    requires p <= |s|
    ensures p <= r.pos <= |s| && !r.Failure?
    ensures r.Done? <==> KeywordLine(s, p, "FILE")
    ensures r.Done? ==> r.pos == RunEnd(s, ArgumentStart(s, p, "FILE"), NotEol)
    ensures r.Done? ==> r.value == LDraw.File(Trim(s[ArgumentStart(s, p, "FILE")..RunEnd(s, ArgumentStart(s, p, "FILE"), NotEol)]))
  {
    var tag :- ExpectTag(s, p, "FILE");
    var gap :- Sp(s, tag.pos);
    var name := Filename(s, gap.pos);
    Done(name.pos, LDraw.File(name.value))
  }

  /** `meta_data`: "!DATA", spaces, the rest of the line. */
  function MetaData(s: string, p: nat): (r: Res<LDraw.Command>)
    requires p <= |s|
    ensures p <= r.pos <= |s| && !r.Failure?
    ensures r.Done? <==> KeywordLine(s, p, "!DATA")
    ensures r.Done? ==> r.pos == RunEnd(s, ArgumentStart(s, p, "!DATA"), NotEol)
    ensures r.Done? ==> r.value == LDraw.Data(s[ArgumentStart(s, p, "!DATA")..RunEnd(s, ArgumentStart(s, p, "!DATA"), NotEol)])
  {
    var tag :- ExpectTag(s, p, "!DATA");
    var gap :- Sp(s, tag.pos);
    var content := TakeNotCrOrLf(s, gap.pos);
    Done(content.pos, LDraw.Data(content.value))
  }

  /** `read_base64`: the rest of the line must be canonical Base64. */
  function ReadBase64(s: string, p: nat): (r: Res<seq<Byte>>)
    requires p <= |s|
    ensures p <= r.pos <= |s| && !r.Failure?
    ensures r.Done? <==> Base64.Decode(s[p..RunEnd(s, p, NotEol)]).Some?
    ensures r.Done? ==> Some(r.value) == Base64.Decode(s[p..RunEnd(s, p, NotEol)])
  {
    var content := TakeNotCrOrLf(s, p);
    match Base64.Decode(content.value)
    case Some(data) => Done(content.pos, data)
    case None => Error(p, MapRes)
  }

  /** `meta_base_64_data`: "!:", spaces, Base64 data. */
  function MetaBase64Data(s: string, p: nat): (r: Res<LDraw.Command>)
    requires p <= |s|
    ensures p <= r.pos <= |s| && !r.Failure?
    ensures r.Done? <==> KeywordLine(s, p, "!:") && Base64.Decode(s[ArgumentStart(s, p, "!:")..RunEnd(s, ArgumentStart(s, p, "!:"), NotEol)]).Some?
    ensures r.Done? ==> r.value.Base64Data? && r.pos == RunEnd(s, ArgumentStart(s, p, "!:"), NotEol)
    ensures r.Done? ==> Some(r.value.data) == Base64.Decode(s[ArgumentStart(s, p, "!:")..RunEnd(s, ArgumentStart(s, p, "!:"), NotEol)])
  {
    var tag :- ExpectTag(s, p, "!:");
    var gap :- Sp(s, tag.pos);
    var data :- ReadBase64(s, gap.pos);
    Done(data.pos, LDraw.Base64Data(data.value))
  }

  /** `meta_nofile`. */
  function MetaNoFile(s: string, p: nat): (r: Res<LDraw.Command>)
    requires p <= |s|
    ensures p <= r.pos <= |s| && !r.Failure?
    ensures r.Done? <==> StartsWith(s[p..], "NOFILE")
    ensures r.Done? ==> r.pos == p + 6 && r.value == LDraw.NoFile
  {
    var tag :- ExpectTag(s, p, "NOFILE");
    Done(tag.pos, LDraw.NoFile)
  }

  // ------------------------------------------------------------------
  // BFC (parse.rs:612-675)
  // ------------------------------------------------------------------

  /** `winding`: "CW" or "CCW" in any case; "CW" is tried first. */
  function Winding(s: string, p: nat): (r: Res<LDraw.Winding>)
    requires p <= |s|
    ensures p <= r.pos <= |s| && !r.Failure?
    ensures r.Done? && r.value == LDraw.Cw <==> ExpectTagNoCase(s, p, "CW").Done?
    ensures r.Done? && r.value == LDraw.Ccw <==> ExpectTagNoCase(s, p, "CW").Error? && ExpectTagNoCase(s, p, "CCW").Done?
  {
    var cw := ExpectTagNoCase(s, p, "CW");
    if cw.Done? then Done(cw.pos, LDraw.Cw)
    else
      var ccw :- ExpectTagNoCase(s, p, "CCW");
      Done(ccw.pos, LDraw.Ccw)
  }

  /** `opt_winding`: an optional spaces-and-winding. */
  function OptWinding(s: string, p: nat): (r: Res<Option<LDraw.Winding>>)
    requires p <= |s|
    ensures r.Done? && p <= r.pos <= |s|
    ensures r.value.None? ==> r.pos == p
    ensures var q := RunEnd(s, p, Spaces);
      if q > p && Winding(s, q).Done? then r == Done(Winding(s, q).pos, Some(Winding(s, q).value))
      else r == Done(p, None)
  {
    var spaced := (var gap :- Sp(s, p); Winding(s, gap.pos));
    Opt(spaced, p)
  }

  function BfcKeyword(s: string, p: nat, t: string, cmd: LDraw.BfcCommand): (r: Res<LDraw.BfcCommand>)
    requires p <= |s|
    ensures p <= r.pos <= |s| && !r.Failure?
    ensures r.Done? <==> StartsWith(s[p..], t)
    ensures r.Done? ==> r == Done(p + |t|, cmd)
    ensures r.Error? ==> r == Error(p, Tag)
  {
    var tag :- ExpectTag(s, p, t);
    Done(tag.pos, cmd)
  }

  /** `bfc_certify` and `bfc_clip`: the keyword and an optional winding. */
  function BfcWithWinding(s: string, p: nat, t: string, certify: bool): (r: Res<LDraw.BfcCommand>)
    requires p <= |s|
    ensures p <= r.pos <= |s| && !r.Failure?
    ensures r.Done? ==> if certify then r.value.Certify? else r.value.Clip?
    ensures r.Done? <==> StartsWith(s[p..], t)
    ensures r.Error? ==> r == Error(p, Tag)
    ensures r.Done? ==> var w := OptWinding(s, p + |t|);
      r.pos == w.pos && r.value == if certify then LDraw.Certify(w.value) else LDraw.Clip(w.value)
  {
    var tag :- ExpectTag(s, p, t);
    var winding := OptWinding(s, tag.pos);
    Done(winding.pos, if certify then LDraw.Certify(winding.value) else LDraw.Clip(winding.value))
  }

  /** `bfc_winding`. */
  function BfcWinding(s: string, p: nat): (r: Res<LDraw.BfcCommand>)
    requires p <= |s|
    ensures p <= r.pos <= |s| && !r.Failure?
    ensures r.Done? <==> Winding(s, p).Done?
    ensures r.Done? ==> r == Done(Winding(s, p).pos, LDraw.SetWinding(Winding(s, p).value))
  {
    var w :- Winding(s, p);
    Done(w.pos, LDraw.SetWinding(w.value))
  }

  /** The statement after "BFC ": NOCERTIFY, CERTIFY, CW/CCW, NOCLIP, CLIP, INVERTNEXT, tried in this order. */
  function BfcStatement(s: string, p: nat): (r: Res<LDraw.BfcCommand>)
    requires p <= |s|
    ensures p <= r.pos <= |s| && !r.Failure?
    ensures var rest := s[p..];
      && (StartsWith(rest, "NOCERTIFY") ==> r == Done(p + 9, LDraw.NoCertify))
      && (!StartsWith(rest, "NOCERTIFY") && StartsWith(rest, "CERTIFY") ==>
            r == Done(OptWinding(s, p + 7).pos, LDraw.Certify(OptWinding(s, p + 7).value)))
      && (!StartsWith(rest, "NOCERTIFY") && !StartsWith(rest, "CERTIFY") && Winding(s, p).Done? ==>
            r == Done(Winding(s, p).pos, LDraw.SetWinding(Winding(s, p).value)))
      && (!StartsWith(rest, "NOCERTIFY") && !StartsWith(rest, "CERTIFY") && Winding(s, p).Error? ==>
            if StartsWith(rest, "NOCLIP") then r == Done(p + 6, LDraw.NoClip)
            else if StartsWith(rest, "CLIP") then r == Done(OptWinding(s, p + 4).pos, LDraw.Clip(OptWinding(s, p + 4).value))
            else if StartsWith(rest, "INVERTNEXT") then r == Done(p + 10, LDraw.InvertNext)
            else r == Error(p, Tag))
  {
    Or(BfcKeyword(s, p, "NOCERTIFY", LDraw.NoCertify),
    Or(BfcWithWinding(s, p, "CERTIFY", true),
    Or(BfcWinding(s, p),
    Or(BfcKeyword(s, p, "NOCLIP", LDraw.NoClip),
    Or(BfcWithWinding(s, p, "CLIP", false),
       BfcKeyword(s, p, "INVERTNEXT", LDraw.InvertNext))))))
  }

  /** `bfc`: "BFC", spaces, a statement. */
  function Bfc(s: string, p: nat): (r: Res<LDraw.Command>)
    requires p <= |s|
    ensures p <= r.pos <= |s| && !r.Failure?
    ensures r.Done? ==> r.value.Bfc?
    ensures r.Done? <==> KeywordLine(s, p, "BFC") && BfcStatement(s, ArgumentStart(s, p, "BFC")).Done?
    ensures r.Done? ==> var stmt := BfcStatement(s, ArgumentStart(s, p, "BFC"));
      r == Done(stmt.pos, LDraw.Bfc(stmt.value))
  {
    var tag :- ExpectTag(s, p, "BFC");
    var gap :- Sp(s, tag.pos);
    var stmt :- BfcStatement(s, gap.pos);
    Done(stmt.pos, LDraw.Bfc(stmt.value))
  }

  // ------------------------------------------------------------------
  // Studio texture lines (parse.rs:575-610)
  // ------------------------------------------------------------------

  /** The numbers after the first of a space-separated list (the loop of `separated_list1(sp, digit1_as_i32)`). */
  function PathTail(s: string, p: nat): (r: Parsed<seq<int>>)
    requires p <= |s|
    ensures p <= r.pos <= |s|
    ensures forall i :: 0 <= i < |r.value| ==> 0 <= r.value[i] < I32Bound
    decreases |s| - p
  {
    match Sp(s, p)
    case Done(q, _) =>
      (match Digit1AsI32(s, q)
       case Done(e, n) =>
         var rest := PathTail(s, e);
         Parsed(rest.pos, [n] + rest.value)
       case _ => Parsed(p, []))
    case _ => Parsed(p, [])
  }

  /** `pe_tex_path`: "PE_TEX_PATH", spaces, one or more unsigned numbers separated by spaces. */
  function PeTexPath(s: string, p: nat): (r: Res<LDraw.Command>)
    requires p <= |s|
    ensures p <= r.pos <= |s| && !r.Failure?
    ensures !StartsWith(s[p..], "PE_TEX_PATH") ==> r == Error(p, Tag)
    ensures r.Done? <==> KeywordLine(s, p, "PE_TEX_PATH") && Digit1AsI32(s, ArgumentStart(s, p, "PE_TEX_PATH")).Done?
    ensures r.Done? ==> var first := Digit1AsI32(s, ArgumentStart(s, p, "PE_TEX_PATH"));
      r.value.PeTexPath? && r.value.paths == [first.value] + PathTail(s, first.pos).value && r.pos == PathTail(s, first.pos).pos
  {
    var tag :- ExpectTag(s, p, "PE_TEX_PATH");
    var gap :- Sp(s, tag.pos);
    var first :- Digit1AsI32(s, gap.pos);
    var rest := PathTail(s, first.pos);
    Done(rest.pos, LDraw.PeTexPath([first.value] + rest.value))
  }

  /** Spaces and the two corners of a projection box, with the spaces after them. */
  function BoxCorners(s: string, p: nat): (r: Res<(Vec2, Vec2)>)
    requires p <= |s|
    ensures p <= r.pos <= |s|
  {
    var gap1 :- Sp(s, p);
    var pointMin :- V2(s, gap1.pos);
    var gap2 :- Sp(s, pointMin.pos);
    var pointMax :- V2(s, gap2.pos);
    var gap3 :- Sp(s, pointMax.pos);
    Done(gap3.pos, (pointMin.value, pointMax.value))
  }

  /** The optional projection box of a PE_TEX_INFO line, with the spaces after it. */
  function TexPlacement(s: string, p: nat): (r: Res<LDraw.PeTexInfoTransform>)
    requires p <= |s|
    ensures p <= r.pos <= |s|
  {
    var transform :- ReadTransform(s, p);
    var corners :- BoxCorners(s, transform.pos);
    Done(corners.pos, LDraw.PeTexInfoTransform(transform.value, corners.value.0, corners.value.1))
  }

  /** `pe_tex_info`: "PE_TEX_INFO", spaces, an optional projection box, Base64 image data. */
  function PeTexInfo(s: string, p: nat): (r: Res<LDraw.Command>)
    requires p <= |s|
    ensures p <= r.pos <= |s|
    ensures r.Done? ==> r.value.PeTexInfo?
  {
    var tag :- ExpectTag(s, p, "PE_TEX_INFO");
    var gap :- Sp(s, tag.pos);
    var placement :- Opt(TexPlacement(s, gap.pos), gap.pos);
    var data :- ReadBase64(s, placement.pos);
    Done(data.pos, LDraw.PeTexInfo(placement.value, data.value))
  }

  /** Commands of line type 0 that are not geometry. */
  predicate IsMeta(cmd: LDraw.Command) {
    !(cmd.SubFileRef? || cmd.Line? || cmd.Triangle? || cmd.Quad? || cmd.OptLine?)
  }

  /**
   * `meta_cmd`: the meta commands in a fixed order, and a comment when none
   * of them matches; only a hard failure can stop a type-0 line.
   */
  function MetaCmd(s: string, p: nat): (r: Res<LDraw.Command>)
    requires p <= |s|
    ensures p <= r.pos <= |s|
    ensures !r.Error?
    ensures r.Done? ==> IsMeta(r.value)
    ensures !MetaHeader(s, p).Error? ==> r == MetaHeader(s, p)
    ensures MetaHeader(s, p).Error? && !MetaBody(s, p).Error? ==> r == MetaBody(s, p)
    ensures MetaHeader(s, p).Error? && MetaBody(s, p).Error? ==> r == Comment(s, p)
  {
    Or(MetaHeader(s, p), Or(MetaBody(s, p), Comment(s, p)))
  }

  /** The first five meta commands `meta_cmd` tries: !CATEGORY, !KEYWORDS, !COLOUR, FILE, NOFILE. */
  function MetaHeader(s: string, p: nat): (r: Res<LDraw.Command>)
    requires p <= |s|
    ensures p <= r.pos <= |s|
    ensures r.Done? ==> IsMeta(r.value)
  {
    Or(Category(s, p),
    Or(Keywords(s, p),
    Or(MetaColour(s, p),
    Or(MetaFile(s, p),
       MetaNoFile(s, p)))))
  }

  /** The next five: !DATA, !:, BFC, PE_TEX_PATH, PE_TEX_INFO. */
  function MetaBody(s: string, p: nat): (r: Res<LDraw.Command>)
    requires p <= |s|
    ensures p <= r.pos <= |s|
    ensures r.Done? ==> IsMeta(r.value)
  {
    Or(MetaData(s, p),
    Or(MetaBase64Data(s, p),
    Or(Bfc(s, p),
    Or(PeTexPath(s, p),
       PeTexInfo(s, p)))))
  }

  // ------------------------------------------------------------------
  // Line types 1 to 5 (parse.rs:456-573)
  // ------------------------------------------------------------------

  /** `file_ref_cmd`: colour, transform, file name. */
  function FileRefCmd(s: string, p: nat): (r: Res<LDraw.Command>)
    requires p <= |s|
    ensures p <= r.pos <= |s|
    ensures ColorId(s, p).Error? ==> r == Error(p, ColorId(s, p).kind)
    ensures r.Done? ==> r.value.SubFileRef? && ColorId(s, p).Done? && r.value.color == ColorId(s, p).value
    ensures r.Done? ==> r.pos == |s| || IsCrOrLf(s[r.pos])
  {
    var color :- ColorId(s, p);
    var gap1 :- Sp(s, color.pos);
    var transform :- ReadTransform(s, gap1.pos);
    var gap2 :- Sp(s, transform.pos);
    var file := Filename(s, gap2.pos);
    Done(file.pos, LDraw.SubFileRef(color.value, transform.value, file.value))
  }

  /** The colour and the `n` points a line, triangle, quad or optional line starts with, and the spaces after them. */
  function ColorAndPoints(s: string, p: nat, n: nat): (r: Res<(LDraw.ColorCode, seq<Vec3>)>)
    requires p <= |s| && n >= 1
    ensures p <= r.pos <= |s|
    ensures ColorId(s, p).Error? ==> r == Error(p, ColorId(s, p).kind)
    ensures r.Done? ==> ColorId(s, p).Done? && r.value.0 == ColorId(s, p).value && |r.value.1| == n
  {
    var color :- ColorId(s, p);
    var gap :- Sp(s, color.pos);
    var vs :- V3s(s, gap.pos, n);
    var trail := Space0(s, vs.pos);
    Done(trail.pos, (color.value, vs.value))
  }

  /** `line_cmd`: colour and two points. */
  function LineCmd(s: string, p: nat): (r: Res<LDraw.Command>)
    requires p <= |s|
    ensures p <= r.pos <= |s|
    ensures ColorId(s, p).Error? ==> r == Error(p, ColorId(s, p).kind)
    ensures r.Done? <==> ColorAndPoints(s, p, 2).Done?
    ensures r.Done? ==> r.value.Line? && LDraw.WellFormed(r.value)
    ensures r.Done? ==> ColorId(s, p).Done? && r.value.color == ColorId(s, p).value
    ensures r.Done? ==> r.value.vertices == ColorAndPoints(s, p, 2).value.1 && r.pos == ColorAndPoints(s, p, 2).pos
  {
    var head :- ColorAndPoints(s, p, 2);
    Done(head.pos, LDraw.Line(head.value.0, head.value.1))
  }

  /** Optional UVs after the points of a face, with the spaces after them. */
  function FaceUvs(s: string, p: nat, n: nat): (r: Res<Option<seq<Vec2>>>)
    requires p <= |s| && n >= 1
    ensures p <= r.pos <= |s| && !r.Error?
    ensures r.Done? && r.value.Some? ==> |r.value.value| == n
    ensures V2s(s, p, n).Done? ==> r == Done(RunEnd(s, V2s(s, p, n).pos, Spaces), Some(V2s(s, p, n).value))
    ensures V2s(s, p, n).Error? ==> r == Done(p, None)
    ensures V2s(s, p, n).Failure? <==> r.Failure?
  {
    var uvs := (var uvs :- V2s(s, p, n); var trail := Space0(s, uvs.pos); Done(trail.pos, uvs.value));
    Opt(uvs, p)
  }

  /** `tri_cmd` (n = 3) and `quad_cmd` (n = 4): colour, points, optional UVs. */
  function FaceCmd(s: string, p: nat, n: nat): (r: Res<LDraw.Command>)
    requires p <= |s| && (n == 3 || n == 4)
    ensures p <= r.pos <= |s|
    ensures r.Done? ==> (if n == 3 then r.value.Triangle? else r.value.Quad?) && LDraw.WellFormed(r.value)
    ensures ColorId(s, p).Error? ==> r == Error(p, ColorId(s, p).kind)
    ensures r.Done? ==> ColorId(s, p).Done? && r.value.color == ColorId(s, p).value
    ensures r.Done? <==> ColorAndPoints(s, p, n).Done? && FaceUvs(s, ColorAndPoints(s, p, n).pos, n).Done?
    ensures r.Done? ==> var head := ColorAndPoints(s, p, n); var uvs := FaceUvs(s, head.pos, n);
      r.value.vertices == head.value.1 && r.value.uvs == uvs.value && r.pos == uvs.pos
  {
    var head :- ColorAndPoints(s, p, n);
    var uvs :- FaceUvs(s, head.pos, n);
    Done(uvs.pos, if n == 3 then LDraw.Triangle(head.value.0, head.value.1, uvs.value)
                  else LDraw.Quad(head.value.0, head.value.1, uvs.value))
  }

  /** `opt_line_cmd`: colour, two points, and two control points that default to the origin. */
  function OptLineCmd(s: string, p: nat): (r: Res<LDraw.Command>)
    requires p <= |s|
    ensures p <= r.pos <= |s|
    ensures r.Done? ==> r.value.OptLine? && LDraw.WellFormed(r.value)
    ensures ColorId(s, p).Error? ==> r == Error(p, ColorId(s, p).kind)
    ensures r.Done? ==> ColorId(s, p).Done? && r.value.color == ColorId(s, p).value
    ensures r.Done? ==> ColorAndPoints(s, p, 2).Done? && r.value.vertices == ColorAndPoints(s, p, 2).value.1
    ensures r.Done? ==> var controls := V3s(s, ColorAndPoints(s, p, 2).pos, 2);
      (controls.Done? ==> r.value.controlPoints == controls.value && r.pos == controls.pos) &&
      (controls.Error? ==> r.value.controlPoints == [Vec3(0.0, 0.0, 0.0), Vec3(0.0, 0.0, 0.0)] && r.pos == ColorAndPoints(s, p, 2).pos)
  {
    var head :- ColorAndPoints(s, p, 2);
    var controls :- Opt(V3s(s, head.pos, 2), head.pos);
    var origin := Vec3(0.0, 0.0, 0.0);
    Done(controls.pos, LDraw.OptLine(head.value.0, head.value.1,
                                     if controls.value.Some? then controls.value.value else [origin, origin]))
  }

  /** The line types of the LDraw File Format Specification. */
  const LineTypes: set<string> := {"0", "1", "2", "3", "4", "5"}

  /**
   * `read_line`: the line type, then the command of that type. Only the
   * types "0" to "5" are accepted; any other number is a `Switch` error.
   */
  function ReadLine(s: string, p: nat): (r: Res<LDraw.Command>)
    requires p <= |s|
    ensures p <= r.pos <= |s|
    ensures r.Done? ==> LDraw.WellFormed(r.value)
    ensures r.Done? ==> ReadCmdIdStr(s, p).Done? && ReadCmdIdStr(s, p).value in LineTypes
    ensures ReadCmdIdStr(s, p).Done? && ReadCmdIdStr(s, p).value !in LineTypes
            ==> r == Error(ReadCmdIdStr(s, p).pos, Switch)
    ensures ReadCmdIdStr(s, p).Done? && ReadCmdIdStr(s, p).value == "0" ==> !r.Error? && (r.Done? ==> IsMeta(r.value))
    ensures ReadCmdIdStr(s, p).Error? ==> r == Error(ReadCmdIdStr(s, p).pos, ReadCmdIdStr(s, p).kind)
    ensures ReadCmdIdStr(s, p).Done? ==> var q := ReadCmdIdStr(s, p).pos; var id := ReadCmdIdStr(s, p).value;
      (id == "0" ==> r == MetaCmd(s, q)) &&
      (id == "1" ==> r == FileRefCmd(s, q)) &&
      (id == "2" ==> r == LineCmd(s, q)) &&
      (id == "3" ==> r == FaceCmd(s, q, 3)) &&
      (id == "4" ==> r == FaceCmd(s, q, 4)) &&
      (id == "5" ==> r == OptLineCmd(s, q))
  {
    var id :- ReadCmdIdStr(s, p);
    if id.value == "0" then MetaCmd(s, id.pos)
    else if id.value == "1" then FileRefCmd(s, id.pos)
    else if id.value == "2" then LineCmd(s, id.pos)
    else if id.value == "3" then FaceCmd(s, id.pos, 3)
    else if id.value == "4" then FaceCmd(s, id.pos, 4)
    else if id.value == "5" then OptLineCmd(s, id.pos)
    else Error(id.pos, Switch)
  }

  // ------------------------------------------------------------------
  // Whole files (parse.rs:52-82)
  // ------------------------------------------------------------------

  /** The UTF-8 byte-order mark. */
  const Bom: seq<Byte> := [0xEF, 0xBB, 0xBF]

  /** `strip_bom`: a leading byte-order mark is removed, and nothing else. */
  function StripBom(content: seq<Byte>): (r: seq<Byte>)
    ensures content == (if |content| >= 3 && content[..3] == Bom then Bom + r else r)
  {
    if |content| >= 3 && content[..3] == Bom then content[3..] else content
  }

  /** `split(is_cr_or_lf)`: the pieces between CR and LF characters, empty ones included. */
  function Lines(s: string): (lines: seq<string>)
    ensures |lines| >= 1
    ensures forall k, i :: 0 <= k < |lines| && 0 <= i < |lines[k]| ==> !IsCrOrLf(lines[k][i])
    decreases |s|
  {
    var q := RunEnd(s, 0, NotEol);
    if q == |s| then [s] else [s[..q]] + Lines(s[q + 1..])
  }

  /** Lines made only of spaces and tabs (or of nothing) have no effect. */
  predicate IsBlank(line: string) {
    forall i :: 0 <= i < |line| ==> IsSpace(line[i])
  }

  /** The command of one line, or None for a blank line or one that does not parse. */
  function ParseLine(line: string): (r: Option<LDraw.Command>)
    ensures r.Some? <==> !IsBlank(line) && ReadLine(line, 0).Done?
    ensures r.Some? ==> r.value == ReadLine(line, 0).value && LDraw.WellFormed(r.value)
  {
    if IsBlank(line) then None
    else match ReadLine(line, 0)
      case Done(_, cmd) => Some(cmd)
      case _ => None
  }

  /** The commands of the lines that parse, in order. */
  function ParseLines(lines: seq<string>): (cmds: seq<LDraw.Command>)
    ensures |cmds| <= |lines|
    ensures forall k :: 0 <= k < |cmds| ==> LDraw.WellFormed(cmds[k])
  {
    if lines == [] then [] else LineCommands(lines[0]) + ParseLines(lines[1..])
  }

  /** What one line contributes: its command, or nothing. */
  function LineCommands(line: string): (cmds: seq<LDraw.Command>)
    ensures |cmds| <= 1
    ensures cmds == [] <==> ParseLine(line).None?
    ensures forall k :: 0 <= k < |cmds| ==> Some(cmds[k]) == ParseLine(line) && LDraw.WellFormed(cmds[k])
  {
    match ParseLine(line)
    case Some(cmd) => [cmd]
    case None => []
  }

  /**
   * `parse_commands`: the byte-order mark is stripped, the text is split at
   * every CR or LF, and each line that parses contributes its command; a
   * line that does not parse is skipped.
   */
  function ParseCommands(content: seq<Byte>): (cmds: seq<LDraw.Command>)
    ensures forall k :: 0 <= k < |cmds| ==> LDraw.WellFormed(cmds[k])
  {
    ParseLines(Lines(Chars(StripBom(content))))
  }

  // ------------------------------------------------------------------
  // Properties of the line splitting
  // ------------------------------------------------------------------

  /** A piece of text without CR or LF is a single line. */
  lemma LinesOfOneLine(s: string)
    requires forall i :: 0 <= i < |s| ==> !IsCrOrLf(s[i])
    ensures Lines(s) == [s]
  {
  }

  /** The first line ends at the first CR or LF; the rest of the text is split the same way. */
  lemma {:induction false} LinesAppend(a: string, sep: char, b: string)
    requires forall i :: 0 <= i < |a| ==> !IsCrOrLf(a[i])
    requires IsCrOrLf(sep)
    ensures Lines(a + [sep] + b) == [a] + Lines(b)
  {
    var s := a + [sep] + b;
    var q := RunEnd(s, 0, NotEol);
    assert q == |a| by {
      assert forall i :: 0 <= i < |a| ==> s[i] == a[i] && InClass(s[i], NotEol);
      assert !InClass(s[|a|], NotEol);
    }
    assert s[..q] == a;
    assert s[q + 1..] == b;
  }

  lemma {:induction false} ParseLinesAppend(xs: seq<string>, ys: seq<string>)
    ensures ParseLines(xs + ys) == ParseLines(xs) + ParseLines(ys)
    decreases |xs|
  {
    if xs == [] {
      assert xs + ys == ys;
    } else {
      var zs := xs + ys;
      assert zs[0] == xs[0];
      assert zs[1..] == xs[1..] + ys;
      ParseLinesAppend(xs[1..], ys);
      calc {
        ParseLines(zs);
        LineCommands(xs[0]) + ParseLines(xs[1..] + ys);
        LineCommands(xs[0]) + (ParseLines(xs[1..]) + ParseLines(ys));
        (LineCommands(xs[0]) + ParseLines(xs[1..])) + ParseLines(ys);
      }
    }
  }

  /** A byte-order mark is only looked for at the very start. */
  lemma StripBomOfLonger(a: seq<Byte>, sep: Byte, b: seq<Byte>)
    requires sep == 10 || sep == 13
    ensures StripBom(a + [sep] + b) == StripBom(a) + [sep] + b
  {
    var whole := a + [sep] + b;
    if |a| >= 3 {
      assert whole[..3] == a[..3];
      assert whole[3..] == a[3..] + [sep] + b;
    } else if |whole| >= 3 {
      assert whole[..3][|a|] == sep;
    }
  }

  lemma CharsAppend(x: seq<Byte>, sep: Byte, y: seq<Byte>)
    ensures Chars(x + [sep] + y) == Chars(x) + [sep as char] + Chars(y)
  {
  }

  /** Splitting text whose first line ends at `sep`. */
  lemma {:induction false} LinesOfFirstLine(a: seq<Byte>, sep: Byte, b: seq<Byte>)
    requires forall i :: 0 <= i < |a| ==> a[i] != 10 && a[i] != 13
    requires sep == 10 || sep == 13
    ensures Lines(Chars(StripBom(a + [sep] + b))) == [Chars(StripBom(a))] + Lines(Chars(b))
  {
    var a' := StripBom(a);
    StripBomOfLonger(a, sep, b);
    CharsAppend(a', sep, b);
    StripBomNoEol(a);
    NoEolChars(a');
    LinesAppend(Chars(a'), sep as char, Chars(b));
  }

  /** Stripping the mark keeps a line free of CR and LF. */
  lemma StripBomNoEol(a: seq<Byte>)
    requires forall i :: 0 <= i < |a| ==> a[i] != 10 && a[i] != 13
    ensures forall i :: 0 <= i < |StripBom(a)| ==> StripBom(a)[i] != 10 && StripBom(a)[i] != 13
  {
    var a' := StripBom(a);
    forall i | 0 <= i < |a'| ensures a'[i] != 10 && a'[i] != 13 {
      assert a'[i] == a[|a| - |a'| + i];
    }
  }

  /** Bytes other than CR and LF become characters other than CR and LF. */
  lemma NoEolChars(x: seq<Byte>)
    requires forall i :: 0 <= i < |x| ==> x[i] != 10 && x[i] != 13
    ensures forall i :: 0 <= i < |Chars(x)| ==> !IsCrOrLf(Chars(x)[i])
  {
    var text := Chars(x);
    forall i | 0 <= i < |text| ensures !IsCrOrLf(text[i]) {
      assert text[i] as int == x[i];
    }
  }

  /**
   * Each line is parsed on its own: a file is the commands of its first
   * line followed by those of the rest, whatever either contains, as long as
   * the rest does not itself start with a byte-order mark.
   */
  lemma {:induction false} ParseCommandsSplit(a: seq<Byte>, sep: Byte, b: seq<Byte>)
    requires forall i :: 0 <= i < |a| ==> a[i] != 10 && a[i] != 13
    requires sep == 10 || sep == 13
    requires !(|b| >= 3 && b[..3] == Bom)
    ensures ParseCommands(a + [sep] + b) == ParseCommands(a) + ParseCommands(b)
  {
    var text := Chars(StripBom(a));
    LinesOfFirstLine(a, sep, b);
    StripBomNoEol(a);
    NoEolChars(StripBom(a));
    LinesOfOneLine(text);
    ParseLinesAppend([text], Lines(Chars(b)));
    assert StripBom(b) == b;
  }
}

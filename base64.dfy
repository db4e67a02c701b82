/**
 * Base64 decoding with the standard alphabet of section 4 of RFC 4648 and
 * canonical padding, as the `base64` crate's `STANDARD` engine does it:
 * the text is whole four-character groups, '=' appears only as the padding
 * of the last group, and the bits that padding leaves over must be zero.
 */
module Base64 {
  import opened Wrappers
  import opened Text

  predicate IsSextet(c: char) {
    'A' <= c <= 'Z' || 'a' <= c <= 'z' || '0' <= c <= '9' || c == '+' || c == '/'
  }

  function SextetValue(c: char): (v: nat)
    requires IsSextet(c)
    ensures v < 64
  {
    if 'A' <= c <= 'Z' then c as int - 'A' as int
    else if 'a' <= c <= 'z' then c as int - 'a' as int + 26
    else if '0' <= c <= '9' then c as int - '0' as int + 52
    else if c == '+' then 62
    else 63
  }

  /** The number of '=' that end a padded last group. */
  function Padding(s: string): nat {
    if |s| >= 2 && s[|s| - 2] == '=' && s[|s| - 1] == '=' then 2
    else if |s| >= 1 && s[|s| - 1] == '=' then 1
    else 0
  }

  /** Three bytes from four sextets. */
  function FullGroup(a: nat, b: nat, c: nat, d: nat): (r: seq<Byte>)
    requires a < 64 && b < 64 && c < 64 && d < 64
    ensures |r| == 3
  {
    var n := ((a * 64 + b) * 64 + c) * 64 + d;
    assert n < 0x100_0000;
    [n / 0x1_0000, n / 0x100 % 0x100, n % 0x100]
  }

  /** One group of four characters; only the last group of the text may be padded. */
  function DecodeGroup(g: string, last: bool): (r: Option<seq<Byte>>)
    requires |g| == 4
    ensures r.Some? ==> |r.value| == 3 - (if last then Padding(g) else 0)
  {
    if IsSextet(g[0]) && IsSextet(g[1]) && IsSextet(g[2]) && IsSextet(g[3]) then
      Some(FullGroup(SextetValue(g[0]), SextetValue(g[1]), SextetValue(g[2]), SextetValue(g[3])))
    else if last && IsSextet(g[0]) && IsSextet(g[1]) && IsSextet(g[2]) && g[3] == '='
            && SextetValue(g[2]) % 4 == 0 then
      var bytes := FullGroup(SextetValue(g[0]), SextetValue(g[1]), SextetValue(g[2]), 0);
      Some(bytes[..2])
    else if last && IsSextet(g[0]) && IsSextet(g[1]) && g[2] == '=' && g[3] == '='
            && SextetValue(g[1]) % 16 == 0 then
      var bytes := FullGroup(SextetValue(g[0]), SextetValue(g[1]), 0, 0);
      Some(bytes[..1])
    else None
  }

  function DecodeFrom(s: string, p: nat): (r: Option<seq<Byte>>)
    requires p <= |s| && (|s| - p) % 4 == 0
    ensures r.Some? && p < |s| ==> |r.value| == 3 * ((|s| - p) / 4) - Padding(s)
    ensures r.Some? && p == |s| ==> r.value == []
    decreases |s| - p
  {
    if p == |s| then Some([])
    else
      var last := p + 4 == |s|;
      match DecodeGroup(s[p..p + 4], last)
      case None => None
      case Some(bytes) =>
        if last then
          assert Padding(s[p..p + 4]) == Padding(s);
          Some(bytes)
        else
          match DecodeFrom(s, p + 4)
          case None => None
          case Some(more) => Some(bytes + more)
  }

  /**
   * `BASE64_STANDARD.decode`: None for text that is not canonical Base64;
   * otherwise three bytes per group less one per padding character.
   */
  function Decode(s: string): (r: Option<seq<Byte>>)
    ensures r.Some? ==> |s| % 4 == 0 && |r.value| == 3 * (|s| / 4) - Padding(s)
  {
    if |s| % 4 != 0 then None else DecodeFrom(s, 0)
  }

  /** "YWJj" is the bytes of "abc" (the PE_TEX_INFO fixtures). */
  lemma DecodeAbc()
    ensures Decode("YWJj") == Some([97, 98, 99])
  {
    assert DecodeGroup("YWJj", true) == Some([97, 98, 99]);
  }
}

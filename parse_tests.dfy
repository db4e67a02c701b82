/** Cases from the unit tests of ldraw/parse.rs, stated on the model. */
module ParseTests {
  import opened Wrappers
  import opened Parse
  import LDraw
  import Numbers
  import Text

  lemma FromHexCases()
    ensures FromHex("0") == Some(0) && FromHex("a") == Some(10) && FromHex("F") == Some(15)
    ensures FromHex("10") == Some(16) && FromHex("FF") == Some(255)
    ensures FromHex("G") == None && FromHex("1G") == None && FromHex("100") == None
  {
    assert Numbers.UnsignedBody("0") == "0";
    assert Numbers.UnsignedBody("a") == "a";
    assert Numbers.UnsignedBody("F") == "F";
    assert Numbers.UnsignedBody("G") == "G";
    assert Numbers.UnsignedBody("1G") == "1G";
    assert Numbers.UnsignedBody("100") == "100";
    TwoHexDigits("10");
    TwoHexDigits("FF");
    assert !Numbers.AllDigitsIn("1G", 16) by { assert "1G"[1] == 'G'; }
    assert Numbers.DigitsValue("100", 16) == Numbers.DigitsValue("10", 16) * 16 by {
      assert "100"[..2] == "10";
    }
    TwoHexDigits("10");
  }

  lemma ReadCmdIdStrCases()
    ensures ReadCmdIdStr("0", 0) == Done(1, "0")
    ensures ReadCmdIdStr("0   e", 0) == Done(4, "0")
  {
    assert RunEnd("0", 0, DecDigits) == 1;
    assert "0"[0..1] == "0";
    var s := "0   e";
    assert RunEnd(s, 0, Spaces) == 0;
    assert RunEnd(s, 1, DecDigits) == 1;
    assert RunEnd(s, 0, DecDigits) == 1;
    assert s[0..1] == "0";
    assert RunEnd(s, 4, Spaces) == 4;
    assert RunEnd(s, 1, Spaces) == 4;
  }

  lemma HexColorCases()
    ensures HexColor("", 0) == Error(0, Tag)
    ensures HexColor("#FFFFFF", 0) == Done(7, LDraw.Color(255, 255, 255))
    ensures HexColor("#12345Z", 0) == Error(5, TakeWhileMN)
  {
    assert HexByte('F', 'F') == 255;
    assert !Text.StartsWith("", "#");
    assert Text.StartsWith("#FFFFFF", "#");
    assert Text.StartsWith("#12345Z", "#");
  }

  lemma ColourAlphaCases()
    ensures ColourAlpha("", 0) == Done(0, None)
    ensures ColourAlpha(" ALPHA 34 ", 0) == Done(9, Some(34))
  {
    var s := " ALPHA 34 ";
    assert RunEnd(s, 0, Spaces) == 1;
    assert Text.StartsWith(s[1..], "ALPHA");
    assert RunEnd(s, 6, Spaces) == 7;
    assert RunEnd(s, 7, DecDigits) == 9;
    assert s[7..9] == "34";
    assert Numbers.UnsignedBody("34") == "34";
    assert Numbers.DigitsValue("34", 10) == Numbers.DigitsValue("3", 10) * 10 + 4 by { assert "34"[..1] == "3"; }
  }

  /** A value that does not fit a byte makes the whole clause absent. */
  lemma ColourAlphaOverflow()
    ensures ColourAlpha(" ALPHA 256", 0) == Done(0, None)
  {
    var t := " ALPHA 256";
    assert RunEnd(t, 0, Spaces) == 1;
    assert Text.StartsWith(t[1..], "ALPHA");
    assert RunEnd(t, 6, Spaces) == 7;
    assert RunEnd(t, 7, DecDigits) == 10;
    assert t[7..10] == "256";
    assert Numbers.UnsignedBody("256") == "256";
    assert Numbers.DigitsValue("256", 10) == Numbers.DigitsValue("25", 10) * 10 + 6 by { assert "256"[..2] == "25"; }
    assert Numbers.DigitsValue("25", 10) == Numbers.DigitsValue("2", 10) * 10 + 5 by { assert "25"[..1] == "2"; }
  }

  lemma KeywordsListCases()
    ensures KeywordsList("a,b,c", 0) == Done(5, ["a", "b", "c"])
  {
    var s := "a,b,c";
    assert RunEnd(s, 0, NotCommaOrEol) == 1;
    assert RunEnd(s, 2, NotCommaOrEol) == 3;
    assert RunEnd(s, 4, NotCommaOrEol) == 5;
    assert s[0..1] == "a" && s[2..3] == "b" && s[4..5] == "c";
    assert KeywordsTail(s, 5) == Parsed(5, []);
    assert SingleComma(s, 3) == Done(4, s[3..4]);
    assert TakeNotCommaOrEol(s, 4) == Done(5, "c");
    var c := KeywordsTail(s, 3);
    assert c.pos == 5 && c.value == ["c"];
    assert SingleComma(s, 1) == Done(2, s[1..2]);
    assert TakeNotCommaOrEol(s, 2) == Done(3, "b");
    var bc := KeywordsTail(s, 1);
    assert bc.pos == 5 && bc.value == ["b", "c"];
    assert TakeNotCommaOrEol(s, 0) == Done(1, "a");
    var r := KeywordsList(s, 0);
    assert r.pos == 5 && r.value == ["a", "b", "c"];
  }

  lemma FilenameCases()
    ensures Filename("  asdkwl.ldr   \r\n", 0) == Done(15, "asdkwl.ldr")
  {
    FileNameLineEnd();
    assert "  asdkwl.ldr   \r\n"[0..15] == "  asdkwl.ldr   ";
    TrimFileName();
  }

  lemma FileNameLineEnd()
    ensures RunEnd("  asdkwl.ldr   \r\n", 0, NotEol) == 15
  {
    var s := "  asdkwl.ldr   \r\n";
    assert RunEnd(s, 15, NotEol) == 15;
  }

  lemma TrimFileName()
    ensures Text.Trim("  asdkwl.ldr   ") == "asdkwl.ldr"
  {
    var t := "  asdkwl.ldr   ";
    assert Text.LeadEnd(t, 2) == 2;
    assert Text.LeadEnd(t, 1) == 2;
    assert Text.LeadEnd(t, 0) == 2;
    assert Text.TrailStart(t, 2, 12) == 12;
    assert Text.TrailStart(t, 2, 13) == 12;
    assert Text.TrailStart(t, 2, 14) == 12;
    assert Text.TrailStart(t, 2, 15) == 12;
    assert t[2..12] == "asdkwl.ldr";
  }

  lemma ColorFinishCases()
    ensures ColorFinish("", 0) == Done(0, None)
    ensures ColorFinish("CHROME", 0) == Done(0, None)
    ensures ColorFinish(" CHROMEas", 0) == Done(7, Some(LDraw.Chrome))
    ensures ColorFinish(" METAL", 0) == Done(6, Some(LDraw.Metal))
  {
    var s := " CHROMEas";
    assert RunEnd(s, 0, Spaces) == 1 by { assert RunEnd(s, 1, Spaces) == 1; }
    assert AtNoCase(s, 1, "CHROME") by { assert Text.ToLower(s[1..7]) == Text.ToLower("CHROME"); }
    var m := " METAL";
    assert RunEnd(m, 0, Spaces) == 1 by { assert RunEnd(m, 1, Spaces) == 1; }
    assert AtNoCase(m, 1, "METAL") by { assert Text.ToLower(m[1..6]) == Text.ToLower("METAL"); }
  }

  lemma ColorFinishOtherMaterial(s: string)
    requires s == " MATERIAL custom values"
    ensures ColorFinish(s, 0) == Done(23, Some(LDraw.Material(LDraw.Other("custom values"))))
  {
    MaterialKeywordAt(s);
    NoFinishKeywordBeforeMaterial(s);
    MaterialCustomValues(s);
  }

  lemma NoFinishKeywordBeforeMaterial(s: string)
    requires s == " MATERIAL custom values"
    ensures FinishKeyword(s, 1).None?
  {
    assert s[1] == 'M' && s[2] == 'A' && s[4] == 'E';
    Mismatch(s, 1, "CHROME", 0);
    Mismatch(s, 1, "PEARLESCENT", 0);
    Mismatch(s, 1, "RUBBER", 0);
    Mismatch(s, 1, "MATTE_METALLIC", 3);
    Mismatch(s, 1, "METAL", 1);
  }

  /** One letter that differs, whatever the case, is enough for a keyword not to match. */
  lemma Mismatch(s: string, q: nat, t: string, k: nat)
    requires k < |t| && q + k < |s|
    requires Text.ToAsciiLower(s[q + k]) != Text.ToAsciiLower(t[k])
    ensures !AtNoCase(s, q, t)
  {
  }

  lemma MaterialCustomValues(s: string)
    requires s == " MATERIAL custom values"
    ensures MaterialFinish(s, 1) == Done(23, LDraw.Material(LDraw.Other("custom values")))
  {
    MaterialKeywordAt(s);
    Mismatch(s, 10, "GLITTER", 0);
    Mismatch(s, 10, "SPECKLE", 0);
    CustomValues(s);
  }

  lemma MaterialKeywordAt(s: string)
    requires s == " MATERIAL custom values"
    ensures RunEnd(s, 0, Spaces) == 1
    ensures AtNoCase(s, 1, "MATERIAL") && RunEnd(s, 9, Spaces) == 10
  {
    assert RunEnd(s, 1, Spaces) == 1;
    assert s == " " + "MATERIAL" + " custom values";
    assert s[1..9] == "MATERIAL";
    assert RunEnd(s, 10, Spaces) == 10;
  }

  lemma CustomValues(s: string)
    requires s == " MATERIAL custom values"
    ensures OtherMaterial(s, 10) == Done(23, LDraw.Material(LDraw.Other("custom values")))
  {
    assert RunEnd(s, 10, NotEol) == 23;
    var v := s[10..23];
    assert v == "custom values";
    assert Text.LeadEnd(v, 0) == 0;
    assert Text.TrailStart(v, 0, 13) == 13;
    assert v[0..13] == v;
    assert Text.Trim(v) == "custom values";
  }

  lemma BfcCertifyCcw(s: string)
    requires s == "BFC CERTIFY CCW"
    ensures Bfc(s, 0) == Done(15, LDraw.Bfc(LDraw.Certify(Some(LDraw.Ccw))))
  {
    assert s == "BFC" + " " + "CERTIFY" + " " + "CCW";
    assert s[..3] == "BFC" && s[4..][..7] == "CERTIFY";
    assert s[4..][..9][0] != "NOCERTIFY"[0];
    assert RunEnd(s, 3, Spaces) == 4 by { assert RunEnd(s, 4, Spaces) == 4; }
    assert RunEnd(s, 11, Spaces) == 12 by { assert RunEnd(s, 12, Spaces) == 12; }
    Mismatch(s, 12, "CW", 1);
    assert s[12..15] == "CCW";
  }

  lemma BfcClip(s: string)
    requires s == "BFC CLIP"
    ensures Bfc(s, 0) == Done(8, LDraw.Bfc(LDraw.Clip(None)))
  {
    assert s == "BFC" + " " + "CLIP";
    assert s[..3] == "BFC" && s[4..] == "CLIP";
    assert RunEnd(s, 3, Spaces) == 4 by { assert RunEnd(s, 4, Spaces) == 4; }
    Mismatch(s, 4, "CW", 1);
    Mismatch(s, 4, "CCW", 1);
    assert RunEnd(s, 8, Spaces) == 8;
  }

  lemma BfcWindingCw(s: string)
    requires s == "BFC CW"
    ensures Bfc(s, 0) == Done(6, LDraw.Bfc(LDraw.SetWinding(LDraw.Cw)))
  {
    assert s == "BFC" + " " + "CW";
    assert s[..3] == "BFC" && s[4..] == "CW" && s[4..6] == "CW";
    assert RunEnd(s, 3, Spaces) == 4 by { assert RunEnd(s, 4, Spaces) == 4; }
  }
}

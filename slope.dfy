/** The slope-piece table of slope.rs and the grainy-face guard built on it. */
module Slope {
  // `SLOPE_ANGLES`, written in three parts of at most 30 entries each.
  const SlopeAnglesA: map<string, int> := map[
    "962.dat" := 45,
    "2341.dat" := 45,
    "2449.dat" := 45,
    "2875.dat" := 45,
    "2876.dat" := 40,
    "3037.dat" := 45,
    "3038.dat" := 45,
    "3039.dat" := 45,
    "3040.dat" := 45,
    "3041.dat" := 45,
    "3042.dat" := 45,
    "3043.dat" := 45,
    "3044.dat" := 45,
    "3045.dat" := 45,
    "3046.dat" := 45,
    "3048.dat" := 45,
    "3049.dat" := 45,
    "3135.dat" := 45,
    "3297.dat" := 45,
    "3298.dat" := 45,
    "3299.dat" := 45,
    "3300.dat" := 45,
    "3660.dat" := 45,
    "3665.dat" := 45,
    "3675.dat" := 45,
    "3676.dat" := 45,
    "3678b.dat" := 45,
    "3684.dat" := 45,
    "3685.dat" := 45,
    "3688.dat" := 45
  ]

  const SlopeAnglesB: map<string, int> := map[
    "3747.dat" := 45,
    "4089.dat" := 45,
    "4161.dat" := 45,
    "4286.dat" := 45,
    "4287.dat" := 45,
    "4445.dat" := 45,
    "4460.dat" := 45,
    "4509.dat" := 45,
    "4854.dat" := 45,
    "4856.dat" := 45,
    "4857.dat" := 45,
    "4858.dat" := 45,
    "4861.dat" := 45,
    "4871.dat" := 45,
    "6069.dat" := 45,
    "6153.dat" := 45,
    "6227.dat" := 45,
    "6270.dat" := 45,
    "13269.dat" := 45,
    "13548.dat" := 45,
    "15571.dat" := 45,
    "18759.dat" := 45,
    "22390.dat" := 45,
    "22391.dat" := 45,
    "22889.dat" := 45,
    "28192.dat" := 45,
    "30180.dat" := 45,
    "30182.dat" := 45,
    "30183.dat" := 45,
    "30249.dat" := 45
  ]

  const SlopeAnglesC: map<string, int> := map[
    "30283.dat" := 45,
    "30363.dat" := 45,
    "30373.dat" := 45,
    "30382.dat" := 45,
    "30390.dat" := 45,
    "30499.dat" := 45,
    "32083.dat" := 45,
    "43708.dat" := 45,
    "43710.dat" := 45,
    "43711.dat" := 45,
    "47759.dat" := 45,
    "52501.dat" := 45,
    "60219.dat" := 45,
    "60477.dat" := 45,
    "60481.dat" := 45,
    "63341.dat" := 45,
    "72454.dat" := 45,
    "92946.dat" := 45,
    "93348.dat" := 45,
    "95188.dat" := 45,
    "99301.dat" := 45,
    "303923.dat" := 45,
    "303926.dat" := 45,
    "304826.dat" := 45,
    "329826.dat" := 45,
    "374726.dat" := 45,
    "428621.dat" := 45,
    "4162628.dat" := 45,
    "4195004.dat" := 45
  ]

  /** `SLOPE_ANGLES`: the slope bricks by file name, with their angle in degrees. */
  const SlopeAngles: map<string, int> := SlopeAnglesA + SlopeAnglesB + SlopeAnglesC

  /** `is_slope_piece`: an exact, case-sensitive lookup of the name in the table. */
  predicate IsSlopePiece(name: string) {
    name in SlopeAngles
  }

  /** Every angle in `m` is 45 degrees, except that of 2876.dat, which is 40. */
  ghost predicate Angles45Except2876(m: map<string, int>) {
    forall name :: name in m ==> m[name] == if name == "2876.dat" then 40 else 45
  }

  lemma PartAAngles() ensures Angles45Except2876(SlopeAnglesA) {}
  lemma PartBAngles() ensures Angles45Except2876(SlopeAnglesB) {}
  lemma PartCAngles() ensures Angles45Except2876(SlopeAnglesC) {}

  /** Every slope in the table is 45 degrees except 2876.dat, which is 40. */
  lemma SlopeAnglesAre45Except2876()
    ensures Angles45Except2876(SlopeAngles)
    ensures "2876.dat" in SlopeAngles && SlopeAngles["2876.dat"] == 40
  {
    PartAAngles();
    PartBAngles();
    PartCAngles();
  }

  /** Listed names are found as written. */
  lemma ListedNamesFound()
    ensures IsSlopePiece("3039.dat") && IsSlopePiece("2876.dat") && IsSlopePiece("4195004.dat")
  {
  }

  /** Every name in `m` ends in a lower-case letter. */
  ghost predicate EndsLowerCase(m: map<string, int>) {
    forall name :: name in m ==> |name| > 0 && 'a' <= name[|name| - 1] <= 'z'
  }

  lemma PartALowerCase() ensures EndsLowerCase(SlopeAnglesA) {}
  lemma PartBLowerCase() ensures EndsLowerCase(SlopeAnglesB) {}
  lemma PartCLowerCase() ensures EndsLowerCase(SlopeAnglesC) {}

  /** The lookup is case-sensitive: a listed name with an upper-case extension is not found. */
  lemma UpperCaseNotFound()
    ensures IsSlopePiece("3039.dat") && !IsSlopePiece("3039.DAT")
  {
    PartALowerCase();
    PartBLowerCase();
    PartCLowerCase();
    assert "3039.DAT"[7] == 'T';
  }

  /**
   * `is_grainy_slope`: the face-angle test (between 15 and 75 degrees from
   * the ground) is floating point and is a parameter; it only counts for a
   * slope piece that is not a stud. The grainy-face test of geometry.rs is
   * itself a parameter of this model, so no other member uses it.
   */
  function IsGrainySlope(angleInRange: bool, isSlope: bool, isStud: bool): (r: bool)
    ensures r ==> isSlope && !isStud
    ensures isSlope && !isStud ==> r == angleInRange
  {
    if isSlope && !isStud then angleInRange else false
  }
}

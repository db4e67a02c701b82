/** The colour table of color.rs: which `!COLOUR` definitions are metallic or transmissive, keyed by code. */
module Colors {
  import opened Wrappers
  import opened LDraw

  /**
   * `LDrawColor`. The linear RGB of the source is the sRGB value passed
   * through a floating-point transfer curve; the model keeps the sRGB value.
   */
  datatype LDrawColor = LDrawColor(name: string, srgb: Color, isMetallic: bool, isTransmissive: bool)

  /** `is_metallic`: a CHROME, MATTE_METALLIC or METAL finish. */
  predicate IsMetallic(c: ColourCmd) {
    match c.finish
    case Some(Chrome) => true
    case Some(MatteMetallic) => true
    case Some(Metal) => true
    case _ => false
  }

  /** `is_transmissive`: an ALPHA clause below 255. */
  predicate IsTransmissive(c: ColourCmd) {
    match c.alpha
    case Some(a) => a < 255
    case None => false
  }

  /** Only the three metal finishes are metallic; pearlescent, rubber, materials and no finish are not. */
  lemma MetallicFinishes(c: ColourCmd)
    ensures IsMetallic(c) <==> c.finish in {Some(Chrome), Some(MatteMetallic), Some(Metal)}
    ensures c.finish in {None, Some(Pearlescent), Some(Rubber)} || (c.finish.Some? && c.finish.value.Material?)
            ==> !IsMetallic(c)
  {
  }

  /** A colour with no ALPHA clause, or with ALPHA 255, is opaque. */
  lemma OpaqueColours(c: ColourCmd)
    ensures IsTransmissive(c) <==> c.alpha.Some? && c.alpha.value != 255
  {
  }

  /** The table entry for one `!COLOUR` definition. */
  function Entry(c: ColourCmd): (r: LDrawColor)
    ensures r.name == c.name && r.srgb == c.value
    ensures r.isMetallic == IsMetallic(c) && r.isTransmissive == IsTransmissive(c)
  {
    LDrawColor(c.name, c.value, IsMetallic(c), IsTransmissive(c))
  }

  /**
   * `load_color_table` after the file is read and parsed: the `!COLOUR`
   * commands collected into a map by code, a later definition replacing
   * an earlier one with the same code, every other command dropped.
   */
  function ColorTable(cmds: seq<Command>): (r: map<ColorCode, LDrawColor>)
    ensures forall code :: code in r <==> exists i :: 0 <= i < |cmds| && cmds[i].Colour? && cmds[i].colour.code == code
  {
    if cmds == [] then map[]
    else
      var init := cmds[..|cmds| - 1];
      var last := cmds[|cmds| - 1];
      assert forall i :: 0 <= i < |init| ==> init[i] == cmds[i];
      var m := ColorTable(init);
      if last.Colour? then m[last.colour.code := Entry(last.colour)] else m
  }

  /** The definition that wins for `code`: the last `!COLOUR` command with that code. */
  lemma {:induction false} LastDefinitionWins(cmds: seq<Command>, code: ColorCode)
    requires code in ColorTable(cmds)
    ensures exists i :: 0 <= i < |cmds| && cmds[i].Colour? && cmds[i].colour.code == code
                        && ColorTable(cmds)[code] == Entry(cmds[i].colour)
                        && forall j :: i < j < |cmds| ==> !(cmds[j].Colour? && cmds[j].colour.code == code)
  {
    var init := cmds[..|cmds| - 1];
    var last := cmds[|cmds| - 1];
    if last.Colour? && last.colour.code == code {
      assert cmds[|cmds| - 1].Colour?;
    } else {
      assert code in ColorTable(init);
      LastDefinitionWins(init, code);
      var i :| 0 <= i < |init| && init[i].Colour? && init[i].colour.code == code
               && ColorTable(init)[code] == Entry(init[i].colour)
               && forall j :: i < j < |init| ==> !(init[j].Colour? && init[j].colour.code == code);
      assert cmds[i] == init[i];
      forall j | i < j < |cmds| ensures !(cmds[j].Colour? && cmds[j].colour.code == code) {
        if j < |init| {
          assert cmds[j] == init[j];
        }
      }
    }
  }

  /** Commands other than `!COLOUR` leave the table as it is, wherever they appear. */
  lemma {:induction false} OtherCommandsIgnored(cmds: seq<Command>, others: seq<Command>)
    requires forall k :: 0 <= k < |others| ==> !others[k].Colour?
    ensures ColorTable(cmds + others) == ColorTable(cmds)
    decreases |others|
  {
    if others != [] {
      var init := others[..|others| - 1];
      assert (cmds + others)[..|cmds + others| - 1] == cmds + init;
      OtherCommandsIgnored(cmds, init);
    } else {
      assert cmds + others == cmds;
    }
  }
}

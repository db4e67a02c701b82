/**
 * The settings shared by the geometry assembler and the scene builder
 * (lib.rs): the inherited colour code, the stud variants, the primitive
 * resolution and the geometry settings.
 */
module Settings {
  import LDraw

  type ColorCode = LDraw.ColorCode

  /** The colour code that inherits the colour of the referencing file. */
  const CurrentColor: ColorCode := 16

  /** `replace_color`: code 16 takes the inherited colour, every other code stays. */
  function ReplaceColor(color: ColorCode, current: ColorCode): (r: ColorCode)
    ensures color == CurrentColor ==> r == current
    ensures color != CurrentColor ==> r == color
  {
    if color == CurrentColor then current else color
  }

  datatype StudType = Disabled | Normal | Logo4 | HighContrast

  datatype PrimitiveResolution = Low | NormalResolution | High

  /**
   * `GeometrySettings`; the scene scale is a real, and whether gaps are
   * added between parts only matters for the scale, which is a parameter
   * of the model.
   */
  datatype GeometrySettings = GeometrySettings(
    triangulate: bool,
    addGapBetweenParts: bool,
    studType: StudType,
    weldVertices: bool,
    primitiveResolution: PrimitiveResolution,
    sceneScale: real)

  /** `GeometrySettings::default`. */
  const DefaultSettings := GeometrySettings(false, false, Normal, false, NormalResolution, 1.0)
}

/**
 * The commands of an LDraw file (ldraw.rs): the line types 0 to 5 of the
 * LDraw File Format Specification, the meta commands of the !COLOUR, BFC and
 * MPD extensions, and Bricklink Studio's PE_TEX_PATH / PE_TEX_INFO lines.
 */
module LDraw {
  import opened Wrappers
  import opened Text
  import opened Linalg

  /** A colour code (`u32`): a number below 2^32. */
  type ColorCode = c: nat | c < 0x1_0000_0000

  /** An sRGB colour written `#RRGGBB`. */
  datatype Color = Color(red: Byte, green: Byte, blue: Byte)

  datatype GrainSize = Size(size: real) | MinMaxSize(minSize: real, maxSize: real)

  datatype GlitterMaterial = GlitterMaterial(
    value: Color, alpha: Option<Byte>, luminance: Option<Byte>,
    surfaceFraction: real, volumeFraction: real, size: GrainSize)

  datatype SpeckleMaterial = SpeckleMaterial(
    value: Color, alpha: Option<Byte>, luminance: Option<Byte>,
    surfaceFraction: real, size: GrainSize)

  datatype MaterialFinish = Glitter(glitter: GlitterMaterial) | Speckle(speckle: SpeckleMaterial) | Other(text: string)

  datatype ColorFinish = Chrome | Pearlescent | Rubber | MatteMetallic | Metal | Material(material: MaterialFinish)

  /** A `!COLOUR` definition. */
  datatype ColourCmd = ColourCmd(
    name: string, code: ColorCode, value: Color, edge: Color,
    alpha: Option<Byte>, luminance: Option<Byte>, finish: Option<ColorFinish>)

  /** The placement of a sub-file: a position and the three rows of its 3x3 matrix. */
  datatype Transform = Transform(pos: Vec3, row0: Vec3, row1: Vec3, row2: Vec3)

  /** `Transform::to_matrix`: the rows become the linear part, the position the translation. */
  function ToMatrix(t: Transform): Mat4 {
    Mat4(t.row0, t.row1, t.row2, t.pos)
  }

  datatype Winding = Ccw | Cw

  /** A BFC meta command; `SetWinding` is the crate's `BfcCommand::Winding`. */
  datatype BfcCommand = NoCertify | Certify(certifyWinding: Option<Winding>) | SetWinding(winding: Winding)
                      | NoClip | Clip(clipWinding: Option<Winding>) | InvertNext

  /** The projection box of a PE_TEX_INFO line. */
  datatype PeTexInfoTransform = PeTexInfoTransform(transform: Transform, pointMin: Vec2, pointMax: Vec2)

  datatype Command =
    | Category(category: string)
    | Keywords(keywords: seq<string>)
    | Colour(colour: ColourCmd)
    | File(file: string)
    | NoFile
    | Data(file: string)
    | Base64Data(data: seq<Byte>)
    | Comment(text: string)
    | SubFileRef(color: ColorCode, transform: Transform, file: string)
    | Line(color: ColorCode, vertices: seq<Vec3>)
    | Triangle(color: ColorCode, vertices: seq<Vec3>, uvs: Option<seq<Vec2>>)
    | Quad(color: ColorCode, vertices: seq<Vec3>, uvs: Option<seq<Vec2>>)
    | OptLine(color: ColorCode, vertices: seq<Vec3>, controlPoints: seq<Vec3>)
    | Bfc(bfc: BfcCommand)
    | PeTexPath(paths: seq<int>)
    | PeTexInfo(placement: Option<PeTexInfoTransform>, data: seq<Byte>)

  /**
   * The array lengths of the crate's command structs: two points for a line,
   * three for a triangle, four for a quad, one UV per point when UVs are given.
   */
  predicate WellFormed(cmd: Command) {
    match cmd
    case Line(_, vs) => |vs| == 2
    case Triangle(_, vs, uvs) => |vs| == 3 && (uvs.Some? ==> |uvs.value| == 3)
    case Quad(_, vs, uvs) => |vs| == 4 && (uvs.Some? ==> |uvs.value| == 4)
    case OptLine(_, vs, cs) => |vs| == 2 && |cs| == 2
    case _ => true
  }

  /** The parsed contents of one file. */
  datatype SourceFile = SourceFile(cmds: seq<Command>)

  predicate WellFormedFile(f: SourceFile) {
    forall k :: 0 <= k < |f.cmds| ==> WellFormed(f.cmds[k])
  }
}

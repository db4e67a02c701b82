/**
 * Bricklink Studio textures (pe_tex_info.rs): the per-mesh texture buffers,
 * the PE_TEX_INFO line, and the projection of a texture onto a face.
 */
module TexInfo {
  import opened Wrappers
  import opened Text
  import opened Linalg
  import Numbers
  import Base64

  /** The per-face texture index of a face without a texture (`u8::MAX`). */
  const NoTexture: Byte := 255

  /**
   * `LDrawTextureInfo`: the decoded images, one texture index per face and
   * one UV per vertex-index slot of the mesh.
   */
  datatype TextureInfo = TextureInfo(textures: seq<seq<Byte>>, indices: seq<Byte>, uvs: seq<Vec2>)

  /**
   * `LDrawTextureInfo::new`: the buffers of a mesh that already has
   * `numFaces` faces and `numVertices` index slots, none of them textured.
   */
  function NewTextureInfo(numFaces: nat, numVertices: nat): (r: TextureInfo)
    ensures r.textures == []
    ensures |r.indices| == numFaces && forall i :: 0 <= i < numFaces ==> r.indices[i] == NoTexture
    ensures |r.uvs| == numVertices && forall i :: 0 <= i < numVertices ==> r.uvs[i] == Zero2
  {
    TextureInfo([], seq(numFaces, _ => NoTexture), seq(numVertices, _ => Zero2))
  }

  /** Where a texture is projected from: a placement and a rectangle of the image plane. */
  datatype TextureLocation = TextureLocation(transform: Mat4, pointMin: Vec2, pointMax: Vec2)

  /**
   * `PendingStudioTexture`: a registered texture, where it is projected
   * from (if anywhere), and the path of sub-file reference ordinals that
   * leads to the file it applies to.
   */
  datatype PendingTexture = PendingTexture(index: Byte, location: Option<TextureLocation>, path: seq<int>)

  /** `TextureMap`: the texture index of a face and the UV of each of its corners. */
  datatype TextureMap = TextureMap(textureIndex: Byte, uvs: seq<Vec2>)

  /** The parts of a PE_TEX_INFO line: the optional projection and the decoded image. */
  datatype TexInfoLine = TexInfoLine(location: Option<TextureLocation>, image: seq<Byte>)

  /** The keyword that starts a PE_TEX_INFO line. */
  const TexInfoKeyword := "PE_TEX_INFO"

  predicate AllFloats(cells: seq<string>) {
    forall k :: 0 <= k < |cells| ==> Numbers.ParseF32(cells[k]).Some?
  }

  /**
   * `filter_map(|c| c.parse::<f32>().ok())`: the cells that are floats, in
   * order; every cell is kept exactly when every cell is a float.
   */
  function Floats(cells: seq<string>): (r: seq<real>)
    ensures |r| <= |cells|
    ensures |r| == |cells| <==> AllFloats(cells)
  {
    if cells == [] then []
    else
      var head := Numbers.ParseF32(cells[0]);
      var rest := Floats(cells[1..]);
      assert AllFloats(cells) <==> head.Some? && AllFloats(cells[1..]) by {
        if head.Some? && AllFloats(cells[1..]) {
          forall k | 0 <= k < |cells| ensures Numbers.ParseF32(cells[k]).Some? {
            if k > 0 {
              assert cells[1..][k - 1] == cells[k];
            }
          }
        }
        if AllFloats(cells) {
          forall k | 0 <= k < |cells[1..]| ensures Numbers.ParseF32(cells[1..][k]).Some? {
            assert cells[1..][k] == cells[k + 1];
          }
        }
      }
      (if head.Some? then [head.value] else []) + rest
  }

  /** When every cell is a float, the k-th value is the k-th cell's. */
  lemma {:induction false} FloatsInOrder(cells: seq<string>)
    requires AllFloats(cells)
    ensures forall k :: 0 <= k < |cells| ==> Floats(cells)[k] == Numbers.ParseF32(cells[k]).value
  {
    if cells != [] {
      assert AllFloats(cells[1..]) by {
        forall k | 0 <= k < |cells[1..]| ensures Numbers.ParseF32(cells[1..][k]).Some? {
          assert cells[1..][k] == cells[k + 1];
        }
      }
      FloatsInOrder(cells[1..]);
      forall k | 0 <= k < |cells| ensures Floats(cells)[k] == Numbers.ParseF32(cells[k]).value {
        if k > 0 {
          assert cells[1..][k - 1] == cells[k];
        }
      }
    }
  }

  /**
   * The projection of the sixteen numbers x y z a b c d e f g h i u0 v0 u1 v1:
   * rows (a, b, c), (d, e, f), (g, h, i), translation (x, y, z), and the
   * image rectangle from (u0, v0) to (u1, v1).
   */
  function LocationOf(f: seq<real>): TextureLocation
    requires |f| >= 16
  {
    TextureLocation(
      Mat4(Vec3(f[3], f[4], f[5]), Vec3(f[6], f[7], f[8]), Vec3(f[9], f[10], f[11]), Vec3(f[0], f[1], f[2])),
      Vec2(f[12], f[13]), Vec2(f[14], f[15]))
  }

  /**
   * `next_array`: the next `n` items of an iterator over `items` that is
   * at position `from`, or None when it runs out first; also the position
   * the iterator is left at.
   */
  method NextArray<T>(items: seq<T>, from: nat, n: nat) returns (r: Option<seq<T>>, next: nat)
    requires from <= |items|
    ensures r.Some? <==> from + n <= |items|
    ensures r.Some? ==> r.value == items[from..from + n] && next == from + n
    ensures from <= next <= |items|
  {
    var arr: seq<T> := [];
    next := from;
    while |arr| < n
      invariant from <= next <= |items|
      invariant |arr| == next - from <= n
      invariant arr == items[from..next]
    {
      if next == |items| {
        return None, next;
      }
      arr := arr + [items[next]];
      next := next + 1;
    }
    return Some(arr), next;
  }

  /**
   * What a PE_TEX_INFO line holds: the keyword and an image, or the keyword,
   * sixteen floats and an image, where the image is canonical Base64.
   */
  function TexInfoOf(line: string): Option<TexInfoLine> {
    var words := SplitWhitespace(line);
    if |words| == 2 && words[0] == TexInfoKeyword && Base64.Decode(words[1]).Some? then
      Some(TexInfoLine(None, Base64.Decode(words[1]).value))
    else if |words| == 18 && words[0] == TexInfoKeyword && AllFloats(words[1..17]) && Base64.Decode(words[17]).Some? then
      Some(TexInfoLine(Some(LocationOf(Floats(words[1..17]))), Base64.Decode(words[17]).value))
    else None
  }

  /**
   * The text part of `PendingStudioTexture::parse`: a PE_TEX_INFO line is
   * the keyword and an image, or the keyword, sixteen numbers and an image;
   * the numbers must all be floats and the image canonical Base64.
   */
  method ParseTexInfo(line: string) returns (r: Option<TexInfoLine>)
    ensures var words := SplitWhitespace(line);
            r.Some? ==> |words| >= 2 && words[0] == TexInfoKeyword
    ensures var words := SplitWhitespace(line);
            |words| != 2 && |words| != 18 ==> r.None?
    ensures var words := SplitWhitespace(line);
            |words| == 2 && words[0] == TexInfoKeyword ==>
              (r.Some? <==> Base64.Decode(words[1]).Some?)
              && (r.Some? ==> r.value == TexInfoLine(None, Base64.Decode(words[1]).value))
    ensures var words := SplitWhitespace(line);
            |words| == 18 && words[0] == TexInfoKeyword ==>
              (r.Some? <==> AllFloats(words[1..17]) && Base64.Decode(words[17]).Some?)
              && (r.Some? ==> r.value == TexInfoLine(Some(LocationOf(Floats(words[1..17]))), Base64.Decode(words[17]).value))
    ensures r == TexInfoOf(line)
  {
    var words := SplitWhitespace(line);
    if |words| == 0 || words[0] != TexInfoKeyword {
      return None;
    }
    var image: string;
    var location: Option<TextureLocation> := None;
    if |words| - 1 == 16 + 1 {
      var cells := words[1..17];
      var floats := Floats(cells);
      var placement, afterPlacement := NextArray(floats, 0, 12);
      if placement.None? {
        return None;
      }
      var pointMin, afterMin := NextArray(floats, afterPlacement, 2);
      if pointMin.None? {
        return None;
      }
      var pointMax, _ := NextArray(floats, afterMin, 2);
      if pointMax.None? {
        return None;
      }
      var f := placement.value + pointMin.value + pointMax.value;
      assert f == floats;
      location := Some(LocationOf(f));
      image := words[17];
    } else if |words| == 2 {
      image := words[1];
    } else {
      return None;
    }
    var decoded := Base64.Decode(image);
    if decoded.None? {
      return None;
    }
    return Some(TexInfoLine(location, decoded.value));
  }

  /**
   * `intersect_poly_box`: a triangle is tested as it is, a quad as the
   * triangles (a, b, c) and (c, d, a). The separating-axis test of one
   * triangle against the box is the parameter `triBox`.
   */
  function IntersectPolyBox(polygon: seq<Vec3>, extents: Vec3, triBox: (Vec3, Vec3, Vec3, Vec3) -> bool): bool
    requires |polygon| == 3 || |polygon| == 4
  {
    if |polygon| == 3 then triBox(polygon[0], polygon[1], polygon[2], extents)
    else triBox(polygon[0], polygon[1], polygon[2], extents) || triBox(polygon[2], polygon[3], polygon[0], extents)
  }

  /** A quad meets the box exactly when one of its two triangles does. */
  lemma QuadIntersection(a: Vec3, b: Vec3, c: Vec3, d: Vec3, extents: Vec3, triBox: (Vec3, Vec3, Vec3, Vec3) -> bool)
    ensures IntersectPolyBox([a, b, c, d], extents, triBox)
        <==> IntersectPolyBox([a, b, c], extents, triBox) || IntersectPolyBox([c, d, a], extents, triBox)
  {
  }

  /** `a / b`, with 0 where the source's float division would give an infinity or NaN. */
  function Ratio(a: real, b: real): real {
    if b == 0.0 then 0.0 else a / b
  }

  /** The image coordinates of a point of the texture's box: its (x, z) within the rectangle. */
  function PlanarUv(v: Vec3, pointMin: Vec2, pointMax: Vec2): Vec2 {
    Vec2(Ratio(v.x - pointMin.x, pointMax.x - pointMin.x), Ratio(v.z - pointMin.y, pointMax.y - pointMin.y))
  }

  /**
   * `project_texture`. Explicit UVs are taken as they are; otherwise a
   * texture without a location is not drawn; otherwise the corners are
   * moved into the texture's box, and a face that misses the box is not
   * drawn. `placement` is `init_texture_transform` followed by the inverse
   * of its matrix (float arithmetic of the source): it gives the transform
   * into the box and the box's half extents.
   */
  function ProjectTexture(texture: PendingTexture, transform: Mat4, vertices: seq<Vec3>, uvs: Option<seq<Vec2>>,
                          placement: (Mat4, Mat4) -> (Mat4, Vec3), triBox: (Vec3, Vec3, Vec3, Vec3) -> bool)
    : (r: Option<TextureMap>)
    requires |vertices| == 3 || |vertices| == 4
    requires uvs.Some? ==> |uvs.value| == |vertices|
    ensures uvs.Some? ==> r == Some(TextureMap(texture.index, uvs.value))
    ensures uvs.None? && texture.location.None? ==> r.None?
    ensures r.Some? ==> r.value.textureIndex == texture.index && |r.value.uvs| == |vertices|
  {
    if uvs.Some? then Some(TextureMap(texture.index, uvs.value))
    else if texture.location.None? then None
    else
      var location := texture.location.value;
      var (inverse, extents) := placement(location.transform, transform);
      var local := seq(|vertices|, k requires 0 <= k < |vertices| => TransformPoint(inverse, vertices[k]));
      if !IntersectPolyBox(local, extents, triBox) then None
      else Some(TextureMap(texture.index,
                           seq(|local|, k requires 0 <= k < |local| => PlanarUv(local[k], location.pointMin, location.pointMax))))
  }

  /** `f32::MAX`. */
  const F32Max: real := 340282346638528859811704183484516925440.0

  /**
   * `min_max`: the least and greatest value, starting from `f32::MAX` and
   * `f32::MIN`, so an empty slice gives (MAX, MIN). Its caller,
   * `init_texture_transform`, is a parameter of this model (`placement`),
   * so no other member uses it.
   */
  method MinMax(values: seq<real>) returns (lo: real, hi: real)
    ensures forall k :: 0 <= k < |values| ==> lo <= values[k] <= hi
    ensures lo <= F32Max && (lo == F32Max || lo in values)
    ensures hi >= -F32Max && (hi == -F32Max || hi in values)
  {
    lo, hi := F32Max, -F32Max;
    var i := 0;
    while i < |values|
      invariant 0 <= i <= |values|
      invariant forall k :: 0 <= k < i ==> lo <= values[k] <= hi
      invariant lo <= F32Max && (lo == F32Max || lo in values[..i])
      invariant hi >= -F32Max && (hi == -F32Max || hi in values[..i])
    {
      if values[i] < lo {
        lo := values[i];
      }
      if values[i] > hi {
        hi := values[i];
      }
      i := i + 1;
    }
    assert values[..i] == values;
  }
}

/**
 * The geometry assembler (geometry.rs): the buffers of one mesh, the vertex
 * map that welds positions, and `append_geometry`, the recursive walk over
 * a file's commands that fills them.
 *
 * The assembler is written twice. The functions over `Buffers`, a snapshot
 * of the mesh and its vertex map, say what each step leaves behind, and
 * the lemmas speak about them. The `Mesh` and `VertexMap` classes and the
 * methods on them change the buffers in place, and each is proved to leave
 * exactly the snapshot its function describes.
 */
module Geometry {
  import opened Wrappers
  import opened Text
  import opened Linalg
  import LDraw
  import Settings
  import Slope
  import opened TexInfo
  import Documents
  import EdgeSplit
  import Numbers

  type ColorCode = LDraw.ColorCode

  /** A type 2 line, as two transformed end points. */
  type Segment = (Vec3, Vec3)

  // ---------------------------------------------------------------------
  // Small helpers
  // ---------------------------------------------------------------------

  /** `invert_winding`: the winding is turned around exactly when `invert` is set. */
  function InvertWinding(winding: LDraw.Winding, invert: bool): (r: LDraw.Winding)
    ensures r == LDraw.Cw <==> (winding == LDraw.Cw) != invert
  {
    match (winding, invert)
    case (Ccw, false) => LDraw.Ccw
    case (Cw, false) => LDraw.Cw
    case (Ccw, true) => LDraw.Cw
    case (Cw, true) => LDraw.Ccw
  }

  /** `is_stud`: the name contains "stu". */
  predicate IsStud(name: string) {
    Contains(name, "stu")
  }

  /**
   * `replace_studs`: with studs disabled every stud file becomes the empty
   * name; with logo studs the three plain stud files become their logo
   * versions; otherwise the name stays.
   */
  function ReplaceStuds(file: string, studType: Settings.StudType): (r: string)
    ensures studType == Settings.Disabled ==> r == if IsStud(file) then "" else file
    ensures studType == Settings.Normal || studType == Settings.HighContrast ==> r == file
    ensures studType == Settings.Logo4 && file != "stud.dat" && file != "stud2.dat" && file != "stud20.dat" ==> r == file
  {
    match studType
    case Disabled => if IsStud(file) then "" else file
    case Normal => file
    case Logo4 =>
      if file == "stud.dat" then "stud-logo4.dat"
      else if file == "stud2.dat" then "stud2-logo4.dat"
      else if file == "stud20.dat" then "stud20-logo4.dat"
      else file
    case HighContrast => file
  }

  /** Stud substitution only ever renames stud files: any other name is kept under every stud type. */
  lemma ReplaceStudsKeepsOtherFiles(file: string, studType: Settings.StudType)
    requires !IsStud(file)
    ensures ReplaceStuds(file, studType) == file
  {
    assert StartsWith("stud.dat"[0..], "stu");
    assert StartsWith("stud2.dat"[0..], "stu");
    assert StartsWith("stud20.dat"[0..], "stu");
  }

  /** The prefix of a PE_TEX_PATH comment. */
  const TexPathPrefix := "PE_TEX_PATH "

  /** The prefix of a PE_TEX_INFO comment. */
  const TexInfoPrefix := "PE_TEX_INFO "

  /** Every word parsed as an `i32`, or None as soon as one is not. */
  function ParseInts(words: seq<string>): (r: Option<seq<int>>)
    ensures r.Some? <==> forall k :: 0 <= k < |words| ==> Numbers.ParseI32(words[k]).Some?
    ensures r.Some? ==> |r.value| == |words| && forall k :: 0 <= k < |words| ==> r.value[k] == Numbers.ParseI32(words[k]).value
  {
    if words == [] then Some([])
    else match Numbers.ParseI32(words[0])
      case None => None
      case Some(v) =>
        match ParseInts(words[1..])
        case None => None
        case Some(rest) => Some([v] + rest)
  }

  /**
   * `parse_tex_path`: the words after "PE_TEX_PATH ", each an `i32`;
   * None without the prefix or when a word is not an integer.
   */
  function ParseTexPath(line: string): (r: Option<seq<int>>)
    ensures r.Some? ==> StartsWith(line, TexPathPrefix)
    ensures StartsWith(line, TexPathPrefix) ==>
              var words := SplitWhitespace(line[|TexPathPrefix|..]);
              && (r.Some? <==> forall k :: 0 <= k < |words| ==> Numbers.ParseI32(words[k]).Some?)
              && (r.Some? ==> |r.value| == |words| && forall k :: 0 <= k < |words| ==> r.value[k] == Numbers.ParseI32(words[k]).value)
  {
    if StartsWith(line, TexPathPrefix) then ParseInts(SplitWhitespace(line[|TexPathPrefix|..])) else None
  }

  /** The items in reverse order. */
  function Reversed<T>(xs: seq<T>): (r: seq<T>)
    ensures |r| == |xs| && forall k :: 0 <= k < |xs| ==> r[k] == xs[|xs| - 1 - k]
  {
    seq(|xs|, k requires 0 <= k < |xs| => xs[|xs| - 1 - k])
  }

  /** The corners of a face in the order `add_face` stores them: reversed for a clockwise face. */
  function Oriented<T>(xs: seq<T>, winding: LDraw.Winding): (r: seq<T>)
    ensures |r| == |xs|
  {
    if winding == LDraw.Cw then Reversed(xs) else xs
  }

  /** The corner of the given face that `Oriented` puts at slot `k`. */
  function Corner(k: nat, n: nat, winding: LDraw.Winding): nat
    requires k < n
  {
    if winding == LDraw.Cw then n - 1 - k else k
  }

  /** Every slot of an oriented face holds one of the face's corners, and each corner lands on one slot. */
  lemma OrientedCorners<T>(xs: seq<T>, winding: LDraw.Winding)
    ensures forall k :: 0 <= k < |xs| ==> Corner(k, |xs|, winding) < |xs| && Oriented(xs, winding)[k] == xs[Corner(k, |xs|, winding)]
    ensures forall k, j :: 0 <= k < j < |xs| ==> Corner(k, |xs|, winding) != Corner(j, |xs|, winding)
    ensures winding == LDraw.Ccw ==> Oriented(xs, winding) == xs
  {
  }

  // ---------------------------------------------------------------------
  // The explicit UVs of a clockwise face
  // ---------------------------------------------------------------------

  /**
   * The UVs that `add_face` hands to `project_texture` as written: the
   * corners of a clockwise face are reversed, their UVs are not.
   */
  function FaceUvsAsWritten(uvs: Option<seq<Vec2>>, winding: LDraw.Winding): Option<seq<Vec2>> {
    uvs
  }

  /** The UVs reversed together with their corners, so that each UV stays with its corner. */
  function FaceUvs(uvs: Option<seq<Vec2>>, winding: LDraw.Winding): (r: Option<seq<Vec2>>)
    ensures r.Some? <==> uvs.Some?
    ensures r.Some? ==> |r.value| == |uvs.value|
  {
    match uvs
    case None => None
    case Some(u) => Some(Oriented(u, winding))
  }

  /**
   * With the UVs reversed too, the slot that holds a corner receives the
   * UV that was given with that corner.
   */
  lemma UvsFollowCorners(vertices: seq<Vec3>, uvs: seq<Vec2>, winding: LDraw.Winding)
    requires |uvs| == |vertices|
    ensures forall k :: 0 <= k < |vertices| ==>
              && Oriented(vertices, winding)[k] == vertices[Corner(k, |vertices|, winding)]
              && FaceUvs(Some(uvs), winding).value[k] == uvs[Corner(k, |vertices|, winding)]
  {
    OrientedCorners(vertices, winding);
    OrientedCorners(uvs, winding);
  }

  /**
   * As written, a clockwise triangle with distinct UVs gets its UVs
   * detached from its corners: the first slot holds the third corner but
   * receives the first corner's UV.
   */
  lemma UvsDetachedAsWritten(texture: PendingTexture, transform: Mat4,
                             placement: (Mat4, Mat4) -> (Mat4, Vec3), triBox: (Vec3, Vec3, Vec3, Vec3) -> bool)
    ensures var vertices := [Vec3(1.0, 0.0, 0.0), Vec3(0.0, 1.0, 0.0), Vec3(0.0, 0.0, 1.0)];
            var uvs := [Vec2(0.0, 0.0), Vec2(1.0, 0.0), Vec2(0.0, 1.0)];
            var corners := Oriented(vertices, LDraw.Cw);
            var map_ := ProjectTexture(texture, transform, corners, FaceUvsAsWritten(Some(uvs), LDraw.Cw), placement, triBox);
            && corners[0] == vertices[2]
            && map_.Some? && map_.value.uvs[0] == uvs[0] && uvs[0] != uvs[2]
  {
  }

  // ---------------------------------------------------------------------
  // The buffers and the vertex map
  // ---------------------------------------------------------------------

  /**
   * A snapshot of an `LDrawGeometry` together with the vertex map used to
   * weld it: `points` holds the map's entries in the order they were
   * inserted, each a position and the index of its vertex.
   */
  datatype Buffers = Buffers(
    vertices: seq<Vec3>,
    indices: seq<nat>,
    starts: seq<nat>,
    sizes: seq<nat>,
    colors: seq<ColorCode>,
    studs: seq<bool>,
    edgeLines: seq<(nat, nat)>,
    grainy: bool,
    textureInfo: Option<TextureInfo>,
    points: seq<(Vec3, nat)>)

  /** Every entry of the vertex map names a vertex at the entry's position. */
  predicate Welded(b: Buffers) {
    forall k :: 0 <= k < |b.points| ==> b.points[k].1 < |b.vertices| && b.vertices[b.points[k].1] == b.points[k].0
  }

  /**
   * Once texture buffers exist they hold one texture index per face and
   * one UV per index slot; at most 255 images are stored, and every face's
   * texture index is the sentinel or a stored image.
   */
  predicate TexturesValid(b: Buffers) {
    b.textureInfo.Some? ==>
      var t := b.textureInfo.value;
      && |t.indices| == |b.starts|
      && |t.uvs| == |b.indices|
      && |t.textures| <= 255
      && forall k :: 0 <= k < |t.indices| ==> t.indices[k] == NoTexture || (t.indices[k] as int) < |t.textures|
  }

  /**
   * The invariant of the buffers: every index names a vertex, the faces'
   * runs lie back to back over the index buffer, the vertex map agrees
   * with the vertices, and the texture buffers are in step.
   */
  predicate Valid(b: Buffers) {
    && EdgeSplit.IndicesBelow(b.indices, |b.vertices|)
    && EdgeSplit.Contiguous(b.starts, b.sizes, |b.indices|)
    && Welded(b)
    && TexturesValid(b)
  }

  /** One colour and one stud flag per face. */
  predicate Colored(b: Buffers) {
    |b.colors| == |b.studs| == |b.starts|
  }

  /** Texture buffers, once they exist, stay, and images are only added. */
  predicate Grows(b: Buffers, r: Buffers) {
    b.textureInfo.Some? ==> r.textureInfo.Some? && |b.textureInfo.value.textures| <= |r.textureInfo.value.textures|
  }

  /** Each texture is a stored image of `b`. */
  predicate Registered(b: Buffers, textures: seq<PendingTexture>) {
    forall t :: t in textures ==> b.textureInfo.Some? && (t.index as int) < |b.textureInfo.value.textures|
  }

  /** The buffers of a new mesh. */
  function EmptyBuffers(grainy: bool): (b: Buffers)
    ensures Valid(b) && Colored(b) && b.textureInfo.None?
  {
    Buffers([], [], [], [], [], [], [], grainy, None, [])
  }

  /** Appending a run right after the last one keeps the runs back to back. */
  lemma ContiguousPush(starts: seq<nat>, sizes: seq<nat>, n: nat, size: nat)
    requires EdgeSplit.Contiguous(starts, sizes, n)
    ensures EdgeSplit.Contiguous(starts + [n], sizes + [size], n + size)
  {
    var sizes' := sizes + [size];
    forall f | 0 <= f < |starts| ensures (starts + [n])[f] == EdgeSplit.Total(sizes'[..f]) {
      assert sizes'[..f] == sizes[..f];
    }
    assert sizes'[..|sizes|] == sizes;
    assert sizes'[..|sizes'| - 1] == sizes;
  }

  /**
   * The first entry of the map within the welding distance of `p`, or the
   * number of entries when there is none.
   */
  function FirstClose(points: seq<(Vec3, nat)>, p: Vec3): (k: nat)
    ensures k <= |points|
    ensures forall j :: 0 <= j < k ==> !Close(points[j].0, p)
    ensures k < |points| ==> Close(points[k].0, p)
  {
    if points == [] then 0
    else if Close(points[0].0, p) then 0
    else 1 + FirstClose(points[1..], p)
  }

  /**
   * `VertexMap::get`: the index stored with an entry within the welding
   * distance of `p`. Which entry the R-tree yields first is not specified
   * by the crate; the model takes the earliest inserted.
   */
  function Lookup(points: seq<(Vec3, nat)>, p: Vec3): (r: Option<nat>)
    ensures r.None? <==> forall k :: 0 <= k < |points| ==> !Close(points[k].0, p)
    ensures r.Some? ==> exists k :: 0 <= k < |points| && points[k].1 == r.value && Close(points[k].0, p)
  {
    var k := FirstClose(points, p);
    if k < |points| then Some(points[k].1) else None
  }

  /** The position of an entry nearest to `p`, the earliest among equally near ones. */
  function NearestAt(points: seq<(Vec3, nat)>, p: Vec3): (k: nat)
    requires points != []
    ensures k < |points|
  {
    if |points| == 1 then 0
    else
      var k := NearestAt(points[1..], p);
      if DistanceSquared(points[0].0, p) <= DistanceSquared(points[k + 1].0, p) then 0 else k + 1
  }

  /** No entry is nearer to `p` than the one `NearestAt` picks, and every entry before it is farther. */
  lemma {:induction false} NearestAtSpec(points: seq<(Vec3, nat)>, p: Vec3)
    requires points != []
    ensures forall j :: 0 <= j < |points| ==> DistanceSquared(points[NearestAt(points, p)].0, p) <= DistanceSquared(points[j].0, p)
    ensures forall j :: 0 <= j < NearestAt(points, p) ==> DistanceSquared(points[NearestAt(points, p)].0, p) < DistanceSquared(points[j].0, p)
  {
    if |points| > 1 {
      var rest := points[1..];
      NearestAtSpec(rest, p);
      assert forall j :: 1 <= j < |points| ==> points[j] == rest[j - 1];
    }
  }

  /**
   * `VertexMap::get_nearest`: the index stored with a nearest entry, or
   * None for an empty map.
   */
  function Nearest(points: seq<(Vec3, nat)>, p: Vec3): Option<nat> {
    if points == [] then None else Some(points[NearestAt(points, p)].1)
  }

  /**
   * `get_nearest` finds something exactly when the map is not empty, and
   * then the index stored with an entry no farther from `p` than any other,
   * the earliest such entry.
   */
  lemma NearestSpec(points: seq<(Vec3, nat)>, p: Vec3)
    ensures Nearest(points, p).Some? <==> points != []
    ensures Nearest(points, p).Some? ==>
              exists k :: 0 <= k < |points| && points[k].1 == Nearest(points, p).value
                && (forall j :: 0 <= j < |points| ==> DistanceSquared(points[k].0, p) <= DistanceSquared(points[j].0, p))
                && (forall j :: 0 <= j < k ==> DistanceSquared(points[k].0, p) < DistanceSquared(points[j].0, p))
  {
    if points != [] {
      NearestAtSpec(points, p);
    }
  }

  // ---------------------------------------------------------------------
  // Vertices and faces
  // ---------------------------------------------------------------------

  /**
   * `insert_vertex`: the point moved by `transform`, appended, or, when
   * welding, the index of a stored point within the welding distance if
   * there is one (the map then records the new vertex only when it was
   * appended).
   */
  function VertexInsert(b: Buffers, transform: Mat4, v: Vec3, weld: bool): (Buffers, nat) {
    var p := TransformPoint(transform, v);
    var n := |b.vertices|;
    if !weld then (b.(vertices := b.vertices + [p]), n)
    else match Lookup(b.points, p)
      case Some(i) => (b, i)
      case None => (b.(vertices := b.vertices + [p], points := b.points + [(p, n)]), n)
  }

  /**
   * The index returned by `insert_vertex` names a vertex within the welding
   * distance of the moved point; without welding the vertex is always
   * appended, with welding the buffer grows exactly when no stored point is
   * that close. Only the vertices and the map change, and the map still
   * agrees with the vertices.
   */
  lemma VertexInsertSpec(b: Buffers, transform: Mat4, v: Vec3, weld: bool)
    requires Welded(b)
    ensures var (r, i) := VertexInsert(b, transform, v, weld);
            var p := TransformPoint(transform, v);
            && Welded(r) && r == b.(vertices := r.vertices, points := r.points)
            && i < |r.vertices| && b.vertices <= r.vertices && |r.vertices| <= |b.vertices| + 1
            && Close(r.vertices[i], p)
            && (!weld ==> |r.vertices| == |b.vertices| + 1 && i == |b.vertices| && r.vertices[i] == p)
            && (weld ==> (|r.vertices| == |b.vertices| + 1 <==> forall k :: 0 <= k < |b.points| ==> !Close(b.points[k].0, p)))
  {
    CloseReflexive(TransformPoint(transform, v));
  }

  /** `vertices.map(|v| insert_vertex(..))`: the corners inserted one after the other. */
  function VerticesInsert(b: Buffers, transform: Mat4, vs: seq<Vec3>, weld: bool): (Buffers, seq<nat>)
    decreases |vs|
  {
    if vs == [] then (b, [])
    else
      var (b1, idx) := VerticesInsert(b, transform, vs[..|vs| - 1], weld);
      var (b2, i) := VertexInsert(b1, transform, vs[|vs| - 1], weld);
      (b2, idx + [i])
  }

  /**
   * Inserting several corners gives one index per corner, each naming a
   * vertex within the welding distance of that corner, and exactly the
   * next free indices when not welding; vertices are only appended.
   */
  lemma {:induction false} VerticesInsertSpec(b: Buffers, transform: Mat4, vs: seq<Vec3>, weld: bool)
    requires Welded(b)
    ensures var (r, idx) := VerticesInsert(b, transform, vs, weld);
            && Welded(r) && r == b.(vertices := r.vertices, points := r.points)
            && b.vertices <= r.vertices && |idx| == |vs|
            && (forall k :: 0 <= k < |vs| ==> idx[k] < |r.vertices| && Close(r.vertices[idx[k]], TransformPoint(transform, vs[k])))
            && (!weld ==> |r.vertices| == |b.vertices| + |vs|
                          && forall k :: 0 <= k < |vs| ==> idx[k] == |b.vertices| + k && r.vertices[idx[k]] == TransformPoint(transform, vs[k]))
    decreases |vs|
  {
    if vs != [] {
      var init := vs[..|vs| - 1];
      VerticesInsertSpec(b, transform, init, weld);
      var (b1, idx) := VerticesInsert(b, transform, init, weld);
      VertexInsertSpec(b1, transform, vs[|vs| - 1], weld);
      var (b2, i) := VertexInsert(b1, transform, vs[|vs| - 1], weld);
      assert b1.vertices <= b2.vertices;
      assert forall k :: 0 <= k < |init| ==> init[k] == vs[k];
    }
  }

  /** The texture buffers, created with sentinels for the faces and slots already there if missing (`texture_info`). */
  function EnsureInfo(b: Buffers): (t: TextureInfo)
    ensures b.textureInfo.Some? ==> t == b.textureInfo.value
    ensures b.textureInfo.None? ==> t.textures == [] && |t.indices| == |b.starts| && |t.uvs| == |b.indices|
  {
    if b.textureInfo.Some? then b.textureInfo.value else NewTextureInfo(|b.starts|, |b.indices|)
  }

  /**
   * The texture part of `add_face`, after the face's run is pushed: the
   * face's texture index and UVs when the texture maps onto it (creating
   * the buffers if need be), otherwise the sentinel and zero UVs, but only
   * when the buffers already exist.
   */
  function TexturePush(b: Buffers, texmap: Option<TextureMap>, n: nat): (r: Buffers)
    ensures r == b.(textureInfo := r.textureInfo)
  {
    match texmap
    case Some(tm) =>
      var info := EnsureInfo(b);
      b.(textureInfo := Some(info.(indices := info.indices + [tm.textureIndex], uvs := info.uvs + tm.uvs)))
    case None =>
      match b.textureInfo
      case None => b
      case Some(info) => b.(textureInfo := Some(info.(indices := info.indices + [NoTexture], uvs := info.uvs + seq(n, _ => Zero2))))
  }

  /** The run of a new face appended to the index buffer. */
  function RunPush(b: Buffers, idx: seq<nat>): Buffers {
    b.(indices := b.indices + idx, starts := b.starts + [|b.indices|], sizes := b.sizes + [|idx|])
  }

  /** The texture mapping of a face: only with an active texture, from the oriented corners and their UVs. */
  function FaceTexture(transform: Mat4, vertices: seq<Vec3>, uvs: Option<seq<Vec2>>, winding: LDraw.Winding,
                       texture: Option<PendingTexture>,
                       placement: (Mat4, Mat4) -> (Mat4, Vec3), triBox: (Vec3, Vec3, Vec3, Vec3) -> bool): (r: Option<TextureMap>)
    requires (|vertices| == 3 || |vertices| == 4) && (uvs.Some? ==> |uvs.value| == |vertices|)
    ensures r.Some? ==> texture.Some? && r.value.textureIndex == texture.value.index && |r.value.uvs| == |vertices|
    ensures texture.Some? && uvs.Some? ==> r == Some(TextureMap(texture.value.index, Oriented(uvs.value, winding)))
  {
    if texture.Some? then ProjectTexture(texture.value, transform, Oriented(vertices, winding), FaceUvs(uvs, winding), placement, triBox)
    else None
  }

  /** The points moved by a transform. */
  function Moved(m: Mat4, vs: seq<Vec3>): (r: seq<Vec3>)
    ensures |r| == |vs| && forall k :: 0 <= k < |vs| ==> r[k] == TransformPoint(m, vs[k])
  {
    seq(|vs|, k requires 0 <= k < |vs| => TransformPoint(m, vs[k]))
  }

  /** From slot `start` on, the index buffer names vertices within the welding distance of `corners`, in order. */
  predicate RunNear(r: Buffers, start: nat, corners: seq<Vec3>) {
    && start + |corners| <= |r.indices|
    && forall i :: start <= i < start + |corners| ==> r.indices[i] < |r.vertices| && Close(r.vertices[r.indices[i]], corners[i - start])
  }

  /** A run stays near its corners while the vertices and indices are only appended to. */
  lemma RunNearKept(b: Buffers, r: Buffers, start: nat, corners: seq<Vec3>)
    requires RunNear(b, start, corners) && b.indices <= r.indices && b.vertices <= r.vertices
    ensures RunNear(r, start, corners)
  {
    forall i | start <= i < start + |corners|
      ensures r.indices[i] < |r.vertices| && Close(r.vertices[r.indices[i]], corners[i - start])
    {
      assert r.indices[i] == b.indices[i];
      assert r.vertices[b.indices[i]] == b.vertices[b.indices[i]];
    }
  }

  /**
   * `add_face`: the corners, reversed for a clockwise face, are inserted;
   * their indices are appended as a new run starting at the end of the
   * index buffer; then the texture buffers are brought in step. The
   * texture mapping is computed from the oriented corners and, unlike the
   * source, from UVs oriented the same way.
   */
  function FaceAdd(b: Buffers, transform: Mat4, vertices: seq<Vec3>, uvs: Option<seq<Vec2>>, winding: LDraw.Winding,
                   weld: bool, texture: Option<PendingTexture>,
                   placement: (Mat4, Mat4) -> (Mat4, Vec3), triBox: (Vec3, Vec3, Vec3, Vec3) -> bool): Buffers
    requires (|vertices| == 3 || |vertices| == 4) && (uvs.Some? ==> |uvs.value| == |vertices|)
  {
    var texmap := FaceTexture(transform, vertices, uvs, winding, texture, placement, triBox);
    var (b1, idx) := VerticesInsert(b, transform, Oriented(vertices, winding), weld);
    TexturePush(RunPush(b1, idx), texmap, |vertices|)
  }

  /**
   * What `add_face` does to the mesh: a new run of one index per corner,
   * starting where the index buffer ended, each naming a vertex within the
   * welding distance of the moved corner in slot order (the very point when
   * not welding); indices and vertices before it stay, and the invariant
   * of the indices, runs and vertex map is kept.
   */
  lemma FaceAddGeometry(b: Buffers, transform: Mat4, vertices: seq<Vec3>, uvs: Option<seq<Vec2>>, winding: LDraw.Winding,
                        weld: bool, texture: Option<PendingTexture>,
                        placement: (Mat4, Mat4) -> (Mat4, Vec3), triBox: (Vec3, Vec3, Vec3, Vec3) -> bool)
    requires (|vertices| == 3 || |vertices| == 4) && (uvs.Some? ==> |uvs.value| == |vertices|)
    requires EdgeSplit.IndicesBelow(b.indices, |b.vertices|) && EdgeSplit.Contiguous(b.starts, b.sizes, |b.indices|) && Welded(b)
    ensures var r := FaceAdd(b, transform, vertices, uvs, winding, weld, texture, placement, triBox);
            && EdgeSplit.IndicesBelow(r.indices, |r.vertices|) && EdgeSplit.Contiguous(r.starts, r.sizes, |r.indices|) && Welded(r)
            && r.starts == b.starts + [|b.indices|] && r.sizes == b.sizes + [|vertices|]
            && |r.indices| == |b.indices| + |vertices| && b.indices <= r.indices && b.vertices <= r.vertices
            && r.colors == b.colors && r.studs == b.studs && r.edgeLines == b.edgeLines && r.grainy == b.grainy
            && RunNear(r, |b.indices|, Moved(transform, Oriented(vertices, winding)))
            && (!weld ==> forall k :: 0 <= k < |vertices| ==>
                  r.vertices[r.indices[|b.indices| + k]] == TransformPoint(transform, Oriented(vertices, winding)[k]))
  {
    var corners := Oriented(vertices, winding);
    VerticesInsertSpec(b, transform, corners, weld);
    var (b1, idx) := VerticesInsert(b, transform, corners, weld);
    RunPushGeometry(b, b1, idx, Moved(transform, corners), !weld);
    var r := FaceAdd(b, transform, vertices, uvs, winding, weld, texture, placement, triBox);
    assert r == RunPush(b1, idx).(textureInfo := r.textureInfo);
  }

  /**
   * A run of indices naming vertices near the given points, appended after
   * the vertices were inserted, keeps the invariant of the indices, runs
   * and vertex map, and is the only thing added to them.
   */
  lemma RunPushGeometry(b: Buffers, b1: Buffers, idx: seq<nat>, moved: seq<Vec3>, exact: bool)
    requires EdgeSplit.IndicesBelow(b.indices, |b.vertices|) && EdgeSplit.Contiguous(b.starts, b.sizes, |b.indices|)
    requires Welded(b1) && b1 == b.(vertices := b1.vertices, points := b1.points) && b.vertices <= b1.vertices
    requires |idx| == |moved|
    requires forall k :: 0 <= k < |idx| ==> idx[k] < |b1.vertices| && Close(b1.vertices[idx[k]], moved[k])
    requires exact ==> forall k :: 0 <= k < |idx| ==> b1.vertices[idx[k]] == moved[k]
    ensures var r := RunPush(b1, idx);
            && EdgeSplit.IndicesBelow(r.indices, |r.vertices|) && EdgeSplit.Contiguous(r.starts, r.sizes, |r.indices|) && Welded(r)
            && r.starts == b.starts + [|b.indices|] && r.sizes == b.sizes + [|idx|]
            && |r.indices| == |b.indices| + |idx| && b.indices <= r.indices && b.vertices <= r.vertices
            && RunNear(r, |b.indices|, moved)
            && (exact ==> forall k :: 0 <= k < |idx| ==> r.vertices[r.indices[|b.indices| + k]] == moved[k])
  {
    ContiguousPush(b.starts, b.sizes, |b.indices|, |idx|);
    var r := RunPush(b1, idx);
    assert r.indices[..|b.indices|] == b.indices;
    assert forall k :: 0 <= k < |idx| ==> r.indices[|b.indices| + k] == idx[k];
  }

  /**
   * How `add_face` keeps the texture buffers in step: buffers that exist
   * stay, and are created only for a face with a texture mapping; the
   * stored images stay; the new face gets the texture's index and the UVs
   * given with its corners (in slot order) when UVs are given, and the
   * sentinel with zero UVs when there is no active texture; one index per
   * face and one UV per slot is kept up.
   */
  lemma FaceAddTextures(b: Buffers, transform: Mat4, vertices: seq<Vec3>, uvs: Option<seq<Vec2>>, winding: LDraw.Winding,
                        weld: bool, texture: Option<PendingTexture>,
                        placement: (Mat4, Mat4) -> (Mat4, Vec3), triBox: (Vec3, Vec3, Vec3, Vec3) -> bool)
    requires (|vertices| == 3 || |vertices| == 4) && (uvs.Some? ==> |uvs.value| == |vertices|)
    requires TexturesValid(b) && Welded(b)
    requires texture.Some? ==> Registered(b, [texture.value])
    ensures var r := FaceAdd(b, transform, vertices, uvs, winding, weld, texture, placement, triBox);
            && TexturesValid(r) && Grows(b, r) && |r.starts| == |b.starts| + 1 && |r.indices| == |b.indices| + |vertices|
            && (r.textureInfo.Some? <==> b.textureInfo.Some? || FaceTexture(transform, vertices, uvs, winding, texture, placement, triBox).Some?)
    ensures var r := FaceAdd(b, transform, vertices, uvs, winding, weld, texture, placement, triBox);
            b.textureInfo.Some? ==>
              var t := b.textureInfo.value;
              var t' := r.textureInfo.value;
              && t'.textures == t.textures && t.indices <= t'.indices && t.uvs <= t'.uvs
    ensures var r := FaceAdd(b, transform, vertices, uvs, winding, weld, texture, placement, triBox);
            texture.None? && b.textureInfo.Some? ==>
              && r.textureInfo.value.indices[|b.starts|] == NoTexture
              && forall k :: |b.indices| <= k < |r.indices| ==> r.textureInfo.value.uvs[k] == Zero2
    ensures var r := FaceAdd(b, transform, vertices, uvs, winding, weld, texture, placement, triBox);
            texture.Some? && uvs.Some? ==>
              && r.textureInfo.Some?
              && r.textureInfo.value.indices[|b.starts|] == texture.value.index
              && forall k :: 0 <= k < |vertices| ==> r.textureInfo.value.uvs[|b.indices| + k] == Oriented(uvs.value, winding)[k]
  {
    var corners := Oriented(vertices, winding);
    VerticesInsertSpec(b, transform, corners, weld);
    var (b1, idx) := VerticesInsert(b, transform, corners, weld);
    var b2 := RunPush(b1, idx);
    assert b2.textureInfo == b.textureInfo && |b2.starts| == |b.starts| + 1 && |b2.indices| == |b.indices| + |vertices|;
    TexturePushSpec(b, b2, FaceTexture(transform, vertices, uvs, winding, texture, placement, triBox), |vertices|);
  }

  /**
   * The texture buffers after a face's run of `n` slots is pushed onto `b`
   * (giving `b2`): they stay valid, only grow, and gain the face's texture
   * index and UVs, or the sentinel and zero UVs when it has no mapping.
   */
  lemma TexturePushSpec(b: Buffers, b2: Buffers, texmap: Option<TextureMap>, n: nat)
    requires TexturesValid(b) && b2.textureInfo == b.textureInfo
    requires |b2.starts| == |b.starts| + 1 && |b2.indices| == |b.indices| + n
    requires texmap.Some? ==> b.textureInfo.Some? && |texmap.value.uvs| == n
                              && (texmap.value.textureIndex as int) < |b.textureInfo.value.textures|
    ensures var r := TexturePush(b2, texmap, n);
            && TexturesValid(r) && Grows(b, r) && |r.starts| == |b2.starts| && |r.indices| == |b2.indices|
            && (r.textureInfo.Some? <==> b.textureInfo.Some? || texmap.Some?)
    ensures var r := TexturePush(b2, texmap, n);
            b.textureInfo.Some? ==>
              var t := b.textureInfo.value;
              var t' := r.textureInfo.value;
              && t'.textures == t.textures && t.indices <= t'.indices && t.uvs <= t'.uvs
    ensures var r := TexturePush(b2, texmap, n);
            texmap.None? && b.textureInfo.Some? ==>
              && r.textureInfo.value.indices[|b.starts|] == NoTexture
              && forall k :: |b.indices| <= k < |r.indices| ==> r.textureInfo.value.uvs[k] == Zero2
    ensures var r := TexturePush(b2, texmap, n);
            texmap.Some? ==>
              && r.textureInfo.Some?
              && r.textureInfo.value.indices[|b.starts|] == texmap.value.textureIndex
              && forall k :: 0 <= k < n ==> r.textureInfo.value.uvs[|b.indices| + k] == texmap.value.uvs[k]
  {
  }

  /**
   * `add_triangle_face`, and the quad branch of `append_geometry` that does
   * the same with four corners: the face, then its colour and stud flag.
   */
  function ColoredFaceAdd(b: Buffers, transform: Mat4, vertices: seq<Vec3>, uvs: Option<seq<Vec2>>, winding: LDraw.Winding,
                          color: ColorCode, stud: bool, weld: bool, texture: Option<PendingTexture>,
                          placement: (Mat4, Mat4) -> (Mat4, Vec3), triBox: (Vec3, Vec3, Vec3, Vec3) -> bool): Buffers
    requires (|vertices| == 3 || |vertices| == 4) && (uvs.Some? ==> |uvs.value| == |vertices|)
  {
    var r := FaceAdd(b, transform, vertices, uvs, winding, weld, texture, placement, triBox);
    r.(colors := r.colors + [color], studs := r.studs + [stud])
  }

  /**
   * A face with its colour and stud flag keeps every invariant of the
   * buffers, gives the new face exactly one colour and one stud flag, and
   * keeps what was stored before it.
   */
  lemma ColoredFaceAddSpec(b: Buffers, transform: Mat4, vertices: seq<Vec3>, uvs: Option<seq<Vec2>>, winding: LDraw.Winding,
                           color: ColorCode, stud: bool, weld: bool, texture: Option<PendingTexture>,
                           placement: (Mat4, Mat4) -> (Mat4, Vec3), triBox: (Vec3, Vec3, Vec3, Vec3) -> bool)
    requires (|vertices| == 3 || |vertices| == 4) && (uvs.Some? ==> |uvs.value| == |vertices|)
    requires Valid(b) && Colored(b)
    requires texture.Some? ==> Registered(b, [texture.value])
    ensures var r := ColoredFaceAdd(b, transform, vertices, uvs, winding, color, stud, weld, texture, placement, triBox);
            && Valid(r) && Colored(r) && Grows(b, r)
            && r.colors == b.colors + [color] && r.studs == b.studs + [stud]
            && r.sizes == b.sizes + [|vertices|] && r.starts == b.starts + [|b.indices|]
            && b.indices <= r.indices && b.vertices <= r.vertices && r.edgeLines == b.edgeLines
            && RunNear(r, |b.indices|, Moved(transform, Oriented(vertices, winding)))
  {
    FaceAddGeometry(b, transform, vertices, uvs, winding, weld, texture, placement, triBox);
    FaceAddTextures(b, transform, vertices, uvs, winding, weld, texture, placement, triBox);
  }

  /**
   * The part of `PendingStudioTexture::parse` that touches the mesh: once
   * the line has parsed, the texture buffers are created if need be; the
   * image is stored only while fewer than 255 are, and its index is the
   * number stored before it.
   */
  function TextureRegister(b: Buffers, line: string, path: seq<int>): (Buffers, Option<PendingTexture>) {
    match TexInfoOf(line)
    case None => (b, None)
    case Some(parsed) =>
      var info := EnsureInfo(b);
      if |info.textures| >= 255 then (b.(textureInfo := Some(info)), None)
      else
        (b.(textureInfo := Some(info.(textures := info.textures + [parsed.image]))),
         Some(PendingTexture(|info.textures| as Byte, parsed.location, path)))
  }

  /**
   * A line that does not parse leaves the mesh alone; one that parses
   * creates the texture buffers and yields a texture unless 255 images are
   * already stored; the texture's index is the previous image count, never
   * the sentinel, and names the line's image.
   */
  lemma TextureRegisterSpec(b: Buffers, line: string, path: seq<int>)
    requires TexturesValid(b)
    ensures var (r, t) := TextureRegister(b, line, path);
            && TexturesValid(r) && Grows(b, r) && r == b.(textureInfo := r.textureInfo)
            && (TexInfoOf(line).None? ==> r == b && t.None?)
            && (TexInfoOf(line).Some? ==> r.textureInfo.Some? && (t.None? <==> b.textureInfo.Some? && |b.textureInfo.value.textures| >= 255))
            && (t.Some? ==>
                  && t.value.index as int == |r.textureInfo.value.textures| - 1
                  && (b.textureInfo.Some? ==> t.value.index as int == |b.textureInfo.value.textures|)
                  && t.value.index != NoTexture
                  && r.textureInfo.value.textures[t.value.index] == TexInfoOf(line).value.image
                  && t.value.location == TexInfoOf(line).value.location
                  && t.value.path == path)
  {
  }

  // ---------------------------------------------------------------------
  // The end of create_geometry
  // ---------------------------------------------------------------------

  /**
   * `edge_indices`: each type 2 line as the indices stored with the
   * entries nearest to its end points; a line is dropped only when the
   * map is empty.
   */
  function EdgeIndicesOf(edges: seq<Segment>, points: seq<(Vec3, nat)>): seq<(nat, nat)> {
    if edges == [] then []
    else
      var r := EdgeIndicesOf(edges[..|edges| - 1], points);
      var e := edges[|edges| - 1];
      match (Nearest(points, e.0), Nearest(points, e.1))
      case (Some(i0), Some(i1)) => r + [(i0, i1)]
      case _ => r
  }

  /**
   * With an empty vertex map there are no edge indices; otherwise there is
   * one pair per line, naming the vertices nearest to its end points.
   */
  lemma {:induction false} EdgeIndicesSpec(edges: seq<Segment>, points: seq<(Vec3, nat)>)
    ensures var r := EdgeIndicesOf(edges, points);
            && (points == [] ==> r == [])
            && (points != [] ==> |r| == |edges| && forall k :: 0 <= k < |edges| ==>
                  r[k] == (Nearest(points, edges[k].0).value, Nearest(points, edges[k].1).value))
  {
    if edges != [] && points != [] {
      var init := edges[..|edges| - 1];
      EdgeIndicesSpec(init, points);
      var e := edges[|edges| - 1];
      var r := EdgeIndicesOf(init, points);
      var pair := (Nearest(points, e.0).value, Nearest(points, e.1).value);
      assert EdgeIndicesOf(edges, points) == r + [pair];
      forall k | 0 <= k < |edges|
        ensures (r + [pair])[k] == (Nearest(points, edges[k].0).value, Nearest(points, edges[k].1).value)
      {
        if k < |init| {
          assert init[k] == edges[k];
        }
      }
    } else if edges != [] {
      EdgeIndicesSpec(edges[..|edges| - 1], points);
    }
  }

  /** The index stored with a nearest entry names a vertex when the map agrees with the vertices. */
  lemma NearestBelow(b: Buffers, p: Vec3)
    requires Welded(b) && b.points != []
    ensures Nearest(b.points, p).value < |b.vertices|
  {
    var k := NearestAt(b.points, p);
    assert b.points[k].1 < |b.vertices|;
  }

  /** Every edge index names a vertex of the mesh when the map agrees with the vertices. */
  lemma {:induction false} EdgeIndicesBelow(edges: seq<Segment>, b: Buffers)
    requires Welded(b)
    ensures forall p :: p in EdgeIndicesOf(edges, b.points) ==> p.0 < |b.vertices| && p.1 < |b.vertices|
  {
    if edges != [] {
      EdgeIndicesBelow(edges[..|edges| - 1], b);
      if b.points != [] {
        NearestBelow(b, edges[|edges| - 1].0);
        NearestBelow(b, edges[|edges| - 1].1);
      }
    }
  }

  /** The face colours, one entry when every face has the same colour. */
  function Collapsed(colors: seq<ColorCode>): seq<ColorCode> {
    if |colors| > 0 && forall k :: 0 <= k < |colors| ==> colors[k] == colors[0] then [colors[0]] else colors
  }

  /** The colours of `n` faces read back from the collapsed form. */
  function Expanded(colors: seq<ColorCode>, n: nat): seq<ColorCode> {
    if |colors| == 1 then seq(n, _ => colors[0]) else colors
  }

  /**
   * The colours are collapsed to one entry exactly when there is at least
   * one face and all faces share a colour, and otherwise kept as they are;
   * either way the colour of every face can be read back.
   */
  lemma CollapsedSpec(colors: seq<ColorCode>)
    ensures |Collapsed(colors)| == 1 <==> |colors| > 0 && forall k :: 0 <= k < |colors| ==> colors[k] == colors[0]
    ensures |Collapsed(colors)| != 1 ==> Collapsed(colors) == colors
    ensures Expanded(Collapsed(colors), |colors|) == colors
  {
    if |colors| == 1 {
      assert Collapsed(colors) == colors;
    }
  }

  /** A point scaled component by component (`*vertex *= scale`). */
  function ScalePoint(v: Vec3, scale: Vec3): Vec3 {
    Vec3(v.x * scale.x, v.y * scale.y, v.z * scale.z)
  }

  /** Every vertex scaled. */
  function Scaled(vs: seq<Vec3>, scale: Vec3): (r: seq<Vec3>)
    ensures |r| == |vs| && forall k :: 0 <= k < |vs| ==> r[k] == ScalePoint(vs[k], scale)
  {
    seq(|vs|, k requires 0 <= k < |vs| => ScalePoint(vs[k], scale))
  }
}

/**
 * The geometry assembler of geometry.rs as it runs: `LDrawGeometry` and
 * `VertexMap` are objects whose vectors grow in place, and
 * `append_geometry` is a loop over the commands that updates its locals and
 * recurses into referenced files.
 *
 * Every method here is proved to leave exactly the state that the
 * corresponding function of `Geometry` or `GeometryWalk` describes, so the
 * properties proved there (the buffers' invariant, the faces stored, the
 * texture buffers in step) hold of the objects.
 */
module GeometryMesh {
  import opened Wrappers
  import opened Text
  import opened Linalg
  import LDraw
  import Settings
  import Slope
  import opened TexInfo
  import Documents
  import EdgeSplit
  import opened Geometry
  import opened GeometryWalk

  /** `VertexMap`: the R-tree's entries, each a position and a vertex index, in the order they were inserted. */
  class VertexMap {
    var points: seq<(Vec3, nat)>

    constructor()
      ensures points == []
    {
      points := [];
    }

    /** `get`: the index stored with the earliest entry within the welding distance of `p`. */
    method Get(p: Vec3) returns (r: Option<nat>)
      ensures r == Lookup(points, p)
    {
      var k := 0;
      while k < |points|
        invariant k <= |points|
        invariant forall j :: 0 <= j < k ==> !Close(points[j].0, p)
      {
        if Close(points[k].0, p) {
          return Some(points[k].1);
        }
        k := k + 1;
      }
      return None;
    }

    /** `get_nearest`: the index stored with a nearest entry, the earliest among equally near ones. */
    method GetNearest(p: Vec3) returns (r: Option<nat>)
      ensures r == Nearest(points, p)
    {
      if |points| == 0 {
        return None;
      }
      var i := |points| - 1;
      var best := i;
      while i > 0
        invariant 0 <= i < |points| && best == i + NearestAt(points[i..], p)
      {
        i := i - 1;
        assert points[i..][1..] == points[i + 1..];
        if DistanceSquared(points[i].0, p) <= DistanceSquared(points[best].0, p) {
          best := i;
        }
      }
      assert points[0..] == points;
      return Some(points[best].1);
    }

    /** `insert`: the index already stored near `p`, or None after recording `p` with index `i`. */
    method Insert(i: nat, p: Vec3) returns (r: Option<nat>)
      modifies this
      ensures r == Lookup(old(points), p)
      ensures points == if r.None? then old(points) + [(p, i)] else old(points)
    {
      r := Get(p);
      if r.None? {
        points := points + [(p, i)];
      }
    }
  }

  /** `LDrawGeometry`: the buffers of one mesh. */
  class Mesh {
    var vertices: seq<Vec3>
    var indices: seq<nat>
    var starts: seq<nat>
    var sizes: seq<nat>
    var colors: seq<ColorCode>
    var studs: seq<bool>
    var edgeLines: seq<(nat, nat)>
    const grainy: bool
    var textureInfo: Option<TextureInfo>

    /** The buffers together with the vertex map that welds them. */
    function Snapshot(vm: VertexMap): Buffers
      reads this, vm
    {
      Buffers(vertices, indices, starts, sizes, colors, studs, edgeLines, grainy, textureInfo, vm.points)
    }

    /** The empty geometry of `create_geometry`, grainy when the part is a slope. */
    constructor(grainy: bool)
      ensures vertices == [] && indices == [] && starts == [] && sizes == []
      ensures colors == [] && studs == [] && edgeLines == [] && this.grainy == grainy && textureInfo.None?
    {
      vertices, indices, starts, sizes := [], [], [], [];
      colors, studs, edgeLines := [], [], [];
      this.grainy := grainy;
      textureInfo := None;
    }

    /** `texture_info`: the texture buffers, created with sentinels for the faces and slots already there. */
    method EnsureTextureInfo(vm: VertexMap)
      modifies this
      ensures Snapshot(vm) == old(Snapshot(vm)).(textureInfo := Some(EnsureInfo(old(Snapshot(vm)))))
    {
      if textureInfo.None? {
        textureInfo := Some(NewTextureInfo(|starts|, |indices|));
      }
    }

    /** `insert_vertex`. */
    method InsertVertex(vm: VertexMap, transform: Mat4, v: Vec3, weld: bool) returns (i: nat)
      modifies this, vm
      ensures (Snapshot(vm), i) == VertexInsert(old(Snapshot(vm)), transform, v, weld)
    {
      var p := TransformPoint(transform, v);
      var n := |vertices|;
      if !weld {
        vertices := vertices + [p];
        return n;
      }
      var found := vm.Insert(n, p);
      if found.Some? {
        return found.value;
      }
      vertices := vertices + [p];
      return n;
    }

    /** `add_face`: the corners inserted one by one, the run recorded, the texture buffers brought in step. */
    method AddFace(vm: VertexMap, transform: Mat4, vs: seq<Vec3>, uvs: Option<seq<Vec2>>, winding: LDraw.Winding,
                   weld: bool, texture: Option<PendingTexture>,
                   placement: (Mat4, Mat4) -> (Mat4, Vec3), triBox: (Vec3, Vec3, Vec3, Vec3) -> bool)
      requires (|vs| == 3 || |vs| == 4) && (uvs.Some? ==> |uvs.value| == |vs|)
      modifies this, vm
      ensures Snapshot(vm) == FaceAdd(old(Snapshot(vm)), transform, vs, uvs, winding, weld, texture, placement, triBox)
    {
      ghost var b := Snapshot(vm);
      var corners := Oriented(vs, winding);
      var texmap := FaceTexture(transform, vs, uvs, winding, texture, placement, triBox);
      var start := |indices|;
      var idx := InsertVertices(vm, transform, corners, weld);
      ghost var b1 := Snapshot(vm);
      assert (b1, idx) == VerticesInsert(b, transform, corners, weld);
      indices := indices + idx;
      starts := starts + [start];
      sizes := sizes + [|vs|];
      assert Snapshot(vm) == RunPush(b1, idx);
      PushTexture(vm, texmap, |vs|);
    }

    /** `vertices.map(|v| insert_vertex(..))`: the corners inserted in order, one index each. */
    method InsertVertices(vm: VertexMap, transform: Mat4, corners: seq<Vec3>, weld: bool) returns (idx: seq<nat>)
      modifies this, vm
      ensures (Snapshot(vm), idx) == VerticesInsert(old(Snapshot(vm)), transform, corners, weld)
      ensures Snapshot(vm) == old(Snapshot(vm)).(vertices := vertices, points := vm.points) && |idx| == |corners|
    {
      ghost var b := Snapshot(vm);
      idx := [];
      for k := 0 to |corners|
        invariant (Snapshot(vm), idx) == VerticesInsert(b, transform, corners[..k], weld)
        invariant Snapshot(vm) == b.(vertices := vertices, points := vm.points) && |idx| == k
      {
        var i := InsertVertex(vm, transform, corners[k], weld);
        assert corners[..k + 1][..k] == corners[..k];
        idx := idx + [i];
      }
      assert corners[..|corners|] == corners;
    }

    /** The texture half of `add_face`, once the face's run is recorded. */
    method PushTexture(vm: VertexMap, texmap: Option<TextureMap>, n: nat)
      modifies this
      ensures Snapshot(vm) == TexturePush(old(Snapshot(vm)), texmap, n)
    {
      if texmap.Some? {
        EnsureTextureInfo(vm);
        var info := textureInfo.value;
        textureInfo := Some(info.(indices := info.indices + [texmap.value.textureIndex], uvs := info.uvs + texmap.value.uvs));
      } else if textureInfo.Some? {
        var info := textureInfo.value;
        textureInfo := Some(info.(indices := info.indices + [NoTexture], uvs := info.uvs + seq(n, _ => Zero2)));
      }
    }

    /** `add_triangle_face`, and the quad branch doing the same: the face, then its colour and stud flag. */
    method AddColoredFace(vm: VertexMap, transform: Mat4, vs: seq<Vec3>, uvs: Option<seq<Vec2>>, winding: LDraw.Winding,
                          color: ColorCode, stud: bool, weld: bool, texture: Option<PendingTexture>,
                          placement: (Mat4, Mat4) -> (Mat4, Vec3), triBox: (Vec3, Vec3, Vec3, Vec3) -> bool)
      requires (|vs| == 3 || |vs| == 4) && (uvs.Some? ==> |uvs.value| == |vs|)
      modifies this, vm
      ensures Snapshot(vm) == ColoredFaceAdd(old(Snapshot(vm)), transform, vs, uvs, winding, color, stud, weld, texture, placement, triBox)
    {
      AddFace(vm, transform, vs, uvs, winding, weld, texture, placement, triBox);
      colors := colors + [color];
      studs := studs + [stud];
    }

    /**
     * The part of `PendingStudioTexture::parse` that touches the mesh: the
     * line is parsed first, and only a line that parses creates the texture
     * buffers and, below 255 images, stores its image.
     */
    method RegisterTexture(vm: VertexMap, line: string, path: seq<int>) returns (t: Option<PendingTexture>)
      modifies this
      ensures (Snapshot(vm), t) == TextureRegister(old(Snapshot(vm)), line, path)
    {
      var parsed := ParseTexInfo(line);
      if parsed.None? {
        return None;
      }
      EnsureTextureInfo(vm);
      var info := textureInfo.value;
      if |info.textures| >= 255 {
        return None;
      }
      textureInfo := Some(info.(textures := info.textures + [parsed.value.image]));
      return Some(PendingTexture(|info.textures| as Byte, parsed.value.location, path));
    }
  }

  // ---------------------------------------------------------------------
  // append_geometry
  // ---------------------------------------------------------------------

  /** The loop over a comment's words: CCW and CW set the winding, INVERTNEXT arms the flag. */
  method ScanWords(words: seq<string>, flags: Flags) returns (r: Flags)
    ensures r == WordsFlags(words, flags)
  {
    r := flags;
    for k := 0 to |words|
      invariant r == WordsFlags(words[..k], flags)
    {
      assert words[..k + 1][..k] == words[..k];
      if words[k] == "CCW" {
        r := r.(winding := LDraw.Ccw);
      } else if words[k] == "CW" {
        r := r.(winding := LDraw.Cw);
      } else if words[k] == "INVERTNEXT" {
        r := r.(invertNext := true);
      }
    }
    assert words[..|words|] == words;
  }

  /**
   * The textures handed to a referenced file: the active ones, then each
   * pending one whose path starts with the reference's ordinal, with that
   * step removed.
   */
  method ChildTextures(active: seq<PendingTexture>, pending: seq<PendingTexture>, ordinal: int) returns (r: seq<PendingTexture>)
    ensures r == active + Routed(pending, ordinal)
  {
    r := active;
    for k := 0 to |pending|
      invariant r == active + Routed(pending[..k], ordinal)
    {
      var t := pending[k];
      RoutedStep(pending, ordinal, k);
      ghost var routed := Routed(pending[..k], ordinal);
      if t.path != [] && t.path[0] == ordinal {
        r := r + [t.(path := t.path[1..])];
        assert RoutedOne(t, ordinal) == [t.(path := t.path[1..])];
      } else {
        assert RoutedOne(t, ordinal) == [];
      }
      assert r == active + (routed + RoutedOne(t, ordinal));
    }
    assert pending[..|pending|] == pending;
  }

  /** One pass of `append_geometry`'s loop: the command's effect on the mesh, the collected lines and the locals. */
  method StepCommand(mesh: Mesh, vm: VertexMap, edges: seq<Segment>, loc: Locals, cmd: LDraw.Command,
                     ctx: Context, env: Env, depth: nat)
    returns (edges': seq<Segment>, loc': Locals)
    requires LDraw.WellFormed(cmd) && FilesWellFormed(env)
    modifies mesh, vm
    ensures State(mesh.Snapshot(vm), edges', loc') == Step(State(old(mesh.Snapshot(vm)), edges, loc), cmd, ctx, env, depth)
    decreases depth, 1
  {
    edges', loc' := edges, loc;
    match cmd
    case Comment(text) =>
      loc' := CommentCommand(mesh, vm, loc, text, env);
    case Triangle(color, vs, uvs) =>
      mesh.AddColoredFace(vm, ctx.frame.transform, vs, uvs, FaceWinding(loc.flags), Settings.ReplaceColor(color, ctx.frame.color),
                          ctx.frame.isStud, env.settings.weldVertices, ActiveTexture(loc), env.placement, env.triBox);
      FacesAddOne(old(mesh.Snapshot(vm)), RawFace(color, vs, uvs), ctx.frame, loc.flags, ActiveTexture(loc), env);
    case Quad(_, _, _) =>
      QuadFaces(mesh, vm, cmd, ctx, env, loc);
    case Line(_, vs) =>
      edges' := edges + [(TransformPoint(ctx.frame.transform, vs[0]), TransformPoint(ctx.frame.transform, vs[1]))];
    case SubFileRef(_, _, _) =>
      edges', loc' := RefCommand(mesh, vm, edges, loc, cmd, ctx, env, depth);
    case _ =>
  }

  /**
   * A comment: PE_TEX_PATH replaces the current path when it parses,
   * PE_TEX_INFO registers and routes a texture, and any other comment is
   * scanned for winding words.
   */
  method CommentCommand(mesh: Mesh, vm: VertexMap, loc: Locals, text: string, env: Env) returns (loc': Locals)
    modifies mesh
    ensures var (b', l) := TextureComment(old(mesh.Snapshot(vm)), text, loc);
            mesh.Snapshot(vm) == b' && loc' == l.(flags := NextFlags(LDraw.Comment(text), loc.flags, env))
  {
    loc' := loc;
    if StartsWith(text, TexPathPrefix) {
      var path := ParseTexPath(text);
      if path.Some? {
        loc' := loc.(texPath := path.value);
      }
    } else if StartsWith(text, TexInfoPrefix) {
      var t := mesh.RegisterTexture(vm, text, loc.texPath);
      if t.Some? {
        loc' := Route(loc, t.value);
      }
    } else {
      var flags := ScanWords(SplitWhitespace(text), loc.flags);
      loc' := loc.(flags := flags);
    }
  }

  /**
   * A sub-file reference: when references are followed and the name, after
   * stud substitution, resolves, the file is walked in the child context,
   * INVERTNEXT is disarmed and the ordinal counts the reference.
   */
  method RefCommand(mesh: Mesh, vm: VertexMap, edges: seq<Segment>, loc: Locals, cmd: LDraw.Command,
                    ctx: Context, env: Env, depth: nat)
    returns (edges': seq<Segment>, loc': Locals)
    requires cmd.SubFileRef? && LDraw.WellFormed(cmd) && FilesWellFormed(env)
    modifies mesh, vm
    ensures State(mesh.Snapshot(vm), edges', loc') == Step(State(old(mesh.Snapshot(vm)), edges, loc), cmd, ctx, env, depth)
    decreases depth, 0
  {
    ghost var st := State(mesh.Snapshot(vm), edges, loc);
    edges', loc' := edges, loc;
    if !env.recursive {
      UnresolvedStep(st, cmd, ctx, env, depth);
      return;
    }
    var name := SubName(cmd.file, env);
    var found := Documents.Find(env.files, name);
    if found.None? {
      UnresolvedStep(st, cmd, ctx, env, depth);
      return;
    }
    var textures := ChildTextures(loc.active, loc.pending, loc.ordinal);
    var child := Context(ChildFrame(ctx.frame, loc.flags, cmd.color, cmd.transform, name, env.settings.studType),
                         ctx.isSlope || Slope.IsSlopePiece(name), textures);
    assert child == ChildContext(ctx, loc, cmd.color, cmd.transform, name, env);
    assert found == Resolve(env, cmd.file);
    RefStepIs(st, cmd, ctx, env, depth);
    ghost var walked := if depth == 0 then (st.mesh, st.edges) else Append(st.mesh, st.edges, found.value.file, child, env, depth - 1);
    if depth > 0 {
      edges' := AppendGeometry(mesh, vm, edges, found.value.file, child, env, depth - 1);
    }
    assert (mesh.Snapshot(vm), edges') == walked;
    loc' := loc.(flags := loc.flags.(invertNext := false), ordinal := loc.ordinal + 1);
  }

  /** The quad branch: one face, or with triangulation the triangles (v0, v1, v2) and (v0, v2, v3). */
  method QuadFaces(mesh: Mesh, vm: VertexMap, cmd: LDraw.Command, ctx: Context, env: Env, loc: Locals)
    requires cmd.Quad? && LDraw.WellFormed(cmd)
    modifies mesh, vm
    ensures mesh.Snapshot(vm) == FacesAdd(old(mesh.Snapshot(vm)), CommandFaces(cmd, env.settings.triangulate), ctx.frame, loc.flags, ActiveTexture(loc), env)
  {
    var fs := CommandFaces(cmd, env.settings.triangulate);
    var color := Settings.ReplaceColor(cmd.color, ctx.frame.color);
    var winding := FaceWinding(loc.flags);
    ghost var b := mesh.Snapshot(vm);
    mesh.AddColoredFace(vm, ctx.frame.transform, fs[0].vertices, fs[0].uvs, winding, color,
                        ctx.frame.isStud, env.settings.weldVertices, ActiveTexture(loc), env.placement, env.triBox);
    assert mesh.Snapshot(vm) == FacesAdd(b, fs[..1], ctx.frame, loc.flags, ActiveTexture(loc), env) by {
      assert fs[..1][..0] == [];
    }
    if |fs| == 2 {
      mesh.AddColoredFace(vm, ctx.frame.transform, fs[1].vertices, fs[1].uvs, winding, color,
                          ctx.frame.isStud, env.settings.weldVertices, ActiveTexture(loc), env.placement, env.triBox);
      assert fs[..2] == fs && fs[..2][..1] == fs[..1];
    } else {
      assert fs[..1] == fs;
    }
  }

  /**
   * `append_geometry`: the locals start from the context, and each command
   * in turn updates the mesh, the collected lines and the locals.
   */
  method AppendGeometry(mesh: Mesh, vm: VertexMap, edges: seq<Segment>, file: LDraw.SourceFile, ctx: Context, env: Env, depth: nat)
    returns (edges': seq<Segment>)
    requires LDraw.WellFormedFile(file) && FilesWellFormed(env)
    modifies mesh, vm
    ensures (mesh.Snapshot(vm), edges') == Append(old(mesh.Snapshot(vm)), edges, file, ctx, env, depth)
    decreases depth, |file.cmds| + 2
  {
    ghost var start := State(mesh.Snapshot(vm), edges, Start(ctx));
    var loc := Locals(StartFlags(ctx.frame), 0, [], WithoutPath(ctx.textures), WithPath(ctx.textures));
    edges' := edges;
    for i := 0 to |file.cmds|
      invariant Walk(State(mesh.Snapshot(vm), edges', loc), file.cmds, i, ctx, env, depth) == Walk(start, file.cmds, 0, ctx, env, depth)
    {
      edges', loc := StepCommand(mesh, vm, edges', loc, file.cmds[i], ctx, env, depth);
    }
  }

  // ---------------------------------------------------------------------
  // create_geometry
  // ---------------------------------------------------------------------

  /** `edge_indices`: the loop over the collected type 2 lines. */
  method EdgeIndices(edges: seq<Segment>, vm: VertexMap) returns (r: seq<(nat, nat)>)
    ensures r == EdgeIndicesOf(edges, vm.points)
  {
    r := [];
    for k := 0 to |edges|
      invariant r == EdgeIndicesOf(edges[..k], vm.points)
    {
      assert edges[..k + 1][..k] == edges[..k];
      var i0 := vm.GetNearest(edges[k].0);
      var i1 := vm.GetNearest(edges[k].1);
      if i0.Some? && i1.Some? {
        r := r + [(i0.value, i1.value)];
      }
    }
    assert edges[..|edges|] == edges;
  }

  /** The colour collapse of `create_geometry`: one entry when every face has the colour of the first. */
  method CollapseColors(mesh: Mesh)
    modifies mesh`colors
    ensures mesh.colors == Collapsed(old(mesh.colors))
  {
    if |mesh.colors| > 0 {
      var first := mesh.colors[0];
      var all := true;
      for k := 0 to |mesh.colors|
        invariant all <==> forall j :: 0 <= j < k ==> mesh.colors[j] == first
      {
        all := all && mesh.colors[k] == first;
      }
      if all {
        mesh.colors := [first];
      }
    }
  }

  /** The last loop of `create_geometry`: every vertex multiplied by the scale. */
  method ScaleVertices(mesh: Mesh, scale: Vec3)
    modifies mesh`vertices
    ensures mesh.vertices == Scaled(old(mesh.vertices), scale)
  {
    for k := 0 to |mesh.vertices|
      invariant |mesh.vertices| == |old(mesh.vertices)|
      invariant forall j :: 0 <= j < k ==> mesh.vertices[j] == ScalePoint(old(mesh.vertices)[j], scale)
      invariant forall j :: k <= j < |mesh.vertices| ==> mesh.vertices[j] == old(mesh.vertices)[j]
    {
      mesh.vertices := mesh.vertices[k := ScalePoint(mesh.vertices[k], scale)];
    }
  }

  /**
   * What `create_geometry` leaves after the walk produced `b` and `edges`:
   * the runs, stud flags and texture buffers kept, the colours collapsed,
   * the edge lines as indices, and every index slot naming the scaled
   * position it named before the split.
   */
  predicate FinishedFrom(mesh: Mesh, b: Buffers, edges: seq<Segment>, scale: Vec3)
    reads mesh
  {
    && EdgeSplit.IndicesBelow(b.indices, |b.vertices|)
    && mesh.starts == b.starts && mesh.sizes == b.sizes && mesh.studs == b.studs
    && mesh.textureInfo == b.textureInfo && mesh.grainy == b.grainy
    && mesh.colors == Collapsed(b.colors)
    && mesh.edgeLines == EdgeIndicesOf(edges, b.points)
    && |mesh.indices| == |b.indices| && EdgeSplit.IndicesBelow(mesh.indices, |mesh.vertices|)
    && (forall k :: 0 <= k < |b.indices| ==> mesh.vertices[mesh.indices[k]] == ScalePoint(b.vertices[b.indices[k]], scale))
    && (mesh.edgeLines == [] ==> mesh.indices == b.indices && mesh.vertices == Scaled(b.vertices, scale))
  }

  /**
   * `create_geometry` after `append_geometry`: the type 2 lines become
   * edge indices; when there are any, the faces are split along them (the
   * angle test of the split is `sharp`); the colours are collapsed; and the
   * vertices are scaled by the scene scale, times `gaps` of the vertices
   * when gaps are added between parts (`gaps` stands for `gaps_scale` of
   * the vertices' bounding box, floating point left out).
   */
  method Finish(mesh: Mesh, vm: VertexMap, edges: seq<Segment>, settings: Settings.GeometrySettings,
                sharp: (nat, nat) -> bool, gaps: seq<Vec3> -> Vec3)
    returns (scale: Vec3)
    requires Valid(mesh.Snapshot(vm))
    modifies mesh
    ensures FinishedFrom(mesh, old(mesh.Snapshot(vm)), edges, scale)
    ensures var s := settings.sceneScale;
            !settings.addGapBetweenParts ==> scale == Vec3(s, s, s)
  {
    ghost var b := mesh.Snapshot(vm);
    var lines := EdgeIndices(edges, vm);
    EdgeIndicesBelow(edges, b);
    mesh.edgeLines := lines;
    SplitAlong(mesh, lines, sharp);
    CollapseColors(mesh);
    var s := settings.sceneScale;
    scale := if settings.addGapBetweenParts then ScalePoint(gaps(mesh.vertices), Vec3(s, s, s)) else Vec3(s, s, s);
    ghost var unscaled := mesh.vertices;
    ScaleVertices(mesh, scale);
    assert forall k :: 0 <= k < |mesh.indices| ==> mesh.vertices[mesh.indices[k]] == ScalePoint(unscaled[mesh.indices[k]], scale);
  }

  /** The split of `create_geometry`, done only when there are edge indices. */
  method SplitAlong(mesh: Mesh, lines: seq<(nat, nat)>, sharp: (nat, nat) -> bool)
    requires EdgeSplit.IndicesBelow(mesh.indices, |mesh.vertices|) && EdgeSplit.Contiguous(mesh.starts, mesh.sizes, |mesh.indices|)
    requires forall p :: p in lines ==> p.0 < |mesh.vertices| && p.1 < |mesh.vertices|
    modifies mesh`vertices, mesh`indices
    ensures |mesh.indices| == |old(mesh.indices)| && EdgeSplit.IndicesBelow(mesh.indices, |mesh.vertices|)
    ensures forall k :: 0 <= k < |mesh.indices| ==> mesh.vertices[mesh.indices[k]] == old(mesh.vertices)[old(mesh.indices)[k]]
    ensures lines == [] ==> mesh.vertices == old(mesh.vertices) && mesh.indices == old(mesh.indices)
  {
    if lines != [] {
      EdgeSplit.ContiguousRuns(mesh.starts, mesh.sizes, |mesh.indices|);
      var nv, ni := EdgeSplit.SplitEdges(mesh.vertices, mesh.indices, mesh.starts, mesh.sizes, lines, sharp);
      mesh.vertices := nv;
      mesh.indices := ni;
    }
  }

  /**
   * `create_geometry`: an empty mesh, grainy for a slope piece, filled by
   * `append_geometry` from the context of the named file, then finished.
   * What the walk leaves is sound and holds exactly the faces of the file
   * (`AppendShowsFaces`); the finished mesh keeps its runs, stud flags and
   * texture buffers, collapses its colours, and every index slot names the
   * scaled position it named before the split.
   */
  method CreateGeometry(file: LDraw.SourceFile, env: Env, name: string, color: ColorCode, depth: nat,
                        sharp: (nat, nat) -> bool, gaps: seq<Vec3> -> Vec3)
    returns (mesh: Mesh, scale: Vec3)
    requires LDraw.WellFormedFile(file) && FilesWellFormed(env)
    ensures fresh(mesh)
    ensures var (b, edges) := Append(EmptyBuffers(Slope.IsSlopePiece(name)), [], file, TopContext(name, color), env, depth);
            && Valid(b) && Colored(b) && b.grainy == Slope.IsSlopePiece(name)
            && FinishedFrom(mesh, b, edges, scale)
    ensures var s := env.settings.sceneScale;
            !env.settings.addGapBetweenParts ==> scale == Vec3(s, s, s)
  {
    var ctx := TopContext(name, color);
    mesh := new Mesh(Slope.IsSlopePiece(name));
    var vm := new VertexMap();
    ghost var b0 := mesh.Snapshot(vm);
    assert b0 == EmptyBuffers(Slope.IsSlopePiece(name));
    var edges := AppendGeometry(mesh, vm, [], file, ctx, env, depth);
    ghost var (b, e) := Append(b0, [], file, ctx, env, depth);
    assert mesh.Snapshot(vm) == b && edges == e;
    AppendShowsFaces(b0, [], file, ctx, env, depth);
    assert Valid(b) && Colored(b);
    scale := Finish(mesh, vm, edges, env.settings, sharp, gaps);
  }
}

/**
 * `append_geometry` (geometry.rs), the recursive walk over a file's
 * commands, as functions over a snapshot of the buffers: each command is a
 * step, a file is its commands walked in order, and a sub-file reference
 * walks the referenced file with the context it inherits.
 *
 * Next to the walk, `FileFaces` lists the faces a file contributes, with
 * their colour, stud flag and moved corners in the order they are stored,
 * without any buffers. `AppendShowsFaces` proves that the walk stores
 * exactly these faces, in this order, one run each, and keeps the buffers'
 * invariant.
 *
 * The source recurses without bound (a file that references itself
 * overflows the stack); the model gives the walk a depth: a reference met
 * at depth 0 is resolved but not expanded.
 */
module GeometryWalk {
  import opened Wrappers
  import opened Text
  import opened Linalg
  import LDraw
  import Settings
  import Slope
  import opened TexInfo
  import Documents
  import opened Geometry

  // ---------------------------------------------------------------------
  // What a walk carries
  // ---------------------------------------------------------------------

  /** The part of `GeometryContext` that decides the faces: inherited colour, placement, inversion and stud flag. */
  datatype Frame = Frame(color: ColorCode, transform: Mat4, inverted: bool, isStud: bool)

  /** `GeometryContext`: the frame, the slope flag and the textures handed down by the parent. */
  datatype Context = Context(frame: Frame, isSlope: bool, textures: seq<PendingTexture>)

  /** `current_winding`, `current_inverted` and `invert_next`. */
  datatype Flags = Flags(winding: LDraw.Winding, inverted: bool, invertNext: bool)

  /**
   * The locals of one `append_geometry` call: the flags, the ordinal of the
   * next resolved reference (`tex_path_index`), the current PE_TEX_PATH,
   * the active textures and the pending ones (`ctx.studio_textures`).
   */
  datatype Locals = Locals(flags: Flags, ordinal: int, texPath: seq<int>,
                           active: seq<PendingTexture>, pending: seq<PendingTexture>)

  /** The buffers with their vertex map, the collected type 2 lines, and the locals. */
  datatype State = State(mesh: Buffers, edges: seq<Segment>, loc: Locals)

  /**
   * What stays fixed during a walk: the parsed files, whether references
   * are followed, the settings, and the two floating-point routines of the
   * texture projection (`init_texture_transform` and `intersect_tri_box`).
   */
  datatype Env = Env(files: map<string, Documents.Entry>, recursive: bool, settings: Settings.GeometrySettings,
                     placement: (Mat4, Mat4) -> (Mat4, Vec3), triBox: (Vec3, Vec3, Vec3, Vec3) -> bool)

  /** Every stored file has the arrays its commands need. */
  predicate FilesWellFormed(env: Env) {
    forall name :: name in env.files ==> LDraw.WellFormedFile(env.files[name].file)
  }

  /** Every command of a list has the arrays it needs. */
  predicate CommandsWellFormed(cmds: seq<LDraw.Command>) {
    forall k :: 0 <= k < |cmds| ==> LDraw.WellFormed(cmds[k])
  }

  // ---------------------------------------------------------------------
  // Winding words
  // ---------------------------------------------------------------------

  /** The winding a word names: CCW or CW. */
  function WordWinding(word: string): Option<LDraw.Winding> {
    if word == "CCW" then Some(LDraw.Ccw)
    else if word == "CW" then Some(LDraw.Cw)
    else None
  }

  /** One word of a comment: CCW and CW set the winding, INVERTNEXT arms the flag. */
  function WordFlags(word: string, flags: Flags): Flags {
    match WordWinding(word)
    case Some(w) => flags.(winding := w)
    case None => if word == "INVERTNEXT" then flags.(invertNext := true) else flags
  }

  /** The words of a comment applied in order. */
  function WordsFlags(words: seq<string>, flags: Flags): Flags {
    if words == [] then flags else WordFlags(words[|words| - 1], WordsFlags(words[..|words| - 1], flags))
  }

  /**
   * After the words of a comment the inversion is untouched, and
   * INVERTNEXT is armed exactly when it was or the comment holds the word.
   */
  lemma {:induction false} WordsArm(words: seq<string>, flags: Flags)
    ensures WordsFlags(words, flags).inverted == flags.inverted
    ensures WordsFlags(words, flags).invertNext <==> flags.invertNext || "INVERTNEXT" in words
  {
    if words != [] {
      var init := words[..|words| - 1];
      WordsArm(init, flags);
      assert words == init + [words[|words| - 1]];
    }
  }

  /**
   * After the words of a comment the winding is the one named by the last
   * CW or CCW word, and unchanged when there is none.
   */
  lemma {:induction false} WordsWinding(words: seq<string>, flags: Flags)
    ensures (forall k :: 0 <= k < |words| ==> WordWinding(words[k]).None?) ==> WordsFlags(words, flags).winding == flags.winding
    ensures forall k :: 0 <= k < |words| && WordWinding(words[k]).Some? && (forall j :: k < j < |words| ==> WordWinding(words[j]).None?) ==>
              WordsFlags(words, flags).winding == WordWinding(words[k]).value
  {
    if words != [] {
      var init := words[..|words| - 1];
      var last := |words| - 1;
      WordsWinding(init, flags);
      WordFlagsWinding(words[last], WordsFlags(init, flags));
      assert forall k :: 0 <= k < |init| ==> init[k] == words[k];
      forall k | 0 <= k < |words| && WordWinding(words[k]).Some? && (forall j :: k < j < |words| ==> WordWinding(words[j]).None?)
        ensures WordsFlags(words, flags).winding == WordWinding(words[k]).value
      {
        if k < last {
          assert forall j :: k < j < |init| ==> WordWinding(init[j]).None?;
        }
      }
    }
  }

  /** One word sets the winding it names and keeps it otherwise. */
  lemma WordFlagsWinding(word: string, flags: Flags)
    ensures WordFlags(word, flags).winding == if WordWinding(word).Some? then WordWinding(word).value else flags.winding
  {
  }

  /** The flags a command leaves for the next one. */
  function NextFlags(cmd: LDraw.Command, flags: Flags, env: Env): Flags {
    match cmd
    case Comment(text) =>
      if StartsWith(text, TexPathPrefix) || StartsWith(text, TexInfoPrefix) then flags
      else WordsFlags(SplitWhitespace(text), flags)
    case SubFileRef(_, _, file) =>
      if Resolve(env, file).Some? then flags.(invertNext := false) else flags
    case _ => flags
  }

  /** The winding a face is stored with. */
  function FaceWinding(flags: Flags): LDraw.Winding {
    InvertWinding(flags.winding, flags.inverted)
  }

  /**
   * The flags a file starts with: counter-clockwise, nothing armed, and
   * inverted when the inherited inversion and a mirroring placement do not
   * cancel out.
   */
  function StartFlags(frame: Frame): (r: Flags)
    ensures r.winding == LDraw.Ccw && !r.invertNext
    ensures r.inverted <==> frame.inverted != IsMirroring(frame.transform)
  {
    Flags(LDraw.Ccw, if IsMirroring(frame.transform) then !frame.inverted else frame.inverted, false)
  }

  // ---------------------------------------------------------------------
  // Textures
  // ---------------------------------------------------------------------

  /** The textures without a path, in order. */
  function WithoutPath(ts: seq<PendingTexture>): (r: seq<PendingTexture>)
    ensures forall t :: t in r <==> t in ts && t.path == []
  {
    if ts == [] then []
    else WithoutPath(ts[..|ts| - 1]) + (if ts[|ts| - 1].path == [] then [ts[|ts| - 1]] else [])
  }

  /** The textures with a path, in order. */
  function WithPath(ts: seq<PendingTexture>): (r: seq<PendingTexture>)
    ensures forall t :: t in r <==> t in ts && t.path != []
  {
    if ts == [] then []
    else WithPath(ts[..|ts| - 1]) + (if ts[|ts| - 1].path != [] then [ts[|ts| - 1]] else [])
  }

  /** The two halves of the partition together hold as many textures as were handed down. */
  lemma {:induction false} PartitionSizes(ts: seq<PendingTexture>)
    ensures |WithoutPath(ts)| + |WithPath(ts)| == |ts|
  {
    if ts != [] {
      PartitionSizes(ts[..|ts| - 1]);
    }
  }

  /**
   * The pending textures a child receives: those whose path starts with the
   * child's ordinal, with that step removed.
   */
  function Routed(pending: seq<PendingTexture>, ordinal: int): (r: seq<PendingTexture>)
    ensures forall t :: t in r ==> exists u :: u in pending && u.path != [] && u.path[0] == ordinal && t == u.(path := u.path[1..])
    ensures forall u :: u in pending && u.path != [] && u.path[0] == ordinal ==> u.(path := u.path[1..]) in r
  {
    if pending == [] then []
    else
      var u := pending[|pending| - 1];
      assert pending == pending[..|pending| - 1] + [u];
      Routed(pending[..|pending| - 1], ordinal) + RoutedOne(u, ordinal)
  }

  /** One pending texture handed on, with the step removed, when its path starts at `ordinal`. */
  function RoutedOne(u: PendingTexture, ordinal: int): seq<PendingTexture> {
    if u.path != [] && u.path[0] == ordinal then [u.(path := u.path[1..])] else []
  }

  /** The routed textures of one more pending texture of a prefix. */
  lemma RoutedStep(pending: seq<PendingTexture>, ordinal: int, k: nat)
    requires k < |pending|
    ensures Routed(pending[..k + 1], ordinal) == Routed(pending[..k], ordinal) + RoutedOne(pending[k], ordinal)
  {
    assert pending[..k + 1][..k] == pending[..k];
  }

  /**
   * A texture just read: the path [-1] stands for "this file" and becomes
   * empty; a texture without a path becomes active, any other waits for
   * its descendant.
   */
  function Route(loc: Locals, tex: PendingTexture): (r: Locals)
    ensures r.flags == loc.flags && r.ordinal == loc.ordinal && r.texPath == loc.texPath
    ensures tex.path == [] || tex.path == [-1] ==> r.active == loc.active + [tex.(path := [])] && r.pending == loc.pending
    ensures tex.path != [] && tex.path != [-1] ==> r.pending == loc.pending + [tex] && r.active == loc.active
  {
    var t := if tex.path == [-1] then tex.(path := []) else tex;
    if t.path == [] then loc.(active := loc.active + [t]) else loc.(pending := loc.pending + [t])
  }

  /**
   * The texture comments: PE_TEX_PATH replaces the current path when all
   * its words are integers; PE_TEX_INFO registers a texture under the
   * current path and routes it. Any other comment is left to the flags.
   */
  function TextureComment(b: Buffers, text: string, loc: Locals): (Buffers, Locals) {
    if StartsWith(text, TexPathPrefix) then
      (b, match ParseTexPath(text) case Some(path) => loc.(texPath := path) case None => loc)
    else if StartsWith(text, TexInfoPrefix) then
      var (b', t) := TextureRegister(b, text, loc.texPath);
      match t
      case None => (b', loc)
      case Some(tex) => (b', Route(loc, tex))
    else (b, loc)
  }

  /** `active_textures.first()`. */
  function ActiveTexture(loc: Locals): Option<PendingTexture> {
    if loc.active == [] then None else Some(loc.active[0])
  }

  /** The locals a file starts with: the handed-down textures split by whether they still have a path. */
  function Start(ctx: Context): Locals {
    Locals(StartFlags(ctx.frame), 0, [], WithoutPath(ctx.textures), WithPath(ctx.textures))
  }

  /**
   * The context `create_geometry` starts from: the given colour, the
   * identity placement, not inverted, a stud or slope when the name says
   * so, and no textures.
   */
  function TopContext(name: string, color: ColorCode): Context {
    Context(Frame(color, Identity, false, IsStud(name)), Slope.IsSlopePiece(name), [])
  }

  // ---------------------------------------------------------------------
  // Sub-file references
  // ---------------------------------------------------------------------

  /** The name a reference is looked up under, after stud substitution. */
  function SubName(file: string, env: Env): string {
    ReplaceStuds(file, env.settings.studType)
  }

  /** The file a reference resolves to, only when references are followed. */
  function Resolve(env: Env, file: string): (r: Option<Documents.Entry>)
    ensures r.Some? <==> env.recursive && Documents.Normalize(SubName(file, env)) in env.files
    ensures r.Some? ==> r.value == env.files[Documents.Normalize(SubName(file, env))]
  {
    if env.recursive then Documents.Find(env.files, SubName(file, env)) else None
  }

  /**
   * The frame of a referenced file: studs and their descendants stay studs;
   * the walls of high-contrast studs are black (colour 0), other files take
   * the reference's colour with 16 inheriting; the placements compose; and
   * the child is inverted exactly when the parent's context was and
   * INVERTNEXT is not armed, or the other way round: the mirroring of the
   * parent's own placement is not passed on.
   */
  function ChildFrame(frame: Frame, flags: Flags, color: ColorCode, transform: LDraw.Transform, name: string,
                      studType: Settings.StudType): (r: Frame)
    ensures r.isStud <==> frame.isStud || IsStud(name)
    ensures r.inverted <==> frame.inverted != flags.invertNext
    ensures r.transform == Mul(frame.transform, LDraw.ToMatrix(transform))
    ensures r.color == if r.isStud && studType == Settings.HighContrast && Contains(name, "cyli.dat") then 0
                       else Settings.ReplaceColor(color, frame.color)
  {
    var isStud := frame.isStud || IsStud(name);
    Frame(if isStud && studType == Settings.HighContrast && Contains(name, "cyli.dat") then 0 else Settings.ReplaceColor(color, frame.color),
          Mul(frame.transform, LDraw.ToMatrix(transform)),
          if flags.invertNext then !frame.inverted else frame.inverted,
          isStud)
  }

  /** The context of a referenced file: its frame, the slope flag, and the active textures followed by the routed ones. */
  function ChildContext(ctx: Context, loc: Locals, color: ColorCode, transform: LDraw.Transform, name: string, env: Env): (r: Context)
    ensures r.frame == ChildFrame(ctx.frame, loc.flags, color, transform, name, env.settings.studType)
    ensures r.isSlope <==> ctx.isSlope || Slope.IsSlopePiece(name)
    ensures r.textures == loc.active + Routed(loc.pending, loc.ordinal)
  {
    Context(ChildFrame(ctx.frame, loc.flags, color, transform, name, env.settings.studType),
            ctx.isSlope || Slope.IsSlopePiece(name),
            loc.active + Routed(loc.pending, loc.ordinal))
  }

  // ---------------------------------------------------------------------
  // Faces of a command
  // ---------------------------------------------------------------------

  /** A face as a command gives it: colour code, corners and optional UVs. */
  datatype RawFace = RawFace(color: ColorCode, vertices: seq<Vec3>, uvs: Option<seq<Vec2>>)

  predicate Shaped(f: RawFace) {
    (|f.vertices| == 3 || |f.vertices| == 4) && (f.uvs.Some? ==> |f.uvs.value| == |f.vertices|)
  }

  /** Three of a quad's UVs. */
  function PickUvs(uvs: Option<seq<Vec2>>, a: nat, b: nat, c: nat): (r: Option<seq<Vec2>>)
    requires a < 4 && b < 4 && c < 4 && (uvs.Some? ==> |uvs.value| == 4)
    ensures r.Some? <==> uvs.Some?
    ensures r.Some? ==> r.value == [uvs.value[a], uvs.value[b], uvs.value[c]]
  {
    match uvs
    case None => None
    case Some(u) => Some([u[a], u[b], u[c]])
  }

  /**
   * The faces a command adds: a triangle one; a quad one, or with
   * triangulation the triangles (v0, v1, v2) and (v0, v2, v3) with their
   * UVs; any other command none.
   */
  function CommandFaces(cmd: LDraw.Command, triangulate: bool): (r: seq<RawFace>)
    requires LDraw.WellFormed(cmd)
    ensures forall k :: 0 <= k < |r| ==> Shaped(r[k])
    ensures |r| > 0 <==> cmd.Triangle? || cmd.Quad?
  {
    match cmd
    case Triangle(color, vs, uvs) => [RawFace(color, vs, uvs)]
    case Quad(color, vs, uvs) =>
      if triangulate then
        [RawFace(color, [vs[0], vs[1], vs[2]], PickUvs(uvs, 0, 1, 2)), RawFace(color, [vs[0], vs[2], vs[3]], PickUvs(uvs, 0, 2, 3))]
      else [RawFace(color, vs, uvs)]
    case _ => []
  }

  /** `add_triangle_face` (or the quad branch) for each face in turn. */
  function FacesAdd(b: Buffers, fs: seq<RawFace>, frame: Frame, flags: Flags, texture: Option<PendingTexture>, env: Env): Buffers
    requires forall k :: 0 <= k < |fs| ==> Shaped(fs[k])
  {
    if fs == [] then b
    else
      var f := fs[|fs| - 1];
      var init := fs[..|fs| - 1];
      assert Shaped(f) && forall k :: 0 <= k < |init| ==> init[k] == fs[k] && Shaped(init[k]);
      ColoredFaceAdd(FacesAdd(b, init, frame, flags, texture, env), frame.transform, f.vertices, f.uvs,
                     FaceWinding(flags), Settings.ReplaceColor(f.color, frame.color), frame.isStud,
                     env.settings.weldVertices, texture, env.placement, env.triBox)
  }

  /** Adding one face is `ColoredFaceAdd` under the frame and the flags. */
  lemma FacesAddOne(b: Buffers, f: RawFace, frame: Frame, flags: Flags, texture: Option<PendingTexture>, env: Env)
    requires Shaped(f)
    ensures FacesAdd(b, [f], frame, flags, texture, env)
         == ColoredFaceAdd(b, frame.transform, f.vertices, f.uvs, FaceWinding(flags), Settings.ReplaceColor(f.color, frame.color),
                           frame.isStud, env.settings.weldVertices, texture, env.placement, env.triBox)
  {
    assert [f][..0] == [];
  }

  // ---------------------------------------------------------------------
  // The walk
  // ---------------------------------------------------------------------

  /** One command of `append_geometry`'s loop. */
  function Step(st: State, cmd: LDraw.Command, ctx: Context, env: Env, depth: nat): State
    requires LDraw.WellFormed(cmd) && FilesWellFormed(env)
    decreases depth, 0
  {
    var flags' := NextFlags(cmd, st.loc.flags, env);
    match cmd
    case Comment(text) =>
      var (b', loc') := TextureComment(st.mesh, text, st.loc);
      State(b', st.edges, loc'.(flags := flags'))
    case Triangle(_, _, _) =>
      State(FacesAdd(st.mesh, CommandFaces(cmd, env.settings.triangulate), ctx.frame, st.loc.flags, ActiveTexture(st.loc), env),
            st.edges, st.loc)
    case Quad(_, _, _) =>
      State(FacesAdd(st.mesh, CommandFaces(cmd, env.settings.triangulate), ctx.frame, st.loc.flags, ActiveTexture(st.loc), env),
            st.edges, st.loc)
    case Line(_, vs) =>
      State(st.mesh, st.edges + [(TransformPoint(ctx.frame.transform, vs[0]), TransformPoint(ctx.frame.transform, vs[1]))], st.loc)
    case SubFileRef(color, transform, file) =>
      (match Resolve(env, file)
       case None => st
       case Some(entry) =>
         var child := ChildContext(ctx, st.loc, color, transform, SubName(file, env), env);
         var (b', edges') := if depth == 0 then (st.mesh, st.edges) else Append(st.mesh, st.edges, entry.file, child, env, depth - 1);
         State(b', edges', st.loc.(flags := flags', ordinal := st.loc.ordinal + 1)))
    case _ => st
  }

  /** The commands from `i` on, one step after the other. */
  function Walk(st: State, cmds: seq<LDraw.Command>, i: nat, ctx: Context, env: Env, depth: nat): State
    requires i <= |cmds| && CommandsWellFormed(cmds) && FilesWellFormed(env)
    decreases depth, |cmds| - i + 1
  {
    if i == |cmds| then st else Walk(Step(st, cmds[i], ctx, env, depth), cmds, i + 1, ctx, env, depth)
  }

  /** `append_geometry`: the file's commands walked from the locals the context gives. */
  function Append(b: Buffers, edges: seq<Segment>, file: LDraw.SourceFile, ctx: Context, env: Env, depth: nat): (Buffers, seq<Segment>)
    requires LDraw.WellFormedFile(file) && FilesWellFormed(env)
    decreases depth, |file.cmds| + 2
  {
    var st := Walk(State(b, edges, Start(ctx)), file.cmds, 0, ctx, env, depth);
    (st.mesh, st.edges)
  }

  // ---------------------------------------------------------------------
  // The faces a file contributes
  // ---------------------------------------------------------------------

  /** A stored face: its colour, its stud flag and its corners, moved and in slot order. */
  datatype Face = Face(color: ColorCode, stud: bool, corners: seq<Vec3>)

  /** The face a command's face becomes under a frame and flags. */
  function FaceOf(f: RawFace, frame: Frame, flags: Flags): Face {
    Face(Settings.ReplaceColor(f.color, frame.color), frame.isStud, Moved(frame.transform, Oriented(f.vertices, FaceWinding(flags))))
  }

  function FacesOf(fs: seq<RawFace>, frame: Frame, flags: Flags): (r: seq<Face>)
    ensures |r| == |fs| && forall k :: 0 <= k < |fs| ==> r[k] == FaceOf(fs[k], frame, flags)
  {
    seq(|fs|, k requires 0 <= k < |fs| => FaceOf(fs[k], frame, flags))
  }

  /** The faces of one command, those of a referenced file included. */
  function StepFaces(cmd: LDraw.Command, flags: Flags, frame: Frame, env: Env, depth: nat): seq<Face>
    requires LDraw.WellFormed(cmd) && FilesWellFormed(env)
    decreases depth, 0
  {
    match cmd
    case Triangle(_, _, _) => FacesOf(CommandFaces(cmd, env.settings.triangulate), frame, flags)
    case Quad(_, _, _) => FacesOf(CommandFaces(cmd, env.settings.triangulate), frame, flags)
    case SubFileRef(color, transform, file) =>
      (match Resolve(env, file)
       case None => []
       case Some(entry) =>
         if depth == 0 then []
         else FileFaces(entry.file, ChildFrame(frame, flags, color, transform, SubName(file, env), env.settings.studType), env, depth - 1))
    case _ => []
  }

  /** The faces of the commands from `i` on. */
  function WalkFaces(cmds: seq<LDraw.Command>, i: nat, flags: Flags, frame: Frame, env: Env, depth: nat): seq<Face>
    requires i <= |cmds| && CommandsWellFormed(cmds) && FilesWellFormed(env)
    decreases depth, |cmds| - i + 1
  {
    if i == |cmds| then []
    else StepFaces(cmds[i], flags, frame, env, depth) + WalkFaces(cmds, i + 1, NextFlags(cmds[i], flags, env), frame, env, depth)
  }

  /** The faces of a file, depth first and in command order. */
  function FileFaces(file: LDraw.SourceFile, frame: Frame, env: Env, depth: nat): seq<Face>
    requires LDraw.WellFormedFile(file) && FilesWellFormed(env)
    decreases depth, |file.cmds| + 2
  {
    WalkFaces(file.cmds, 0, StartFlags(frame), frame, env, depth)
  }

  // ---------------------------------------------------------------------
  // The walk stores exactly the faces of the file
  // ---------------------------------------------------------------------

  /**
   * Face `f` of the buffers is `face`: its colour and stud flag, a run as
   * long as its corners, and each slot naming a vertex within the welding
   * distance of the corner in that slot.
   */
  predicate Shows(r: Buffers, f: nat, face: Face) {
    && f < |r.starts| && f < |r.sizes| && f < |r.colors| && f < |r.studs|
    && r.colors[f] == face.color && r.studs[f] == face.stud && r.sizes[f] == |face.corners|
    && RunNear(r, r.starts[f], face.corners)
  }

  /** The faces `r` has beyond those of `b` are exactly `faces`, in order. */
  predicate ShowsAll(b: Buffers, r: Buffers, faces: seq<Face>) {
    |r.starts| == |b.starts| + |faces| && forall f :: 0 <= f < |faces| ==> Shows(r, |b.starts| + f, faces[f])
  }

  /** `r` only appended to the buffers of `b`. */
  predicate Extends(b: Buffers, r: Buffers) {
    && b.vertices <= r.vertices && b.indices <= r.indices && b.starts <= r.starts
    && b.sizes <= r.sizes && b.colors <= r.colors && b.studs <= r.studs
  }

  /** The invariant of the buffers with one colour and stud flag per face. */
  predicate Sound(b: Buffers) {
    Valid(b) && Colored(b)
  }

  /** The textures the locals hold are stored images. */
  predicate Holds(b: Buffers, loc: Locals) {
    Registered(b, loc.active) && Registered(b, loc.pending)
  }

  lemma ExtendsTransitive(a: Buffers, b: Buffers, c: Buffers)
    requires Extends(a, b) && Extends(b, c)
    ensures Extends(a, c)
  {
  }

  lemma RegisteredGrows(b: Buffers, r: Buffers, ts: seq<PendingTexture>)
    requires Registered(b, ts) && Grows(b, r)
    ensures Registered(r, ts)
  {
  }

  /** A face stays as it was while the buffers are only appended to. */
  lemma ShowsKept(b: Buffers, r: Buffers, f: nat, face: Face)
    requires Shows(b, f, face) && Extends(b, r)
    ensures Shows(r, f, face)
  {
    assert b.starts == r.starts[..|b.starts|] && b.sizes == r.sizes[..|b.sizes|];
    assert b.colors == r.colors[..|b.colors|] && b.studs == r.studs[..|b.studs|];
    RunNearKept(b, r, b.starts[f], face.corners);
  }

  /** The faces added in two stretches are those of the first stretch followed by those of the second. */
  lemma ShowsAllJoin(b: Buffers, m: Buffers, r: Buffers, first: seq<Face>, second: seq<Face>)
    requires ShowsAll(b, m, first) && ShowsAll(m, r, second) && Extends(m, r)
    ensures ShowsAll(b, r, first + second)
  {
    var all := first + second;
    forall f | 0 <= f < |all| ensures Shows(r, |b.starts| + f, all[f]) {
      if f < |first| {
        ShowsKept(m, r, |b.starts| + f, first[f]);
      } else {
        assert all[f] == second[f - |first|];
      }
    }
  }

  /** One face added with its colour: the buffers stay sound and the new face is the face of the command. */
  lemma FaceShown(b: Buffers, f: RawFace, frame: Frame, flags: Flags, texture: Option<PendingTexture>, env: Env)
    requires Shaped(f) && Sound(b) && (texture.Some? ==> Registered(b, [texture.value]))
    ensures var r := ColoredFaceAdd(b, frame.transform, f.vertices, f.uvs, FaceWinding(flags), Settings.ReplaceColor(f.color, frame.color),
                                    frame.isStud, env.settings.weldVertices, texture, env.placement, env.triBox);
            Sound(r) && Grows(b, r) && Extends(b, r) && ShowsAll(b, r, [FaceOf(f, frame, flags)])
  {
    var color := Settings.ReplaceColor(f.color, frame.color);
    ColoredFaceAddSpec(b, frame.transform, f.vertices, f.uvs, FaceWinding(flags), color,
                       frame.isStud, env.settings.weldVertices, texture, env.placement, env.triBox);
    var r := ColoredFaceAdd(b, frame.transform, f.vertices, f.uvs, FaceWinding(flags), color,
                            frame.isStud, env.settings.weldVertices, texture, env.placement, env.triBox);
    AppendedFace(b, r, FaceOf(f, frame, flags));
  }

  /** Buffers with one more face run, of the given colour, stud flag and corners, show that face after those of `b`. */
  lemma AppendedFace(b: Buffers, r: Buffers, face: Face)
    requires r.colors == b.colors + [face.color] && r.studs == b.studs + [face.stud]
    requires r.sizes == b.sizes + [|face.corners|] && r.starts == b.starts + [|b.indices|]
    requires b.indices <= r.indices && b.vertices <= r.vertices
    requires RunNear(r, |b.indices|, face.corners)
    requires |b.colors| == |b.studs| == |b.sizes| == |b.starts|
    ensures Extends(b, r) && ShowsAll(b, r, [face])
  {
    assert Shows(r, |b.starts|, face);
  }

  /** The faces of a command added in turn: the buffers stay sound and the new faces are those of the command, in order. */
  lemma {:induction false} FacesShown(b: Buffers, fs: seq<RawFace>, frame: Frame, flags: Flags, texture: Option<PendingTexture>, env: Env)
    requires (forall k :: 0 <= k < |fs| ==> Shaped(fs[k])) && Sound(b) && (texture.Some? ==> Registered(b, [texture.value]))
    ensures var r := FacesAdd(b, fs, frame, flags, texture, env);
            Sound(r) && Grows(b, r) && Extends(b, r) && ShowsAll(b, r, FacesOf(fs, frame, flags))
    decreases |fs|
  {
    if fs != [] {
      var init := fs[..|fs| - 1];
      var f := fs[|fs| - 1];
      assert Shaped(f) && forall k :: 0 <= k < |init| ==> init[k] == fs[k] && Shaped(init[k]);
      FacesShown(b, init, frame, flags, texture, env);
      FacesOfSnoc(fs, frame, flags);
      FacesShownLast(b, FacesAdd(b, init, frame, flags, texture, env), init, f, frame, flags, texture, env);
    }
  }

  /** The faces of a sequence are those of all but its last element, then that of the last. */
  lemma FacesOfSnoc(fs: seq<RawFace>, frame: Frame, flags: Flags)
    requires fs != []
    ensures FacesOf(fs, frame, flags) == FacesOf(fs[..|fs| - 1], frame, flags) + [FaceOf(fs[|fs| - 1], frame, flags)]
  {
  }

  /** The inductive step of `FacesShown`: one more face on top of those already shown. */
  lemma FacesShownLast(b: Buffers, m: Buffers, init: seq<RawFace>, f: RawFace, frame: Frame, flags: Flags, texture: Option<PendingTexture>, env: Env)
    requires Shaped(f) && Sound(b) && (texture.Some? ==> Registered(b, [texture.value]))
    requires Sound(m) && Grows(b, m) && Extends(b, m) && ShowsAll(b, m, FacesOf(init, frame, flags))
    ensures var r := ColoredFaceAdd(m, frame.transform, f.vertices, f.uvs, FaceWinding(flags), Settings.ReplaceColor(f.color, frame.color),
                                    frame.isStud, env.settings.weldVertices, texture, env.placement, env.triBox);
            Sound(r) && Grows(b, r) && Extends(b, r) && ShowsAll(b, r, FacesOf(init, frame, flags) + [FaceOf(f, frame, flags)])
  {
    if texture.Some? {
      RegisteredGrows(b, m, [texture.value]);
    }
    FaceShown(m, f, frame, flags, texture, env);
    var r := ColoredFaceAdd(m, frame.transform, f.vertices, f.uvs, FaceWinding(flags), Settings.ReplaceColor(f.color, frame.color),
                            frame.isStud, env.settings.weldVertices, texture, env.placement, env.triBox);
    ShowsAllJoin(b, m, r, FacesOf(init, frame, flags), [FaceOf(f, frame, flags)]);
  }

  /**
   * A comment changes the buffers only through the texture buffers, keeps
   * them sound, and leaves every texture the locals hold a stored image.
   */
  lemma CommentKeeps(b: Buffers, text: string, loc: Locals)
    requires Sound(b) && Holds(b, loc)
    ensures var (r, loc') := TextureComment(b, text, loc);
            Sound(r) && Grows(b, r) && r == b.(textureInfo := r.textureInfo) && Holds(r, loc')
  {
    if !StartsWith(text, TexPathPrefix) && StartsWith(text, TexInfoPrefix) {
      TextureRegisterSpec(b, text, loc.texPath);
      var (r, t) := TextureRegister(b, text, loc.texPath);
      RegisteredGrows(b, r, loc.active);
      RegisteredGrows(b, r, loc.pending);
    }
  }

  /** The textures handed to a child are stored images when those the locals hold are. */
  lemma ChildRegistered(b: Buffers, loc: Locals)
    requires Holds(b, loc)
    ensures Registered(b, loc.active + Routed(loc.pending, loc.ordinal))
  {
  }

  /** The textures a file starts with are stored images when those of its context are. */
  lemma StartHolds(b: Buffers, ctx: Context)
    requires Registered(b, ctx.textures)
    ensures Holds(b, Start(ctx))
  {
  }

  /** A step keeps the buffers sound and adds exactly the faces of the command. */
  lemma StepShows(st: State, cmd: LDraw.Command, ctx: Context, env: Env, depth: nat)
    requires LDraw.WellFormed(cmd) && FilesWellFormed(env) && Sound(st.mesh) && Holds(st.mesh, st.loc)
    ensures var r := Step(st, cmd, ctx, env, depth);
            && Sound(r.mesh) && Grows(st.mesh, r.mesh) && Extends(st.mesh, r.mesh) && Holds(r.mesh, r.loc)
            && r.loc.flags == NextFlags(cmd, st.loc.flags, env)
            && ShowsAll(st.mesh, r.mesh, StepFaces(cmd, st.loc.flags, ctx.frame, env, depth))
    decreases depth, 1
  {
    if cmd.Comment? {
      CommentStepShows(st, cmd, ctx, env, depth);
    } else if cmd.Triangle? || cmd.Quad? {
      FaceStepShows(st, cmd, ctx, env, depth);
    } else if cmd.SubFileRef? && Resolve(env, cmd.file).Some? && depth > 0 {
      RefStepShows(st, cmd, ctx, env, depth);
    } else {
      IdleStepShows(st, cmd, ctx, env, depth);
    }
  }

  /** A comment adds no face and keeps the buffers sound. */
  lemma CommentStepShows(st: State, cmd: LDraw.Command, ctx: Context, env: Env, depth: nat)
    requires cmd.Comment? && LDraw.WellFormed(cmd) && FilesWellFormed(env) && Sound(st.mesh) && Holds(st.mesh, st.loc)
    ensures var r := Step(st, cmd, ctx, env, depth);
            && Sound(r.mesh) && Grows(st.mesh, r.mesh) && Extends(st.mesh, r.mesh) && Holds(r.mesh, r.loc)
            && r.loc.flags == NextFlags(cmd, st.loc.flags, env)
            && ShowsAll(st.mesh, r.mesh, StepFaces(cmd, st.loc.flags, ctx.frame, env, depth))
  {
    CommentKeeps(st.mesh, cmd.text, st.loc);
  }

  /** A line, an unresolved or too deep reference, or any other command leaves the buffers alone. */
  lemma IdleStepShows(st: State, cmd: LDraw.Command, ctx: Context, env: Env, depth: nat)
    requires !cmd.Comment? && !cmd.Triangle? && !cmd.Quad?
    requires cmd.SubFileRef? ==> Resolve(env, cmd.file).None? || depth == 0
    requires LDraw.WellFormed(cmd) && FilesWellFormed(env) && Sound(st.mesh) && Holds(st.mesh, st.loc)
    ensures var r := Step(st, cmd, ctx, env, depth);
            && Sound(r.mesh) && Grows(st.mesh, r.mesh) && Extends(st.mesh, r.mesh) && Holds(r.mesh, r.loc)
            && r.loc.flags == NextFlags(cmd, st.loc.flags, env)
            && ShowsAll(st.mesh, r.mesh, StepFaces(cmd, st.loc.flags, ctx.frame, env, depth))
  {
  }

  /** A triangle or quadrilateral adds its faces under the active texture and leaves the locals alone. */
  lemma FaceStepShows(st: State, cmd: LDraw.Command, ctx: Context, env: Env, depth: nat)
    requires (cmd.Triangle? || cmd.Quad?) && LDraw.WellFormed(cmd) && FilesWellFormed(env) && Sound(st.mesh) && Holds(st.mesh, st.loc)
    ensures var r := Step(st, cmd, ctx, env, depth);
            && Sound(r.mesh) && Grows(st.mesh, r.mesh) && Extends(st.mesh, r.mesh) && Holds(r.mesh, r.loc)
            && r.loc == st.loc && r.loc.flags == NextFlags(cmd, st.loc.flags, env)
            && ShowsAll(st.mesh, r.mesh, StepFaces(cmd, st.loc.flags, ctx.frame, env, depth))
  {
    var b := st.mesh;
    var fs := CommandFaces(cmd, env.settings.triangulate);
    var tex := ActiveTexture(st.loc);
    FacesShown(b, fs, ctx.frame, st.loc.flags, tex, env);
    var r := FacesAdd(b, fs, ctx.frame, st.loc.flags, tex, env);
    RegisteredGrows(b, r, st.loc.active);
    RegisteredGrows(b, r, st.loc.pending);
  }

  /** A reference that resolves below the depth bound adds the faces of the referenced file. */
  lemma RefStepShows(st: State, cmd: LDraw.Command, ctx: Context, env: Env, depth: nat)
    requires cmd.SubFileRef? && LDraw.WellFormed(cmd) && FilesWellFormed(env) && Sound(st.mesh) && Holds(st.mesh, st.loc)
    requires Resolve(env, cmd.file).Some? && depth > 0
    ensures var r := Step(st, cmd, ctx, env, depth);
            && Sound(r.mesh) && Grows(st.mesh, r.mesh) && Extends(st.mesh, r.mesh) && Holds(r.mesh, r.loc)
            && r.loc.flags == NextFlags(cmd, st.loc.flags, env)
            && ShowsAll(st.mesh, r.mesh, StepFaces(cmd, st.loc.flags, ctx.frame, env, depth))
    decreases depth, 0
  {
    var entry := Resolve(env, cmd.file).value;
    var child := ChildContext(ctx, st.loc, cmd.color, cmd.transform, SubName(cmd.file, env), env);
    ChildRegistered(st.mesh, st.loc);
    AppendShowsFaces(st.mesh, st.edges, entry.file, child, env, depth - 1);
    RefStepDeep(st, cmd, ctx, env, depth);
    RefStepLocals(st, cmd, ctx, env, depth);
  }

  /** After a reference that resolves, the locals hold stored images and INVERTNEXT is disarmed. */
  lemma RefStepLocals(st: State, cmd: LDraw.Command, ctx: Context, env: Env, depth: nat)
    requires cmd.SubFileRef? && LDraw.WellFormed(cmd) && FilesWellFormed(env) && Holds(st.mesh, st.loc)
    requires Resolve(env, cmd.file).Some? && depth > 0 && Grows(st.mesh, Step(st, cmd, ctx, env, depth).mesh)
    ensures var r := Step(st, cmd, ctx, env, depth);
            Holds(r.mesh, r.loc) && r.loc.flags == NextFlags(cmd, st.loc.flags, env)
  {
    var entry := Resolve(env, cmd.file).value;
    var child := ChildContext(ctx, st.loc, cmd.color, cmd.transform, SubName(cmd.file, env), env);
    RefStepDeep(st, cmd, ctx, env, depth);
    AppendKeeps(st.mesh, st.edges, entry.file, child, env, depth - 1, st.loc);
  }

  /**
   * A reference that resolves walks the referenced file in the child
   * context, below the depth bound, then disarms INVERTNEXT and counts the
   * reference.
   */
  lemma RefStepIs(st: State, cmd: LDraw.Command, ctx: Context, env: Env, depth: nat)
    requires cmd.SubFileRef? && LDraw.WellFormed(cmd) && FilesWellFormed(env) && Resolve(env, cmd.file).Some?
    ensures var entry := Resolve(env, cmd.file).value;
            var child := ChildContext(ctx, st.loc, cmd.color, cmd.transform, SubName(cmd.file, env), env);
            var (b', edges') := if depth == 0 then (st.mesh, st.edges) else Append(st.mesh, st.edges, entry.file, child, env, depth - 1);
            && Step(st, cmd, ctx, env, depth) == State(b', edges', st.loc.(flags := st.loc.flags.(invertNext := false), ordinal := st.loc.ordinal + 1))
            && StepFaces(cmd, st.loc.flags, ctx.frame, env, depth) == if depth == 0 then [] else FileFaces(entry.file, child.frame, env, depth - 1)
  {
  }

  /** `RefStepIs` below the depth bound, one component at a time. */
  lemma RefStepDeep(st: State, cmd: LDraw.Command, ctx: Context, env: Env, depth: nat)
    requires cmd.SubFileRef? && LDraw.WellFormed(cmd) && FilesWellFormed(env) && Resolve(env, cmd.file).Some? && depth > 0
    ensures var child := ChildContext(ctx, st.loc, cmd.color, cmd.transform, SubName(cmd.file, env), env);
            var r := Step(st, cmd, ctx, env, depth);
            && r.mesh == Append(st.mesh, st.edges, Resolve(env, cmd.file).value.file, child, env, depth - 1).0
            && r.loc == st.loc.(flags := st.loc.flags.(invertNext := false), ordinal := st.loc.ordinal + 1)
            && StepFaces(cmd, st.loc.flags, ctx.frame, env, depth) == FileFaces(Resolve(env, cmd.file).value.file, child.frame, env, depth - 1)
  {
    RefStepIs(st, cmd, ctx, env, depth);
  }

  /** A reference that does not resolve changes nothing. */
  lemma UnresolvedStep(st: State, cmd: LDraw.Command, ctx: Context, env: Env, depth: nat)
    requires cmd.SubFileRef? && LDraw.WellFormed(cmd) && FilesWellFormed(env) && Resolve(env, cmd.file).None?
    ensures Step(st, cmd, ctx, env, depth) == st
  {
  }

  /** The textures the locals hold stay stored images across a walk into a referenced file. */
  lemma AppendKeeps(b: Buffers, edges: seq<Segment>, file: LDraw.SourceFile, ctx: Context, env: Env, depth: nat, loc: Locals)
    requires LDraw.WellFormedFile(file) && FilesWellFormed(env) && Holds(b, loc)
    requires Grows(b, Append(b, edges, file, ctx, env, depth).0)
    ensures Holds(Append(b, edges, file, ctx, env, depth).0, loc)
  {
    var r := Append(b, edges, file, ctx, env, depth).0;
    RegisteredGrows(b, r, loc.active);
    RegisteredGrows(b, r, loc.pending);
  }

  /** A walk over the commands from `i` on keeps the buffers sound and adds exactly their faces, in order. */
  lemma WalkShows(st: State, cmds: seq<LDraw.Command>, i: nat, ctx: Context, env: Env, depth: nat)
    requires i <= |cmds| && CommandsWellFormed(cmds) && FilesWellFormed(env) && Sound(st.mesh) && Holds(st.mesh, st.loc)
    ensures var r := Walk(st, cmds, i, ctx, env, depth);
            && Sound(r.mesh) && Grows(st.mesh, r.mesh) && Extends(st.mesh, r.mesh)
            && ShowsAll(st.mesh, r.mesh, WalkFaces(cmds, i, st.loc.flags, ctx.frame, env, depth))
    decreases depth, |cmds| - i + 1
  {
    if i < |cmds| {
      StepShows(st, cmds[i], ctx, env, depth);
      var st' := Step(st, cmds[i], ctx, env, depth);
      WalkShows(st', cmds, i + 1, ctx, env, depth);
      var r := Walk(st', cmds, i + 1, ctx, env, depth);
      ExtendsTransitive(st.mesh, st'.mesh, r.mesh);
      ShowsAllJoin(st.mesh, st'.mesh, r.mesh, StepFaces(cmds[i], st.loc.flags, ctx.frame, env, depth),
                   WalkFaces(cmds, i + 1, st'.loc.flags, ctx.frame, env, depth));
    }
  }

  /**
   * `append_geometry` keeps the buffers sound (every index names a vertex,
   * the runs lie back to back, the vertex map agrees, the texture buffers
   * are in step, one colour and stud flag per face), only appends to them,
   * and the faces it adds are exactly the faces of the file, depth first
   * and in command order.
   */
  lemma AppendShowsFaces(b: Buffers, edges: seq<Segment>, file: LDraw.SourceFile, ctx: Context, env: Env, depth: nat)
    requires LDraw.WellFormedFile(file) && FilesWellFormed(env) && Sound(b) && Registered(b, ctx.textures)
    ensures var r := Append(b, edges, file, ctx, env, depth).0;
            Sound(r) && Grows(b, r) && Extends(b, r) && ShowsAll(b, r, FileFaces(file, ctx.frame, env, depth))
    decreases depth, |file.cmds| + 2
  {
    StartHolds(b, ctx);
    WalkShows(State(b, edges, Start(ctx)), file.cmds, 0, ctx, env, depth);
  }
}

/**
 * The documents of geometry.rs's tests, built as command lists, and the
 * faces the walk gives them: colour inheritance through a multi-part
 * document, and the winding of faces under INVERTNEXT, mirroring
 * placements and BFC winding statements.
 */
module GeometryFixtures {
  import opened Wrappers
  import opened Linalg
  import LDraw
  import Settings
  import Documents
  import EdgeSplit
  import opened Geometry
  import opened GeometryWalk

  const E1 := Vec3(1.0, 0.0, 0.0)
  const E2 := Vec3(0.0, 1.0, 0.0)
  const E3 := Vec3(0.0, 0.0, 1.0)
  const Origin := Vec3(0.0, 0.0, 0.0)

  /** The placement "0 0 0 1 0 0 0 1 0 0 0 1". */
  const Unit := LDraw.Transform(Origin, E1, E2, E3)

  /** The placement "0 0 0 -1 0 0 0 -1 0 0 0 -1", a mirroring one. */
  const Flip := LDraw.Transform(Origin, Vec3(-1.0, 0.0, 0.0), Vec3(0.0, -1.0, 0.0), Vec3(0.0, 0.0, -1.0))

  /** "3 c 1 0 0 0 1 0 0 0 1". */
  function Tri(color: Settings.ColorCode): LDraw.Command {
    LDraw.Triangle(color, [E1, E2, E3], None)
  }

  /** "4 c -1 -1 0 -1 1 0 -1 1 0 1 1 0". */
  function Quad(color: Settings.ColorCode): LDraw.Command {
    LDraw.Quad(color, [Vec3(-1.0, -1.0, 0.0), Vec3(-1.0, 1.0, 0.0), Vec3(-1.0, 1.0, 0.0), Vec3(1.0, 1.0, 0.0)], None)
  }

  function Colors(fs: seq<Face>): (r: seq<Settings.ColorCode>)
    ensures |r| == |fs| && forall k :: 0 <= k < |fs| ==> r[k] == fs[k].color
  {
    seq(|fs|, k requires 0 <= k < |fs| => fs[k].color)
  }

  function Sizes(fs: seq<Face>): (r: seq<nat>)
    ensures |r| == |fs| && forall k :: 0 <= k < |fs| ==> r[k] == |fs[k].corners|
  {
    seq(|fs|, k requires 0 <= k < |fs| => |fs[k].corners|)
  }

  /** The test's settings: welding on, everything else default. */
  const Welding := Settings.DefaultSettings.(weldVertices := true)

  function FixtureEnv(files: map<string, Documents.Entry>): Env {
    Env(files, true, Welding, (a: Mat4, b: Mat4) => (a, Origin), (p: Vec3, q: Vec3, s: Vec3, t: Vec3) => false)
  }

  /**
   * A run of faces without triangulation gives one face per command, with
   * the command's colour (16 inheriting the frame's) and as many corners
   * as the command has vertices.
   */
  lemma {:induction false} FacesOnly(cmds: seq<LDraw.Command>, i: nat, flags: Flags, frame: Frame, env: Env, depth: nat)
    requires i <= |cmds| && CommandsWellFormed(cmds) && FilesWellFormed(env) && !env.settings.triangulate
    requires forall k :: i <= k < |cmds| ==> cmds[k].Triangle? || cmds[k].Quad?
    ensures var fs := WalkFaces(cmds, i, flags, frame, env, depth);
            && |fs| == |cmds| - i
            && forall k :: 0 <= k < |fs| ==>
                 fs[k].color == Settings.ReplaceColor(cmds[i + k].color, frame.color) && |fs[k].corners| == |cmds[i + k].vertices|
    decreases |cmds| - i
  {
    if i < |cmds| {
      FacesOnly(cmds, i + 1, NextFlags(cmds[i], flags, env), frame, env, depth);
    }
  }

  // ---------------------------------------------------------------------
  // create_geometry_mpd
  // ---------------------------------------------------------------------

  const FileA := LDraw.SourceFile([Tri(16), Quad(2)])
  const FileB := LDraw.SourceFile([Tri(3), Tri(16)])
  const FileC := LDraw.SourceFile([Tri(4), Quad(5)])
  /** The main block, referring to the other three under the given names. */
  function MpdMain(na: string, nb: string, nc: string): seq<LDraw.Command> {
    [LDraw.SubFileRef(16, Unit, na), LDraw.SubFileRef(1, Unit, nb), LDraw.SubFileRef(16, Unit, nc), Tri(16), Quad(8)]
  }

  /** Faces only, no triangulation, no stud substitution. */
  predicate Plain(env: Env) {
    FilesWellFormed(env) && !env.settings.triangulate && env.settings.studType == Settings.Normal
  }

  /** The reference resolves to the given block. */
  predicate ResolvesTo(env: Env, name: string, block: LDraw.SourceFile) {
    Resolve(env, name).Some? && Resolve(env, name).value.file == block
  }

  /** The three names resolve to blocks a, b and c. */
  predicate MpdEnv(env: Env, na: string, nb: string, nc: string) {
    Plain(env) && ResolvesTo(env, na, FileA) && ResolvesTo(env, nb, FileB) && ResolvesTo(env, nc, FileC)
  }

  /**
   * The faces a reference contributes at depth 1: one per command of its
   * block, coloured by the block's code with 16 taking the reference's
   * colour, itself 16 taking the frame's.
   */
  lemma RefFaces(color: Settings.ColorCode, name: string, flags: Flags, frame: Frame, env: Env, block: LDraw.SourceFile)
    requires Plain(env) && ResolvesTo(env, name, block)
    requires forall k :: 0 <= k < |block.cmds| ==> block.cmds[k].Triangle? || block.cmds[k].Quad?
    ensures var faces := StepFaces(LDraw.SubFileRef(color, Unit, name), flags, frame, env, 1);
            && |faces| == |block.cmds|
            && forall k :: 0 <= k < |faces| ==>
                 && faces[k].color == Settings.ReplaceColor(block.cmds[k].color, Settings.ReplaceColor(color, frame.color))
                 && |faces[k].corners| == |block.cmds[k].vertices|
  {
    var child := ChildFrame(frame, flags, color, Unit, SubName(name, env), env.settings.studType);
    assert child.color == Settings.ReplaceColor(color, frame.color);
    assert LDraw.WellFormedFile(block);
    assert StepFaces(LDraw.SubFileRef(color, Unit, name), flags, frame, env, 1) == FileFaces(block, child, env, 0);
    FacesOnly(block.cmds, 0, StartFlags(child), child, env, 0);
  }

  /** The walk from index `i` is the faces of command `i` followed by the walk from `i + 1`. */
  lemma OneStep(cmds: seq<LDraw.Command>, i: nat, flags: Flags, frame: Frame, env: Env, depth: nat)
    requires i < |cmds| && CommandsWellFormed(cmds) && FilesWellFormed(env)
    ensures WalkFaces(cmds, i, flags, frame, env, depth)
            == StepFaces(cmds[i], flags, frame, env, depth) + WalkFaces(cmds, i + 1, NextFlags(cmds[i], flags, env), frame, env, depth)
  {
  }

  /** The faces of three commands followed by the rest of the list, as the walk concatenates them. */
  lemma ThreeSteps(cmds: seq<LDraw.Command>, flags: Flags, frame: Frame, env: Env, depth: nat)
    requires 3 <= |cmds| && CommandsWellFormed(cmds) && FilesWellFormed(env)
    ensures var f1 := NextFlags(cmds[0], flags, env);
            var f2 := NextFlags(cmds[1], f1, env);
            var f3 := NextFlags(cmds[2], f2, env);
            WalkFaces(cmds, 0, flags, frame, env, depth)
            == StepFaces(cmds[0], flags, frame, env, depth) + (StepFaces(cmds[1], f1, frame, env, depth)
               + (StepFaces(cmds[2], f2, frame, env, depth) + WalkFaces(cmds, 3, f3, frame, env, depth)))
  {
    var f1 := NextFlags(cmds[0], flags, env);
    var f2 := NextFlags(cmds[1], f1, env);
    OneStep(cmds, 0, flags, frame, env, depth);
    OneStep(cmds, 1, f1, frame, env, depth);
    OneStep(cmds, 2, f2, frame, env, depth);
  }

  /** Colours and sizes of a concatenation are those of its parts, concatenated. */
  lemma {:induction false} FourRuns(s0: seq<Face>, s1: seq<Face>, s2: seq<Face>, s3: seq<Face>)
    ensures Colors(s0 + s1 + s2 + s3) == Colors(s0) + Colors(s1) + Colors(s2) + Colors(s3)
    ensures Sizes(s0 + s1 + s2 + s3) == Sizes(s0) + Sizes(s1) + Sizes(s2) + Sizes(s3)
  {
    var all := s0 + s1 + s2 + s3;
    var n0, n1, n2 := |s0|, |s0| + |s1|, |s0| + |s1| + |s2|;
    assert forall k :: 0 <= k < |all| ==>
      all[k] == if k < n0 then s0[k] else if k < n1 then s1[k - n0] else if k < n2 then s2[k - n1] else s3[k - n2];
  }

  /** A pair of faces with the given colours and sizes. */
  predicate PairIs(fs: seq<Face>, c0: Settings.ColorCode, c1: Settings.ColorCode, n0: nat, n1: nat) {
    Colors(fs) == [c0, c1] && Sizes(fs) == [n0, n1]
  }

  lemma PairOf(fs: seq<Face>, c0: Settings.ColorCode, c1: Settings.ColorCode, n0: nat, n1: nat)
    requires |fs| == 2 && fs[0].color == c0 && fs[1].color == c1 && |fs[0].corners| == n0 && |fs[1].corners| == n1
    ensures PairIs(fs, c0, c1, n0, n1)
  {
    assert Colors(fs) == [c0, c1];
  }

  /** A reference to a block of two faces gives the pair the block's colours and sizes make. */
  lemma RefPair(color: Settings.ColorCode, name: string, flags: Flags, frame: Frame, env: Env, block: LDraw.SourceFile,
                c0: Settings.ColorCode, c1: Settings.ColorCode)
    requires Plain(env) && ResolvesTo(env, name, block) && |block.cmds| == 2
    requires block.cmds[0].Triangle? || block.cmds[0].Quad?
    requires block.cmds[1].Triangle? || block.cmds[1].Quad?
    requires c0 == Settings.ReplaceColor(block.cmds[0].color, Settings.ReplaceColor(color, frame.color))
    requires c1 == Settings.ReplaceColor(block.cmds[1].color, Settings.ReplaceColor(color, frame.color))
    ensures PairIs(StepFaces(LDraw.SubFileRef(color, Unit, name), flags, frame, env, 1), c0, c1,
                   |block.cmds[0].vertices|, |block.cmds[1].vertices|)
  {
    RefFaces(color, name, flags, frame, env, block);
    var faces := StepFaces(LDraw.SubFileRef(color, Unit, name), flags, frame, env, 1);
    PairOf(faces, c0, c1, |block.cmds[0].vertices|, |block.cmds[1].vertices|);
  }

  /** The main block's own faces, after its references. */
  lemma MpdOwn(flags: Flags, frame: Frame, env: Env, cmds: seq<LDraw.Command>)
    requires frame.color == 7 && Plain(env) && |cmds| == 5 && cmds[3] == Tri(16) && cmds[4] == Quad(8)
    ensures CommandsWellFormed(cmds[3..])
    ensures PairIs(WalkFaces(cmds[3..], 0, flags, frame, env, 1), 7, 8, 3, 4)
  {
    var own := cmds[3..];
    assert own == [Tri(16), Quad(8)];
    FacesOnly(own, 0, flags, frame, env, 1);
    PairOf(WalkFaces(own, 0, flags, frame, env, 1), 7, 8, 3, 4);
  }

  /** The four runs of the main block put together. */
  lemma MpdJoin(faces: seq<Face>, s0: seq<Face>, s1: seq<Face>, s2: seq<Face>, s3: seq<Face>)
    requires faces == s0 + (s1 + (s2 + s3))
    requires PairIs(s0, 7, 2, 3, 4) && PairIs(s1, 3, 1, 3, 3) && PairIs(s2, 4, 5, 3, 4) && PairIs(s3, 7, 8, 3, 4)
    ensures Colors(faces) == [7, 2, 3, 1, 4, 5, 7, 8] && Sizes(faces) == [3, 4, 3, 3, 3, 4, 3, 4]
  {
    FourRuns(s0, s1, s2, s3);
    assert faces == s0 + s1 + s2 + s3;
    assert [7, 2] + [3, 1] + [4, 5] + [7, 8] == [7, 2, 3, 1, 4, 5, 7, 8];
    assert [3, 4] + [3, 3] + [3, 4] + [3, 4] == [3, 4, 3, 3, 3, 4, 3, 4];
  }

  /** The walk from index 3 on is the walk of the list from index 3 on. */
  lemma {:induction false} WalkSuffix(cmds: seq<LDraw.Command>, i: nat, flags: Flags, frame: Frame, env: Env, depth: nat)
    requires i <= |cmds| && CommandsWellFormed(cmds) && FilesWellFormed(env)
    ensures CommandsWellFormed(cmds[i..])
    ensures WalkFaces(cmds, i, flags, frame, env, depth) == WalkFaces(cmds[i..], 0, flags, frame, env, depth)
    decreases |cmds| - i
  {
    assert CommandsWellFormed(cmds[i..]) by {
      forall k | 0 <= k < |cmds[i..]| ensures LDraw.WellFormed(cmds[i..][k]) {
        assert cmds[i..][k] == cmds[i + k];
      }
    }
    if i < |cmds| {
      WalkSuffix(cmds, i + 1, NextFlags(cmds[i], flags, env), frame, env, depth);
      WalkSuffix(cmds[i..], 1, NextFlags(cmds[i], flags, env), frame, env, depth);
      assert cmds[i..][1..] == cmds[i + 1..];
    }
  }

  /**
   * create_geometry_mpd: in any environment where the three names resolve
   * to blocks a, b and c, the faces of the main block under colour 7 come
   * in depth-first command order, with colours 7, 2, 3, 1, 4, 5, 7, 8 and
   * sizes 3, 4, 3, 3, 3, 4, 3, 4.
   */
  lemma MpdFaces(frame: Frame, env: Env, na: string, nb: string, nc: string)
    requires frame.color == 7 && MpdEnv(env, na, nb, nc)
    ensures CommandsWellFormed(MpdMain(na, nb, nc))
    ensures var faces := WalkFaces(MpdMain(na, nb, nc), 0, StartFlags(frame), frame, env, 1);
            && Colors(faces) == [7, 2, 3, 1, 4, 5, 7, 8]
            && Sizes(faces) == [3, 4, 3, 3, 3, 4, 3, 4]
  {
    var cmds := MpdMain(na, nb, nc);
    var f0 := StartFlags(frame);
    var f1 := NextFlags(cmds[0], f0, env);
    var f2 := NextFlags(cmds[1], f1, env);
    var f3 := NextFlags(cmds[2], f2, env);
    ThreeSteps(cmds, f0, frame, env, 1);
    RefPair(16, na, f0, frame, env, FileA, 7, 2);
    RefPair(1, nb, f1, frame, env, FileB, 3, 1);
    RefPair(16, nc, f2, frame, env, FileC, 4, 5);
    MpdOwn(f3, frame, env, cmds);
    WalkSuffix(cmds, 3, f3, frame, env, 1);
    MpdJoin(WalkFaces(cmds, 0, f0, frame, env, 1), StepFaces(cmds[0], f0, frame, env, 1), StepFaces(cmds[1], f1, frame, env, 1),
            StepFaces(cmds[2], f2, frame, env, 1), WalkFaces(cmds, 3, f3, frame, env, 1));
  }

  /** Where run `k` of `sizes` ends: the sizes before and at `k` add up. */
  lemma TotalStep(sizes: seq<nat>, k: nat)
    requires k < |sizes|
    ensures EdgeSplit.Total(sizes[..k + 1]) == EdgeSplit.Total(sizes[..k]) + sizes[k]
  {
    assert sizes[..k + 1][..k] == sizes[..k];
  }

  /**
   * create_geometry_mpd's face starts and index count: runs of the sizes
   * `MpdFaces` gives, laid out contiguously, start at 0, 3, 7, 10, 13, 16,
   * 20 and 23 and fill 27 index slots.
   */
  lemma MpdStarts(starts: seq<nat>, n: nat)
    requires EdgeSplit.Contiguous(starts, [3, 4, 3, 3, 3, 4, 3, 4], n)
    ensures starts == [0, 3, 7, 10, 13, 16, 20, 23] && n == 3 + 4 + 3 + 3 + 3 + 4 + 3 + 4
  {
    var sizes: seq<nat> := [3, 4, 3, 3, 3, 4, 3, 4];
    assert sizes[..0] == [];
    TotalStep(sizes, 0);
    TotalStep(sizes, 1);
    TotalStep(sizes, 2);
    TotalStep(sizes, 3);
    TotalStep(sizes, 4);
    TotalStep(sizes, 5);
    TotalStep(sizes, 6);
    TotalStep(sizes, 7);
    assert sizes[..8] == sizes;
  }

  /** The test's document: the three blocks stored under their own names. */
  const MpdFiles := map["a.ldr" := Documents.Entry(Documents.LDrawPath("a.ldr"), FileA),
                        "b.ldr" := Documents.Entry(Documents.LDrawPath("b.ldr"), FileB),
                        "c.ldr" := Documents.Entry(Documents.LDrawPath("c.ldr"), FileC)]

  /** A name of lower-case letters and dots is its own normal form. */
  lemma {:induction false} NormalizePlain(s: string)
    requires forall k :: 0 <= k < |s| ==> 'a' <= s[k] <= 'z' || s[k] == '.'
    ensures Documents.Normalize(s) == s
  {
    if s != [] {
      NormalizePlain(s[1..]);
    }
  }

  /** A name stored under itself resolves to its block when references are followed and studs are kept. */
  lemma Stored(env: Env, name: string, block: LDraw.SourceFile)
    requires env.recursive && env.settings.studType == Settings.Normal
    requires name in env.files && env.files[name].file == block && Documents.Normalize(name) == name
    ensures ResolvesTo(env, name, block)
  {
  }

  /** The test's document holds well-formed blocks and its settings keep faces and studs as they are. */
  lemma MpdPlain()
    ensures Plain(FixtureEnv(MpdFiles))
  {
  }

  /** The test's document stores the three blocks under three distinct names. */
  lemma MpdStored()
    ensures "a.ldr" in MpdFiles && MpdFiles["a.ldr"].file == FileA
    ensures "b.ldr" in MpdFiles && MpdFiles["b.ldr"].file == FileB
    ensures "c.ldr" in MpdFiles && MpdFiles["c.ldr"].file == FileC
  {
    assert "a.ldr" != "b.ldr" && "a.ldr" != "c.ldr" && "b.ldr" != "c.ldr" by {
      assert "a.ldr"[0] != "b.ldr"[0] && "a.ldr"[0] != "c.ldr"[0] && "b.ldr"[0] != "c.ldr"[0];
    }
  }

  /** The test's document and settings meet the hypothesis of MpdFaces. */
  lemma MpdDocument()
    ensures MpdEnv(FixtureEnv(MpdFiles), "a.ldr", "b.ldr", "c.ldr")
  {
    var env := FixtureEnv(MpdFiles);
    MpdPlain();
    MpdStored();
    NormalizePlain("a.ldr");
    NormalizePlain("b.ldr");
    NormalizePlain("c.ldr");
    Stored(env, "a.ldr", FileA);
    Stored(env, "b.ldr", FileB);
    Stored(env, "c.ldr", FileC);
  }
}

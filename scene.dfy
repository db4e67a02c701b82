/**
 * The scene builder of lib.rs: which files become geometry, the node tree
 * of `load_node`, the per-(name, colour) instance lists of
 * `load_node_instanced`, the geometry descriptors both of them register,
 * and the folders the disk resolver searches.
 *
 * The source recurses without bound (a cyclic document overflows its
 * stack); both walks here carry a `depth` fuel and load no children once
 * it is spent.
 */
module Scene {
  import opened Wrappers
  import opened Text
  import opened Linalg
  import LDraw
  import Documents
  import opened Settings

  // ---------------------------------------------------------------------
  // Classification
  // ---------------------------------------------------------------------

  /** `is_part`: the lowercased file name ends with ".dat"; the contents play no part. */
  function IsPart(filename: string): (r: bool)
    ensures r <==> |filename| >= 4 && forall k :: 0 <= k < 4 ==> ToAsciiLower(filename[|filename| - 4 + k]) == ".dat"[k]
  {
    var lower := ToLower(filename);
    if |lower| < 4 then false
    else
      var tail := lower[|lower| - 4..];
      assert forall k :: 0 <= k < 4 ==> tail[k] == lower[|lower| - 4 + k];
      EndsWith(lower, ".dat")
  }

  /** Some command of the list draws a face. */
  function HasFace(cmds: seq<LDraw.Command>): (r: bool)
    ensures r <==> exists k :: 0 <= k < |cmds| && (cmds[k].Triangle? || cmds[k].Quad?)
  {
    if cmds == [] then false
    else
      var last := cmds[|cmds| - 1];
      assert forall k :: 0 <= k < |cmds| - 1 ==> cmds[..|cmds| - 1][k] == cmds[k];
      HasFace(cmds[..|cmds| - 1]) || last.Triangle? || last.Quad?
  }

  /** `has_geometry`: the file draws a triangle or a quadrilateral itself. */
  function HasGeometry(file: LDraw.SourceFile): (r: bool)
    ensures r <==> exists k :: 0 <= k < |file.cmds| && (file.cmds[k].Triangle? || file.cmds[k].Quad?)
  {
    HasFace(file.cmds)
  }

  /**
   * `scaled_transform`: only the translation is multiplied by the scale,
   * so scales do not accumulate down the node tree.
   */
  function ScaledTransform(m: Mat4, scale: real): (r: Mat4)
    ensures r.row0 == m.row0 && r.row1 == m.row1 && r.row2 == m.row2
  {
    m.(translation := Vec3(m.translation.x * scale, m.translation.y * scale, m.translation.z * scale))
  }

  /** The origin is carried to the scaled image of where `m` carries it. */
  lemma ScaledOrigin(m: Mat4, scale: real)
    ensures var o := TransformPoint(m, Vec3(0.0, 0.0, 0.0));
            TransformPoint(ScaledTransform(m, scale), Vec3(0.0, 0.0, 0.0)) == Vec3(o.x * scale, o.y * scale, o.z * scale)
  {
    var z := Vec3(0.0, 0.0, 0.0);
    assert Dot(m.row0, z) == 0.0 && Dot(m.row1, z) == 0.0 && Dot(m.row2, z) == 0.0;
  }

  /** Scaling twice is scaling once by the product, and a unit scale changes nothing. */
  lemma ScaledTwice(m: Mat4, a: real, b: real)
    ensures ScaledTransform(ScaledTransform(m, a), b) == ScaledTransform(m, a * b)
    ensures ScaledTransform(m, 1.0) == m
  {
    assert m.translation.x * a * b == m.translation.x * (a * b);
    assert m.translation.y * a * b == m.translation.y * (a * b);
    assert m.translation.z * a * b == m.translation.z * (a * b);
  }

  // ---------------------------------------------------------------------
  // Geometry descriptors
  // ---------------------------------------------------------------------

  /** `GeometryInitDescriptor`: the file to build, its colour, and whether sub-files are followed. */
  datatype Descriptor = Descriptor(sourceFile: LDraw.SourceFile, currentColor: ColorCode, recursive: bool)

  /** `entry(name).or_insert_with(..)`: a key already present keeps its first descriptor. */
  function Register(d: map<string, Descriptor>, name: string, desc: Descriptor): (r: map<string, Descriptor>)
    ensures r.Keys == d.Keys + {name}
    ensures forall k :: k in d ==> r[k] == d[k]
    ensures name !in d ==> r[name] == desc
  {
    if name in d then d else d[name := desc]
  }

  /** Every descriptor of `d` is still there, unchanged, in `r`. */
  predicate KeepsEntries(d: map<string, Descriptor>, r: map<string, Descriptor>) {
    forall k :: k in d ==> k in r && r[k] == d[k]
  }

  /** Every descriptor `r` adds to `d` is the part form: colour 16, sub-files followed. */
  predicate AddsParts(d: map<string, Descriptor>, r: map<string, Descriptor>) {
    forall k :: k in r && k !in d ==> r[k].currentColor == CurrentColor && r[k].recursive
  }

  /** The map of descriptors `load_node` and `load_node_instanced` fill. */
  class DescriptorMap {
    var entries: map<string, Descriptor>

    constructor()
      ensures entries == map[]
    {
      entries := map[];
    }

    /** `entry(name).or_insert_with(|| desc)`. */
    method Insert(name: string, desc: Descriptor)
      modifies this
      ensures entries == Register(old(entries), name, desc)
    {
      if name !in entries {
        entries := entries[name := desc];
      }
    }
  }

  // ---------------------------------------------------------------------
  // The node tree (`load_node`)
  // ---------------------------------------------------------------------

  /** `LDrawNode`. */
  datatype Node = Node(name: string, transform: Mat4, geometryName: Option<string>, currentColor: ColorCode,
                       children: seq<Node>)

  /** A file drawn as one geometry: a part, or a file with inline faces. */
  predicate IsGeometryNode(file: LDraw.SourceFile, name: string) {
    IsPart(name) || HasGeometry(file)
  }

  /**
   * What `load_node` returns and leaves in the descriptors, for a file
   * reached under `name` with the given transform and colour.
   */
  function NodeOf(file: LDraw.SourceFile, name: string, transform: Mat4, files: map<string, Documents.Entry>,
                  d: map<string, Descriptor>, color: ColorCode, scale: real, depth: nat): (r: (Node, map<string, Descriptor>))
    ensures KeepsEntries(d, r.1) && AddsParts(d, r.1)
    decreases depth, 1
  {
    var lower := ToLower(name);
    if IsGeometryNode(file, name) then
      (Node(name, ScaledTransform(transform, scale), Some(lower), color, []),
       Register(d, lower, Descriptor(file, CurrentColor, true)))
    else
      var (children, d') := ChildrenOf(file.cmds, files, d, color, scale, depth);
      (Node(name, ScaledTransform(transform, scale), None, color, children), d')
  }

  /** The children `load_node`'s loop collects from a list of commands, and the descriptors after it. */
  function ChildrenOf(cmds: seq<LDraw.Command>, files: map<string, Documents.Entry>, d: map<string, Descriptor>,
                      color: ColorCode, scale: real, depth: nat): (r: (seq<Node>, map<string, Descriptor>))
    ensures KeepsEntries(d, r.1) && AddsParts(d, r.1)
    decreases depth, 0, |cmds|
  {
    if cmds == [] then ([], d)
    else
      var (nodes, d1) := ChildrenOf(cmds[..|cmds| - 1], files, d, color, scale, depth);
      var cmd := cmds[|cmds| - 1];
      if cmd.SubFileRef? && depth > 0 && Documents.Find(files, cmd.file).Some? then
        var (child, d2) := NodeOf(Documents.Find(files, cmd.file).value.file, cmd.file, LDraw.ToMatrix(cmd.transform),
                                  files, d1, ReplaceColor(cmd.color, color), scale, depth - 1);
        (nodes + [child], d2)
      else
        (nodes, d1)
  }

  /** The sub-file references of a command list whose file is in the map, in order. */
  function ResolvedRefs(cmds: seq<LDraw.Command>, files: map<string, Documents.Entry>): (r: seq<LDraw.Command>)
    ensures forall j :: 0 <= j < |r| ==> r[j].SubFileRef? && Documents.Find(files, r[j].file).Some? && r[j] in cmds
  {
    if cmds == [] then []
    else
      var cmd := cmds[|cmds| - 1];
      var rest := ResolvedRefs(cmds[..|cmds| - 1], files);
      if cmd.SubFileRef? && Documents.Find(files, cmd.file).Some? then rest + [cmd] else rest
  }

  /**
   * A file drawn as one geometry becomes a leaf named by its lowercased
   * name, registered as a part; any other file becomes a node without
   * geometry.
   */
  lemma NodeShape(file: LDraw.SourceFile, name: string, transform: Mat4, files: map<string, Documents.Entry>,
                  d: map<string, Descriptor>, color: ColorCode, scale: real, depth: nat)
    ensures var (node, r) := NodeOf(file, name, transform, files, d, color, scale, depth);
            && node.name == name && node.currentColor == color && node.transform == ScaledTransform(transform, scale)
            && (node.geometryName.Some? <==> IsGeometryNode(file, name))
            && (IsGeometryNode(file, name) ==>
                  && node.geometryName == Some(ToLower(name)) && node.children == []
                  && ToLower(name) in r
                  && (ToLower(name) !in d ==> r[ToLower(name)] == Descriptor(file, CurrentColor, true)))
  {
  }

  /**
   * `load_node`'s loop: one child per sub-file reference that resolves, in
   * command order, named by the reference, coloured by `replace_color` and
   * placed by the reference's own transform (not the parent's).
   */
  lemma {:induction false} ChildrenFollowRefs(cmds: seq<LDraw.Command>, files: map<string, Documents.Entry>,
                                             d: map<string, Descriptor>, color: ColorCode, scale: real, depth: nat)
    requires depth > 0
    ensures var nodes := ChildrenOf(cmds, files, d, color, scale, depth).0;
            var refs := ResolvedRefs(cmds, files);
            && |nodes| == |refs|
            && forall j :: 0 <= j < |nodes| ==>
                 && nodes[j].name == refs[j].file
                 && nodes[j].currentColor == ReplaceColor(refs[j].color, color)
                 && nodes[j].transform == ScaledTransform(LDraw.ToMatrix(refs[j].transform), scale)
  {
    if cmds != [] {
      ChildrenFollowRefs(cmds[..|cmds| - 1], files, d, color, scale, depth);
      var cmd := cmds[|cmds| - 1];
      var (nodes1, d1) := ChildrenOf(cmds[..|cmds| - 1], files, d, color, scale, depth);
      if cmd.SubFileRef? && Documents.Find(files, cmd.file).Some? {
        NodeShape(Documents.Find(files, cmd.file).value.file, cmd.file, LDraw.ToMatrix(cmd.transform), files, d1,
                  ReplaceColor(cmd.color, color), scale, depth - 1);
      }
    }
  }

  /** With the fuel spent, no sub-file is loaded. */
  lemma {:induction false} NoFuelNoChildren(cmds: seq<LDraw.Command>, files: map<string, Documents.Entry>,
                                           d: map<string, Descriptor>, color: ColorCode, scale: real)
    ensures ChildrenOf(cmds, files, d, color, scale, 0) == ([], d)
  {
    if cmds != [] {
      NoFuelNoChildren(cmds[..|cmds| - 1], files, d, color, scale);
    }
  }

  /**
   * `load_node`: a part or a file with faces of its own becomes a leaf
   * with a part descriptor; any other file gets one child per resolved
   * sub-file reference. The transform of the node is scaled in its
   * translation only.
   */
  method LoadNode(file: LDraw.SourceFile, name: string, transform: Mat4, files: map<string, Documents.Entry>,
                  descs: DescriptorMap, color: ColorCode, settings: GeometrySettings, depth: nat)
    returns (node: Node)
    modifies descs
    ensures (node, descs.entries) == NodeOf(file, name, transform, files, old(descs.entries), color, settings.sceneScale, depth)
    decreases depth
  {
    var children: seq<Node> := [];
    var geometryName: Option<string> := None;
    if IsPart(name) || HasGeometry(file) {
      descs.Insert(ToLower(name), Descriptor(file, CurrentColor, true));
      geometryName := Some(ToLower(name));
    } else {
      ghost var d0 := descs.entries;
      for i := 0 to |file.cmds|
        invariant (children, descs.entries) == ChildrenOf(file.cmds[..i], files, d0, color, settings.sceneScale, depth)
      {
        var cmd := file.cmds[i];
        assert file.cmds[..i + 1][..i] == file.cmds[..i];
        if cmd.SubFileRef? && depth > 0 {
          var subfile := Documents.Find(files, cmd.file);
          if subfile.Some? {
            var child := LoadNode(subfile.value.file, cmd.file, LDraw.ToMatrix(cmd.transform), files, descs,
                                  ReplaceColor(cmd.color, color), settings, depth - 1);
            children := children + [child];
          }
        }
      }
      assert file.cmds[..|file.cmds|] == file.cmds;
    }
    node := Node(name, ScaledTransform(transform, settings.sceneScale), geometryName, color, children);
  }

  // ---------------------------------------------------------------------
  // Instances (`load_node_instanced`)
  // ---------------------------------------------------------------------

  /** The key of an instance list: the lowercased geometry name and the colour it is drawn in. */
  type InstanceKey = (string, ColorCode)

  /** `entry(key).or_default().push(m)`. */
  function AddInstance(t: map<InstanceKey, seq<Mat4>>, key: InstanceKey, m: Mat4): (r: map<InstanceKey, seq<Mat4>>)
    ensures r.Keys == t.Keys + {key}
    ensures forall k :: k in t && k != key ==> r[k] == t[k]
    ensures r[key] == (if key in t then t[key] else []) + [m]
  {
    t[key := (if key in t then t[key] else []) + [m]]
  }

  /** Every list of `t` is a prefix of its list in `r`. */
  predicate ListsGrow(t: map<InstanceKey, seq<Mat4>>, r: map<InstanceKey, seq<Mat4>>) {
    forall k :: k in t ==> k in r && t[k] <= r[k]
  }

  /**
   * What `load_node_instanced` leaves in the descriptors and the instance
   * lists for a file reached under `name` with the given world transform
   * and colour.
   */
  function InstancedOf(file: LDraw.SourceFile, name: string, world: Mat4, files: map<string, Documents.Entry>,
                       d: map<string, Descriptor>, t: map<InstanceKey, seq<Mat4>>, color: ColorCode, scale: real,
                       depth: nat): (r: (map<string, Descriptor>, map<InstanceKey, seq<Mat4>>))
    ensures KeepsEntries(d, r.0) && ListsGrow(t, r.1)
    decreases depth, 1
  {
    var key := (ToLower(name), color);
    if IsPart(name) then
      (Register(d, key.0, Descriptor(file, CurrentColor, true)), AddInstance(t, key, ScaledTransform(world, scale)))
    else
      var (d1, t1) :=
        if HasGeometry(file) then
          (Register(d, key.0, Descriptor(file, color, false)), AddInstance(t, key, ScaledTransform(world, scale)))
        else (d, t);
      InstancedChildren(file.cmds, world, files, d1, t1, color, scale, depth)
  }

  /** `load_node_instanced`'s loop over a list of commands. */
  function InstancedChildren(cmds: seq<LDraw.Command>, world: Mat4, files: map<string, Documents.Entry>,
                             d: map<string, Descriptor>, t: map<InstanceKey, seq<Mat4>>, color: ColorCode, scale: real,
                             depth: nat): (r: (map<string, Descriptor>, map<InstanceKey, seq<Mat4>>))
    ensures KeepsEntries(d, r.0) && ListsGrow(t, r.1)
    decreases depth, 0, |cmds|
  {
    if cmds == [] then (d, t)
    else
      var (d1, t1) := InstancedChildren(cmds[..|cmds| - 1], world, files, d, t, color, scale, depth);
      var cmd := cmds[|cmds| - 1];
      if cmd.SubFileRef? && depth > 0 && Documents.Find(files, cmd.file).Some? then
        InstancedOf(Documents.Find(files, cmd.file).value.file, cmd.file, Mul(world, LDraw.ToMatrix(cmd.transform)),
                    files, d1, t1, ReplaceColor(cmd.color, color), scale, depth - 1)
      else
        (d1, t1)
  }

  /**
   * A part adds exactly one transform, under its lowercased name and
   * current colour, registers a part descriptor and loads nothing below it.
   */
  lemma PartInstance(file: LDraw.SourceFile, name: string, world: Mat4, files: map<string, Documents.Entry>,
                     d: map<string, Descriptor>, t: map<InstanceKey, seq<Mat4>>, color: ColorCode, scale: real, depth: nat)
    requires IsPart(name)
    ensures var (r0, r1) := InstancedOf(file, name, world, files, d, t, color, scale, depth);
            var key := (ToLower(name), color);
            && r1.Keys == t.Keys + {key}
            && (forall k :: k in t && k != key ==> r1[k] == t[k])
            && r1[key] == (if key in t then t[key] else []) + [ScaledTransform(world, scale)]
            && r0.Keys == d.Keys + {key.0} && AddsParts(d, r0)
  {
  }

  /**
   * A file that is not a part but has faces of its own adds its transform
   * first, under its current colour, and registers a descriptor with that
   * colour that does not follow sub-files; its references are then loaded.
   */
  lemma {:induction false} GeometryFileInstance(file: LDraw.SourceFile, name: string, world: Mat4,
                                               files: map<string, Documents.Entry>, d: map<string, Descriptor>,
                                               t: map<InstanceKey, seq<Mat4>>, color: ColorCode, scale: real, depth: nat)
    requires !IsPart(name) && HasGeometry(file)
    ensures var (r0, r1) := InstancedOf(file, name, world, files, d, t, color, scale, depth);
            var key := (ToLower(name), color);
            && key in r1 && (if key in t then t[key] else []) + [ScaledTransform(world, scale)] <= r1[key]
            && key.0 in r0 && (key.0 !in d ==> r0[key.0] == Descriptor(file, color, false))
  {
    var key := (ToLower(name), color);
    var d1 := Register(d, key.0, Descriptor(file, color, false));
    var t1 := AddInstance(t, key, ScaledTransform(world, scale));
    var r := InstancedChildren(file.cmds, world, files, d1, t1, color, scale, depth);
    assert InstancedOf(file, name, world, files, d, t, color, scale, depth) == r;
    assert KeepsEntries(d1, r.0) && ListsGrow(t1, r.1);
  }

  /** A file that is neither a part nor has faces adds nothing itself: all it adds comes from its references. */
  lemma AssemblyAddsNothingItself(file: LDraw.SourceFile, name: string, world: Mat4, files: map<string, Documents.Entry>,
                                  d: map<string, Descriptor>, t: map<InstanceKey, seq<Mat4>>, color: ColorCode, scale: real)
    requires !IsPart(name) && !HasGeometry(file)
    ensures InstancedOf(file, name, world, files, d, t, color, scale, 0) == (d, t)
  {
    NoFuelNoInstances(file.cmds, world, files, d, t, color, scale);
  }

  /** With the fuel spent, the loop loads no sub-file. */
  lemma {:induction false} NoFuelNoInstances(cmds: seq<LDraw.Command>, world: Mat4, files: map<string, Documents.Entry>,
                                            d: map<string, Descriptor>, t: map<InstanceKey, seq<Mat4>>, color: ColorCode,
                                            scale: real)
    ensures InstancedChildren(cmds, world, files, d, t, color, scale, 0) == (d, t)
  {
    if cmds != [] {
      NoFuelNoInstances(cmds[..|cmds| - 1], world, files, d, t, color, scale);
    }
  }

  /** The instance lists `load_node_instanced` fills. */
  class InstanceMap {
    var transforms: map<InstanceKey, seq<Mat4>>

    constructor()
      ensures transforms == map[]
    {
      transforms := map[];
    }

    /** `entry(key).or_default().push(m)`. */
    method Push(key: InstanceKey, m: Mat4)
      modifies this
      ensures transforms == AddInstance(old(transforms), key, m)
    {
      var list := if key in transforms then transforms[key] else [];
      transforms := transforms[key := list + [m]];
    }
  }

  /**
   * `load_node_instanced`: a part or a file with faces adds its scaled
   * world transform under (lowercased name, colour); every file that is
   * not a part is followed into its resolved references, whose world
   * transforms accumulate.
   */
  method LoadNodeInstanced(file: LDraw.SourceFile, name: string, world: Mat4, files: map<string, Documents.Entry>,
                           descs: DescriptorMap, instances: InstanceMap, color: ColorCode, settings: GeometrySettings,
                           depth: nat)
    modifies descs, instances
    ensures (descs.entries, instances.transforms)
            == InstancedOf(file, name, world, files, old(descs.entries), old(instances.transforms), color,
                           settings.sceneScale, depth)
    decreases depth
  {
    var isPart := IsPart(name);
    if isPart {
      descs.Insert(ToLower(name), Descriptor(file, CurrentColor, true));
      instances.Push((ToLower(name), color), ScaledTransform(world, settings.sceneScale));
    } else if HasGeometry(file) {
      descs.Insert(ToLower(name), Descriptor(file, color, false));
      instances.Push((ToLower(name), color), ScaledTransform(world, settings.sceneScale));
    }
    if !isPart {
      ghost var d1 := descs.entries;
      ghost var t1 := instances.transforms;
      for i := 0 to |file.cmds|
        invariant (descs.entries, instances.transforms)
                  == InstancedChildren(file.cmds[..i], world, files, d1, t1, color, settings.sceneScale, depth)
      {
        var cmd := file.cmds[i];
        assert file.cmds[..i + 1][..i] == file.cmds[..i];
        if cmd.SubFileRef? && depth > 0 {
          var subfile := Documents.Find(files, cmd.file);
          if subfile.Some? {
            LoadNodeInstanced(subfile.value.file, cmd.file, Mul(world, LDraw.ToMatrix(cmd.transform)), files, descs,
                              instances, ReplaceColor(cmd.color, color), settings, depth - 1);
          }
        }
      }
      assert file.cmds[..|file.cmds|] == file.cmds;
    }
  }

  // ---------------------------------------------------------------------
  // Search paths (`DiskResolver`, `parse_file`)
  // ---------------------------------------------------------------------

  /**
   * `Path::join` on '/'-separated text: an absolute second path replaces
   * the first, an empty first path is dropped, and one separator is put
   * between the two.
   */
  function Join(a: string, b: string): (r: string)
    ensures !StartsWith(b, "/") && a != "" && !EndsWith(a, "/") ==> r == a + "/" + b
  {
    if StartsWith(b, "/") || a == "" then b
    else if EndsWith(a, "/") then a + b
    else a + "/" + b
  }

  /** The index of the last '/' of `s`, if any. */
  function LastSlash(s: string): (r: Option<nat>)
    ensures r.Some? ==> r.value < |s| && s[r.value] == '/' && forall k :: r.value < k < |s| ==> s[k] != '/'
    ensures r.None? ==> forall k :: 0 <= k < |s| ==> s[k] != '/'
  {
    if s == [] then None
    else if s[|s| - 1] == '/' then Some(|s| - 1)
    else
      assert forall k :: 0 <= k < |s| - 1 ==> s[..|s| - 1][k] == s[k];
      LastSlash(s[..|s| - 1])
  }

  /**
   * `Path::parent`: nothing for the empty path and the root, the empty
   * path for a bare file name, the root for a file directly under it, and
   * the text before the last separator otherwise.
   */
  function Parent(path: string): (r: Option<string>)
    ensures r.Some? <==> path != "" && path != "/"
    ensures r.Some? ==> r.value <= path
  {
    if path == "" || path == "/" then None
    else match LastSlash(path)
      case None => Some("")
      case Some(i) => if i == 0 then Some("/") else Some(path[..i])
  }

  /** The six library folders, in their order of priority. */
  function LibraryFolders(catalog: string): (r: seq<string>) {
    [Join(catalog, "p"), Join(catalog, "parts"), Join(Join(catalog, "parts"), "s"),
     Join(Join(catalog, "UnOfficial"), "p"), Join(Join(catalog, "UnOfficial"), "parts"),
     Join(Join(Join(catalog, "UnOfficial"), "parts"), "s")]
  }

  /** The primitive folder the resolution selects, if any. */
  function PrimitiveFolder(catalog: string, resolution: PrimitiveResolution): (r: seq<string>) {
    match resolution
    case Low => [Join(Join(catalog, "p"), "8")]
    case NormalResolution => []
    case High => [Join(Join(catalog, "p"), "48")]
  }

  /**
   * `DiskResolver::new_from_library`: the primitive folder of the
   * resolution first, then the six library folders, then the additional
   * paths in the order given.
   */
  method NewFromLibrary(catalog: string, additional: seq<string>, resolution: PrimitiveResolution)
    returns (basePaths: seq<string>)
    ensures basePaths == PrimitiveFolder(catalog, resolution) + LibraryFolders(catalog) + additional
  {
    basePaths := LibraryFolders(catalog);
    match resolution {
      case Low => basePaths := [Join(Join(catalog, "p"), "8")] + basePaths;
      case NormalResolution =>
      case High => basePaths := [Join(Join(catalog, "p"), "48")] + basePaths;
    }
    basePaths := Extend(basePaths, additional);
  }

  /** `Vec::extend`: the items appended one by one, in order. */
  method Extend(front: seq<string>, items: seq<string>) returns (r: seq<string>)
    ensures r == front + items
  {
    r := front;
    for k := 0 to |items|
      invariant r == front + items[..k]
    {
      r := r + [items[k]];
      assert items[..k + 1] == items[..k] + [items[k]];
    }
    assert items[..|items|] == items;
  }

  /** `parse_file`'s resolver: the folder of the model itself is searched before all others. */
  method SearchPaths(path: string, catalog: string, additional: seq<string>, resolution: PrimitiveResolution)
    returns (basePaths: seq<string>)
    ensures var library := PrimitiveFolder(catalog, resolution) + LibraryFolders(catalog) + additional;
            basePaths == (if Parent(path).Some? then [Parent(path).value] + library else library)
  {
    basePaths := NewFromLibrary(catalog, additional, resolution);
    var parent := Parent(path);
    if parent.Some? {
      basePaths := [parent.value] + basePaths;
    }
  }

  /** The first folder under which the disk holds the file. */
  function FirstHit(disk: map<string, seq<Byte>>, basePaths: seq<string>, filename: string): (r: Option<nat>)
    ensures r.Some? <==> exists i :: 0 <= i < |basePaths| && Join(basePaths[i], filename) in disk
    ensures r.Some? ==> r.value < |basePaths| && Join(basePaths[r.value], filename) in disk
    ensures r.Some? ==> forall j :: 0 <= j < r.value ==> Join(basePaths[j], filename) !in disk
  {
    if basePaths == [] then None
    else if Join(basePaths[0], filename) in disk then Some(0)
    else
      var rest := FirstHit(disk, basePaths[1..], filename);
      assert forall i :: 1 <= i < |basePaths| ==> basePaths[1..][i - 1] == basePaths[i];
      if rest.Some? then Some(rest.value + 1) else None
  }

  /**
   * `DiskResolver::resolve`: the bytes under the first folder that holds
   * the file, or no bytes when none does.
   */
  function DiskResolve(disk: map<string, seq<Byte>>, basePaths: seq<string>, filename: string): (r: seq<Byte>)
    ensures (forall i :: 0 <= i < |basePaths| ==> Join(basePaths[i], filename) !in disk) ==> r == []
  {
    match FirstHit(disk, basePaths, filename)
    case Some(i) => disk[Join(basePaths[i], filename)]
    case None => []
  }

  /** A file next to the model is found there, whatever the library holds. */
  lemma ModelFolderWins(disk: map<string, seq<Byte>>, path: string, catalog: string, additional: seq<string>,
                        resolution: PrimitiveResolution, filename: string)
    requires Parent(path).Some? && Join(Parent(path).value, filename) in disk
    ensures var library := PrimitiveFolder(catalog, resolution) + LibraryFolders(catalog) + additional;
            DiskResolve(disk, [Parent(path).value] + library, filename) == disk[Join(Parent(path).value, filename)]
  {
    var library := PrimitiveFolder(catalog, resolution) + LibraryFolders(catalog) + additional;
    assert ([Parent(path).value] + library)[0] == Parent(path).value;
  }

  /**
   * A file not next to the model and not among the primitives of the
   * resolution is taken from the earliest library folder that holds it,
   * before any additional path.
   */
  lemma LibraryBeforeAdditional(disk: map<string, seq<Byte>>, catalog: string, additional: seq<string>,
                                resolution: PrimitiveResolution, filename: string, k: nat)
    requires k < 6 && Join(LibraryFolders(catalog)[k], filename) in disk
    requires forall j :: 0 <= j < k ==> Join(LibraryFolders(catalog)[j], filename) !in disk
    requires forall p :: p in PrimitiveFolder(catalog, resolution) ==> Join(p, filename) !in disk
    ensures DiskResolve(disk, PrimitiveFolder(catalog, resolution) + LibraryFolders(catalog) + additional, filename)
            == disk[Join(LibraryFolders(catalog)[k], filename)]
  {
    var prim := PrimitiveFolder(catalog, resolution);
    forall j | 0 <= j < |prim| ensures Join(prim[j], filename) !in disk {
      assert prim[j] in prim;
    }
    MiddleHit(disk, prim, LibraryFolders(catalog), additional, filename, k);
  }

  /** Folders searched in three stretches: the first hit of the middle one wins when the first stretch has none. */
  lemma MiddleHit(disk: map<string, seq<Byte>>, front: seq<string>, middle: seq<string>, back: seq<string>,
                  filename: string, k: nat)
    requires k < |middle| && Join(middle[k], filename) in disk
    requires forall j :: 0 <= j < k ==> Join(middle[j], filename) !in disk
    requires forall j :: 0 <= j < |front| ==> Join(front[j], filename) !in disk
    ensures DiskResolve(disk, front + middle + back, filename) == disk[Join(middle[k], filename)]
  {
    var bases := front + middle + back;
    assert bases[|front| + k] == middle[k];
    forall j | 0 <= j < |front| + k
      ensures Join(bases[j], filename) !in disk
    {
      if j < |front| {
        assert bases[j] == front[j];
      } else {
        assert bases[j] == middle[j - |front|];
      }
    }
    assert Join(bases[|front| + k], filename) in disk;
  }
}

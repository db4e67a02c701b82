/**
 * Edge splitting (edge_split.rs): the vertices on marked edges are
 * duplicated per face, duplicated edges that were not meant to be split are
 * merged back, and unused vertices are dropped. A mesh is a vertex buffer,
 * an index buffer and one run (start, size) of the index buffer per face.
 * `BTreeSet<u32>` is `set<nat>` visited in ascending order.
 */
module EdgeSplit {
  import opened Wrappers

  /** `UndirectedEdge`: the two end points of an edge, the smaller first. */
  datatype Edge = Edge(lo: nat, hi: nat)

  /** `UndirectedEdge::new`. */
  function NewEdge(v0: nat, v1: nat): (e: Edge)
    ensures e.lo <= e.hi
    ensures multiset{e.lo, e.hi} == multiset{v0, v1}
  {
    if v0 <= v1 then Edge(v0, v1) else Edge(v1, v0)
  }

  /** Both directions of an edge give the same edge. */
  lemma NewEdgeUndirected(v0: nat, v1: nat)
    ensures NewEdge(v0, v1) == NewEdge(v1, v0)
  {
  }

  /** The lexicographic order of `[u32; 2]`, in which a `BTreeSet<UndirectedEdge>` is visited. */
  predicate EdgeBefore(a: Edge, b: Edge) {
    a.lo < b.lo || (a.lo == b.lo && a.hi <= b.hi)
  }

  // ---------------------------------------------------------------------
  // Sets visited in ascending order

  /** A set of naturals that holds `y` has a least element. */
  lemma {:induction false} MinExists(s: set<nat>, y: nat)
    requires y in s
    ensures exists m :: m in s && forall x :: x in s ==> m <= x
    decreases y
  {
    if exists z :: z in s && z < y {
      var z :| z in s && z < y;
      MinExists(s, z);
    }
  }

  /** A set of edges that holds `y` has a first edge in the lexicographic order. */
  lemma {:induction false} FirstEdgeExists(s: set<Edge>, y: Edge)
    requires y in s
    ensures exists m :: m in s && forall x :: x in s ==> EdgeBefore(m, x)
    decreases y.lo, y.hi
  {
    if exists z :: z in s && !EdgeBefore(y, z) {
      var z :| z in s && !EdgeBefore(y, z);
      FirstEdgeExists(s, z);
    }
  }

  /** The least element of a set (0 for the empty set). */
  ghost function SetMin(s: set<nat>): (m: nat)
    ensures s != {} ==> m in s && forall x :: x in s ==> m <= x
  {
    if s == {} then 0
    else
      var y :| y in s;
      MinExists(s, y);
      var m :| m in s && forall x :: x in s ==> m <= x;
      m
  }

  /** The first two elements of a set in ascending order, if it has two (`iter().next()` twice). */
  ghost function FirstTwo(s: set<nat>): (r: Option<(nat, nat)>)
    ensures r.Some? <==> |s| >= 2
    ensures r.Some? ==> r.value.0 == SetMin(s) && r.value.1 == SetMin(s - {SetMin(s)}) && r.value.0 < r.value.1
    ensures r.Some? ==> r.value.0 in s && r.value.1 in s
  {
    if s == {} then None
    else
      var f0 := SetMin(s);
      if s - {f0} == {} then
        assert s == {f0};
        None
      else
        assert |s - {f0}| == |s| - 1;
        Some((f0, SetMin(s - {f0})))
  }

  /** The next element an ascending walk over a non-empty set visits: its least one. */
  method Least(s: set<nat>) returns (m: nat)
    requires s != {}
    ensures m in s && forall x :: x in s ==> m <= x
    ensures m == SetMin(s)
  {
    var some :| some in s;
    MinExists(s, some);
    m :| m in s && forall x :: x in s ==> m <= x;
  }

  /** The first two elements of `s` in ascending order, if it has two. */
  method FirstTwoOf(s: set<nat>) returns (r: Option<(nat, nat)>)
    ensures r == FirstTwo(s)
  {
    if |s| < 2 {
      return None;
    }
    var f0 := Least(s);
    var others := s - {f0};
    assert |others| == |s| - 1;
    var f1 := Least(others);
    return Some((f0, f1));
  }

  // ---------------------------------------------------------------------
  // Mesh layout

  /** The sum of the face sizes. */
  function Total(sizes: seq<nat>): nat {
    if sizes == [] then 0 else Total(sizes[..|sizes| - 1]) + sizes[|sizes| - 1]
  }

  /** Every face's run lies inside an index buffer of length `n`. */
  predicate RunsInBounds(starts: seq<nat>, sizes: seq<nat>, n: nat) {
    |starts| == |sizes| && forall f :: 0 <= f < |starts| ==> starts[f] + sizes[f] <= n
  }

  /**
   * The layout `add_face` produces: the runs lie back to back, each face
   * starting where the earlier faces end, and together they cover the
   * index buffer.
   */
  predicate Contiguous(starts: seq<nat>, sizes: seq<nat>, n: nat) {
    && |starts| == |sizes|
    && (forall f :: 0 <= f < |starts| ==> starts[f] == Total(sizes[..f]))
    && Total(sizes) == n
  }

  predicate IndicesBelow(indices: seq<nat>, n: nat) {
    forall i :: 0 <= i < |indices| ==> indices[i] < n
  }

  /** Slot `i` of the index buffer belongs to face `f`. */
  predicate InRun(starts: seq<nat>, sizes: seq<nat>, f: nat, i: nat)
    requires f < |starts| == |sizes|
  {
    starts[f] <= i < starts[f] + sizes[f]
  }

  lemma {:induction false} TotalGrows(sizes: seq<nat>, a: nat, b: nat)
    requires a <= b <= |sizes|
    ensures Total(sizes[..a]) <= Total(sizes[..b])
    decreases b - a
  {
    if a < b {
      TotalGrows(sizes, a, b - 1);
      assert sizes[..b][..b - 1] == sizes[..b - 1];
    }
  }

  lemma TotalStep(sizes: seq<nat>, f: nat)
    requires f < |sizes|
    ensures Total(sizes[..f]) + sizes[f] == Total(sizes[..f + 1])
  {
    assert sizes[..f + 1][..f] == sizes[..f];
  }

  /** In a contiguous layout the runs fit the buffer and do not overlap. */
  lemma ContiguousRuns(starts: seq<nat>, sizes: seq<nat>, n: nat)
    requires Contiguous(starts, sizes, n)
    ensures RunsInBounds(starts, sizes, n)
    ensures forall f, g :: 0 <= f < g < |starts| ==> starts[f] + sizes[f] <= starts[g]
  {
    forall f | 0 <= f < |starts| ensures starts[f] + sizes[f] <= n {
      TotalStep(sizes, f);
      TotalGrows(sizes, f + 1, |sizes|);
      assert sizes[..|sizes|] == sizes;
    }
    forall f, g | 0 <= f < g < |starts| ensures starts[f] + sizes[f] <= starts[g] {
      TotalStep(sizes, f);
      TotalGrows(sizes, f + 1, g);
    }
  }

  /** `face_indices`: the run of face `f`. */
  function FaceIndices(f: nat, indices: seq<nat>, starts: seq<nat>, sizes: seq<nat>): (r: seq<nat>)
    requires f < |starts| && RunsInBounds(starts, sizes, |indices|)
    ensures |r| == sizes[f]
    ensures forall k :: 0 <= k < |r| ==> r[k] == indices[starts[f] + k]
  {
    indices[starts[f]..starts[f] + sizes[f]]
  }

  /** Vertex `v` occurs in the run of face `f`. */
  predicate OnFace(v: nat, f: nat, indices: seq<nat>, starts: seq<nat>, sizes: seq<nat>)
    requires f < |starts| && RunsInBounds(starts, sizes, |indices|)
  {
    exists i :: starts[f] <= i < starts[f] + sizes[f] && indices[i] == v
  }

  /**
   * `find_incident_edges`: the edges from the first occurrence of `v` to
   * its predecessor and its successor around the face.
   */
  function FindIncidentEdges(face: seq<nat>, v: nat): (r: (Edge, Edge))
    requires v in face
  {
    var i := FirstPosition(face, v);
    var prev := if i > 0 then i - 1 else |face| - 1;
    // `(i + 1) % face.len()`
    var next := if i + 1 < |face| then i + 1 else 0;
    (NewEdge(face[i], face[prev]), NewEdge(face[i], face[next]))
  }

  /**
   * The edges `find_incident_edges` returns join the first occurrence of
   * `v` in the face to its predecessor and to its successor, wrapping
   * around the face.
   */
  lemma IncidentEdgesAt(face: seq<nat>, v: nat)
    requires v in face
    ensures var r := FindIncidentEdges(face, v);
            exists i :: 0 <= i < |face| && face[i] == v && v !in face[..i]
              && r.0 == NewEdge(v, face[if i > 0 then i - 1 else |face| - 1])
              && r.1 == NewEdge(v, face[if i + 1 < |face| then i + 1 else 0])
  {
    var r := FindIncidentEdges(face, v);
    var i := FirstPosition(face, v);
    assert 0 <= i < |face| && face[i] == v && v !in face[..i]
      && r.0 == NewEdge(v, face[if i > 0 then i - 1 else |face| - 1])
      && r.1 == NewEdge(v, face[if i + 1 < |face| then i + 1 else 0]);
  }

  /** `iter().position`: the first index holding `v`. */
  function FirstPosition(s: seq<nat>, v: nat): (i: nat)
    requires v in s
    ensures i < |s| && s[i] == v && v !in s[..i]
  {
    if s[0] == v then 0
    else
      assert v in s[1..] by {
        var k :| 0 <= k < |s| && s[k] == v;
        assert s[1..][k - 1] == v;
      }
      var j := FirstPosition(s[1..], v);
      assert s[..j + 1] == [s[0]] + s[1..][..j];
      j + 1
  }

  /** Any position holding `v` with no `v` before it is the one `FirstPosition` finds. */
  lemma FirstPositionUnique(s: seq<nat>, v: nat, i: nat)
    requires i < |s| && s[i] == v && v !in s[..i]
    ensures FirstPosition(s, v) == i
  {
  }

  // ---------------------------------------------------------------------
  // Adjacency

  /** `adj[v]` holds exactly the faces whose run contains `v`. */
  ghost predicate Adjacency(adj: seq<set<nat>>, indices: seq<nat>, starts: seq<nat>, sizes: seq<nat>)
    requires RunsInBounds(starts, sizes, |indices|)
  {
    && (forall v, f :: 0 <= v < |adj| && f in adj[v] ==> f < |starts|)
    && (forall v, f :: 0 <= v < |adj| && 0 <= f < |starts| ==> (f in adj[v] <==> OnFace(v, f, indices, starts, sizes)))
  }

  /** The faces below `upto` whose run contains `v`. */
  ghost function FacesBelow(v: nat, upto: nat, indices: seq<nat>, starts: seq<nat>, sizes: seq<nat>): set<nat>
    requires upto <= |starts| && RunsInBounds(starts, sizes, |indices|)
  {
    set f | 0 <= f < upto && OnFace(v, f, indices, starts, sizes)
  }

  /** `adjacent_faces`: for every vertex, the set of faces that use it. */
  method AdjacentFaces(numVertices: nat, indices: seq<nat>, starts: seq<nat>, sizes: seq<nat>)
    returns (adj: seq<set<nat>>)
    requires RunsInBounds(starts, sizes, |indices|) && IndicesBelow(indices, numVertices)
    ensures |adj| == numVertices
    ensures Adjacency(adj, indices, starts, sizes)
    ensures adj == AdjacencyOf(numVertices, indices, starts, sizes)
  {
    adj := seq(numVertices, _ => {});
    for f := 0 to |starts|
      invariant |adj| == numVertices
      invariant forall v :: 0 <= v < numVertices ==> adj[v] == FacesBelow(v, f, indices, starts, sizes)
    {
      for i := starts[f] to starts[f] + sizes[f]
        invariant |adj| == numVertices
        invariant forall v :: 0 <= v < numVertices ==>
          adj[v] == FacesBelow(v, f, indices, starts, sizes)
                    + (if exists j :: starts[f] <= j < i && indices[j] == v then {f} else {})
      {
        adj := adj[indices[i] := adj[indices[i]] + {f}];
      }
      forall v | 0 <= v < numVertices
        ensures adj[v] == FacesBelow(v, f + 1, indices, starts, sizes)
      {
        assert OnFace(v, f, indices, starts, sizes) <==> exists j :: starts[f] <= j < starts[f] + sizes[f] && indices[j] == v;
      }
    }
    forall v, g | 0 <= v < |adj| && g in adj[v] ensures g < |starts| {
    }
  }

  // ---------------------------------------------------------------------
  // Sharp edges

  /**
   * The edge between corners `j` and `j + 1` of face `f` is tested, and it
   * is sharp: its end points share at least two faces, and the first two of
   * them are at least the threshold angle apart (`sharp`, the normal test).
   */
  ghost predicate SharpAt(f: nat, j: nat, indices: seq<nat>, starts: seq<nat>, sizes: seq<nat>,
                          adj: seq<set<nat>>, sharp: (nat, nat) -> bool)
    requires f < |starts| && RunsInBounds(starts, sizes, |indices|) && IndicesBelow(indices, |adj|)
  {
    && j + 1 < sizes[f]
    && var common := FirstTwo(adj[indices[starts[f] + j]] * adj[indices[starts[f] + j + 1]]);
       common.Some? && sharp(common.value.0, common.value.1)
  }

  /** The sharp edges among the first `corners` corners of face `f`. */
  ghost function FaceSharpEdges(f: nat, corners: nat, indices: seq<nat>, starts: seq<nat>, sizes: seq<nat>,
                                adj: seq<set<nat>>, sharp: (nat, nat) -> bool): set<Edge>
    requires f < |starts| && RunsInBounds(starts, sizes, |indices|) && IndicesBelow(indices, |adj|)
    decreases corners
  {
    if corners == 0 then {}
    else FaceSharpEdges(f, corners - 1, indices, starts, sizes, adj, sharp)
         + (if SharpAt(f, corners - 1, indices, starts, sizes, adj, sharp)
            then {NewEdge(indices[starts[f] + corners - 1], indices[starts[f] + corners])} else {})
  }

  /**
   * The edges `add_sharp_edges` marks in the first `upto` faces. Only the
   * edges from corner j to corner j + 1 are tested, so the closing edge from
   * the last corner back to the first never is.
   */
  ghost function SharpEdges(upto: nat, indices: seq<nat>, starts: seq<nat>, sizes: seq<nat>,
                            adj: seq<set<nat>>, sharp: (nat, nat) -> bool): set<Edge>
    requires upto <= |starts| && RunsInBounds(starts, sizes, |indices|) && IndicesBelow(indices, |adj|)
  {
    if upto == 0 then {}
    else SharpEdges(upto - 1, indices, starts, sizes, adj, sharp)
         + FaceSharpEdges(upto - 1, sizes[upto - 1], indices, starts, sizes, adj, sharp)
  }

  lemma FaceSharpEdgesStep(f: nat, j: nat, indices: seq<nat>, starts: seq<nat>, sizes: seq<nat>,
                           adj: seq<set<nat>>, sharp: (nat, nat) -> bool)
    requires f < |starts| && RunsInBounds(starts, sizes, |indices|) && IndicesBelow(indices, |adj|)
    requires j + 1 < sizes[f]
    ensures FaceSharpEdges(f, j + 1, indices, starts, sizes, adj, sharp)
         == FaceSharpEdges(f, j, indices, starts, sizes, adj, sharp)
            + (if SharpAt(f, j, indices, starts, sizes, adj, sharp)
               then {NewEdge(indices[starts[f] + j], indices[starts[f] + j + 1])} else {})
  {
  }

  lemma FaceSharpEdgesAll(f: nat, j: nat, indices: seq<nat>, starts: seq<nat>, sizes: seq<nat>,
                          adj: seq<set<nat>>, sharp: (nat, nat) -> bool)
    requires f < |starts| && RunsInBounds(starts, sizes, |indices|) && IndicesBelow(indices, |adj|)
    requires j + 1 >= sizes[f] && j <= sizes[f]
    ensures FaceSharpEdges(f, j, indices, starts, sizes, adj, sharp)
         == FaceSharpEdges(f, sizes[f], indices, starts, sizes, adj, sharp)
  {
  }

  /** One step of `add_sharp_edges`: the edge from corner `j` to `j + 1` of face `f`, if it is sharp. */
  method SharpEdgeAt(f: nat, j: nat, face: seq<nat>, indices: seq<nat>, starts: seq<nat>, sizes: seq<nat>,
                     adj: seq<set<nat>>, sharp: (nat, nat) -> bool)
    returns (added: set<Edge>)
    requires f < |starts| && RunsInBounds(starts, sizes, |indices|) && IndicesBelow(indices, |adj|)
    requires j + 1 < sizes[f] && face == indices[starts[f]..starts[f] + sizes[f]]
    ensures added == if SharpAt(f, j, indices, starts, sizes, adj, sharp)
                     then {NewEdge(indices[starts[f] + j], indices[starts[f] + j + 1])} else {}
  {
    // `(j + 1) % face.len()` is `j + 1` here, as `j + 1 < face.len()`.
    var v0, v1 := face[j], face[j + 1];
    assert v0 == indices[starts[f] + j] && v1 == indices[starts[f] + j + 1];
    var common := FirstTwoOf(adj[v0] * adj[v1]);
    if common.Some? && sharp(common.value.0, common.value.1) {
      added := {NewEdge(v0, v1)};
    } else {
      added := {};
    }
  }

  lemma UnionAssoc(a: set<Edge>, b: set<Edge>, c: set<Edge>)
    ensures (a + b) + c == a + (b + c)
  {
  }

  /** The inner loop of `add_sharp_edges`: adds the sharp edges of face `f`, and nothing else. */
  method AddFaceSharpEdges(edges: set<Edge>, f: nat, indices: seq<nat>, starts: seq<nat>, sizes: seq<nat>,
                           adj: seq<set<nat>>, sharp: (nat, nat) -> bool)
    returns (marked: set<Edge>)
    requires f < |starts| && RunsInBounds(starts, sizes, |indices|) && IndicesBelow(indices, |adj|)
    ensures marked == edges + FaceSharpEdges(f, sizes[f], indices, starts, sizes, adj, sharp)
  {
    marked := edges;
    var face := FaceIndices(f, indices, starts, sizes);
    // `face.len().saturating_sub(1)`
    var last := if |face| >= 1 then |face| - 1 else 0;
    assert last + 1 >= sizes[f] && last <= sizes[f];
    for j := 0 to last
      invariant marked == edges + FaceSharpEdges(f, j, indices, starts, sizes, adj, sharp)
    {
      var added := SharpEdgeAt(f, j, face, indices, starts, sizes, adj, sharp);
      FaceSharpEdgesStep(f, j, indices, starts, sizes, adj, sharp);
      UnionAssoc(edges, FaceSharpEdges(f, j, indices, starts, sizes, adj, sharp), added);
      marked := marked + added;
    }
    FaceSharpEdgesAll(f, last, indices, starts, sizes, adj, sharp);
  }

  /** `add_sharp_edges`: adds the sharp edges of every face to the marked edges, and nothing else. */
  method AddSharpEdges(edges: set<Edge>, indices: seq<nat>, starts: seq<nat>, sizes: seq<nat>,
                       adj: seq<set<nat>>, sharp: (nat, nat) -> bool)
    returns (marked: set<Edge>)
    requires RunsInBounds(starts, sizes, |indices|) && IndicesBelow(indices, |adj|)
    ensures marked == edges + SharpEdges(|starts|, indices, starts, sizes, adj, sharp)
  {
    marked := edges;
    for f := 0 to |starts|
      invariant marked == edges + SharpEdges(f, indices, starts, sizes, adj, sharp)
    {
      marked := AddFaceSharpEdges(marked, f, indices, starts, sizes, adj, sharp);
    }
  }

  // ---------------------------------------------------------------------
  // Splitting vertices

  /** `adj` as `adjacent_faces` computes it: every vertex with the faces that use it. */
  ghost function AdjacencyOf(numVertices: nat, indices: seq<nat>, starts: seq<nat>, sizes: seq<nat>): seq<set<nat>>
    requires RunsInBounds(starts, sizes, |indices|)
  {
    seq(numVertices, (v: nat) => FacesBelow(v, |starts|, indices, starts, sizes))
  }

  /** Every slot at or above `n` is used by one slot only: the copies are fresh. */
  ghost predicate Fresh(si: seq<nat>, n: nat) {
    forall k, m :: 0 <= k < |si| && 0 <= m < |si| && k != m && si[k] >= n ==> si[k] != si[m]
  }

  /**
   * Slot `k` of face `f` has been given a copy of its vertex: its vertex
   * is among the processed ones (`done`, or `v` when `f` is among the
   * faces of `v` visited so far), and `f` is not the first face of that
   * vertex, which keeps the original.
   */
  ghost predicate Moved(k: nat, f: nat, indices: seq<nat>, adj: seq<set<nat>>, done: set<nat>, v: nat, facesDone: set<nat>)
    requires k < |indices| && IndicesBelow(indices, |adj|)
  {
    (indices[k] in done || (indices[k] == v && f in facesDone)) && f != SetMin(adj[indices[k]])
  }

  /**
   * The state `split_face_verts` keeps: the original vertices are a prefix
   * of `sv`, every slot still shows its original position, the slots that
   * moved are exactly the `Moved` ones, and they point at fresh copies.
   */
  ghost predicate SplitState<T>(vertices: seq<T>, indices: seq<nat>, starts: seq<nat>, sizes: seq<nat>, adj: seq<set<nat>>,
                                done: set<nat>, v: nat, facesDone: set<nat>, sv: seq<T>, si: seq<nat>)
    requires RunsInBounds(starts, sizes, |indices|) && |adj| == |vertices| && IndicesBelow(indices, |vertices|)
  {
    && |vertices| <= |sv| && sv[..|vertices|] == vertices && |si| == |indices|
    && (forall k :: 0 <= k < |si| ==> si[k] < |sv| && sv[si[k]] == vertices[indices[k]])
    && (forall k :: 0 <= k < |si| && si[k] != indices[k] ==> si[k] >= |vertices|)
    && Fresh(si, |vertices|)
    && (forall f: nat, k: nat :: f < |starts| && InRun(starts, sizes, f, k) && k < |indices| ==>
          (si[k] != indices[k] <==> Moved(k, f, indices, adj, done, v, facesDone)))
  }

  /**
   * The slot loop of `split_face_verts` from slot `k` up to `end`: each
   * slot still holding `v` is given the next new vertex, a copy of `v`.
   */
  function CopySlots<T>(sv: seq<T>, si: seq<nat>, v: nat, k: nat, end: nat): (r: (seq<T>, seq<nat>))
    requires v < |sv| && k <= end <= |si|
    ensures |sv| <= |r.0| && |r.1| == |si|
    decreases end - k
  {
    if k == end then (sv, si)
    else if si[k] == v then CopySlots(sv + [sv[v]], si[k := |sv|], v, k + 1, end)
    else CopySlots(sv, si, v, k + 1, end)
  }

  ghost predicate CopiedRun<T>(sv: seq<T>, si: seq<nat>, sv': seq<T>, si': seq<nat>, v: nat, k: nat, end: nat)
    requires v < |sv|
  {
    && |sv| <= |sv'| && sv'[..|sv|] == sv && |si'| == |si| && IndicesBelow(si', |sv'|)
    && (forall i :: 0 <= i < |si| && !(k <= i < end && si[i] == v) ==> si'[i] == si[i])
    && (forall i :: k <= i < end && i < |si| && si[i] == v ==> |sv| <= si'[i] && sv'[si'[i]] == sv[v])
    && (forall i, m :: 0 <= i < |si| && 0 <= m < |si| && i != m && si'[i] >= |sv| ==> si'[i] != si'[m])
  }

  lemma {:induction false} CopySlotsFacts<T>(sv: seq<T>, si: seq<nat>, v: nat, k: nat, end: nat)
    requires v < |sv| && k <= end <= |si| && IndicesBelow(si, |sv|)
    ensures var r := CopySlots(sv, si, v, k, end); CopiedRun(sv, si, r.0, r.1, v, k, end)
    decreases end - k
  {
    if k < end {
      if si[k] == v {
        var sv1, si1 := sv + [sv[v]], si[k := |sv|];
        CopySlotsFacts(sv1, si1, v, k + 1, end);
        var r := CopySlots(sv1, si1, v, k + 1, end);
        assert r.0[..|sv|] == r.0[..|sv1|][..|sv|];
        assert r.1[k] == |sv| && r.0[|sv|] == r.0[..|sv1|][|sv|];
      } else {
        CopySlotsFacts(sv, si, v, k + 1, end);
      }
    } else {
      assert sv[..|sv|] == sv;
    }
  }

  /** The copies are new vertices, so every index stays below the vertex count. */
  lemma CopySlotsBelow<T>(sv: seq<T>, si: seq<nat>, v: nat, k: nat, end: nat)
    requires v < |sv| && k <= end <= |si| && IndicesBelow(si, |sv|)
    ensures IndicesBelow(CopySlots(sv, si, v, k, end).1, |CopySlots(sv, si, v, k, end).0|)
  {
    CopySlotsFacts(sv, si, v, k, end);
  }

  /** The innermost loop of `split_face_verts`: every slot of the run holding `v` gets a fresh copy of it. */
  method CopyVertexInFace<T>(sv: seq<T>, si: seq<nat>, v: nat, start: nat, size: nat)
    returns (sv': seq<T>, si': seq<nat>)
    requires v < |sv| && start + size <= |si|
    ensures (sv', si') == CopySlots(sv, si, v, start, start + size)
  {
    sv', si' := sv, si;
    for k := start to start + size
      invariant v < |sv'| && |si'| == |si|
      invariant CopySlots(sv, si, v, start, start + size) == CopySlots(sv', si', v, k, start + size)
    {
      if si'[k] == v {
        si' := si'[k := |sv'|];
        sv' := sv' + [sv'[v]];
      }
    }
  }

  /** In a contiguous layout a slot lies in the run of one face only. */
  lemma OneFacePerSlot(starts: seq<nat>, sizes: seq<nat>, n: nat, f: nat, g: nat, k: nat)
    requires Contiguous(starts, sizes, n) && f < |starts| && g < |starts|
    requires InRun(starts, sizes, f, k) && InRun(starts, sizes, g, k)
    ensures f == g
  {
    ContiguousRuns(starts, sizes, n);
  }

  /** In a contiguous layout every slot below `Total(sizes[..upto])` lies in the run of a face below `upto`. */
  lemma {:induction false} SlotInRun(starts: seq<nat>, sizes: seq<nat>, n: nat, upto: nat, k: nat) returns (g: nat)
    requires Contiguous(starts, sizes, n) && upto <= |starts| && k < Total(sizes[..upto])
    ensures g < upto && InRun(starts, sizes, g, k)
    decreases upto
  {
    assert upto > 0;
    TotalStep(sizes, upto - 1);
    if k >= starts[upto - 1] {
      g := upto - 1;
    } else {
      g := SlotInRun(starts, sizes, n, upto - 1, k);
    }
  }

  /** In a contiguous layout every slot of the index buffer lies in the run of some face. */
  lemma SlotFace(starts: seq<nat>, sizes: seq<nat>, n: nat, k: nat) returns (g: nat)
    requires Contiguous(starts, sizes, n) && k < n
    ensures g < |starts| && InRun(starts, sizes, g, k)
  {
    assert sizes[..|starts|] == sizes;
    g := SlotInRun(starts, sizes, n, |starts|, k);
  }

  /** Copying `v` in face `f`, which is not its first face, moves exactly the slots of `v` in `f`. */
  lemma CopyKeepsState<T>(vertices: seq<T>, indices: seq<nat>, starts: seq<nat>, sizes: seq<nat>, adj: seq<set<nat>>,
                          done: set<nat>, v: nat, facesDone: set<nat>, f: nat,
                          sv: seq<T>, si: seq<nat>, sv': seq<T>, si': seq<nat>)
    requires Contiguous(starts, sizes, |indices|) && RunsInBounds(starts, sizes, |indices|)
    requires |adj| == |vertices| && IndicesBelow(indices, |vertices|)
    requires v < |vertices| && v !in done && f < |starts| && f !in facesDone && f != SetMin(adj[v])
    requires SplitState(vertices, indices, starts, sizes, adj, done, v, facesDone, sv, si)
    requires CopiedRun(sv, si, sv', si', v, starts[f], starts[f] + sizes[f])
    ensures SplitState(vertices, indices, starts, sizes, adj, done, v, facesDone + {f}, sv', si')
  {
    ContiguousRuns(starts, sizes, |indices|);
    var n := |vertices|;
    forall k | 0 <= k < |si'| ensures sv'[si'[k]] == vertices[indices[k]] {
      if si'[k] != si[k] {
        assert si[k] == indices[k];
        calc {
          sv'[si'[k]];
          sv[v];
          { assert sv[..n][v] == vertices[v]; }
          vertices[v];
        }
      } else {
        assert sv'[..|sv|][si[k]] == sv[si[k]];
      }
    }
    forall g: nat, k: nat | g < |starts| && InRun(starts, sizes, g, k) && k < |indices|
      ensures si'[k] != indices[k] <==> Moved(k, g, indices, adj, done, v, facesDone + {f})
    {
      if g == f && si[k] == v {
        assert si[k] == indices[k];
      }
    }
  }

  /** Every recorded edge joins two original vertices, the smaller first. */
  predicate EdgesBelow(dup: set<Edge>, n: nat) {
    forall e :: e in dup ==> e.lo <= e.hi < n
  }

  /** When all faces of `v` are visited, `v` joins the processed vertices. */
  lemma FinishVertex<T>(vertices: seq<T>, indices: seq<nat>, starts: seq<nat>, sizes: seq<nat>, adj: seq<set<nat>>,
                        done: set<nat>, v: nat, sv: seq<T>, si: seq<nat>)
    requires RunsInBounds(starts, sizes, |indices|) && |adj| == |vertices| && IndicesBelow(indices, |vertices|)
    requires Adjacency(adj, indices, starts, sizes) && v < |vertices|
    requires SplitState(vertices, indices, starts, sizes, adj, done, v, adj[v], sv, si)
    ensures SplitState(vertices, indices, starts, sizes, adj, done + {v}, 0, {}, sv, si)
  {
    forall g: nat, k: nat | g < |starts| && InRun(starts, sizes, g, k) && k < |indices| && indices[k] == v
      ensures g in adj[v]
    {
      assert OnFace(v, g, indices, starts, sizes);
    }
  }

  /** Visiting the first face of `v` moves nothing: that face keeps the original vertex. */
  lemma FirstFaceKeepsState<T>(vertices: seq<T>, indices: seq<nat>, starts: seq<nat>, sizes: seq<nat>, adj: seq<set<nat>>,
                               done: set<nat>, v: nat, facesDone: set<nat>, f: nat, sv: seq<T>, si: seq<nat>)
    requires RunsInBounds(starts, sizes, |indices|) && |adj| == |vertices| && IndicesBelow(indices, |vertices|)
    requires v < |vertices| && f == SetMin(adj[v])
    requires SplitState(vertices, indices, starts, sizes, adj, done, v, facesDone, sv, si)
    ensures SplitState(vertices, indices, starts, sizes, adj, done, v, facesDone + {f}, sv, si)
  {
    forall g: nat, k: nat | g < |starts| && InRun(starts, sizes, g, k) && k < |indices|
      ensures Moved(k, g, indices, adj, done, v, facesDone + {f}) == Moved(k, g, indices, adj, done, v, facesDone)
    {
    }
  }

  /** Records the two edges at `v` in the original run of face `f`. */
  method RecordIncidentEdges(dup: set<Edge>, f: nat, v: nat, indices: seq<nat>, starts: seq<nat>, sizes: seq<nat>)
    returns (dup': set<Edge>)
    requires RunsInBounds(starts, sizes, |indices|)
    requires f < |starts| && v in FaceIndices(f, indices, starts, sizes)
    ensures var pair := FindIncidentEdges(FaceIndices(f, indices, starts, sizes), v);
            dup' == dup + {pair.0, pair.1} && pair.0 in dup' && pair.1 in dup'
  {
    var original := FaceIndices(f, indices, starts, sizes);
    var edges := FindIncidentEdges(original, v);
    dup' := dup + {edges.0, edges.1};
  }

  /** A face in the adjacency of `v` holds `v`. */
  lemma AdjacentFaceHolds(v: nat, f: nat, indices: seq<nat>, starts: seq<nat>, sizes: seq<nat>, adj: seq<set<nat>>)
    requires RunsInBounds(starts, sizes, |indices|) && Adjacency(adj, indices, starts, sizes)
    requires v < |adj| && f in adj[v]
    ensures f < |starts| && v in FaceIndices(f, indices, starts, sizes)
  {
    assert OnFace(v, f, indices, starts, sizes);
    var i :| starts[f] <= i < starts[f] + sizes[f] && indices[i] == v;
    assert FaceIndices(f, indices, starts, sizes)[i - starts[f]] == v;
  }

  /** Before any face of `v` is visited, the state is the one between two vertices. */
  lemma StartVertex<T>(vertices: seq<T>, indices: seq<nat>, starts: seq<nat>, sizes: seq<nat>, adj: seq<set<nat>>,
                       done: set<nat>, v: nat, sv: seq<T>, si: seq<nat>)
    requires RunsInBounds(starts, sizes, |indices|) && |adj| == |vertices| && IndicesBelow(indices, |vertices|)
    requires SplitState(vertices, indices, starts, sizes, adj, done, 0, {}, sv, si)
    ensures SplitState(vertices, indices, starts, sizes, adj, done, v, {}, sv, si)
  {
    forall g: nat, k: nat | g < |starts| && InRun(starts, sizes, g, k) && k < |indices|
      ensures Moved(k, g, indices, adj, done, v, {}) == Moved(k, g, indices, adj, done, 0, {})
    {
    }
  }

  /** Every face in `faces` has `v` in its run. */
  predicate FacesHold(v: nat, faces: set<nat>, indices: seq<nat>, starts: seq<nat>, sizes: seq<nat>)
    requires RunsInBounds(starts, sizes, |indices|)
  {
    forall f :: f in faces ==> f < |starts| && v in FaceIndices(f, indices, starts, sizes)
  }

  /** The faces listed for `v` in the adjacency hold `v`. */
  lemma AdjacencyHolds(v: nat, indices: seq<nat>, starts: seq<nat>, sizes: seq<nat>, adj: seq<set<nat>>)
    requires RunsInBounds(starts, sizes, |indices|) && Adjacency(adj, indices, starts, sizes) && v < |adj|
    ensures FacesHold(v, adj[v], indices, starts, sizes)
  {
    forall f | f in adj[v]
      ensures f < |starts| && v in FaceIndices(f, indices, starts, sizes)
    {
      AdjacentFaceHolds(v, f, indices, starts, sizes, adj);
    }
  }

  /** The state `split_face_verts` threads through its loops: vertices, indices and recorded edges. */
  type SplitAcc<T> = (seq<T>, seq<nat>, set<Edge>)

  /**
   * The body of the face loop of `split_face_verts` for face `f` of
   * vertex `v`: unless `f` is the first face of `v`, its slots holding `v`
   * get new copies of `v`; the two edges at `v` in the original face are
   * recorded.
   */
  function VisitFace<T>(first: bool, st: SplitAcc<T>, v: nat, f: nat, indices: seq<nat>, starts: seq<nat>, sizes: seq<nat>)
    : (r: SplitAcc<T>)
    requires RunsInBounds(starts, sizes, |indices|) && f < |starts| && v in FaceIndices(f, indices, starts, sizes)
    requires v < |st.0| && |st.1| == |indices|
    ensures |st.0| <= |r.0| && |r.1| == |indices|
  {
    var edges := FindIncidentEdges(FaceIndices(f, indices, starts, sizes), v);
    if first then (st.0, st.1, st.2 + {edges.0, edges.1})
    else
      var copied := CopySlots(st.0, st.1, v, starts[f], starts[f] + sizes[f]);
      (copied.0, copied.1, st.2 + {edges.0, edges.1})
  }

  /**
   * The face loop of `split_face_verts` for vertex `v` over the faces in
   * `pending`, in ascending order; `first` says no face of `v` has been
   * visited yet.
   */
  ghost function SplitFaces<T>(v: nat, pending: set<nat>, first: bool, st: SplitAcc<T>,
                               indices: seq<nat>, starts: seq<nat>, sizes: seq<nat>): (r: SplitAcc<T>)
    requires RunsInBounds(starts, sizes, |indices|) && FacesHold(v, pending, indices, starts, sizes)
    requires v < |st.0| && |st.1| == |indices|
    ensures |st.0| <= |r.0| && |r.1| == |indices|
    decreases |pending|
  {
    if pending == {} then st
    else
      var f := SetMin(pending);
      SplitFaces(v, pending - {f}, false, VisitFace(first, st, v, f, indices, starts, sizes), indices, starts, sizes)
  }

  /** One step of the face loop: the least pending face `f` is visited. */
  lemma SplitFacesStep<T>(v: nat, pending: set<nat>, first: bool, st: SplitAcc<T>,
                          indices: seq<nat>, starts: seq<nat>, sizes: seq<nat>, f: nat)
    requires RunsInBounds(starts, sizes, |indices|) && FacesHold(v, pending, indices, starts, sizes)
    requires v < |st.0| && |st.1| == |indices| && pending != {} && f == SetMin(pending)
    ensures f < |starts| && v in FaceIndices(f, indices, starts, sizes)
    ensures SplitFaces(v, pending, first, st, indices, starts, sizes)
         == SplitFaces(v, pending - {f}, false, VisitFace(first, st, v, f, indices, starts, sizes), indices, starts, sizes)
  {
  }

  /** The edges at a vertex of a face join vertices of the mesh. */
  lemma IncidentEdgesBelow(dup: set<Edge>, f: nat, v: nat, n: nat, indices: seq<nat>, starts: seq<nat>, sizes: seq<nat>)
    requires RunsInBounds(starts, sizes, |indices|) && IndicesBelow(indices, n)
    requires f < |starts| && v in FaceIndices(f, indices, starts, sizes) && EdgesBelow(dup, n)
    ensures var edges := FindIncidentEdges(FaceIndices(f, indices, starts, sizes), v);
            EdgesBelow(dup + {edges.0, edges.1}, n)
  {
    var face := FaceIndices(f, indices, starts, sizes);
    var i := FirstPosition(face, v);
    var prev := if i > 0 then i - 1 else |face| - 1;
    var next := if i + 1 < |face| then i + 1 else 0;
    assert face[prev] < n && face[next] < n && face[i] < n;
  }

  /** The face loop records only edges between vertices of the mesh. */
  lemma {:induction false} SplitFacesEdges<T>(v: nat, pending: set<nat>, first: bool, st: SplitAcc<T>,
                                              indices: seq<nat>, starts: seq<nat>, sizes: seq<nat>, n: nat)
    requires RunsInBounds(starts, sizes, |indices|) && FacesHold(v, pending, indices, starts, sizes)
    requires v < |st.0| && |st.1| == |indices| && IndicesBelow(indices, n) && EdgesBelow(st.2, n)
    ensures EdgesBelow(SplitFaces(v, pending, first, st, indices, starts, sizes).2, n)
    decreases |pending|
  {
    if pending != {} {
      var f := SetMin(pending);
      SplitFacesStep(v, pending, first, st, indices, starts, sizes, f);
      IncidentEdgesBelow(st.2, f, v, n, indices, starts, sizes);
      SplitFacesEdges(v, pending - {f}, false, VisitFace(first, st, v, f, indices, starts, sizes), indices, starts, sizes, n);
    }
  }

  /** The body of the face loop of `split_face_verts`, for face `f` of `v`. */
  method SplitInFace<T>(first: bool, sv: seq<T>, si: seq<nat>, dup: set<Edge>, v: nat, f: nat,
                        indices: seq<nat>, starts: seq<nat>, sizes: seq<nat>)
    returns (sv': seq<T>, si': seq<nat>, dup': set<Edge>)
    requires RunsInBounds(starts, sizes, |indices|) && f < |starts| && v in FaceIndices(f, indices, starts, sizes)
    requires v < |sv| && |si| == |indices|
    ensures (sv', si', dup') == VisitFace(first, (sv, si, dup), v, f, indices, starts, sizes)
  {
    sv', si' := sv, si;
    // Duplicate the vertex in all faces except the first.
    // The first face can just use the original index.
    if !first {
      sv', si' := CopyVertexInFace(sv, si, v, starts[f], sizes[f]);
    }
    // Find any edges that may need to be merged later.
    dup' := RecordIncidentEdges(dup, f, v, indices, starts, sizes);
  }

  /**
   * One pass of the outer loop of `split_face_verts`: the faces of `v` in
   * ascending order; every face but the first gets its own copies of `v`,
   * and the two edges at `v` in each face are recorded.
   */
  method SplitVertex<T>(v: nat, indices: seq<nat>, starts: seq<nat>, sizes: seq<nat>, adj: seq<set<nat>>,
                        sv: seq<T>, si: seq<nat>, dup: set<Edge>)
    returns (sv': seq<T>, si': seq<nat>, dup': set<Edge>)
    requires RunsInBounds(starts, sizes, |indices|) && Adjacency(adj, indices, starts, sizes) && v < |adj|
    requires v < |sv| && |si| == |indices|
    ensures FacesHold(v, adj[v], indices, starts, sizes)
            && (sv', si', dup') == SplitFaces(v, adj[v], true, (sv, si, dup), indices, starts, sizes)
  {
    AdjacencyHolds(v, indices, starts, sizes, adj);
    sv', si', dup' := sv, si, dup;
    var pending := adj[v];
    var count := 0;
    while pending != {}
      invariant pending <= adj[v] && v < |sv'| && |si'| == |indices|
      invariant SplitFaces(v, adj[v], true, (sv, si, dup), indices, starts, sizes)
             == SplitFaces(v, pending, count == 0, (sv', si', dup'), indices, starts, sizes)
      decreases |pending|
    {
      var f := Least(pending);
      SplitFacesStep(v, pending, count == 0, (sv', si', dup'), indices, starts, sizes, f);
      sv', si', dup' := SplitInFace(count == 0, sv', si', dup', v, f, indices, starts, sizes);
      pending := pending - {f};
      count := count + 1;
    }
  }

  /**
   * The vertex loop of `split_face_verts` over the marked vertices in
   * `remaining`, in ascending order.
   */
  ghost function SplitVertices<T>(remaining: set<nat>, st: SplitAcc<T>,
                                  indices: seq<nat>, starts: seq<nat>, sizes: seq<nat>, adj: seq<set<nat>>)
    : (r: SplitAcc<T>)
    requires RunsInBounds(starts, sizes, |indices|) && Adjacency(adj, indices, starts, sizes)
    requires forall x :: x in remaining ==> x < |adj|
    requires |adj| <= |st.0| && |st.1| == |indices|
    ensures |st.0| <= |r.0| && |r.1| == |indices|
    decreases |remaining|
  {
    if remaining == {} then st
    else
      var v := SetMin(remaining);
      AdjacencyHolds(v, indices, starts, sizes, adj);
      SplitVertices(remaining - {v}, SplitFaces(v, adj[v], true, st, indices, starts, sizes), indices, starts, sizes, adj)
  }

  /** One step of the vertex loop: the least remaining vertex `v` is split. */
  lemma SplitVerticesStep<T>(remaining: set<nat>, st: SplitAcc<T>,
                             indices: seq<nat>, starts: seq<nat>, sizes: seq<nat>, adj: seq<set<nat>>, v: nat)
    requires RunsInBounds(starts, sizes, |indices|) && Adjacency(adj, indices, starts, sizes)
    requires forall x :: x in remaining ==> x < |adj|
    requires |adj| <= |st.0| && |st.1| == |indices| && remaining != {} && v == SetMin(remaining)
    ensures v < |adj| && FacesHold(v, adj[v], indices, starts, sizes)
    ensures SplitVertices(remaining, st, indices, starts, sizes, adj)
         == SplitVertices(remaining - {v}, SplitFaces(v, adj[v], true, st, indices, starts, sizes), indices, starts, sizes, adj)
  {
    AdjacencyHolds(v, indices, starts, sizes, adj);
  }

  /** The vertex loop records only edges between vertices of the mesh. */
  lemma {:induction false} SplitVerticesEdges<T>(remaining: set<nat>, st: SplitAcc<T>,
                                                 indices: seq<nat>, starts: seq<nat>, sizes: seq<nat>, adj: seq<set<nat>>)
    requires RunsInBounds(starts, sizes, |indices|) && Adjacency(adj, indices, starts, sizes)
    requires forall x :: x in remaining ==> x < |adj|
    requires |adj| <= |st.0| && |st.1| == |indices| && IndicesBelow(indices, |adj|) && EdgesBelow(st.2, |adj|)
    ensures EdgesBelow(SplitVertices(remaining, st, indices, starts, sizes, adj).2, |adj|)
    decreases |remaining|
  {
    if remaining != {} {
      var v := SetMin(remaining);
      SplitVerticesStep(remaining, st, indices, starts, sizes, adj, v);
      SplitFacesEdges(v, adj[v], true, st, indices, starts, sizes, |adj|);
      SplitVerticesEdges(remaining - {v}, SplitFaces(v, adj[v], true, st, indices, starts, sizes), indices, starts, sizes, adj);
    }
  }

  /**
   * The face loop keeps the split state: once the faces of `v` in
   * `pending` (the ones above those already visited, `facesDone`) are
   * visited, `v` has its original index in its first face and a fresh copy
   * in every other.
   */
  lemma {:induction false} SplitFacesState<T>(vertices: seq<T>, indices: seq<nat>, starts: seq<nat>, sizes: seq<nat>,
                                              adj: seq<set<nat>>, done: set<nat>, v: nat, facesDone: set<nat>,
                                              pending: set<nat>, first: bool, st: SplitAcc<T>)
    requires Contiguous(starts, sizes, |indices|) && RunsInBounds(starts, sizes, |indices|)
    requires |adj| == |vertices| && IndicesBelow(indices, |vertices|) && Adjacency(adj, indices, starts, sizes)
    requires v < |vertices| && v !in done && pending <= adj[v] && facesDone == adj[v] - pending
    requires (first <==> pending == adj[v]) && FacesHold(v, pending, indices, starts, sizes)
    requires forall g, h :: g in adj[v] && g !in pending && h in pending ==> g < h
    requires SplitState(vertices, indices, starts, sizes, adj, done, v, facesDone, st.0, st.1)
    ensures var r := SplitFaces(v, pending, first, st, indices, starts, sizes);
            SplitState(vertices, indices, starts, sizes, adj, done + {v}, 0, {}, r.0, r.1)
    decreases |pending|, 1
  {
    if pending == {} {
      assert facesDone == adj[v];
      FinishVertex(vertices, indices, starts, sizes, adj, done, v, st.0, st.1);
    } else {
      VisitPendingState(vertices, indices, starts, sizes, adj, done, v, facesDone, pending, first, st);
    }
  }

  /** The step of `SplitFacesState` that visits the least pending face. */
  lemma {:induction false} VisitPendingState<T>(vertices: seq<T>, indices: seq<nat>, starts: seq<nat>, sizes: seq<nat>,
                                                adj: seq<set<nat>>, done: set<nat>, v: nat, facesDone: set<nat>,
                                                pending: set<nat>, first: bool, st: SplitAcc<T>)
    requires Contiguous(starts, sizes, |indices|) && RunsInBounds(starts, sizes, |indices|)
    requires |adj| == |vertices| && IndicesBelow(indices, |vertices|) && Adjacency(adj, indices, starts, sizes)
    requires v < |vertices| && v !in done && pending <= adj[v] && facesDone == adj[v] - pending
    requires (first <==> pending == adj[v]) && FacesHold(v, pending, indices, starts, sizes)
    requires forall g, h :: g in adj[v] && g !in pending && h in pending ==> g < h
    requires SplitState(vertices, indices, starts, sizes, adj, done, v, facesDone, st.0, st.1)
    requires pending != {}
    ensures var f := SetMin(pending);
            f < |starts| && v in FaceIndices(f, indices, starts, sizes)
            && var r := SplitFaces(v, pending - {f}, false, VisitFace(first, st, v, f, indices, starts, sizes),
                                   indices, starts, sizes);
               SplitState(vertices, indices, starts, sizes, adj, done + {v}, 0, {}, r.0, r.1)
    decreases |pending|, 0
  {
    var f := SetMin(pending);
    SplitFacesStep(v, pending, first, st, indices, starts, sizes, f);
    VisitedInOrder(adj[v], pending, f, first);
    VisitFaceState(vertices, indices, starts, sizes, adj, done, v, facesDone, f, first, st);
    SplitFacesState(vertices, indices, starts, sizes, adj, done, v, facesDone + {f}, pending - {f}, false,
                    VisitFace(first, st, v, f, indices, starts, sizes));
  }

  /**
   * Taking the least pending face keeps the visited faces below the
   * pending ones, and the face taken is the least of all exactly when
   * none was visited before.
   */
  lemma VisitedInOrder(all: set<nat>, pending: set<nat>, f: nat, first: bool)
    requires pending <= all && pending != {} && f == SetMin(pending) && (first <==> pending == all)
    requires forall g, h :: g in all && g !in pending && h in pending ==> g < h
    ensures forall g, h :: g in all && g !in pending - {f} && h in pending - {f} ==> g < h
    ensures all - (pending - {f}) == (all - pending) + {f}
    ensures f in all && f !in all - pending && (first <==> f == SetMin(all))
  {
    if !first {
      // The least face was visited first.
      var g :| g in all && g !in pending;
      assert SetMin(all) <= g;
    }
  }

  /** Visiting a face other than the first copies `v` in its run. */
  lemma VisitFaceCopies<T>(st: SplitAcc<T>, v: nat, f: nat, indices: seq<nat>, starts: seq<nat>, sizes: seq<nat>)
    requires RunsInBounds(starts, sizes, |indices|) && f < |starts| && v in FaceIndices(f, indices, starts, sizes)
    requires v < |st.0| && |st.1| == |indices| && IndicesBelow(st.1, |st.0|)
    ensures var r := VisitFace(false, st, v, f, indices, starts, sizes);
            CopiedRun(st.0, st.1, r.0, r.1, v, starts[f], starts[f] + sizes[f])
  {
    CopySlotsFacts(st.0, st.1, v, starts[f], starts[f] + sizes[f]);
  }

  /** Visiting face `f` of `v` keeps the split state, with `f` now visited. */
  lemma VisitFaceState<T>(vertices: seq<T>, indices: seq<nat>, starts: seq<nat>, sizes: seq<nat>, adj: seq<set<nat>>,
                          done: set<nat>, v: nat, facesDone: set<nat>, f: nat, first: bool, st: SplitAcc<T>)
    requires Contiguous(starts, sizes, |indices|) && RunsInBounds(starts, sizes, |indices|)
    requires |adj| == |vertices| && IndicesBelow(indices, |vertices|) && Adjacency(adj, indices, starts, sizes)
    requires v < |vertices| && v !in done && f in adj[v] && f !in facesDone && (first <==> f == SetMin(adj[v]))
    requires SplitState(vertices, indices, starts, sizes, adj, done, v, facesDone, st.0, st.1)
    ensures f < |starts| && v in FaceIndices(f, indices, starts, sizes)
    ensures var r := VisitFace(first, st, v, f, indices, starts, sizes);
            SplitState(vertices, indices, starts, sizes, adj, done, v, facesDone + {f}, r.0, r.1)
  {
    AdjacentFaceHolds(v, f, indices, starts, sizes, adj);
    var r := VisitFace(first, st, v, f, indices, starts, sizes);
    if first {
      assert r.0 == st.0 && r.1 == st.1;
      FirstFaceKeepsState(vertices, indices, starts, sizes, adj, done, v, facesDone, f, st.0, st.1);
    } else {
      VisitFaceCopies(st, v, f, indices, starts, sizes);
      CopyKeepsState(vertices, indices, starts, sizes, adj, done, v, facesDone, f, st.0, st.1, r.0, r.1);
    }
  }

  /**
   * The vertex loop keeps the split state: once `remaining` is visited
   * after the vertices in `done`, every marked vertex is split.
   */
  lemma {:induction false} SplitVerticesState<T>(vertices: seq<T>, indices: seq<nat>, starts: seq<nat>, sizes: seq<nat>,
                                                 adj: seq<set<nat>>, marked: set<nat>, done: set<nat>,
                                                 remaining: set<nat>, st: SplitAcc<T>)
    requires Contiguous(starts, sizes, |indices|) && RunsInBounds(starts, sizes, |indices|)
    requires |adj| == |vertices| && IndicesBelow(indices, |vertices|) && Adjacency(adj, indices, starts, sizes)
    requires remaining <= marked && done == marked - remaining && forall x :: x in marked ==> x < |vertices|
    requires SplitState(vertices, indices, starts, sizes, adj, done, 0, {}, st.0, st.1)
    ensures var r := SplitVertices(remaining, st, indices, starts, sizes, adj);
            SplitState(vertices, indices, starts, sizes, adj, marked, 0, {}, r.0, r.1)
    decreases |remaining|, 1
  {
    if remaining == {} {
      assert done == marked;
    } else {
      VisitRemainingState(vertices, indices, starts, sizes, adj, marked, done, remaining, st);
    }
  }

  /** The step of `SplitVerticesState` that splits the least remaining vertex. */
  lemma {:induction false} VisitRemainingState<T>(vertices: seq<T>, indices: seq<nat>, starts: seq<nat>, sizes: seq<nat>,
                                                  adj: seq<set<nat>>, marked: set<nat>, done: set<nat>,
                                                  remaining: set<nat>, st: SplitAcc<T>)
    requires Contiguous(starts, sizes, |indices|) && RunsInBounds(starts, sizes, |indices|)
    requires |adj| == |vertices| && IndicesBelow(indices, |vertices|) && Adjacency(adj, indices, starts, sizes)
    requires remaining <= marked && done == marked - remaining && forall x :: x in marked ==> x < |vertices|
    requires SplitState(vertices, indices, starts, sizes, adj, done, 0, {}, st.0, st.1)
    requires remaining != {}
    ensures var r := SplitVertices(remaining, st, indices, starts, sizes, adj);
            SplitState(vertices, indices, starts, sizes, adj, marked, 0, {}, r.0, r.1)
    decreases |remaining|, 0
  {
    var v := SetMin(remaining);
    SplitVerticesStep(remaining, st, indices, starts, sizes, adj, v);
    StartVertex(vertices, indices, starts, sizes, adj, done, v, st.0, st.1);
    assert adj[v] - adj[v] == {} && done + {v} == marked - (remaining - {v});
    SplitFacesState(vertices, indices, starts, sizes, adj, done, v, {}, adj[v], true, st);
    SplitVerticesState(vertices, indices, starts, sizes, adj, marked, done + {v}, remaining - {v},
                       SplitFaces(v, adj[v], true, st, indices, starts, sizes));
  }

  /**
   * `split_face_verts`: every marked vertex, in ascending order, keeps its
   * original index in its first face and gets a fresh copy in every other
   * face; the edges at the marked vertices are recorded for merging.
   */
  method SplitFaceVerts<T>(vertices: seq<T>, indices: seq<nat>, starts: seq<nat>, sizes: seq<nat>,
                           adj: seq<set<nat>>, marked: set<nat>)
    returns (sv: seq<T>, si: seq<nat>, dup: set<Edge>)
    requires RunsInBounds(starts, sizes, |indices|)
    requires |adj| == |vertices| && IndicesBelow(indices, |vertices|) && Adjacency(adj, indices, starts, sizes)
    requires forall v :: v in marked ==> v < |vertices|
    ensures (sv, si, dup) == SplitVertices(marked, (vertices, indices, {}), indices, starts, sizes, adj)
  {
    sv, si, dup := vertices, indices, {};
    var remaining := marked;
    while remaining != {}
      invariant remaining <= marked
      invariant |adj| <= |sv| && |si| == |indices|
      invariant SplitVertices(marked, (vertices, indices, {}), indices, starts, sizes, adj)
             == SplitVertices(remaining, (sv, si, dup), indices, starts, sizes, adj)
      decreases |remaining|
    {
      var v := Least(remaining);
      SplitVerticesStep(remaining, (sv, si, dup), indices, starts, sizes, adj, v);
      sv, si, dup := SplitVertex(v, indices, starts, sizes, adj, sv, si, dup);
      remaining := remaining - {v};
    }
  }

  /**
   * What `split_face_verts` computes: every slot still shows its original
   * position; a slot was moved exactly when its vertex is marked and the
   * face is not the vertex's first face; moved slots point at distinct
   * fresh copies; and with nothing marked nothing changes.
   */
  lemma SplitFaceVertsState<T>(vertices: seq<T>, indices: seq<nat>, starts: seq<nat>, sizes: seq<nat>,
                               adj: seq<set<nat>>, marked: set<nat>)
    requires Contiguous(starts, sizes, |indices|) && RunsInBounds(starts, sizes, |indices|)
    requires |adj| == |vertices| && IndicesBelow(indices, |vertices|) && Adjacency(adj, indices, starts, sizes)
    requires forall v :: v in marked ==> v < |vertices|
    ensures var r := SplitVertices(marked, (vertices, indices, {}), indices, starts, sizes, adj);
            && SplitState(vertices, indices, starts, sizes, adj, marked, 0, {}, r.0, r.1)
            && EdgesBelow(r.2, |vertices|)
            && (marked == {} ==> r == (vertices, indices, {}))
  {
    assert vertices[..|vertices|] == vertices;
    assert marked - marked == {};
    SplitVerticesState(vertices, indices, starts, sizes, adj, marked, {}, marked, (vertices, indices, {}));
    SplitVerticesEdges(marked, (vertices, indices, {}), indices, starts, sizes, adj);
  }

  // ---------------------------------------------------------------------
  // Merging duplicated edges

  /** Every slot's index shows the position its original index showed. */
  ghost predicate PositionsKept<T>(vertices: seq<T>, indices: seq<nat>, sv: seq<T>, si: seq<nat>)
    requires IndicesBelow(indices, |vertices|)
  {
    |si| == |indices| && forall k :: 0 <= k < |si| ==> si[k] < |sv| && sv[si[k]] == vertices[indices[k]]
  }

  /** Every face recorded in the adjacency `adj` is a face of the mesh. */
  predicate FacesBelowCount(adj: seq<set<nat>>, numFaces: nat) {
    forall x, g :: 0 <= x < |adj| && g in adj[x] ==> g < numFaces
  }

  /**
   * `find_old_vertex_in_face`: the new index at the first slot of face `f`
   * whose old index is `v`.
   */
  function FindOldVertexInFace(v: nat, f: nat, oldIndices: seq<nat>, newIndices: seq<nat>,
                               starts: seq<nat>, sizes: seq<nat>): (r: nat)
    requires RunsInBounds(starts, sizes, |oldIndices|) && |newIndices| == |oldIndices|
    requires f < |starts| && v in FaceIndices(f, oldIndices, starts, sizes)
    ensures var k := starts[f] + FirstPosition(FaceIndices(f, oldIndices, starts, sizes), v);
            InRun(starts, sizes, f, k) && oldIndices[k] == v && r == newIndices[k]
  {
    var k := FirstPosition(FaceIndices(f, oldIndices, starts, sizes), v);
    FaceIndices(f, newIndices, starts, sizes)[k]
  }

  /** The found index shows the position of `v`. */
  lemma FoundVertexPosition<T>(vertices: seq<T>, indices: seq<nat>, sv: seq<T>, si: seq<nat>,
                               v: nat, f: nat, starts: seq<nat>, sizes: seq<nat>)
    requires RunsInBounds(starts, sizes, |indices|) && IndicesBelow(indices, |vertices|)
    requires PositionsKept(vertices, indices, sv, si)
    requires f < |starts| && v in FaceIndices(f, indices, starts, sizes)
    ensures v < |vertices|
    ensures FindOldVertexInFace(v, f, indices, si, starts, sizes) < |sv|
    ensures sv[FindOldVertexInFace(v, f, indices, si, starts, sizes)] == vertices[v]
  {
    var k := starts[f] + FirstPosition(FaceIndices(f, indices, starts, sizes), v);
    assert indices[k] == v;
  }

  /** The index `merge_verts_in_faces` gives slot `k`: the f0 copy of `v0` or `v1`, else the one it has. */
  function Relabel(k: nat, indices: seq<nat>, si: seq<nat>, v0: nat, v1: nat, a: nat, c: nat): nat
    requires k < |indices| == |si|
  {
    if indices[k] == v1 then c else if indices[k] == v0 then a else si[k]
  }

  /** Relabelling a slot that is untouched or already relabelled gives the same label. */
  lemma RelabelAgain(k: nat, indices: seq<nat>, si: seq<nat>, mid: seq<nat>, v0: nat, v1: nat, a: nat, c: nat)
    requires k < |indices| == |si| == |mid|
    requires mid[k] == si[k] || mid[k] == Relabel(k, indices, si, v0, v1, a, c)
    ensures Relabel(k, indices, mid, v0, v1, a, c) == Relabel(k, indices, si, v0, v1, a, c)
  {
  }

  /** Slot `k` lies in the run of one of the faces of `faces`. */
  ghost predicate InFaces(k: nat, faces: set<nat>, starts: seq<nat>, sizes: seq<nat>)
    requires |starts| == |sizes|
  {
    exists g: nat :: g in faces && g < |starts| && InRun(starts, sizes, g, k)
  }

  /**
   * The slots after the slot loop of `merge_verts_in_faces` has run over
   * the faces of `faces`: a slot in one of their runs is relabelled, every
   * other slot keeps its index.
   */
  ghost function RelabelIn(si: seq<nat>, faces: set<nat>, indices: seq<nat>, starts: seq<nat>, sizes: seq<nat>,
                           v0: nat, v1: nat, a: nat, c: nat): (r: seq<nat>)
    requires |si| == |indices| && |starts| == |sizes|
    ensures |r| == |si|
    ensures forall k :: 0 <= k < |r| ==> r[k] == si[k] || r[k] == a || r[k] == c
  {
    seq(|si|, (k: nat) requires k < |si| =>
      if InFaces(k, faces, starts, sizes) then Relabel(k, indices, si, v0, v1, a, c) else si[k])
  }

  /** In a contiguous layout, a slot of face `g` is relabelled exactly when `g` is one of the faces. */
  lemma RelabelInAt(si: seq<nat>, faces: set<nat>, indices: seq<nat>, starts: seq<nat>, sizes: seq<nat>,
                    v0: nat, v1: nat, a: nat, c: nat, g: nat, k: nat)
    requires Contiguous(starts, sizes, |indices|) && |si| == |indices|
    requires g < |starts| && InRun(starts, sizes, g, k) && k < |si|
    ensures RelabelIn(si, faces, indices, starts, sizes, v0, v1, a, c)[k]
         == if g in faces then Relabel(k, indices, si, v0, v1, a, c) else si[k]
  {
    if InFaces(k, faces, starts, sizes) {
      var h: nat :| h in faces && h < |starts| && InRun(starts, sizes, h, k);
      OneFacePerSlot(starts, sizes, |indices|, g, h, k);
    }
  }

  /** Relabelling over `fa`, then over `fc`, relabels over both: a face in both is relabelled twice to the same labels. */
  lemma RelabelInUnion(si: seq<nat>, fa: set<nat>, fc: set<nat>, indices: seq<nat>, starts: seq<nat>, sizes: seq<nat>,
                       v0: nat, v1: nat, a: nat, c: nat)
    requires |si| == |indices| && |starts| == |sizes|
    ensures RelabelIn(RelabelIn(si, fa, indices, starts, sizes, v0, v1, a, c), fc, indices, starts, sizes, v0, v1, a, c)
         == RelabelIn(si, fa + fc, indices, starts, sizes, v0, v1, a, c)
  {
    var mid := RelabelIn(si, fa, indices, starts, sizes, v0, v1, a, c);
    var both := RelabelIn(si, fa + fc, indices, starts, sizes, v0, v1, a, c);
    var r := RelabelIn(mid, fc, indices, starts, sizes, v0, v1, a, c);
    forall k | 0 <= k < |si| ensures r[k] == both[k] {
      RelabelAgain(k, indices, si, mid, v0, v1, a, c);
      if InFaces(k, fa + fc, starts, sizes) {
        var h: nat :| h in fa + fc && h < |starts| && InRun(starts, sizes, h, k);
        assert InFaces(k, fa, starts, sizes) || InFaces(k, fc, starts, sizes);
      } else {
        assert !InFaces(k, fa, starts, sizes) && !InFaces(k, fc, starts, sizes);
      }
    }
  }

  /** Relabelling slots to an index showing the same vertex keeps every slot's position. */
  lemma RelabelInKeeps<T>(vertices: seq<T>, sv: seq<T>, indices: seq<nat>, starts: seq<nat>, sizes: seq<nat>,
                          si: seq<nat>, faces: set<nat>, v0: nat, v1: nat, a: nat, c: nat)
    requires IndicesBelow(indices, |vertices|) && PositionsKept(vertices, indices, sv, si) && |starts| == |sizes|
    requires v0 < |vertices| && v1 < |vertices| && a < |sv| && c < |sv| && sv[a] == vertices[v0] && sv[c] == vertices[v1]
    ensures PositionsKept(vertices, indices, sv, RelabelIn(si, faces, indices, starts, sizes, v0, v1, a, c))
  {
  }

  /** The slot loop of `merge_verts_in_faces` over one face's run. */
  method RelabelRun(si: seq<nat>, start: nat, size: nat, indices: seq<nat>, v0: nat, v1: nat, a: nat, c: nat)
    returns (si': seq<nat>)
    requires |si| == |indices| && start + size <= |indices|
    ensures |si'| == |si|
    ensures forall k :: 0 <= k < |si| ==>
      si'[k] == if start <= k < start + size then Relabel(k, indices, si, v0, v1, a, c) else si[k]
  {
    si' := si;
    for i := start to start + size
      invariant |si'| == |si|
      invariant forall k :: 0 <= k < |si| ==>
        si'[k] == if start <= k < i then Relabel(k, indices, si, v0, v1, a, c) else si[k]
    {
      if indices[i] == v0 {
        si' := si'[i := a];
      }
      if indices[i] == v1 {
        si' := si'[i := c];
      }
    }
  }

  /** Runs the slot loop over every face of `faces`, in ascending order. */
  method RelabelFaces(si: seq<nat>, faces: set<nat>, indices: seq<nat>, starts: seq<nat>, sizes: seq<nat>,
                      v0: nat, v1: nat, a: nat, c: nat)
    returns (si': seq<nat>)
    requires Contiguous(starts, sizes, |indices|) && RunsInBounds(starts, sizes, |indices|)
    requires |si| == |indices| && forall g :: g in faces ==> g < |starts|
    ensures |si'| == |si|
    ensures forall k :: 0 <= k < |si| ==> si'[k] == si[k] || si'[k] == Relabel(k, indices, si, v0, v1, a, c)
    ensures forall g: nat, k: nat :: g < |starts| && InRun(starts, sizes, g, k) && k < |si| ==>
      si'[k] == if g in faces then Relabel(k, indices, si, v0, v1, a, c) else si[k]
    ensures si' == RelabelIn(si, faces, indices, starts, sizes, v0, v1, a, c)
  {
    si' := si;
    var pending := faces;
    while pending != {}
      invariant pending <= faces && |si'| == |si|
      invariant forall k :: 0 <= k < |si| ==> si'[k] == si[k] || si'[k] == Relabel(k, indices, si, v0, v1, a, c)
      invariant forall g: nat, k: nat :: g < |starts| && InRun(starts, sizes, g, k) && k < |si| ==>
        si'[k] == if g in faces - pending then Relabel(k, indices, si, v0, v1, a, c) else si[k]
      decreases |pending|
    {
      var f := Least(pending);
      var next := RelabelRun(si', starts[f], sizes[f], indices, v0, v1, a, c);
      forall g: nat, k: nat | g < |starts| && InRun(starts, sizes, g, k) && k < |si|
        ensures next[k] == if g in faces - (pending - {f}) then Relabel(k, indices, si, v0, v1, a, c) else si[k]
      {
        if g != f && starts[f] <= k < starts[f] + sizes[f] {
          OneFacePerSlot(starts, sizes, |indices|, f, g, k);
        }
      }
      si' := next;
      pending := pending - {f};
    }
    forall k | 0 <= k < |si| ensures si'[k] == RelabelIn(si, faces, indices, starts, sizes, v0, v1, a, c)[k] {
      var g := SlotFace(starts, sizes, |indices|, k);
      RelabelInAt(si, faces, indices, starts, sizes, v0, v1, a, c, g, k);
    }
  }

  /** The index and adjacency buffers `merge_duplicate_edges` updates. */
  type MergeAcc = (seq<nat>, seq<set<nat>>)

  /**
   * `merge_verts_in_faces` on the state `st`: `a` and `c` are the indices
   * face `f0` gives `v0` and `v1`, `b` and `d` those face `f1` gives them;
   * the adjacency of `a` absorbs that of `b`, then that of `c` absorbs that
   * of `d`; every slot of `v0` or `v1` in a face adjacent to `a` or `c`
   * is then given `a` or `c`.
   */
  ghost function MergeVerts(v0: nat, v1: nat, f0: nat, f1: nat, indices: seq<nat>, starts: seq<nat>, sizes: seq<nat>,
                            st: MergeAcc): (r: MergeAcc)
    requires RunsInBounds(starts, sizes, |indices|) && |st.0| == |indices| && IndicesBelow(st.0, |st.1|)
    requires f0 < |starts| && f1 < |starts|
    requires v0 in FaceIndices(f0, indices, starts, sizes) && v0 in FaceIndices(f1, indices, starts, sizes)
    requires v1 in FaceIndices(f0, indices, starts, sizes) && v1 in FaceIndices(f1, indices, starts, sizes)
    ensures |r.0| == |indices| && |r.1| == |st.1| && IndicesBelow(r.0, |r.1|)
  {
    var a := FindOldVertexInFace(v0, f0, indices, st.0, starts, sizes);
    var b := FindOldVertexInFace(v0, f1, indices, st.0, starts, sizes);
    var adj1 := st.1[a := st.1[a] + st.1[b]];
    var c := FindOldVertexInFace(v1, f0, indices, st.0, starts, sizes);
    var d := FindOldVertexInFace(v1, f1, indices, st.0, starts, sizes);
    var adj2 := adj1[c := adj1[c] + adj1[d]];
    (RelabelIn(st.0, adj2[a] + adj2[c], indices, starts, sizes, v0, v1, a, c), adj2)
  }

  /** Merging keeps every slot's position and records only faces of the mesh. */
  lemma MergeVertsKeeps<T>(vertices: seq<T>, sv: seq<T>, v0: nat, v1: nat, f0: nat, f1: nat,
                           indices: seq<nat>, starts: seq<nat>, sizes: seq<nat>, st: MergeAcc)
    requires RunsInBounds(starts, sizes, |indices|) && IndicesBelow(indices, |vertices|)
    requires PositionsKept(vertices, indices, sv, st.0) && |st.1| == |sv| && FacesBelowCount(st.1, |starts|)
    requires f0 < |starts| && f1 < |starts|
    requires v0 in FaceIndices(f0, indices, starts, sizes) && v0 in FaceIndices(f1, indices, starts, sizes)
    requires v1 in FaceIndices(f0, indices, starts, sizes) && v1 in FaceIndices(f1, indices, starts, sizes)
    ensures var r := MergeVerts(v0, v1, f0, f1, indices, starts, sizes, st);
            PositionsKept(vertices, indices, sv, r.0) && FacesBelowCount(r.1, |starts|)
  {
    FoundVertexPosition(vertices, indices, sv, st.0, v0, f0, starts, sizes);
    FoundVertexPosition(vertices, indices, sv, st.0, v1, f0, starts, sizes);
    var a := FindOldVertexInFace(v0, f0, indices, st.0, starts, sizes);
    var c := FindOldVertexInFace(v1, f0, indices, st.0, starts, sizes);
    var r := MergeVerts(v0, v1, f0, f1, indices, starts, sizes, st);
    RelabelInKeeps(vertices, sv, indices, starts, sizes, st.0, r.1[a] + r.1[c], v0, v1, a, c);
  }

  /** `merge_verts_in_faces`: the copies of `v0` and `v1` in face `f1` are merged into those of face `f0`. */
  method MergeVertsInFaces(v0: nat, v1: nat, f0: nat, f1: nat, indices: seq<nat>, starts: seq<nat>, sizes: seq<nat>,
                           si: seq<nat>, newAdj: seq<set<nat>>)
    returns (si': seq<nat>, newAdj': seq<set<nat>>)
    requires Contiguous(starts, sizes, |indices|) && RunsInBounds(starts, sizes, |indices|)
    requires |si| == |indices| && IndicesBelow(si, |newAdj|) && FacesBelowCount(newAdj, |starts|)
    requires f0 < |starts| && f1 < |starts|
    requires v0 in FaceIndices(f0, indices, starts, sizes) && v0 in FaceIndices(f1, indices, starts, sizes)
    requires v1 in FaceIndices(f0, indices, starts, sizes) && v1 in FaceIndices(f1, indices, starts, sizes)
    ensures (si', newAdj') == MergeVerts(v0, v1, f0, f1, indices, starts, sizes, (si, newAdj))
  {
    var a := FindOldVertexInFace(v0, f0, indices, si, starts, sizes);
    var b := FindOldVertexInFace(v0, f1, indices, si, starts, sizes);
    newAdj' := newAdj[a := newAdj[a] + newAdj[b]];
    var c := FindOldVertexInFace(v1, f0, indices, si, starts, sizes);
    var d := FindOldVertexInFace(v1, f1, indices, si, starts, sizes);
    newAdj' := newAdj'[c := newAdj'[c] + newAdj'[d]];
    // Update the verts in each of the adjacent faces to use the f0 verts.
    var mid := RelabelFaces(si, newAdj'[a], indices, starts, sizes, v0, v1, a, c);
    si' := RelabelFaces(mid, newAdj'[c], indices, starts, sizes, v0, v1, a, c);
    RelabelInUnion(si, newAdj'[a], newAdj'[c], indices, starts, sizes, v0, v1, a, c);
  }

  /** The first edge of a non-empty set in the lexicographic order. */
  ghost function EdgeMin(s: set<Edge>): (e: Edge)
    requires s != {}
    ensures e in s && forall x :: x in s ==> EdgeBefore(e, x)
  {
    var y :| y in s;
    FirstEdgeExists(s, y);
    var m :| m in s && forall x :: x in s ==> EdgeBefore(m, x);
    m
  }

  /** The next edge an ascending walk over a non-empty `BTreeSet<UndirectedEdge>` visits. */
  method FirstEdge(s: set<Edge>) returns (e: Edge)
    requires s != {}
    ensures e in s && forall x :: x in s ==> EdgeBefore(e, x)
    ensures e == EdgeMin(s)
  {
    var some :| some in s;
    FirstEdgeExists(s, some);
    e :| e in s && forall x :: x in s ==> EdgeBefore(e, x);
    // The order is antisymmetric, so the first edge is unique.
    assert EdgeBefore(e, EdgeMin(s)) && EdgeBefore(EdgeMin(s), e);
  }

  /**
   * One step of `merge_duplicate_edges`: when the end points of `e` shared
   * at least two faces before splitting, the edge is merged across the
   * first two of them; otherwise nothing changes.
   */
  ghost function MergeEdge(e: Edge, st: MergeAcc, indices: seq<nat>, starts: seq<nat>, sizes: seq<nat>,
                           oldAdj: seq<set<nat>>): (r: MergeAcc)
    requires RunsInBounds(starts, sizes, |indices|) && Adjacency(oldAdj, indices, starts, sizes)
    requires e.lo < |oldAdj| && e.hi < |oldAdj| && |st.0| == |indices| && IndicesBelow(st.0, |st.1|)
    ensures |r.0| == |indices| && |r.1| == |st.1| && IndicesBelow(r.0, |r.1|)
  {
    var faces := FirstTwo(oldAdj[e.lo] * oldAdj[e.hi]);
    if faces.None? then st
    else
      var f0, f1 := faces.value.0, faces.value.1;
      AdjacentFaceHolds(e.lo, f0, indices, starts, sizes, oldAdj);
      AdjacentFaceHolds(e.lo, f1, indices, starts, sizes, oldAdj);
      AdjacentFaceHolds(e.hi, f0, indices, starts, sizes, oldAdj);
      AdjacentFaceHolds(e.hi, f1, indices, starts, sizes, oldAdj);
      MergeVerts(e.lo, e.hi, f0, f1, indices, starts, sizes, st)
  }

  /** The edge loop of `merge_duplicate_edges` over `pending`, in ascending order. */
  ghost function MergeEdges(pending: set<Edge>, st: MergeAcc, indices: seq<nat>, starts: seq<nat>, sizes: seq<nat>,
                            oldAdj: seq<set<nat>>): (r: MergeAcc)
    requires RunsInBounds(starts, sizes, |indices|) && Adjacency(oldAdj, indices, starts, sizes)
    requires EdgesBelow(pending, |oldAdj|) && |st.0| == |indices| && IndicesBelow(st.0, |st.1|)
    ensures |r.0| == |indices| && |r.1| == |st.1| && IndicesBelow(r.0, |r.1|)
    decreases |pending|
  {
    if pending == {} then st
    else
      var e := EdgeMin(pending);
      MergeEdges(pending - {e}, MergeEdge(e, st, indices, starts, sizes, oldAdj), indices, starts, sizes, oldAdj)
  }

  /** One step of the edge loop: the first pending edge is merged. */
  lemma MergeEdgesStep(pending: set<Edge>, st: MergeAcc, indices: seq<nat>, starts: seq<nat>, sizes: seq<nat>,
                       oldAdj: seq<set<nat>>, e: Edge)
    requires RunsInBounds(starts, sizes, |indices|) && Adjacency(oldAdj, indices, starts, sizes)
    requires EdgesBelow(pending, |oldAdj|) && |st.0| == |indices| && IndicesBelow(st.0, |st.1|)
    requires pending != {} && e == EdgeMin(pending)
    ensures e.lo < |oldAdj| && e.hi < |oldAdj|
    ensures MergeEdges(pending, st, indices, starts, sizes, oldAdj)
         == MergeEdges(pending - {e}, MergeEdge(e, st, indices, starts, sizes, oldAdj), indices, starts, sizes, oldAdj)
  {
  }

  /** The body of the edge loop of `merge_duplicate_edges` for edge `e`. */
  method MergeEdgeAt<T>(e: Edge, si: seq<nat>, newAdj: seq<set<nat>>, indices: seq<nat>, starts: seq<nat>, sizes: seq<nat>,
                        oldAdj: seq<set<nat>>, ghost vertices: seq<T>, ghost sv: seq<T>)
    returns (si': seq<nat>, newAdj': seq<set<nat>>)
    requires Contiguous(starts, sizes, |indices|) && RunsInBounds(starts, sizes, |indices|)
    requires IndicesBelow(indices, |vertices|) && Adjacency(oldAdj, indices, starts, sizes)
    requires e.lo < |oldAdj| && e.hi < |oldAdj|
    requires PositionsKept(vertices, indices, sv, si) && |newAdj| == |sv| && FacesBelowCount(newAdj, |starts|)
    ensures PositionsKept(vertices, indices, sv, si') && |newAdj'| == |sv| && FacesBelowCount(newAdj', |starts|)
    ensures (si', newAdj') == MergeEdge(e, (si, newAdj), indices, starts, sizes, oldAdj)
  {
    var v0, v1 := e.lo, e.hi;
    // Find the faces incident to this edge before splitting.
    var faces := FirstTwoOf(oldAdj[v0] * oldAdj[v1]);
    if faces.Some? {
      var f0, f1 := faces.value.0, faces.value.1;
      AdjacentFaceHolds(v0, f0, indices, starts, sizes, oldAdj);
      AdjacentFaceHolds(v0, f1, indices, starts, sizes, oldAdj);
      AdjacentFaceHolds(v1, f0, indices, starts, sizes, oldAdj);
      AdjacentFaceHolds(v1, f1, indices, starts, sizes, oldAdj);
      MergeVertsKeeps(vertices, sv, v0, v1, f0, f1, indices, starts, sizes, (si, newAdj));
      si', newAdj' := MergeVertsInFaces(v0, v1, f0, f1, indices, starts, sizes, si, newAdj);
    } else {
      si', newAdj' := si, newAdj;
    }
  }

  /**
   * `merge_duplicate_edges`: the recorded edges that were not marked are
   * merged in ascending order, as `MergeEdges` states; every slot still
   * shows the position of its original vertex.
   */
  method MergeDuplicateEdges<T>(si: seq<nat>, indices: seq<nat>, starts: seq<nat>, sizes: seq<nat>,
                                dup: set<Edge>, toSplit: set<Edge>, oldAdj: seq<set<nat>>, newAdj: seq<set<nat>>,
                                ghost vertices: seq<T>, ghost sv: seq<T>)
    returns (si': seq<nat>, newAdj': seq<set<nat>>)
    requires Contiguous(starts, sizes, |indices|) && RunsInBounds(starts, sizes, |indices|)
    requires IndicesBelow(indices, |vertices|) && |oldAdj| == |vertices| && Adjacency(oldAdj, indices, starts, sizes)
    requires EdgesBelow(dup, |vertices|)
    requires PositionsKept(vertices, indices, sv, si) && |newAdj| == |sv| && FacesBelowCount(newAdj, |starts|)
    ensures PositionsKept(vertices, indices, sv, si') && |newAdj'| == |sv| && FacesBelowCount(newAdj', |starts|)
    ensures (si', newAdj') == MergeEdges(dup - toSplit, (si, newAdj), indices, starts, sizes, oldAdj)
    ensures dup <= toSplit ==> si' == si && newAdj' == newAdj
  {
    si', newAdj' := si, newAdj;
    var pending := dup - toSplit;
    while pending != {}
      invariant pending <= dup - toSplit
      invariant PositionsKept(vertices, indices, sv, si') && |newAdj'| == |sv| && FacesBelowCount(newAdj', |starts|)
      invariant MergeEdges(dup - toSplit, (si, newAdj), indices, starts, sizes, oldAdj)
             == MergeEdges(pending, (si', newAdj'), indices, starts, sizes, oldAdj)
      invariant dup <= toSplit ==> si' == si && newAdj' == newAdj
      decreases |pending|
    {
      var edge := FirstEdge(pending);
      MergeEdgesStep(pending, (si', newAdj'), indices, starts, sizes, oldAdj, edge);
      si', newAdj' := MergeEdgeAt(edge, si', newAdj', indices, starts, sizes, oldAdj, vertices, sv);
      pending := pending - {edge};
    }
  }

  // ---------------------------------------------------------------------
  // Removing loose vertices

  predicate StrictlyIncreasing(s: seq<nat>) {
    forall p, q :: 0 <= p < q < |s| ==> s[p] < s[q]
  }

  lemma {:induction false} IncreasingAtLeast(s: seq<nat>, j: nat)
    requires StrictlyIncreasing(s) && j < |s|
    ensures s[j] >= j
  {
    if j > 0 {
      IncreasingAtLeast(s, j - 1);
    }
  }

  /** Where every vertex below `n` is kept, in ascending order, each is kept at its own place. */
  lemma {:induction false} KeptInPlace(kept: seq<nat>, oldToNew: seq<nat>, n: nat, x: nat)
    requires StrictlyIncreasing(kept) && |oldToNew| == n && x < n
    requires forall y :: 0 <= y < n ==> oldToNew[y] < |kept| && kept[oldToNew[y]] == y
    ensures oldToNew[x] == x
    decreases x
  {
    forall y | 0 <= y < x ensures oldToNew[y] == y {
      KeptInPlace(kept, oldToNew, n, y);
    }
    var p := oldToNew[x];
    IncreasingAtLeast(kept, p);
    // A place below `x` is taken by the vertex of that index already.
    assert p < x ==> kept[oldToNew[p]] == p && oldToNew[p] == p;
  }

  lemma KeptAll(kept: seq<nat>, oldToNew: seq<nat>, n: nat)
    requires StrictlyIncreasing(kept) && |oldToNew| == n
    requires forall j :: 0 <= j < |kept| ==> kept[j] < n
    requires forall y :: 0 <= y < n ==> oldToNew[y] < |kept| && kept[oldToNew[y]] == y
    ensures |kept| == n && forall j :: 0 <= j < n ==> kept[j] == j && oldToNew[j] == j
  {
    forall y | 0 <= y < n ensures oldToNew[y] == y {
      KeptInPlace(kept, oldToNew, n, y);
    }
    if |kept| > 0 {
      IncreasingAtLeast(kept, |kept| - 1);
    }
    if n > 0 {
      assert oldToNew[n - 1] < |kept|;
    }
    forall j | 0 <= j < n ensures kept[j] == j {
      assert kept[oldToNew[j]] == j;
    }
  }

  /** The elements of a set in ascending order: the order a `BTreeSet` iterates in. */
  ghost function Ascending(s: set<nat>): (r: seq<nat>)
    ensures |r| == |s| && StrictlyIncreasing(r)
    ensures forall p :: 0 <= p < |r| ==> r[p] in s
    decreases |s|
  {
    if s == {} then []
    else
      var m := SetMin(s);
      var rest := Ascending(s - {m});
      assert forall p :: 0 <= p < |rest| ==> m < rest[p] by {
        forall p | 0 <= p < |rest| ensures m < rest[p] {
          assert rest[p] in s - {m};
        }
      }
      [m] + rest
  }

  /** An ascending walk visits every element. */
  lemma {:induction false} AscendingHolds(s: set<nat>, x: nat)
    requires x in s
    ensures x in Ascending(s)
    decreases |s|
  {
    var m := SetMin(s);
    if x != m {
      AscendingHolds(s - {m}, x);
    }
  }

  /** An ascending walk starts at the least element. */
  lemma AscendingStep(s: set<nat>, m: nat)
    requires s != {} && m == SetMin(s)
    ensures Ascending(s) == [m] + Ascending(s - {m})
  {
  }

  /** The indices the slots use (`vertex_indices` collected into a `BTreeSet`). */
  ghost function UsedIndices(si: seq<nat>): set<nat> {
    set k | 0 <= k < |si| :: si[k]
  }

  /**
   * `remove_loose_vertices`: the used vertices in ascending order of their
   * index, and every slot renumbered to its vertex's place among them.
   */
  ghost function RemoveLoose<T>(vertices: seq<T>, si: seq<nat>): (r: (seq<T>, seq<nat>))
    requires IndicesBelow(si, |vertices|)
  {
    var kept := Ascending(UsedIndices(si));
    assert forall j :: 0 <= j < |kept| ==> kept[j] < |vertices| by {
      forall j | 0 <= j < |kept| ensures kept[j] < |vertices| {
        assert kept[j] in si;
      }
    }
    assert forall k :: 0 <= k < |si| ==> si[k] in kept by {
      forall k | 0 <= k < |si| ensures si[k] in kept {
        AscendingHolds(UsedIndices(si), si[k]);
      }
    }
    (seq(|kept|, (j: nat) requires j < |kept| => vertices[kept[j]]),
     seq(|si|, (k: nat) requires k < |si| => FirstPosition(kept, si[k])))
  }

  lemma ConcatAssoc(a: seq<nat>, b: seq<nat>, c: seq<nat>)
    ensures a + (b + c) == (a + b) + c
  {
  }

  /** In a strictly increasing sequence the first position of an element is its only one. */
  lemma IncreasingPosition(s: seq<nat>, p: nat)
    requires StrictlyIncreasing(s) && p < |s|
    ensures FirstPosition(s, s[p]) == p
  {
  }

  /**
   * The used indices in ascending order (`kept`), and for each of them its
   * place in that order (`oldToNew`); unused positions map to 0.
   */
  method RankUsed(used: set<nat>, n: nat) returns (kept: seq<nat>, oldToNew: seq<nat>)
    requires forall x :: x in used ==> x < n
    ensures |oldToNew| == n && kept == Ascending(used) && StrictlyIncreasing(kept)
    ensures forall j :: 0 <= j < |kept| ==> kept[j] in used && oldToNew[kept[j]] == j
    ensures forall x :: x in used ==> oldToNew[x] < |kept| && kept[oldToNew[x]] == x
  {
    oldToNew := seq(n, _ => 0);
    kept := [];
    var remaining := used;
    while remaining != {}
      invariant remaining <= used && |oldToNew| == n
      invariant Ascending(used) == kept + Ascending(remaining)
      invariant forall j :: 0 <= j < |kept| ==> kept[j] in used && kept[j] !in remaining && oldToNew[kept[j]] == j
      invariant forall x :: x in used && x !in remaining ==> oldToNew[x] < |kept| && kept[oldToNew[x]] == x
      decreases |remaining|
    {
      var index := Least(remaining);
      AscendingStep(remaining, index);
      ConcatAssoc(kept, [index], Ascending(remaining - {index}));
      oldToNew := oldToNew[index := |kept|];
      kept := kept + [index];
      remaining := remaining - {index};
    }
  }

  /** The buffers built from the ranking of the used indices are those `RemoveLoose` states. */
  lemma RemoveLooseFrom<T>(vertices: seq<T>, si: seq<nat>, kept: seq<nat>, oldToNew: seq<nat>, nv: seq<T>, ni: seq<nat>)
    requires IndicesBelow(si, |vertices|) && kept == Ascending(UsedIndices(si)) && |oldToNew| == |vertices|
    requires forall x :: x in UsedIndices(si) ==> oldToNew[x] < |kept| && kept[oldToNew[x]] == x
    requires |nv| == |kept| && forall j :: 0 <= j < |kept| ==> kept[j] < |vertices| && nv[j] == vertices[kept[j]]
    requires |ni| == |si| && forall k :: 0 <= k < |si| ==> ni[k] == oldToNew[si[k]]
    ensures (nv, ni) == RemoveLoose(vertices, si)
  {
    var r := RemoveLoose(vertices, si);
    forall k | 0 <= k < |si| ensures ni[k] == r.1[k] {
      assert si[k] in UsedIndices(si);
      IncreasingPosition(kept, oldToNew[si[k]]);
    }
    assert nv == r.0 by {
      assert |nv| == |r.0| && forall j :: 0 <= j < |nv| ==> nv[j] == r.0[j];
    }
    assert ni == r.1;
  }

  /** `remove_loose_vertices`, as `RemoveLoose` states. */
  method RemoveLooseVertices<T>(vertices: seq<T>, si: seq<nat>) returns (nv: seq<T>, ni: seq<nat>)
    requires IndicesBelow(si, |vertices|)
    ensures (nv, ni) == RemoveLoose(vertices, si)
  {
    // Collect unique indices in sorted order.
    var used := set k | 0 <= k < |si| :: si[k];
    assert used == UsedIndices(si);
    var kept, oldToNew := RankUsed(used, |vertices|);
    // Map indices to a consecutive range to remove unused vertices.
    nv := seq(|kept|, (j: nat) requires j < |kept| => vertices[kept[j]]);
    ni := seq(|si|, (k: nat) requires k < |si| => oldToNew[si[k]]);
    RemoveLooseFrom(vertices, si, kept, oldToNew, nv, ni);
  }

  /**
   * Every slot still shows the vertex it showed, and every kept vertex is
   * used by some slot: no vertex is left loose.
   */
  lemma RemoveLooseKeeps<T>(vertices: seq<T>, si: seq<nat>)
    requires IndicesBelow(si, |vertices|)
    ensures var r := RemoveLoose(vertices, si);
            && |r.1| == |si|
            && (forall k :: 0 <= k < |si| ==> r.1[k] < |r.0| && r.0[r.1[k]] == vertices[si[k]])
            && (forall j :: 0 <= j < |r.0| ==> j in r.1)
  {
    var kept := Ascending(UsedIndices(si));
    var r := RemoveLoose(vertices, si);
    forall j | 0 <= j < |r.0| ensures j in r.1 {
      assert kept[j] in si;
      var k :| 0 <= k < |si| && si[k] == kept[j];
      IncreasingPosition(kept, j);
      assert r.1[k] == j;
    }
  }

  /** Renumbering keeps the order of the indices: a slot's index is below another's exactly when it was. */
  lemma RemoveLooseOrder<T>(vertices: seq<T>, si: seq<nat>)
    requires IndicesBelow(si, |vertices|)
    ensures var r := RemoveLoose(vertices, si);
            forall k, m :: 0 <= k < |si| && 0 <= m < |si| ==> (si[k] < si[m] <==> r.1[k] < r.1[m])
  {
    var kept := Ascending(UsedIndices(si));
    var r := RemoveLoose(vertices, si);
    forall k, m | 0 <= k < |si| && 0 <= m < |si| ensures si[k] < si[m] <==> r.1[k] < r.1[m] {
      assert kept[r.1[k]] == si[k] && kept[r.1[m]] == si[m];
    }
  }

  /** When every vertex is used, the used indices in ascending order are 0, 1, 2, ... */
  lemma AllUsedAscending(n: nat, si: seq<nat>)
    requires IndicesBelow(si, n) && forall v :: 0 <= v < n ==> v in si
    ensures var kept := Ascending(UsedIndices(si));
            |kept| == n && forall j :: 0 <= j < n ==> kept[j] == j
  {
    var kept := Ascending(UsedIndices(si));
    forall y | 0 <= y < n ensures y in kept {
      assert y in si;
      var k :| 0 <= k < |si| && si[k] == y;
      assert y in UsedIndices(si);
      AscendingHolds(UsedIndices(si), y);
    }
    forall j | 0 <= j < |kept| ensures kept[j] < n {
      assert kept[j] in UsedIndices(si);
    }
    var oldToNew := seq(n, (y: nat) requires y < n => FirstPosition(kept, y));
    KeptAll(kept, oldToNew, n);
  }

  /**
   * When the slots use exactly the vertices below `n`, the vertices from
   * `n` on are removed and no index changes.
   */
  lemma RemoveLoosePrefix<T>(vertices: seq<T>, si: seq<nat>, n: nat)
    requires n <= |vertices| && IndicesBelow(si, n)
    requires forall v :: 0 <= v < n ==> v in si
    ensures RemoveLoose(vertices, si) == (vertices[..n], si)
  {
    var kept := Ascending(UsedIndices(si));
    var r := RemoveLoose(vertices, si);
    AllUsedAscending(n, si);
    forall k | 0 <= k < |si| ensures r.1[k] == si[k] {
      IncreasingPosition(kept, si[k]);
    }
    assert r.0 == vertices[..n] by {
      assert |r.0| == n && forall j :: 0 <= j < n ==> r.0[j] == vertices[j];
    }
    assert r.1 == si;
  }

  /** When every vertex is used, nothing is removed and no index changes. */
  lemma RemoveLooseAllUsed<T>(vertices: seq<T>, si: seq<nat>)
    requires IndicesBelow(si, |vertices|)
    requires forall v :: 0 <= v < |vertices| ==> v in si
    ensures RemoveLoose(vertices, si) == (vertices, si)
  {
    RemoveLoosePrefix(vertices, si, |vertices|);
    assert vertices[..|vertices|] == vertices;
  }

  // ---------------------------------------------------------------------
  // The whole pass

  lemma {:induction false} FaceSharpEdgesBelow(f: nat, corners: nat, indices: seq<nat>, starts: seq<nat>, sizes: seq<nat>,
                                               adj: seq<set<nat>>, sharp: (nat, nat) -> bool)
    requires f < |starts| && RunsInBounds(starts, sizes, |indices|) && IndicesBelow(indices, |adj|)
    ensures EdgesBelow(FaceSharpEdges(f, corners, indices, starts, sizes, adj, sharp), |adj|)
    decreases corners
  {
    if corners > 0 {
      FaceSharpEdgesBelow(f, corners - 1, indices, starts, sizes, adj, sharp);
    }
  }

  /** The sharp edges join vertices of the mesh. */
  lemma {:induction false} SharpEdgesBelow(upto: nat, indices: seq<nat>, starts: seq<nat>, sizes: seq<nat>,
                                           adj: seq<set<nat>>, sharp: (nat, nat) -> bool)
    requires upto <= |starts| && RunsInBounds(starts, sizes, |indices|) && IndicesBelow(indices, |adj|)
    ensures EdgesBelow(SharpEdges(upto, indices, starts, sizes, adj, sharp), |adj|)
    decreases upto
  {
    if upto > 0 {
      SharpEdgesBelow(upto - 1, indices, starts, sizes, adj, sharp);
      FaceSharpEdgesBelow(upto - 1, sizes[upto - 1], indices, starts, sizes, adj, sharp);
    }
  }

  lemma {:induction false} NoFaceSharpEdges(f: nat, corners: nat, indices: seq<nat>, starts: seq<nat>, sizes: seq<nat>,
                                            adj: seq<set<nat>>, sharp: (nat, nat) -> bool)
    requires f < |starts| && RunsInBounds(starts, sizes, |indices|) && IndicesBelow(indices, |adj|)
    requires forall f0, f1 :: !sharp(f0, f1)
    ensures FaceSharpEdges(f, corners, indices, starts, sizes, adj, sharp) == {}
    decreases corners
  {
    if corners > 0 {
      NoFaceSharpEdges(f, corners - 1, indices, starts, sizes, adj, sharp);
    }
  }

  /** A normal test that never fires marks no edge. */
  lemma {:induction false} NoSharpEdges(upto: nat, indices: seq<nat>, starts: seq<nat>, sizes: seq<nat>,
                                        adj: seq<set<nat>>, sharp: (nat, nat) -> bool)
    requires upto <= |starts| && RunsInBounds(starts, sizes, |indices|) && IndicesBelow(indices, |adj|)
    requires forall f0, f1 :: !sharp(f0, f1)
    ensures SharpEdges(upto, indices, starts, sizes, adj, sharp) == {}
    decreases upto
  {
    if upto > 0 {
      NoSharpEdges(upto - 1, indices, starts, sizes, adj, sharp);
      NoFaceSharpEdges(upto - 1, sizes[upto - 1], indices, starts, sizes, adj, sharp);
    }
  }

  /** `adjacent_faces` records exactly the faces that use each vertex. */
  lemma AdjacencyOfHolds(numVertices: nat, indices: seq<nat>, starts: seq<nat>, sizes: seq<nat>)
    requires RunsInBounds(starts, sizes, |indices|)
    ensures |AdjacencyOf(numVertices, indices, starts, sizes)| == numVertices
    ensures Adjacency(AdjacencyOf(numVertices, indices, starts, sizes), indices, starts, sizes)
  {
  }

  /** The vertices on the marked edges: both end points of each. */
  ghost function EndPoints(toSplit: set<Edge>): set<nat> {
    (set e | e in toSplit :: e.lo) + (set e | e in toSplit :: e.hi)
  }

  /**
   * The middle of `split_edges`: the end points of the marked edges are
   * split per face (`SplitVertices`), the adjacency of the split mesh is
   * computed, and the recorded edges that were not marked are merged back
   * (`MergeEdges`).
   */
  ghost function SplitMerge<T>(vertices: seq<T>, indices: seq<nat>, starts: seq<nat>, sizes: seq<nat>,
                               toSplit: set<Edge>, oldAdj: seq<set<nat>>): (r: (seq<T>, seq<nat>))
    requires Contiguous(starts, sizes, |indices|) && RunsInBounds(starts, sizes, |indices|)
    requires IndicesBelow(indices, |vertices|) && EdgesBelow(toSplit, |vertices|)
    requires |oldAdj| == |vertices| && Adjacency(oldAdj, indices, starts, sizes)
    ensures |r.1| == |indices| && IndicesBelow(r.1, |r.0|)
  {
    var marked := EndPoints(toSplit);
    SplitFaceVertsState(vertices, indices, starts, sizes, oldAdj, marked);
    var split := SplitVertices(marked, (vertices, indices, {}), indices, starts, sizes, oldAdj);
    var newAdj := AdjacencyOf(|split.0|, split.1, starts, sizes);
    (split.0, MergeEdges(split.2 - toSplit, (split.1, newAdj), indices, starts, sizes, oldAdj).0)
  }

  /**
   * The middle of `split_edges`, as `SplitMerge` states: every slot still
   * shows the position of its original vertex, and with nothing marked
   * nothing changes.
   */
  method SplitAndMerge<T>(vertices: seq<T>, indices: seq<nat>, starts: seq<nat>, sizes: seq<nat>,
                          toSplit: set<Edge>, oldAdj: seq<set<nat>>)
    returns (sv: seq<T>, si: seq<nat>)
    requires Contiguous(starts, sizes, |indices|) && RunsInBounds(starts, sizes, |indices|)
    requires IndicesBelow(indices, |vertices|) && EdgesBelow(toSplit, |vertices|)
    requires |oldAdj| == |vertices| && Adjacency(oldAdj, indices, starts, sizes)
    ensures (sv, si) == SplitMerge(vertices, indices, starts, sizes, toSplit, oldAdj)
    ensures PositionsKept(vertices, indices, sv, si)
    ensures toSplit == {} ==> sv == vertices && si == indices
  {
    // Mark any vertices on an edge to split for duplication.
    var marked := (set e | e in toSplit :: e.lo) + (set e | e in toSplit :: e.hi);
    assert marked == EndPoints(toSplit);
    var dup;
    sv, si, dup := SplitFaceVerts(vertices, indices, starts, sizes, oldAdj, marked);
    SplitFaceVertsState(vertices, indices, starts, sizes, oldAdj, marked);
    // Keep track of the new vertex adjacency while merging edges.
    var newAdj := AdjacentFaces(|sv|, si, starts, sizes);
    si, newAdj := MergeDuplicateEdges(si, indices, starts, sizes, dup, toSplit, oldAdj, newAdj, vertices, sv);
  }

  /** The edges the caller asks to split, each as an `UndirectedEdge`. */
  function GivenEdges(edgesToSplit: seq<(nat, nat)>): set<Edge> {
    set p | p in edgesToSplit :: NewEdge(p.0, p.1)
  }

  /**
   * What `split_edges` computes: the marked edges are the given ones and
   * the sharp ones; the mesh is split and merged as `SplitMerge` states,
   * then the loose vertices are removed.
   */
  ghost function SplitEdgesSpec<T>(vertices: seq<T>, indices: seq<nat>, starts: seq<nat>, sizes: seq<nat>,
                                   edgesToSplit: seq<(nat, nat)>, sharp: (nat, nat) -> bool): (seq<T>, seq<nat>)
    requires Contiguous(starts, sizes, |indices|) && RunsInBounds(starts, sizes, |indices|)
    requires IndicesBelow(indices, |vertices|)
    requires forall p :: p in edgesToSplit ==> p.0 < |vertices| && p.1 < |vertices|
  {
    var oldAdj := AdjacencyOf(|vertices|, indices, starts, sizes);
    AdjacencyOfHolds(|vertices|, indices, starts, sizes);
    SharpEdgesBelow(|starts|, indices, starts, sizes, oldAdj, sharp);
    var toSplit := GivenEdges(edgesToSplit)
                   + SharpEdges(|starts|, indices, starts, sizes, oldAdj, sharp);
    var m := SplitMerge(vertices, indices, starts, sizes, toSplit, oldAdj);
    RemoveLoose(m.0, m.1)
  }

  /**
   * `split_edges`: splits the given edges and the sharp ones (`sharp` is
   * the normal-angle test on two faces), as `SplitEdgesSpec` states. Every
   * slot still shows the position it showed, no vertex is left unused, and
   * a mesh with nothing to split whose vertices are all used comes back
   * unchanged.
   */
  method SplitEdges<T>(vertices: seq<T>, indices: seq<nat>, starts: seq<nat>, sizes: seq<nat>,
                       edgesToSplit: seq<(nat, nat)>, sharp: (nat, nat) -> bool)
    returns (nv: seq<T>, ni: seq<nat>)
    requires Contiguous(starts, sizes, |indices|) && RunsInBounds(starts, sizes, |indices|)
    requires IndicesBelow(indices, |vertices|)
    requires forall p :: p in edgesToSplit ==> p.0 < |vertices| && p.1 < |vertices|
    ensures (nv, ni) == SplitEdgesSpec(vertices, indices, starts, sizes, edgesToSplit, sharp)
    ensures |ni| == |indices|
    ensures forall k :: 0 <= k < |indices| ==> ni[k] < |nv| && nv[ni[k]] == vertices[indices[k]]
    ensures forall j :: 0 <= j < |nv| ==> j in ni
    ensures && |edgesToSplit| == 0
            && SharpEdges(|starts|, indices, starts, sizes, AdjacencyOf(|vertices|, indices, starts, sizes), sharp) == {}
            && (forall v :: 0 <= v < |vertices| ==> v in indices)
            ==> nv == vertices && ni == indices
  {
    var oldAdj := AdjacentFaces(|vertices|, indices, starts, sizes);
    var toSplit := GivenEdges(edgesToSplit);
    assert EdgesBelow(toSplit, |vertices|);
    // Find sharp edges based on an angle threshold.
    toSplit := AddSharpEdges(toSplit, indices, starts, sizes, oldAdj, sharp);
    SharpEdgesBelow(|starts|, indices, starts, sizes, oldAdj, sharp);
    var sv, si := SplitAndMerge(vertices, indices, starts, sizes, toSplit, oldAdj);
    // Reindex and keep only unique vertices to remove loose vertices.
    nv, ni := RemoveLooseVertices(sv, si);
    RemoveLooseKeeps(sv, si);
    if && |edgesToSplit| == 0
       && SharpEdges(|starts|, indices, starts, sizes, oldAdj, sharp) == {}
       && (forall v :: 0 <= v < |vertices| ==> v in indices) {
      RemoveLooseAllUsed(sv, si);
    }
  }
}

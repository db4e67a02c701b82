/**
 * The meshes of the tests in edge_split.rs and what `split_edges` gives
 * them. Those tests place vertex `i` at `Vec3::splat(i)`, so every face is
 * degenerate and its normal is NaN: the angle test never fires, which is
 * `NoSharp` here, and position `i` is written as the integer `i`.
 */
module EdgeSplitFixtures {
  import opened Wrappers
  import opened EdgeSplit

  /** A normal test that never finds two faces far enough apart. */
  const NoSharp: (nat, nat) -> bool := (f0: nat, f1: nat) => false

  // ---------------------------------------------------------------------
  // Evaluating the model on given meshes

  lemma {:induction false} TotalUniform(sizes: seq<nat>, w: nat, f: nat)
    requires f <= |sizes| && forall g :: 0 <= g < |sizes| ==> sizes[g] == w
    ensures Total(sizes[..f]) == w * f
    decreases f
  {
    if f > 0 {
      TotalUniform(sizes, w, f - 1);
      assert sizes[..f][..f - 1] == sizes[..f - 1];
      assert w * f == w * (f - 1) + w;
    }
  }

  /** Faces of `w` corners each, laid out back to back. */
  lemma UniformLayout(starts: seq<nat>, sizes: seq<nat>, n: nat, w: nat)
    requires |starts| == |sizes| && n == w * |sizes|
    requires forall g :: 0 <= g < |sizes| ==> sizes[g] == w && starts[g] == w * g
    ensures Contiguous(starts, sizes, n) && RunsInBounds(starts, sizes, n)
  {
    forall g | 0 <= g < |starts| ensures starts[g] == Total(sizes[..g]) {
      TotalUniform(sizes, w, g);
    }
    TotalUniform(sizes, w, |sizes|);
    assert sizes[..|sizes|] == sizes;
    ContiguousRuns(starts, sizes, n);
  }

  /** Vertex `v` is on face `f` exactly when it is in the face's run. */
  lemma OnFaceIn(v: nat, f: nat, indices: seq<nat>, starts: seq<nat>, sizes: seq<nat>)
    requires f < |starts| && RunsInBounds(starts, sizes, |indices|)
    ensures OnFace(v, f, indices, starts, sizes) <==> v in FaceIndices(f, indices, starts, sizes)
  {
    if v in FaceIndices(f, indices, starts, sizes) {
      var j :| 0 <= j < sizes[f] && FaceIndices(f, indices, starts, sizes)[j] == v;
      assert indices[starts[f] + j] == v;
    }
  }

  /** The faces recorded for `v` are the faces whose run holds it. */
  lemma FacesOf(v: nat, indices: seq<nat>, starts: seq<nat>, sizes: seq<nat>, faces: set<nat>)
    requires RunsInBounds(starts, sizes, |indices|)
    requires forall f :: f in faces ==> f < |starts|
    requires forall f :: 0 <= f < |starts| ==> (f in faces <==> v in FaceIndices(f, indices, starts, sizes))
    ensures FacesBelow(v, |starts|, indices, starts, sizes) == faces
  {
    forall f | 0 <= f < |starts| {
      OnFaceIn(v, f, indices, starts, sizes);
    }
  }

  /** The adjacency of a mesh is `adj` when each vertex's set holds exactly the faces using it. */
  lemma AdjacencyIs(numVertices: nat, indices: seq<nat>, starts: seq<nat>, sizes: seq<nat>, adj: seq<set<nat>>)
    requires RunsInBounds(starts, sizes, |indices|) && |adj| == numVertices
    requires forall v, f :: 0 <= v < |adj| && f in adj[v] ==> f < |starts|
    requires forall v, f :: 0 <= v < |adj| && 0 <= f < |starts| ==>
      (f in adj[v] <==> v in FaceIndices(f, indices, starts, sizes))
    ensures AdjacencyOf(numVertices, indices, starts, sizes) == adj
    ensures Adjacency(adj, indices, starts, sizes)
  {
    forall v | 0 <= v < numVertices
      ensures AdjacencyOf(numVertices, indices, starts, sizes)[v] == adj[v]
    {
      FacesOf(v, indices, starts, sizes, adj[v]);
    }
    AdjacencyOfHolds(numVertices, indices, starts, sizes);
  }

  /** `SetMin` of a set is any element no larger than the others. */
  lemma SetMinIs(s: set<nat>, m: nat)
    requires m in s && forall x :: x in s ==> m <= x
    ensures SetMin(s) == m
  {
  }

  /** The first two elements of a two-element set. */
  lemma FirstTwoOfPair(f0: nat, f1: nat)
    requires f0 < f1
    ensures FirstTwo({f0, f1}) == Some((f0, f1))
  {
    SetMinIs({f0, f1}, f0);
    assert {f0, f1} - {f0} == {f1};
    SetMinIs({f1}, f1);
  }

  /** No slot from `k` to `end` holds `v`: nothing is copied. */
  lemma {:induction false} CopyNone<T>(sv: seq<T>, si: seq<nat>, v: nat, k: nat, end: nat)
    requires v < |sv| && k <= end <= |si|
    requires forall i :: k <= i < end ==> si[i] != v
    ensures CopySlots(sv, si, v, k, end) == (sv, si)
    decreases end - k
  {
    if k < end {
      CopyNone(sv, si, v, k + 1, end);
    }
  }

  /** Exactly slot `j` from `k` to `end` holds `v`: it gets the one new copy. */
  lemma {:induction false} CopyOnly<T>(sv: seq<T>, si: seq<nat>, v: nat, k: nat, end: nat, j: nat)
    requires v < |sv| && k <= j < end <= |si| && si[j] == v
    requires forall i :: k <= i < end && i != j ==> si[i] != v
    ensures CopySlots(sv, si, v, k, end) == (sv + [sv[v]], si[j := |sv|])
    decreases end - k
  {
    if k == j {
      CopyNone(sv + [sv[v]], si[j := |sv|], v, k + 1, end);
    } else {
      CopyOnly(sv, si, v, k + 1, end, j);
    }
  }

  /** The edges at the first occurrence `i` of `v` in a face. */
  lemma IncidentEdgesIs(face: seq<nat>, v: nat, i: nat)
    requires i < |face| && face[i] == v && v !in face[..i]
    ensures FindIncidentEdges(face, v)
         == (NewEdge(v, face[if i > 0 then i - 1 else |face| - 1]), NewEdge(v, face[if i + 1 < |face| then i + 1 else 0]))
  {
    FirstPositionUnique(face, v, i);
  }

  /** The first face of `v` keeps it; its two edges at `v` are recorded. */
  lemma VisitFirstFace<T>(st: SplitAcc<T>, v: nat, f: nat, indices: seq<nat>, starts: seq<nat>, sizes: seq<nat>,
                          i: nat, e0: Edge, e1: Edge)
    requires RunsInBounds(starts, sizes, |indices|) && f < |starts|
    requires v < |st.0| && |st.1| == |indices|
    requires var face := FaceIndices(f, indices, starts, sizes);
             && i < |face| && face[i] == v && v !in face[..i]
             && e0 == NewEdge(v, face[if i > 0 then i - 1 else |face| - 1])
             && e1 == NewEdge(v, face[if i + 1 < |face| then i + 1 else 0])
    ensures v in FaceIndices(f, indices, starts, sizes)
    ensures VisitFace(true, st, v, f, indices, starts, sizes) == (st.0, st.1, st.2 + {e0, e1})
  {
    IncidentEdgesIs(FaceIndices(f, indices, starts, sizes), v, i);
  }

  /** A later face of `v` whose run holds it in slot `j` only: that slot gets a new copy. */
  lemma VisitLaterFace<T>(st: SplitAcc<T>, v: nat, f: nat, indices: seq<nat>, starts: seq<nat>, sizes: seq<nat>,
                          i: nat, e0: Edge, e1: Edge, j: nat)
    requires RunsInBounds(starts, sizes, |indices|) && f < |starts|
    requires v < |st.0| && |st.1| == |indices|
    requires var face := FaceIndices(f, indices, starts, sizes);
             && i < |face| && face[i] == v && v !in face[..i]
             && e0 == NewEdge(v, face[if i > 0 then i - 1 else |face| - 1])
             && e1 == NewEdge(v, face[if i + 1 < |face| then i + 1 else 0])
    requires InRun(starts, sizes, f, j) && st.1[j] == v
    requires forall k: nat :: InRun(starts, sizes, f, k) && k != j ==> st.1[k] != v
    ensures v in FaceIndices(f, indices, starts, sizes)
    ensures VisitFace(false, st, v, f, indices, starts, sizes) == (st.0 + [st.0[v]], st.1[j := |st.0|], st.2 + {e0, e1})
  {
    IncidentEdgesIs(FaceIndices(f, indices, starts, sizes), v, i);
    CopyOnly(st.0, st.1, v, starts[f], starts[f] + sizes[f], j);
  }

  /** The index face `f` gives `v`, found at the first slot of `v` in its original run. */
  lemma FoundIs(v: nat, f: nat, oldIndices: seq<nat>, newIndices: seq<nat>, starts: seq<nat>, sizes: seq<nat>, i: nat)
    requires RunsInBounds(starts, sizes, |oldIndices|) && |newIndices| == |oldIndices| && f < |starts|
    requires var face := FaceIndices(f, oldIndices, starts, sizes); i < |face| && face[i] == v && v !in face[..i]
    ensures v in FaceIndices(f, oldIndices, starts, sizes)
    ensures FindOldVertexInFace(v, f, oldIndices, newIndices, starts, sizes) == newIndices[starts[f] + i]
  {
    FirstPositionUnique(FaceIndices(f, oldIndices, starts, sizes), v, i);
  }

  /** What the face loop of `split_face_verts` needs of its state, in one fact. */
  ghost predicate FaceLoopReady<T>(v: nat, pending: set<nat>, st: SplitAcc<T>, indices: seq<nat>, starts: seq<nat>, sizes: seq<nat>) {
    && RunsInBounds(starts, sizes, |indices|) && FacesHold(v, pending, indices, starts, sizes)
    && v < |st.0| && |st.1| == |indices|
  }

  /** `v` is the least element of `s`. */
  predicate LeastOf(v: nat, s: set<nat>) {
    v in s && forall x :: x in s ==> v <= x
  }

  /** Visiting the least pending face first, when that visit is known. */
  lemma VisitLeast<T>(v: nat, pending: set<nat>, first: bool, st: SplitAcc<T>, indices: seq<nat>, starts: seq<nat>,
                      sizes: seq<nat>, f: nat, next: SplitAcc<T>)
    requires FaceLoopReady(v, pending, st, indices, starts, sizes)
    requires f in pending && forall x :: x in pending ==> f <= x
    requires VisitFace(first, st, v, f, indices, starts, sizes) == next
    ensures FaceLoopReady(v, pending - {f}, next, indices, starts, sizes)
    ensures SplitFaces(v, pending, first, st, indices, starts, sizes)
         == SplitFaces(v, pending - {f}, false, next, indices, starts, sizes)
  {
    SetMinIs(pending, f);
    SplitFacesStep(v, pending, first, st, indices, starts, sizes, f);
  }

  /** `VisitLeast`, with the pending faces after `f` given as `rest`. */
  lemma VisitLeastInto<T>(v: nat, pending: set<nat>, rest: set<nat>, first: bool, st: SplitAcc<T>, indices: seq<nat>,
                          starts: seq<nat>, sizes: seq<nat>, f: nat, next: SplitAcc<T>)
    requires FaceLoopReady(v, pending, st, indices, starts, sizes) && LeastOf(f, pending) && pending - {f} == rest
    requires VisitFace(first, st, v, f, indices, starts, sizes) == next
    ensures FaceLoopReady(v, rest, next, indices, starts, sizes)
    ensures SplitFaces(v, pending, first, st, indices, starts, sizes) == SplitFaces(v, rest, false, next, indices, starts, sizes)
  {
    VisitLeast(v, pending, first, st, indices, starts, sizes, f, next);
  }

  /** The face loop over its last face. */
  lemma SplitOneFace<T>(v: nat, f: nat, first: bool, indices: seq<nat>, starts: seq<nat>, sizes: seq<nat>,
                        st: SplitAcc<T>, next: SplitAcc<T>)
    requires FaceLoopReady(v, {f}, st, indices, starts, sizes)
    requires VisitFace(first, st, v, f, indices, starts, sizes) == next
    ensures SplitFaces(v, {f}, first, st, indices, starts, sizes) == next
  {
    assert {f} - {f} == {};
    assert LeastOf(f, {f});
    VisitLeastInto(v, {f}, {}, first, st, indices, starts, sizes, f, next);
  }

  /** The face loop over its last two faces, visited in ascending order. */
  lemma SplitTwoFaces<T>(v: nat, f0: nat, f1: nat, first: bool, indices: seq<nat>, starts: seq<nat>,
                         sizes: seq<nat>, st0: SplitAcc<T>, st1: SplitAcc<T>, st2: SplitAcc<T>)
    requires FaceLoopReady(v, {f0, f1}, st0, indices, starts, sizes) && f0 < f1
    requires VisitFace(first, st0, v, f0, indices, starts, sizes) == st1
    requires VisitFace(false, st1, v, f1, indices, starts, sizes) == st2
    ensures SplitFaces(v, {f0, f1}, first, st0, indices, starts, sizes) == st2
  {
    assert {f0, f1} - {f0} == {f1} by {
      assert forall x :: x in {f0, f1} - {f0} <==> x == f1;
    }
    assert LeastOf(f0, {f0, f1});
    VisitLeastInto(v, {f0, f1}, {f1}, first, st0, indices, starts, sizes, f0, st1);
    SplitOneFace(v, f1, false, indices, starts, sizes, st1, st2);
  }

  /** The face loop of a vertex on three faces, visited in ascending order. */
  lemma SplitThreeFaces<T>(v: nat, f0: nat, f1: nat, f2: nat, first: bool, indices: seq<nat>, starts: seq<nat>,
                           sizes: seq<nat>, st0: SplitAcc<T>, st1: SplitAcc<T>, st2: SplitAcc<T>, st3: SplitAcc<T>)
    requires FaceLoopReady(v, {f0, f1, f2}, st0, indices, starts, sizes) && f0 < f1 < f2
    requires VisitFace(first, st0, v, f0, indices, starts, sizes) == st1
    requires VisitFace(false, st1, v, f1, indices, starts, sizes) == st2
    requires VisitFace(false, st2, v, f2, indices, starts, sizes) == st3
    ensures SplitFaces(v, {f0, f1, f2}, first, st0, indices, starts, sizes) == st3
  {
    assert {f0, f1, f2} - {f0} == {f1, f2} by {
      assert forall x :: x in {f0, f1, f2} - {f0} <==> x == f1 || x == f2;
    }
    assert LeastOf(f0, {f0, f1, f2});
    VisitLeastInto(v, {f0, f1, f2}, {f1, f2}, first, st0, indices, starts, sizes, f0, st1);
    SplitTwoFaces(v, f1, f2, false, indices, starts, sizes, st1, st2, st3);
  }

  /** What the vertex loop of `split_face_verts` needs of its state, in one fact. */
  ghost predicate VertexLoopReady<T>(remaining: set<nat>, st: SplitAcc<T>, indices: seq<nat>, starts: seq<nat>,
                                     sizes: seq<nat>, adj: seq<set<nat>>) {
    && RunsInBounds(starts, sizes, |indices|) && Adjacency(adj, indices, starts, sizes)
    && (forall x :: x in remaining ==> x < |adj|) && |adj| <= |st.0| && |st.1| == |indices|
  }

  /** Splitting the least remaining vertex first, when its face loop is known. */
  lemma SplitLeast<T>(remaining: set<nat>, st: SplitAcc<T>, indices: seq<nat>, starts: seq<nat>, sizes: seq<nat>,
                      adj: seq<set<nat>>, v: nat, next: SplitAcc<T>)
    requires VertexLoopReady(remaining, st, indices, starts, sizes, adj)
    requires v in remaining && forall x :: x in remaining ==> v <= x
    requires v < |adj| && FaceLoopReady(v, adj[v], st, indices, starts, sizes)
    requires SplitFaces(v, adj[v], true, st, indices, starts, sizes) == next
    ensures VertexLoopReady(remaining - {v}, next, indices, starts, sizes, adj)
    ensures SplitVertices(remaining, st, indices, starts, sizes, adj)
         == SplitVertices(remaining - {v}, next, indices, starts, sizes, adj)
  {
    SetMinIs(remaining, v);
    SplitVerticesStep(remaining, st, indices, starts, sizes, adj, v);
  }

  /** `SplitLeast`, with the remaining vertices after `v` given as `rest`. */
  lemma SplitLeastInto<T>(remaining: set<nat>, rest: set<nat>, st: SplitAcc<T>, indices: seq<nat>, starts: seq<nat>,
                          sizes: seq<nat>, adj: seq<set<nat>>, v: nat, next: SplitAcc<T>)
    requires VertexLoopReady(remaining, st, indices, starts, sizes, adj) && LeastOf(v, remaining) && remaining - {v} == rest
    requires v < |adj| && FaceLoopReady(v, adj[v], st, indices, starts, sizes)
    requires SplitFaces(v, adj[v], true, st, indices, starts, sizes) == next
    ensures VertexLoopReady(rest, next, indices, starts, sizes, adj)
    ensures SplitVertices(remaining, st, indices, starts, sizes, adj) == SplitVertices(rest, next, indices, starts, sizes, adj)
  {
    SplitLeast(remaining, st, indices, starts, sizes, adj, v, next);
  }

  /** The vertex loop over two vertices: the lesser is split first. */
  lemma SplitFirstOfTwo<T>(v0: nat, v1: nat, indices: seq<nat>, starts: seq<nat>, sizes: seq<nat>,
                           adj: seq<set<nat>>, st0: SplitAcc<T>, st1: SplitAcc<T>)
    requires VertexLoopReady({v0, v1}, st0, indices, starts, sizes, adj) && v0 < v1
    requires FaceLoopReady(v0, adj[v0], st0, indices, starts, sizes)
    requires SplitFaces(v0, adj[v0], true, st0, indices, starts, sizes) == st1
    ensures VertexLoopReady({v1}, st1, indices, starts, sizes, adj)
    ensures SplitVertices({v0, v1}, st0, indices, starts, sizes, adj) == SplitVertices({v1}, st1, indices, starts, sizes, adj)
  {
    assert {v0, v1} - {v0} == {v1} by {
      assert forall x :: x in {v0, v1} - {v0} <==> x == v1;
    }
    assert LeastOf(v0, {v0, v1});
    SplitLeastInto({v0, v1}, {v1}, st0, indices, starts, sizes, adj, v0, st1);
  }

  /** What the edge loop of `merge_duplicate_edges` needs of its state, in one fact. */
  ghost predicate MergeReady(st: MergeAcc, indices: seq<nat>, starts: seq<nat>, sizes: seq<nat>, oldAdj: seq<set<nat>>) {
    && RunsInBounds(starts, sizes, |indices|) && Adjacency(oldAdj, indices, starts, sizes)
    && |st.0| == |indices| && IndicesBelow(st.0, |st.1|)
  }

  /** The end points of `e` are vertices of the mesh sharing exactly the faces `f0 < f1`. */
  predicate SharedBy(e: Edge, oldAdj: seq<set<nat>>, f0: nat, f1: nat) {
    e.lo < |oldAdj| && e.hi < |oldAdj| && oldAdj[e.lo] * oldAdj[e.hi] == {f0, f1} && f0 < f1
  }

  /** An edge whose end points shared fewer than two faces is not merged. */
  lemma MergeEdgeSkips(e: Edge, st: MergeAcc, indices: seq<nat>, starts: seq<nat>, sizes: seq<nat>, oldAdj: seq<set<nat>>)
    requires MergeReady(st, indices, starts, sizes, oldAdj)
    requires e.lo < |oldAdj| && e.hi < |oldAdj| && |oldAdj[e.lo] * oldAdj[e.hi]| < 2
    ensures RunsInBounds(starts, sizes, |indices|) && Adjacency(oldAdj, indices, starts, sizes)
    ensures MergeEdge(e, st, indices, starts, sizes, oldAdj) == st
  {
  }

  /** An edge whose end points shared exactly faces `f0 < f1` is merged across them. */
  lemma MergeEdgeMerges(e: Edge, st: MergeAcc, indices: seq<nat>, starts: seq<nat>, sizes: seq<nat>, oldAdj: seq<set<nat>>,
                        f0: nat, f1: nat)
    requires MergeReady(st, indices, starts, sizes, oldAdj) && SharedBy(e, oldAdj, f0, f1)
    ensures RunsInBounds(starts, sizes, |indices|) && Adjacency(oldAdj, indices, starts, sizes)
    ensures f0 < |starts| && f1 < |starts|
    ensures e.lo in FaceIndices(f0, indices, starts, sizes) && e.lo in FaceIndices(f1, indices, starts, sizes)
    ensures e.hi in FaceIndices(f0, indices, starts, sizes) && e.hi in FaceIndices(f1, indices, starts, sizes)
    ensures MergeEdge(e, st, indices, starts, sizes, oldAdj) == MergeVerts(e.lo, e.hi, f0, f1, indices, starts, sizes, st)
  {
    FirstTwoOfPair(f0, f1);
    AdjacentFaceHolds(e.lo, f0, indices, starts, sizes, oldAdj);
    AdjacentFaceHolds(e.lo, f1, indices, starts, sizes, oldAdj);
    AdjacentFaceHolds(e.hi, f0, indices, starts, sizes, oldAdj);
    AdjacentFaceHolds(e.hi, f1, indices, starts, sizes, oldAdj);
  }

  /** `EdgeMin` of a set is any edge that comes before the others. */
  lemma EdgeMinIs(s: set<Edge>, e: Edge)
    requires e in s && forall x :: x in s ==> EdgeBefore(e, x)
    ensures EdgeMin(s) == e
  {
    assert EdgeBefore(e, EdgeMin(s)) && EdgeBefore(EdgeMin(s), e);
  }

  /** `e` is the least of the pending edges, all of them edges of the mesh. */
  predicate LeastPending(e: Edge, pending: set<Edge>, n: nat) {
    EdgesBelow(pending, n) && e in pending && forall x :: x in pending ==> EdgeBefore(e, x)
  }

  /** What `SplitMerge` needs of its arguments, in one fact. */
  ghost predicate SplitReady<T>(vertices: seq<T>, indices: seq<nat>, starts: seq<nat>, sizes: seq<nat>,
                                toSplit: set<Edge>, oldAdj: seq<set<nat>>) {
    && Contiguous(starts, sizes, |indices|) && RunsInBounds(starts, sizes, |indices|)
    && IndicesBelow(indices, |vertices|) && EdgesBelow(toSplit, |vertices|)
    && |oldAdj| == |vertices| && Adjacency(oldAdj, indices, starts, sizes)
  }

  /** What `SplitEdgesSpec` needs of its arguments, in one fact. */
  predicate SpecReady<T>(vertices: seq<T>, indices: seq<nat>, starts: seq<nat>, sizes: seq<nat>,
                         edgesToSplit: seq<(nat, nat)>) {
    && Contiguous(starts, sizes, |indices|) && RunsInBounds(starts, sizes, |indices|)
    && IndicesBelow(indices, |vertices|)
    && forall p :: p in edgesToSplit ==> p.0 < |vertices| && p.1 < |vertices|
  }

  /** `SplitMerge` once the split, the new adjacency and the merge are known. */
  lemma SplitMergeIs<T>(vertices: seq<T>, indices: seq<nat>, starts: seq<nat>, sizes: seq<nat>,
                        toSplit: set<Edge>, oldAdj: seq<set<nat>>, split: SplitAcc<T>, newAdj: seq<set<nat>>,
                        merged: MergeAcc)
    requires SplitReady(vertices, indices, starts, sizes, toSplit, oldAdj)
    requires SplitVertices(EndPoints(toSplit), (vertices, indices, {}), indices, starts, sizes, oldAdj) == split
    requires AdjacencyOf(|split.0|, split.1, starts, sizes) == newAdj
    requires MergeReady((split.1, newAdj), indices, starts, sizes, oldAdj) && EdgesBelow(split.2 - toSplit, |oldAdj|)
    requires MergeEdges(split.2 - toSplit, (split.1, newAdj), indices, starts, sizes, oldAdj) == merged
    ensures SplitMerge(vertices, indices, starts, sizes, toSplit, oldAdj) == (split.0, merged.0)
  {
  }

  /** `SplitEdgesSpec` once the adjacency, the marked edges and the split-and-merge are known. */
  lemma SplitEdgesSpecIs<T>(vertices: seq<T>, indices: seq<nat>, starts: seq<nat>, sizes: seq<nat>,
                            edgesToSplit: seq<(nat, nat)>, sharp: (nat, nat) -> bool,
                            oldAdj: seq<set<nat>>, toSplit: set<Edge>, m: (seq<T>, seq<nat>), result: (seq<T>, seq<nat>))
    requires SpecReady(vertices, indices, starts, sizes, edgesToSplit)
    requires AdjacencyOf(|vertices|, indices, starts, sizes) == oldAdj && |oldAdj| == |vertices|
    requires GivenEdges(edgesToSplit) + SharpEdges(|starts|, indices, starts, sizes, oldAdj, sharp)
          == toSplit
    requires SplitReady(vertices, indices, starts, sizes, toSplit, oldAdj)
    requires SplitMerge(vertices, indices, starts, sizes, toSplit, oldAdj) == m
    requires RemoveLoose(m.0, m.1) == result
    ensures SplitEdgesSpec(vertices, indices, starts, sizes, edgesToSplit, sharp) == result
  {
  }

  /** Merging the least pending edge first, when that step is known. */
  lemma MergeLeast(pending: set<Edge>, st: MergeAcc, indices: seq<nat>, starts: seq<nat>, sizes: seq<nat>,
                   oldAdj: seq<set<nat>>, e: Edge, next: MergeAcc)
    requires MergeReady(st, indices, starts, sizes, oldAdj) && LeastPending(e, pending, |oldAdj|)
    requires MergeEdge(e, st, indices, starts, sizes, oldAdj) == next
    ensures MergeReady(next, indices, starts, sizes, oldAdj) && EdgesBelow(pending, |oldAdj|)
    ensures MergeEdges(pending, st, indices, starts, sizes, oldAdj)
         == MergeEdges(pending - {e}, next, indices, starts, sizes, oldAdj)
  {
    EdgeMinIs(pending, e);
    MergeEdgesStep(pending, st, indices, starts, sizes, oldAdj, e);
  }

  /** The vertex loop over its last vertex. */
  lemma SplitLastVertex<T>(v: nat, indices: seq<nat>, starts: seq<nat>, sizes: seq<nat>, adj: seq<set<nat>>,
                           st: SplitAcc<T>, next: SplitAcc<T>)
    requires VertexLoopReady({v}, st, indices, starts, sizes, adj) && FaceLoopReady(v, adj[v], st, indices, starts, sizes)
    requires SplitFaces(v, adj[v], true, st, indices, starts, sizes) == next
    ensures SplitVertices({v}, st, indices, starts, sizes, adj) == next
  {
    assert {v} - {v} == {};
    assert LeastOf(v, {v});
    SplitLeastInto({v}, {}, st, indices, starts, sizes, adj, v, next);
  }

  /** `merge_verts_in_faces` once the four copies and the merged face sets are known. */
  lemma MergeVertsIs(v0: nat, v1: nat, f0: nat, f1: nat, indices: seq<nat>, starts: seq<nat>, sizes: seq<nat>,
                     st: MergeAcc, a: nat, b: nat, c: nat, d: nat, adj2: seq<set<nat>>, r: seq<nat>)
    requires RunsInBounds(starts, sizes, |indices|) && |st.0| == |indices| && IndicesBelow(st.0, |st.1|)
    requires f0 < |starts| && f1 < |starts|
    requires v0 in FaceIndices(f0, indices, starts, sizes) && v0 in FaceIndices(f1, indices, starts, sizes)
    requires v1 in FaceIndices(f0, indices, starts, sizes) && v1 in FaceIndices(f1, indices, starts, sizes)
    requires FindOldVertexInFace(v0, f0, indices, st.0, starts, sizes) == a
    requires FindOldVertexInFace(v0, f1, indices, st.0, starts, sizes) == b
    requires FindOldVertexInFace(v1, f0, indices, st.0, starts, sizes) == c
    requires FindOldVertexInFace(v1, f1, indices, st.0, starts, sizes) == d
    requires a < |st.1| && b < |st.1| && c < |st.1| && d < |st.1|
    requires st.1[a := st.1[a] + st.1[b]][c := st.1[a := st.1[a] + st.1[b]][c] + st.1[a := st.1[a] + st.1[b]][d]] == adj2
    requires |adj2| == |st.1| && RelabelIn(st.0, adj2[a] + adj2[c], indices, starts, sizes, v0, v1, a, c) == r
    ensures MergeVerts(v0, v1, f0, f1, indices, starts, sizes, st) == (r, adj2)
  {
  }

  /** The slots of face `g` after relabelling over `faces`. */
  lemma RelabelFace(si: seq<nat>, faces: set<nat>, indices: seq<nat>, starts: seq<nat>, sizes: seq<nat>,
                    v0: nat, v1: nat, a: nat, c: nat, g: nat)
    requires Contiguous(starts, sizes, |indices|) && |si| == |indices| && g < |starts|
    ensures forall k: nat :: InRun(starts, sizes, g, k) && k < |si| ==>
      RelabelIn(si, faces, indices, starts, sizes, v0, v1, a, c)[k]
        == if g in faces then Relabel(k, indices, si, v0, v1, a, c) else si[k]
  {
    forall k: nat | InRun(starts, sizes, g, k) && k < |si| {
      RelabelInAt(si, faces, indices, starts, sizes, v0, v1, a, c, g, k);
    }
  }

  /** A strictly increasing sequence is the ascending walk over its elements. */
  lemma {:induction false} AscendingIs(s: set<nat>, r: seq<nat>)
    requires StrictlyIncreasing(r) && forall x :: x in s <==> x in r
    ensures Ascending(s) == r
    decreases |r|
  {
    if r == [] {
      assert s == {};
    } else {
      SetMinIs(s, r[0]);
      assert forall x :: x in s - {r[0]} <==> x in r[1..];
      AscendingIs(s - {r[0]}, r[1..]);
      AscendingStep(s, r[0]);
      assert r == [r[0]] + r[1..];
    }
  }

  /** The used indices in ascending order are `kept`. */
  lemma UsedAscending(si: seq<nat>, kept: seq<nat>)
    requires StrictlyIncreasing(kept) && forall x :: x in kept <==> x in si
    ensures Ascending(UsedIndices(si)) == kept
  {
    assert forall x :: x in UsedIndices(si) <==> x in si;
    AscendingIs(UsedIndices(si), kept);
  }

  /** The result of `remove_loose_vertices` when the used indices, ascending, are `kept`. */
  lemma RemoveLooseIs<T>(vertices: seq<T>, si: seq<nat>, kept: seq<nat>, nv: seq<T>, ni: seq<nat>)
    requires IndicesBelow(si, |vertices|) && StrictlyIncreasing(kept)
    requires forall x :: x in kept <==> x in si
    requires |nv| == |kept| && forall j :: 0 <= j < |kept| ==> kept[j] < |vertices| && nv[j] == vertices[kept[j]]
    requires |ni| == |si| && forall k :: 0 <= k < |si| ==> ni[k] < |kept| && kept[ni[k]] == si[k]
    ensures RemoveLoose(vertices, si) == (nv, ni)
  {
    UsedAscending(si, kept);
    var r := RemoveLoose(vertices, si);
    forall k | 0 <= k < |si| ensures r.1[k] == ni[k] {
      IncreasingPosition(kept, ni[k]);
    }
    assert r.0 == nv;
    assert r.1 == ni;
  }

  // ---------------------------------------------------------------------
  // Two triangles sharing the edge 1-2, with the boundary edge 2-3 marked
  // (split_edges_quad): the topology does not change.
  //
  // 2 - 3
  // | \ |
  // 0 - 1

  const QuadVertices: seq<int> := [0, 1, 2, 3]
  const QuadIndices: seq<nat> := [0, 1, 2, 2, 1, 3]
  const QuadStarts: seq<nat> := [0, 3]
  const QuadSizes: seq<nat> := [3, 3]
  const QuadAdj: seq<set<nat>> := [{0}, {0, 1}, {0, 1}, {1}]

  lemma QuadLayout()
    ensures Contiguous(QuadStarts, QuadSizes, 6) && RunsInBounds(QuadStarts, QuadSizes, 6)
    ensures FaceIndices(0, QuadIndices, QuadStarts, QuadSizes) == [0, 1, 2]
    ensures FaceIndices(1, QuadIndices, QuadStarts, QuadSizes) == [2, 1, 3]
  {
    UniformLayout(QuadStarts, QuadSizes, 6, 3);
  }

  lemma QuadAdjacency()
    ensures AdjacencyOf(4, QuadIndices, QuadStarts, QuadSizes) == QuadAdj
    ensures Adjacency(QuadAdj, QuadIndices, QuadStarts, QuadSizes)
  {
    QuadLayout();
    AdjacencyIs(4, QuadIndices, QuadStarts, QuadSizes, QuadAdj);
  }

  /** The adjacency alone, without the comprehension it was computed from. */
  lemma QuadAdjacent()
    ensures RunsInBounds(QuadStarts, QuadSizes, 6) && Adjacency(QuadAdj, QuadIndices, QuadStarts, QuadSizes)
  {
    QuadLayout();
    QuadAdjacency();
  }

  const QuadSplit0: SplitAcc<int> := (QuadVertices, QuadIndices, {})
  const QuadSplit1: SplitAcc<int> := (QuadVertices, QuadIndices, {Edge(1, 2), Edge(0, 2)})
  const QuadSplit2: SplitAcc<int> := ([0, 1, 2, 3, 2], [0, 1, 2, 4, 1, 3], {Edge(1, 2), Edge(0, 2), Edge(2, 3)})
  const QuadSplit3: SplitAcc<int> := ([0, 1, 2, 3, 2], [0, 1, 2, 4, 1, 3], {Edge(1, 2), Edge(0, 2), Edge(2, 3), Edge(1, 3)})

  /** Face 0, the first face of vertex 2, keeps it. */
  lemma QuadVisit20()
    ensures RunsInBounds(QuadStarts, QuadSizes, 6) && 2 in FaceIndices(0, QuadIndices, QuadStarts, QuadSizes)
    ensures VisitFace(true, QuadSplit0, 2, 0, QuadIndices, QuadStarts, QuadSizes) == QuadSplit1
  {
    QuadLayout();
    VisitFirstFace(QuadSplit0, 2, 0, QuadIndices, QuadStarts, QuadSizes, 2, Edge(1, 2), Edge(0, 2));
    assert QuadSplit0.2 + {Edge(1, 2), Edge(0, 2)} == QuadSplit1.2;
  }

  /** Face 1 gets the copy 4 of vertex 2. */
  lemma QuadVisit21()
    ensures RunsInBounds(QuadStarts, QuadSizes, 6) && 2 in FaceIndices(1, QuadIndices, QuadStarts, QuadSizes)
    ensures VisitFace(false, QuadSplit1, 2, 1, QuadIndices, QuadStarts, QuadSizes) == QuadSplit2
  {
    QuadLayout();
    VisitLaterFace(QuadSplit1, 2, 1, QuadIndices, QuadStarts, QuadSizes, 0, Edge(2, 3), Edge(1, 2), 3);
    assert QuadSplit1.0 + [QuadSplit1.0[2]] == QuadSplit2.0;
    assert QuadSplit1.1[3 := |QuadSplit1.0|] == QuadSplit2.1;
    assert QuadSplit1.2 + {Edge(2, 3), Edge(1, 2)} == QuadSplit2.2;
  }

  /** Vertex 2 lies on faces 0 and 1. */
  lemma QuadFaces2Ready()
    ensures QuadAdj[2] == {0, 1}
    ensures FaceLoopReady(2, {0, 1}, QuadSplit0, QuadIndices, QuadStarts, QuadSizes)
    ensures FaceLoopReady(2, QuadAdj[2], QuadSplit0, QuadIndices, QuadStarts, QuadSizes)
  {
    QuadLayout();
  }

  /** Vertex 2 keeps face 0 and gets the copy 4 in face 1. */
  lemma QuadVertex2()
    ensures FaceLoopReady(2, QuadAdj[2], QuadSplit0, QuadIndices, QuadStarts, QuadSizes)
    ensures SplitFaces(2, QuadAdj[2], true, QuadSplit0, QuadIndices, QuadStarts, QuadSizes) == QuadSplit2
  {
    QuadFaces2Ready();
    QuadVisit20();
    QuadVisit21();
    SplitTwoFaces(2, 0, 1, true, QuadIndices, QuadStarts, QuadSizes, QuadSplit0, QuadSplit1, QuadSplit2);
  }

  /** Face 1, the only face of vertex 3, keeps it. */
  lemma QuadVisit31()
    ensures RunsInBounds(QuadStarts, QuadSizes, 6) && 3 in FaceIndices(1, QuadIndices, QuadStarts, QuadSizes)
    ensures VisitFace(true, QuadSplit2, 3, 1, QuadIndices, QuadStarts, QuadSizes) == QuadSplit3
  {
    QuadLayout();
    VisitFirstFace(QuadSplit2, 3, 1, QuadIndices, QuadStarts, QuadSizes, 2, Edge(1, 3), Edge(2, 3));
    assert QuadSplit2.2 + {Edge(1, 3), Edge(2, 3)} == QuadSplit3.2;
  }

  /** Vertex 3 lies on face 1 only. */
  lemma QuadFaces3Ready()
    ensures QuadAdj[3] == {1}
    ensures FaceLoopReady(3, {1}, QuadSplit2, QuadIndices, QuadStarts, QuadSizes)
    ensures FaceLoopReady(3, QuadAdj[3], QuadSplit2, QuadIndices, QuadStarts, QuadSizes)
  {
    QuadLayout();
  }

  /** Vertex 3 is not copied. */
  lemma QuadVertex3()
    ensures FaceLoopReady(3, QuadAdj[3], QuadSplit2, QuadIndices, QuadStarts, QuadSizes)
    ensures SplitFaces(3, QuadAdj[3], true, QuadSplit2, QuadIndices, QuadStarts, QuadSizes) == QuadSplit3
  {
    QuadFaces3Ready();
    QuadVisit31();
    SplitOneFace(3, 1, true, QuadIndices, QuadStarts, QuadSizes, QuadSplit2, QuadSplit3);
  }

  /** The vertex loop starts from a well-formed state. */
  lemma QuadSplitLoopReady()
    ensures VertexLoopReady({2, 3}, QuadSplit0, QuadIndices, QuadStarts, QuadSizes, QuadAdj)
  {
    QuadAdjacent();
  }

  /** Vertex 2, the least marked one, is split first. */
  lemma QuadSplitFirst()
    ensures VertexLoopReady({3}, QuadSplit2, QuadIndices, QuadStarts, QuadSizes, QuadAdj)
    ensures SplitVertices({2, 3}, QuadSplit0, QuadIndices, QuadStarts, QuadSizes, QuadAdj)
         == SplitVertices({3}, QuadSplit2, QuadIndices, QuadStarts, QuadSizes, QuadAdj)
  {
    QuadSplitLoopReady();
    QuadVertex2();
    SplitFirstOfTwo(2, 3, QuadIndices, QuadStarts, QuadSizes, QuadAdj, QuadSplit0, QuadSplit2);
  }

  /** Vertex 3 is split last. */
  lemma QuadSplitLast()
    requires VertexLoopReady({3}, QuadSplit2, QuadIndices, QuadStarts, QuadSizes, QuadAdj)
    ensures SplitVertices({3}, QuadSplit2, QuadIndices, QuadStarts, QuadSizes, QuadAdj) == QuadSplit3
  {
    QuadVertex3();
    SplitLastVertex(3, QuadIndices, QuadStarts, QuadSizes, QuadAdj, QuadSplit2, QuadSplit3);
  }

  /** The marked vertices 2 and 3 are split in ascending order. */
  lemma QuadSplit()
    ensures Adjacency(QuadAdj, QuadIndices, QuadStarts, QuadSizes)
    ensures SplitVertices({2, 3}, QuadSplit0, QuadIndices, QuadStarts, QuadSizes, QuadAdj) == QuadSplit3
  {
    QuadAdjacent();
    QuadSplitFirst();
    QuadSplitLast();
  }

  const QuadSplitIndices: seq<nat> := [0, 1, 2, 4, 1, 3]
  const QuadNewAdj: seq<set<nat>> := [{0}, {0, 1}, {0}, {1}, {1}]
  const QuadMerged: MergeAcc := (QuadIndices, [{0}, {0, 1}, {0, 1}, {1}, {1}])

  /** The runs of the split mesh. */
  lemma QuadNewFaces()
    ensures RunsInBounds(QuadStarts, QuadSizes, 6)
    ensures FaceIndices(0, QuadSplitIndices, QuadStarts, QuadSizes) == [0, 1, 2]
    ensures FaceIndices(1, QuadSplitIndices, QuadStarts, QuadSizes) == [4, 1, 3]
  {
    QuadLayout();
    assert FaceIndices(0, QuadSplitIndices, QuadStarts, QuadSizes) == [0, 1, 2];
    assert FaceIndices(1, QuadSplitIndices, QuadStarts, QuadSizes) == [4, 1, 3];
  }

  /** The faces of the split mesh: the copy 4 of vertex 2 is on face 1 only. */
  lemma QuadNewAdjacency()
    ensures RunsInBounds(QuadStarts, QuadSizes, 6)
    ensures AdjacencyOf(5, QuadSplitIndices, QuadStarts, QuadSizes) == QuadNewAdj
  {
    QuadNewFaces();
    AdjacencyIs(5, QuadSplitIndices, QuadStarts, QuadSizes, QuadNewAdj);
  }

  const QuadMergeStart: MergeAcc := (QuadSplitIndices, QuadNewAdj)

  /** Both states the edge loop passes through are well formed. */
  lemma QuadReady()
    ensures MergeReady(QuadMergeStart, QuadIndices, QuadStarts, QuadSizes, QuadAdj)
    ensures MergeReady(QuadMerged, QuadIndices, QuadStarts, QuadSizes, QuadAdj)
  {
    QuadAdjacent();
  }

  /** 0-2 lies on face 0 only: nothing is merged. */
  lemma QuadMerge02()
    ensures MergeReady(QuadMergeStart, QuadIndices, QuadStarts, QuadSizes, QuadAdj)
    ensures MergeEdge(Edge(0, 2), QuadMergeStart, QuadIndices, QuadStarts, QuadSizes, QuadAdj) == QuadMergeStart
  {
    QuadReady();
    assert QuadAdj[0] * QuadAdj[2] == {0};
    MergeEdgeSkips(Edge(0, 2), QuadMergeStart, QuadIndices, QuadStarts, QuadSizes, QuadAdj);
  }

  /** The relabelling of merging 1-2 over faces 0 and 1 gives back the original slots. */
  lemma QuadRelabel12()
    ensures |QuadSplitIndices| == |QuadIndices| && |QuadStarts| == |QuadSizes|
    ensures RelabelIn(QuadSplitIndices, {0, 1}, QuadIndices, QuadStarts, QuadSizes, 1, 2, 1, 2) == QuadIndices
  {
    QuadLayout();
    var si := QuadSplitIndices;
    RelabelFace(si, {0, 1}, QuadIndices, QuadStarts, QuadSizes, 1, 2, 1, 2, 0);
    RelabelFace(si, {0, 1}, QuadIndices, QuadStarts, QuadSizes, 1, 2, 1, 2, 1);
    var r := RelabelIn(si, {0, 1}, QuadIndices, QuadStarts, QuadSizes, 1, 2, 1, 2);
    assert InRun(QuadStarts, QuadSizes, 0, 0) && InRun(QuadStarts, QuadSizes, 0, 1) && InRun(QuadStarts, QuadSizes, 0, 2);
    assert InRun(QuadStarts, QuadSizes, 1, 3) && InRun(QuadStarts, QuadSizes, 1, 4) && InRun(QuadStarts, QuadSizes, 1, 5);
    assert r[0] == 0 && r[1] == 1 && r[2] == 2 && r[3] == 2 && r[4] == 1 && r[5] == 3;
  }

  /** The copies of 1 and 2 in faces 0 and 1 of the split mesh. */
  lemma QuadFound12()
    ensures RunsInBounds(QuadStarts, QuadSizes, 6)
    ensures 1 in FaceIndices(0, QuadIndices, QuadStarts, QuadSizes) && 1 in FaceIndices(1, QuadIndices, QuadStarts, QuadSizes)
    ensures 2 in FaceIndices(0, QuadIndices, QuadStarts, QuadSizes) && 2 in FaceIndices(1, QuadIndices, QuadStarts, QuadSizes)
    ensures FindOldVertexInFace(1, 0, QuadIndices, QuadSplitIndices, QuadStarts, QuadSizes) == 1
    ensures FindOldVertexInFace(1, 1, QuadIndices, QuadSplitIndices, QuadStarts, QuadSizes) == 1
    ensures FindOldVertexInFace(2, 0, QuadIndices, QuadSplitIndices, QuadStarts, QuadSizes) == 2
    ensures FindOldVertexInFace(2, 1, QuadIndices, QuadSplitIndices, QuadStarts, QuadSizes) == 4
  {
    QuadLayout();
    var si := QuadSplitIndices;
    FoundIs(1, 0, QuadIndices, si, QuadStarts, QuadSizes, 1);
    FoundIs(1, 1, QuadIndices, si, QuadStarts, QuadSizes, 1);
    FoundIs(2, 0, QuadIndices, si, QuadStarts, QuadSizes, 2);
    FoundIs(2, 1, QuadIndices, si, QuadStarts, QuadSizes, 0);
  }

  /** The face sets of the copies of 1 and 2 once 1-2 is merged. */
  lemma QuadAdj12()
    ensures IndicesBelow(QuadSplitIndices, |QuadNewAdj|)
    ensures var adj := QuadNewAdj;
            adj[1 := adj[1] + adj[1]][2 := adj[1 := adj[1] + adj[1]][2] + adj[1 := adj[1] + adj[1]][4]] == QuadMerged.1
    ensures QuadMerged.1[1] + QuadMerged.1[2] == {0, 1}
  {
    var adj := QuadNewAdj;
    assert adj[1] + adj[1] == adj[1] && adj[2] + adj[4] == {0, 1};
  }

  /** Merging the copies of 1 and 2 found in faces 0 and 1. */
  lemma QuadMergeVerts12()
    ensures RunsInBounds(QuadStarts, QuadSizes, 6) && IndicesBelow(QuadSplitIndices, |QuadNewAdj|)
    ensures 1 in FaceIndices(0, QuadIndices, QuadStarts, QuadSizes) && 1 in FaceIndices(1, QuadIndices, QuadStarts, QuadSizes)
    ensures 2 in FaceIndices(0, QuadIndices, QuadStarts, QuadSizes) && 2 in FaceIndices(1, QuadIndices, QuadStarts, QuadSizes)
    ensures MergeVerts(1, 2, 0, 1, QuadIndices, QuadStarts, QuadSizes, (QuadSplitIndices, QuadNewAdj)) == QuadMerged
  {
    QuadFound12();
    QuadRelabel12();
    QuadAdj12();
    MergeVertsIs(1, 2, 0, 1, QuadIndices, QuadStarts, QuadSizes, (QuadSplitIndices, QuadNewAdj),
                 1, 1, 2, 4, QuadMerged.1, QuadIndices);
  }

  /** 1-2 lies on faces 0 and 1: the copy 4 of vertex 2 in face 1 goes back to 2. */
  lemma QuadMerge12()
    ensures MergeReady(QuadMergeStart, QuadIndices, QuadStarts, QuadSizes, QuadAdj)
    ensures MergeEdge(Edge(1, 2), QuadMergeStart, QuadIndices, QuadStarts, QuadSizes, QuadAdj) == QuadMerged
  {
    QuadReady();
    assert SharedBy(Edge(1, 2), QuadAdj, 0, 1) by {
      assert QuadAdj[1] * QuadAdj[2] == {0, 1};
    }
    QuadMergeVerts12();
    MergeEdgeMerges(Edge(1, 2), QuadMergeStart, QuadIndices, QuadStarts, QuadSizes, QuadAdj, 0, 1);
  }

  /** 1-3 lies on face 1 only: nothing is merged. */
  lemma QuadMerge13()
    ensures MergeReady(QuadMerged, QuadIndices, QuadStarts, QuadSizes, QuadAdj)
    ensures MergeEdge(Edge(1, 3), QuadMerged, QuadIndices, QuadStarts, QuadSizes, QuadAdj) == QuadMerged
  {
    QuadReady();
    assert QuadAdj[1] * QuadAdj[3] == {1};
    MergeEdgeSkips(Edge(1, 3), QuadMerged, QuadIndices, QuadStarts, QuadSizes, QuadAdj);
  }

  const QuadPending0: set<Edge> := {Edge(0, 2), Edge(1, 2), Edge(1, 3)}
  const QuadPending1: set<Edge> := {Edge(1, 2), Edge(1, 3)}
  const QuadPending2: set<Edge> := {Edge(1, 3)}

  /** The order in which the edge loop takes the recorded edges. */
  lemma QuadPendingOrder()
    ensures LeastPending(Edge(0, 2), QuadPending0, 4) && QuadPending0 - {Edge(0, 2)} == QuadPending1
    ensures LeastPending(Edge(1, 2), QuadPending1, 4) && QuadPending1 - {Edge(1, 2)} == QuadPending2
    ensures LeastPending(Edge(1, 3), QuadPending2, 4) && QuadPending2 - {Edge(1, 3)} == {}
  {
  }

  /** First merge step: 0-2 is the least recorded edge and changes nothing. */
  lemma QuadMergeFirst()
    ensures MergeReady(QuadMergeStart, QuadIndices, QuadStarts, QuadSizes, QuadAdj)
    ensures EdgesBelow(QuadPending0, |QuadAdj|) && EdgesBelow(QuadPending1, |QuadAdj|)
    ensures MergeEdges(QuadPending0, QuadMergeStart, QuadIndices, QuadStarts, QuadSizes, QuadAdj)
         == MergeEdges(QuadPending1, QuadMergeStart, QuadIndices, QuadStarts, QuadSizes, QuadAdj)
  {
    QuadPendingOrder();
    QuadMerge02();
    MergeLeast(QuadPending0, QuadMergeStart, QuadIndices, QuadStarts, QuadSizes, QuadAdj, Edge(0, 2), QuadMergeStart);
  }

  /** Second merge step: 1-2 is merged. */
  lemma QuadMergeSecond()
    ensures MergeReady(QuadMergeStart, QuadIndices, QuadStarts, QuadSizes, QuadAdj)
    ensures MergeReady(QuadMerged, QuadIndices, QuadStarts, QuadSizes, QuadAdj)
    ensures EdgesBelow(QuadPending1, |QuadAdj|) && EdgesBelow(QuadPending2, |QuadAdj|)
    ensures MergeEdges(QuadPending1, QuadMergeStart, QuadIndices, QuadStarts, QuadSizes, QuadAdj)
         == MergeEdges(QuadPending2, QuadMerged, QuadIndices, QuadStarts, QuadSizes, QuadAdj)
  {
    QuadPendingOrder();
    QuadMerge12();
    MergeLeast(QuadPending1, QuadMergeStart, QuadIndices, QuadStarts, QuadSizes, QuadAdj, Edge(1, 2), QuadMerged);
  }

  /** Last merge step: 1-3 changes nothing and the loop ends. */
  lemma QuadMergeLast()
    ensures MergeReady(QuadMerged, QuadIndices, QuadStarts, QuadSizes, QuadAdj) && EdgesBelow(QuadPending2, |QuadAdj|)
    ensures MergeEdges(QuadPending2, QuadMerged, QuadIndices, QuadStarts, QuadSizes, QuadAdj) == QuadMerged
  {
    QuadPendingOrder();
    QuadMerge13();
    MergeLeast(QuadPending2, QuadMerged, QuadIndices, QuadStarts, QuadSizes, QuadAdj, Edge(1, 3), QuadMerged);
  }

  /** The recorded edges other than the marked 2-3 are merged in order: only 1-2 changes anything. */
  lemma QuadMerge()
    ensures MergeReady(QuadMergeStart, QuadIndices, QuadStarts, QuadSizes, QuadAdj) && EdgesBelow(QuadPending0, |QuadAdj|)
    ensures MergeEdges(QuadPending0, QuadMergeStart, QuadIndices, QuadStarts, QuadSizes, QuadAdj) == QuadMerged
  {
    QuadMergeFirst();
    QuadMergeSecond();
    QuadMergeLast();
  }

  /** The normal test never fires: no edge is sharp. */
  lemma QuadNoSharp()
    ensures RunsInBounds(QuadStarts, QuadSizes, |QuadIndices|) && IndicesBelow(QuadIndices, |QuadAdj|)
    ensures SharpEdges(|QuadStarts|, QuadIndices, QuadStarts, QuadSizes, QuadAdj, NoSharp) == {}
  {
    QuadLayout();
    NoSharpEdges(|QuadStarts|, QuadIndices, QuadStarts, QuadSizes, QuadAdj, NoSharp);
  }

  /** The edge the caller marks. */
  lemma QuadGiven()
    ensures GivenEdges([(2, 3)]) == {Edge(2, 3)}
  {
    assert GivenEdges([(2, 3)]) == {Edge(2, 3)};
  }

  /** With no sharp faces, the marked edges are the given 2-3 alone. */
  lemma QuadToSplit()
    ensures RunsInBounds(QuadStarts, QuadSizes, |QuadIndices|) && IndicesBelow(QuadIndices, |QuadAdj|)
    ensures GivenEdges([(2, 3)])
            + SharpEdges(|QuadStarts|, QuadIndices, QuadStarts, QuadSizes, QuadAdj, NoSharp)
         == {Edge(2, 3)}
  {
    QuadNoSharp();
    QuadGiven();
  }

  /** The arguments of the split-and-merge step are well formed. */
  lemma QuadSplitReady()
    ensures SplitReady(QuadVertices, QuadIndices, QuadStarts, QuadSizes, {Edge(2, 3)}, QuadAdj)
  {
    QuadLayout();
    QuadAdjacent();
  }

  /** The pieces of the split state the merge starts from. */
  lemma QuadSplitParts()
    ensures EndPoints({Edge(2, 3)}) == {2, 3} && QuadSplit0 == (QuadVertices, QuadIndices, {})
    ensures QuadSplit3.0 == [0, 1, 2, 3, 2] && QuadSplit3.1 == QuadSplitIndices
    ensures QuadSplit3.2 - {Edge(2, 3)} == QuadPending0
  {
    assert EndPoints({Edge(2, 3)}) == {2, 3};
  }

  /** Splitting 2 and 3 and merging back every recorded edge but 2-3 restores the slots. */
  lemma QuadSplitMerge()
    ensures SplitReady(QuadVertices, QuadIndices, QuadStarts, QuadSizes, {Edge(2, 3)}, QuadAdj)
    ensures SplitMerge(QuadVertices, QuadIndices, QuadStarts, QuadSizes, {Edge(2, 3)}, QuadAdj) == ([0, 1, 2, 3, 2], QuadIndices)
  {
    QuadSplitReady();
    QuadSplitParts();
    QuadSplit();
    QuadNewAdjacency();
    QuadMerge();
    SplitMergeIs(QuadVertices, QuadIndices, QuadStarts, QuadSizes, {Edge(2, 3)}, QuadAdj, QuadSplit3, QuadNewAdj, QuadMerged);
  }

  /** Vertices 0 to 3 are all used again: only the copy 4 is loose. */
  lemma QuadRemoveLoose()
    ensures IndicesBelow(QuadIndices, 5)
    ensures RemoveLoose([0, 1, 2, 3, 2], QuadIndices) == (QuadVertices, QuadIndices)
  {
    assert forall v :: 0 <= v < 4 ==> v in QuadIndices by {
      assert QuadIndices[0] == 0 && QuadIndices[1] == 1 && QuadIndices[2] == 2 && QuadIndices[5] == 3;
    }
    RemoveLoosePrefix([0, 1, 2, 3, 2], QuadIndices, 4);
    assert [0, 1, 2, 3, 2][..4] == QuadVertices;
  }

  /** The arguments of `split_edges` are well formed and the adjacency is `QuadAdj`. */
  lemma QuadSpecReady()
    ensures SpecReady(QuadVertices, QuadIndices, QuadStarts, QuadSizes, [(2, 3)])
    ensures AdjacencyOf(|QuadVertices|, QuadIndices, QuadStarts, QuadSizes) == QuadAdj && |QuadAdj| == |QuadVertices|
  {
    QuadLayout();
    QuadAdjacency();
  }

  /** split_edges_quad: marking the boundary edge 2-3 leaves the mesh as it was. */
  lemma SplitQuadBoundary()
    ensures SpecReady(QuadVertices, QuadIndices, QuadStarts, QuadSizes, [(2, 3)])
    ensures SplitEdgesSpec(QuadVertices, QuadIndices, QuadStarts, QuadSizes, [(2, 3)], NoSharp)
         == (QuadVertices, QuadIndices)
  {
    QuadSpecReady();
    QuadToSplit();
    QuadSplitMerge();
    QuadRemoveLoose();
    SplitEdgesSpecIs(QuadVertices, QuadIndices, QuadStarts, QuadSizes, [(2, 3)], NoSharp,
                     QuadAdj, {Edge(2, 3)}, ([0, 1, 2, 3, 2], QuadIndices), (QuadVertices, QuadIndices));
  }

  // ---------------------------------------------------------------------
  // Two quads of two triangles each, with the inner edge 1-3 marked
  // (split_edges_split_two_triangulated_quads): 1 and 3 are split, and
  // the copies on the right of 1-3 become vertices 6 and 7.
  //
  // 2 - 3 - 4        2 - 3    7 - 4
  // | \ | \ |   ->   | \ |    | \ |
  // 0 - 1 - 5        0 - 1    6 - 5

  const CutVertices: seq<int> := [0, 1, 2, 3, 4, 5]
  const CutIndices: seq<nat> := [0, 1, 2, 2, 1, 3, 3, 1, 5, 3, 5, 4]
  const CutStarts: seq<nat> := [0, 3, 6, 9]
  const CutSizes: seq<nat> := [3, 3, 3, 3]
  const CutAdj: seq<set<nat>> := [{0}, {0, 1, 2}, {0, 1}, {1, 2, 3}, {3}, {2, 3}]

  lemma CutLayout()
    ensures Contiguous(CutStarts, CutSizes, 12) && RunsInBounds(CutStarts, CutSizes, 12)
    ensures FaceIndices(0, CutIndices, CutStarts, CutSizes) == [0, 1, 2]
    ensures FaceIndices(1, CutIndices, CutStarts, CutSizes) == [2, 1, 3]
    ensures FaceIndices(2, CutIndices, CutStarts, CutSizes) == [3, 1, 5]
    ensures FaceIndices(3, CutIndices, CutStarts, CutSizes) == [3, 5, 4]
  {
    UniformLayout(CutStarts, CutSizes, 12, 3);
  }

  lemma CutAdjacency()
    ensures AdjacencyOf(6, CutIndices, CutStarts, CutSizes) == CutAdj
    ensures Adjacency(CutAdj, CutIndices, CutStarts, CutSizes)
  {
    CutLayout();
    AdjacencyIs(6, CutIndices, CutStarts, CutSizes, CutAdj);
  }

  /** The adjacency alone, without the comprehension it was computed from. */
  lemma CutAdjacent()
    ensures RunsInBounds(CutStarts, CutSizes, 12) && Adjacency(CutAdj, CutIndices, CutStarts, CutSizes)
  {
    CutLayout();
    CutAdjacency();
  }

  const CutSplit0: SplitAcc<int> := (CutVertices, CutIndices, {})
  const CutSplit1: SplitAcc<int> := (CutVertices, CutIndices, {Edge(0, 1), Edge(1, 2)})
  const CutSplit2: SplitAcc<int> :=
    ([0, 1, 2, 3, 4, 5, 1], [0, 1, 2, 2, 6, 3, 3, 1, 5, 3, 5, 4], {Edge(0, 1), Edge(1, 2), Edge(1, 3)})
  const CutSplit3: SplitAcc<int> :=
    ([0, 1, 2, 3, 4, 5, 1, 1], [0, 1, 2, 2, 6, 3, 3, 7, 5, 3, 5, 4], {Edge(0, 1), Edge(1, 2), Edge(1, 3), Edge(1, 5)})
  const CutSplit4: SplitAcc<int> :=
    ([0, 1, 2, 3, 4, 5, 1, 1], [0, 1, 2, 2, 6, 3, 3, 7, 5, 3, 5, 4],
     {Edge(0, 1), Edge(1, 2), Edge(1, 3), Edge(1, 5), Edge(2, 3)})
  const CutSplit5: SplitAcc<int> :=
    ([0, 1, 2, 3, 4, 5, 1, 1, 3], [0, 1, 2, 2, 6, 3, 8, 7, 5, 3, 5, 4],
     {Edge(0, 1), Edge(1, 2), Edge(1, 3), Edge(1, 5), Edge(2, 3), Edge(3, 5)})
  const CutSplitIndices: seq<nat> := [0, 1, 2, 2, 6, 3, 8, 7, 5, 9, 5, 4]
  const CutSplit6: SplitAcc<int> :=
    ([0, 1, 2, 3, 4, 5, 1, 1, 3, 3], CutSplitIndices,
     {Edge(0, 1), Edge(1, 2), Edge(1, 3), Edge(1, 5), Edge(2, 3), Edge(3, 5), Edge(3, 4)})

  /** Face 0, the first face of vertex 1, keeps it. */
  lemma CutVisit10()
    ensures RunsInBounds(CutStarts, CutSizes, 12) && 1 in FaceIndices(0, CutIndices, CutStarts, CutSizes)
    ensures VisitFace(true, CutSplit0, 1, 0, CutIndices, CutStarts, CutSizes) == CutSplit1
  {
    CutLayout();
    VisitFirstFace(CutSplit0, 1, 0, CutIndices, CutStarts, CutSizes, 1, Edge(0, 1), Edge(1, 2));
    assert CutSplit0.2 + {Edge(0, 1), Edge(1, 2)} == CutSplit1.2;
  }

  /** Face 1 gets the copy 6 of vertex 1. */
  lemma CutVisit11()
    ensures RunsInBounds(CutStarts, CutSizes, 12) && 1 in FaceIndices(1, CutIndices, CutStarts, CutSizes)
    ensures VisitFace(false, CutSplit1, 1, 1, CutIndices, CutStarts, CutSizes) == CutSplit2
  {
    CutLayout();
    VisitLaterFace(CutSplit1, 1, 1, CutIndices, CutStarts, CutSizes, 1, Edge(1, 2), Edge(1, 3), 4);
    assert CutSplit1.0 + [CutSplit1.0[1]] == CutSplit2.0;
    assert CutSplit1.1[4 := |CutSplit1.0|] == CutSplit2.1;
    assert CutSplit1.2 + {Edge(1, 2), Edge(1, 3)} == CutSplit2.2;
  }

  /** Face 2 gets the copy 7 of vertex 1. */
  lemma CutVisit12()
    ensures RunsInBounds(CutStarts, CutSizes, 12) && 1 in FaceIndices(2, CutIndices, CutStarts, CutSizes)
    ensures VisitFace(false, CutSplit2, 1, 2, CutIndices, CutStarts, CutSizes) == CutSplit3
  {
    CutLayout();
    VisitLaterFace(CutSplit2, 1, 2, CutIndices, CutStarts, CutSizes, 1, Edge(1, 3), Edge(1, 5), 7);
    assert CutSplit2.0 + [CutSplit2.0[1]] == CutSplit3.0;
    assert CutSplit2.1[7 := |CutSplit2.0|] == CutSplit3.1;
    assert CutSplit2.2 + {Edge(1, 3), Edge(1, 5)} == CutSplit3.2;
  }

  /** Face 1, the first face of vertex 3, keeps it. */
  lemma CutVisit31()
    ensures RunsInBounds(CutStarts, CutSizes, 12) && 3 in FaceIndices(1, CutIndices, CutStarts, CutSizes)
    ensures VisitFace(true, CutSplit3, 3, 1, CutIndices, CutStarts, CutSizes) == CutSplit4
  {
    CutLayout();
    VisitFirstFace(CutSplit3, 3, 1, CutIndices, CutStarts, CutSizes, 2, Edge(1, 3), Edge(2, 3));
    assert CutSplit3.2 + {Edge(1, 3), Edge(2, 3)} == CutSplit4.2;
  }

  /** Face 2 gets the copy 8 of vertex 3. */
  lemma CutVisit32()
    ensures RunsInBounds(CutStarts, CutSizes, 12) && 3 in FaceIndices(2, CutIndices, CutStarts, CutSizes)
    ensures VisitFace(false, CutSplit4, 3, 2, CutIndices, CutStarts, CutSizes) == CutSplit5
  {
    CutLayout();
    VisitLaterFace(CutSplit4, 3, 2, CutIndices, CutStarts, CutSizes, 0, Edge(3, 5), Edge(1, 3), 6);
    assert CutSplit4.0 + [CutSplit4.0[3]] == CutSplit5.0;
    assert CutSplit4.1[6 := |CutSplit4.0|] == CutSplit5.1;
    assert CutSplit4.2 + {Edge(3, 5), Edge(1, 3)} == CutSplit5.2;
  }

  /** Face 3 gets the copy 9 of vertex 3. */
  lemma CutVisit33()
    ensures RunsInBounds(CutStarts, CutSizes, 12) && 3 in FaceIndices(3, CutIndices, CutStarts, CutSizes)
    ensures VisitFace(false, CutSplit5, 3, 3, CutIndices, CutStarts, CutSizes) == CutSplit6
  {
    CutLayout();
    VisitLaterFace(CutSplit5, 3, 3, CutIndices, CutStarts, CutSizes, 0, Edge(3, 4), Edge(3, 5), 9);
    assert CutSplit5.0 + [CutSplit5.0[3]] == CutSplit6.0;
    assert CutSplit5.1[9 := |CutSplit5.0|] == CutSplit6.1;
    assert CutSplit5.2 + {Edge(3, 4), Edge(3, 5)} == CutSplit6.2;
  }

  /** The face loop of vertex 1 may start: faces 0, 1 and 2 hold it. */
  lemma CutFaces1Ready()
    ensures CutAdj[1] == {0, 1, 2}
    ensures FaceLoopReady(1, {0, 1, 2}, CutSplit0, CutIndices, CutStarts, CutSizes)
    ensures FaceLoopReady(1, CutAdj[1], CutSplit0, CutIndices, CutStarts, CutSizes)
  {
    CutLayout();
  }

  /** Vertex 1 keeps face 0, its first face, and gets the copies 6 and 7 in faces 1 and 2. */
  lemma CutVertex1()
    ensures FaceLoopReady(1, CutAdj[1], CutSplit0, CutIndices, CutStarts, CutSizes)
    ensures SplitFaces(1, CutAdj[1], true, CutSplit0, CutIndices, CutStarts, CutSizes) == CutSplit3
  {
    CutFaces1Ready();
    CutVisit10();
    CutVisit11();
    CutVisit12();
    SplitThreeFaces(1, 0, 1, 2, true, CutIndices, CutStarts, CutSizes, CutSplit0, CutSplit1, CutSplit2, CutSplit3);
  }

  /** The face loop of vertex 3 may start: faces 1, 2 and 3 hold it. */
  lemma CutFaces3Ready()
    ensures CutAdj[3] == {1, 2, 3}
    ensures FaceLoopReady(3, {1, 2, 3}, CutSplit3, CutIndices, CutStarts, CutSizes)
    ensures FaceLoopReady(3, CutAdj[3], CutSplit3, CutIndices, CutStarts, CutSizes)
  {
    CutLayout();
  }

  /** Vertex 3 keeps face 1, its first face, and gets the copies 8 and 9 in faces 2 and 3. */
  lemma CutVertex3()
    ensures FaceLoopReady(3, CutAdj[3], CutSplit3, CutIndices, CutStarts, CutSizes)
    ensures SplitFaces(3, CutAdj[3], true, CutSplit3, CutIndices, CutStarts, CutSizes) == CutSplit6
  {
    CutFaces3Ready();
    CutVisit31();
    CutVisit32();
    CutVisit33();
    SplitThreeFaces(3, 1, 2, 3, true, CutIndices, CutStarts, CutSizes, CutSplit3, CutSplit4, CutSplit5, CutSplit6);
  }

  /** The vertex loop may start: 1 and 3 are vertices of the mesh. */
  lemma CutSplitLoopReady()
    ensures VertexLoopReady({1, 3}, CutSplit0, CutIndices, CutStarts, CutSizes, CutAdj)
  {
    CutAdjacent();
  }

  /** Vertex 1, the least marked one, is split first. */
  lemma CutSplitFirst()
    ensures VertexLoopReady({1, 3}, CutSplit0, CutIndices, CutStarts, CutSizes, CutAdj)
    ensures VertexLoopReady({3}, CutSplit3, CutIndices, CutStarts, CutSizes, CutAdj)
    ensures SplitVertices({1, 3}, CutSplit0, CutIndices, CutStarts, CutSizes, CutAdj)
         == SplitVertices({3}, CutSplit3, CutIndices, CutStarts, CutSizes, CutAdj)
  {
    CutSplitLoopReady();
    CutVertex1();
    SplitFirstOfTwo(1, 3, CutIndices, CutStarts, CutSizes, CutAdj, CutSplit0, CutSplit3);
  }

  /** Vertex 3 is split last. */
  lemma CutSplitLast()
    requires VertexLoopReady({3}, CutSplit3, CutIndices, CutStarts, CutSizes, CutAdj)
    ensures SplitVertices({3}, CutSplit3, CutIndices, CutStarts, CutSizes, CutAdj) == CutSplit6
  {
    CutVertex3();
    SplitLastVertex(3, CutIndices, CutStarts, CutSizes, CutAdj, CutSplit3, CutSplit6);
  }

  /** The marked vertices 1 and 3 are split in ascending order. */
  lemma CutSplit()
    ensures VertexLoopReady({1, 3}, CutSplit0, CutIndices, CutStarts, CutSizes, CutAdj)
    ensures SplitVertices({1, 3}, CutSplit0, CutIndices, CutStarts, CutSizes, CutAdj) == CutSplit6
  {
    CutSplitFirst();
    CutSplitLast();
  }

  const CutNewAdj: seq<set<nat>> := [{0}, {0}, {0, 1}, {1}, {3}, {2, 3}, {1}, {2}, {2}, {3}]
  const CutMergeStart: MergeAcc := (CutSplitIndices, CutNewAdj)
  const CutMerged1: MergeAcc :=
    ([0, 1, 2, 2, 1, 3, 8, 7, 5, 9, 5, 4], [{0}, {0, 1}, {0, 1}, {1}, {3}, {2, 3}, {1}, {2}, {2}, {3}])
  const CutMerged2: MergeAcc :=
    ([0, 1, 2, 2, 1, 3, 8, 7, 5, 8, 5, 4], [{0}, {0, 1}, {0, 1}, {1}, {3}, {2, 3}, {1}, {2}, {2, 3}, {3}])

  /** The runs of the split mesh. */
  lemma CutNewFaces()
    ensures RunsInBounds(CutStarts, CutSizes, 12)
    ensures FaceIndices(0, CutSplitIndices, CutStarts, CutSizes) == [0, 1, 2]
    ensures FaceIndices(1, CutSplitIndices, CutStarts, CutSizes) == [2, 6, 3]
    ensures FaceIndices(2, CutSplitIndices, CutStarts, CutSizes) == [8, 7, 5]
    ensures FaceIndices(3, CutSplitIndices, CutStarts, CutSizes) == [9, 5, 4]
  {
    CutLayout();
    assert FaceIndices(0, CutSplitIndices, CutStarts, CutSizes) == [0, 1, 2];
    assert FaceIndices(1, CutSplitIndices, CutStarts, CutSizes) == [2, 6, 3];
    assert FaceIndices(2, CutSplitIndices, CutStarts, CutSizes) == [8, 7, 5];
    assert FaceIndices(3, CutSplitIndices, CutStarts, CutSizes) == [9, 5, 4];
  }

  /** The faces of the split mesh: copies 6 and 7 of vertex 1, 8 and 9 of vertex 3, each on one face. */
  lemma CutNewAdjacency()
    ensures RunsInBounds(CutStarts, CutSizes, 12)
    ensures AdjacencyOf(10, CutSplitIndices, CutStarts, CutSizes) == CutNewAdj
  {
    CutNewFaces();
    AdjacencyIs(10, CutSplitIndices, CutStarts, CutSizes, CutNewAdj);
  }

  /** The three states the edge loop passes through are well formed. */
  lemma CutReady()
    ensures MergeReady(CutMergeStart, CutIndices, CutStarts, CutSizes, CutAdj)
    ensures MergeReady(CutMerged1, CutIndices, CutStarts, CutSizes, CutAdj)
    ensures MergeReady(CutMerged2, CutIndices, CutStarts, CutSizes, CutAdj)
  {
    CutAdjacent();
  }

  /** An edge of `CutAdj` on at most one face leaves the state `st` as it is. */
  lemma CutSkip(e: Edge, st: MergeAcc)
    requires MergeReady(st, CutIndices, CutStarts, CutSizes, CutAdj)
    requires e.lo < 6 && e.hi < 6 && |CutAdj[e.lo] * CutAdj[e.hi]| < 2
    ensures MergeEdge(e, st, CutIndices, CutStarts, CutSizes, CutAdj) == st
  {
    MergeEdgeSkips(e, st, CutIndices, CutStarts, CutSizes, CutAdj);
  }

  /** 0-1, 1-5, 2-3 and 3-4 each lie on one face only: nothing is merged. */
  lemma CutSkips()
    ensures MergeReady(CutMergeStart, CutIndices, CutStarts, CutSizes, CutAdj)
    ensures MergeReady(CutMerged1, CutIndices, CutStarts, CutSizes, CutAdj)
    ensures MergeEdge(Edge(0, 1), CutMergeStart, CutIndices, CutStarts, CutSizes, CutAdj) == CutMergeStart
    ensures MergeEdge(Edge(1, 5), CutMerged1, CutIndices, CutStarts, CutSizes, CutAdj) == CutMerged1
    ensures MergeEdge(Edge(2, 3), CutMerged1, CutIndices, CutStarts, CutSizes, CutAdj) == CutMerged1
    ensures MergeEdge(Edge(3, 4), CutMerged1, CutIndices, CutStarts, CutSizes, CutAdj) == CutMerged1
  {
    CutReady();
    assert CutAdj[0] * CutAdj[1] == {0} && CutAdj[1] * CutAdj[5] == {2};
    assert CutAdj[2] * CutAdj[3] == {1} && CutAdj[3] * CutAdj[4] == {3};
    CutSkip(Edge(0, 1), CutMergeStart);
    CutSkip(Edge(1, 5), CutMerged1);
    CutSkip(Edge(2, 3), CutMerged1);
    CutSkip(Edge(3, 4), CutMerged1);
  }

  /** The copies of 1 in faces 0 and 1 of the split mesh. */
  lemma CutFound1()
    ensures RunsInBounds(CutStarts, CutSizes, 12)
    ensures 1 in FaceIndices(0, CutIndices, CutStarts, CutSizes) && 1 in FaceIndices(1, CutIndices, CutStarts, CutSizes)
    ensures FindOldVertexInFace(1, 0, CutIndices, CutSplitIndices, CutStarts, CutSizes) == 1
    ensures FindOldVertexInFace(1, 1, CutIndices, CutSplitIndices, CutStarts, CutSizes) == 6
  {
    CutLayout();
    FoundIs(1, 0, CutIndices, CutSplitIndices, CutStarts, CutSizes, 1);
    FoundIs(1, 1, CutIndices, CutSplitIndices, CutStarts, CutSizes, 1);
  }

  /** The copies of 2 in faces 0 and 1 of the split mesh. */
  lemma CutFound2()
    ensures RunsInBounds(CutStarts, CutSizes, 12)
    ensures 2 in FaceIndices(0, CutIndices, CutStarts, CutSizes) && 2 in FaceIndices(1, CutIndices, CutStarts, CutSizes)
    ensures FindOldVertexInFace(2, 0, CutIndices, CutSplitIndices, CutStarts, CutSizes) == 2
    ensures FindOldVertexInFace(2, 1, CutIndices, CutSplitIndices, CutStarts, CutSizes) == 2
  {
    CutLayout();
    FoundIs(2, 0, CutIndices, CutSplitIndices, CutStarts, CutSizes, 2);
    FoundIs(2, 1, CutIndices, CutSplitIndices, CutStarts, CutSizes, 0);
  }

  /** The relabelled run of face `g` of the two quads, slot by slot. */
  lemma CutRelabelRun(si: seq<nat>, faces: set<nat>, v0: nat, v1: nat, a: nat, c: nat, g: nat, want: seq<nat>)
    requires g < 4 && |si| == 12 && |want| == 3
    requires forall j :: 0 <= j < 3 ==>
      want[j] == if g in faces then Relabel(3 * g + j, CutIndices, si, v0, v1, a, c) else si[3 * g + j]
    ensures RelabelIn(si, faces, CutIndices, CutStarts, CutSizes, v0, v1, a, c)[3 * g .. 3 * g + 3] == want
  {
    CutLayout();
    assert CutStarts[g] == 3 * g && CutSizes[g] == 3;
    RelabelFace(si, faces, CutIndices, CutStarts, CutSizes, v0, v1, a, c, g);
    var r := RelabelIn(si, faces, CutIndices, CutStarts, CutSizes, v0, v1, a, c);
    forall j | 0 <= j < 3 ensures r[3 * g + j] == want[j] {
      assert InRun(CutStarts, CutSizes, g, 3 * g + j);
    }
  }

  /** Twelve slots are the four runs of three. */
  lemma CutRuns(r: seq<nat>)
    requires |r| == 12
    ensures r == r[0..3] + r[3..6] + r[6..9] + r[9..12]
  {
  }

  /** The face sets of the copies of 1 and 2 once 1-2 is merged. */
  lemma CutAdj12()
    ensures IndicesBelow(CutSplitIndices, |CutNewAdj|)
    ensures var adj := CutNewAdj;
            adj[1 := adj[1] + adj[6]][2 := adj[1 := adj[1] + adj[6]][2] + adj[1 := adj[1] + adj[6]][2]] == CutMerged1.1
    ensures CutMerged1.1[1] + CutMerged1.1[2] == {0, 1}
  {
    var adj := CutNewAdj;
    assert adj[1] + adj[6] == {0, 1} && adj[2] + adj[2] == {0, 1};
  }

  /** Relabelling the slots of faces 0 and 1 for 1-2 puts the copy 6 back to 1. */
  lemma CutRelabel12()
    ensures |CutSplitIndices| == |CutIndices| && |CutStarts| == |CutSizes|
    ensures RelabelIn(CutSplitIndices, {0, 1}, CutIndices, CutStarts, CutSizes, 1, 2, 1, 2) == CutMerged1.0
  {
    var si := CutSplitIndices;
    var r := RelabelIn(si, {0, 1}, CutIndices, CutStarts, CutSizes, 1, 2, 1, 2);
    CutRelabelRun(si, {0, 1}, 1, 2, 1, 2, 0, [0, 1, 2]);
    CutRelabelRun(si, {0, 1}, 1, 2, 1, 2, 1, [2, 1, 3]);
    CutRelabelRun(si, {0, 1}, 1, 2, 1, 2, 2, [8, 7, 5]);
    CutRelabelRun(si, {0, 1}, 1, 2, 1, 2, 3, [9, 5, 4]);
    CutRuns(r);
  }

  /** Merging the copies of 1 and 2 found in faces 0 and 1. */
  lemma CutMergeVerts12()
    ensures RunsInBounds(CutStarts, CutSizes, 12) && IndicesBelow(CutSplitIndices, |CutNewAdj|)
    ensures 1 in FaceIndices(0, CutIndices, CutStarts, CutSizes) && 1 in FaceIndices(1, CutIndices, CutStarts, CutSizes)
    ensures 2 in FaceIndices(0, CutIndices, CutStarts, CutSizes) && 2 in FaceIndices(1, CutIndices, CutStarts, CutSizes)
    ensures MergeVerts(1, 2, 0, 1, CutIndices, CutStarts, CutSizes, CutMergeStart) == CutMerged1
  {
    CutFound1();
    CutFound2();
    CutRelabel12();
    CutAdj12();
    MergeVertsIs(1, 2, 0, 1, CutIndices, CutStarts, CutSizes, CutMergeStart, 1, 6, 2, 2, CutMerged1.1, CutMerged1.0);
  }

  /** 1-2 lies on faces 0 and 1: the copy 6 of vertex 1 in face 1 goes back to 1. */
  lemma CutMerge12()
    ensures MergeReady(CutMergeStart, CutIndices, CutStarts, CutSizes, CutAdj)
    ensures MergeEdge(Edge(1, 2), CutMergeStart, CutIndices, CutStarts, CutSizes, CutAdj) == CutMerged1
  {
    CutReady();
    assert SharedBy(Edge(1, 2), CutAdj, 0, 1) by {
      assert CutAdj[1] * CutAdj[2] == {0, 1};
    }
    CutMergeVerts12();
    MergeEdgeMerges(Edge(1, 2), CutMergeStart, CutIndices, CutStarts, CutSizes, CutAdj, 0, 1);
  }

  /** The copies of 3 in faces 2 and 3 once 1-2 is merged. */
  lemma CutFound3()
    ensures RunsInBounds(CutStarts, CutSizes, 12)
    ensures 3 in FaceIndices(2, CutIndices, CutStarts, CutSizes) && 3 in FaceIndices(3, CutIndices, CutStarts, CutSizes)
    ensures FindOldVertexInFace(3, 2, CutIndices, CutMerged1.0, CutStarts, CutSizes) == 8
    ensures FindOldVertexInFace(3, 3, CutIndices, CutMerged1.0, CutStarts, CutSizes) == 9
  {
    CutLayout();
    FoundIs(3, 2, CutIndices, CutMerged1.0, CutStarts, CutSizes, 0);
    FoundIs(3, 3, CutIndices, CutMerged1.0, CutStarts, CutSizes, 0);
  }

  /** The copies of 5 in faces 2 and 3 once 1-2 is merged. */
  lemma CutFound5()
    ensures RunsInBounds(CutStarts, CutSizes, 12)
    ensures 5 in FaceIndices(2, CutIndices, CutStarts, CutSizes) && 5 in FaceIndices(3, CutIndices, CutStarts, CutSizes)
    ensures FindOldVertexInFace(5, 2, CutIndices, CutMerged1.0, CutStarts, CutSizes) == 5
    ensures FindOldVertexInFace(5, 3, CutIndices, CutMerged1.0, CutStarts, CutSizes) == 5
  {
    CutLayout();
    FoundIs(5, 2, CutIndices, CutMerged1.0, CutStarts, CutSizes, 2);
    FoundIs(5, 3, CutIndices, CutMerged1.0, CutStarts, CutSizes, 1);
  }

  /** The face sets of the copies of 3 and 5 once 3-5 is merged. */
  lemma CutAdj35()
    ensures IndicesBelow(CutMerged1.0, |CutMerged1.1|)
    ensures var adj := CutMerged1.1;
            adj[8 := adj[8] + adj[9]][5 := adj[8 := adj[8] + adj[9]][5] + adj[8 := adj[8] + adj[9]][5]] == CutMerged2.1
    ensures CutMerged2.1[8] + CutMerged2.1[5] == {2, 3}
  {
    var adj := CutMerged1.1;
    assert adj[8] + adj[9] == {2, 3} && adj[5] + adj[5] == {2, 3};
  }

  /** Relabelling the slots of faces 2 and 3 for 3-5 puts the copy 9 back to 8. */
  lemma CutRelabel35()
    ensures |CutMerged1.0| == |CutIndices| && |CutStarts| == |CutSizes|
    ensures RelabelIn(CutMerged1.0, {2, 3}, CutIndices, CutStarts, CutSizes, 3, 5, 8, 5) == CutMerged2.0
  {
    var si := CutMerged1.0;
    var r := RelabelIn(si, {2, 3}, CutIndices, CutStarts, CutSizes, 3, 5, 8, 5);
    CutRelabelRun(si, {2, 3}, 3, 5, 8, 5, 0, [0, 1, 2]);
    CutRelabelRun(si, {2, 3}, 3, 5, 8, 5, 1, [2, 1, 3]);
    CutRelabelRun(si, {2, 3}, 3, 5, 8, 5, 2, [8, 7, 5]);
    CutRelabelRun(si, {2, 3}, 3, 5, 8, 5, 3, [8, 5, 4]);
    CutRuns(r);
  }

  /** Merging the copies of 3 and 5 found in faces 2 and 3. */
  lemma CutMergeVerts35()
    ensures RunsInBounds(CutStarts, CutSizes, 12) && IndicesBelow(CutMerged1.0, |CutMerged1.1|)
    ensures 3 in FaceIndices(2, CutIndices, CutStarts, CutSizes) && 3 in FaceIndices(3, CutIndices, CutStarts, CutSizes)
    ensures 5 in FaceIndices(2, CutIndices, CutStarts, CutSizes) && 5 in FaceIndices(3, CutIndices, CutStarts, CutSizes)
    ensures MergeVerts(3, 5, 2, 3, CutIndices, CutStarts, CutSizes, CutMerged1) == CutMerged2
  {
    CutFound3();
    CutFound5();
    CutRelabel35();
    CutAdj35();
    MergeVertsIs(3, 5, 2, 3, CutIndices, CutStarts, CutSizes, CutMerged1, 8, 9, 5, 5, CutMerged2.1, CutMerged2.0);
  }

  /** 3-5 lies on faces 2 and 3: the copy 9 of vertex 3 in face 3 joins the copy 8 in face 2. */
  lemma CutMerge35()
    ensures MergeReady(CutMerged1, CutIndices, CutStarts, CutSizes, CutAdj)
    ensures MergeEdge(Edge(3, 5), CutMerged1, CutIndices, CutStarts, CutSizes, CutAdj) == CutMerged2
  {
    CutReady();
    assert SharedBy(Edge(3, 5), CutAdj, 2, 3) by {
      assert CutAdj[3] * CutAdj[5] == {2, 3};
    }
    CutMergeVerts35();
    MergeEdgeMerges(Edge(3, 5), CutMerged1, CutIndices, CutStarts, CutSizes, CutAdj, 2, 3);
  }

  const CutPending0: set<Edge> := {Edge(0, 1), Edge(1, 2), Edge(1, 5), Edge(2, 3), Edge(3, 4), Edge(3, 5)}
  const CutPending1: set<Edge> := {Edge(1, 2), Edge(1, 5), Edge(2, 3), Edge(3, 4), Edge(3, 5)}
  const CutPending2: set<Edge> := {Edge(1, 5), Edge(2, 3), Edge(3, 4), Edge(3, 5)}
  const CutPending3: set<Edge> := {Edge(2, 3), Edge(3, 4), Edge(3, 5)}
  const CutPending4: set<Edge> := {Edge(3, 4), Edge(3, 5)}
  const CutPending5: set<Edge> := {Edge(3, 5)}

  /** The order in which the edge loop takes the recorded edges, first half. */
  lemma CutPendingOrderFirst()
    ensures LeastPending(Edge(0, 1), CutPending0, 6) && CutPending0 - {Edge(0, 1)} == CutPending1
    ensures LeastPending(Edge(1, 2), CutPending1, 6) && CutPending1 - {Edge(1, 2)} == CutPending2
    ensures LeastPending(Edge(1, 5), CutPending2, 6) && CutPending2 - {Edge(1, 5)} == CutPending3
  {
  }

  /** The order in which the edge loop takes the recorded edges, second half. */
  lemma CutPendingOrderLast()
    ensures LeastPending(Edge(2, 3), CutPending3, 6) && CutPending3 - {Edge(2, 3)} == CutPending4
    ensures LeastPending(Edge(3, 4), CutPending4, 6) && CutPending4 - {Edge(3, 4)} == CutPending5
    ensures LeastPending(Edge(3, 5), CutPending5, 6) && CutPending5 - {Edge(3, 5)} == {}
  {
  }

  /** First merge step: 0-1 is the least recorded edge and changes nothing. */
  lemma CutMergeFirst()
    ensures MergeReady(CutMergeStart, CutIndices, CutStarts, CutSizes, CutAdj) && MergeReady(CutMergeStart, CutIndices, CutStarts, CutSizes, CutAdj)
    ensures EdgesBelow(CutPending0, |CutAdj|)
    ensures MergeEdges(CutPending0, CutMergeStart, CutIndices, CutStarts, CutSizes, CutAdj)
         == MergeEdges(CutPending1, CutMergeStart, CutIndices, CutStarts, CutSizes, CutAdj)
  {
    CutPendingOrderFirst();
    CutSkips();
    MergeLeast(CutPending0, CutMergeStart, CutIndices, CutStarts, CutSizes, CutAdj, Edge(0, 1), CutMergeStart);
  }

  /** Second merge step: 1-2 is merged. */
  lemma CutMergeSecond()
    ensures MergeReady(CutMergeStart, CutIndices, CutStarts, CutSizes, CutAdj) && MergeReady(CutMerged1, CutIndices, CutStarts, CutSizes, CutAdj)
    ensures EdgesBelow(CutPending1, |CutAdj|)
    ensures MergeEdges(CutPending1, CutMergeStart, CutIndices, CutStarts, CutSizes, CutAdj)
         == MergeEdges(CutPending2, CutMerged1, CutIndices, CutStarts, CutSizes, CutAdj)
  {
    CutPendingOrderFirst();
    CutMerge12();
    MergeLeast(CutPending1, CutMergeStart, CutIndices, CutStarts, CutSizes, CutAdj, Edge(1, 2), CutMerged1);
  }

  /** Third merge step: 1-5 changes nothing. */
  lemma CutMergeThird()
    ensures MergeReady(CutMerged1, CutIndices, CutStarts, CutSizes, CutAdj) && MergeReady(CutMerged1, CutIndices, CutStarts, CutSizes, CutAdj)
    ensures EdgesBelow(CutPending2, |CutAdj|)
    ensures MergeEdges(CutPending2, CutMerged1, CutIndices, CutStarts, CutSizes, CutAdj)
         == MergeEdges(CutPending3, CutMerged1, CutIndices, CutStarts, CutSizes, CutAdj)
  {
    CutPendingOrderFirst();
    CutSkips();
    MergeLeast(CutPending2, CutMerged1, CutIndices, CutStarts, CutSizes, CutAdj, Edge(1, 5), CutMerged1);
  }

  /** Fourth merge step: 2-3 changes nothing. */
  lemma CutMergeFourth()
    ensures MergeReady(CutMerged1, CutIndices, CutStarts, CutSizes, CutAdj) && MergeReady(CutMerged1, CutIndices, CutStarts, CutSizes, CutAdj)
    ensures EdgesBelow(CutPending3, |CutAdj|)
    ensures MergeEdges(CutPending3, CutMerged1, CutIndices, CutStarts, CutSizes, CutAdj)
         == MergeEdges(CutPending4, CutMerged1, CutIndices, CutStarts, CutSizes, CutAdj)
  {
    CutPendingOrderLast();
    CutSkips();
    MergeLeast(CutPending3, CutMerged1, CutIndices, CutStarts, CutSizes, CutAdj, Edge(2, 3), CutMerged1);
  }

  /** Fifth merge step: 3-4 changes nothing. */
  lemma CutMergeFifth()
    ensures MergeReady(CutMerged1, CutIndices, CutStarts, CutSizes, CutAdj) && MergeReady(CutMerged1, CutIndices, CutStarts, CutSizes, CutAdj)
    ensures EdgesBelow(CutPending4, |CutAdj|)
    ensures MergeEdges(CutPending4, CutMerged1, CutIndices, CutStarts, CutSizes, CutAdj)
         == MergeEdges(CutPending5, CutMerged1, CutIndices, CutStarts, CutSizes, CutAdj)
  {
    CutPendingOrderLast();
    CutSkips();
    MergeLeast(CutPending4, CutMerged1, CutIndices, CutStarts, CutSizes, CutAdj, Edge(3, 4), CutMerged1);
  }

  /** Last merge step: 3-5 is merged and the loop ends. */
  lemma CutMergeLast()
    ensures MergeReady(CutMerged1, CutIndices, CutStarts, CutSizes, CutAdj) && EdgesBelow(CutPending5, |CutAdj|)
    ensures MergeEdges(CutPending5, CutMerged1, CutIndices, CutStarts, CutSizes, CutAdj) == CutMerged2
  {
    CutPendingOrderLast();
    CutMerge35();
    MergeLeast(CutPending5, CutMerged1, CutIndices, CutStarts, CutSizes, CutAdj, Edge(3, 5), CutMerged2);
  }

  /** The recorded edges other than the marked 1-3 are merged in order: only 1-2 and 3-5 change anything. */
  lemma CutMerge()
    ensures MergeReady(CutMergeStart, CutIndices, CutStarts, CutSizes, CutAdj) && EdgesBelow(CutPending0, |CutAdj|)
    ensures MergeEdges(CutPending0, CutMergeStart, CutIndices, CutStarts, CutSizes, CutAdj) == CutMerged2
  {
    CutMergeFirst();
    CutMergeSecond();
    CutMergeThird();
    CutMergeFourth();
    CutMergeFifth();
    CutMergeLast();
  }

  /** The normal test never fires: no edge is sharp. */
  lemma CutNoSharp()
    ensures RunsInBounds(CutStarts, CutSizes, |CutIndices|) && IndicesBelow(CutIndices, |CutAdj|)
    ensures SharpEdges(|CutStarts|, CutIndices, CutStarts, CutSizes, CutAdj, NoSharp) == {}
  {
    CutLayout();
    NoSharpEdges(|CutStarts|, CutIndices, CutStarts, CutSizes, CutAdj, NoSharp);
  }

  /** The edge the caller marks. */
  lemma CutGiven()
    ensures GivenEdges([(1, 3)]) == {Edge(1, 3)}
  {
    assert GivenEdges([(1, 3)]) == {Edge(1, 3)};
  }

  /** With no sharp faces, the marked edges are the given 1-3 alone. */
  lemma CutToSplit()
    ensures RunsInBounds(CutStarts, CutSizes, |CutIndices|) && IndicesBelow(CutIndices, |CutAdj|)
    ensures GivenEdges([(1, 3)])
            + SharpEdges(|CutStarts|, CutIndices, CutStarts, CutSizes, CutAdj, NoSharp)
         == {Edge(1, 3)}
  {
    CutNoSharp();
    CutGiven();
  }

  /** The arguments of the split-and-merge step are well formed. */
  lemma CutSplitReady()
    ensures SplitReady(CutVertices, CutIndices, CutStarts, CutSizes, {Edge(1, 3)}, CutAdj)
  {
    CutLayout();
    CutAdjacent();
  }

  /** The pieces of the split state the merge starts from. */
  lemma CutSplitParts()
    ensures EndPoints({Edge(1, 3)}) == {1, 3} && CutSplit0 == (CutVertices, CutIndices, {})
    ensures CutSplit6.0 == [0, 1, 2, 3, 4, 5, 1, 1, 3, 3] && CutSplit6.1 == CutSplitIndices
    ensures CutSplit6.2 - {Edge(1, 3)} == CutPending0
  {
    assert EndPoints({Edge(1, 3)}) == {1, 3};
  }

  /** Splitting 1 and 3 and merging back every recorded edge but 1-3 leaves two copies on the right. */
  lemma CutSplitMerge()
    ensures SplitReady(CutVertices, CutIndices, CutStarts, CutSizes, {Edge(1, 3)}, CutAdj)
    ensures SplitMerge(CutVertices, CutIndices, CutStarts, CutSizes, {Edge(1, 3)}, CutAdj)
         == ([0, 1, 2, 3, 4, 5, 1, 1, 3, 3], CutMerged2.0)
  {
    CutSplitReady();
    CutSplitParts();
    CutSplit();
    CutNewAdjacency();
    CutMerge();
    SplitMergeIs(CutVertices, CutIndices, CutStarts, CutSizes, {Edge(1, 3)}, CutAdj, CutSplit6, CutNewAdj, CutMerged2);
  }

  const CutKept: seq<nat> := [0, 1, 2, 3, 4, 5, 7, 8]
  const CutResultIndices: seq<nat> := [0, 1, 2, 2, 1, 3, 7, 6, 5, 7, 5, 4]

  /** The used indices after merging are 0 to 5, 7 and 8. */
  lemma CutUsed()
    ensures forall x :: x in CutKept <==> x in CutMerged2.0
  {
    var si := CutMerged2.0;
    assert si[0] == 0 && si[1] == 1 && si[2] == 2 && si[5] == 3 && si[11] == 4;
    assert si[8] == 5 && si[7] == 7 && si[6] == 8;
  }

  /** Each slot's new index points at its old index among the kept ones. */
  lemma CutRenumbered()
    ensures |CutResultIndices| == |CutMerged2.0|
    ensures forall k :: 0 <= k < |CutMerged2.0| ==>
      CutResultIndices[k] < |CutKept| && CutKept[CutResultIndices[k]] == CutMerged2.0[k]
  {
  }

  /** The copies 6 and 9 are loose: 7 and 8 move down to 6 and 7. */
  lemma CutRemoveLoose()
    ensures IndicesBelow(CutMerged2.0, 10)
    ensures RemoveLoose([0, 1, 2, 3, 4, 5, 1, 1, 3, 3], CutMerged2.0) == ([0, 1, 2, 3, 4, 5, 1, 3], CutResultIndices)
  {
    CutUsed();
    CutRenumbered();
    RemoveLooseIs([0, 1, 2, 3, 4, 5, 1, 1, 3, 3], CutMerged2.0, CutKept, [0, 1, 2, 3, 4, 5, 1, 3], CutResultIndices);
  }

  /** The arguments of `split_edges` are well formed and the adjacency is `CutAdj`. */
  lemma CutSpecReady()
    ensures SpecReady(CutVertices, CutIndices, CutStarts, CutSizes, [(1, 3)])
    ensures AdjacencyOf(|CutVertices|, CutIndices, CutStarts, CutSizes) == CutAdj && |CutAdj| == |CutVertices|
  {
    CutLayout();
    CutAdjacency();
  }

  /**
   * split_edges_split_two_triangulated_quads: marking the inner edge 1-3
   * cuts the two quads apart, with copies of 1 and 3 as the new vertices 6 and 7.
   */
  lemma SplitCutQuads()
    ensures SpecReady(CutVertices, CutIndices, CutStarts, CutSizes, [(1, 3)])
    ensures SplitEdgesSpec(CutVertices, CutIndices, CutStarts, CutSizes, [(1, 3)], NoSharp)
         == ([0, 1, 2, 3, 4, 5, 1, 3], [0, 1, 2, 2, 1, 3, 7, 6, 5, 7, 5, 4])
  {
    CutSpecReady();
    CutToSplit();
    CutSplitMerge();
    CutRemoveLoose();
    SplitEdgesSpecIs(CutVertices, CutIndices, CutStarts, CutSizes, [(1, 3)], NoSharp,
                     CutAdj, {Edge(1, 3)}, ([0, 1, 2, 3, 4, 5, 1, 1, 3, 3], CutMerged2.0),
                     ([0, 1, 2, 3, 4, 5, 1, 3], CutResultIndices));
  }
}

/**
 * The mesh handling around OpenVDB's mesh conversions: the post-processing
 * of roAsMesh (quad split, scaling, winding reversal) and the conversion of
 * a mesh to voxel coordinates in RenderMesh. The extractor (volumeToMesh)
 * and the voxeliser (meshToLevelSet) are OpenVDB's and are not modelled;
 * their output and input are the parameters and results here.
 */
module VoxelMesh {
  import opened Types
  import opened Meshes

  /** A quad of the extractor: four vertex indices. */
  datatype Quad = Quad(a: int, b: int, c: int, d: int)

  /** The triangle with its winding reversed: (t2, t1, t0). */
  function Reversed(t: Triangle): Triangle { Coord(t.z, t.y, t.x) }

  lemma ReversedTwice(t: Triangle)
    ensures Reversed(Reversed(t)) == t
  {
  }

  /** The two triangles a quad is split into: (a, b, c), then (c, d, a). */
  function QuadTriangles(q: Quad): seq<Triangle>
  {
    [Coord(q.a, q.b, q.c), Coord(q.c, q.d, q.a)]
  }

  /** The triangles of the extractor with every quad's two triangles appended in quad order. */
  function WithQuads(tris: seq<Triangle>, quads: seq<Quad>): (r: seq<Triangle>)
    ensures |r| == |tris| + 2 * |quads|
    ensures r[..|tris|] == tris
    ensures forall i :: 0 <= i < |quads| ==> r[|tris| + 2 * i] == Coord(quads[i].a, quads[i].b, quads[i].c)
    ensures forall i :: 0 <= i < |quads| ==> r[|tris| + 2 * i + 1] == Coord(quads[i].c, quads[i].d, quads[i].a)
    decreases |quads|
  {
    if |quads| == 0 then tris
    else
      var r := WithQuads(tris, quads[..|quads| - 1]) + QuadTriangles(quads[|quads| - 1]);
      assert forall i :: 0 <= i < |quads| - 1 ==> quads[..|quads| - 1][i] == quads[i];
      r
  }

  /** Every index of t lies in 0..n - 1. */
  predicate IndicesIn(t: Triangle, n: int) { IndicesNonNegative(t) && IndicesBelow(t, n) }

  predicate QuadIndicesIn(q: Quad, n: int) { 0 <= q.a < n && 0 <= q.b < n && 0 <= q.c < n && 0 <= q.d < n }

  /** Both triangles of a quad use only the quad's indices, and share its diagonal from c to a. */
  lemma QuadTrianglesIndices(q: Quad, n: int)
    requires QuadIndicesIn(q, n)
    ensures forall t :: t in QuadTriangles(q) ==> IndicesIn(t, n)
    ensures QuadTriangles(q)[0].z == QuadTriangles(q)[1].x && QuadTriangles(q)[1].z == QuadTriangles(q)[0].x
  {
  }

  /** The quad loop of roAsMesh: `push_back` of both triangles of each quad onto the triangle list. */
  method SplitQuads(tris: seq<Triangle>, quads: seq<Quad>) returns (all: seq<Triangle>)
    ensures all == WithQuads(tris, quads)
  {
    all := tris;
    for i := 0 to |quads|
      invariant all == WithQuads(tris, quads[..i])
    {
      var q := quads[i];
      all := all + [Coord(q.a, q.b, q.c)];
      all := all + [Coord(q.c, q.d, q.a)];
      assert quads[..i + 1][..i] == quads[..i];
    }
    assert quads[..|quads|] == quads;
  }

  /**
   * roAsMesh after the extractor: the points scaled by the voxel size become
   * the vertices, in order; the triangles, then the two triangles of every
   * quad, become the triangles with reversed winding.
   */
  method AsMesh(points: seq<Vec3>, tris: seq<Triangle>, quads: seq<Quad>, voxelSizeMM: real) returns (mesh: Mesh)
    requires |points| + 1 < INT32_MAX && |tris| + 2 * |quads| + 1 < INT32_MAX
    requires forall i :: 0 <= i < |tris| ==> IndicesIn(tris[i], |points|)
    requires forall i :: 0 <= i < |quads| ==> QuadIndicesIn(quads[i], |points|)
    ensures fresh(mesh) && mesh.Valid()
    ensures |mesh.vertices| == |points| && forall i :: 0 <= i < |points| ==> mesh.vertices[i] == Scale(points[i], voxelSizeMM)
    ensures |mesh.triangles| == |tris| + 2 * |quads|
    ensures forall i :: 0 <= i < |mesh.triangles| ==> mesh.triangles[i] == Reversed(WithQuads(tris, quads)[i])
  {
    var all := SplitQuads(tris, quads);
    forall i | 0 <= i < |all| ensures IndicesIn(all[i], |points|) {
      if i >= |tris| {
        var k := (i - |tris|) / 2;
        assert 0 <= k < |quads| && QuadIndicesIn(quads[k], |points|);
        if i == |tris| + 2 * k {
          assert all[i] == Coord(quads[k].a, quads[k].b, quads[k].c);
        } else {
          assert i == |tris| + 2 * k + 1;
          assert all[i] == Coord(quads[k].c, quads[k].d, quads[k].a);
        }
      } else {
        assert all[i] == all[..|tris|][i];
      }
    }
    mesh := new Mesh();
    for i := 0 to |points|
      invariant mesh.Valid() && fresh(mesh) && mesh.triangles == []
      invariant |mesh.vertices| == i && forall k :: 0 <= k < i ==> mesh.vertices[k] == Scale(points[k], voxelSizeMM)
    {
      var _ := mesh.AddVertex(Scale(points[i], voxelSizeMM));
    }
    for i := 0 to |all|
      invariant mesh.Valid() && fresh(mesh) && |mesh.vertices| == |points|
      invariant forall k :: 0 <= k < |points| ==> mesh.vertices[k] == Scale(points[k], voxelSizeMM)
      invariant |mesh.triangles| == i && forall k :: 0 <= k < i ==> mesh.triangles[k] == Reversed(all[k])
    {
      var _ := mesh.AddTriangle(Reversed(all[i]));
    }
  }

  /**
   * The vertex conversion of RenderMesh: for each triangle of the source
   * mesh, its three corners are converted to voxel coordinates and added as
   * three fresh vertices with one triangle over them. A triangle with a
   * negative index makes GetTriangle's `at` throw out of RenderMesh;
   * `thrown` says so, and dst holds the triangles converted before it.
   */
  method ToVoxelCoordinates(src: Mesh, vs: VoxelSize) returns (thrown: bool, dst: Mesh)
    requires src.Valid()
    requires 3 * |src.triangles| + 3 < INT32_MAX
    ensures fresh(dst) && dst.Valid()
    ensures |dst.triangles| <= |src.triangles| && |dst.vertices| == 3 * |dst.triangles|
    ensures thrown <==> |dst.triangles| < |src.triangles|
    ensures thrown ==> !IndicesNonNegative(src.triangles[|dst.triangles|])
    ensures src.Addressable() ==> !thrown
    ensures forall n :: 0 <= n < |dst.triangles| ==> IndicesNonNegative(src.triangles[n]) && dst.triangles[n] == Coord(3 * n, 3 * n + 1, 3 * n + 2)
    ensures forall n :: 0 <= n < |dst.triangles| ==>
      IndicesNonNegative(src.triangles[n]) &&
      dst.vertices[3 * n] == VecToVoxels(src.vertices[src.triangles[n].x], vs) &&
      dst.vertices[3 * n + 1] == VecToVoxels(src.vertices[src.triangles[n].y], vs) &&
      dst.vertices[3 * n + 2] == VecToVoxels(src.vertices[src.triangles[n].z], vs)
  {
    dst := new Mesh();
    thrown := false;
    var n := 0;
    while n < |src.triangles|
      invariant 0 <= n <= |src.triangles|
      invariant dst.Valid() && fresh(dst)
      invariant |dst.vertices| == 3 * n && |dst.triangles| == n
      invariant forall k :: 0 <= k < n ==> IndicesNonNegative(src.triangles[k]) && dst.triangles[k] == Coord(3 * k, 3 * k + 1, 3 * k + 2)
      invariant forall k :: 0 <= k < n ==>
        IndicesNonNegative(src.triangles[k]) &&
        dst.vertices[3 * k] == VecToVoxels(src.vertices[src.triangles[k].x], vs) &&
        dst.vertices[3 * k + 1] == VecToVoxels(src.vertices[src.triangles[k].y], vs) &&
        dst.vertices[3 * k + 2] == VecToVoxels(src.vertices[src.triangles[k].z], vs)
    {
      var corners := src.GetTriangleVertices(n);
      if corners.None? {
        thrown := true;
        return;
      }
      var (a, b, c) := corners.value;
      var _ := dst.AddTriangleVertices(VecToVoxels(a, vs), VecToVoxels(b, vs), VecToVoxels(c, vs));
      n := n + 1;
    }
  }
}

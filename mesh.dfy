/**
 * The triangle mesh container: append-only vertex and triangle lists and a
 * bounding box that grows with every vertex added.
 */
module Meshes {
  import opened Types
  import opened Wrappers

  /** Triangle `t` refers only to vertices below `count` (the only check the source makes). */
  predicate IndicesBelow(t: Triangle, count: int)
  {
    t.x < count && t.y < count && t.z < count
  }

  predicate IndicesNonNegative(t: Triangle)
  {
    0 <= t.x && 0 <= t.y && 0 <= t.z
  }

  /** The unit normal of the triangle (a, b, c), with `sqrt` standing for std::sqrt. */
  function TriangleNormal(a: Vec3, b: Vec3, c: Vec3, sqrt: real -> real): Vec3
  {
    var n := Cross(Sub(b, a), Sub(c, a));
    Normalized(n, sqrt(LengthSquared(n)))
  }

  /**
   * The point-in-triangle test of bIsPointInTriangle, against the normal `n`:
   * the two triple products n . (v0 x v1) and n . (v0 x v2) must not have
   * strictly opposite signs.
   */
  predicate SameSideTest(p: Vec3, a: Vec3, b: Vec3, c: Vec3, n: Vec3)
  {
    var v0, v1, v2 := Sub(a, p), Sub(b, p), Sub(c, p);
    var dot01, dot02 := Dot(n, Cross(v0, v1)), Dot(n, Cross(v0, v2));
    (dot01 >= 0.0 && dot02 >= 0.0) || (dot01 <= 0.0 && dot02 <= 0.0)
  }

  /** A triangle's own first vertex always passes the test, whatever the normal. */
  lemma FirstVertexPasses(a: Vec3, b: Vec3, c: Vec3, n: Vec3)
    ensures SameSideTest(a, a, b, c, n)
  {
    assert Sub(a, a) == Vec3(0.0, 0.0, 0.0);
    assert Cross(Sub(a, a), Sub(b, a)) == Vec3(0.0, 0.0, 0.0);
    assert Cross(Sub(a, a), Sub(c, a)) == Vec3(0.0, 0.0, 0.0);
  }

  /**
   * The outcome of the test is the same for the normalised and the raw
   * triangle normal: normalising divides by a positive length.
   */
  lemma {:induction false} TestIgnoresNormalisation(p: Vec3, a: Vec3, b: Vec3, c: Vec3, n: Vec3, length: real)
    requires length > 0.0
    ensures SameSideTest(p, a, b, c, Normalized(n, length)) == SameSideTest(p, a, b, c, n)
  {
    var v0, v1, v2 := Sub(a, p), Sub(b, p), Sub(c, p);
    var u := Normalized(n, length);
    DotScaled(u, Cross(v0, v1), length);
    DotScaled(u, Cross(v0, v2), length);
    SignOfScaled(Dot(u, Cross(v0, v1)), length);
    SignOfScaled(Dot(u, Cross(v0, v2)), length);
  }

  lemma DotScaled(u: Vec3, w: Vec3, k: real)
    ensures Dot(Scale(u, k), w) == Dot(u, w) * k
  {
  }

  lemma SignOfScaled(d: real, k: real)
    requires k > 0.0
    ensures (d * k >= 0.0) == (d >= 0.0) && (d * k <= 0.0) == (d <= 0.0)
  {
    if d > 0.0 { assert d * k > 0.0; }
    if d < 0.0 { assert (-d) * k > 0.0; }
  }

  class Mesh {
    var vertices: seq<Vec3>
    var triangles: seq<Triangle>
    var bbox: BBox3

    /**
     * Every vertex lies in the bounding box, every triangle index is below
     * the vertex count, and both counts stay below INT32_MAX (the counters
     * assert it).
     */
    ghost predicate Valid()
      reads this
    {
      |vertices| < INT32_MAX && |triangles| < INT32_MAX &&
      (forall i :: 0 <= i < |vertices| ==> Contains(bbox, vertices[i])) &&
      (forall t :: 0 <= t < |triangles| ==> IndicesBelow(triangles[t], |vertices|))
    }

    constructor ()
      ensures Valid()
      ensures vertices == [] && triangles == [] && bbox == DefaultBBox()
    {
      vertices, triangles, bbox := [], [], DefaultBBox();
    }

    /** nVertexCount */
    function VertexCount(): (n: int)
      reads this
      requires Valid()
      ensures 0 <= n < INT32_MAX
    {
      |vertices|
    }

    /** nTriangleCount */
    function TriangleCount(): (n: int)
      reads this
      requires Valid()
      ensures 0 <= n < INT32_MAX
    {
      |triangles|
    }

    /** nAddVertex: grows the box by the vertex, appends it and returns its index. */
    method AddVertex(v: Vec3) returns (n: int)
      requires Valid() && |vertices| + 1 < INT32_MAX
      modifies this
      ensures Valid()
      ensures n == old(|vertices|)
      ensures vertices == old(vertices) + [v] && triangles == old(triangles)
      ensures bbox == Include(old(bbox), v)
      ensures Contains(bbox, v)
    {
      bbox := Include(bbox, v);
      vertices := vertices + [v];
      n := |vertices| - 1;
    }

    /**
     * nAddTriangle(Triangle): the indices must be below the vertex count
     * (negative indices are not rejected); appends and returns the index.
     */
    method AddTriangle(t: Triangle) returns (n: int)
      requires Valid() && |triangles| + 1 < INT32_MAX
      requires IndicesBelow(t, |vertices|)
      modifies this
      ensures Valid()
      ensures n == old(|triangles|)
      ensures triangles == old(triangles) + [t]
      ensures vertices == old(vertices) && bbox == old(bbox)
    {
      triangles := triangles + [t];
      n := |triangles| - 1;
    }

    /** nAddTriangle(A, B, C): three fresh vertices and the triangle (n, n+1, n+2) over them. */
    method AddTriangleVertices(a: Vec3, b: Vec3, c: Vec3) returns (n: int)
      requires Valid() && |vertices| + 3 < INT32_MAX && |triangles| + 1 < INT32_MAX
      modifies this
      ensures Valid()
      ensures n == old(|triangles|)
      ensures vertices == old(vertices) + [a, b, c]
      ensures triangles == old(triangles) + [Coord(old(|vertices|), old(|vertices|) + 1, old(|vertices|) + 2)]
      ensures bbox == Include(Include(Include(old(bbox), a), b), c)
    {
      var ia := AddVertex(a);
      var ib := AddVertex(b);
      var ic := AddVertex(c);
      n := AddTriangle(Coord(ia, ib, ic));
    }

    /** GetVertex: `at` throws for a negative index, which is None here. */
    function GetVertex(n: int): (r: Option<Vec3>)
      reads this
      requires Valid() && n < |vertices|
      ensures r.Some? <==> 0 <= n
      ensures r.Some? ==> r.value == vertices[n]
    {
      if n < 0 then None else Some(vertices[n])
    }

    /** GetTriangle(n, &tri) */
    function GetTriangle(n: int): (r: Option<Triangle>)
      reads this
      requires Valid() && n < |triangles|
      ensures r.Some? <==> 0 <= n
      ensures r.Some? ==> r.value == triangles[n] && IndicesBelow(r.value, |vertices|)
    {
      if n < 0 then None else Some(triangles[n])
    }

    /** GetTriangle(n, &a, &b, &c): the three vertices the triangle's indices name. */
    function GetTriangleVertices(n: int): (r: Option<(Vec3, Vec3, Vec3)>)
      reads this
      requires Valid() && n < |triangles|
      ensures r.Some? <==> 0 <= n && IndicesNonNegative(triangles[n])
      ensures r.Some? ==> r.value == (vertices[triangles[n].x], vertices[triangles[n].y], vertices[triangles[n].z])
    {
      if n < 0 || !IndicesNonNegative(triangles[n]) then None
      else
        var t := triangles[n];
        Some((vertices[t.x], vertices[t.y], vertices[t.z]))
    }

    /** GetBoundingBox: the box holds every vertex added so far. */
    function GetBoundingBox(): (b: BBox3)
      reads this
      requires Valid()
      ensures forall i :: 0 <= i < |vertices| ==> Contains(b, vertices[i])
    {
      bbox
    }

    /** Every triangle's indices are non-negative, so no vertex look-up of a scan throws. */
    ghost predicate Addressable()
      reads this
      requires Valid()
    {
      forall t :: 0 <= t < |triangles| ==> IndicesNonNegative(triangles[t])
    }

    /** The normal bIsPointInTriangle writes for triangle t. */
    ghost function NormalOf(t: int, sqrt: real -> real): Vec3
      reads this
      requires Valid() && 0 <= t < |triangles| && IndicesNonNegative(triangles[t])
    {
      var tri := triangles[t];
      TriangleNormal(vertices[tri.x], vertices[tri.y], vertices[tri.z], sqrt)
    }

    /** Whether bIsPointInTriangle accepts point p for triangle t. */
    ghost predicate PassesAt(p: Vec3, t: int, sqrt: real -> real)
      reads this
      requires Valid() && 0 <= t < |triangles| && IndicesNonNegative(triangles[t])
    {
      var tri := triangles[t];
      SameSideTest(p, vertices[tri.x], vertices[tri.y], vertices[tri.z], NormalOf(t, sqrt))
    }

    /** The first n triangles were looked up without a throw and none of them passed. */
    ghost predicate Scanned(p: Vec3, n: int, sqrt: real -> real)
      reads this
      requires Valid() && n <= |triangles|
    {
      forall s :: 0 <= s < n ==> IndicesNonNegative(triangles[s]) && !PassesAt(p, s, sqrt)
    }

    /** The out-normal after n completed tests: the caller's value, or the n-th triangle's normal. */
    ghost function NormalAfter(p: Vec3, n: int, normalIn: Vec3, sqrt: real -> real): Vec3
      reads this
      requires Valid() && 0 <= n <= |triangles| && Scanned(p, n, sqrt)
    {
      if n == 0 then normalIn else NormalOf(n - 1, sqrt)
    }

    /**
     * bGetSurfaceNormal: scans the triangles in index order and stops at the
     * first one whose test passes. The out-normal is overwritten by every test,
     * so on failure it holds the last triangle's normal, or the caller's
     * value when the mesh has no triangles. A triangle with a negative index
     * makes GetTriangle's `at` throw; `thrown` says the scan ended there,
     * with the normal of the last completed test.
     */
    method GetSurfaceNormal(p: Vec3, normalIn: Vec3, sqrt: real -> real) returns (thrown: bool, found: bool, normal: Vec3)
      requires Valid()
      ensures !(thrown && found)
      ensures Addressable() ==> !thrown
      ensures Addressable() ==> (found <==> exists t :: 0 <= t < |triangles| && PassesAt(p, t, sqrt))
      ensures !thrown && !found <==> Scanned(p, |triangles|, sqrt)
      ensures !thrown && !found ==> normal == NormalAfter(p, |triangles|, normalIn, sqrt)
      ensures found ==> exists t :: 0 <= t < |triangles| && Scanned(p, t, sqrt) &&
                                   IndicesNonNegative(triangles[t]) && PassesAt(p, t, sqrt) && normal == NormalOf(t, sqrt)
      ensures thrown ==> exists t :: 0 <= t < |triangles| && Scanned(p, t, sqrt) &&
                                    !IndicesNonNegative(triangles[t]) && normal == NormalAfter(p, t, normalIn, sqrt)
    {
      normal := normalIn;
      found, thrown := false, false;
      var n := 0;
      while n < |triangles|
        invariant 0 <= n <= |triangles|
        invariant Scanned(p, n, sqrt)
        invariant normal == NormalAfter(p, n, normalIn, sqrt)
      {
        var tri := triangles[n];
        if !IndicesNonNegative(tri) {
          thrown := true;
          return;
        }
        var a, b, c := vertices[tri.x], vertices[tri.y], vertices[tri.z];
        normal := TriangleNormal(a, b, c, sqrt);
        if SameSideTest(p, a, b, c, normal) {
          found := true;
          assert PassesAt(p, n, sqrt);
          return;
        }
        n := n + 1;
      }
    }
  }
}

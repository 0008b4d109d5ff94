/**
 * The binary STL reader of the API tests, from the point where the file's
 * bytes are in memory: an 80-byte header, a little-endian int32 facet count
 * at offset 80, then packed 50-byte facets (a normal, three corners of three
 * floats each, a 16-bit attribute). Each facet appends its three corners to
 * the caller's vertex list and one triangle over them to the caller's
 * triangle list. A corner is copied bit for bit, so a vertex is modelled as
 * the twelve bytes it is copied from.
 */
module Stl {
  import opened Bytes

  /** 80 header bytes and the 4-byte count. */
  const FACETS_START: int := 84
  /** sizeof(StlItem) under pack(1). */
  const FACET_SIZE: int := 50
  /** The smallest file the reader looks into: the header, the count and one facet. */
  const MIN_SIZE: int := 134

  /** A vertex as the reader copies it: the twelve bytes of its three floats. */
  type VertexBytes = seq<byte>

  type uint32 = n: int | 0 <= n < UINT32_MOD

  /** A triangle of the caller's list: three uint32 vertex indices. */
  datatype IndexTriangle = IndexTriangle(a: uint32, b: uint32, c: uint32)

  /** The int32 facet count at offset 80. */
  function FacetCount(buf: seq<byte>): int
    requires |buf| >= FACETS_START
  {
    I32At(buf, 80)
  }

  /** The size checks of the reader: at least one facet's worth, a positive count, and that many facets present. */
  predicate Accepts(buf: seq<byte>)
  {
    |buf| >= MIN_SIZE && FacetCount(buf) > 0 && |buf| >= FACETS_START + 50 * FacetCount(buf)
  }

  function FacetStart(k: int): int { FACETS_START + 50 * k }

  /** Corner j (A, B, C for j = 0, 1, 2) of facet k: the twelve bytes after the normal and the corners before it. */
  function Corner(buf: seq<byte>, k: int, j: int): (v: VertexBytes)
    requires 0 <= k && 0 <= j < 3 && FacetStart(k) + FACET_SIZE <= |buf|
    ensures |v| == 12
  {
    buf[FacetStart(k) + 12 + 12 * j..FacetStart(k) + 24 + 12 * j]
  }

  /** uint32 wrap-around. */
  function U32(n: int): (r: uint32)
    ensures 0 <= r < UINT32_MOD && (0 <= n < UINT32_MOD ==> r == n)
  {
    n % UINT32_MOD
  }

  /** The triangle of a facet whose first corner lands at vertex index n: `A = (uint32_t) size`, then A + 1 and A + 2 in uint32. */
  function FacetTriangle(n: int): IndexTriangle
  {
    var a := U32(n);
    IndexTriangle(a, U32(a + 1), U32(a + 2))
  }

  /** The vertices the first n facets append. */
  function ParsedVertices(buf: seq<byte>, n: int): (r: seq<VertexBytes>)
    requires 0 <= n && FacetStart(n) <= |buf|
    ensures |r| == 3 * n
    decreases n
  {
    if n == 0 then []
    else ParsedVertices(buf, n - 1) + [Corner(buf, n - 1, 0), Corner(buf, n - 1, 1), Corner(buf, n - 1, 2)]
  }

  /** The triangles the first n facets append to a vertex list that held `base` vertices. */
  function ParsedTriangles(base: int, n: int): (r: seq<IndexTriangle>)
    requires 0 <= n
    ensures |r| == n
    decreases n
  {
    if n == 0 then [] else ParsedTriangles(base, n - 1) + [FacetTriangle(base + 3 * (n - 1))]
  }

  /** The facet loop appends three corners per facet, in facet order and A, B, C order. */
  lemma {:induction false} ParsedVerticesAt(buf: seq<byte>, n: int)
    requires 0 <= n && FacetStart(n) <= |buf|
    ensures forall k, j :: 0 <= k < n && 0 <= j < 3 ==> ParsedVertices(buf, n)[3 * k + j] == Corner(buf, k, j)
    decreases n
  {
    if n > 0 {
      ParsedVerticesAt(buf, n - 1);
      var p := ParsedVertices(buf, n - 1);
      assert ParsedVertices(buf, n) == p + [Corner(buf, n - 1, 0), Corner(buf, n - 1, 1), Corner(buf, n - 1, 2)];
      forall k, j | 0 <= k < n && 0 <= j < 3
        ensures ParsedVertices(buf, n)[3 * k + j] == Corner(buf, k, j)
      {
        if k < n - 1 {
          assert 3 * k + j < |p|;
        }
      }
    }
  }

  /** Triangle k of the appended ones starts at vertex index base + 3k, wrapped to uint32. */
  lemma {:induction false} ParsedTrianglesAt(base: int, n: int)
    requires 0 <= n
    ensures forall k :: 0 <= k < n ==> ParsedTriangles(base, n)[k] == FacetTriangle(base + 3 * k)
    decreases n
  {
    if n > 0 {
      ParsedTrianglesAt(base, n - 1);
    }
  }

  /** While the indices stay below 2^32 nothing wraps: triangle k is (base + 3k, base + 3k + 1, base + 3k + 2). */
  lemma FacetTriangleExact(n: int)
    requires 0 <= n && n + 2 < UINT32_MOD
    ensures FacetTriangle(n) == IndexTriangle(n, n + 1, n + 2)
  {
  }

  /**
   * Appended to a list of `base` vertices, every triangle of facet k points
   * at the three corners of facet k, provided the indices do not wrap.
   */
  lemma TrianglesPointAtCorners(buf: seq<byte>, vertices0: seq<VertexBytes>, n: int, k: int)
    requires 0 <= k < n && FacetStart(n) <= |buf| && |vertices0| + 3 * n <= UINT32_MOD
    ensures var t := ParsedTriangles(|vertices0|, n)[k];
      var vs := vertices0 + ParsedVertices(buf, n);
      t.a < |vs| && t.b < |vs| && t.c < |vs| &&
      vs[t.a] == Corner(buf, k, 0) && vs[t.b] == Corner(buf, k, 1) && vs[t.c] == Corner(buf, k, 2)
  {
    ParsedVerticesAt(buf, n);
    ParsedTrianglesAt(|vertices0|, n);
    FacetTriangleExact(|vertices0| + 3 * k);
    var vs := vertices0 + ParsedVertices(buf, n);
    assert vs[|vertices0| + 3 * k] == ParsedVertices(buf, n)[3 * k + 0];
    assert vs[|vertices0| + 3 * k + 1] == ParsedVertices(buf, n)[3 * k + 1];
    assert vs[|vertices0| + 3 * k + 2] == ParsedVertices(buf, n)[3 * k + 2];
  }

  /** Bytes after the last facet are ignored: the same count, the same checks passed and the same vertices. */
  lemma {:induction false} TrailingBytesIgnored(buf: seq<byte>, extra: seq<byte>, n: int)
    requires Accepts(buf) && 0 <= n <= FacetCount(buf)
    ensures Accepts(buf + extra) && FacetCount(buf + extra) == FacetCount(buf)
    ensures ParsedVertices(buf + extra, n) == ParsedVertices(buf, n)
    decreases n
  {
    assert (buf + extra)[80..84] == buf[80..84];
    if n > 0 {
      TrailingBytesIgnored(buf, extra, n - 1);
      assert Corner(buf + extra, n - 1, 0) == Corner(buf, n - 1, 0);
      assert Corner(buf + extra, n - 1, 1) == Corner(buf, n - 1, 1);
      assert Corner(buf + extra, n - 1, 2) == Corner(buf, n - 1, 2);
    }
  }

  /** Facet n of `count` lies 50 bytes before facet n + 1, which ends no later than the last facet. */
  lemma FacetWithin(n: int, count: int)
    requires 0 <= n < count
    ensures FacetStart(n) + FACET_SIZE == FacetStart(n + 1) <= FacetStart(count)
  {
  }

  /**
   * One pass of the facet loop: the corners at offsets 12, 24 and 36 of facet
   * n pushed one by one, then the triangle over the first of them.
   */
  method AppendFacet(buf: seq<byte>, n: int, vertices: seq<VertexBytes>, triangles: seq<IndexTriangle>)
    returns (vertices': seq<VertexBytes>, triangles': seq<IndexTriangle>)
    requires 0 <= n && FacetStart(n) + FACET_SIZE <= |buf|
    ensures vertices' == vertices + [Corner(buf, n, 0), Corner(buf, n, 1), Corner(buf, n, 2)]
    ensures triangles' == triangles + [FacetTriangle(|vertices|)]
  {
    var start := FACETS_START + 50 * n;
    var a: uint32 := |vertices| % UINT32_MOD;
    vertices' := vertices + [buf[start + 12..start + 24]];
    vertices' := vertices' + [buf[start + 24..start + 36]];
    vertices' := vertices' + [buf[start + 36..start + 48]];
    triangles' := triangles + [IndexTriangle(a, (a + 1) % UINT32_MOD, (a + 2) % UINT32_MOD)];
  }

  /** Appending facet n's corners and triangle extends the first n facets' lists to n + 1 facets. */
  lemma ParsedStep(buf: seq<byte>, n: int, vertices0: seq<VertexBytes>, triangles0: seq<IndexTriangle>)
    requires 0 <= n && FacetStart(n + 1) <= |buf|
    ensures vertices0 + ParsedVertices(buf, n) + [Corner(buf, n, 0), Corner(buf, n, 1), Corner(buf, n, 2)]
            == vertices0 + ParsedVertices(buf, n + 1)
    ensures triangles0 + ParsedTriangles(|vertices0|, n) + [FacetTriangle(|vertices0| + 3 * n)]
            == triangles0 + ParsedTriangles(|vertices0|, n + 1)
  {
  }

  /** The facet loop: per facet, its three corners and then one triangle over them. */
  method AppendFacets(buf: seq<byte>, count: int, vertices0: seq<VertexBytes>, triangles0: seq<IndexTriangle>)
    returns (vertices: seq<VertexBytes>, triangles: seq<IndexTriangle>)
    requires 0 <= count && FacetStart(count) <= |buf|
    ensures vertices == vertices0 + ParsedVertices(buf, count)
    ensures triangles == triangles0 + ParsedTriangles(|vertices0|, count)
  {
    vertices, triangles := vertices0, triangles0;
    for n := 0 to count
      invariant vertices == vertices0 + ParsedVertices(buf, n)
      invariant triangles == triangles0 + ParsedTriangles(|vertices0|, n)
    {
      FacetWithin(n, count);
      ParsedStep(buf, n, vertices0, triangles0);
      vertices, triangles := AppendFacet(buf, n, vertices, triangles);
    }
  }

  /**
   * bReadStlFile after the read: every size check comes before the first
   * push_back, so a rejected buffer leaves both lists as they were; an
   * accepted one appends the corners of every facet and one triangle per
   * facet.
   */
  method ReadStl(buf: seq<byte>, vertices0: seq<VertexBytes>, triangles0: seq<IndexTriangle>)
    returns (ok: bool, vertices: seq<VertexBytes>, triangles: seq<IndexTriangle>)
    ensures ok <==> Accepts(buf)
    ensures !ok ==> vertices == vertices0 && triangles == triangles0
    ensures ok ==> vertices == vertices0 + ParsedVertices(buf, FacetCount(buf))
    ensures ok ==> triangles == triangles0 + ParsedTriangles(|vertices0|, FacetCount(buf))
  {
    if |buf| < MIN_SIZE {
      return false, vertices0, triangles0;
    }
    var count := I32At(buf, 80);
    if count <= 0 || |buf| < FACETS_START + count * 50 {
      return false, vertices0, triangles0;
    }
    vertices, triangles := AppendFacets(buf, count, vertices0, triangles0);
    ok := true;
  }
}

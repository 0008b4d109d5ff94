/**
 * Union rasterisation into the voxel store (RenderImplicit, DoRenderLattice,
 * RenderLattice): every voxel of a box around the shape, widened by the
 * background distance, is set through SetSdValue to the minimum of the
 * shape's signed distance in voxel units and the value already stored.
 */
module Raster {
  import opened Types
  import opened VoxelGrid
  import opened Lattices

  predicate IBoxInInt32(b: IBox) { InInt32(b.lo) && InInt32(b.hi) }

  /**
   * h is g after rendering the voxel values F over box: every voxel in the
   * box holds what SetSdValue(min(F(c), old value)) stores, every other
   * voxel is unchanged.
   */
  ghost predicate RenderedBox(g: Grid, h: Grid, box: IBox, F: Coord -> real)
  {
    h.background == g.background &&
    forall c :: if InIBox(c, box) then SdStored(h, c, Min(F(c), Get(g, c))) else Same(g, h, c)
  }

  /** Rendering box A and then a disjoint box B renders their union. */
  lemma RenderedExtend(g: Grid, h: Grid, k: Grid, a: IBox, b: IBox, c: IBox, F: Coord -> real)
    requires RenderedBox(g, h, a, F) && RenderedBox(h, k, b, F)
    requires forall d :: InIBox(d, c) <==> InIBox(d, a) || InIBox(d, b)
    requires forall d :: !(InIBox(d, a) && InIBox(d, b))
    ensures RenderedBox(g, k, c, F)
  {
    forall d ensures if InIBox(d, c) then SdStored(k, d, Min(F(d), Get(g, d))) else Same(g, k, d) {
      if InIBox(d, a) {
        assert !InIBox(d, b);
      } else if InIBox(d, b) {
        assert Same(g, h, d);
      }
    }
  }

  /** The source's loop bound: `for (v = lo; v <= hi; v++)` runs to IMax(lo, hi + 1) exclusive. */
  function Stop(lo: int, hi: int): int { IMax(lo, hi + 1) }

  /** The innermost z loop over one column (x, y). */
  method RenderColumn(g: Grid, x: int, y: int, zlo: int, zhi: int, F: Coord -> real) returns (h: Grid)
    requires ValidGrid(g)
    requires InInt32(Coord(x, y, zlo)) && InInt32(Coord(x, y, zhi))
    ensures ValidGrid(h)
    ensures RenderedBox(g, h, IBox(Coord(x, y, zlo), Coord(x, y, zhi)), F)
  {
    h := g;
    for z := zlo to Stop(zlo, zhi)
      invariant ValidGrid(h)
      invariant RenderedBox(g, h, IBox(Coord(x, y, zlo), Coord(x, y, z - 1)), F)
    {
      var c := Coord(x, y, z);
      var k := SetSdValue(h, c, Min(F(c), Get(h, c)));
      RenderedExtend(g, h, k, IBox(Coord(x, y, zlo), Coord(x, y, z - 1)), IBox(c, c),
                     IBox(Coord(x, y, zlo), Coord(x, y, z)), F);
      h := k;
    }
  }

  /** The y loop over the plane x. */
  method RenderPlane(g: Grid, x: int, lo: Coord, hi: Coord, F: Coord -> real) returns (h: Grid)
    requires ValidGrid(g) && InInt32(lo) && InInt32(hi) && lo.x <= x <= hi.x
    ensures ValidGrid(h)
    ensures RenderedBox(g, h, IBox(Coord(x, lo.y, lo.z), Coord(x, hi.y, hi.z)), F)
  {
    h := g;
    for y := lo.y to Stop(lo.y, hi.y)
      invariant ValidGrid(h)
      invariant RenderedBox(g, h, IBox(Coord(x, lo.y, lo.z), Coord(x, y - 1, hi.z)), F)
    {
      var k := RenderColumn(h, x, y, lo.z, hi.z, F);
      RenderedExtend(g, h, k, IBox(Coord(x, lo.y, lo.z), Coord(x, y - 1, hi.z)),
                     IBox(Coord(x, y, lo.z), Coord(x, y, hi.z)),
                     IBox(Coord(x, lo.y, lo.z), Coord(x, y, hi.z)), F);
      h := k;
    }
  }

  /**
   * The triple loop shared by RenderImplicit and DoRenderLattice: x, then y,
   * then z over the inclusive box, each voxel through SetSdValue(min(F, old)).
   */
  method RenderBox(g: Grid, box: IBox, F: Coord -> real) returns (h: Grid)
    requires ValidGrid(g) && IBoxInInt32(box)
    ensures ValidGrid(h)
    ensures RenderedBox(g, h, box, F)
  {
    h := g;
    for x := box.lo.x to Stop(box.lo.x, box.hi.x)
      invariant ValidGrid(h)
      invariant RenderedBox(g, h, IBox(box.lo, Coord(x - 1, box.hi.y, box.hi.z)), F)
    {
      var k := RenderPlane(h, x, box.lo, box.hi, F);
      RenderedExtend(g, h, k, IBox(box.lo, Coord(x - 1, box.hi.y, box.hi.z)),
                     IBox(Coord(x, box.lo.y, box.lo.z), Coord(x, box.hi.y, box.hi.z)),
                     IBox(box.lo, Coord(x, box.hi.y, box.hi.z)), F);
      h := k;
    }
  }

  /**
   * The voxel box rendered for a millimetre box: the voxelised corners
   * widened by iAdd = (int)(background + 0.5) on every side.
   */
  function WidenedVoxelBox(b: BBox3, vs: VoxelSize, background: real): (r: IBox)
    ensures var add := Trunc(background + 0.5);
      r.lo == Coord(XyzToVoxels(b.min, vs).x - add, XyzToVoxels(b.min, vs).y - add, XyzToVoxels(b.min, vs).z - add) &&
      r.hi == Coord(XyzToVoxels(b.max, vs).x + add, XyzToVoxels(b.max, vs).y + add, XyzToVoxels(b.max, vs).z + add)
  {
    var add := Trunc(background + 0.5);
    var lo, hi := XyzToVoxels(b.min, vs), XyzToVoxels(b.max, vs);
    IBox(Coord(lo.x - add, lo.y - add, lo.z - add), Coord(hi.x + add, hi.y + add, hi.z + add))
  }

  /** The value RenderImplicit offers voxel c: the callback's distance at the voxel's position, in voxels. */
  function ImplicitVoxelValue(sdf: Vec3 -> real, vs: VoxelSize, c: Coord): real
  {
    FToVoxels(sdf(VecToMM(c, vs)), vs)
  }

  // ------------------------------------------------------------- lattices

  /** One lattice primitive as DoRenderLattice sees it. */
  datatype Primitive = PSphere(sphere: Sphere) | PBeam(beam: Beam)

  /** The argument bundle of the lattice distance: voxel size, std::sqrt and the cone formulas. */
  datatype LatticeContext = LatticeContext(vs: VoxelSize, sqrt: real -> real, cones: ConeDistances)

  function PrimitiveBBox(p: Primitive): BBox3
  {
    match p
    case PSphere(s) => s.bbox
    case PBeam(b) => b.bbox
  }

  function PrimitiveSdValue(p: Primitive, pt: Vec3, ctx: LatticeContext): real
  {
    match p
    case PSphere(s) => SphereSdValue(s, pt, ctx.sqrt)
    case PBeam(b) => BeamSdValue(b, pt, ctx.cones)
  }

  /** The value DoRenderLattice offers voxel c for primitive p, in voxels. */
  function PrimitiveVoxelValue(p: Primitive, ctx: LatticeContext, c: Coord): real
  {
    FToVoxels(PrimitiveSdValue(p, VecToMM(c, ctx.vs), ctx), ctx.vs)
  }

  function PrimitiveBox(p: Primitive, ctx: LatticeContext, background: real): IBox
  {
    WidenedVoxelBox(PrimitiveBBox(p), ctx.vs, background)
  }

  function SpherePrimitives(spheres: seq<Sphere>): (r: seq<Primitive>)
    ensures |r| == |spheres| && forall i :: 0 <= i < |spheres| ==> r[i] == PSphere(spheres[i])
  {
    seq(|spheres|, i requires 0 <= i < |spheres| => PSphere(spheres[i]))
  }

  function BeamPrimitives(beams: seq<Beam>): (r: seq<Primitive>)
    ensures |r| == |beams| && forall i :: 0 <= i < |beams| ==> r[i] == PBeam(beams[i])
  {
    seq(|beams|, i requires 0 <= i < |beams| => PBeam(beams[i]))
  }

  /** The lattice's primitives in the order RenderLattice visits them: all spheres, then all beams. */
  function LatticeOrder(spheres: seq<Sphere>, beams: seq<Beam>): seq<Primitive>
  {
    SpherePrimitives(spheres) + BeamPrimitives(beams)
  }

  /** Voxel c lies in the render box of some primitive of ps. */
  ghost predicate Covered(ps: seq<Primitive>, ctx: LatticeContext, bg: real, c: Coord)
  {
    exists i :: 0 <= i < |ps| && InIBox(c, PrimitiveBox(ps[i], ctx, bg))
  }

  /** The running minimum of v and the values of the primitives of ps whose boxes cover c, in visiting order. */
  function CoverMin(ps: seq<Primitive>, ctx: LatticeContext, bg: real, c: Coord, v: real): real
    decreases |ps|
  {
    if ps == [] then v
    else
      var m := CoverMin(ps[..|ps| - 1], ctx, bg, c, v);
      var p := ps[|ps| - 1];
      if InIBox(c, PrimitiveBox(p, ctx, bg)) then Min(PrimitiveVoxelValue(p, ctx, c), m) else m
  }

  /**
   * CoverMin is the minimum of v and every covering primitive's value: it is
   * below all of them and equal to one of them.
   */
  lemma {:induction false} CoverMinIsMinimum(ps: seq<Primitive>, ctx: LatticeContext, bg: real, c: Coord, v: real)
    ensures CoverMin(ps, ctx, bg, c, v) <= v
    ensures forall i :: 0 <= i < |ps| && InIBox(c, PrimitiveBox(ps[i], ctx, bg)) ==>
      CoverMin(ps, ctx, bg, c, v) <= PrimitiveVoxelValue(ps[i], ctx, c)
    ensures CoverMin(ps, ctx, bg, c, v) == v ||
      exists i :: 0 <= i < |ps| && InIBox(c, PrimitiveBox(ps[i], ctx, bg)) &&
        CoverMin(ps, ctx, bg, c, v) == PrimitiveVoxelValue(ps[i], ctx, c)
    decreases |ps|
  {
    if ps != [] {
      var init := ps[..|ps| - 1];
      CoverMinIsMinimum(init, ctx, bg, c, v);
      var m := CoverMin(init, ctx, bg, c, v);
      if m != v {
        var i :| 0 <= i < |init| && InIBox(c, PrimitiveBox(init[i], ctx, bg)) && m == PrimitiveVoxelValue(init[i], ctx, c);
        assert ps[i] == init[i];
      }
      forall i | 0 <= i < |ps| - 1 ensures ps[i] == init[i] { }
    }
  }

  /** Without a covering primitive the running minimum is the start value. */
  lemma {:induction false} CoverMinUncovered(ps: seq<Primitive>, ctx: LatticeContext, bg: real, c: Coord, v: real)
    requires !Covered(ps, ctx, bg, c)
    ensures CoverMin(ps, ctx, bg, c, v) == v
    decreases |ps|
  {
    if ps != [] {
      var init := ps[..|ps| - 1];
      forall i | 0 <= i < |init| ensures !InIBox(c, PrimitiveBox(init[i], ctx, bg)) {
        assert init[i] == ps[i];
      }
      CoverMinUncovered(init, ctx, bg, c, v);
    }
  }

  /** Every primitive of ps occurs in qs when both hold the same primitives. */
  lemma SharedElements(ps: seq<Primitive>, qs: seq<Primitive>)
    requires multiset(ps) == multiset(qs)
    ensures forall i :: 0 <= i < |ps| ==> ps[i] in qs
  {
    forall i | 0 <= i < |ps| ensures ps[i] in qs {
      assert ps[i] in multiset(ps);
    }
  }

  /**
   * The result of rendering the primitives does not depend on their order:
   * any rearrangement of the same primitives covers the same voxels with the
   * same minimum.
   */
  lemma CoverMinOrderFree(ps: seq<Primitive>, qs: seq<Primitive>, ctx: LatticeContext, bg: real, c: Coord, v: real)
    requires multiset(ps) == multiset(qs)
    ensures Covered(ps, ctx, bg, c) == Covered(qs, ctx, bg, c)
    ensures CoverMin(ps, ctx, bg, c, v) == CoverMin(qs, ctx, bg, c, v)
  {
    SharedElements(ps, qs);
    SharedElements(qs, ps);
    CoveredShared(ps, qs, ctx, bg, c);
    CoveredShared(qs, ps, ctx, bg, c);
    CoverMinIsMinimum(ps, ctx, bg, c, v);
    CoverMinIsMinimum(qs, ctx, bg, c, v);
    MinimumBelow(ps, qs, ctx, bg, c, v);
    MinimumBelow(qs, ps, ctx, bg, c, v);
  }

  lemma CoveredShared(ps: seq<Primitive>, qs: seq<Primitive>, ctx: LatticeContext, bg: real, c: Coord)
    requires forall i :: 0 <= i < |ps| ==> ps[i] in qs
    ensures Covered(ps, ctx, bg, c) ==> Covered(qs, ctx, bg, c)
  {
    if Covered(ps, ctx, bg, c) {
      var i :| 0 <= i < |ps| && InIBox(c, PrimitiveBox(ps[i], ctx, bg));
      var j :| 0 <= j < |qs| && qs[j] == ps[i];
    }
  }

  /** The running minimum over qs is at most the one over ps when qs holds every primitive of ps. */
  lemma MinimumBelow(ps: seq<Primitive>, qs: seq<Primitive>, ctx: LatticeContext, bg: real, c: Coord, v: real)
    requires forall i :: 0 <= i < |ps| ==> ps[i] in qs
    ensures CoverMin(qs, ctx, bg, c, v) <= CoverMin(ps, ctx, bg, c, v)
  {
    CoverMinIsMinimum(ps, ctx, bg, c, v);
    CoverMinIsMinimum(qs, ctx, bg, c, v);
    var a := CoverMin(ps, ctx, bg, c, v);
    if a != v {
      var i :| 0 <= i < |ps| && InIBox(c, PrimitiveBox(ps[i], ctx, bg)) && a == PrimitiveVoxelValue(ps[i], ctx, c);
      var j :| 0 <= j < |qs| && qs[j] == ps[i];
    }
  }

  /**
   * h is g after rendering the primitives ps one after the other: a covered
   * voxel holds what SetSdValue stores for min(old value, every covering
   * primitive's value), an uncovered voxel is unchanged.
   */
  ghost predicate RenderedAll(g: Grid, h: Grid, ps: seq<Primitive>, ctx: LatticeContext)
  {
    h.background == g.background &&
    forall c :: if Covered(ps, ctx, g.background, c)
                then SdStored(h, c, CoverMin(ps, ctx, g.background, c, Get(g, c)))
                else Same(g, h, c)
  }

  /** Rendering one more primitive extends RenderedAll by that primitive. */
  lemma RenderedAllStep(g: Grid, h: Grid, k: Grid, ps: seq<Primitive>, p: Primitive, ctx: LatticeContext)
    requires g.background >= 0.0
    requires RenderedAll(g, h, ps, ctx)
    requires RenderedBox(h, k, PrimitiveBox(p, ctx, g.background), c => PrimitiveVoxelValue(p, ctx, c))
    ensures RenderedAll(g, k, ps + [p], ctx)
  {
    var bg := g.background;
    var qs := ps + [p];
    assert qs[..|qs| - 1] == ps;
    var box := PrimitiveBox(p, ctx, bg);
    forall c ensures if Covered(qs, ctx, bg, c) then SdStored(k, c, CoverMin(qs, ctx, bg, c, Get(g, c))) else Same(g, k, c) {
      var v := Get(g, c);
      if InIBox(c, box) {
        assert Covered(qs, ctx, bg, c) by { assert InIBox(c, PrimitiveBox(qs[|ps|], ctx, bg)); }
        if Covered(ps, ctx, bg, c) {
          StoredMinAbsorb(h, k, c, PrimitiveVoxelValue(p, ctx, c), CoverMin(ps, ctx, bg, c, v));
        } else {
          CoverMinUncovered(ps, ctx, bg, c, v);
        }
      } else {
        CoveredPrefix(ps, p, ctx, bg, c);
      }
    }
  }

  /** Outside the last primitive's box, ps + [p] covers a voxel exactly when ps does. */
  lemma CoveredPrefix(ps: seq<Primitive>, p: Primitive, ctx: LatticeContext, bg: real, c: Coord)
    requires !InIBox(c, PrimitiveBox(p, ctx, bg))
    ensures Covered(ps + [p], ctx, bg, c) == Covered(ps, ctx, bg, c)
  {
    var qs := ps + [p];
    if Covered(qs, ctx, bg, c) {
      var i :| 0 <= i < |qs| && InIBox(c, PrimitiveBox(qs[i], ctx, bg));
      assert i < |ps| && qs[i] == ps[i];
    }
    if Covered(ps, ctx, bg, c) {
      var i :| 0 <= i < |ps| && InIBox(c, PrimitiveBox(ps[i], ctx, bg));
      assert qs[i] == ps[i];
    }
  }

  /** DoRenderLattice for one primitive, added to what the earlier primitives rendered. */
  method RenderPrimitive(g0: Grid, g: Grid, ghost ps: seq<Primitive>, p: Primitive, ctx: LatticeContext) returns (h: Grid)
    requires ValidGrid(g) && g.background == g0.background && RenderedAll(g0, g, ps, ctx)
    requires IBoxInInt32(PrimitiveBox(p, ctx, g.background))
    ensures ValidGrid(h) && h.background == g.background
    ensures RenderedAll(g0, h, ps + [p], ctx)
  {
    h := RenderBox(g, PrimitiveBox(p, ctx, g.background), c => PrimitiveVoxelValue(p, ctx, c));
    RenderedAllStep(g0, g, h, ps, p, ctx);
  }

  /** Every primitive's render box has int32 corners. */
  predicate BoxesInInt32(ps: seq<Primitive>, ctx: LatticeContext, bg: real)
  {
    forall i :: 0 <= i < |ps| ==> IBoxInInt32(PrimitiveBox(ps[i], ctx, bg))
  }

  /** One DoRenderLattice call per primitive of todo, in order, after the primitives done. */
  method RenderPrimitives(g0: Grid, g: Grid, ghost done: seq<Primitive>, todo: seq<Primitive>, ctx: LatticeContext)
    returns (h: Grid)
    requires ValidGrid(g) && g.background == g0.background && RenderedAll(g0, g, done, ctx)
    requires BoxesInInt32(todo, ctx, g.background)
    ensures ValidGrid(h) && h.background == g.background
    ensures RenderedAll(g0, h, done + todo, ctx)
  {
    h := g;
    assert done + todo[..0] == done;
    for i := 0 to |todo|
      invariant ValidGrid(h) && h.background == g.background
      invariant RenderedAll(g0, h, done + todo[..i], ctx)
    {
      h := RenderPrimitive(g0, h, done + todo[..i], todo[i], ctx);
      assert done + todo[..i] + [todo[i]] == done + todo[..i + 1];
    }
    assert todo[..|todo|] == todo;
  }

  /** RenderLattice: every sphere, then every beam, through DoRenderLattice. */
  method RenderLatticeGrid(g: Grid, spheres: seq<Sphere>, beams: seq<Beam>, ctx: LatticeContext) returns (h: Grid)
    requires ValidGrid(g)
    requires BoxesInInt32(SpherePrimitives(spheres), ctx, g.background)
    requires BoxesInInt32(BeamPrimitives(beams), ctx, g.background)
    ensures ValidGrid(h)
    ensures RenderedAll(g, h, LatticeOrder(spheres, beams), ctx)
  {
    assert RenderedAll(g, g, [], ctx);
    h := RenderPrimitives(g, g, [], SpherePrimitives(spheres), ctx);
    assert [] + SpherePrimitives(spheres) == SpherePrimitives(spheres);
    h := RenderPrimitives(g, h, SpherePrimitives(spheres), BeamPrimitives(beams), ctx);
  }
}

/**
 * The read-only scans of a voxel grid: the inside/outside equality test
 * (bIsEqual), the shell hit test of the expanding-ball search
 * (bBresenhamSphereHitTest), the closest-surface search built on it
 * (bFindClosestPointOnSurface), the slice read-out (GetSlice) and the voxel
 * dimensions (GetVoxelDimensions).
 */
module Scans {
  import opened Types
  import opened VoxelGrid

  // ------------------------------------------------------------ bIsEqual

  /** Both grids agree on whether voxel c is inside (value <= 0). */
  predicate AgreeAt(g: Grid, h: Grid, c: Coord) { Inside(g, c) == Inside(h, c) }

  ghost predicate AgreeOn(g: Grid, h: Grid, b: IBox)
  {
    forall c :: InIBox(c, b) ==> AgreeAt(g, h, c)
  }

  /** The z loop of the comparison over column (x, y), with its early return. */
  method ColumnAgrees(g: Grid, h: Grid, x: int, y: int, zlo: int, zhi: int) returns (ok: bool)
    ensures ok <==> forall z :: zlo <= z <= zhi ==> AgreeAt(g, h, Coord(x, y, z))
  {
    for z := zlo to IMax(zlo, zhi + 1)
      invariant forall z' :: zlo <= z' < z ==> AgreeAt(g, h, Coord(x, y, z'))
    {
      if Inside(g, Coord(x, y, z)) != Inside(h, Coord(x, y, z)) {
        return false;
      }
    }
    return true;
  }

  /** The y loop of the comparison over plane x of box b. */
  method PlaneAgrees(g: Grid, h: Grid, x: int, b: IBox) returns (ok: bool)
    requires b.lo.x <= x <= b.hi.x
    ensures ok <==> forall c :: InIBox(c, b) && c.x == x ==> AgreeAt(g, h, c)
  {
    for y := b.lo.y to IMax(b.lo.y, b.hi.y + 1)
      invariant forall c :: InIBox(c, b) && c.x == x && c.y < y ==> AgreeAt(g, h, c)
    {
      ok := ColumnAgrees(g, h, x, y, b.lo.z, b.hi.z);
      if !ok {
        var z :| b.lo.z <= z <= b.hi.z && !AgreeAt(g, h, Coord(x, y, z));
        assert InIBox(Coord(x, y, z), b);
        return;
      }
    }
    return true;
  }

  /** The x, y, z loops of bIsEqual over box b: true iff the grids agree on every voxel of b. */
  method BoxAgrees(g: Grid, h: Grid, b: IBox) returns (ok: bool)
    ensures ok <==> AgreeOn(g, h, b)
  {
    for x := b.lo.x to IMax(b.lo.x, b.hi.x + 1)
      invariant forall c :: InIBox(c, b) && c.x < x ==> AgreeAt(g, h, c)
    {
      ok := PlaneAgrees(g, h, x, b);
      if !ok {
        return;
      }
    }
    return true;
  }

  /**
   * The box bIsEqual compares over, as written: the componentwise min of
   * the two min corners and the max of the two max corners, except that
   * the z bound takes this grid's MIN z where its max z was meant.
   */
  function EqualityBoxAsWritten(self: IBox, other: IBox): IBox
  {
    IBox(Coord(IMin(self.lo.x, other.lo.x), IMin(self.lo.y, other.lo.y), IMin(self.lo.z, other.lo.z)),
         Coord(IMax(self.hi.x, other.hi.x), IMax(self.hi.y, other.hi.y), IMax(self.lo.z, other.hi.z)))
  }

  /** The box bIsEqual evidently means: the smallest box around both active boxes. */
  function EqualityBox(self: IBox, other: IBox): IBox
  {
    IBox(Coord(IMin(self.lo.x, other.lo.x), IMin(self.lo.y, other.lo.y), IMin(self.lo.z, other.lo.z)),
         Coord(IMax(self.hi.x, other.hi.x), IMax(self.hi.y, other.hi.y), IMax(self.hi.z, other.hi.z)))
  }

  /**
   * bIsEqual as written: compares inside status over EqualityBoxAsWritten.
   * Its int32 loop counters must not run past INT32_MAX, which the
   * as-written z bound allows (see EqualityAsWrittenEmptySelf).
   */
  method IsEqualAsWritten(g: Grid, h: Grid) returns (eq: bool)
    requires ValidGrid(g) && ValidGrid(h)
    requires ScanStops(EqualityBoxAsWritten(ActiveBox(g), ActiveBox(h)))
    ensures eq <==> AgreeOn(g, h, EqualityBoxAsWritten(ActiveBox(g), ActiveBox(h)))
  {
    var a := EvalActiveBBox(g);
    var b := EvalActiveBBox(h);
    eq := BoxAgrees(g, h, EqualityBoxAsWritten(a, b));
  }

  /**
   * bIsEqual with the z bound corrected: true iff the grids agree on the
   * inside status of every voxel in the box around both active boxes. So
   * it is true for grids that agree everywhere, and true only if they agree
   * on every active voxel of either grid.
   */
  method IsEqual(g: Grid, h: Grid) returns (eq: bool)
    requires ValidGrid(g) && ValidGrid(h)
    ensures eq <==> AgreeOn(g, h, EqualityBox(ActiveBox(g), ActiveBox(h)))
    ensures (forall c :: AgreeAt(g, h, c)) ==> eq
    ensures eq ==> forall c :: c in g.active || c in h.active ==> AgreeAt(g, h, c)
  {
    var a := EvalActiveBBox(g);
    var b := EvalActiveBBox(h);
    eq := BoxAgrees(g, h, EqualityBox(a, b));
  }

  /** With the corrected box the comparison is symmetric. */
  lemma IsEqualSymmetric(g: Grid, h: Grid)
    requires ValidGrid(g) && ValidGrid(h)
    ensures AgreeOn(g, h, EqualityBox(ActiveBox(g), ActiveBox(h))) <==> AgreeOn(h, g, EqualityBox(ActiveBox(h), ActiveBox(g)))
  {
    var a, b := ActiveBox(g), ActiveBox(h);
    assert EqualityBox(a, b) == EqualityBox(b, a);
  }

  /** A grid with inside voxels at heights 0 and 5 of column (0, 0). */
  function TallGrid(): Grid
  {
    Grid(DEFAULT_BACKGROUND, map[Coord(0, 0, 0) := -1.0, Coord(0, 0, 5) := -1.0], {Coord(0, 0, 0), Coord(0, 0, 5)})
  }

  /** A grid with one inside voxel at the origin. */
  function FlatGrid(): Grid
  {
    Grid(DEFAULT_BACKGROUND, map[Coord(0, 0, 0) := -1.0], {Coord(0, 0, 0)})
  }

  lemma TallAndFlatBoxes()
    ensures ValidGrid(TallGrid()) && ValidGrid(FlatGrid())
    ensures ActiveBox(TallGrid()) == IBox(Coord(0, 0, 0), Coord(0, 0, 5))
    ensures ActiveBox(FlatGrid()) == IBox(Coord(0, 0, 0), Coord(0, 0, 0))
  {
    var t, f := TallGrid(), FlatGrid();
    assert Coord(0, 0, 5) in t.active;
    assert IsTightBounds(t.active, IBox(Coord(0, 0, 0), Coord(0, 0, 5)));
    TightBoundsUnique(t.active, ActiveBox(t), IBox(Coord(0, 0, 0), Coord(0, 0, 5)));
    assert IsTightBounds(f.active, IBox(Coord(0, 0, 0), Coord(0, 0, 0)));
    TightBoundsUnique(f.active, ActiveBox(f), IBox(Coord(0, 0, 0), Coord(0, 0, 0)));
  }

  /**
   * As written, comparing TallGrid with FlatGrid scans only layer 0, so it
   * reports equality although the grids disagree at the active voxel
   * (0, 0, 5); the comparison the other way round reports the difference.
   */
  lemma EqualityAsWrittenAsymmetric()
    ensures ValidGrid(TallGrid()) && ValidGrid(FlatGrid())
    ensures AgreeOn(TallGrid(), FlatGrid(), EqualityBoxAsWritten(ActiveBox(TallGrid()), ActiveBox(FlatGrid())))
    ensures !AgreeOn(FlatGrid(), TallGrid(), EqualityBoxAsWritten(ActiveBox(FlatGrid()), ActiveBox(TallGrid())))
    ensures Coord(0, 0, 5) in TallGrid().active && !AgreeAt(TallGrid(), FlatGrid(), Coord(0, 0, 5))
  {
    TallAndFlatBoxes();
    var t, f := TallGrid(), FlatGrid();
    var ab := EqualityBoxAsWritten(ActiveBox(t), ActiveBox(f));
    assert ab == IBox(Coord(0, 0, 0), Coord(0, 0, 0));
    forall c | InIBox(c, ab) ensures AgreeAt(t, f, c) {
      assert c == Coord(0, 0, 0);
    }
    var ba := EqualityBoxAsWritten(ActiveBox(f), ActiveBox(t));
    assert InIBox(Coord(0, 0, 5), ba) && Get(f, Coord(0, 0, 5)) == DEFAULT_BACKGROUND;
  }

  /** No coordinate of c is INT32_MAX, so an int32 counter can step past it. */
  predicate BelowInt32Max(c: Coord) { c.x < INT32_MAX && c.y < INT32_MAX && c.z < INT32_MAX }

  /**
   * The active box of a non-empty grid is a real box, min <= max on every
   * axis, and its max corner is below INT32_MAX when every active voxel is.
   */
  lemma ActiveBoxSpans(g: Grid)
    requires ValidGrid(g) && g.active != {}
    ensures ActiveBox(g).lo.x <= ActiveBox(g).hi.x && ActiveBox(g).lo.y <= ActiveBox(g).hi.y
    ensures ActiveBox(g).lo.z <= ActiveBox(g).hi.z
    ensures (forall c :: c in g.active ==> BelowInt32Max(c)) ==> BelowInt32Max(ActiveBox(g).hi)
  {
    var b := ActiveBox(g);
    var c :| c in g.active;
    assert InIBox(c, b);
    var c2 :| c2 in g.active && c2.x == b.hi.x;
    var c4 :| c4 in g.active && c4.y == b.hi.y;
    var c6 :| c6 in g.active && c6.z == b.hi.z;
  }

  /**
   * As written, an empty grid compared with a non-empty one gets the z
   * bound INT32_MAX (the reset box's min z). The x and y loops are entered,
   * so unless the first column shows a difference the int32 `z <= iMaxZ`
   * loop runs past INT32_MAX: the scan does not stop.
   */
  lemma EqualityAsWrittenEmptySelf(g: Grid, h: Grid)
    requires ValidGrid(g) && ValidGrid(h) && g.active == {} && h.active != {}
    ensures EqualityBoxAsWritten(ActiveBox(g), ActiveBox(h)).hi.z == INT32_MAX
    ensures !ScanStops(EqualityBoxAsWritten(ActiveBox(g), ActiveBox(h)))
  {
    ActiveBoxInInt32(h);
    ActiveBoxSpans(h);
  }

  /** A grid with no active voxel. */
  function EmptyGrid(): Grid
  {
    Grid(DEFAULT_BACKGROUND, map[], {})
  }

  /** A grid whose only active voxel, the origin, is outside the surface. */
  function OutsideGrid(): Grid
  {
    Grid(DEFAULT_BACKGROUND, map[Coord(0, 0, 0) := 0.5], {Coord(0, 0, 0)})
  }

  /**
   * EmptyGrid compared with OutsideGrid as written: the box is the column
   * (0, 0) from z = 0 up to INT32_MAX, the grids agree on every voxel of it
   * (both are outside everywhere), so no early return ends the z loop
   * before its counter passes INT32_MAX. The corrected box is the origin alone.
   */
  lemma EqualityAsWrittenRunsOff()
    ensures ValidGrid(EmptyGrid()) && ValidGrid(OutsideGrid())
    ensures EqualityBoxAsWritten(ActiveBox(EmptyGrid()), ActiveBox(OutsideGrid())) == IBox(Coord(0, 0, 0), Coord(0, 0, INT32_MAX))
    ensures forall z :: AgreeAt(EmptyGrid(), OutsideGrid(), Coord(0, 0, z))
    ensures !ScanStops(EqualityBoxAsWritten(ActiveBox(EmptyGrid()), ActiveBox(OutsideGrid())))
    ensures EqualityBox(ActiveBox(EmptyGrid()), ActiveBox(OutsideGrid())) == IBox(Coord(0, 0, 0), Coord(0, 0, 0))
  {
    var e, o := EmptyGrid(), OutsideGrid();
    assert IsTightBounds(o.active, IBox(Coord(0, 0, 0), Coord(0, 0, 0)));
    TightBoundsUnique(o.active, ActiveBox(o), IBox(Coord(0, 0, 0), Coord(0, 0, 0)));
  }

  /**
   * With the corrected box the scan always stops when no active voxel of
   * either grid sits at INT32_MAX: two empty grids give an empty x range,
   * and otherwise every max corner is an active voxel's coordinate.
   */
  lemma EqualityBoxStops(g: Grid, h: Grid)
    requires ValidGrid(g) && ValidGrid(h)
    requires forall c :: c in g.active || c in h.active ==> BelowInt32Max(c)
    ensures ScanStops(EqualityBox(ActiveBox(g), ActiveBox(h)))
  {
    ActiveBoxInInt32(g);
    ActiveBoxInInt32(h);
    if g.active != {} { ActiveBoxSpans(g); }
    if h.active != {} { ActiveBoxSpans(h); }
  }

  // ------------------------------------------- bBresenhamSphereHitTest

  /** The cube the hit test scans: within r of the centre on every axis. */
  function Cube(center: Coord, r: int): IBox
  {
    IBox(Coord(center.x - r, center.y - r, center.z - r), Coord(center.x + r, center.y + r, center.z + r))
  }

  /** dx*dx + dy*dy + dz*dz of the offset from the centre. */
  function SquaredOffset(c: Coord, center: Coord): int
  {
    var dx, dy, dz := c.x - center.x, c.y - center.y, c.z - center.z;
    dx * dx + dy * dy + dz * dz
  }

  /**
   * A hit of the test at radius r: inside the search box, within the ball
   * SquaredOffset <= r*r, and of the other inside status than the reference.
   */
  predicate IsHit(g: Grid, refInside: bool, center: Coord, r: int, bb: IBox, c: Coord)
  {
    InIBox(c, bb) && SquaredOffset(c, center) <= r * r && Inside(g, c) != refInside
  }

  /** The scan order: z first, then y, then x. */
  predicate ScanBefore(a: Coord, b: Coord)
  {
    a.z < b.z || (a.z == b.z && (a.y < b.y || (a.y == b.y && a.x < b.x)))
  }

  /** The x loop of the hit test over row (y, z) of the cube; `inBox` is set once a scanned voxel lies in bb. */
  method HitRow(g: Grid, refInside: bool, center: Coord, r: int, bb: IBox, y: int, z: int)
    returns (hit: bool, x: int, inBox: bool)
    ensures hit ==> Cube(center, r).lo.x <= x <= Cube(center, r).hi.x && IsHit(g, refInside, center, r, bb, Coord(x, y, z)) && inBox
    ensures hit ==> forall x' :: Cube(center, r).lo.x <= x' < x ==> !IsHit(g, refInside, center, r, bb, Coord(x', y, z))
    ensures !hit ==> forall x' :: Cube(center, r).lo.x <= x' <= Cube(center, r).hi.x ==> !IsHit(g, refInside, center, r, bb, Coord(x', y, z))
    ensures !hit ==> (inBox <==> exists x' :: Cube(center, r).lo.x <= x' <= Cube(center, r).hi.x && InIBox(Coord(x', y, z), bb))
  {
    var lo, hi := center.x - r, center.x + r;
    inBox := false;
    for i := lo to IMax(lo, hi + 1)
      invariant forall x' :: lo <= x' < i ==> !IsHit(g, refInside, center, r, bb, Coord(x', y, z))
      invariant inBox <==> exists x' :: lo <= x' < i && InIBox(Coord(x', y, z), bb)
    {
      var c := Coord(i, y, z);
      if InIBox(c, bb) {
        inBox := true;
        if SquaredOffset(c, center) <= r * r && Inside(g, c) != refInside {
          return true, i, true;
        }
      }
    }
    hit, x := false, lo;
  }

  /** The y loop of the hit test over layer z of the cube. */
  method HitLayer(g: Grid, refInside: bool, center: Coord, r: int, bb: IBox, z: int)
    returns (hit: bool, p: Coord, inBox: bool)
    requires Cube(center, r).lo.z <= z <= Cube(center, r).hi.z
    ensures hit ==> InIBox(p, Cube(center, r)) && p.z == z && IsHit(g, refInside, center, r, bb, p) && inBox
    ensures hit ==> forall c :: InIBox(c, Cube(center, r)) && c.z == z && ScanBefore(c, p) ==> !IsHit(g, refInside, center, r, bb, c)
    ensures !hit ==> forall c :: InIBox(c, Cube(center, r)) && c.z == z ==> !IsHit(g, refInside, center, r, bb, c)
    ensures !hit ==> (inBox <==> exists c :: InIBox(c, Cube(center, r)) && c.z == z && InIBox(c, bb))
  {
    var cube := Cube(center, r);
    inBox := false;
    p := center;
    for y := cube.lo.y to IMax(cube.lo.y, cube.hi.y + 1)
      invariant forall c :: InIBox(c, cube) && c.z == z && c.y < y ==> !IsHit(g, refInside, center, r, bb, c)
      invariant inBox <==> exists c :: InIBox(c, cube) && c.z == z && c.y < y && InIBox(c, bb)
    {
      var rowHit, x, rowIn := HitRow(g, refInside, center, r, bb, y, z);
      if rowHit {
        return true, Coord(x, y, z), true;
      }
      if rowIn {
        var x' :| cube.lo.x <= x' <= cube.hi.x && InIBox(Coord(x', y, z), bb);
        assert InIBox(Coord(x', y, z), cube);
      }
      inBox := inBox || rowIn;
    }
    hit := false;
  }

  /**
   * bBresenhamSphereHitTest: the first coordinate in z, y, x scan order of
   * the cube around the centre that is a hit, if any. The out-of-bounds
   * flag ends true exactly when no scanned coordinate lies in the box; on a
   * hit it is false.
   */
  method SphereHitTest(g: Grid, refInside: bool, center: Coord, r: int, bb: IBox)
    returns (hit: bool, p: Coord, outside: bool)
    ensures hit ==> InIBox(p, Cube(center, r)) && IsHit(g, refInside, center, r, bb, p) && !outside
    ensures hit ==> forall c :: InIBox(c, Cube(center, r)) && ScanBefore(c, p) ==> !IsHit(g, refInside, center, r, bb, c)
    ensures !hit ==> forall c :: InIBox(c, Cube(center, r)) ==> !IsHit(g, refInside, center, r, bb, c)
    ensures !hit ==> (outside <==> forall c :: InIBox(c, Cube(center, r)) ==> !InIBox(c, bb))
  {
    var cube := Cube(center, r);
    outside := true;
    p := center;
    for z := cube.lo.z to IMax(cube.lo.z, cube.hi.z + 1)
      invariant forall c :: InIBox(c, cube) && c.z < z ==> !IsHit(g, refInside, center, r, bb, c)
      invariant !outside <==> exists c :: InIBox(c, cube) && c.z < z && InIBox(c, bb)
    {
      var layerHit, q, layerIn := HitLayer(g, refInside, center, r, bb, z);
      if layerHit {
        return true, q, false;
      }
      outside := outside && !layerIn;
    }
    hit := false;
  }

  // ---------------------------------------- bFindClosestPointOnSurface

  /** Some coordinate of the cube of radius r is a hit. */
  ghost predicate HitWithin(g: Grid, refInside: bool, center: Coord, r: int, bb: IBox)
  {
    exists c :: InIBox(c, Cube(center, r)) && IsHit(g, refInside, center, r, bb, c)
  }

  /**
   * ex*ex + ey*ey + ez*ez over the int32 extents, evaluated in int32: the
   * products and the sum wrap as two's-complement arithmetic does.
   */
  function SquaredExtents32(bb: IBox): int
  {
    var e := Extents32(bb);
    Wrap32(e.x * e.x + e.y * e.y + e.z * e.z)
  }

  /** When the extents and the sum of their squares fit in int32, the int32 sum is the true one. */
  lemma SquaredExtentsExact(bb: IBox)
    requires InInt32(Extents(bb))
    requires Extents(bb).x * Extents(bb).x + Extents(bb).y * Extents(bb).y + Extents(bb).z * Extents(bb).z <= INT32_MAX
    ensures SquaredExtents32(bb) == Extents(bb).x * Extents(bb).x + Extents(bb).y * Extents(bb).y + Extents(bb).z * Extents(bb).z
    ensures SquaredExtents32(bb) >= 0
  {
    var e := Extents(bb);
    assert Extents32(bb) == e;
    assert e.x * e.x >= 0 && e.y * e.y >= 0 && e.z * e.z >= 0;
  }

  /**
   * A single active voxel at the origin, searched from 46340 voxels along x:
   * the search box is 46341 voxels wide, and 46341 * 46341 + 1 + 1 wraps to a
   * negative int32.
   */
  lemma SquaredExtentsWrapFarSearch()
    ensures SquaredExtents32(Expand(IBox(Coord(0, 0, 0), Coord(0, 0, 0)), Coord(46340, 0, 0))) == -2147479013
  {
    var bb := Expand(IBox(Coord(0, 0, 0), Coord(0, 0, 0)), Coord(46340, 0, 0));
    assert bb == IBox(Coord(0, 0, 0), Coord(46340, 0, 0));
    assert Extents32(bb) == Coord(46341, 1, 1);
    assert 46341 * 46341 + 1 + 1 == 2147488283;
    assert Wrap32(2147488283) == -2147479013;
  }

  /**
   * The search radius bound: (int32)ceil(sqrt(ex*ex + ey*ey + ez*ez)) over the
   * box extents, with the sum taken in int32 and handed to the given sqrt.
   */
  function MaxSearchRadius(bb: IBox, sqrt: real -> real, ceil: real -> real): int
  {
    Trunc(ceil(sqrt(SquaredExtents32(bb) as real)))
  }

  /** The search box: the active box expanded by the search voxel. */
  ghost function SearchBox(g: Grid, center: Coord): IBox
    requires ValidGrid(g)
  {
    Expand(ActiveBox(g), center)
  }

  /**
   * The search voxel lies in its own cube at every radius and in the search
   * box, so no shell of the search is ever reported as out of bounds.
   */
  lemma SearchNeverOutside(g: Grid, center: Coord, r: int)
    requires ValidGrid(g) && r >= 0
    ensures InIBox(center, Cube(center, r)) && InIBox(center, SearchBox(g, center))
  {
  }

  /** c is the first hit in scan order of the shell of radius r, and no smaller shell has a hit. */
  ghost predicate FirstHitAt(g: Grid, refInside: bool, center: Coord, bb: IBox, r: int, c: Coord)
  {
    InIBox(c, Cube(center, r)) && IsHit(g, refInside, center, r, bb, c) &&
    (forall r' :: 0 <= r' < r ==> !HitWithin(g, refInside, center, r', bb)) &&
    (forall c' :: InIBox(c', Cube(center, r)) && ScanBefore(c', c) ==> !IsHit(g, refInside, center, r, bb, c'))
  }

  /**
   * The result of the search from voxel `center` with reference status
   * `refInside` over the box bb, scanning the shells 0..maxR - 1: found
   * exactly when some shell has a hit; the point is then the first hit in
   * scan order of the smallest such shell, in mm.
   */
  ghost predicate ClosestResult(g: Grid, refInside: bool, center: Coord, bb: IBox, maxR: int, vs: VoxelSize,
                                found: bool, point: Vec3)
  {
    (found <==> exists r :: 0 <= r < maxR && HitWithin(g, refInside, center, r, bb)) &&
    (found ==> exists r, c :: 0 <= r < maxR && FirstHitAt(g, refInside, center, bb, r, c) && point == VecToMM(c, vs))
  }

  lemma ClosestOnHit(g: Grid, refInside: bool, center: Coord, bb: IBox, maxR: int, vs: VoxelSize, r: int, c: Coord)
    requires 0 <= r < maxR && FirstHitAt(g, refInside, center, bb, r, c)
    ensures ClosestResult(g, refInside, center, bb, maxR, vs, true, VecToMM(c, vs))
  {
    assert HitWithin(g, refInside, center, r, bb);
  }

  lemma ClosestOnMiss(g: Grid, refInside: bool, center: Coord, bb: IBox, maxR: int, vs: VoxelSize, point: Vec3)
    requires forall r :: 0 <= r < maxR ==> !HitWithin(g, refInside, center, r, bb)
    ensures ClosestResult(g, refInside, center, bb, maxR, vs, false, point)
  {
  }

  /**
   * bFindClosestPointOnSurface: from the search voxel, the shells of radius
   * 0, 1, ... below the bound are tested in turn against the search voxel's
   * own inside status; the first hit is returned in mm.
   */
  method FindClosestPoint(g: Grid, vs: VoxelSize, search: Vec3, pointIn: Vec3, sqrt: real -> real, ceil: real -> real)
    returns (found: bool, point: Vec3)
    requires ValidGrid(g)
    ensures !found ==> point == pointIn
    ensures ClosestResult(g, Inside(g, XyzToVoxels(search, vs)), XyzToVoxels(search, vs),
                          SearchBox(g, XyzToVoxels(search, vs)),
                          MaxSearchRadius(SearchBox(g, XyzToVoxels(search, vs)), sqrt, ceil), vs, found, point)
  {
    var center := XyzToVoxels(search, vs);
    var active := EvalActiveBBox(g);
    var bb := Expand(active, center);
    var maxR := MaxSearchRadius(bb, sqrt, ceil);
    var refInside := Inside(g, center);
    point := pointIn;
    for r := 0 to IMax(0, maxR)
      invariant forall r' :: 0 <= r' < r ==> !HitWithin(g, refInside, center, r', bb)
    {
      var hit, p, outside := SphereHitTest(g, refInside, center, r, bb);
      if hit {
        ClosestOnHit(g, refInside, center, bb, maxR, vs, r, p);
        return true, VecToMM(p, vs);
      }
      SearchNeverOutside(g, center, r);
      if outside {
        assert false;
        return false, point;
      }
    }
    ClosestOnMiss(g, refInside, center, bb, maxR, vs, point);
    found := false;
  }

  // ----------------------------------------------------------- GetSlice

  /** Slice buffer position of voxel (x, y): rows run from the top y down, x left to right. */
  function SliceIndex(b: IBox, x: int, y: int): int
  {
    (b.hi.y - y) * Extents(b).x + (x - b.lo.x)
  }

  /** The voxel (x, y) that buffer position i holds, for a box of positive width. */
  function SlicePos(b: IBox, i: int): (int, int)
    requires Extents(b).x > 0
  {
    (b.lo.x + i % Extents(b).x, b.hi.y - i / Extents(b).x)
  }

  /** Every voxel of the box's x/y rectangle has its own buffer position, and the position names it. */
  lemma SliceIndexRoundTrip(b: IBox, x: int, y: int)
    requires b.lo.x <= x <= b.hi.x && b.lo.y <= y <= b.hi.y
    ensures 0 <= SliceIndex(b, x, y) < Extents(b).x * Extents(b).y
    ensures SlicePos(b, SliceIndex(b, x, y)) == (x, y)
  {
    var w, row, col := Extents(b).x, b.hi.y - y, x - b.lo.x;
    assert 0 <= row < Extents(b).y && 0 <= col < w;
    DivModOfRow(row, col, w, Extents(b).y);
  }

  /** The row loop of GetSlice: buffer[n..n + width] gets row y, x from left to right. */
  method SliceRow(g: Grid, b: IBox, y: int, z: int, buffer: array<real>, n: int)
    requires 0 <= n && n + IMax(0, Extents(b).x) <= buffer.Length
    modifies buffer
    ensures forall k :: n <= k < n + IMax(0, Extents(b).x) ==> buffer[k] == Get(g, Coord(b.lo.x + (k - n), y, z))
    ensures forall i :: 0 <= i < buffer.Length && !(n <= i < n + IMax(0, Extents(b).x)) ==> buffer[i] == old(buffer[i])
  {
    for i := 0 to IMax(0, Extents(b).x)
      invariant forall k :: n <= k < n + i ==> buffer[k] == Get(g, Coord(b.lo.x + (k - n), y, z))
      invariant forall k :: 0 <= k < buffer.Length && !(n <= k < n + i) ==> buffer[k] == old(buffer[k])
    {
      buffer[n + i] := Get(g, Coord(b.lo.x + i, y, z));
    }
  }

  /** Position i of row block `row` is column i - row * w of that row. */
  lemma RowSlot(row: int, w: int, rows: int, i: int)
    requires 0 <= row < rows && row * w <= i < (row + 1) * w
    ensures i / w == row && i % w == i - row * w
  {
    assert (row + 1) * w == row * w + w;
    DivModOfRow(row, i - row * w, w, rows);
    assert i == row * w + (i - row * w);
  }

  /** The number of values GetSlice writes for box b: width times height, none for an empty box. */
  function SliceLength(b: IBox): (n: int)
    ensures n >= 0
  {
    var w, h := IMax(0, Extents(b).x), IMax(0, Extents(b).y);
    MulMonotone(0, h, w);
    w * h
  }

  /** The first n positions of s hold the slice of layer z over box b, rows from the top y down. */
  ghost predicate SlicePrefix(g: Grid, b: IBox, z: int, s: seq<real>, n: int)
  {
    Extents(b).x > 0 ==> forall i :: 0 <= i < n && i < |s| ==>
      s[i] == Get(g, Coord(b.lo.x + i % Extents(b).x, b.hi.y - i / Extents(b).x, z))
  }

  /**
   * GetSlice over box b: the layer z = nZSlice + b.lo.z, row by row from
   * the top y down, each row from the lowest x up; buffer position i holds
   * voxel SlicePos(b, i). Nothing past the slice is written.
   */
  method SliceOfBox(g: Grid, b: IBox, nZSlice: int, buffer: array<real>)
    requires SliceLength(b) <= buffer.Length
    modifies buffer
    ensures Extents(b).x > 0 ==> forall i :: 0 <= i < SliceLength(b) ==>
              buffer[i] == Get(g, Coord(SlicePos(b, i).0, SlicePos(b, i).1, nZSlice + b.lo.z))
    ensures forall i :: SliceLength(b) <= i < buffer.Length ==> buffer[i] == old(buffer[i])
  {
    var w, rows, z := IMax(0, Extents(b).x), IMax(0, Extents(b).y), nZSlice + b.lo.z;
    var n := 0;
    for row := 0 to rows
      invariant n == row * w
      invariant SlicePrefix(g, b, z, buffer[..], n)
      invariant buffer[n..] == old(buffer[..])[n..]
    {
      RowFits(b, rows, row, n);
      ghost var before := buffer[..];
      SliceRow(g, b, b.hi.y - row, z, buffer, n);
      RowExtends(g, b, z, rows, row, n, before, buffer[..], old(buffer[..]));
      n := n + w;
    }
    SliceComplete(g, b, z, rows, n, buffer[..], old(buffer[..]));
  }

  /** Row block `row` at n = row * w lies within the slice, and the next one starts at (row + 1) * w. */
  lemma RowFits(b: IBox, rows: int, row: int, n: int)
    requires rows == IMax(0, Extents(b).y) && 0 <= row < rows && n == row * IMax(0, Extents(b).x)
    ensures n + IMax(0, Extents(b).x) == (row + 1) * IMax(0, Extents(b).x) <= SliceLength(b)
  {
    var w := IMax(0, Extents(b).x);
    MulMonotone(row + 1, rows, w);
    assert (row + 1) * w == row * w + w;
  }

  /** Once every row is written the prefix is the whole slice, and the buffer past it is as it was. */
  lemma SliceComplete(g: Grid, b: IBox, z: int, rows: int, n: int, s: seq<real>, orig: seq<real>)
    requires rows == IMax(0, Extents(b).y) && n == rows * IMax(0, Extents(b).x)
    requires |s| == |orig| && SliceLength(b) <= |s|
    requires SlicePrefix(g, b, z, s, n) && s[n..] == orig[n..]
    ensures Extents(b).x > 0 ==> forall i :: 0 <= i < SliceLength(b) ==> s[i] == Get(g, Coord(SlicePos(b, i).0, SlicePos(b, i).1, z))
    ensures forall i :: SliceLength(b) <= i < |s| ==> s[i] == orig[i]
  {
    assert n == SliceLength(b);
    forall i | SliceLength(b) <= i < |s| ensures s[i] == orig[i] {
      assert s[n..][i - n] == orig[n..][i - n];
    }
  }

  /**
   * Writing row block `row`, at n = row * w, after the rows before it
   * extends the slice prefix by one row and leaves what follows it as it
   * was at the start.
   */
  lemma RowExtends(g: Grid, b: IBox, z: int, rows: int, row: int, n: int,
                   before: seq<real>, after: seq<real>, orig: seq<real>)
    requires rows == IMax(0, Extents(b).y) && 0 <= row < rows && n == row * IMax(0, Extents(b).x)
    requires |before| == |after| == |orig| && n + IMax(0, Extents(b).x) <= |after|
    requires SlicePrefix(g, b, z, before, n) && before[n..] == orig[n..]
    requires forall k :: n <= k < n + IMax(0, Extents(b).x) ==> after[k] == Get(g, Coord(b.lo.x + (k - n), b.hi.y - row, z))
    requires forall i :: 0 <= i < |after| && !(n <= i < n + IMax(0, Extents(b).x)) ==> after[i] == before[i]
    ensures n + IMax(0, Extents(b).x) == (row + 1) * IMax(0, Extents(b).x)
    ensures SlicePrefix(g, b, z, after, n + IMax(0, Extents(b).x))
    ensures after[n + IMax(0, Extents(b).x)..] == orig[n + IMax(0, Extents(b).x)..]
  {
    var w := IMax(0, Extents(b).x);
    assert (row + 1) * w == row * w + w;
    if Extents(b).x > 0 {
      forall i | 0 <= i < n + w && i < |after|
        ensures after[i] == Get(g, Coord(b.lo.x + i % w, b.hi.y - i / w, z))
      {
        if i >= n {
          RowSlot(row, w, rows, i);
        }
      }
    }
    forall k | n + w <= k < |after| ensures after[k] == orig[k] {
      assert before[n..][k - n] == orig[n..][k - n];
    }
  }

  /** Position i of the slice buffer s holds voxel SlicePos(b, i) of layer z, for every i of the slice. */
  ghost predicate SliceHolds(g: Grid, b: IBox, z: int, s: seq<real>)
  {
    Extents(b).x > 0 ==> forall i :: 0 <= i < SliceLength(b) && i < |s| ==>
      s[i] == Get(g, Coord(SlicePos(b, i).0, SlicePos(b, i).1, z))
  }

  /** Voxels::GetSlice: the slice over the active box. */
  method GetSlice(g: Grid, nZSlice: int, buffer: array<real>)
    requires ValidGrid(g) && SliceLength(ActiveBox(g)) <= buffer.Length
    modifies buffer
    ensures SliceHolds(g, ActiveBox(g), nZSlice + ActiveBox(g).lo.z, buffer[..])
    ensures buffer[SliceLength(ActiveBox(g))..] == old(buffer[SliceLength(ActiveBox(g))..])
  {
    var b := EvalActiveBBox(g);
    SliceOfBox(g, b, nZSlice, buffer);
    assert buffer[SliceLength(b)..] == old(buffer[SliceLength(b)..]);
  }

  // -------------------------------------------------- GetVoxelDimensions

  /**
   * GetVoxelDimensions: the active box's min corner and its int32 extents.
   * When the extents fit in int32, every active voxel lies in
   * [min, min + size - 1] on each axis; for an empty grid the reset box's
   * extents wrap to 2 on every axis.
   */
  method GetVoxelDimensions(g: Grid) returns (lo: Coord, size: Coord)
    requires ValidGrid(g)
    ensures lo == ActiveBox(g).lo && size == Extents32(ActiveBox(g))
    ensures InInt32(Extents(ActiveBox(g))) ==> forall c :: c in g.active ==>
      lo.x <= c.x < lo.x + size.x && lo.y <= c.y < lo.y + size.y && lo.z <= c.z < lo.z + size.z
  {
    var b := EvalActiveBBox(g);
    lo, size := b.lo, Extents32(b);
  }

  /** The dimensions of an empty grid: the reset box's min corner and extents 2, 2, 2. */
  lemma EmptyDimensions(g: Grid)
    requires ValidGrid(g) && g.active == {}
    ensures ActiveBox(g).lo == Coord(INT32_MAX, INT32_MAX, INT32_MAX)
    ensures Extents32(ActiveBox(g)) == Coord(2, 2, 2)
  {
    assert Wrap32(INT32_MIN - INT32_MAX + 1) == 2;
  }

  /**
   * A non-empty grid whose active box spans less than 2^31 voxels per axis
   * has its true extents: positive, and reaching from min to max.
   */
  lemma SpannedDimensions(g: Grid)
    requires ValidGrid(g) && g.active != {}
    requires InInt32(Extents(ActiveBox(g)))
    ensures Extents32(ActiveBox(g)) == Extents(ActiveBox(g))
    ensures Extents32(ActiveBox(g)).x > 0 && Extents32(ActiveBox(g)).y > 0 && Extents32(ActiveBox(g)).z > 0
  {
    ActiveBoxSpans(g);
  }
}

/**
 * The sparse narrow-band voxel store behind a Voxels object: a level-set
 * float grid with a background value, read and written through an accessor.
 *
 * A voxel that was never written reads as the background; writing a value
 * makes the voxel active; switching it off keeps the value but deactivates
 * it. The signed distance write rule SetSdValue and the active-voxel bounding
 * box live here too.
 */
module VoxelGrid {
  import opened Types

  /** PICOGK_VOXEL_DEFAULTBACKGROUND */
  const DEFAULT_BACKGROUND: real := 3.0

  datatype Grid = Grid(background: real, values: map<Coord, real>, active: set<Coord>)

  predicate InInt32(c: Coord)
  {
    INT32_MIN <= c.x <= INT32_MAX && INT32_MIN <= c.y <= INT32_MAX && INT32_MIN <= c.z <= INT32_MAX
  }

  /**
   * A level-set grid whose clamp range [-background, background] is not
   * empty and whose active voxels have int32 coordinates.
   */
  ghost predicate ValidGrid(g: Grid)
  {
    g.background >= 0.0 && forall c :: c in g.active ==> InInt32(c)
  }

  /** accessor.getValue: the stored value, or the background where nothing was stored. */
  function Get(g: Grid, c: Coord): real
  {
    if c in g.values then g.values[c] else g.background
  }

  /** The voxel is inside the surface. */
  predicate Inside(g: Grid, c: Coord) { Get(g, c) <= 0.0 }

  /** accessor.setValue: stores the value and activates the voxel. */
  function SetValueOn(g: Grid, c: Coord, v: real): Grid
  {
    g.(values := g.values[c := v], active := g.active + {c})
  }

  /** accessor.setValueOff: deactivates the voxel and keeps its value. */
  function SetValueOff(g: Grid, c: Coord): Grid
  {
    g.(active := g.active - {c})
  }

  /** The clamp of a signed distance to the narrow band [-bg, bg]. */
  function Clamp(v: real, bg: real): real { FClamp(v, -bg, bg) }

  /**
   * What SetSdValue leaves at voxel c for the value v: the value clamped to
   * the band, and the voxel active exactly when the unclamped |v| is below
   * the background.
   */
  ghost predicate SdStored(g: Grid, c: Coord, v: real)
  {
    Get(g, c) == Clamp(v, g.background) && (c in g.active <==> Abs(v) < g.background)
  }

  /** Voxel c reads and is flagged the same in both grids. */
  ghost predicate Same(g: Grid, h: Grid, c: Coord)
  {
    Get(h, c) == Get(g, c) && (c in h.active <==> c in g.active)
  }

  /**
   * SetSdValue: store clamp(v, -bg, bg) and switch the voxel off when
   * |v| >= bg, so a value of exactly +-bg ends inactive. No other voxel changes.
   */
  function SetSdValue(g: Grid, c: Coord, v: real): (r: Grid)
    requires g.background >= 0.0
    ensures r.background == g.background
    ensures SdStored(r, c, v)
    ensures forall d :: d != c ==> Same(g, r, d)
    ensures ValidGrid(g) && InInt32(c) ==> ValidGrid(r)
  {
    var r := SetValueOn(g, c, FClamp(v, -g.background, g.background));
    if Abs(v) >= g.background then SetValueOff(r, c) else r
  }

  /**
   * Taking the minimum with an already clamped value gives the same stored
   * value and the same active flag as taking it with the unclamped one; so
   * SetSdValue(min(a, stored)) depends only on a and the unclamped history.
   */
  lemma ClampMinAbsorb(a: real, m: real, bg: real)
    requires bg >= 0.0
    ensures Clamp(Min(a, Clamp(m, bg)), bg) == Clamp(Min(a, m), bg)
    ensures (Abs(Min(a, Clamp(m, bg))) < bg) == (Abs(Min(a, m)) < bg)
  {
  }

  /** SdStored for min(a, current value) is SdStored for min(a, m) when the voxel already holds m. */
  lemma StoredMinAbsorb(g: Grid, h: Grid, c: Coord, a: real, m: real)
    requires g.background >= 0.0 && h.background == g.background
    requires SdStored(g, c, m)
    requires SdStored(h, c, Min(a, Get(g, c)))
    ensures SdStored(h, c, Min(a, m))
  {
    ClampMinAbsorb(a, m, g.background);
  }

  // ------------------------------------------------------- integer boxes

  /** An openvdb CoordBBox: inclusive corners; min > max on some axis means empty. */
  datatype IBox = IBox(lo: Coord, hi: Coord)

  predicate InIBox(c: Coord, b: IBox)
  {
    b.lo.x <= c.x <= b.hi.x && b.lo.y <= c.y <= b.hi.y && b.lo.z <= c.z <= b.hi.z
  }

  /** The reset CoordBBox: min at INT32_MAX, max at INT32_MIN on every axis. */
  function EmptyIBox(): IBox
  {
    IBox(Coord(INT32_MAX, INT32_MAX, INT32_MAX), Coord(INT32_MIN, INT32_MIN, INT32_MIN))
  }

  /** CoordBBox::expand(xyz): componentwise min into the min corner and max into the max corner. */
  function Expand(b: IBox, c: Coord): (r: IBox)
    ensures InIBox(c, r)
    ensures forall d :: InIBox(d, b) ==> InIBox(d, r)
  {
    IBox(Coord(IMin(b.lo.x, c.x), IMin(b.lo.y, c.y), IMin(b.lo.z, c.z)),
         Coord(IMax(b.hi.x, c.x), IMax(b.hi.y, c.y), IMax(b.hi.z, c.z)))
  }

  /** CoordBBox::extents: max - min + 1 per axis. */
  function Extents(b: IBox): Coord
  {
    Coord(b.hi.x - b.lo.x + 1, b.hi.y - b.lo.y + 1, b.hi.z - b.lo.z + 1)
  }

  /**
   * CoordBBox::extents in int32 arithmetic: each extent wraps. For the
   * reset box max - min + 1 is INT32_MIN - INT32_MAX + 1, which wraps to 2.
   */
  function Extents32(b: IBox): (e: Coord)
    ensures InInt32(e)
    ensures InInt32(Extents(b)) ==> e == Extents(b)
  {
    Coord(Wrap32(b.hi.x - b.lo.x + 1), Wrap32(b.hi.y - b.lo.y + 1), Wrap32(b.hi.z - b.lo.z + 1))
  }

  /** An int32 counter `for (i = lo; i <= hi; i++)` stops without overflowing: it never starts, or hi is below INT32_MAX. */
  predicate CountStops(lo: int, hi: int) { lo > hi || hi < INT32_MAX }

  /** The nested int32 x, y, z loops over box b all stop: each level is never entered or ends below INT32_MAX. */
  predicate ScanStops(b: IBox)
  {
    CountStops(b.lo.x, b.hi.x) &&
    (b.lo.x > b.hi.x || CountStops(b.lo.y, b.hi.y)) &&
    (b.lo.x > b.hi.x || b.lo.y > b.hi.y || CountStops(b.lo.z, b.hi.z))
  }

  /**
   * `b` is the tight box of the voxels in s, as evalActiveVoxelBoundingBox
   * computes it: the reset box for no voxels, and otherwise a box holding
   * all of them whose six faces each touch one.
   */
  ghost predicate IsTightBounds(s: set<Coord>, b: IBox)
  {
    (s == {} ==> b == EmptyIBox()) &&
    (s != {} ==>
      (forall c :: c in s ==> InIBox(c, b)) &&
      (exists c :: c in s && c.x == b.lo.x) && (exists c :: c in s && c.x == b.hi.x) &&
      (exists c :: c in s && c.y == b.lo.y) && (exists c :: c in s && c.y == b.hi.y) &&
      (exists c :: c in s && c.z == b.lo.z) && (exists c :: c in s && c.z == b.hi.z))
  }

  /** There is only one tight box. */
  lemma TightBoundsUnique(s: set<Coord>, a: IBox, b: IBox)
    requires IsTightBounds(s, a) && IsTightBounds(s, b)
    ensures a == b
  {
    if s != {} {
      var c1 :| c1 in s && c1.x == a.lo.x;
      var d1 :| d1 in s && d1.x == b.lo.x;
      assert InIBox(c1, b) && InIBox(d1, a);
      var c2 :| c2 in s && c2.x == a.hi.x;
      var d2 :| d2 in s && d2.x == b.hi.x;
      assert InIBox(c2, b) && InIBox(d2, a);
      var c3 :| c3 in s && c3.y == a.lo.y;
      var d3 :| d3 in s && d3.y == b.lo.y;
      assert InIBox(c3, b) && InIBox(d3, a);
      var c4 :| c4 in s && c4.y == a.hi.y;
      var d4 :| d4 in s && d4.y == b.hi.y;
      assert InIBox(c4, b) && InIBox(d4, a);
      var c5 :| c5 in s && c5.z == a.lo.z;
      var d5 :| d5 in s && d5.z == b.lo.z;
      assert InIBox(c5, b) && InIBox(d5, a);
      var c6 :| c6 in s && c6.z == a.hi.z;
      var d6 :| d6 in s && d6.z == b.hi.z;
      assert InIBox(c6, b) && InIBox(d6, a);
    }
  }

  /** Expanding the tight box of s by an int32 voxel c gives the tight box of s + {c}. */
  lemma TightBoundsExpand(s: set<Coord>, b: IBox, c: Coord)
    requires IsTightBounds(s, b) && InInt32(c)
    ensures IsTightBounds(s + {c}, Expand(b, c))
  {
    var r := Expand(b, c);
    var t := s + {c};
    if s == {} {
      assert r == IBox(c, c);
    } else {
      forall d | d in t ensures InIBox(d, r) {
        if d in s { assert InIBox(d, b); }
      }
      var c1 :| c1 in s && c1.x == b.lo.x;
      var c2 :| c2 in s && c2.x == b.hi.x;
      var c3 :| c3 in s && c3.y == b.lo.y;
      var c4 :| c4 in s && c4.y == b.hi.y;
      var c5 :| c5 in s && c5.z == b.lo.z;
      var c6 :| c6 in s && c6.z == b.hi.z;
      assert (c1 in t && c1.x == r.lo.x) || c.x == r.lo.x;
      assert (c2 in t && c2.x == r.hi.x) || c.x == r.hi.x;
      assert (c3 in t && c3.y == r.lo.y) || c.y == r.lo.y;
      assert (c4 in t && c4.y == r.hi.y) || c.y == r.hi.y;
      assert (c5 in t && c5.z == r.lo.z) || c.z == r.lo.z;
      assert (c6 in t && c6.z == r.hi.z) || c.z == r.hi.z;
    }
  }

  /** The tight box of a finite set of int32 voxels, built one voxel at a time. */
  ghost function BoundsOf(s: set<Coord>): (b: IBox)
    requires forall c :: c in s ==> InInt32(c)
    ensures IsTightBounds(s, b)
    decreases |s|
  {
    if s == {} then EmptyIBox()
    else
      var c :| c in s;
      var b := BoundsOf(s - {c});
      TightBoundsExpand(s - {c}, b, c);
      assert s - {c} + {c} == s;
      Expand(b, c)
  }

  /** The active-voxel bounding box of a grid. */
  ghost function ActiveBox(g: Grid): (b: IBox)
    requires ValidGrid(g)
    ensures IsTightBounds(g.active, b)
  {
    BoundsOf(g.active)
  }

  /** One step of the active-voxel scan: moving c from the unseen to the seen voxels keeps the box tight. */
  lemma ScanStep(active: set<Coord>, rest: set<Coord>, seen: set<Coord>, b: IBox, c: Coord)
    requires forall d :: d in active ==> InInt32(d)
    requires rest <= active && seen == active - rest && c in rest
    requires IsTightBounds(seen, b)
    ensures rest - {c} <= active && seen + {c} == active - (rest - {c})
    ensures IsTightBounds(seen + {c}, Expand(b, c))
  {
    TightBoundsExpand(seen, b, c);
  }

  /** The corners of the active box are int32 coordinates, for an empty grid too. */
  lemma ActiveBoxInInt32(g: Grid)
    requires ValidGrid(g)
    ensures InInt32(ActiveBox(g).lo) && InInt32(ActiveBox(g).hi)
  {
    var b := ActiveBox(g);
    if g.active != {} {
      var c1 :| c1 in g.active && c1.x == b.lo.x;
      var c2 :| c2 in g.active && c2.x == b.hi.x;
      var c3 :| c3 in g.active && c3.y == b.lo.y;
      var c4 :| c4 in g.active && c4.y == b.hi.y;
      var c5 :| c5 in g.active && c5.z == b.lo.z;
      var c6 :| c6 in g.active && c6.z == b.hi.z;
      assert InInt32(c1) && InInt32(c2) && InInt32(c3) && InInt32(c4) && InInt32(c5) && InInt32(c6);
    }
  }

  /**
   * evalActiveVoxelBoundingBox: starts from the reset box and expands it by
   * every active voxel.
   */
  method EvalActiveBBox(g: Grid) returns (b: IBox)
    requires ValidGrid(g)
    ensures b == ActiveBox(g)
    ensures forall c :: c in g.active ==> InIBox(c, b)
  {
    b := EmptyIBox();
    var rest := g.active;
    ghost var seen: set<Coord> := {};
    while rest != {}
      invariant rest <= g.active && seen == g.active - rest
      invariant IsTightBounds(seen, b)
      decreases |rest|
    {
      var c :| c in rest;
      ScanStep(g.active, rest, seen, b, c);
      b := Expand(b, c);
      seen := seen + {c};
      rest := rest - {c};
    }
    assert seen == g.active;
    TightBoundsUnique(g.active, b, ActiveBox(g));
  }
}

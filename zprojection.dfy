/**
 * ProjectZSliceDn / ProjectZSliceUp / ProjectZSlice: every column (x, y) of
 * the active bounding box, taken before the first write, is swept from the
 * start layer towards the end layer, each voxel taking the minimum of itself
 * and the voxel before it; a closing pass then averages the K layers from the
 * end layer on with their next neighbour, K = (int)(0.5 + background).
 *
 * Both directions share one model: `down` selects the step z - 1 (Dn) or
 * z + 1 (Up).
 */
module ZProjection {
  import opened Types
  import opened VoxelGrid

  /** The layer n steps from z in the sweep direction. */
  function Step(z: int, down: bool, n: int): int { if down then z - n else z + n }

  /** How many steps layer z lies from layer z0 in the sweep direction. */
  function Dist(z0: int, z: int, down: bool): int { if down then z0 - z else z - z0 }

  /** The voxel n steps from (x, y, z0). */
  function At(x: int, y: int, z0: int, down: bool, n: int): Coord { Coord(x, y, Step(z0, down, n)) }

  /**
   * The running minimum of column (x, y) from layer z0 over n steps: the
   * value the sweep leaves (before clamping) n steps from the start layer.
   */
  function SweepMin(g: Grid, x: int, y: int, z0: int, down: bool, n: nat): real
  {
    if n == 0 then Get(g, At(x, y, z0, down, 0))
    else Min(Get(g, At(x, y, z0, down, n)), SweepMin(g, x, y, z0, down, n - 1))
  }

  /** The running minimum is the least of the column's values over the steps 0..n. */
  lemma {:induction false} SweepMinIsMinimum(g: Grid, x: int, y: int, z0: int, down: bool, n: nat)
    ensures forall k :: 0 <= k <= n ==> SweepMin(g, x, y, z0, down, n) <= Get(g, At(x, y, z0, down, k))
    ensures exists k :: 0 <= k <= n && SweepMin(g, x, y, z0, down, n) == Get(g, At(x, y, z0, down, k))
  {
    if n == 0 {
      assert SweepMin(g, x, y, z0, down, n) == Get(g, At(x, y, z0, down, 0));
    } else {
      SweepMinIsMinimum(g, x, y, z0, down, n - 1);
      var m := SweepMin(g, x, y, z0, down, n - 1);
      var k :| 0 <= k <= n - 1 && m == Get(g, At(x, y, z0, down, k));
      if Get(g, At(x, y, z0, down, n)) <= m {
        assert SweepMin(g, x, y, z0, down, n) == Get(g, At(x, y, z0, down, n));
      } else {
        assert SweepMin(g, x, y, z0, down, n) == Get(g, At(x, y, z0, down, k));
      }
    }
  }

  /** The running minimum reads only the column's first n + 1 voxels. */
  lemma {:induction false} SweepMinFrame(g: Grid, h: Grid, x: int, y: int, z0: int, down: bool, n: nat)
    requires forall z :: Get(g, Coord(x, y, z)) == Get(h, Coord(x, y, z))
    ensures SweepMin(g, x, y, z0, down, n) == SweepMin(h, x, y, z0, down, n)
  {
    assert Get(g, At(x, y, z0, down, n)) == Get(h, At(x, y, z0, down, n));
    if n > 0 {
      SweepMinFrame(g, h, x, y, z0, down, n - 1);
    }
  }

  /** Column (x, y) of c lies in the x/y range of b; the z range of b is ignored. */
  predicate InColumns(c: Coord, b: IBox)
  {
    b.lo.x <= c.x <= b.hi.x && b.lo.y <= c.y <= b.hi.y
  }

  /** Voxel c is written by the main loop: in a swept column, 1..count steps from the start layer. */
  predicate InSweep(c: Coord, b: IBox, z0: int, count: int, down: bool)
  {
    InColumns(c, b) && 1 <= Dist(z0, c.z, down) <= count
  }

  /**
   * h is g after the main loop over the columns of b: a swept voxel holds
   * what SetSdValue stores for the column's running minimum from the start
   * layer to it; every other voxel, the start layer included, is unchanged.
   */
  ghost predicate Swept(g: Grid, h: Grid, b: IBox, z0: int, count: int, down: bool)
  {
    h.background == g.background &&
    forall c :: if InSweep(c, b, z0, count, down)
                then SdStored(h, c, SweepMin(g, c.x, c.y, z0, down, Dist(z0, c.z, down)))
                else Same(g, h, c)
  }

  /** Sweeping the columns of a and then the disjoint columns of b sweeps their union c. */
  lemma SweptExtend(g: Grid, h: Grid, k: Grid, a: IBox, b: IBox, c: IBox, z0: int, count: int, down: bool)
    requires Swept(g, h, a, z0, count, down) && Swept(h, k, b, z0, count, down)
    requires forall d :: InColumns(d, c) <==> InColumns(d, a) || InColumns(d, b)
    requires forall d :: !(InColumns(d, a) && InColumns(d, b))
    ensures Swept(g, k, c, z0, count, down)
  {
    forall d | InSweep(d, b, z0, count, down)
      ensures SweepMin(h, d.x, d.y, z0, down, Dist(z0, d.z, down)) == SweepMin(g, d.x, d.y, z0, down, Dist(z0, d.z, down))
    {
      forall z ensures Get(g, Coord(d.x, d.y, z)) == Get(h, Coord(d.x, d.y, z)) {
        assert !InColumns(Coord(d.x, d.y, z), a);
        assert Same(g, h, Coord(d.x, d.y, z));
      }
      SweepMinFrame(g, h, d.x, d.y, z0, down, Dist(z0, d.z, down));
    }
    forall d ensures if InSweep(d, c, z0, count, down)
                     then SdStored(k, d, SweepMin(g, d.x, d.y, z0, down, Dist(z0, d.z, down)))
                     else Same(g, k, d)
    {
      if InSweep(d, a, z0, count, down) {
        assert !InColumns(d, b);
      } else if InSweep(d, b, z0, count, down) {
      } else if InColumns(d, a) {
        assert !InColumns(d, b);
      }
    }
  }

  /** Nothing is swept over no columns. */
  lemma SweptNothing(g: Grid, a: IBox, z0: int, count: int, down: bool)
    requires forall d :: !InColumns(d, a)
    ensures Swept(g, g, a, z0, count, down)
  {
  }

  /** Swept depends on the columns of the box only. */
  lemma SweptSameColumns(g: Grid, h: Grid, a: IBox, b: IBox, z0: int, count: int, down: bool)
    requires Swept(g, h, a, z0, count, down)
    requires forall d :: InColumns(d, a) <==> InColumns(d, b)
    ensures Swept(g, h, b, z0, count, down)
  {
    forall d ensures InSweep(d, a, z0, count, down) == InSweep(d, b, z0, count, down) { }
  }

  function ColumnBox(x: int, y: int): IBox { IBox(Coord(x, y, 0), Coord(x, y, 0)) }

  /** Storing the running minimum at step n, and nothing else, extends the sweep by one step. */
  lemma SweptOneMore(g: Grid, h: Grid, next: Grid, x: int, y: int, z0: int, n: int, down: bool)
    requires n >= 1
    requires Swept(g, h, ColumnBox(x, y), z0, n - 1, down) && next.background == h.background
    requires SdStored(next, At(x, y, z0, down, n), SweepMin(g, x, y, z0, down, n))
    requires forall d :: d != At(x, y, z0, down, n) ==> Same(h, next, d)
    ensures Swept(g, next, ColumnBox(x, y), z0, n, down)
  {
    var c := At(x, y, z0, down, n);
    assert Dist(z0, c.z, down) == n;
    forall d ensures if InSweep(d, ColumnBox(x, y), z0, n, down)
                     then SdStored(next, d, SweepMin(g, d.x, d.y, z0, down, Dist(z0, d.z, down)))
                     else Same(g, next, d)
    {
      if d != c {
        assert Same(h, next, d);
      }
    }
  }

  /** What SetSdValue stores for min(a, p's value) is what it stores for min(a, m) when p holds m clamped. */
  lemma StoredMinOf(h: Grid, next: Grid, c: Coord, p: Coord, a: real, m: real)
    requires h.background >= 0.0 && next.background == h.background
    requires Get(h, p) == Clamp(m, h.background)
    requires SdStored(next, c, Min(a, Get(h, p)))
    ensures SdStored(next, c, Min(a, m))
  {
    ClampMinAbsorb(a, m, h.background);
  }

  /** Writing voxel n of the column from its own and its predecessor's value extends the sweep by one step. */
  lemma SweepStep(g: Grid, h: Grid, next: Grid, x: int, y: int, z0: int, n: int, down: bool)
    requires g.background >= 0.0 && n >= 1
    requires Swept(g, h, ColumnBox(x, y), z0, n - 1, down)
    requires next == SetSdValue(h, At(x, y, z0, down, n), Min(Get(h, At(x, y, z0, down, n)), Get(h, At(x, y, z0, down, n - 1))))
    ensures Swept(g, next, ColumnBox(x, y), z0, n, down)
  {
    var c, prev := At(x, y, z0, down, n), At(x, y, z0, down, n - 1);
    assert Dist(z0, c.z, down) == n && Dist(z0, prev.z, down) == n - 1;
    assert Get(h, c) == Get(g, c) by { assert !InSweep(c, ColumnBox(x, y), z0, n - 1, down); }
    if n > 1 {
      assert InSweep(prev, ColumnBox(x, y), z0, n - 1, down);
      StoredMinOf(h, next, c, prev, Get(h, c), SweepMin(g, x, y, z0, down, n - 1));
    } else {
      assert !InSweep(prev, ColumnBox(x, y), z0, n - 1, down);
    }
    SweptOneMore(g, h, next, x, y, z0, n, down);
  }

  /** The int32 bounds the main pass's coordinates stay within. */
  predicate SweepInInt32(b: IBox, z0: int, count: int, down: bool)
  {
    InInt32(b.lo) && InInt32(b.hi) && INT32_MIN <= z0 <= INT32_MAX &&
    (count >= 1 ==> INT32_MIN <= Step(z0, down, count) <= INT32_MAX)
  }

  /** The grid after the z loop over column (x, y) has written steps 1..n. */
  function ColumnPass(g: Grid, x: int, y: int, z0: int, down: bool, n: int): (r: Grid)
    requires g.background >= 0.0
    ensures r.background == g.background
    ensures ValidGrid(g) && InInt32(Coord(x, y, z0)) && (n >= 1 ==> InInt32(At(x, y, z0, down, n))) ==> ValidGrid(r)
    decreases n
  {
    if n < 1 then g
    else
      var h := ColumnPass(g, x, y, z0, down, n - 1);
      var c := At(x, y, z0, down, n);
      SetSdValue(h, c, Min(Get(h, c), Get(h, At(x, y, z0, down, n - 1))))
  }

  /** The grid after the y loop of plane x has swept the columns b.lo.y..y. */
  function PlanePass(g: Grid, x: int, b: IBox, y: int, z0: int, down: bool, count: int): (r: Grid)
    requires g.background >= 0.0
    ensures r.background == g.background
    ensures ValidGrid(g) && SweepInInt32(b, z0, count, down) && b.lo.x <= x <= b.hi.x && y <= b.hi.y ==> ValidGrid(r)
    decreases y - b.lo.y
  {
    if y < b.lo.y then g
    else ColumnPass(PlanePass(g, x, b, y - 1, z0, down, count), x, y, z0, down, count)
  }

  /** The grid after the x loop of the main pass has swept the planes b.lo.x..x. */
  function BoxPass(g: Grid, b: IBox, x: int, z0: int, down: bool, count: int): (r: Grid)
    requires g.background >= 0.0
    ensures r.background == g.background
    ensures ValidGrid(g) && SweepInInt32(b, z0, count, down) && x <= b.hi.x ==> ValidGrid(r)
    decreases x - b.lo.x
  {
    if x < b.lo.x then g
    else PlanePass(BoxPass(g, b, x - 1, z0, down, count), x, b, b.hi.y, z0, down, count)
  }

  /** The column pass sweeps the column. */
  lemma {:induction false} ColumnPassSweeps(g: Grid, x: int, y: int, z0: int, down: bool, n: int)
    requires g.background >= 0.0
    ensures Swept(g, ColumnPass(g, x, y, z0, down, n), ColumnBox(x, y), z0, n, down)
    decreases n
  {
    if n >= 1 {
      ColumnPassSweeps(g, x, y, z0, down, n - 1);
      SweepStep(g, ColumnPass(g, x, y, z0, down, n - 1), ColumnPass(g, x, y, z0, down, n), x, y, z0, n, down);
    }
  }

  /** The plane pass sweeps the columns b.lo.y..y of plane x. */
  lemma {:induction false} PlanePassSweeps(g: Grid, x: int, b: IBox, y: int, z0: int, down: bool, count: int)
    requires g.background >= 0.0
    ensures Swept(g, PlanePass(g, x, b, y, z0, down, count), IBox(Coord(x, b.lo.y, 0), Coord(x, y, 0)), z0, count, down)
    decreases y - b.lo.y
  {
    if y < b.lo.y {
      SweptNothing(g, IBox(Coord(x, b.lo.y, 0), Coord(x, y, 0)), z0, count, down);
    } else {
      var h := PlanePass(g, x, b, y - 1, z0, down, count);
      PlanePassSweeps(g, x, b, y - 1, z0, down, count);
      ColumnPassSweeps(h, x, y, z0, down, count);
      SweptExtend(g, h, PlanePass(g, x, b, y, z0, down, count), IBox(Coord(x, b.lo.y, 0), Coord(x, y - 1, 0)),
                  ColumnBox(x, y), IBox(Coord(x, b.lo.y, 0), Coord(x, y, 0)), z0, count, down);
    }
  }

  /** The box pass sweeps the columns of planes b.lo.x..x. */
  lemma {:induction false} BoxPassSweeps(g: Grid, b: IBox, x: int, z0: int, down: bool, count: int)
    requires g.background >= 0.0
    ensures Swept(g, BoxPass(g, b, x, z0, down, count), IBox(b.lo, Coord(x, b.hi.y, 0)), z0, count, down)
    decreases x - b.lo.x
  {
    if x < b.lo.x {
      SweptNothing(g, IBox(b.lo, Coord(x, b.hi.y, 0)), z0, count, down);
    } else {
      var h := BoxPass(g, b, x - 1, z0, down, count);
      BoxPassSweeps(g, b, x - 1, z0, down, count);
      PlanePassSweeps(h, x, b, b.hi.y, z0, down, count);
      SweptExtend(g, h, BoxPass(g, b, x, z0, down, count), IBox(b.lo, Coord(x - 1, b.hi.y, 0)),
                  IBox(Coord(x, b.lo.y, 0), Coord(x, b.hi.y, 0)), IBox(b.lo, Coord(x, b.hi.y, 0)), z0, count, down);
    }
  }

  /** The z loop of the main pass over column (x, y): `for (z = start; z > end; z--)` or its Up mirror. */
  method SweepColumn(g: Grid, x: int, y: int, z0: int, count: int, down: bool) returns (h: Grid)
    requires g.background >= 0.0
    ensures h == ColumnPass(g, x, y, z0, down, count)
  {
    h := g;
    for n := 1 to IMax(1, count + 1)
      invariant h == ColumnPass(g, x, y, z0, down, n - 1)
    {
      var c := At(x, y, z0, down, n);
      h := SetSdValue(h, c, Min(Get(h, c), Get(h, At(x, y, z0, down, n - 1))));
    }
  }

  /** The y loop of the main pass over plane x. */
  method SweepPlane(g: Grid, x: int, b: IBox, z0: int, count: int, down: bool) returns (h: Grid)
    requires g.background >= 0.0
    ensures h == PlanePass(g, x, b, b.hi.y, z0, down, count)
  {
    h := g;
    for y := b.lo.y to IMax(b.lo.y, b.hi.y + 1)
      invariant h == PlanePass(g, x, b, y - 1, z0, down, count)
    {
      h := SweepColumn(h, x, y, z0, count, down);
    }
  }

  /** The main pass: x, then y, then the column sweep, over the columns of b. */
  method SweepBox(g: Grid, b: IBox, z0: int, count: int, down: bool) returns (h: Grid)
    requires g.background >= 0.0
    ensures h == BoxPass(g, b, b.hi.x, z0, down, count)
  {
    h := g;
    for x := b.lo.x to IMax(b.lo.x, b.hi.x + 1)
      invariant h == BoxPass(g, b, x - 1, z0, down, count)
    {
      h := SweepPlane(h, x, b, z0, count, down);
    }
  }

  /** A voxel that starts inside casts its inside status along its whole swept column. */
  lemma InsidePropagates(g: Grid, h: Grid, b: IBox, z0: int, count: int, down: bool, c: Coord)
    requires g.background >= 0.0
    requires Swept(g, h, b, z0, count, down) && InSweep(c, b, z0, count, down)
    requires Inside(g, Coord(c.x, c.y, z0))
    ensures Inside(h, c)
  {
    SweepMinIsMinimum(g, c.x, c.y, z0, down, Dist(z0, c.z, down));
    assert At(c.x, c.y, z0, down, 0) == Coord(c.x, c.y, z0);
  }

  // ------------------------------------------------------- closing pass

  /** The voxel after c in the sweep direction. */
  function Next(c: Coord, down: bool): Coord { Coord(c.x, c.y, Step(c.z, down, 1)) }

  /** The average the closing pass stores at c: c and its next neighbour, as they read before the layer. */
  function NeighbourMean(g: Grid, c: Coord, down: bool): real
  {
    (Get(g, c) + Get(g, Next(c, down))) / 2.0
  }

  /** Voxel c lies in one of the `layers` closing layers from zEnd on, inside the columns of b. */
  predicate InClosing(c: Coord, b: IBox, zEnd: int, layers: int, down: bool)
  {
    InColumns(c, b) && 0 <= Dist(zEnd, c.z, down) < layers
  }

  /**
   * h is g after the closing pass: every voxel of the closing layers holds
   * what SetSdValue stores for the mean of its value and its next
   * neighbour's value in g; every other voxel is unchanged.
   */
  ghost predicate Closed(g: Grid, h: Grid, b: IBox, zEnd: int, layers: int, down: bool)
  {
    h.background == g.background &&
    forall c :: if InClosing(c, b, zEnd, layers, down) then SdStored(h, c, NeighbourMean(g, c, down)) else Same(g, h, c)
  }

  /** h is g after averaging the columns of b in the single layer z. */
  ghost predicate LayerClosed(g: Grid, h: Grid, b: IBox, z: int, down: bool)
  {
    h.background == g.background &&
    forall c :: if InColumns(c, b) && c.z == z then SdStored(h, c, NeighbourMean(g, c, down)) else Same(g, h, c)
  }

  /** Averaging the columns of a and then the disjoint columns of b in one layer averages their union. */
  lemma LayerExtend(g: Grid, h: Grid, k: Grid, a: IBox, b: IBox, c: IBox, z: int, down: bool)
    requires LayerClosed(g, h, a, z, down) && LayerClosed(h, k, b, z, down)
    requires forall d :: InColumns(d, c) <==> InColumns(d, a) || InColumns(d, b)
    requires forall d :: !(InColumns(d, a) && InColumns(d, b))
    ensures LayerClosed(g, k, c, z, down)
  {
    forall d ensures if InColumns(d, c) && d.z == z then SdStored(k, d, NeighbourMean(g, d, down)) else Same(g, k, d) {
      if InColumns(d, b) && d.z == z {
        assert !InColumns(d, a);
        assert Next(d, down).z != z;
        assert Same(g, h, d) && Same(g, h, Next(d, down));
      } else if InColumns(d, a) && d.z == z {
        assert !InColumns(d, b);
      }
    }
  }

  lemma LayerNothing(g: Grid, a: IBox, z: int, down: bool)
    requires forall d :: !InColumns(d, a)
    ensures LayerClosed(g, g, a, z, down)
  {
  }

  lemma LayerSameColumns(g: Grid, h: Grid, a: IBox, b: IBox, z: int, down: bool)
    requires LayerClosed(g, h, a, z, down)
    requires forall d :: InColumns(d, a) <==> InColumns(d, b)
    ensures LayerClosed(g, h, b, z, down)
  {
  }

  /** Averaging voxel (x, y, z) extends the averaged part of plane x by column y. */
  lemma CloseStep(g: Grid, h: Grid, k: Grid, x: int, ylo: int, y: int, z: int, down: bool)
    requires g.background >= 0.0 && ylo <= y
    requires LayerClosed(g, h, IBox(Coord(x, ylo, 0), Coord(x, y - 1, 0)), z, down)
    requires k == SetSdValue(h, Coord(x, y, z), NeighbourMean(h, Coord(x, y, z), down))
    ensures LayerClosed(g, k, IBox(Coord(x, ylo, 0), Coord(x, y, 0)), z, down)
  {
    var c := Coord(x, y, z);
    assert LayerClosed(h, k, ColumnBox(x, y), z, down) by {
      forall d ensures if InColumns(d, ColumnBox(x, y)) && d.z == z then SdStored(k, d, NeighbourMean(h, d, down)) else Same(h, k, d) {
        if d != c { assert Same(h, k, d); }
      }
    }
    LayerExtend(g, h, k, IBox(Coord(x, ylo, 0), Coord(x, y - 1, 0)), ColumnBox(x, y),
                IBox(Coord(x, ylo, 0), Coord(x, y, 0)), z, down);
  }

  /** The grid after the y loop of closing layer z, plane x, has averaged the columns b.lo.y..y. */
  function RowClose(g: Grid, x: int, b: IBox, y: int, z: int, down: bool): (r: Grid)
    requires g.background >= 0.0
    ensures r.background == g.background
    ensures (ValidGrid(g) && InInt32(b.lo) && InInt32(b.hi) && b.lo.x <= x <= b.hi.x && y <= b.hi.y &&
             INT32_MIN <= z <= INT32_MAX) ==> ValidGrid(r)
    decreases y - b.lo.y
  {
    if y < b.lo.y then g
    else
      var h := RowClose(g, x, b, y - 1, z, down);
      SetSdValue(h, Coord(x, y, z), NeighbourMean(h, Coord(x, y, z), down))
  }

  /** The grid after the x loop of closing layer z has averaged the planes b.lo.x..x. */
  function LayerClose(g: Grid, b: IBox, x: int, z: int, down: bool): (r: Grid)
    requires g.background >= 0.0
    ensures r.background == g.background
    ensures ValidGrid(g) && InInt32(b.lo) && InInt32(b.hi) && x <= b.hi.x && INT32_MIN <= z <= INT32_MAX ==> ValidGrid(r)
    decreases x - b.lo.x
  {
    if x < b.lo.x then g
    else RowClose(LayerClose(g, b, x - 1, z, down), x, b, b.hi.y, z, down)
  }

  /** The grid after the first n closing layers from zEnd on. */
  function LayersClose(g: Grid, b: IBox, zEnd: int, n: int, down: bool): (r: Grid)
    requires g.background >= 0.0
    ensures r.background == g.background
    ensures (ValidGrid(g) && InInt32(b.lo) && InInt32(b.hi) && INT32_MIN <= zEnd <= INT32_MAX &&
             (n >= 1 ==> INT32_MIN <= Step(zEnd, down, n - 1) <= INT32_MAX)) ==> ValidGrid(r)
    decreases n
  {
    if n < 1 then g
    else LayerClose(LayersClose(g, b, zEnd, n - 1, down), b, b.hi.x, Step(zEnd, down, n - 1), down)
  }

  lemma {:induction false} RowCloseAverages(g: Grid, x: int, b: IBox, y: int, z: int, down: bool)
    requires g.background >= 0.0
    ensures LayerClosed(g, RowClose(g, x, b, y, z, down), IBox(Coord(x, b.lo.y, 0), Coord(x, y, 0)), z, down)
    decreases y - b.lo.y
  {
    if y < b.lo.y {
      LayerNothing(g, IBox(Coord(x, b.lo.y, 0), Coord(x, y, 0)), z, down);
    } else {
      RowCloseAverages(g, x, b, y - 1, z, down);
      CloseStep(g, RowClose(g, x, b, y - 1, z, down), RowClose(g, x, b, y, z, down), x, b.lo.y, y, z, down);
    }
  }

  lemma {:induction false} LayerCloseAverages(g: Grid, b: IBox, x: int, z: int, down: bool)
    requires g.background >= 0.0
    ensures LayerClosed(g, LayerClose(g, b, x, z, down), IBox(b.lo, Coord(x, b.hi.y, 0)), z, down)
    decreases x - b.lo.x
  {
    if x < b.lo.x {
      LayerNothing(g, IBox(b.lo, Coord(x, b.hi.y, 0)), z, down);
    } else {
      var h := LayerClose(g, b, x - 1, z, down);
      LayerCloseAverages(g, b, x - 1, z, down);
      RowCloseAverages(h, x, b, b.hi.y, z, down);
      LayerExtend(g, h, LayerClose(g, b, x, z, down), IBox(b.lo, Coord(x - 1, b.hi.y, 0)),
                  IBox(Coord(x, b.lo.y, 0), Coord(x, b.hi.y, 0)), IBox(b.lo, Coord(x, b.hi.y, 0)), z, down);
    }
  }

  /** Closing the next layer extends the closed layers by one; it reads layers not yet written. */
  lemma ClosedStep(g: Grid, h: Grid, k: Grid, b: IBox, zEnd: int, n: int, down: bool)
    requires n >= 0
    requires Closed(g, h, b, zEnd, n, down) && LayerClosed(h, k, b, Step(zEnd, down, n), down)
    ensures Closed(g, k, b, zEnd, n + 1, down)
  {
    forall c ensures if InClosing(c, b, zEnd, n + 1, down) then SdStored(k, c, NeighbourMean(g, c, down)) else Same(g, k, c) {
      if InColumns(c, b) && c.z == Step(zEnd, down, n) {
        assert !InClosing(c, b, zEnd, n, down) && !InClosing(Next(c, down), b, zEnd, n, down);
      }
    }
  }

  /** The closing pass closes its layers. */
  lemma {:induction false} LayersCloseAverages(g: Grid, b: IBox, zEnd: int, n: int, down: bool)
    requires g.background >= 0.0
    ensures Closed(g, LayersClose(g, b, zEnd, n, down), b, zEnd, n, down)
    decreases n
  {
    if n >= 1 {
      var h := LayersClose(g, b, zEnd, n - 1, down);
      var z := Step(zEnd, down, n - 1);
      LayersCloseAverages(g, b, zEnd, n - 1, down);
      LayerCloseAverages(h, b, b.hi.x, z, down);
      LayerSameColumns(h, LayersClose(g, b, zEnd, n, down), IBox(b.lo, Coord(b.hi.x, b.hi.y, 0)), b, z, down);
      ClosedStep(g, h, LayersClose(g, b, zEnd, n, down), b, zEnd, n - 1, down);
    }
  }

  /** The y loop of one closing layer, plane x. */
  method CloseRow(g: Grid, x: int, b: IBox, z: int, down: bool) returns (h: Grid)
    requires g.background >= 0.0
    ensures h == RowClose(g, x, b, b.hi.y, z, down)
  {
    h := g;
    for y := b.lo.y to IMax(b.lo.y, b.hi.y + 1)
      invariant h == RowClose(g, x, b, y - 1, z, down)
    {
      var c := Coord(x, y, z);
      h := SetSdValue(h, c, (Get(h, c) + Get(h, Next(c, down))) / 2.0);
    }
  }

  /** One closing layer: x, then y, over the columns of b. */
  method CloseLayer(g: Grid, b: IBox, z: int, down: bool) returns (h: Grid)
    requires g.background >= 0.0
    ensures h == LayerClose(g, b, b.hi.x, z, down)
  {
    h := g;
    for x := b.lo.x to IMax(b.lo.x, b.hi.x + 1)
      invariant h == LayerClose(g, b, x - 1, z, down)
    {
      h := CloseRow(h, x, b, z, down);
    }
  }

  /** The closing pass: `layers` layers from zEnd on, each averaged with its next neighbour. */
  method CloseLayers(g: Grid, b: IBox, zEnd: int, layers: int, down: bool) returns (h: Grid)
    requires g.background >= 0.0
    ensures h == LayersClose(g, b, zEnd, layers, down)
  {
    h := g;
    for n := 0 to IMax(0, layers)
      invariant h == LayersClose(g, b, zEnd, n, down)
    {
      h := CloseLayer(h, b, Step(zEnd, down, n), down);
    }
  }

  // -------------------------------------------------- the whole projection

  /** What the main pass leaves at c: the clamped running minimum in the sweep, the old value elsewhere. */
  ghost function SweptValue(g: Grid, b: IBox, z0: int, count: int, down: bool, c: Coord): real
  {
    if InSweep(c, b, z0, count, down) then Clamp(SweepMin(g, c.x, c.y, z0, down, Dist(z0, c.z, down)), g.background)
    else Get(g, c)
  }

  /** The number of closing layers: (int)(0.5 + background). */
  function ClosingLayers(background: real): int { Trunc(0.5 + background) }

  /**
   * h is g after the projection from layer zStart to layer zEnd over the
   * columns of b: the closing layers hold the neighbour mean of the swept
   * values, the other swept voxels hold the clamped running minimum, and no
   * other voxel changes.
   */
  ghost predicate Projected(g: Grid, h: Grid, b: IBox, zStart: int, zEnd: int, down: bool)
  {
    var count, layers := Dist(zStart, zEnd, down), ClosingLayers(g.background);
    h.background == g.background &&
    forall c ::
      if InClosing(c, b, zEnd, layers, down) then
        SdStored(h, c, (SweptValue(g, b, zStart, count, down, c) + SweptValue(g, b, zStart, count, down, Next(c, down))) / 2.0)
      else if InSweep(c, b, zStart, count, down) then
        SdStored(h, c, SweepMin(g, c.x, c.y, zStart, down, Dist(zStart, c.z, down)))
      else Same(g, h, c)
  }

  /** A main pass followed by a closing pass is the projection. */
  lemma ProjectedFromPasses(g: Grid, mid: Grid, h: Grid, b: IBox, zStart: int, zEnd: int, down: bool)
    requires Swept(g, mid, b, zStart, Dist(zStart, zEnd, down), down)
    requires Closed(mid, h, b, zEnd, ClosingLayers(g.background), down)
    ensures Projected(g, h, b, zStart, zEnd, down)
  {
    var count := Dist(zStart, zEnd, down);
    forall d ensures Get(mid, d) == SweptValue(g, b, zStart, count, down, d) {
      if InSweep(d, b, zStart, count, down) { } else { assert Same(g, mid, d); }
    }
  }

  /** The integer layers of a projection fit the int32 loop counters. */
  predicate LayersInInt32(zStart: int, zEnd: int, background: real)
  {
    INT32_MIN <= IMin(zStart, zEnd) - ClosingLayers(background) &&
    IMax(zStart, zEnd) + ClosingLayers(background) <= INT32_MAX
  }

  /** The main pass over the columns of b followed by the closing pass. */
  function Projection(g: Grid, b: IBox, zStart: int, zEnd: int, down: bool): (r: Grid)
    requires g.background >= 0.0
    ensures r.background == g.background
    ensures (ValidGrid(g) && InInt32(b.lo) && InInt32(b.hi) && LayersInInt32(zStart, zEnd, g.background)) ==> ValidGrid(r)
  {
    var mid := BoxPass(g, b, b.hi.x, zStart, down, Dist(zStart, zEnd, down));
    LayersClose(mid, b, zEnd, ClosingLayers(g.background), down)
  }

  /** The two passes together perform the projection. */
  lemma ProjectionProjects(g: Grid, b: IBox, zStart: int, zEnd: int, down: bool)
    requires g.background >= 0.0
    ensures Projected(g, Projection(g, b, zStart, zEnd, down), b, zStart, zEnd, down)
  {
    var count := Dist(zStart, zEnd, down);
    var mid := BoxPass(g, b, b.hi.x, zStart, down, count);
    BoxPassSweeps(g, b, b.hi.x, zStart, down, count);
    SweptSameColumns(g, mid, IBox(b.lo, Coord(b.hi.x, b.hi.y, 0)), b, zStart, count, down);
    LayersCloseAverages(mid, b, zEnd, ClosingLayers(g.background), down);
    ProjectedFromPasses(g, mid, Projection(g, b, zStart, zEnd, down), b, zStart, zEnd, down);
  }

  /**
   * ProjectZSliceDn (down) or ProjectZSliceUp (!down) on voxel layers, the
   * active box taken before the first write.
   */
  method ProjectLayers(g: Grid, zStart: int, zEnd: int, down: bool) returns (h: Grid)
    requires ValidGrid(g) && LayersInInt32(zStart, zEnd, g.background)
    ensures ValidGrid(h)
    ensures Projected(g, h, ActiveBox(g), zStart, zEnd, down)
  {
    var b := EvalActiveBBox(g);
    var mid := SweepBox(g, b, zStart, Dist(zStart, zEnd, down), down);
    h := CloseLayers(mid, b, zEnd, ClosingLayers(g.background), down);
    ActiveBoxInInt32(g);
    ProjectionProjects(g, b, zStart, zEnd, down);
  }
}

/**
 * The Voxels object: a level-set float grid that its methods update in
 * place. Each method runs the loops of the value-level model in Raster,
 * ZProjection, Scans and Measures over the grid it holds.
 */
module VoxelStore {
  import opened Types
  import opened VoxelGrid
  import opened Lattices
  import opened Raster
  import opened ZProjection
  import opened Scans
  import opened Measures

  class Voxels {
    var grid: Grid

    ghost predicate Valid()
      reads this
    {
      ValidGrid(grid)
    }

    /** Voxels(fBackground): an empty level set with the given background (default 3). */
    constructor (background: real)
      ensures grid == Grid(background, map[], {})
      ensures background >= 0.0 ==> Valid()
    {
      grid := Grid(background, map[], {});
    }

    /** Voxels(roGrid): wraps an existing grid. */
    constructor FromGrid(g: Grid)
      ensures grid == g
    {
      grid := g;
    }

    /** The copy constructor: a deep copy, so later changes to either object do not reach the other. */
    constructor Copy(source: Voxels)
      ensures grid == source.grid && this != source
    {
      grid := source.grid;
    }

    function Background(): real
      reads this
    {
      grid.background
    }

    /**
     * RenderImplicit: every voxel of the voxelised box widened by the
     * background takes SetSdValue(min(f(p) / voxel size, old value)); every
     * other voxel is unchanged.
     */
    method RenderImplicit(bounds: BBox3, sdf: Vec3 -> real, vs: VoxelSize)
      requires Valid() && IBoxInInt32(WidenedVoxelBox(bounds, vs, grid.background))
      modifies this
      ensures Valid()
      ensures RenderedBox(old(grid), grid, WidenedVoxelBox(bounds, vs, old(grid).background),
                          c => ImplicitVoxelValue(sdf, vs, c))
    {
      grid := RenderBox(grid, WidenedVoxelBox(bounds, vs, grid.background), c => ImplicitVoxelValue(sdf, vs, c));
    }

    /** RenderLattice: the spheres of the lattice, then its beams, each rendered over its own box. */
    method RenderLattice(lattice: Lattice, ctx: LatticeContext)
      requires Valid()
      requires BoxesInInt32(SpherePrimitives(lattice.spheres), ctx, grid.background)
      requires BoxesInInt32(BeamPrimitives(lattice.beams), ctx, grid.background)
      modifies this
      ensures Valid()
      ensures RenderedAll(old(grid), grid, LatticeOrder(lattice.spheres, lattice.beams), ctx)
    {
      grid := RenderLatticeGrid(grid, lattice.spheres, lattice.beams, ctx);
    }

    /**
     * ProjectZSlice: downwards when the start lies above the end, upwards
     * otherwise; both directions assert that the bounds differ. The bounds
     * are truncated to voxel layers.
     */
    method ProjectZSlice(zStart: real, zEnd: real, vs: VoxelSize)
      requires Valid() && zStart != zEnd
      requires LayersInInt32(IToVoxels(zStart, vs), IToVoxels(zEnd, vs), grid.background)
      modifies this
      ensures Valid()
      ensures Projected(old(grid), grid, ActiveBox(old(grid)), IToVoxels(zStart, vs), IToVoxels(zEnd, vs), zStart > zEnd)
    {
      grid := ProjectLayers(grid, IToVoxels(zStart, vs), IToVoxels(zEnd, vs), zStart > zEnd);
    }

    /** bIsEqual, with the z bound of the scan taken from both boxes' max corners. */
    method IsEqualTo(other: Voxels) returns (eq: bool)
      requires Valid() && other.Valid()
      ensures eq <==> AgreeOn(grid, other.grid, EqualityBox(ActiveBox(grid), ActiveBox(other.grid)))
      ensures (forall c :: AgreeAt(grid, other.grid, c)) ==> eq
    {
      eq := IsEqual(grid, other.grid);
    }

    /** CalculateProperties: the inside voxels' volume in mm³ and their mm bounding box. */
    method Properties(vs: VoxelSize) returns (volume: real, bbox: BBox3)
      requires Valid()
      ensures volume == Volume(|InsideIn(grid, ActiveBox(grid))|, vs)
      ensures forall c :: InIBox(c, ActiveBox(grid)) && Inside(grid, c) ==> Contains(bbox, VecToMM(c, vs))
      ensures (forall c :: InIBox(c, ActiveBox(grid)) ==> !Inside(grid, c)) ==> bbox == DefaultBBox()
    {
      volume, bbox := CalculateProperties(grid, vs);
    }

    /** bFindClosestPointOnSurface over the held grid. */
    method FindClosestPointOnSurface(search: Vec3, pointIn: Vec3, vs: VoxelSize, sqrt: real -> real, ceil: real -> real)
      returns (found: bool, point: Vec3)
      requires Valid()
      ensures !found ==> point == pointIn
      ensures ClosestResult(grid, Inside(grid, XyzToVoxels(search, vs)), XyzToVoxels(search, vs),
                            SearchBox(grid, XyzToVoxels(search, vs)),
                            MaxSearchRadius(SearchBox(grid, XyzToVoxels(search, vs)), sqrt, ceil), vs, found, point)
    {
      found, point := FindClosestPoint(grid, vs, search, pointIn, sqrt, ceil);
    }

    /** GetVoxelDimensions: the min corner and the extents of the active box. */
    method VoxelDimensions() returns (lo: Coord, size: Coord)
      requires Valid()
      ensures lo == ActiveBox(grid).lo && size == Extents32(ActiveBox(grid))
      ensures InInt32(Extents(ActiveBox(grid))) ==> forall c :: c in grid.active ==>
        lo.x <= c.x < lo.x + size.x && lo.y <= c.y < lo.y + size.y && lo.z <= c.z < lo.z + size.z
    {
      lo, size := GetVoxelDimensions(grid);
    }

    /** GetSlice: layer nZSlice of the active box, rows from the top down, into the caller's buffer. */
    method Slice(nZSlice: int, buffer: array<real>)
      requires Valid() && SliceLength(ActiveBox(grid)) <= buffer.Length
      modifies buffer
      ensures SliceHolds(grid, ActiveBox(grid), nZSlice + ActiveBox(grid).lo.z, buffer[..])
      ensures buffer[SliceLength(ActiveBox(grid))..] == old(buffer[SliceLength(ActiveBox(grid))..])
    {
      GetSlice(grid, nZSlice, buffer);
    }
  }
}

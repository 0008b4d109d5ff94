# PicoGK runtime core, modelled in Dafny

This project models the part of the PicoGK runtime that PicoGK writes itself, as opposed to the part it hands to OpenVDB. That is:

- the sparse narrow-band voxel store, with its signed-distance write rule;
- union rasterisation of implicit functions and lattices;
- the Z-slice projection;
- the expanding-ball closest-surface search;
- the inside/outside equality scan;
- the volume and bounding-box count;
- the slice read-out;
- the post-processing of extracted meshes;
- the analytic lattice and mesh containers;
- the value types: bounding boxes, voxel/millimetre conversion, `iSign`, `fClamp`, `Normalize` and the column-major 4x4 product;
- the DDS texture loader: header validation, mip-chain walk and in-place vertical flip;
- the binary STL parser of the API tests;
- the handle registry and the library's init/destroy state machine;
- the scalar and vector fields;
- the bounded C-string copies and unit conversions of the C API.

Modelling choices:

- Single-precision floats are modelled as reals. The float limits the code compares against are kept as exact constants.
- Integer coordinates are unbounded integers. The int32 range appears as a grid invariant and as preconditions on the voxels a method writes. The int32 wrap of `CoordBBox::extents` and of the squared-extent sum in `bFindClosestPointOnSurface` is written out (`Types.Wrap32`), and so is the counter overflow that the as-written `bIsEqual` bound causes.
- Functions the model cannot see are parameters:
  - `std::sqrt`, `ceil`;
  - the round-cone and flat-cone distance formulas;
  - the OpenVDB gradient stencil;
  - the implicit callback.

  Contracts that depend on one of them state the property they need, such as "`sqrt` returns a root of this value".
- The voxel store is a record: background, stored values and active set. An unwritten voxel reads as the background.
- Objects whose fields the source updates in place are classes:
  - `Voxels`, `Lattice` and `Mesh`;
  - `Field<T>`, the handle `Library` and `Matrix4x4`.
- Loops that rewrite the grid are methods. Each loop level is a method proved against a predicate or function that states its effect, and lemmas state what the source promises about that effect.

Where the code and the library's own description disagree, the model follows the code:

- `VoxelSize::iToVoxels` truncates toward zero instead of rounding. The `(int)` cast binds only to the constant `0.5f` (`Source/PicoGKTypes.h:386-389`).
- `BBox3::Include(BBox3)` takes the component-wise minimum for the max corner too (`Source/PicoGKTypes.h:345-352`). `AddSphere`/`AddBeam` accumulate the lattice box with it, so the lattice box is not the union of the primitive boxes.

These two are modelled as written, because the rest of the code depends on them as they are. `Types.IToVoxelsTruncates` and `Types.IncludeBoxIsNotUnion` state their consequences.

## Model

| member | source | states |
|---|---|---|
| Types.CoordEquals | Source/PicoGKTypes.h:95-100 | Coord equality holds exactly when the two coordinates are equal component-wise |
| Types.Cross | Source/PicoGKTypes.h:161-166 | definition: vecCross, (y·z' − z·y', z·x' − x·z', x·y' − y·x') |
| Types.Dot | Source/PicoGKTypes.h:208-216 | definition: fDot, the sum of the three component products that the loop over v[0..2] adds up |
| Types.Normalized | Source/PicoGKTypes.h:230-240 | a non-positive length leaves the vector unchanged; otherwise scaling the result by the length gives back the vector |
| Types.NormalizedLength | Source/PicoGKTypes.h:230-240 | a vector of positive length normalises to unit squared length; a zero vector is left alone |
| Types.DefaultBBox | Source/PicoGKTypes.h:319-329 | definition: the BBox3 constructor, with the min corner at FLT_MAX and the max corner at the lowest float on every axis |
| Types.IsEmpty | Source/PicoGKTypes.h:331-334 | definition: bIsEmpty, true exactly when min.x is FLT_MAX; no other component is inspected |
| Types.Include | Source/PicoGKTypes.h:336-343 | after including a point the box contains it, still contains every point it held, and is no longer empty |
| Types.DefaultBBoxEmpty | Source/PicoGKTypes.h:319-334 | the default box is empty and contains no finite point |
| Types.IncludeAllContains | Source/PicoGKTypes.h:336-343 | the box accumulated over a sequence of points contains every one of them, and everything the start box held |
| Types.IncludeBox | Source/PicoGKTypes.h:345-352 | on each of x, y and z, both the min and the max corner of the result take the smaller of the two boxes' values |
| Types.IncludeBoxesKeepLowestMax | Source/PicoGKTypes.h:345-352 | a box whose max corner starts at the lowest float keeps it there, whatever boxes are included |
| Types.IncludeBoxIsNotUnion | Source/PicoGKTypes.h:345-352 | including the unit box into the default box gives a box that does not contain the unit box's max corner |
| Types.Grow | Source/PicoGKTypes.h:354-358 | the grown box holds exactly the points within f of the original box on every axis |
| Types.Trunc | Source/PicoGKTypes.h:386-389 | float-to-int conversion truncates toward zero: the result lies within one of x, on the side of zero |
| Types.FToVoxels | Source/PicoGKTypes.h:391-394 | definition: fToVoxels, millimetres divided by the voxel size |
| Types.IToVoxels | Source/PicoGKTypes.h:386-389 | definition: iToVoxels, 0 + Trunc(mm / voxelSize), because the `(int)` cast binds to the constant `0.5f` alone |
| Types.FToMM | Source/PicoGKTypes.h:414-417 | definition: fToMM, the integer voxel times the voxel size |
| Types.XyzToVoxels | Source/PicoGKTypes.h:377-384 | definition: xyzToVoxels, iToVoxels on each axis |
| Types.VecToMM | Source/PicoGKTypes.h:396-403 | definition: vecToMM, fToMM on each axis |
| Types.VecToVoxels | Source/PicoGKTypes.h:405-412 | definition: vecToVoxels, fToVoxels on each axis, with no truncation |
| Types.ToMMRoundTrip | Source/PicoGKTypes.h:377-417 | converting an integer voxel coordinate to millimetres and back gives the same coordinate |
| Types.IToVoxelsTruncates | Source/PicoGKTypes.h:386-389 | 0.75 and -0.75 voxels convert to 0, and 1.99 and -1.99 to 1 and -1: truncated, not rounded |
| Types.IToVoxelsCell | Source/PicoGKTypes.h:386-389 | two positions in the same truncation cell convert to the same voxel index |
| Types.ISign | Source/PicoGKTypes.h:427-430 | the result is -1, 0 or 1 exactly when f is negative, zero or positive |
| Types.FClamp | Source/PicoGKTypes.h:432-437 | the result lies in [lo, hi] when lo <= hi, equals v when v is in range, and equals hi or lo when v is above or below |
| Types.ProductIdentityRight | Source/PicoGKTypes.h:287-314 | multiplying by the identity on the right leaves a matrix unchanged, under the source's column-major indexing |
| Types.ProductIdentityLeft | Source/PicoGKTypes.h:287-314 | multiplying by the identity on the left leaves a matrix unchanged |
| Types.Matrix4x4.constructor | Source/PicoGKTypes.h:287-294 | a default matrix is the identity |
| Types.Matrix4x4.MulAssign | Source/PicoGKTypes.h:296-314 | the new entries are the product of the old matrix and the other matrix's old entries, even when other is the matrix itself |
| Meshes.TriangleNormal | Source/PicoGKMesh.h:169-171 | definition: the normal bIsPointInTriangle writes, (v2 − v1) × (v3 − v1) divided by its length (the given `sqrt` of its squared length) |
| Meshes.SameSideTest | Source/PicoGKMesh.h:173-183 | definition: with v_i = vertex_i − point, n · (v0 × v1) and n · (v0 × v2) are both >= 0 or both <= 0 |
| Meshes.FirstVertexPasses | Source/PicoGKMesh.h:163-190 | a triangle's own first corner passes the point-in-triangle test |
| Meshes.TestIgnoresNormalisation | Source/PicoGKMesh.h:163-190 | the point-in-triangle test gives the same answer for the normal and for the normal divided by a positive length |
| Meshes.Mesh.constructor | Source/PicoGKMesh.h:53-55 | a new mesh has no vertices, no triangles and the default box |
| Meshes.Mesh.VertexCount | Source/PicoGKMesh.h:90-95 | the vertex count is the length of the vertex list, an int32 |
| Meshes.Mesh.TriangleCount | Source/PicoGKMesh.h:83-88 | the triangle count is the length of the triangle list, an int32 |
| Meshes.Mesh.AddVertex | Source/PicoGKMesh.h:67-72 | one vertex is appended and the old vertex count is returned; triangles are unchanged; the box is the old box with the vertex included, so it contains the vertex |
| Meshes.Mesh.AddTriangle | Source/PicoGKMesh.h:74-81 | with every index below the vertex count (the only check the source asserts), the triangle is appended and its index returned; vertices and box are unchanged |
| Meshes.Mesh.AddTriangleVertices | Source/PicoGKMesh.h:57-65 | three fresh vertices are appended, then the triangle (n, n+1, n+2) over them, where n is the old vertex count |
| Meshes.Mesh.GetVertex | Source/PicoGKMesh.h:97-102 | a non-negative index reads the stored vertex |
| Meshes.Mesh.GetTriangle | Source/PicoGKMesh.h:104-109 | a non-negative index reads the stored triangle, whose indices are all below the vertex count |
| Meshes.Mesh.GetTriangleVertices | Source/PicoGKMesh.h:111-122 | the three vertices stored at the triangle's indices |
| Meshes.Mesh.GetBoundingBox | Source/PicoGKMesh.h:124-127 | the mesh box contains every vertex |
| Meshes.Mesh.GetSurfaceNormal | Source/PicoGKMesh.h:129-144 | the scan throws at the first triangle with a negative index (`.at()`), never for a mesh whose indices are all non-negative; otherwise the result is found exactly when some triangle passes the test, with the normal of the first passing triangle in index order; with none, the last computed normal |
| Lattices.MakeSphere | Source/PicoGKLattice.h:52-60 | a sphere's box is center ± r on every axis |
| Lattices.SphereSdValue | Source/PicoGKLattice.h:62-65 | definition: LatticeSphere::fSdValue, the length of sample − centre (the given `sqrt` of its squared length) minus the radius |
| Lattices.SphereSdValueSign | Source/PicoGKLattice.h:62-65 | the sphere distance is <= 0 exactly when the squared distance is at most r², and 0 exactly on the sphere |
| Lattices.SphereSdValueAtZero | Source/PicoGKLattice.h:62-65 | at zero distance from the centre the value is -r |
| Lattices.SphereSdValueAtCenter | Source/PicoGKLattice.h:62-65 | at the centre the value is -r |
| Lattices.RootSign | Source/PicoGKLattice.h:62-65 | for a root d of l, d - r is non-positive exactly when l <= r², and zero exactly when l == r² |
| Lattices.MakeBeam | Source/PicoGKLattice.h:86-99 | the beam keeps its endpoints, radii and cap flag; its box contains both endpoints, grown by max(rA, rB) on every side |
| Lattices.BeamSdValue | Source/PicoGKLattice.h:102-108 | the beam distance is the round-cone distance exactly when the cap is round, and the flat-cone distance otherwise |
| Lattices.Lattice.constructor | Source/PicoGKLattice.h:183-237 | a new lattice has no spheres, no beams and the default box |
| Lattices.Lattice.AddSphere | Source/PicoGKLattice.h:188-194 | one sphere is appended and the beams are unchanged; the box is updated with the source's Include(BBox3) |
| Lattices.IsDegenerateBeam | Source/PicoGKLattice.h:202 | definition: the beam has round caps and its endpoints lie closer than float epsilon, the case AddBeam turns into a sphere |
| Lattices.Lattice.AddBeam | Source/PicoGKLattice.h:196-216 | a round-capped beam shorter than float epsilon becomes one sphere at S with radius max(rS, rE) and no beam; any other beam, a degenerate flat one included, is appended with the spheres unchanged |
| VoxelGrid.Get | Source/PicoGKVdbVoxels.h:117-118 | definition: accessor.getValue, the stored value, or the background for a voxel never written |
| VoxelGrid.SetValueOn | Source/PicoGKVdbVoxels.h:758-760 | definition: accessor.setValue, which stores the value and makes the voxel active |
| VoxelGrid.SetValueOff | Source/PicoGKVdbVoxels.h:762-763 | definition: accessor.setValueOff, which deactivates the voxel and keeps its value |
| VoxelGrid.Clamp | Source/PicoGKVdbVoxels.h:758-760 | definition: std::clamp of the value to [-background, background] |
| VoxelGrid.SetSdValue | Source/PicoGKVdbVoxels.h:753-764 | the voxel stores clamp(v, -bg, bg) and is active exactly when the unclamped \|v\| < bg, so ±bg ends inactive; no other voxel changes |
| VoxelGrid.ClampMinAbsorb | Source/PicoGKVdbVoxels.h:753-764 | taking the minimum with an already clamped value gives the same stored value and active flag as with the unclamped one |
| VoxelGrid.StoredMinAbsorb | Source/PicoGKVdbVoxels.h:280-287 | writing min(a, current) over a voxel that stores m leaves what writing min(a, m) would |
| VoxelGrid.Expand | Source/PicoGKVdbVoxels.h:87-88 | the expanded integer box contains the new voxel and everything the old box held |
| VoxelGrid.TightBoundsUnique | Source/PicoGKVdbVoxels.h:87-88 | a set of voxels has only one tight bounding box |
| VoxelGrid.TightBoundsExpand | Source/PicoGKVdbVoxels.h:87-88 | expanding a set's tight box by an int32 voxel gives the tight box of the set with that voxel |
| VoxelGrid.BoundsOf | Source/PicoGKVdbVoxels.h:87-88 | every finite set of int32 voxels has a tight box |
| VoxelGrid.ActiveBox | Source/PicoGKVdbVoxels.h:87-88 | the active box of a grid is the tight box of its active voxels |
| VoxelGrid.ScanStep | Source/PicoGKVdbVoxels.h:87-88 | visiting one more active voxel keeps the running box tight |
| VoxelGrid.ActiveBoxInInt32 | Source/PicoGKVdbVoxels.h:87-88 | the corners of the active box are int32 coordinates, for an empty grid too |
| VoxelGrid.EvalActiveBBox | Source/PicoGKVdbVoxels.h:87-88 | the result is the tight box of the active voxels and contains every one of them |
| Raster.RenderedExtend | Source/PicoGKVdbVoxels.h:277-289 | rendering a box and then a disjoint box renders their union |
| Raster.RenderColumn | Source/PicoGKVdbVoxels.h:279-288 | every voxel of the column gets SetSdValue(min(F, old)); every other voxel is unchanged |
| Raster.RenderPlane | Source/PicoGKVdbVoxels.h:278-288 | every voxel of the plane gets SetSdValue(min(F, old)); every other voxel is unchanged |
| Raster.RenderBox | Source/PicoGKVdbVoxels.h:277-289 | every voxel of the inclusive box gets SetSdValue(min(F, old)), every other voxel is unchanged, and the grid stays valid |
| Raster.WidenedVoxelBox | Source/PicoGKVdbVoxels.h:270-279 | the rendered box is the voxelised corners widened by iAdd = (int)(bg + 0.5) on every side |
| Raster.SpherePrimitives | Source/PicoGKVdbVoxels.h:252-256 | one primitive per sphere, in list order |
| Raster.BeamPrimitives | Source/PicoGKVdbVoxels.h:257-261 | one primitive per beam, in list order |
| Raster.CoverMinIsMinimum | Source/PicoGKVdbVoxels.h:641-671 | the running value is at most the old value and every covering primitive's value, and equal to one of them |
| Raster.CoverMinUncovered | Source/PicoGKVdbVoxels.h:641-671 | a voxel that no primitive's box covers keeps its value |
| Raster.CoverMinOrderFree | Source/PicoGKVdbVoxels.h:248-262 | any rearrangement of the same primitives covers the same voxels with the same minimum, so spheres-then-beams gives the same result as any order |
| Raster.RenderedAllStep | Source/PicoGKVdbVoxels.h:641-671 | rendering one more primitive extends the rendered state by that primitive |
| Raster.RenderPrimitive | Source/PicoGKVdbVoxels.h:641-671 | one DoRenderLattice call adds its primitive to the primitives already rendered |
| Raster.RenderPrimitives | Source/PicoGKVdbVoxels.h:248-262 | one DoRenderLattice per primitive, in order, adds them all |
| Raster.RenderLatticeGrid | Source/PicoGKVdbVoxels.h:248-262 | each covered voxel stores SetSdValue of min(old value, every covering sphere's and beam's scaled distance); uncovered voxels are unchanged |
| ZProjection.SweepMinIsMinimum | Source/PicoGKVdbVoxels.h:375-384 | the running minimum of a column is at most every value from the start layer to the current one, and equal to one of them |
| ZProjection.SweepMinFrame | Source/PicoGKVdbVoxels.h:375-384 | the running minimum depends only on the column's own values |
| ZProjection.SweptExtend | Source/PicoGKVdbVoxels.h:370-385 | sweeping two disjoint sets of columns one after the other sweeps their union |
| ZProjection.SweepStep | Source/PicoGKVdbVoxels.h:378-383 | writing min(current, previous) at the next layer extends the sweep by one step |
| ZProjection.ColumnPassSweeps | Source/PicoGKVdbVoxels.h:374-384 | the z loop over one column leaves each voxel n steps from the start holding the clamped minimum of the column's original values over the steps 0..n |
| ZProjection.PlanePassSweeps | Source/PicoGKVdbVoxels.h:372-385 | the y loop sweeps every column of the plane |
| ZProjection.BoxPassSweeps | Source/PicoGKVdbVoxels.h:370-385 | the x loop sweeps every column of the box |
| ZProjection.SweepColumn | Source/PicoGKVdbVoxels.h:374-384 | the z loop computes the column pass |
| ZProjection.SweepPlane | Source/PicoGKVdbVoxels.h:372-385 | the y loop computes the plane pass |
| ZProjection.SweepBox | Source/PicoGKVdbVoxels.h:370-385 | the x loop computes the box pass |
| ZProjection.InsidePropagates | Source/PicoGKVdbVoxels.h:370-385 | an inside voxel at the start layer makes every swept voxel of its column inside |
| ZProjection.CloseStep | Source/PicoGKVdbVoxels.h:387-398 | writing the neighbour mean at one more voxel extends the closing of a row |
| ZProjection.RowCloseAverages | Source/PicoGKVdbVoxels.h:387-398 | closing a row stores the mean of each voxel and its next neighbour |
| ZProjection.LayerCloseAverages | Source/PicoGKVdbVoxels.h:387-398 | closing a layer stores the mean of each voxel and its next neighbour |
| ZProjection.LayersCloseAverages | Source/PicoGKVdbVoxels.h:387-398 | the closing pass averages the K layers from the end layer on, the end layer included |
| ZProjection.CloseRow | Source/PicoGKVdbVoxels.h:387-398 | the innermost closing loop computes the row closing |
| ZProjection.CloseLayer | Source/PicoGKVdbVoxels.h:387-398 | the closing loops over one layer compute the layer closing |
| ZProjection.CloseLayers | Source/PicoGKVdbVoxels.h:387-398 | the closing loops compute the K-layer closing |
| ZProjection.ProjectedFromPasses | Source/PicoGKVdbVoxels.h:360-439 | a main pass followed by a closing pass of K = (int)(0.5 + bg) layers is the projection |
| ZProjection.Projection | Source/PicoGKVdbVoxels.h:360-439 | the projection keeps the background and a valid grid |
| ZProjection.ProjectionProjects | Source/PicoGKVdbVoxels.h:360-439 | the closing layers hold the mean of the swept values; the other swept voxels hold the clamped running minimum from the start layer; every other voxel, the start layer included, is unchanged |
| ZProjection.ProjectLayers | Source/PicoGKVdbVoxels.h:360-439 | ProjectZSliceDn or ProjectZSliceUp over the active box taken before the first write performs the projection |
| Scans.ColumnAgrees | Source/PicoGKVdbVoxels.h:111-123 | true exactly when every voxel of the column has the same inside status in both grids |
| Scans.PlaneAgrees | Source/PicoGKVdbVoxels.h:109-123 | true exactly when every voxel of the plane agrees |
| Scans.BoxAgrees | Source/PicoGKVdbVoxels.h:107-123 | true exactly when every voxel of the box agrees |
| Scans.IsEqualAsWritten | Source/PicoGKVdbVoxels.h:85-125 | when its int32 loops stop below INT32_MAX, true exactly when the grids agree on the box the code scans, whose z bound is max(this.min.z, other.max.z) |
| Scans.IsEqual | Source/PicoGKVdbVoxels.h:85-125 | the corrected scan: true exactly when the grids agree on the union box of both active boxes; implied by agreement everywhere and implying agreement on every active voxel |
| Scans.IsEqualSymmetric | Source/PicoGKVdbVoxels.h:85-125 | the corrected comparison gives the same answer in both argument orders |
| Scans.TallAndFlatBoxes | Source/PicoGKVdbVoxels.h:87-88 | the active boxes of the two example grids |
| Scans.EqualityAsWrittenAsymmetric | Source/PicoGKVdbVoxels.h:105-106 | the code as written finds the tall grid equal to the flat one but not the flat one equal to the tall one, though they differ at (0, 0, 5) |
| Scans.EqualityAsWrittenEmptySelf | Source/PicoGKVdbVoxels.h:105-113 | for an empty grid compared with a non-empty one, the z bound as written is INT32_MAX and the x and y loops are entered, so the int32 scan does not stop |
| Scans.ActiveBoxSpans | Source/PicoGKVdbVoxels.h:87-88 | a non-empty grid's active box has min <= max on every axis, and its max corner is below INT32_MAX when every active voxel is |
| Scans.EqualityAsWrittenRunsOff | Source/PicoGKVdbVoxels.h:105-113 | an empty grid against one whose only active voxel is the origin, outside: the scanned column runs from z = 0 to INT32_MAX, agrees at every z, and the scan does not stop; the corrected box is the origin alone |
| Scans.EqualityBoxStops | Source/PicoGKVdbVoxels.h:85-125 | with the corrected box the int32 loops always stop when no active voxel of either grid sits at INT32_MAX, two empty grids included |
| Scans.HitRow | Source/PicoGKVdbVoxels.h:735-748 | the first x in the row that is a hit, or none; and whether the scanned row touches the box |
| Scans.HitLayer | Source/PicoGKVdbVoxels.h:733-749 | the first hit of the layer in y-then-x order, or none; and whether the layer touches the box |
| Scans.SphereHitTest | Source/PicoGKVdbVoxels.h:707-751 | returns the first coordinate in z, y, x order that lies in the box and the ball and differs from the reference, or reports none; the out-of-bounds flag is set exactly when no scanned voxel is in the box |
| Scans.SearchNeverOutside | Source/PicoGKVdbVoxels.h:509-530 | the search voxel lies in every scanned cube and in the search box, so the early out-of-bounds return never fires |
| Scans.ClosestOnHit | Source/PicoGKVdbVoxels.h:534-542 | a first hit at radius r gives the point coord * voxelSize |
| Scans.ClosestOnMiss | Source/PicoGKVdbVoxels.h:544-547 | no hit below the maximum radius gives false |
| Scans.SquaredExtentsExact | Source/PicoGKVdbVoxels.h:516-519 | when the extents and the sum of their squares fit in int32, the int32 sum is the true sum, and it is non-negative |
| Scans.SquaredExtentsWrapFarSearch | Source/PicoGKVdbVoxels.h:509-519 | a voxel at the origin searched from 46340 voxels along x gives a search box 46341 wide, whose int32 squared-extent sum wraps to -2147479013 |
| Scans.FindClosestPoint | Source/PicoGKVdbVoxels.h:503-548 | on success the point is the first hit at the smallest radius with a differing in-box voxel, scaled by the voxel size; failure means no radius below the bound has one, and leaves the caller's point as it was; the bound is (int32)ceil(sqrt(s)) for the int32 sum s of the squared int32 extents, with the given `sqrt` and `ceil` |
| Scans.SliceIndexRoundTrip | Source/PicoGKVdbVoxels.h:597-612 | the buffer index of (x, y) lies in the slice and decodes back to (x, y) |
| Scans.SliceRow | Source/PicoGKVdbVoxels.h:605-611 | one row of values is written at n..n+width; nothing else changes |
| Scans.SliceOfBox | Source/PicoGKVdbVoxels.h:597-612 | the buffer holds the layer's values rows first, from the top row down; the rest of the buffer is unchanged |
| Scans.RowExtends | Source/PicoGKVdbVoxels.h:606-611 | writing the next row after the rows before it extends the slice by one row and leaves the rest of the buffer as it was |
| Scans.SliceComplete | Source/PicoGKVdbVoxels.h:597-612 | once every row is written the buffer holds the whole slice, and nothing past it changed |
| Scans.GetSlice | Source/PicoGKVdbVoxels.h:597-612 | the buffer holds the layer nZSlice + min.z of the active box; the rest of the buffer is unchanged |
| Scans.GetVoxelDimensions | Source/PicoGKVdbVoxels.h:580-595 | the origin and the int32 extents of the active box; when the extents fit in int32, every active voxel lies within origin .. origin + size - 1 |
| Scans.EmptyDimensions | Source/PicoGKVdbVoxels.h:587-594 | an empty grid reports the origin INT32_MAX on every axis and extents 2, 2, 2: the reset box's INT32_MIN - INT32_MAX + 1 wraps |
| Scans.SpannedDimensions | Source/PicoGKVdbVoxels.h:587-594 | a non-empty grid whose extents fit in int32 reports its true extents, all positive |
| VoxelGrid.Extents32 | Source/PicoGKVdbVoxels.h:592-594 | the int32 extents are int32 values, and equal max - min + 1 when that fits |
| Types.Wrap32 | Source/PicoGKVdbVoxels.h:592-594 | the int32 result is congruent to the exact one modulo 2^32, and equal to it when it fits |
| Measures.BoxVoxelsMembers | Source/PicoGKVdbVoxels.h:455-470 | the voxels of a box are exactly the voxels inside it |
| Measures.InsideInMembers | Source/PicoGKVdbVoxels.h:455-470 | the inside voxels of a box are the voxels of the box with value <= 0 |
| Measures.InsideSplit | Source/PicoGKVdbVoxels.h:455-470 | the inside voxels of two disjoint boxes add up to those of their union |
| Measures.AccountsExtend | Source/PicoGKVdbVoxels.h:458-470 | counting two disjoint boxes one after the other counts their union |
| Measures.AccountsNothing | Source/PicoGKVdbVoxels.h:458-470 | an empty box counts nothing |
| Measures.VisitAccounts | Source/PicoGKVdbVoxels.h:462-469 | one voxel adds one to the count and its position to the box exactly when it is inside |
| Measures.ColumnAccounts | Source/PicoGKVdbVoxels.h:460-470 | the column pass counts the inside voxels of the column and includes their positions |
| Measures.PlaneAccounts | Source/PicoGKVdbVoxels.h:459-470 | the plane pass counts the inside voxels of the plane |
| Measures.BoxAccounts | Source/PicoGKVdbVoxels.h:458-470 | the box pass counts the inside voxels of the box |
| Measures.ScanColumn | Source/PicoGKVdbVoxels.h:460-470 | the z loop computes the column pass |
| Measures.ScanPlane | Source/PicoGKVdbVoxels.h:459-470 | the y loop computes the plane pass |
| Measures.ScanBox | Source/PicoGKVdbVoxels.h:458-470 | the x loop counts every inside voxel of the box and keeps the box of their positions |
| Measures.CubicVolume | Source/PicoGKVdbVoxels.h:472-481 | the volume is count * voxelSize³ |
| Measures.CalculateProperties | Source/PicoGKVdbVoxels.h:451-482 | the volume is the number of inside voxels of the active box times voxelSize³; the bbox contains every inside voxel's position in mm, and is the default box when there is none |
| VoxelMesh.ReversedTwice | Source/PicoGKVdbVoxels.h:348-355 | reversing a triangle's winding twice restores it |
| VoxelMesh.WithQuads | Source/PicoGKVdbVoxels.h:334-343 | after the T extractor triangles come two triangles per quad, (a,b,c) then (c,d,a), so there are T + 2Q triangles |
| VoxelMesh.QuadTrianglesIndices | Source/PicoGKVdbVoxels.h:334-343 | a quad's two triangles use only its own indices and share the diagonal a-c |
| VoxelMesh.SplitQuads | Source/PicoGKVdbVoxels.h:334-343 | the loop computes the triangle list with the quads split |
| VoxelMesh.AsMesh | Source/PicoGKVdbVoxels.h:318-358 | the mesh has the P points, each scaled by the voxel size, and T + 2Q triangles, each with reversed winding (t2, t1, t0) |
| VoxelMesh.ToVoxelCoordinates | Source/PicoGKVdbVoxels.h:216-246 | every triangle before the first with a negative index, where `.at()` throws, becomes three fresh vertices in voxel units and one triangle (3n, 3n+1, 3n+2); a mesh with non-negative indices converts completely |
| VoxelStore.Voxels.constructor | Source/PicoGKVdbVoxels.h:62-66 | an empty grid with the given background, a valid grid when the background is not negative |
| VoxelStore.Voxels.FromGrid | Source/PicoGKVdbVoxels.h:68-73 | wraps the given grid |
| VoxelStore.Voxels.Copy | Source/PicoGKVdbVoxels.h:75-79 | a distinct object holding the same grid |
| VoxelStore.Voxels.RenderImplicit | Source/PicoGKVdbVoxels.h:264-289 | every voxel of the widened box gets SetSdValue(min(f(p)/voxelSize, old)); voxels outside it are untouched |
| VoxelStore.Voxels.RenderLattice | Source/PicoGKVdbVoxels.h:248-262 | every sphere then every beam is rendered into the grid |
| VoxelStore.Voxels.ProjectZSlice | Source/PicoGKVdbVoxels.h:441-449 | projects downwards exactly when start > end, over the active box taken before the call |
| VoxelStore.Voxels.IsEqualTo | Source/PicoGKVdbVoxels.h:85-125 | the corrected comparison of two Voxels objects |
| VoxelStore.Voxels.Properties | Source/PicoGKVdbVoxels.h:451-482 | the volume counts the inside voxels of the active box; the box contains each one's position in mm, and is the default box when there is none |
| VoxelStore.Voxels.FindClosestPointOnSurface | Source/PicoGKVdbVoxels.h:503-548 | the closest-surface search on the object's grid, with the int32 radius bound of Scans.FindClosestPoint; a miss leaves the caller's point as it was |
| VoxelStore.Voxels.VoxelDimensions | Source/PicoGKVdbVoxels.h:580-595 | the origin and int32 extents of the active box, which holds every active voxel when the extents fit |
| VoxelStore.Voxels.Slice | Source/PicoGKVdbVoxels.h:597-612 | the slice read-out of the object's grid |
| Dds.BlocksIsProduct | Source/PicoGKGLTexture.cpp:102-123 | n blocks of size bytes take n * size bytes |
| Dds.CellInjective | Source/PicoGKGLTexture.cpp:102-123 | two (row, column) pairs with the same byte offset are the same pair |
| Dds.CellOf | Source/PicoGKGLTexture.cpp:102-123 | every byte of the image lies in exactly one row and column |
| Dds.SwapStep | Source/PicoGKGLTexture.cpp:112-120 | swapping the next byte pair extends the flipped part by one byte |
| Dds.RowDone | Source/PicoGKGLTexture.cpp:108-122 | finishing a row pair moves the flip on to the next row |
| Dds.FlipDone | Source/PicoGKGLTexture.cpp:102-123 | after h/2 row pairs every row r holds the old row h-1-r |
| Dds.FlipUpsideDown | Source/PicoGKGLTexture.cpp:102-123 | the array's rows are mirrored in place |
| Dds.FlipTwiceRestores | Source/PicoGKGLTexture.cpp:102-123 | flipping twice restores the image |
| Dds.FlipKeepsMiddleRow | Source/PicoGKGLTexture.cpp:102-123 | the middle row of an odd height is unchanged |
| Dds.MirroredPrefix | Source/PicoGKGLTexture.cpp:102-123 | the flip concerns only the image's bytes, not what follows them |
| Dds.FormatOf | Source/PicoGKGLTexture.cpp:163-202 | only bit counts 32, 64, 48, 24 and 8 are accepted; components × bytes × 8 equals the bit count; 16-bit channels are half floats |
| Dds.ValidateAsWritten | Source/PicoGKGLTexture.cpp:134-202 | rejects a buffer under 128 bytes or without the "DDS " magic; accepts exactly when the cube bit matches the target, the volume bit is clear, a DX10 header fits, the bit count is known and the mip count is positive; the data starts at 128, or 148 with DX10 |
| Dds.SlotOfBlocks | Source/PicoGKGLTexture.cpp:208-254 | upload number face * levels + level is (face, level) |
| Dds.UploadedAppend | Source/PicoGKGLTexture.cpp:233-247 | one more upload with its flipped image extends the uploads issued |
| Dds.UploadCount | Source/PicoGKGLTexture.cpp:208-254 | a completed walk issues faces × levels uploads |
| Dds.LevelsConsecutive | Source/PicoGKGLTexture.cpp:208-254 | each level's data follows the previous one, and each face follows the previous face |
| Dds.Halve | Source/PicoGKGLTexture.cpp:243-252 | definition: `n >>= 1; if (!n) n = 1;`, half rounded down with a floor of 1 |
| Dds.LevelSize | Source/PicoGKGLTexture.cpp:219 | definition: nMipSize, width × height × components × bytes per component of level k, taken modulo 2^32 as the uint32 product |
| Dds.LevelExtentBounds | Source/PicoGKGLTexture.cpp:249-252 | halving with a floor of 1 keeps every level's side between 1 and the original |
| Dds.LevelFitsStaging | Source/PicoGKGLTexture.cpp:204-232 | with positive sides and a level-0 size below 2^32, every level fits the staging buffer |
| Dds.StagingHoldsExact | Source/PicoGKGLTexture.cpp:204-232 | a level that fits the staging buffer has its real, unwrapped size, made of its rows of RowStride bytes |
| Dds.AcceptedLayoutFits | Source/PicoGKGLTexture.cpp:134-202 | every layout the header checks accept has the texel format, sides and data start the walk needs |
| Dds.CopyLevel | Source/PicoGKGLTexture.cpp:225-229 | the staging buffer starts with the level's bytes; the rest is unchanged |
| Dds.StageLevel | Source/PicoGKGLTexture.cpp:225-245 | the uploaded image is the level's bytes with their rows mirrored |
| Dds.UploadFace | Source/PicoGKGLTexture.cpp:213-253 | the levels of one face are uploaded in order; a level past the end of the file stops the walk with ShortData, one larger than the staging buffer with StagingOverrun; earlier uploads are kept |
| Dds.UploadedIssued | Source/PicoGKGLTexture.cpp:208-254 | every recorded upload is the planned one for its slot, within the buffer |
| Dds.UploadMips | Source/PicoGKGLTexture.cpp:208-254 | the walk issues the planned uploads in order and stops exactly at the first level that overruns the file or the staging buffer, saying which |
| Dds.LoadDdsTexture | Source/PicoGKGLTexture.cpp:130-257 | corrected: the loader with the staging bound enforced; it succeeds exactly when the header checks as written accept and the whole mip chain is walked; a rejected header issues no upload |
| Dds.WalkStaysInStaging | Source/PicoGKGLTexture.cpp:204-254 | every upload of a walk reads a level of its real size that fits the staging buffer |
| Dds.SaneWalkNeverOverruns | Source/PicoGKGLTexture.cpp:204-254 | with positive sides and a level-0 size below 2^32 only a short file stops the walk, never the staging bound |
| Dds.ZeroSizedAccepted | Source/PicoGKGLTexture.cpp:134-202 | the checks as written accept a 0 × 0 texture of 32-bit texels with any positive mip count |
| Dds.ZeroSizedLevels | Source/PicoGKGLTexture.cpp:204-232 | for the zero-sized texture the staging buffer is empty; level 0 has no byte and fits it, level 1 has four and does not |
| Dds.ZeroSizedSingleLevelLoads | Source/PicoGKGLTexture.cpp:204-257 | with one mip level the 128-byte zero-sized file loads completely, with one upload of no bytes, as in the source |
| Dds.ZeroSizedWalk | Source/PicoGKGLTexture.cpp:204-232 | with two mip levels every walk over a 132-byte file uploads level 0 and is stopped by level 1, which lies within the file, at the staging bound |
| Dds.StagingOverrunAsWritten | Source/PicoGKGLTexture.cpp:204-232 | the accepted zero-sized two-level texture has an empty staging buffer while level 1, within the file, has four bytes, so the source copies them past the buffer; every walk here stops there |
| Dds.MipSizeWrapsAsWritten | Source/PicoGKGLTexture.cpp:204-206 | a 65536 × 65536 texture of 8-bit texels wraps its level-0 size to 0: the staging buffer is empty while level 0 really has 2^32 bytes and level 1 2^30, and neither fits |
| Bytes.U32At | Source/PicoGKGLTexture.cpp:145 | the little-endian uint32 at an offset, as the header fields are read through the SDDSHeader cast: a value below 2^32 whose low byte is the first byte and whose high byte is the fourth |
| Bytes.I32At | APITests/PicoGKStlLoader.h:88 | the little-endian int32 at an offset, as `*(int*)` reads the facet count: an int32 that is negative exactly when the top bit of the fourth byte is set |
| Stl.U32 | APITests/PicoGKStlLoader.h:101-108 | uint32 wrap-around, the identity below 2^32 |
| Stl.ParsedVerticesAt | APITests/PicoGKStlLoader.h:95-113 | vertex 3k + j of the appended ones is corner j of facet k, read at 84 + 50k + 12 + 12j |
| Stl.ParsedTrianglesAt | APITests/PicoGKStlLoader.h:101-108 | triangle k is the one that starts at vertex index base + 3k |
| Stl.FacetTriangleExact | APITests/PicoGKStlLoader.h:101-108 | below 2^32 the triangle is (n, n+1, n+2) |
| Stl.TrianglesPointAtCorners | APITests/PicoGKStlLoader.h:95-113 | triangle k indexes the three corners of facet k in the caller's vertex list |
| Stl.TrailingBytesIgnored | APITests/PicoGKStlLoader.h:88-91 | bytes after the last facet change neither the checks nor the vertices |
| Stl.AppendFacet | APITests/PicoGKStlLoader.h:97-111 | one pass pushes the bytes at offsets 12, 24 and 36 of the facet (the normal and attribute are skipped), then the triangle whose first index is the old vertex count as uint32 |
| Stl.ParsedStep | APITests/PicoGKStlLoader.h:95-113 | one facet extends the lists of the first n facets to those of n + 1 facets |
| Stl.AppendFacets | APITests/PicoGKStlLoader.h:95-113 | the loop appends 3 × count vertices and count triangles |
| Stl.Accepts | APITests/PicoGKStlLoader.h:78-91 | definition: at least 80 + 4 + 50 bytes, a positive int32 count at offset 80, and room for that many 50-byte facets after byte 84 |
| Stl.ReadStl | APITests/PicoGKStlLoader.h:71-113 | accepts exactly when the buffer has at least 134 bytes, a positive int32 count at offset 80 and room for that many facets; a rejection leaves both lists unchanged; success appends the parsed vertices and triangles |
| Registry.NoHandles | Source/PicoGKLibraryMgr.h:129-154 | every one of the eight handle lists is empty |
| Registry.Library.constructor | Source/PicoGKLibraryMgr.h:116-127 | before InitLibrary there is no voxel size and no handle |
| Registry.Library.Find | Source/PicoGKLibraryMgr.h:71-76 | definition: bFind, the handle is a key of the list of its kind |
| Registry.Library.IsValid | Source/PicoGKLibraryMgr.h:79-85 | false for null; otherwise true exactly when the handle is in its kind's list |
| Registry.Library.VoxelSizeMM | Source/PicoGKLibraryMgr.h:156-165 | the size that was set, or 1.0 when the library is not initialised |
| Registry.Library.InitLibrary | Source/PicoGKLibraryMgr.h:116-127 | succeeds exactly while the voxel size is 0 and sets it; a second call changes nothing; handle lists are unchanged |
| Registry.Library.DestroyLibrary | Source/PicoGKLibraryMgr.h:129-154 | succeeds exactly while a voxel size is set, then resets it to 0 and empties all eight handle lists |
| Registry.Library.Create | Source/PicoGKLibraryMgr.h:53-70 | a new non-null handle, not yet registered, is added to its own list only, and is valid afterwards |
| Registry.Library.Destroy | Source/PicoGKLibraryMgr.h:87-101 | the handle is removed from its list and is invalid afterwards; found says whether it was registered |
| Registry.Library.VdbFileCreateFromFile | Source/PicoGKLibraryMgr.h:258-269 | a failed load registers nothing and gives null; otherwise one new VdbFile handle |
| Registry.Library.VdbFileGetVoxels | Source/PicoGKLibraryMgr.h:280-299 | null and nothing registered unless the grid is a float level set |
| Registry.Library.VdbFileGetScalarField | Source/PicoGKLibraryMgr.h:315-333 | null and nothing registered unless the grid is a float grid |
| Registry.Library.VdbFileGetVectorField | Source/PicoGKLibraryMgr.h:342-357 | null and nothing registered unless the grid is a Vec3s grid |
| Registry.CreateKeepsOthers | Source/PicoGKLibraryMgr.h:53-70 | registering a handle leaves every other handle's validity, of every kind, as it was |
| Registry.DestroyKeepsOthers | Source/PicoGKLibraryMgr.h:87-101 | erasing a handle leaves every other handle's validity as it was |
| Registry.CreateThenDestroy | Source/PicoGKLibraryMgr.h:53-101 | destroying a handle just created restores the lists |
| Fields.ValueAt | Source/PicoGKVdbField.h:127 | definition: accessor.getValue of a field grid, the stored value or the background |
| Fields.SetAt | Source/PicoGKVdbField.h:105-111 | the voxel takes the value and becomes active; every other voxel keeps its value and active flag |
| Fields.Written | Source/PicoGKVdbField.h:101-111 | definition: SetValue, setValue at the voxel the position truncates to per axis |
| Fields.Read | Source/PicoGKVdbField.h:118-128 | a value is read exactly when the quantised voxel is active, and it is the stored value |
| Fields.ReadAfterWrite | Source/PicoGKVdbField.h:101-129 | a write followed by a read at a position that quantises to the same voxel returns the value written |
| Fields.WriteChangesOneVoxel | Source/PicoGKVdbField.h:105-111 | a write leaves the reads at every other voxel unchanged |
| Fields.CellAliases | Source/PicoGKVdbField.h:107-109 | positions in the same truncation cell on every axis address the same voxel, so a write at one reads back at the other |
| Fields.Field.constructor | Source/PicoGKVdbField.h:52-55 | a new field has no stored value and no active voxel, and the background it is given; the source's create() gives the value type's zero |
| Fields.Field.Copy | Source/PicoGKVdbField.h:62-65 | a distinct field with the same contents |
| Fields.Field.SetValue | Source/PicoGKVdbField.h:101-112 | the field becomes the old field with the value written at the quantised voxel; this models VectorField::SetValue (170-182) too |
| Fields.Field.GetValue | Source/PicoGKVdbField.h:114-129 | found exactly when the quantised voxel is active, returning its value; an inactive voxel gives false with the caller's value untouched; this models VectorField::bGetValue (184-203) too |
| Fields.Painted | Source/PicoGKVdbField.h:155-166 | the painted field keeps the background, and its active voxels are the old ones plus the painted ones |
| Fields.PaintedValues | Source/PicoGKVdbField.h:155-166 | painted voxels hold the gradient; the others keep their values |
| Fields.PaintOne | Source/PicoGKVdbField.h:163-165 | writing the gradient at one more voxel paints that voxel as well |
| Fields.PaintNothing | Source/PicoGKVdbField.h:147-151 | painting no voxel leaves the field unchanged |
| Fields.WrittenStep | Source/PicoGKVdbField.h:157-166 | one z step adds the voxel to the written set exactly when it is active in the source |
| Fields.ColumnDone | Source/PicoGKVdbField.h:156-157 | the end of a column is the start of the next one |
| Fields.PlaneDone | Source/PicoGKVdbField.h:155-156 | the end of a plane is the start of the next one |
| Fields.BoxDone | Source/PicoGKVdbField.h:151-166 | when the box holds every active voxel, the triple loop writes exactly the active voxels |
| Fields.NothingWritten | Source/PicoGKVdbField.h:155 | nothing is written before the loop starts |
| Fields.PaintVoxel | Source/PicoGKVdbField.h:159-166 | one loop body paints the voxel exactly when it is active in the source |
| Fields.PaintColumn | Source/PicoGKVdbField.h:157-167 | the z loop paints the column's active voxels |
| Fields.PaintPlane | Source/PicoGKVdbField.h:156-167 | the y loop paints the plane's active voxels |
| Fields.PaintBox | Source/PicoGKVdbField.h:155-167 | the x loop paints the box's active voxels |
| Fields.AddGradientFieldFrom | Source/PicoGKVdbField.h:147-168 | the field becomes the old field with the gradient written at exactly the active voxels of the source |
| Fields.GradientOnlyAtActive | Source/PicoGKVdbField.h:155-166 | a voxel that is not active in the source keeps its value and its active flag |
| CApi.CStr | Source/PicoGKLibrary.cpp:44-52 | the C string of a buffer is its NUL-free prefix up to the first NUL |
| CApi.CStrOfNulFree | Source/PicoGKLibrary.cpp:44-52 | a NUL-free string is its own C string |
| CApi.CStrStopsAtNul | Source/PicoGKLibrary.cpp:44-52 | the C string stops at the first NUL |
| CApi.Nuls | Source/PicoGKLibrary.cpp:49 | n NUL characters |
| CApi.Strncpied | Source/PicoGKLibrary.cpp:49 | strncpy's n bytes: the first min(len, n) characters of the C string, then NUL padding |
| CApi.ReadBack | Source/PicoGKLibrary.cpp:49 | terminated, the copy reads back as the first min(len, n) characters |
| CApi.Strncpy | Source/PicoGKLibrary.cpp:49 | the first n bytes become the strncpy result; the rest of the buffer is unchanged |
| CApi.InfoString | Source/PicoGKLibrary.cpp:44-52 | 255 characters, the last one NUL |
| CApi.SafeCopyInfoString | Source/PicoGKLibrary.cpp:44-52 | the buffer holds the first min(len, 254) characters, NUL padding, and a NUL at index 254 |
| CApi.InfoStringReadsBack | Source/PicoGKLibrary.cpp:44-52 | the buffer reads back as the string cut to 254 characters, and everything after that is NUL |
| CApi.NameAt | Source/PicoGKVdbMeta.h:67-81 | the name at the index, or the empty string when the index is out of range |
| CApi.StringAt | Source/PicoGKVdbMeta.h:98-110 | a value exactly when the key exists with a string value |
| CApi.Int32Of | Source/PicoGKLibrary.cpp:1187-1198 | the int32 conversion, the identity up to INT32_MAX |
| CApi.GetNameAt | Source/PicoGKLibrary.cpp:1155-1176 | false with the buffer untouched exactly when the index is at least the count; otherwise at most nMaxStringLen - 1 characters of the name and a terminating NUL |
| CApi.CopyTerminated | Source/PicoGKLibrary.cpp:1170-1174 | the strncpy of nMaxStringLen - 1 bytes followed by a NUL |
| CApi.NegativeIndexGivesEmptyName | Source/PicoGKLibrary.cpp:1163-1175 | a negative index passes the count check and yields the empty name |
| CApi.StringLengthAt | Source/PicoGKLibrary.cpp:1187-1198 | 0 when the key is missing or not a string; otherwise the string's length cast to int32 |
| CApi.GetStringAt | Source/PicoGKLibrary.cpp:1200-1220 | false with the buffer untouched exactly when the key is missing or not a string; otherwise the truncated, terminated copy |
| CApi.SizedBufferGetsWholeString | Source/PicoGKLibrary.cpp:1187-1220 | a buffer of length + 1 characters receives the whole string |
| CApi.ShortBufferTruncates | Source/PicoGKLibrary.cpp:1200-1220 | a shorter buffer receives the first nMaxStringLen - 1 characters |
| CApi.VoxelsToMmDropsFraction | Source/PicoGKLibrary.cpp:79-86 | the voxel coordinate is truncated before scaling: (0.9, -0.9, 1.5) gives (0, 0, voxelSize) |
| CApi.VoxelsMmRoundTrip | Source/PicoGKLibrary.cpp:79-95 | integral voxel coordinates survive voxels to mm to voxels |
| CApi.MmToVoxelsIntegral | Source/PicoGKLibrary.cpp:88-95 | millimetres convert to integral voxel coordinates, each truncated |
| CApi.LibraryVoxelsToMm | Source/PicoGKLibrary.cpp:79-86 | fToMM of the truncated voxel coordinate at the library's voxel size |
| CApi.LibraryMmToVoxels | Source/PicoGKLibrary.cpp:88-95 | iToVoxels per axis at the library's voxel size |
| CApi.VoxelsGetSlice | Source/PicoGKLibrary.cpp:505-515 | the background value is written out, and the buffer receives the slice |

## Left out

- OpenVDB's own algorithms are not modelled: CSG union, difference and intersection; the level-set filters; mesh-to-level-set and volume-to-mesh conversion; ray casting; the gradient stencil; the box sampler behind `GetInterpolatedSlice` and `IntersectImplicit`. Their code is not part of this model. `RenderMesh` is modelled only as far as its vertex conversion.
- Float numerics are not modelled. That covers IEEE rounding and NaN, the exact round-cone and flat-cone formulas, `sqrtf` and `ceil`. The distances and roots are parameters.
- The width of int32 counters is not modelled, for example `CalculateProperties`' voxel count and the mesh indices beyond an int32. The methods that write voxels require them to be int32 coordinates.
- A loop `for (i = lo; i <= hi; i++)` over an int32 counter overflows when hi is INT32_MAX. The loops of `bIsEqual`, `DoRenderBox`, `CalculateProperties`, `AddGradientFieldFrom` and `GetSlice` have this form. The model's counters are unbounded, so this bound is not required, except by Scans.IsEqualAsWritten, whose as-written z bound reaches INT32_MAX for an empty grid.
- Scans.IsEqualAsWritten: requires its int32 loops to stop (`VoxelGrid.ScanStops`). Where they do not, the source either returns false at a difference found before the z counter passes INT32_MAX, or overflows it; neither outcome is modelled.
- Scans.FindClosestPoint: the squared box extents are summed in int32 with the two's-complement wrap (`Scans.SquaredExtents32`). Once one axis of the search box exceeds 46340 voxels, that sum can be negative, as `Scans.SquaredExtentsWrapFarSearch` shows; it is then handed to the given `sqrt`. What `sqrtf` gives for a negative argument (NaN) and the undefined `(int32_t)` cast of that result are not modelled: the bound is whatever `Trunc` of the given `ceil` and `sqrt` yields. On common compilers that is INT32_MIN, so the source searches no shell, while the model searches as many shells as the bound it computes. The same holds for VoxelStore.Voxels.FindClosestPointOnSurface, which runs this search.
- CApi.GetNameAt, CApi.GetStringAt and CApi.CopyTerminated: require `nMaxStringLen >= 1`. For a smaller length the source passes `nMaxStringLen - 1`, converted to a huge `size_t`, to `strncpy` and writes `psz[-1]`, both undefined behaviour, so no outcome is modelled.
- Scans.GetVoxelDimensions: signed int32 overflow in `extents()` is undefined behaviour in C++. The model takes the two's-complement wrap, which gives 2 on every axis for the reset box.
- The `std::out_of_range` that `std::vector::at` throws for a negative index is a `thrown` result of Meshes.Mesh.GetSurfaceNormal and VoxelMesh.ToVoxelCoordinates. How the exception unwinds through the caller is not modelled.
- Dds.LoadDdsTexture: stops a level larger than the staging buffer with StagingOverrun, where the source copies past the buffer's end. Every file whose levels fit the staging buffer loads as in the source.
- The Windows `strncpy_s` branch of `SafeCopyInfoString` is left out; the POSIX `strncpy` branch is the one modelled.
- Field grid classes (`setGridClass(GRID_FOG_VOLUME)`) are not modelled. Neither is the sharing of the grid pointer when a scalar field is made from a Voxels object.
- VoxelStore.Voxels.FromGrid: holds a copy of the grid value. In the source, `Voxels(FloatGrid::Ptr)` keeps the caller's pointer and ignores its background argument. So the Voxels, ScalarField and VectorField objects that `proVdbFileGetVoxels`, `proVdbFileGetScalarField` and `proVdbFileGetVectorField` build share the file's grid, and later writes through them reach the VdbFile. The model does not capture that sharing.
- Fields.Field.constructor: takes the background as a parameter, because the value type is generic. `FloatGrid::create()` and `Vec3SGrid::create()` always give a zero background, so callers that model them pass 0.0 or the zero vector.
- The file and GPU calls are abstract:
  - `glTexImage2D` is an upload record of face, level, size and offset, plus the flipped image.
  - The `ifstream` read of the texture and STL loaders is the byte buffer they receive.
- `Source/PicoGKGLViewer.cpp` and `Source/PicoGKGLViewer.h` are not part of this model. They are UI and I/O.
- The library mutex is not modelled; the registry is sequential.
- The internals of `Source/PicoGKVdbFile.h` and `Source/PicoGKVdbMeta.h` are not part of this model:
  - A VdbFile load result is a flag.
  - A grid read from a file is described by its value type and its class.
  - Metadata is a list of names plus a map from name to value. Its enumeration order comes with the map.
- The registry keeps only handles; the objects behind them are not modelled. Handles are fresh identifiers from a counter, not heap addresses.
- The strings behind `Library_GetName`, `Library_GetVersion` and `Library_GetBuildInfo` are parameters of `SafeCopyInfoString`.
- `CApi.VoxelsGetSlice` does not model aliasing between the value buffer and the background out-parameter.
- `VoxelStore.Voxels.ProjectZSlice` requires start and end to differ. Equal bounds reach `ProjectZSliceUp`'s `assert(fZStart < fZEnd)`.
- `API/PicoGK.h` and `API/PicoGKApiTypes.h` hold declarations only, and `APITests/main.cpp` is a demo harness. None of them is part of this model.
- Measures.CalculateProperties: the bounding box is stated to contain every inside voxel's position. That it is the tightest such box, which follows from `BBox3::Include`, is not stated.
- VoxelStore.Voxels.Properties: returns Measures.CalculateProperties' box, with the same gap: it contains every inside voxel's position and is not stated to be the tightest such box.
- Lattices.SphereSdValueSign: holds for a given `sqrt` result that is a root of the squared distance, not for `sqrtf`'s rounded value.

## Findings

| source | as written | input that shows it | evidently intended | confidence | as-written member | corrected member |
|---|---|---|---|---|---|---|
| Source/PicoGKVdbVoxels.h:105-106 | `bIsEqual` scans z up to `max(this.min.z, other.max.z)` | a grid active at (0,0,0)..(0,0,5) against one active only at (0,0,0): equal one way, unequal the other, though they differ at (0,0,5) | scan z up to `max(this.max.z, other.max.z)`, giving a symmetric comparison | not executed | Scans.EqualityAsWrittenAsymmetric | Scans.IsEqualSymmetric |
| Source/PicoGKVdbVoxels.h:105-113 | with this grid empty, `iMaxZ = max(this.min.z, other.max.z)` is INT32_MAX, which the int32 condition `z <= iMaxZ` never fails | an empty grid against a grid whose only active voxel is the origin, holding 0.5: column (0, 0) agrees at every z, so the z counter runs past INT32_MAX | `max(this.max.z, other.max.z)`, which is 0 here, so the scan stops | not executed | Scans.EqualityAsWrittenRunsOff | Scans.EqualityBoxStops |
| Source/PicoGKGLTexture.cpp:204-232 | the staging buffer is sized from level 0 as a uint32 product, and the header checks accept any width and height | a 132-byte file with the "DDS " magic, width 0, height 0, 32 bits per texel and 2 mip levels: staging holds 0 bytes, and level 1 (1 × 1) copies 4 bytes into it | copy no level larger than the staging buffer: such a level stops the load | not executed | Dds.StagingOverrunAsWritten | Dds.WalkStaysInStaging |
| Source/PicoGKGLTexture.cpp:204-206 | `nWidth * nHeight * nComponents * nBytesPerComponent` is computed in uint32 | a 65536 × 65536 texture of 8-bit texels: level 0 wraps to 0 bytes while level 1 needs 2^30 | level sizes without wrap-around, so that every uploaded size is the level's real byte count | not executed | Dds.MipSizeWrapsAsWritten | Dds.StagingHoldsExact |

The `bIsEqual` rows have further as-written members, Scans.IsEqualAsWritten and Scans.EqualityAsWrittenEmptySelf. The other voxel operations use the corrected Scans.IsEqual.

`Dds.LoadDdsTexture` is the corrected loader behind both texture rows. It accepts what the header checks as written accept, so the single-level zero-sized file still loads (`Dds.ZeroSizedSingleLevelLoads`). It stops a level that is larger than the staging buffer instead of copying past it, so every upload it issues has the level's real size and fits (`Dds.WalkStaysInStaging`).

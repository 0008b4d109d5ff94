/**
 * ScalarField and VectorField: sparse grids of floats or of vectors,
 * addressed by positions in mm that are quantised to voxels by truncation.
 * A write stores the value and activates the voxel; a read succeeds only on
 * an active voxel. Both are Field<T> here, with T = real for the scalar
 * field and T = Vec3 for the vector field.
 */
module Fields {
  import opened Types
  import opened Wrappers
  import opened VoxelGrid

  /** A sparse grid: a background, the stored values and the active voxels. */
  datatype Sparse<T> = Sparse(background: T, values: map<Coord, T>, active: set<Coord>)

  /** accessor.getValue: the stored value, or the background. */
  function ValueAt<T>(f: Sparse<T>, c: Coord): T
  {
    if c in f.values then f.values[c] else f.background
  }

  /** accessor.setValue: stores the value and activates the voxel. */
  function SetAt<T>(f: Sparse<T>, c: Coord, v: T): (r: Sparse<T>)
    ensures ValueAt(r, c) == v && c in r.active && r.background == f.background
    ensures forall d :: d != c ==> ValueAt(r, d) == ValueAt(f, d) && (d in r.active <==> d in f.active)
  {
    f.(values := f.values[c := v], active := f.active + {c})
  }

  /** SetValue: the write at the voxel the position quantises to. */
  function Written<T>(f: Sparse<T>, pos: Vec3, vs: VoxelSize, v: T): Sparse<T>
  {
    SetAt(f, XyzToVoxels(pos, vs), v)
  }

  /** bGetValue: the value at the voxel the position quantises to, if that voxel is active. */
  function Read<T>(f: Sparse<T>, pos: Vec3, vs: VoxelSize): (r: Option<T>)
    ensures r.Some? <==> XyzToVoxels(pos, vs) in f.active
    ensures r.Some? ==> r.value == ValueAt(f, XyzToVoxels(pos, vs))
  {
    var c := XyzToVoxels(pos, vs);
    if c in f.active then Some(ValueAt(f, c)) else None
  }

  /** A write followed by a read at a position that quantises to the same voxel gives back the value written. */
  lemma ReadAfterWrite<T>(f: Sparse<T>, p: Vec3, q: Vec3, vs: VoxelSize, v: T)
    requires XyzToVoxels(p, vs) == XyzToVoxels(q, vs)
    ensures Read(Written(f, p, vs, v), q, vs) == Some(v)
  {
  }

  /** A write changes no other voxel: neither its value nor whether it is active. */
  lemma WriteChangesOneVoxel<T>(f: Sparse<T>, p: Vec3, vs: VoxelSize, v: T, q: Vec3)
    requires XyzToVoxels(q, vs) != XyzToVoxels(p, vs)
    ensures Read(Written(f, p, vs, v), q, vs) == Read(f, q, vs)
  {
  }

  /** The truncation cell of voxel index k: the voxel values that iToVoxels maps to k. */
  predicate InCell(a: real, vs: VoxelSize, k: int)
  {
    (k > 0 ==> k as real <= a / vs < k as real + 1.0) &&
    (k < 0 ==> k as real - 1.0 < a / vs <= k as real) &&
    (k == 0 ==> -1.0 < a / vs < 1.0)
  }

  /** All positions in the same truncation cell alias: a write at one is read back at any other. */
  lemma CellAliases<T>(f: Sparse<T>, p: Vec3, q: Vec3, vs: VoxelSize, k: Coord, v: T)
    requires InCell(p.x, vs, k.x) && InCell(q.x, vs, k.x)
    requires InCell(p.y, vs, k.y) && InCell(q.y, vs, k.y)
    requires InCell(p.z, vs, k.z) && InCell(q.z, vs, k.z)
    ensures XyzToVoxels(p, vs) == k && XyzToVoxels(q, vs) == k
    ensures Read(Written(f, p, vs, v), q, vs) == Some(v)
  {
    IToVoxelsCell(p.x, q.x, vs, k.x);
    IToVoxelsCell(p.y, q.y, vs, k.y);
    IToVoxelsCell(p.z, q.z, vs, k.z);
  }

  class Field<T> {
    var grid: Sparse<T>

    /**
     * A new grid (FloatGrid::create, Vec3SGrid::create): nothing stored,
     * nothing active. create() always gives the value type's zero as the
     * background; callers pass it, 0.0 or the zero vector.
     */
    constructor (background: T)
      ensures grid == Sparse(background, map[], {})
    {
      grid := Sparse(background, map[], {});
    }

    /** The copy constructor: deepCopyTypedGrid, so the copy does not share the source's grid. */
    constructor Copy(source: Field<T>)
      ensures grid == source.grid && this != source
    {
      grid := source.grid;
    }

    /** SetValue: the value at the voxel the position truncates to; every other voxel unchanged. */
    method SetValue(pos: Vec3, vs: VoxelSize, value: T)
      modifies this
      ensures grid == Written(old(grid), pos, vs, value)
    {
      var xyz := Coord(IToVoxels(pos.x, vs), IToVoxels(pos.y, vs), IToVoxels(pos.z, vs));
      grid := grid.(values := grid.values[xyz := value], active := grid.active + {xyz});
    }

    /**
     * bGetValue: false on an inactive voxel, with the caller's value left as
     * it was (`out0` is what *pfValue held before the call); otherwise true
     * and the stored value.
     */
    method GetValue(pos: Vec3, vs: VoxelSize, out0: T) returns (found: bool, out: T)
      ensures found <==> Read(grid, pos, vs).Some?
      ensures found ==> out == Read(grid, pos, vs).value
      ensures !found ==> out == out0
    {
      var xyz := Coord(IToVoxels(pos.x, vs), IToVoxels(pos.y, vs), IToVoxels(pos.z, vs));
      if xyz !in grid.active {
        return false, out0;
      }
      out := if xyz in grid.values then grid.values[xyz] else grid.background;
      found := true;
    }
  }

  // ------------------------------------------------------------- AddGradientFieldFrom

  /** f with every voxel of s set to its gradient and activated. */
  function Painted(f: Sparse<Vec3>, s: set<Coord>, gradient: Coord -> Vec3): (r: Sparse<Vec3>)
    ensures r.background == f.background && r.active == f.active + s
  {
    Sparse(f.background, map c | c in f.values.Keys + s :: if c in s then gradient(c) else f.values[c], f.active + s)
  }

  /** Inside s the value is the gradient; outside s it is the value f had. */
  lemma PaintedValues(f: Sparse<Vec3>, s: set<Coord>, gradient: Coord -> Vec3, c: Coord)
    ensures c in s ==> ValueAt(Painted(f, s, gradient), c) == gradient(c)
    ensures c !in s ==> ValueAt(Painted(f, s, gradient), c) == ValueAt(f, c)
  {
  }

  lemma PaintOne(f: Sparse<Vec3>, s: set<Coord>, gradient: Coord -> Vec3, c: Coord)
    ensures SetAt(Painted(f, s, gradient), c, gradient(c)) == Painted(f, s + {c}, gradient)
  {
    var l, r := SetAt(Painted(f, s, gradient), c, gradient(c)), Painted(f, s + {c}, gradient);
    assert l.values.Keys == r.values.Keys;
    assert l.values == r.values;
  }

  /** Painting no voxel changes nothing. */
  lemma PaintNothing(f: Sparse<Vec3>, gradient: Coord -> Vec3)
    ensures Painted(f, {}, gradient) == f
  {
    assert Painted(f, {}, gradient).values == f.values;
  }

  /** Whether the x, y, z loops over box b have visited voxel c when they reach (x, y, z). */
  predicate Visited(c: Coord, b: IBox, x: int, y: int, z: int)
  {
    InIBox(c, b) && (c.x < x || (c.x == x && (c.y < y || (c.y == y && c.z < z))))
  }

  /** The voxels written so far: the source's active voxels that the loops have visited. */
  ghost function WrittenSet(g: Grid, b: IBox, x: int, y: int, z: int): set<Coord>
  {
    set c | c in g.active && Visited(c, b, x, y, z)
  }

  lemma WrittenStep(g: Grid, b: IBox, x: int, y: int, z: int)
    requires InIBox(Coord(x, y, z), b)
    ensures WrittenSet(g, b, x, y, z + 1) ==
            WrittenSet(g, b, x, y, z) + (if Coord(x, y, z) in g.active then {Coord(x, y, z)} else {})
  {
  }

  lemma ColumnDone(g: Grid, b: IBox, x: int, y: int)
    ensures WrittenSet(g, b, x, y, IMax(b.lo.z, b.hi.z + 1)) == WrittenSet(g, b, x, y + 1, b.lo.z)
  {
  }

  lemma PlaneDone(g: Grid, b: IBox, x: int)
    ensures WrittenSet(g, b, x, IMax(b.lo.y, b.hi.y + 1), b.lo.z) == WrittenSet(g, b, x + 1, b.lo.y, b.lo.z)
  {
  }

  lemma BoxDone(g: Grid, b: IBox)
    requires forall c :: c in g.active ==> InIBox(c, b)
    ensures WrittenSet(g, b, IMax(b.lo.x, b.hi.x + 1), b.lo.y, b.lo.z) == g.active
  {
  }

  lemma NothingWritten(g: Grid, b: IBox)
    ensures WrittenSet(g, b, b.lo.x, b.lo.y, b.lo.z) == {}
  {
  }

  /** The loop body: voxel (x, y, z) gets the gradient when it is active in the source. */
  method PaintVoxel(field: Field<Vec3>, source: Grid, gradient: Coord -> Vec3, b: IBox, x: int, y: int, z: int, ghost f0: Sparse<Vec3>)
    requires InIBox(Coord(x, y, z), b)
    requires field.grid == Painted(f0, WrittenSet(source, b, x, y, z), gradient)
    modifies field
    ensures field.grid == Painted(f0, WrittenSet(source, b, x, y, z + 1), gradient)
  {
    var xyz := Coord(x, y, z);
    WrittenStep(source, b, x, y, z);
    if xyz in source.active {
      PaintOne(f0, WrittenSet(source, b, x, y, z), gradient, xyz);
      field.grid := SetAt(field.grid, xyz, gradient(xyz));
    }
  }

  /** The innermost loop: the voxels (x, y, z) for z over the box, of one column. */
  method PaintColumn(field: Field<Vec3>, source: Grid, gradient: Coord -> Vec3, b: IBox, x: int, y: int, ghost f0: Sparse<Vec3>)
    requires b.lo.x <= x <= b.hi.x && b.lo.y <= y <= b.hi.y
    requires field.grid == Painted(f0, WrittenSet(source, b, x, y, b.lo.z), gradient)
    modifies field
    ensures field.grid == Painted(f0, WrittenSet(source, b, x, y + 1, b.lo.z), gradient)
  {
    for z := b.lo.z to IMax(b.lo.z, b.hi.z + 1)
      invariant field.grid == Painted(f0, WrittenSet(source, b, x, y, z), gradient)
    {
      PaintVoxel(field, source, gradient, b, x, y, z, f0);
    }
    ColumnDone(source, b, x, y);
  }

  /** The middle loop: the columns of one plane x. */
  method PaintPlane(field: Field<Vec3>, source: Grid, gradient: Coord -> Vec3, b: IBox, x: int, ghost f0: Sparse<Vec3>)
    requires b.lo.x <= x <= b.hi.x
    requires field.grid == Painted(f0, WrittenSet(source, b, x, b.lo.y, b.lo.z), gradient)
    modifies field
    ensures field.grid == Painted(f0, WrittenSet(source, b, x + 1, b.lo.y, b.lo.z), gradient)
  {
    for y := b.lo.y to IMax(b.lo.y, b.hi.y + 1)
      invariant field.grid == Painted(f0, WrittenSet(source, b, x, y, b.lo.z), gradient)
    {
      PaintColumn(field, source, gradient, b, x, y, f0);
    }
    PlaneDone(source, b, x);
  }

  /** The outer loop: the planes of box b, from nothing painted to every active voxel of b painted. */
  method PaintBox(field: Field<Vec3>, source: Grid, gradient: Coord -> Vec3, b: IBox)
    modifies field
    ensures field.grid == Painted(old(field.grid), WrittenSet(source, b, IMax(b.lo.x, b.hi.x + 1), b.lo.y, b.lo.z), gradient)
  {
    ghost var f0 := field.grid;
    NothingWritten(source, b);
    PaintNothing(f0, gradient);
    for x := b.lo.x to IMax(b.lo.x, b.hi.x + 1)
      invariant field.grid == Painted(f0, WrittenSet(source, b, x, b.lo.y, b.lo.z), gradient)
    {
      PaintPlane(field, source, gradient, b, x, f0);
    }
  }

  /**
   * AddGradientFieldFrom: over the active box of the voxels, every active
   * voxel gets the gradient there; since that box holds every active voxel,
   * the active voxels of the source are exactly the ones written. The
   * gradient stencil is OpenVDB's and is the parameter `gradient`.
   */
  method AddGradientFieldFrom(field: Field<Vec3>, source: Grid, gradient: Coord -> Vec3)
    requires ValidGrid(source)
    modifies field
    ensures field.grid == Painted(old(field.grid), source.active, gradient)
  {
    var b := EvalActiveBBox(source);
    PaintBox(field, source, gradient, b);
    BoxDone(source, b);
  }

  /** The gradient pass writes nowhere but at active voxels of the source. */
  lemma GradientOnlyAtActive(f: Sparse<Vec3>, g: Grid, gradient: Coord -> Vec3, c: Coord)
    requires c !in g.active
    ensures ValueAt(Painted(f, g.active, gradient), c) == ValueAt(f, c)
    ensures c in Painted(f, g.active, gradient).active <==> c in f.active
  {
    PaintedValues(f, g.active, gradient, c);
  }
}

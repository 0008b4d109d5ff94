/**
 * Value types of the PicoGK runtime: integer voxel coordinates, 3-vectors,
 * axis-aligned bounding boxes, the voxel-size unit conversions, the small
 * math helpers and the column-major 4x4 matrix product.
 *
 * Single-precision floats are modelled as reals; the float limits that the
 * code compares against are kept as the exact real constants.
 */
module Types {

  const INT32_MAX: int := 0x7FFF_FFFF
  const INT32_MIN: int := -0x8000_0000

  /**
   * Two's-complement wrap-around of an int32 result: the int32 value that
   * agrees with n modulo 2^32.
   */
  function Wrap32(n: int): (r: int)
    ensures INT32_MIN <= r <= INT32_MAX
    ensures (r - n) % 0x1_0000_0000 == 0
    ensures INT32_MIN <= n <= INT32_MAX ==> r == n
  {
    (n - INT32_MIN) % 0x1_0000_0000 + INT32_MIN
  }

  /** std::numeric_limits<float>::max() */
  const FLT_MAX: real := 340282346638528859811704183484516925440.0
  /** std::numeric_limits<float>::lowest() */
  const FLT_LOWEST: real := -340282346638528859811704183484516925440.0
  /** std::numeric_limits<float>::epsilon(), 2^-23 */
  const FLT_EPSILON: real := 0.00000011920928955078125

  function Min(a: real, b: real): real { if a <= b then a else b }
  function Max(a: real, b: real): real { if a >= b then a else b }
  function IMin(a: int, b: int): int { if a <= b then a else b }
  function IMax(a: int, b: int): int { if a >= b then a else b }
  function Abs(a: real): real { if a < 0.0 then -a else a }

  // ---------------------------------------------------------------- Coord

  /** An integer voxel coordinate (three int32 components in the source). */
  datatype Coord = Coord(x: int, y: int, z: int)

  /** A triangle is three vertex indices A, B, C held in a Coord (a typedef in the source). */
  type Triangle = Coord

  /** Coord::operator== compares the three components. */
  function CoordEquals(a: Coord, b: Coord): (r: bool)
    ensures r <==> a == b
  {
    a.x == b.x && a.y == b.y && a.z == b.z
  }

  // -------------------------------------------------------------- Vector3

  datatype Vec3 = Vec3(x: real, y: real, z: real)

  function Add(a: Vec3, b: Vec3): Vec3 { Vec3(a.x + b.x, a.y + b.y, a.z + b.z) }
  function Sub(a: Vec3, b: Vec3): Vec3 { Vec3(a.x - b.x, a.y - b.y, a.z - b.z) }
  function Scale(a: Vec3, f: real): Vec3 { Vec3(a.x * f, a.y * f, a.z * f) }
  function Splat(f: real): Vec3 { Vec3(f, f, f) }

  function Cross(a: Vec3, b: Vec3): Vec3
  {
    Vec3(a.y * b.z - a.z * b.y, a.z * b.x - a.x * b.z, a.x * b.y - a.y * b.x)
  }

  function Dot(a: Vec3, b: Vec3): real { a.x * b.x + a.y * b.y + a.z * b.z }

  function LengthSquared(a: Vec3): real { Dot(a, a) }

  /** `length` is a square root of the squared length, as std::sqrt returns it. */
  ghost predicate IsLengthOf(a: Vec3, length: real)
  {
    length >= 0.0 && length * length == LengthSquared(a)
  }

  /**
   * Vector3::Normalize, given the value `length` that fLength() returned:
   * a zero or negative length leaves the vector as it is, otherwise every
   * component is divided by the length.
   */
  function Normalized(a: Vec3, length: real): (r: Vec3)
    ensures length <= 0.0 ==> r == a
    ensures length > 0.0 ==> Scale(r, length) == a
  {
    if length <= 0.0 then a else Vec3(a.x / length, a.y / length, a.z / length)
  }

  /** A vector of positive length normalises to unit squared length; a zero vector is left alone. */
  lemma NormalizedLength(a: Vec3, length: real)
    requires IsLengthOf(a, length)
    ensures length == 0.0 ==> Normalized(a, length) == a
    ensures length > 0.0 ==> LengthSquared(Normalized(a, length)) == 1.0
  {
    if length > 0.0 {
      var r := Normalized(a, length);
      calc {
        LengthSquared(r) * (length * length);
        (r.x * length) * (r.x * length) + (r.y * length) * (r.y * length) + (r.z * length) * (r.z * length);
        a.x * a.x + a.y * a.y + a.z * a.z;
        length * length;
      }
    }
  }

  // ---------------------------------------------------------------- BBox3

  datatype BBox3 = BBox3(min: Vec3, max: Vec3)

  /** The default box: min corner at the largest float, max corner at the lowest. */
  function DefaultBBox(): BBox3
  {
    BBox3(Splat(FLT_MAX), Splat(FLT_LOWEST))
  }

  /** BBox3::bIsEmpty only inspects the x component of the min corner. */
  predicate IsEmpty(b: BBox3) { b.min.x == FLT_MAX }

  predicate Contains(b: BBox3, v: Vec3)
  {
    b.min.x <= v.x <= b.max.x && b.min.y <= v.y <= b.max.y && b.min.z <= v.z <= b.max.z
  }

  /** BBox3::Include(Vector3): componentwise min into the min corner, max into the max corner. */
  function Include(b: BBox3, v: Vec3): (r: BBox3)
    ensures Contains(r, v)
    ensures forall u :: Contains(b, u) ==> Contains(r, u)
    ensures v.x < FLT_MAX ==> !IsEmpty(r)
  {
    BBox3(Vec3(Min(v.x, b.min.x), Min(v.y, b.min.y), Min(v.z, b.min.z)),
          Vec3(Max(v.x, b.max.x), Max(v.y, b.max.y), Max(v.z, b.max.z)))
  }

  lemma DefaultBBoxEmpty()
    ensures IsEmpty(DefaultBBox())
    ensures forall v: Vec3 :: v.x < FLT_MAX ==> !Contains(DefaultBBox(), v)
  {
  }

  /** Including the points of `vs` one after the other, starting from `b`. */
  function IncludeAll(b: BBox3, vs: seq<Vec3>): BBox3
    decreases |vs|
  {
    if vs == [] then b else IncludeAll(Include(b, vs[0]), vs[1..])
  }

  /** Every included point, and everything the start box held, is inside the accumulated box. */
  lemma {:induction false} IncludeAllContains(b: BBox3, vs: seq<Vec3>)
    ensures forall v :: v in vs ==> Contains(IncludeAll(b, vs), v)
    ensures forall u :: Contains(b, u) ==> Contains(IncludeAll(b, vs), u)
    decreases |vs|
  {
    if vs != [] {
      IncludeAllContains(Include(b, vs[0]), vs[1..]);
    }
  }

  /** m is the smaller of a and b: at most both, and one of them. */
  predicate IsMinOf(m: real, a: real, b: real) { m <= a && m <= b && (m == a || m == b) }

  /**
   * BBox3::Include(BBox3) as the source writes it: the min corner takes the
   * componentwise minimum, and so does the max corner.
   */
  function IncludeBox(b: BBox3, o: BBox3): (r: BBox3)
    ensures IsMinOf(r.min.x, b.min.x, o.min.x) && IsMinOf(r.min.y, b.min.y, o.min.y) && IsMinOf(r.min.z, b.min.z, o.min.z)
    ensures IsMinOf(r.max.x, b.max.x, o.max.x) && IsMinOf(r.max.y, b.max.y, o.max.y) && IsMinOf(r.max.z, b.max.z, o.max.z)
  {
    BBox3(Vec3(Min(o.min.x, b.min.x), Min(o.min.y, b.min.y), Min(o.min.z, b.min.z)),
          Vec3(Min(o.max.x, b.max.x), Min(o.max.y, b.max.y), Min(o.max.z, b.max.z)))
  }

  predicate MaxAtLowest(b: BBox3) { b.max == Splat(FLT_LOWEST) }

  predicate AboveLowest(v: Vec3) { v.x >= FLT_LOWEST && v.y >= FLT_LOWEST && v.z >= FLT_LOWEST }

  /** Accumulating boxes into `b` with IncludeBox. */
  function IncludeBoxes(b: BBox3, os: seq<BBox3>): BBox3
    decreases |os|
  {
    if os == [] then b else IncludeBoxes(IncludeBox(b, os[0]), os[1..])
  }

  /**
   * Because the max corner also takes the minimum, a box whose max corner
   * starts at the lowest float keeps it there whatever boxes are included.
   */
  lemma {:induction false} IncludeBoxesKeepLowestMax(b: BBox3, os: seq<BBox3>)
    requires MaxAtLowest(b)
    requires forall i :: 0 <= i < |os| ==> AboveLowest(os[i].max)
    ensures MaxAtLowest(IncludeBoxes(b, os))
    decreases |os|
  {
    if os != [] {
      IncludeBoxesKeepLowestMax(IncludeBox(b, os[0]), os[1..]);
    }
  }

  /** Including a non-empty box into the default box does not give a box containing it. */
  lemma IncludeBoxIsNotUnion()
    ensures !Contains(IncludeBox(DefaultBBox(), BBox3(Splat(0.0), Splat(1.0))), Splat(1.0))
  {
  }

  /** BBox3::Grow: every min component moves down by f, every max component up by f. */
  function Grow(b: BBox3, f: real): (r: BBox3)
    ensures forall v :: Contains(r, v) <==>
      b.min.x - f <= v.x <= b.max.x + f && b.min.y - f <= v.y <= b.max.y + f && b.min.z - f <= v.z <= b.max.z + f
  {
    BBox3(Sub(b.min, Splat(f)), Add(b.max, Splat(f)))
  }

  // ------------------------------------------------------------ VoxelSize

  /** fVoxelSizeMM never hands out 0 (it substitutes 1.0), so sizes are nonzero. */
  type VoxelSize = r: real | r != 0.0 witness 1.0

  /** The float -> int32 conversion: truncation toward zero. */
  function Trunc(x: real): (r: int)
    ensures x >= 0.0 ==> r >= 0 && r as real <= x < r as real + 1.0
    ensures x < 0.0 ==> r <= 0 && r as real - 1.0 < x <= r as real
  {
    if x >= 0.0 then x.Floor else -((-x).Floor)
  }

  /** VoxelSize::fToVoxels */
  function FToVoxels(mm: real, vs: VoxelSize): real { mm / vs }

  /**
   * VoxelSize::iToVoxels: the `(int)` cast binds to the constant 0.5f alone,
   * which casts to 0, so the result is the voxel value truncated toward zero.
   */
  function IToVoxels(mm: real, vs: VoxelSize): int { 0 + Trunc(FToVoxels(mm, vs)) }

  /** VoxelSize::fToMM */
  function FToMM(i: int, vs: VoxelSize): real { i as real * vs }

  function XyzToVoxels(v: Vec3, vs: VoxelSize): Coord
  {
    Coord(IToVoxels(v.x, vs), IToVoxels(v.y, vs), IToVoxels(v.z, vs))
  }

  function VecToMM(c: Coord, vs: VoxelSize): Vec3
  {
    Vec3(FToMM(c.x, vs), FToMM(c.y, vs), FToMM(c.z, vs))
  }

  function VecToVoxels(v: Vec3, vs: VoxelSize): Vec3
  {
    Vec3(FToVoxels(v.x, vs), FToVoxels(v.y, vs), FToVoxels(v.z, vs))
  }

  /** Integer voxel -> mm -> voxel is the identity. */
  lemma ToMMRoundTrip(c: Coord, vs: VoxelSize)
    ensures XyzToVoxels(VecToMM(c, vs), vs) == c
  {
    assert FToVoxels(FToMM(c.x, vs), vs) == c.x as real;
    assert FToVoxels(FToMM(c.y, vs), vs) == c.y as real;
    assert FToVoxels(FToMM(c.z, vs), vs) == c.z as real;
  }

  /**
   * iToVoxels does not round: 0.75 voxels truncate to 0 and -0.75 voxels
   * to 0, where rounding to nearest gives 1 and -1.
   */
  lemma IToVoxelsTruncates()
    ensures IToVoxels(0.75, 1.0) == 0 && IToVoxels(-0.75, 1.0) == 0
    ensures IToVoxels(1.99, 1.0) == 1 && IToVoxels(-1.99, 1.0) == -1
  {
  }

  /** Two positions whose voxel values lie in the same truncation cell map to the same voxel index. */
  lemma {:induction false} IToVoxelsCell(a: real, b: real, vs: VoxelSize, k: int)
    requires k > 0 ==> (k as real <= a / vs < k as real + 1.0 && k as real <= b / vs < k as real + 1.0)
    requires k < 0 ==> (k as real - 1.0 < a / vs <= k as real && k as real - 1.0 < b / vs <= k as real)
    requires k == 0 ==> (-1.0 < a / vs < 1.0 && -1.0 < b / vs < 1.0)
    ensures IToVoxels(a, vs) == k && IToVoxels(b, vs) == k
  {
    var ta, tb := Trunc(a / vs), Trunc(b / vs);
    assert ta == k by {
      if a / vs >= 0.0 { assert (a / vs).Floor == k; } else { assert (-(a / vs)).Floor == -k; }
    }
    assert tb == k by {
      if b / vs >= 0.0 { assert (b / vs).Floor == k; } else { assert (-(b / vs)).Floor == -k; }
    }
  }

  // ----------------------------------------------------------------- Math

  /** Math::iSign: (0 < f) - (f < 0). */
  function ISign(f: real): (r: int)
    ensures r == -1 <==> f < 0.0
    ensures r == 0 <==> f == 0.0
    ensures r == 1 <==> f > 0.0
  {
    (if 0.0 < f then 1 else 0) - (if f < 0.0 then 1 else 0)
  }

  /** Math::fClamp: min against the upper bound first, then max against the lower bound. */
  function FClamp(v: real, lo: real, hi: real): (r: real)
    ensures lo <= hi ==> lo <= r <= hi
    ensures lo <= v <= hi ==> r == v
    ensures v > hi && lo <= hi ==> r == hi
    ensures v < lo ==> r == lo
  {
    Max(Min(v, hi), lo)
  }

  // ------------------------------------------------------------ Matrix4x4

  /** The identity in the sixteen-float layout of Matrix4x4. */
  function IdentityMatrix(): (r: seq<real>)
    ensures |r| == 16
  {
    [1.0, 0.0, 0.0, 0.0,
     0.0, 1.0, 0.0, 0.0,
     0.0, 0.0, 1.0, 0.0,
     0.0, 0.0, 0.0, 1.0]
  }

  /** The partial sum of the first k terms of entry (col, row) of a * b. */
  function PartialEntry(a: seq<real>, b: seq<real>, col: nat, row: nat, k: nat): real
    requires |a| == 16 && |b| == 16 && col < 4 && row < 4 && k <= 4
  {
    if k == 0 then 0.0 else PartialEntry(a, b, col, row, k - 1) + a[row + (k - 1) * 4] * b[col * 4 + (k - 1)]
  }

  /** The four terms of an entry written out. */
  lemma PartialEntryFull(a: seq<real>, b: seq<real>, col: nat, row: nat)
    requires |a| == 16 && |b| == 16 && col < 4 && row < 4
    ensures PartialEntry(a, b, col, row, 4) ==
      a[row] * b[col * 4] + a[row + 4] * b[col * 4 + 1] + a[row + 8] * b[col * 4 + 2] + a[row + 12] * b[col * 4 + 3]
  {
    assert PartialEntry(a, b, col, row, 1) == a[row] * b[col * 4];
    assert PartialEntry(a, b, col, row, 2) == PartialEntry(a, b, col, row, 1) + a[row + 4] * b[col * 4 + 1];
    assert PartialEntry(a, b, col, row, 3) == PartialEntry(a, b, col, row, 2) + a[row + 8] * b[col * 4 + 2];
  }

  /** result.m[col*4+row] = sum over i of m[row+i*4] * other.m[col*4+i]. */
  function Product(a: seq<real>, b: seq<real>): (r: seq<real>)
    requires |a| == 16 && |b| == 16
    ensures |r| == 16
  {
    seq(16, j requires 0 <= j < 16 => PartialEntry(a, b, j / 4, j % 4, 4))
  }

  /** Multiplying by the identity on the right leaves a matrix unchanged. */
  lemma ProductIdentityRight(a: seq<real>)
    requires |a| == 16
    ensures Product(a, IdentityMatrix()) == a
  {
    var p := Product(a, IdentityMatrix());
    forall j | 0 <= j < 16 ensures p[j] == a[j] {
      var col, row := j / 4, j % 4;
      PartialEntryFull(a, IdentityMatrix(), col, row);
      assert j == row + col * 4;
    }
  }

  /** Multiplying by the identity on the left leaves a matrix unchanged. */
  lemma ProductIdentityLeft(a: seq<real>)
    requires |a| == 16
    ensures Product(IdentityMatrix(), a) == a
  {
    var p := Product(IdentityMatrix(), a);
    forall j | 0 <= j < 16 ensures p[j] == a[j] {
      var col, row := j / 4, j % 4;
      PartialEntryFull(IdentityMatrix(), a, col, row);
      assert j == col * 4 + row;
    }
  }

  /** A 4x4 float matrix stored as sixteen floats. */
  class Matrix4x4 {
    var m: array<real>

    ghost predicate Valid() reads this { m.Length == 16 }

    /** The default matrix is the identity. */
    constructor ()
      ensures Valid() && fresh(m) && m[..] == IdentityMatrix()
    {
      m := new real[16] [1.0, 0.0, 0.0, 0.0,
                         0.0, 1.0, 0.0, 0.0,
                         0.0, 0.0, 1.0, 0.0,
                         0.0, 0.0, 0.0, 1.0];
    }

    /**
     * operator*=: the product is built in a separate result matrix and then
     * copied back, so `other` may be this matrix itself.
     */
    method MulAssign(other: Matrix4x4)
      requires Valid() && other.Valid()
      modifies m
      ensures Valid()
      ensures m[..] == Product(old(m[..]), old(other.m[..]))
    {
      var a, b := m[..], other.m[..];
      var result := new real[16];
      for col := 0 to 4
        invariant forall j :: 0 <= j < col * 4 ==> result[j] == Product(a, b)[j]
        invariant m[..] == a && other.m[..] == b
      {
        for row := 0 to 4
          invariant forall j :: 0 <= j < col * 4 + row ==> result[j] == Product(a, b)[j]
          invariant m[..] == a && other.m[..] == b
        {
          var sum := 0.0;
          for i := 0 to 4
            invariant sum == PartialEntry(a, b, col, row, i)
          {
            sum := sum + m[row + i * 4] * other.m[col * 4 + i];
          }
          result[col * 4 + row] := sum;
        }
      }
      forall j | 0 <= j < 16 {
        m[j] := result[j];
      }
    }
  }

  // ------------------------------------------------------------- integer arithmetic

  /** Row-major position row * w + col of a w-wide grid of h rows: its quotient and remainder by w, and its range. */
  lemma DivModOfRow(row: int, col: int, w: int, h: int)
    requires 0 <= row < h && 0 <= col < w
    ensures (row * w + col) / w == row && (row * w + col) % w == col
    ensures 0 <= row * w + col < w * h
  {
    DivModUnique(row * w + col, w, row, col);
    MulMonotone(row + 1, h, w);
    assert (row + 1) * w == row * w + w;
  }

  /** The quotient and remainder by w > 0 are the only q, r with n == q * w + r and 0 <= r < w. */
  lemma DivModUnique(n: int, w: int, q: int, r: int)
    requires w > 0 && n == q * w + r && 0 <= r < w
    ensures n / w == q && n % w == r
  {
    var q', r' := n / w, n % w;
    assert (q - q') * w == r' - r;
    if q - q' >= 1 {
      MulMonotone(1, q - q', w);
    } else if q - q' <= -1 {
      MulMonotone(1, q' - q, w);
    }
  }

  lemma MulMonotone(a: int, b: int, w: int)
    requires a <= b && w >= 0
    ensures a * w <= b * w
  {
    assert b * w - a * w == (b - a) * w;
  }
}

/**
 * Voxels::CalculateProperties: over the active box, count the inside voxels
 * (value <= 0) and grow a BBox3 by the mm position of each; the volume is
 * the count times the cubed voxel size.
 */
module Measures {
  import opened Types
  import opened VoxelGrid

  /** Every integer voxel position of box b. */
  ghost function BoxVoxels(b: IBox): set<Coord>
  {
    set x, y, z | b.lo.x <= x <= b.hi.x && b.lo.y <= y <= b.hi.y && b.lo.z <= z <= b.hi.z :: Coord(x, y, z)
  }

  lemma BoxVoxelsMembers(b: IBox)
    ensures forall c :: c in BoxVoxels(b) <==> InIBox(c, b)
  {
    forall c | InIBox(c, b) ensures c in BoxVoxels(b) {
      assert c == Coord(c.x, c.y, c.z);
    }
  }

  /** The inside voxels of box b. */
  ghost function InsideIn(g: Grid, b: IBox): set<Coord>
  {
    set c | c in BoxVoxels(b) && Inside(g, c)
  }

  lemma InsideInMembers(g: Grid, b: IBox)
    ensures forall c :: c in InsideIn(g, b) <==> InIBox(c, b) && Inside(g, c)
  {
    BoxVoxelsMembers(b);
  }

  /** Splitting a box u into disjoint boxes r and s splits its inside voxels, and adds their numbers. */
  lemma InsideSplit(g: Grid, r: IBox, s: IBox, u: IBox)
    requires forall d :: InIBox(d, u) <==> InIBox(d, r) || InIBox(d, s)
    requires forall d :: !(InIBox(d, r) && InIBox(d, s))
    ensures InsideIn(g, u) == InsideIn(g, r) + InsideIn(g, s)
    ensures |InsideIn(g, u)| == |InsideIn(g, r)| + |InsideIn(g, s)|
  {
    InsideInMembers(g, r);
    InsideInMembers(g, s);
    InsideInMembers(g, u);
    assert InsideIn(g, r) * InsideIn(g, s) == {};
  }

  /** The running state of the scan: the counter and the growing box. */
  datatype Props = Props(count: int, bbox: BBox3)

  /** The body of the scan at voxel c. */
  function Visit(g: Grid, vs: VoxelSize, c: Coord, p: Props): Props
  {
    if Inside(g, c) then Props(p.count + 1, Include(p.bbox, VecToMM(c, vs))) else p
  }

  /** The state after the z loop of column (x, y) has visited b.lo.z..z. */
  function ColumnProps(g: Grid, vs: VoxelSize, x: int, y: int, b: IBox, z: int, p: Props): Props
    decreases z - b.lo.z
  {
    if z < b.lo.z then p else Visit(g, vs, Coord(x, y, z), ColumnProps(g, vs, x, y, b, z - 1, p))
  }

  /** The state after the y loop of plane x has visited the columns b.lo.y..y. */
  function PlaneProps(g: Grid, vs: VoxelSize, x: int, b: IBox, y: int, p: Props): Props
    decreases y - b.lo.y
  {
    if y < b.lo.y then p else ColumnProps(g, vs, x, y, b, b.hi.z, PlaneProps(g, vs, x, b, y - 1, p))
  }

  /** The state after the x loop has visited the planes b.lo.x..x. */
  function BoxProps(g: Grid, vs: VoxelSize, b: IBox, x: int, p: Props): Props
    decreases x - b.lo.x
  {
    if x < b.lo.x then p else PlaneProps(g, vs, x, b, b.hi.y, BoxProps(g, vs, b, x - 1, p))
  }

  /**
   * Going from state p to state q accounts for the voxels of region u: the
   * counter grew by the number of inside voxels there, the box holds each of
   * them and everything p's box held, and with no inside voxel the box is
   * unchanged.
   */
  ghost predicate Accounts(g: Grid, vs: VoxelSize, u: IBox, p: Props, q: Props)
  {
    q.count == p.count + |InsideIn(g, u)| &&
    (forall c :: c in InsideIn(g, u) ==> Contains(q.bbox, VecToMM(c, vs))) &&
    (forall v :: Contains(p.bbox, v) ==> Contains(q.bbox, v)) &&
    (InsideIn(g, u) == {} ==> q.bbox == p.bbox)
  }

  lemma AccountsExtend(g: Grid, vs: VoxelSize, r: IBox, s: IBox, u: IBox, p: Props, q: Props, t: Props)
    requires Accounts(g, vs, r, p, q) && Accounts(g, vs, s, q, t)
    requires forall d :: InIBox(d, u) <==> InIBox(d, r) || InIBox(d, s)
    requires forall d :: !(InIBox(d, r) && InIBox(d, s))
    ensures Accounts(g, vs, u, p, t)
  {
    InsideSplit(g, r, s, u);
  }

  lemma AccountsNothing(g: Grid, vs: VoxelSize, u: IBox, p: Props)
    requires forall d :: !InIBox(d, u)
    ensures Accounts(g, vs, u, p, p)
  {
    InsideInMembers(g, u);
    assert InsideIn(g, u) == {};
  }

  lemma VisitAccounts(g: Grid, vs: VoxelSize, c: Coord, p: Props)
    ensures Accounts(g, vs, IBox(c, c), p, Visit(g, vs, c, p))
  {
    InsideInMembers(g, IBox(c, c));
    assert InsideIn(g, IBox(c, c)) == if Inside(g, c) then {c} else {};
  }

  lemma {:induction false} ColumnAccounts(g: Grid, vs: VoxelSize, x: int, y: int, b: IBox, z: int, p: Props)
    ensures Accounts(g, vs, IBox(Coord(x, y, b.lo.z), Coord(x, y, z)), p, ColumnProps(g, vs, x, y, b, z, p))
    decreases z - b.lo.z
  {
    if z < b.lo.z {
      AccountsNothing(g, vs, IBox(Coord(x, y, b.lo.z), Coord(x, y, z)), p);
    } else {
      var q := ColumnProps(g, vs, x, y, b, z - 1, p);
      ColumnAccounts(g, vs, x, y, b, z - 1, p);
      VisitAccounts(g, vs, Coord(x, y, z), q);
      AccountsExtend(g, vs, IBox(Coord(x, y, b.lo.z), Coord(x, y, z - 1)), IBox(Coord(x, y, z), Coord(x, y, z)),
                     IBox(Coord(x, y, b.lo.z), Coord(x, y, z)), p, q, ColumnProps(g, vs, x, y, b, z, p));
    }
  }

  lemma {:induction false} PlaneAccounts(g: Grid, vs: VoxelSize, x: int, b: IBox, y: int, p: Props)
    ensures Accounts(g, vs, IBox(Coord(x, b.lo.y, b.lo.z), Coord(x, y, b.hi.z)), p, PlaneProps(g, vs, x, b, y, p))
    decreases y - b.lo.y
  {
    if y < b.lo.y {
      AccountsNothing(g, vs, IBox(Coord(x, b.lo.y, b.lo.z), Coord(x, y, b.hi.z)), p);
    } else {
      var q := PlaneProps(g, vs, x, b, y - 1, p);
      PlaneAccounts(g, vs, x, b, y - 1, p);
      ColumnAccounts(g, vs, x, y, b, b.hi.z, q);
      AccountsExtend(g, vs, IBox(Coord(x, b.lo.y, b.lo.z), Coord(x, y - 1, b.hi.z)), IBox(Coord(x, y, b.lo.z), Coord(x, y, b.hi.z)),
                     IBox(Coord(x, b.lo.y, b.lo.z), Coord(x, y, b.hi.z)), p, q, PlaneProps(g, vs, x, b, y, p));
    }
  }

  lemma {:induction false} BoxAccounts(g: Grid, vs: VoxelSize, b: IBox, x: int, p: Props)
    ensures Accounts(g, vs, IBox(b.lo, Coord(x, b.hi.y, b.hi.z)), p, BoxProps(g, vs, b, x, p))
    decreases x - b.lo.x
  {
    if x < b.lo.x {
      AccountsNothing(g, vs, IBox(b.lo, Coord(x, b.hi.y, b.hi.z)), p);
    } else {
      var q := BoxProps(g, vs, b, x - 1, p);
      BoxAccounts(g, vs, b, x - 1, p);
      PlaneAccounts(g, vs, x, b, b.hi.y, q);
      AccountsExtend(g, vs, IBox(b.lo, Coord(x - 1, b.hi.y, b.hi.z)), IBox(Coord(x, b.lo.y, b.lo.z), Coord(x, b.hi.y, b.hi.z)),
                     IBox(b.lo, Coord(x, b.hi.y, b.hi.z)), p, q, BoxProps(g, vs, b, x, p));
    }
  }

  /** The z loop of CalculateProperties over column (x, y). */
  method ScanColumn(g: Grid, vs: VoxelSize, x: int, y: int, b: IBox, p: Props) returns (q: Props)
    ensures q == ColumnProps(g, vs, x, y, b, b.hi.z, p)
  {
    q := p;
    for z := b.lo.z to IMax(b.lo.z, b.hi.z + 1)
      invariant q == ColumnProps(g, vs, x, y, b, z - 1, p)
    {
      var c := Coord(x, y, z);
      if Inside(g, c) {
        q := Props(q.count + 1, Include(q.bbox, VecToMM(c, vs)));
      }
    }
  }

  /** The y loop of CalculateProperties over plane x. */
  method ScanPlane(g: Grid, vs: VoxelSize, x: int, b: IBox, p: Props) returns (q: Props)
    ensures q == PlaneProps(g, vs, x, b, b.hi.y, p)
  {
    q := p;
    for y := b.lo.y to IMax(b.lo.y, b.hi.y + 1)
      invariant q == PlaneProps(g, vs, x, b, y - 1, p)
    {
      q := ScanColumn(g, vs, x, y, b, q);
    }
  }

  /** The x, y, z loops of CalculateProperties over box b, from state p. */
  method ScanBox(g: Grid, vs: VoxelSize, b: IBox, p: Props) returns (q: Props)
    ensures Accounts(g, vs, b, p, q)
  {
    q := p;
    for x := b.lo.x to IMax(b.lo.x, b.hi.x + 1)
      invariant q == BoxProps(g, vs, b, x - 1, p)
    {
      q := ScanPlane(g, vs, x, b, q);
    }
    BoxAccounts(g, vs, b, b.hi.x, p);
    InsideInMembers(g, b);
    InsideInMembers(g, IBox(b.lo, Coord(b.hi.x, b.hi.y, b.hi.z)));
    assert b == IBox(b.lo, Coord(b.hi.x, b.hi.y, b.hi.z));
  }

  /** The volume of n voxels: n times the cubed voxel size. */
  function Volume(n: int, vs: VoxelSize): real { n as real * vs * vs * vs }

  /** `fVolume = nCount` followed by three `fVolume *= oVoxelSize`. */
  method CubicVolume(count: int, vs: VoxelSize) returns (volume: real)
    ensures volume == Volume(count, vs)
  {
    volume := count as real;
    volume := volume * vs;
    volume := volume * vs;
    volume := volume * vs;
  }

  /**
   * CalculateProperties: the volume is the number of inside voxels of the
   * active box times the cubed voxel size; the box holds the mm position of
   * every one of them, and with none it is still the default (empty) box.
   */
  method CalculateProperties(g: Grid, vs: VoxelSize) returns (volume: real, bbox: BBox3)
    requires ValidGrid(g)
    ensures volume == Volume(|InsideIn(g, ActiveBox(g))|, vs)
    ensures forall c :: InIBox(c, ActiveBox(g)) && Inside(g, c) ==> Contains(bbox, VecToMM(c, vs))
    ensures (forall c :: InIBox(c, ActiveBox(g)) ==> !Inside(g, c)) ==> bbox == DefaultBBox()
  {
    var b := EvalActiveBBox(g);
    var q := ScanBox(g, vs, b, Props(0, DefaultBBox()));
    InsideInMembers(g, b);
    volume := CubicVolume(q.count, vs);
    bbox := q.bbox;
    if forall c :: InIBox(c, b) ==> !Inside(g, c) {
      assert InsideIn(g, b) == {};
    }
  }
}

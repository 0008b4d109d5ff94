/**
 * The analytic lattice: an append-only list of spheres and an append-only
 * list of beams (cones between two points, with round or flat caps), each
 * with its own bounding box, and a box accumulated over all of them.
 */
module Lattices {
  import opened Types

  /** All three components are finite floats: no larger than the largest, no lower than the lowest. */
  predicate InFloatRange(v: Vec3)
  {
    FLT_LOWEST <= v.x <= FLT_MAX && FLT_LOWEST <= v.y <= FLT_MAX && FLT_LOWEST <= v.z <= FLT_MAX
  }

  predicate BelowOrEqual(a: Vec3, b: Vec3) { a.x <= b.x && a.y <= b.y && a.z <= b.z }

  datatype Sphere = Sphere(center: Vec3, radius: real, bbox: BBox3)

  /** LatticeSphere's constructor: the box is the centre included into the default box, grown by the radius. */
  function MakeSphere(c: Vec3, r: real): (s: Sphere)
    ensures s.center == c && s.radius == r
    ensures InFloatRange(c) ==> s.bbox == BBox3(Sub(c, Splat(r)), Add(c, Splat(r)))
  {
    Sphere(c, r, Grow(Include(DefaultBBox(), c), r))
  }

  /** LatticeSphere::fSdValue: distance to the centre minus the radius (`sqrt` is std::sqrt). */
  function SphereSdValue(s: Sphere, p: Vec3, sqrt: real -> real): real
  {
    sqrt(LengthSquared(Sub(p, s.center))) - s.radius
  }

  /** `sqrt` returns a non-negative square root at x. */
  ghost predicate RootAt(sqrt: real -> real, x: real)
  {
    sqrt(x) >= 0.0 && sqrt(x) * sqrt(x) == x
  }

  lemma LessChain(a: real, b: real, c: real)
    requires a <= b && b < c
    ensures a < c
  {
  }

  /** On non-negative reals, squaring preserves and reflects the order. */
  lemma SquareOrder(d: real, r: real)
    requires 0.0 <= d && 0.0 <= r
    ensures d <= r <==> d * d <= r * r
    ensures d < r <==> d * d < r * r
  {
    if d < r {
      LessChain(d * d, d * r, r * r);
    } else if r < d {
      LessChain(r * r, r * d, d * d);
    }
  }

  /**
   * The sphere distance is non-positive exactly at the points whose squared
   * distance to the centre is at most the squared radius, and zero exactly on
   * the sphere.
   */
  lemma SphereSdValueSign(s: Sphere, p: Vec3, sqrt: real -> real)
    requires s.radius >= 0.0
    requires RootAt(sqrt, LengthSquared(Sub(p, s.center)))
    ensures SphereSdValue(s, p, sqrt) <= 0.0 <==> LengthSquared(Sub(p, s.center)) <= s.radius * s.radius
    ensures SphereSdValue(s, p, sqrt) == 0.0 <==> LengthSquared(Sub(p, s.center)) == s.radius * s.radius
  {
    RootSign(sqrt(LengthSquared(Sub(p, s.center))), LengthSquared(Sub(p, s.center)), s.radius);
  }

  /** Where the squared distance to the centre is zero, the distance is minus the radius. */
  lemma SphereSdValueAtZero(s: Sphere, p: Vec3, sqrt: real -> real)
    requires sqrt(0.0) == 0.0 && LengthSquared(Sub(p, s.center)) == 0.0
    ensures SphereSdValue(s, p, sqrt) == -s.radius
  {
  }

  lemma SelfDistanceZero(a: Vec3)
    ensures LengthSquared(Sub(a, a)) == 0.0
  {
  }

  /** At the centre the distance is minus the radius. */
  lemma SphereSdValueAtCenter(s: Sphere, sqrt: real -> real)
    requires sqrt(0.0) == 0.0
    ensures SphereSdValue(s, s.center, sqrt) == -s.radius
  {
    SelfDistanceZero(s.center);
    SphereSdValueAtZero(s, s.center, sqrt);
  }

  /** For a root d of l and a radius r >= 0, the sign of d - r is the sign of l - r*r. */
  lemma RootSign(d: real, l: real, r: real)
    requires d >= 0.0 && d * d == l && r >= 0.0
    ensures d - r <= 0.0 <==> l <= r * r
    ensures d - r == 0.0 <==> l == r * r
  {
    SquareOrder(d, r);
    SquareOrder(r, d);
  }

  datatype Beam = Beam(start: Vec3, end: Vec3, radiusStart: real, radiusEnd: real, roundCap: bool, bbox: BBox3)

  /** LatticeBeam's constructor: both end points included, then grown by the larger radius. */
  function MakeBeam(a: Vec3, b: Vec3, ra: real, rb: real, roundCap: bool): (beam: Beam)
    ensures beam.start == a && beam.end == b && beam.radiusStart == ra && beam.radiusEnd == rb
    ensures beam.roundCap == roundCap
    ensures Max(ra, rb) >= 0.0 ==> Contains(beam.bbox, a) && Contains(beam.bbox, b)
    ensures InFloatRange(a) && InFloatRange(b) ==>
      beam.bbox == Grow(BBox3(Vec3(Min(a.x, b.x), Min(a.y, b.y), Min(a.z, b.z)),
                              Vec3(Max(a.x, b.x), Max(a.y, b.y), Max(a.z, b.z))), Max(ra, rb))
  {
    var pair := Include(Include(DefaultBBox(), a), b);
    PairBox(a, b);
    GrowContains(pair, Max(ra, rb), a);
    GrowContains(pair, Max(ra, rb), b);
    Beam(a, b, ra, rb, roundCap, Grow(pair, Max(ra, rb)))
  }

  /** Two finite points included into the default box give their componentwise min and max. */
  lemma PairBox(a: Vec3, b: Vec3)
    ensures Contains(Include(Include(DefaultBBox(), a), b), a) && Contains(Include(Include(DefaultBBox(), a), b), b)
    ensures InFloatRange(a) && InFloatRange(b) ==>
      Include(Include(DefaultBBox(), a), b) ==
        BBox3(Vec3(Min(a.x, b.x), Min(a.y, b.y), Min(a.z, b.z)), Vec3(Max(a.x, b.x), Max(a.y, b.y), Max(a.z, b.z)))
  {
  }

  /** Growing a box by a non-negative amount keeps every point it contains. */
  lemma GrowContains(b: BBox3, f: real, v: Vec3)
    ensures f >= 0.0 && Contains(b, v) ==> Contains(Grow(b, f), v)
  {
  }

  /**
   * The two cone distance formulas (fSdvRoundCone, fSdvFlatCone). Their
   * float arithmetic is not part of this model; they are supplied as functions.
   */
  datatype ConeDistances = ConeDistances(round: (Beam, Vec3) -> real, flat: (Beam, Vec3) -> real)

  /** LatticeBeam::fSdValue picks the round-cone distance iff the beam has round caps. */
  function BeamSdValue(b: Beam, p: Vec3, cones: ConeDistances): (d: real)
    ensures b.roundCap ==> d == cones.round(b, p)
    ensures !b.roundCap ==> d == cones.flat(b, p)
  {
    if b.roundCap then cones.round(b, p) else cones.flat(b, p)
  }

  /** A beam with round caps whose end points are closer than float epsilon is added as a sphere. */
  predicate IsDegenerateBeam(s: Vec3, e: Vec3, roundCap: bool, sqrt: real -> real)
  {
    roundCap && sqrt(LengthSquared(Sub(s, e))) < FLT_EPSILON
  }

  class Lattice {
    var spheres: seq<Sphere>
    var beams: seq<Beam>
    var bbox: BBox3

    /** The accumulated min corner lies below the min corner of every primitive. */
    ghost predicate Valid()
      reads this
    {
      BelowOrEqual(bbox.min, DefaultBBox().min) &&
      (forall i :: 0 <= i < |spheres| ==> BelowOrEqual(bbox.min, spheres[i].bbox.min)) &&
      (forall i :: 0 <= i < |beams| ==> BelowOrEqual(bbox.min, beams[i].bbox.min))
    }

    constructor ()
      ensures Valid()
      ensures spheres == [] && beams == [] && bbox == DefaultBBox()
    {
      spheres, beams, bbox := [], [], DefaultBBox();
    }

    /**
     * AddSphere: the sphere's box is folded in with IncludeBox, which also
     * takes the minimum for the max corner, so a lattice box whose max corner
     * is still at the lowest float stays there.
     */
    method AddSphere(c: Vec3, r: real)
      requires Valid()
      modifies this
      ensures Valid()
      ensures spheres == old(spheres) + [MakeSphere(c, r)] && beams == old(beams)
      ensures bbox == IncludeBox(old(bbox), MakeSphere(c, r).bbox)
      ensures MaxAtLowest(old(bbox)) && AboveLowest(MakeSphere(c, r).bbox.max) ==> MaxAtLowest(bbox)
    {
      var sphere := MakeSphere(c, r);
      bbox := IncludeBox(bbox, sphere.bbox);
      spheres := spheres + [sphere];
    }

    /**
     * AddBeam: a round-capped beam of (nearly) zero length becomes one sphere
     * at the start point with the larger radius; every other beam, including
     * a zero-length flat-capped one, is appended as a beam.
     */
    method AddBeam(s: Vec3, e: Vec3, rs: real, re: real, roundCap: bool, sqrt: real -> real)
      requires Valid()
      modifies this
      ensures Valid()
      ensures IsDegenerateBeam(s, e, roundCap, sqrt) ==>
        spheres == old(spheres) + [MakeSphere(s, Max(rs, re))] && beams == old(beams) &&
        bbox == IncludeBox(old(bbox), MakeSphere(s, Max(rs, re)).bbox)
      ensures !IsDegenerateBeam(s, e, roundCap, sqrt) ==>
        beams == old(beams) + [MakeBeam(s, e, rs, re, roundCap)] && spheres == old(spheres) &&
        bbox == IncludeBox(old(bbox), MakeBeam(s, e, rs, re, roundCap).bbox)
    {
      if roundCap && sqrt(LengthSquared(Sub(s, e))) < FLT_EPSILON {
        AddSphere(s, Max(rs, re));
        return;
      }
      var beam := MakeBeam(s, e, rs, re, roundCap);
      bbox := IncludeBox(bbox, beam.bbox);
      beams := beams + [beam];
    }
  }
}

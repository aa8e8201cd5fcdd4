/** Hit records and bounding boxes (src/geometry/mod.rs,
    src/geometry/aabb.rs). */
module Hits {
  import opened Numbers
  import opened Vector3

  datatype Hit = Hit(point: Vec3, normal: Vec3, distance: real) {

    /** `Hit::new`: point and distance as given, the normal normalised. */
    static function New(point: Vec3, normal: Vec3, distance: real): (h: Hit)
      ensures h.point == point && h.distance == distance
      ensures SqrtLaws() && normal.LengthSquared() != 0.0 ==> h.normal.LengthSquared() == 1.0
    {
      assert SqrtLaws() && normal.LengthSquared() != 0.0 ==> normal.Normalized().LengthSquared() == 1.0 by {
        if SqrtLaws() && normal.LengthSquared() != 0.0 {
          NormalizedIsUnit(normal);
        }
      }
      Hit(point, normal.Normalized(), distance)
    }
  }

  /** `Aabb { min, max }`, the result of `get_bounds`. */
  datatype Aabb = Aabb(min: Vec3, max: Vec3) {

    predicate Contains(p: Vec3)
    {
      min.LessEq(p) && p.LessEq(max)
    }
  }

  /** `Hit::new` keeps point and distance, and stores a unit normal that is
      the supplied one scaled by the positive factor 1 / |normal|. */
  lemma {:induction false} NewNormalIsUnit(point: Vec3, normal: Vec3, distance: real)
    requires SqrtLaws()
    requires normal.LengthSquared() != 0.0
    ensures Hit.New(point, normal, distance).point == point
    ensures Hit.New(point, normal, distance).distance == distance
    ensures Hit.New(point, normal, distance).normal.LengthSquared() == 1.0
    ensures 0.0 < normal.Length()
    ensures Hit.New(point, normal, distance).normal == Scaled(1.0 / normal.Length(), normal)
  {
    NormalizedIsUnit(normal);
  }

  /** Normals that differ by a positive factor give the same record. */
  lemma {:induction false} NewNormalScaleInvariant(point: Vec3, normal: Vec3, k: real, distance: real)
    requires SqrtLaws()
    requires 0.0 < k
    ensures Hit.New(point, Scaled(k, normal), distance) == Hit.New(point, normal, distance)
  {
    NormalizedScaleInvariant(normal, k);
  }
}

/** Rays (src/ray.rs). One record carries the origin, the stored unit
    direction and the interval of accepted parameters that the geometry
    checks (`min_distance < t < max_distance`). */
module Rays {
  import opened Numbers
  import opened VecOps
  import opened Vector3

  /** The lower bound the four-argument constructor uses when given
      `None`; its value is not part of this model. */
  const DEFAULT_MIN_DISTANCE: real

  datatype Ray = Ray(origin: Vec3, direction: Vec3, minDistance: real, maxDistance: real) {

    /** `Ray::new`: the origin as given, the direction normalised. The
        `debug_assert` rejects a direction of length zero. */
    static function New(origin: Vec3, direction: Vec3, minDistance: real, maxDistance: real): (r: Ray)
      requires direction.LengthSquared() != 0.0
      ensures r.origin == origin && r.minDistance == minDistance && r.maxDistance == maxDistance
      ensures SqrtLaws() ==> r.direction.LengthSquared() == 1.0
    {
      assert SqrtLaws() ==> direction.Normalized().LengthSquared() == 1.0 by {
        if SqrtLaws() {
          NormalizedIsUnit(direction);
        }
      }
      Ray(origin, direction.Normalized(), minDistance, maxDistance)
    }

    /** `at(t)`: `origin + t * direction`. */
    function At(t: real): Vec3
    {
      origin.Plus(Scaled(t, direction))
    }
  }

  // ---------------------------------------------------------------------
  // Properties of the constructor

  /** The constructor's precondition excludes exactly the zero vector. */
  lemma {:induction false} NewAcceptsNonzero(direction: Vec3)
    ensures direction.LengthSquared() != 0.0 <==> direction != ZERO
  {
    LengthSquaredZero(direction);
  }

  /** The stored direction has unit length and is the given one scaled by
      the positive factor 1 / |direction|; origin and bounds are kept. */
  lemma {:induction false} NewStoresUnitDirection(origin: Vec3, direction: Vec3, minDistance: real, maxDistance: real)
    requires SqrtLaws()
    requires direction.LengthSquared() != 0.0
    ensures Ray.New(origin, direction, minDistance, maxDistance).origin == origin
    ensures Ray.New(origin, direction, minDistance, maxDistance).minDistance == minDistance
    ensures Ray.New(origin, direction, minDistance, maxDistance).maxDistance == maxDistance
    ensures Ray.New(origin, direction, minDistance, maxDistance).direction.LengthSquared() == 1.0
    ensures 0.0 < direction.Length()
    ensures Ray.New(origin, direction, minDistance, maxDistance).direction == Scaled(1.0 / direction.Length(), direction)
  {
    NormalizedIsUnit(direction);
  }

  /** A unit direction is stored unchanged. */
  lemma {:induction false} NewKeepsUnitDirection(origin: Vec3, direction: Vec3, minDistance: real, maxDistance: real)
    requires SqrtLaws()
    requires direction.LengthSquared() == 1.0
    ensures Ray.New(origin, direction, minDistance, maxDistance).direction == direction
  {
    NormalizedUnit(direction);
  }

  /** Directions that differ by a positive factor give the same ray. */
  lemma {:induction false} NewScaleInvariant(origin: Vec3, direction: Vec3, k: real, minDistance: real, maxDistance: real)
    requires SqrtLaws()
    requires 0.0 < k && direction.LengthSquared() != 0.0
    ensures Scaled(k, direction).LengthSquared() != 0.0
    ensures Ray.New(origin, Scaled(k, direction), minDistance, maxDistance) == Ray.New(origin, direction, minDistance, maxDistance)
  {
    var scaled := Scaled(k, direction);
    ScaledLengthSquared(k, direction);
    ProductNonzero(k * k, direction.LengthSquared());
    assert scaled.LengthSquared() != 0.0;
    NormalizedScaleInvariant(direction, k);
    assert scaled.Normalized() == direction.Normalized();
  }

  /** The third constructor case of the unit tests: (-9,9,27) gives the
      same ray as (-1,1,3). */
  lemma {:induction false} NewExampleOblique(origin: Vec3, minDistance: real, maxDistance: real)
    requires SqrtLaws()
    ensures Ray.New(origin, Vec3(-9.0, 9.0, 27.0), minDistance, maxDistance) == Ray.New(origin, Vec3(-1.0, 1.0, 3.0), minDistance, maxDistance)
  {
    NewScaleInvariant(origin, Vec3(-1.0, 1.0, 3.0), 9.0, minDistance, maxDistance);
  }

  // ---------------------------------------------------------------------
  // Properties of `at`

  /** `at(t) - origin` is `t * direction`: parameter 0 is the origin and
      opposite parameters reach opposite offsets. */
  lemma AtOffset(ray: Ray, t: real)
    ensures ray.At(t).Minus(ray.origin) == Scaled(t, ray.direction)
    ensures ray.At(0.0) == ray.origin
    ensures ray.At(-t).Minus(ray.origin) == ray.At(t).Minus(ray.origin).CombineScalar(Mul, -1.0)
  {
  }

  /** On a unit direction, `at(t)` lies at squared distance t * t from the
      origin, so the parameter measures length along the ray. */
  lemma {:induction false} AtDistance(ray: Ray, t: real)
    requires ray.direction.LengthSquared() == 1.0
    ensures ray.At(t).Minus(ray.origin).LengthSquared() == t * t
  {
    AtOffset(ray, t);
    ScaledLengthSquared(t, ray.direction);
  }
}

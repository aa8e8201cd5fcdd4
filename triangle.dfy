/** Triangles (src/geometry/triangle.rs): the Möller–Trumbore test with a
    parallel-ray cutoff, the barycentric range checks and the interval
    check, together with the vertex bounding box. */
module Triangles {
  import opened Numbers
  import opened Wrappers
  import opened Vector3
  import opened Rays
  import opened Hits

  datatype Triangle = Triangle(v0: Vec3, v1: Vec3, v2: Vec3) {

    /** The edge from v0 to v1. */
    function Edge1(): Vec3
    {
      v1.Minus(v0)
    }

    /** The edge from v0 to v2. */
    function Edge2(): Vec3
    {
      v2.Minus(v0)
    }

    /** `h = d × e2` projected onto e1: the determinant of the system. */
    function Determinant(ray: Ray): real
    {
      Edge1().Dot(ray.direction.Cross(Edge2()))
    }

    /** The first barycentric coordinate `f * (s · h)`: by Cramer's rule
        the solution of `u * a == s · h`, with `a` the determinant. */
    function U(ray: Ray): (u: real)
      requires Determinant(ray) != 0.0
      ensures u * Determinant(ray) == ray.origin.Minus(v0).Dot(ray.direction.Cross(Edge2()))
    {
      InverseTimes(Determinant(ray), ray.origin.Minus(v0).Dot(ray.direction.Cross(Edge2())));
      (1.0 / Determinant(ray)) * ray.origin.Minus(v0).Dot(ray.direction.Cross(Edge2()))
    }

    /** The second barycentric coordinate `f * (d · q)`, `q = s × e1`:
        the solution of `v * a == d · q`. */
    function V(ray: Ray): (v: real)
      requires Determinant(ray) != 0.0
      ensures v * Determinant(ray) == ray.direction.Dot(ray.origin.Minus(v0).Cross(Edge1()))
    {
      InverseTimes(Determinant(ray), ray.direction.Dot(ray.origin.Minus(v0).Cross(Edge1())));
      (1.0 / Determinant(ray)) * ray.direction.Dot(ray.origin.Minus(v0).Cross(Edge1()))
    }

    /** The ray parameter `f * (e2 · q)`: the solution of
        `t * a == e2 · q`. */
    function T(ray: Ray): (t: real)
      requires Determinant(ray) != 0.0
      ensures t * Determinant(ray) == Edge2().Dot(ray.origin.Minus(v0).Cross(Edge1()))
    {
      InverseTimes(Determinant(ray), Edge2().Dot(ray.origin.Minus(v0).Cross(Edge1())));
      (1.0 / Determinant(ray)) * Edge2().Dot(ray.origin.Minus(v0).Cross(Edge1()))
    }

    /** The normal every hit reports: `(e2 × e1).normalized()`. */
    function FaceNormal(): Vec3
    {
      Edge2().Cross(Edge1()).Normalized()
    }

    /** The four checks that must all pass for a hit. Together they give
        a nonzero determinant, `v` in [0, 1] and a nonempty interval. */
    predicate Accepts(ray: Ray)
      ensures Accepts(ray) ==> Determinant(ray) != 0.0 && 0.0 <= V(ray) <= 1.0 && ray.minDistance < ray.maxDistance
    {
      EPSILON <= Abs(Determinant(ray))
      && 0.0 <= U(ray) <= 1.0
      && 0.0 <= V(ray) && U(ray) + V(ray) <= 1.0
      && ray.minDistance < T(ray) < ray.maxDistance
    }

    /** `intersect`, with the early returns of the source: first the
        parallel cutoff, then `u`, then `v`, then the interval. */
    function Intersect(ray: Ray): (hit: Option<Hit>)
      ensures hit.Some? <==> Accepts(ray)
      ensures hit.Some? ==> hit.value == Hit(ray.At(T(ray)), FaceNormal(), T(ray))
    {
      var a := Determinant(ray);
      if Abs(a) < EPSILON then None
      else
        var u := U(ray);
        if !(0.0 <= u <= 1.0) then None
        else
          var v := V(ray);
          if v < 0.0 || u + v > 1.0 then None
          else
            var t := T(ray);
            if t > ray.minDistance && t < ray.maxDistance then
              Some(Hit(ray.At(t), FaceNormal(), t))
            else
              None
    }

    /** `does_intersect`: whether `intersect` reports a hit. */
    function DoesIntersect(ray: Ray): (b: bool)
      ensures b <==> Accepts(ray)
    {
      Intersect(ray).Some?
    }

    /** `get_bounds`: the componentwise minimum and maximum of the three
        vertices. */
    function GetBounds(): (box: Aabb)
      ensures box.Contains(v0) && box.Contains(v1) && box.Contains(v2)
      ensures box.min.x in {v0.x, v1.x, v2.x} && box.min.y in {v0.y, v1.y, v2.y} && box.min.z in {v0.z, v1.z, v2.z}
      ensures box.max.x in {v0.x, v1.x, v2.x} && box.max.y in {v0.y, v1.y, v2.y} && box.max.z in {v0.z, v1.z, v2.z}
    {
      Aabb(v0.MinVector(v1.MinVector(v2)), v0.MaxVector(v1.MaxVector(v2)))
    }
  }

  // ---------------------------------------------------------------------
  // Properties of the intersection test

  /** A ray (nearly) parallel to the plane misses, whatever its origin:
      the determinant does not depend on the origin. */
  lemma ParallelMisses(tri: Triangle, ray: Ray, origin: Vec3)
    requires Abs(tri.Determinant(ray)) < EPSILON
    ensures tri.Intersect(ray) == None
    ensures tri.Intersect(ray.(origin := origin)) == None
  {
  }

  /** Every reported hit has barycentric coordinates inside the triangle,
      lies strictly inside the ray interval, and sits at `at(distance)`. */
  lemma HitIsInside(tri: Triangle, ray: Ray)
    requires tri.Intersect(ray).Some?
    ensures tri.Determinant(ray) != 0.0
    ensures 0.0 <= tri.U(ray) <= 1.0
    ensures 0.0 <= tri.V(ray) && tri.U(ray) + tri.V(ray) <= 1.0
    ensures ray.minDistance < tri.Intersect(ray).value.distance < ray.maxDistance
    ensures tri.Intersect(ray).value.point == ray.At(tri.Intersect(ray).value.distance)
  {
  }

  /** When `e2 × e1` is nonzero, the face normal, and so the normal of
      every reported hit, has unit length. */
  lemma {:induction false} FaceNormalIsUnit(tri: Triangle, ray: Ray)
    requires SqrtLaws()
    requires tri.Edge2().Cross(tri.Edge1()).LengthSquared() != 0.0
    ensures tri.FaceNormal().LengthSquared() == 1.0
    ensures tri.Intersect(ray).Some? ==> tri.Intersect(ray).value.normal.LengthSquared() == 1.0
  {
    NormalizedIsUnit(tri.Edge2().Cross(tri.Edge1()));
  }

  /** The reported normal depends only on the vertices. */
  lemma NormalIndependentOfRay(tri: Triangle, r1: Ray, r2: Ray)
    requires tri.Intersect(r1).Some? && tri.Intersect(r2).Some?
    ensures tri.Intersect(r1).value.normal == tri.Intersect(r2).value.normal
  {
  }

  // ---------------------------------------------------------------------
  // The triangle of the unit test: (0,0,0), (1,0,0), (0,1,0), rays along +z

  const UNIT_TEST_TRIANGLE := Triangle(ZERO, Vec3(1.0, 0.0, 0.0), Vec3(0.0, 1.0, 0.0))

  /** With the cross product as written, `e2 × e1` is the zero vector
      rather than (0, 0, -1), so in f32 every reported normal is NaN;
      the model's `Normalized` returns the zero vector unchanged. */
  lemma UnitTestNormal()
    ensures UNIT_TEST_TRIANGLE.Edge2().Cross(UNIT_TEST_TRIANGLE.Edge1()) == ZERO
    ensures UNIT_TEST_TRIANGLE.FaceNormal() == ZERO
  {
    assert UNIT_TEST_TRIANGLE.Edge1() == Vec3(1.0, 0.0, 0.0) && UNIT_TEST_TRIANGLE.Edge2() == Vec3(0.0, 1.0, 0.0);
    ZeroNormalized();
  }

  /** For a ray along +z the determinant is -1, u is the origin's x and
      t the negated origin's z; v is always 0, where the standard cross
      product would give the origin's y. */
  lemma UnitTestCoordinates(origin: Vec3, minDistance: real, maxDistance: real)
    ensures UNIT_TEST_TRIANGLE.Determinant(Ray(origin, PLUS_Z, minDistance, maxDistance)) == -1.0
    ensures UNIT_TEST_TRIANGLE.U(Ray(origin, PLUS_Z, minDistance, maxDistance)) == origin.x
    ensures UNIT_TEST_TRIANGLE.V(Ray(origin, PLUS_Z, minDistance, maxDistance)) == 0.0
    ensures UNIT_TEST_TRIANGLE.T(Ray(origin, PLUS_Z, minDistance, maxDistance)) == -origin.z
  {
  }

  /** A ray along +z is reported as a hit exactly when its origin's x is in
      [0, 1] and -z lies in its interval, whatever the origin's y. */
  lemma {:induction false} UnitTestHit(origin: Vec3, minDistance: real, maxDistance: real)
    ensures UNIT_TEST_TRIANGLE.Intersect(Ray(origin, PLUS_Z, minDistance, maxDistance)).Some?
        <==> 0.0 <= origin.x <= 1.0 && minDistance < -origin.z < maxDistance
  {
    UnitTestCoordinates(origin, minDistance, maxDistance);
  }

  /** A reported hit is at distance -z. */
  lemma {:induction false} UnitTestHitDistance(origin: Vec3, minDistance: real, maxDistance: real)
    ensures UNIT_TEST_TRIANGLE.Intersect(Ray(origin, PLUS_Z, minDistance, maxDistance)).Some? ==>
            UNIT_TEST_TRIANGLE.Intersect(Ray(origin, PLUS_Z, minDistance, maxDistance)).value.distance == -origin.z
  {
    UnitTestCoordinates(origin, minDistance, maxDistance);
  }

  /** A reported hit lies in the plane z = 0, straight ahead of the origin. */
  lemma {:induction false} UnitTestHitPoint(origin: Vec3, minDistance: real, maxDistance: real)
    ensures UNIT_TEST_TRIANGLE.Intersect(Ray(origin, PLUS_Z, minDistance, maxDistance)).Some? ==>
            UNIT_TEST_TRIANGLE.Intersect(Ray(origin, PLUS_Z, minDistance, maxDistance)).value.point == Vec3(origin.x, origin.y, 0.0)
  {
    var ray := Ray(origin, PLUS_Z, minDistance, maxDistance);
    UnitTestHitDistance(origin, minDistance, maxDistance);
    if UNIT_TEST_TRIANGLE.Intersect(ray).Some? {
      HitIsInside(UNIT_TEST_TRIANGLE, ray);
      assert ray.At(-origin.z) == Vec3(origin.x, origin.y, 0.0);
    }
  }

  /** The ray of the unit test, from (0.1, 0.1, -0.1), hits at parameter
      0.1 exactly when 0.1 lies in its interval. */
  lemma {:induction false} UnitTestRay(minDistance: real, maxDistance: real)
    ensures UNIT_TEST_TRIANGLE.Intersect(Ray(Vec3(0.1, 0.1, -0.1), PLUS_Z, minDistance, maxDistance)).Some?
        <==> minDistance < 0.1 < maxDistance
  {
    UnitTestHit(Vec3(0.1, 0.1, -0.1), minDistance, maxDistance);
  }

  /** As written, a ray from (0.5, 5, -1) is reported to hit the triangle
      at (0.5, 5, 0), a point far outside it (x + y > 1). */
  lemma {:induction false} HitOutsideAsWritten(minDistance: real, maxDistance: real)
    requires minDistance < 1.0 < maxDistance
    ensures UNIT_TEST_TRIANGLE.Intersect(Ray(Vec3(0.5, 5.0, -1.0), PLUS_Z, minDistance, maxDistance)).Some?
    ensures UNIT_TEST_TRIANGLE.Intersect(Ray(Vec3(0.5, 5.0, -1.0), PLUS_Z, minDistance, maxDistance)).value.point == Vec3(0.5, 5.0, 0.0)
  {
    UnitTestHit(Vec3(0.5, 5.0, -1.0), minDistance, maxDistance);
    UnitTestHitPoint(Vec3(0.5, 5.0, -1.0), minDistance, maxDistance);
  }
}

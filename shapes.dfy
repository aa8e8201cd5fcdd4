/** The `Geometry` interface (src/geometry/mod.rs): a boxed primitive
    answers `intersect`, `does_intersect` and `get_bounds`. The dynamic
    dispatch over the primitives of the crate is a datatype with one case
    per primitive. */
module Shapes {
  import opened Numbers
  import opened Wrappers
  import opened Vector3
  import opened Rays
  import opened Hits
  import opened Spheres
  import opened Triangles

  datatype Shape = SphereShape(sphere: Sphere) | TriangleShape(triangle: Triangle) {

    /** `intersect`: every reported hit lies strictly inside the ray
        interval at `at(distance)`. */
    function Intersect(ray: Ray): (hit: Option<Hit>)
      ensures hit.Some? ==> ray.minDistance < hit.value.distance < ray.maxDistance
      ensures hit.Some? ==> hit.value.point == ray.At(hit.value.distance)
    {
      match this
      case SphereShape(s) => s.Intersect(ray)
      case TriangleShape(t) => t.Intersect(ray)
    }

    /** `does_intersect`: for a triangle exactly whether `intersect`
        reports a hit; for either primitive only on a nonempty interval. */
    function DoesIntersect(ray: Ray): (b: bool)
      ensures TriangleShape? ==> (b <==> Intersect(ray).Some?)
      ensures b ==> ray.minDistance < ray.maxDistance
    {
      match this
      case SphereShape(s) => s.DoesIntersect(ray)
      case TriangleShape(t) => t.DoesIntersect(ray)
    }

    /** `get_bounds`: the box holds a triangle's three vertices, and the
        center of a sphere of non-negative radius. */
    function GetBounds(): (box: Aabb)
      ensures TriangleShape? ==> box.Contains(triangle.v0) && box.Contains(triangle.v1) && box.Contains(triangle.v2)
      ensures SphereShape? && 0.0 <= sphere.radius ==> box.Contains(sphere.center)
    {
      match this
      case SphereShape(s) => s.GetBounds()
      case TriangleShape(t) => t.GetBounds()
    }
  }

  /** A triangle answers `does_intersect` as `intersect(..).is_some()`; a
      sphere does so whenever the ray passes through its center, and may
      disagree otherwise. */
  lemma {:induction false} DoesIntersectAgrees(shape: Shape, ray: Ray)
    requires SqrtLaws()
    requires shape.TriangleShape? || shape.sphere.HeightSquared(ray) == 0.0
    ensures shape.DoesIntersect(ray) == shape.Intersect(ray).Some?
  {
    if shape.SphereShape? {
      SquareNonNegative(shape.sphere.radius);
      CandidatesAgreeIffCentral(shape.sphere, ray);
    }
  }
}

/** The debug shading integrator (src/integrators/simple_shade.rs): red
    is the cosine between the ray and the hit normal, green its negation,
    blue zero. The world's `does_intersect` is consulted only to report a
    disagreement with `intersect`; that report is `ReportsMismatch`, and
    the printing itself is not modelled. */
module SimpleShade {
  import opened Numbers
  import opened Wrappers
  import opened Vector3
  import opened Rays
  import opened Hits
  import opened Colors
  import opened Spheres
  import opened Triangles
  import opened Shapes

  /** `intersect`: the colour for the world's answers to one ray. */
  function Shade(intersect: Ray -> Option<Hit>, doesIntersect: Ray -> bool, ray: Ray): (color: Color)
    ensures intersect(ray).None? ==> color == BLACK
    ensures intersect(ray).Some? ==> color.r == ray.direction.Dot(intersect(ray).value.normal)
    ensures color.g == -color.r && color.b == 0.0
  {
    var hit := intersect(ray);
    if hit.Some? then
      Color(ray.direction.Dot(hit.value.normal), -ray.direction.Dot(hit.value.normal), 0.0)
    else
      Color(0.0, 0.0, 0.0)
  }

  /** Whether the diagnostic fires: the two answers disagree. */
  predicate ReportsMismatch(intersect: Ray -> Option<Hit>, doesIntersect: Ray -> bool, ray: Ray)
  {
    intersect(ray).Some? != doesIntersect(ray)
  }

  /** The colour depends only on `intersect`. */
  lemma ShadeIgnoresDoesIntersect(intersect: Ray -> Option<Hit>, d1: Ray -> bool, d2: Ray -> bool, ray: Ray)
    ensures Shade(intersect, d1, ray) == Shade(intersect, d2, ray)
  {
  }

  /** A triangle never makes the diagnostic fire. */
  lemma TriangleNeverMismatches(tri: Triangle, ray: Ray)
    ensures !ReportsMismatch((r: Ray) => tri.Intersect(r), (r: Ray) => tri.DoesIntersect(r), ray)
  {
  }

  /** The unit sphere does, on the ray from (-2, 0.6, 0) along +x with
      interval (1, 2): `intersect` reports a hit and `does_intersect`
      does not. The shaded colour there is red -0.8, from the entry normal
      (-0.8, 0.6, 0). */
  lemma {:induction false} SphereMismatches()
    requires SqrtLaws()
    ensures ReportsMismatch((r: Ray) => UNIT_SPHERE.Intersect(r), (r: Ray) => UNIT_SPHERE.DoesIntersect(r),
                            Ray(Vec3(-2.0, 0.6, 0.0), Vec3(1.0, 0.0, 0.0), 1.0, 2.0))
    ensures Shade((r: Ray) => UNIT_SPHERE.Intersect(r), (r: Ray) => UNIT_SPHERE.DoesIntersect(r),
                  Ray(Vec3(-2.0, 0.6, 0.0), Vec3(1.0, 0.0, 0.0), 1.0, 2.0)) == Color(-0.8, 0.8, 0.0)
  {
    var ray := Ray(Vec3(-2.0, 0.6, 0.0), Vec3(1.0, 0.0, 0.0), 1.0, 2.0);
    CandidatesDisagree();
    var hit := UNIT_SPHERE.Intersect(ray).value;
    assert hit.point == ray.At(1.2) == Vec3(-0.8, 0.6, 0.0);
    var offset := hit.point.Minus(ZERO);
    assert offset == Vec3(-0.8, 0.6, 0.0);
    assert offset.LengthSquared() == 1.0;
    NormalizedUnit(offset);
    assert hit.normal == Vec3(-0.8, 0.6, 0.0);
  }
}

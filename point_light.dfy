/** Point lights (src/lights/point.rs). `sample` fires a shadow ray from
    the shaded point towards the light and asks the world only whether
    something is hit (`does_intersect`); that query is the parameter
    `occluded`. */
module Lights {
  import opened Numbers
  import opened VecOps
  import opened Vector3
  import opened Rays
  import opened Colors

  datatype PointLight = PointLight(center: Vec3, intensity: Color) {

    /** The shadow ray: from `point` towards the center, its interval
        ending at the light. `Ray::new` asserts the direction is nonzero,
        so the light must not sit at the point. */
    function ShadowRay(point: Vec3): (r: Ray)
      requires center.Minus(point).LengthSquared() != 0.0
      ensures r.origin == point && r.minDistance == DEFAULT_MIN_DISTANCE
      ensures r.maxDistance == center.Minus(point).Length()
      ensures SqrtLaws() ==> r.direction.LengthSquared() == 1.0
    {
      var direction := center.Minus(point);
      Ray.New(point, direction, DEFAULT_MIN_DISTANCE, direction.Length())
    }

    /** `sample`: the arriving colour and the unit direction to the
        light. */
    function Sample(point: Vec3, occluded: Ray -> bool): (sample: (Color, Vec3))
      requires center.Minus(point).LengthSquared() != 0.0
      ensures sample.1 == center.Minus(point).Normalized()
      ensures occluded(ShadowRay(point)) ==> sample.0 == BLACK
      ensures !occluded(ShadowRay(point)) ==> sample.0.Scale(center.Minus(point).LengthSquared()) == intensity
    {
      var direction := center.Minus(point);
      var hit := occluded(Ray.New(point, direction, DEFAULT_MIN_DISTANCE, direction.Length()));
      if !hit then
        (intensity.Div(direction.LengthSquared()), direction.Normalized())
      else
        (Color(0.0, 0.0, 0.0), direction.Normalized())
    }
  }

  // ---------------------------------------------------------------------
  // Properties of the light sample

  /** The shadow ray starts at the point, has unit direction, and its
      interval ends exactly at the light: `at(max_distance)` is the
      center, at the positive distance |center - point|. */
  lemma {:induction false} ShadowRayReachesLight(light: PointLight, point: Vec3)
    requires SqrtLaws()
    requires light.center.Minus(point).LengthSquared() != 0.0
    ensures light.ShadowRay(point).origin == point
    ensures light.ShadowRay(point).direction.LengthSquared() == 1.0
    ensures light.ShadowRay(point).minDistance == DEFAULT_MIN_DISTANCE
    ensures light.ShadowRay(point).maxDistance == light.center.Minus(point).Length() > 0.0
    ensures light.ShadowRay(point).At(light.ShadowRay(point).maxDistance) == light.center
  {
    var direction := light.center.Minus(point);
    NewStoresUnitDirection(point, direction, DEFAULT_MIN_DISTANCE, direction.Length());
    var l := direction.Length();
    ScaledBack(l, direction);
  }

  /** Scaling by l undoes scaling by 1 / l. */
  lemma ScaledBack(l: real, v: Vec3)
    requires l != 0.0
    ensures Scaled(l, Scaled(1.0 / l, v)) == v
  {
    var k := 1.0 / l;
    assert l * k == 1.0;
    assert l * (k * v.x) == (l * k) * v.x;
    assert l * (k * v.y) == (l * k) * v.y;
    assert l * (k * v.z) == (l * k) * v.z;
  }

  /** The sample depends on the world only through its answer for the one
      shadow ray. */
  lemma SampleOnlyAsksShadowRay(light: PointLight, point: Vec3, o1: Ray -> bool, o2: Ray -> bool)
    requires light.center.Minus(point).LengthSquared() != 0.0
    requires o1(light.ShadowRay(point)) == o2(light.ShadowRay(point))
    ensures light.Sample(point, o1) == light.Sample(point, o2)
  {
  }

  /** Inverse-square falloff: an unoccluded light at twice the distance
      delivers a quarter of the colour. */
  lemma {:induction false} InverseSquareFalloff(light: PointLight, p: Vec3, q: Vec3, occluded: Ray -> bool)
    requires light.center.Minus(p).LengthSquared() != 0.0
    requires light.center.Minus(q).LengthSquared() == 4.0 * light.center.Minus(p).LengthSquared()
    requires !occluded(light.ShadowRay(p)) && !occluded(light.ShadowRay(q))
    ensures light.Sample(q, occluded).0.Scale(4.0) == light.Sample(p, occluded).0
  {
    var s := light.center.Minus(p).LengthSquared();
    var cq := light.Sample(q, occluded).0;
    var cp := light.Sample(p, occluded).0;
    assert cq.Scale(4.0 * s) == light.intensity;
    assert cp.Scale(s) == light.intensity;
    QuarterScale(cq, cp, s);
  }

  lemma QuarterScale(cq: Color, cp: Color, s: real)
    requires s != 0.0
    requires cq.Scale(4.0 * s) == cp.Scale(s)
    ensures cq.Scale(4.0) == cp
  {
    CancelScale(cq.r * 4.0, cp.r, s);
    CancelScale(cq.g * 4.0, cp.g, s);
    CancelScale(cq.b * 4.0, cp.b, s);
  }

  lemma CancelScale(a: real, b: real, s: real)
    requires s != 0.0 && a * s == b * s
    ensures a == b
  {
    assert (a - b) * s == 0.0;
  }
}

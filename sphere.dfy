/** Spheres (src/geometry/sphere.rs): a closest-approach test, the entry
    root of the intersection, the interval check, and the bounding box.
    `does_intersect` takes its candidate with `radius2 + height2` under
    the root where `intersect` has `radius2 - height2`; both are modelled
    as written. */
module Spheres {
  import opened Numbers
  import opened Wrappers
  import opened VecOps
  import opened Vector3
  import opened Rays
  import opened Hits

  datatype Sphere = Sphere(center: Vec3, radius: real) {

    /** `-(origin - center) · direction`: for a unit direction, the
        parameter of the point of the ray closest to the center. */
    function ClosestApproach(ray: Ray): real
    {
      -ray.origin.Minus(center).Dot(ray.direction)
    }

    /** Squared distance from the center to the point at the closest
        approach; never negative. */
    function HeightSquared(ray: Ray): (h: real)
      ensures 0.0 <= h
    {
      LengthSquaredIsSelfDot(center.Minus(ray.At(ClosestApproach(ray))));
      center.Minus(ray.At(ClosestApproach(ray))).LengthSquared()
    }

    function Radius2(): real
    {
      radius * radius
    }

    /** The entry root that `intersect` reports: when the closest
        approach is inside the sphere, it is never beyond it. */
    function EntryDistance(ray: Ray): (t: real)
      ensures SqrtLaws() && HeightSquared(ray) <= Radius2() ==> t <= ClosestApproach(ray)
    {
      assert SqrtLaws() && HeightSquared(ray) <= Radius2() ==> 0.0 <= Sqrt(Radius2() - HeightSquared(ray)) by {
        if SqrtLaws() && HeightSquared(ray) <= Radius2() {
          SqrtSquared(Radius2() - HeightSquared(ray), Sqrt(Radius2() - HeightSquared(ray)));
        }
      }
      ClosestApproach(ray) - Sqrt(Radius2() - HeightSquared(ray))
    }

    /** The candidate that `does_intersect` checks, as written: never
        beyond the closest approach, and never beyond the entry root, so
        the shadow test looks at least as far back as `intersect`. */
    function ShadowCandidate(ray: Ray): (t: real)
      ensures SqrtLaws() ==> t <= ClosestApproach(ray)
      ensures SqrtLaws() && HeightSquared(ray) <= Radius2() ==> t <= EntryDistance(ray)
    {
      assert SqrtLaws() ==> 0.0 <= Sqrt(Radius2() + HeightSquared(ray)) by {
        if SqrtLaws() {
          SquareNonNegative(radius);
          SqrtSquared(Radius2() + HeightSquared(ray), Sqrt(Radius2() + HeightSquared(ray)));
        }
      }
      assert SqrtLaws() && HeightSquared(ray) <= Radius2() ==>
             Sqrt(Radius2() - HeightSquared(ray)) <= Sqrt(Radius2() + HeightSquared(ray)) by {
        if SqrtLaws() && HeightSquared(ray) <= Radius2() {
          SqrtMonotone(Radius2() - HeightSquared(ray), Radius2() + HeightSquared(ray));
        }
      }
      ClosestApproach(ray) - Sqrt(Radius2() + HeightSquared(ray))
    }

    /** `intersect`: no hit when the closest approach passes outside the
        sphere; otherwise the entry root, if it lies in the interval, with
        the normal pointing from the center to the hit point. */
    function Intersect(ray: Ray): (hit: Option<Hit>)
      ensures HeightSquared(ray) > Radius2() ==> hit == None
      ensures hit.Some? <==> HeightSquared(ray) <= Radius2() && ray.minDistance < EntryDistance(ray) < ray.maxDistance
      ensures hit.Some? ==> hit.value.distance == EntryDistance(ray) && hit.value.point == ray.At(EntryDistance(ray))
      ensures hit.Some? ==> hit.value.normal == hit.value.point.Minus(center).Normalized()
    {
      var distance := ClosestApproach(ray);
      var height2 := HeightSquared(ray);
      var radius2 := Radius2();
      if height2 > radius2 then None
      else
        var hitDistance := distance - Sqrt(radius2 - height2);
        if hitDistance > ray.minDistance && hitDistance < ray.maxDistance then
          var hitPoint := ray.At(hitDistance);
          Some(Hit(hitPoint, hitPoint.Minus(center).Normalized(), hitDistance))
        else
          None
    }

    /** `does_intersect`, with its own candidate. */
    function DoesIntersect(ray: Ray): (b: bool)
      ensures HeightSquared(ray) > Radius2() ==> !b
      ensures b <==> HeightSquared(ray) <= Radius2() && ray.minDistance < ShadowCandidate(ray) < ray.maxDistance
    {
      var distance := ClosestApproach(ray);
      var height2 := HeightSquared(ray);
      var radius2 := Radius2();
      if height2 > radius2 then false
      else
        var hitDistance := distance - Sqrt(radius2 + height2);
        hitDistance > ray.minDistance && hitDistance < ray.maxDistance
    }

    /** `get_bounds`: the center minus and plus the radius, componentwise. */
    function GetBounds(): (box: Aabb)
      ensures forall i :: 0 <= i < 3 ==> box.min.At(i) == center.At(i) - radius && box.max.At(i) == center.At(i) + radius
      ensures 0.0 <= radius ==> box.Contains(center)
    {
      Aabb(center.CombineScalar(Sub, radius), center.CombineScalar(Add, radius))
    }
  }

  // ---------------------------------------------------------------------
  // Geometry of the ray against the sphere

  /** `(w + t d)^2` expanded. */
  lemma ExpandSquare(w: real, d: real, t: real)
    ensures (w + t * d) * (w + t * d) == w * w + 2.0 * t * (w * d) + t * t * (d * d)
  {
  }

  /** |w + t d|^2 = |w|^2 + 2 t (w . d) + t^2 |d|^2, on coordinates
      (q = w + t d). */
  lemma {:induction false} ExpandLengthCoordinates(w: Vec3, d: Vec3, q: Vec3, t: real)
    requires q.x == w.x + t * d.x && q.y == w.y + t * d.y && q.z == w.z + t * d.z
    ensures q.LengthSquared() == w.LengthSquared() + 2.0 * t * w.Dot(d) + t * t * d.LengthSquared()
  {
    ExpandSquareSum(w.x, w.y, w.z, d.x, d.y, d.z, q.x, q.y, q.z, t);
  }

  lemma {:induction false} ExpandSquareSum(wx: real, wy: real, wz: real, dx: real, dy: real, dz: real,
                                           qx: real, qy: real, qz: real, t: real)
    requires qx == wx + t * dx && qy == wy + t * dy && qz == wz + t * dz
    ensures qx * qx + qy * qy + qz * qz
         == (wx * wx + wy * wy + wz * wz) + 2.0 * t * (wx * dx + wy * dy + wz * dz) + t * t * (dx * dx + dy * dy + dz * dz)
  {
    ExpandSquare(wx, dx, t);
    ExpandSquare(wy, dy, t);
    ExpandSquare(wz, dz, t);
    Distribute3(2.0 * t, wx * dx, wy * dy, wz * dz);
    Distribute3(t * t, dx * dx, dy * dy, dz * dz);
  }

  /** The same expansion on vectors. */
  lemma {:induction false} ExpandLength(w: Vec3, d: Vec3, t: real)
    ensures w.Plus(Scaled(t, d)).LengthSquared() == w.LengthSquared() + 2.0 * t * w.Dot(d) + t * t * d.LengthSquared()
  {
    ExpandLengthCoordinates(w, d, w.Plus(Scaled(t, d)), t);
  }

  lemma Distribute3(a: real, x: real, y: real, z: real)
    ensures a * x + a * y + a * z == a * (x + y + z)
  {
  }

  /** `at(t) - c` is `(origin - c) + t direction`. */
  lemma AtMinus(ray: Ray, c: Vec3, t: real)
    ensures ray.At(t).Minus(c) == ray.origin.Minus(c).Plus(Scaled(t, ray.direction))
  {
  }

  /** `c - p` and `p - c` have the same squared length. */
  lemma MinusSwapLength(c: Vec3, p: Vec3)
    ensures c.Minus(p).LengthSquared() == p.Minus(c).LengthSquared()
  {
    NegatedSquare(p.x - c.x);
    NegatedSquare(p.y - c.y);
    NegatedSquare(p.z - c.z);
  }

  /** The scalar identity behind Pythagoras along the ray: with
      n = |w|^2, dot = w . d = -m and |d|^2 = 1, the two expansions differ
      by (t - m)^2. */
  lemma CompleteSquare(n: real, dot: real, len: real, m: real, t: real)
    requires dot == -m && len == 1.0
    ensures n + 2.0 * t * dot + t * t * len == (n + 2.0 * m * dot + m * m * len) + (t - m) * (t - m)
  {
  }

  /** On a unit direction, the squared distance from the center to `at(t)`
      is the height plus the squared distance from t to the closest
      approach. */
  lemma {:induction false} DistanceAlongRay(s: Sphere, ray: Ray, t: real)
    requires ray.direction.LengthSquared() == 1.0
    ensures ray.At(t).Minus(s.center).LengthSquared()
         == s.HeightSquared(ray) + (t - s.ClosestApproach(ray)) * (t - s.ClosestApproach(ray))
  {
    var m := s.ClosestApproach(ray);
    var w := ray.origin.Minus(s.center);
    var d := ray.direction;
    var n := w.LengthSquared();
    var dot := w.Dot(d);
    var len := d.LengthSquared();
    assert ray.At(t).Minus(s.center).LengthSquared() == n + 2.0 * t * dot + t * t * len by {
      AtMinus(ray, s.center, t);
      ExpandLength(w, d, t);
    }
    assert s.HeightSquared(ray) == n + 2.0 * m * dot + m * m * len by {
      MinusSwapLength(s.center, ray.At(m));
      AtMinus(ray, s.center, m);
      ExpandLength(w, d, m);
    }
    CompleteSquare(n, dot, len, m, t);
  }

  // ---------------------------------------------------------------------
  // Properties of `intersect`, `does_intersect` and `get_bounds`

  /** A ray whose closest approach passes outside the sphere misses, by
      both tests. */
  lemma MissesAboveRadius(s: Sphere, ray: Ray)
    requires s.HeightSquared(ray) > s.Radius2()
    ensures s.Intersect(ray) == None && !s.DoesIntersect(ray)
  {
  }

  /** The reported hit is the entry root: never beyond the closest
      approach. */
  lemma {:induction false} EntryNotBeyondClosest(s: Sphere, ray: Ray)
    requires SqrtLaws()
    requires s.Intersect(ray).Some?
    ensures s.Intersect(ray).value.distance <= s.ClosestApproach(ray)
  {
    SqrtSquared(s.Radius2() - s.HeightSquared(ray), Sqrt(s.Radius2() - s.HeightSquared(ray)));
  }

  /** On a unit direction, every reported hit point lies on the sphere. */
  lemma {:induction false} HitOnSurface(s: Sphere, ray: Ray)
    requires SqrtLaws()
    requires ray.direction.LengthSquared() == 1.0
    requires s.Intersect(ray).Some?
    ensures s.Intersect(ray).value.point.Minus(s.center).LengthSquared() == s.Radius2()
  {
    var m := s.ClosestApproach(ray);
    var root := Sqrt(s.Radius2() - s.HeightSquared(ray));
    var e := m - root;
    SqrtSquared(s.Radius2() - s.HeightSquared(ray), root);
    assert s.Intersect(ray).value.point == ray.At(e);
    DistanceAlongRay(s, ray, e);
    ShiftedSquare(e, m, root);
  }

  lemma ShiftedSquare(e: real, m: real, root: real)
    requires e == m - root
    ensures (e - m) * (e - m) == root * root
  {
    NegatedSquare(root);
  }

  /** For a nonzero radius and a unit direction the reported normal has
      unit length: it is the offset from the center to the hit point
      divided by |radius|. */
  lemma {:induction false} HitNormalIsUnit(s: Sphere, ray: Ray)
    requires SqrtLaws()
    requires ray.direction.LengthSquared() == 1.0 && s.radius != 0.0
    requires s.Intersect(ray).Some?
    ensures s.Intersect(ray).value.normal.LengthSquared() == 1.0
    ensures s.Intersect(ray).value.point.Minus(s.center).Length() == Abs(s.radius)
    ensures s.Intersect(ray).value.normal == Scaled(1.0 / Abs(s.radius), s.Intersect(ray).value.point.Minus(s.center))
  {
    HitOnSurface(s, ray);
    NormalizedOfKnownLength(s.Intersect(ray).value.point.Minus(s.center), s.radius);
  }

  /** For a non-negative radius and a unit direction every reported hit
      point lies in the bounding box. */
  lemma {:induction false} HitInsideBounds(s: Sphere, ray: Ray)
    requires SqrtLaws()
    requires ray.direction.LengthSquared() == 1.0 && 0.0 <= s.radius
    requires s.Intersect(ray).Some?
    ensures s.GetBounds().Contains(s.Intersect(ray).value.point)
  {
    var p := s.Intersect(ray).value.point;
    HitOnSurface(s, ray);
    BallInsideBox(s.center, s.radius, p);
    assert s.GetBounds() == Aabb(Vec3(s.center.x - s.radius, s.center.y - s.radius, s.center.z - s.radius),
                                 Vec3(s.center.x + s.radius, s.center.y + s.radius, s.center.z + s.radius));
  }

  /** A point at distance r from c lies in the box c - r .. c + r. */
  lemma BallInsideBox(c: Vec3, r: real, p: Vec3)
    requires 0.0 <= r && p.Minus(c).LengthSquared() == r * r
    ensures Aabb(Vec3(c.x - r, c.y - r, c.z - r), Vec3(c.x + r, c.y + r, c.z + r)).Contains(p)
  {
    var offset := p.Minus(c);
    assert offset == Vec3(p.x - c.x, p.y - c.y, p.z - c.z);
    ComponentSquaresBounded(offset);
    SquareBound(offset.x, r);
    SquareBound(offset.y, r);
    SquareBound(offset.z, r);
  }

  /** The two candidates agree exactly when the ray passes through the
      center's closest point (height 0); otherwise the methods may
      disagree. */
  lemma {:induction false} CandidatesAgreeIffCentral(s: Sphere, ray: Ray)
    requires SqrtLaws()
    requires s.HeightSquared(ray) <= s.Radius2()
    ensures s.EntryDistance(ray) == s.ShadowCandidate(ray) <==> s.HeightSquared(ray) == 0.0
  {
    var h2 := s.HeightSquared(ray);
    var r2 := s.Radius2();
    LengthSquaredIsSelfDot(s.center.Minus(ray.At(s.ClosestApproach(ray))));
    SqrtSquared(r2 - h2, Sqrt(r2 - h2));
    SqrtSquared(r2 + h2, Sqrt(r2 + h2));
    if s.EntryDistance(ray) == s.ShadowCandidate(ray) {
      assert Sqrt(r2 - h2) == Sqrt(r2 + h2);
    }
  }

  // ---------------------------------------------------------------------
  // The sphere of the unit tests: center (0,0,0), radius 1

  const UNIT_SPHERE := Sphere(ZERO, 1.0)

  /** Along +z the closest approach to the unit sphere is at -z, and the
      height is the origin's distance from the z axis. */
  lemma UnitSphereAlongZ(origin: Vec3, minDistance: real, maxDistance: real)
    ensures UNIT_SPHERE.ClosestApproach(Ray(origin, PLUS_Z, minDistance, maxDistance)) == -origin.z
    ensures UNIT_SPHERE.HeightSquared(Ray(origin, PLUS_Z, minDistance, maxDistance))
         == origin.x * origin.x + origin.y * origin.y
  {
    var ray := Ray(origin, PLUS_Z, minDistance, maxDistance);
    assert ray.At(-origin.z) == Vec3(origin.x, origin.y, 0.0);
    NegatedSquare(origin.x);
    NegatedSquare(origin.y);
  }

  /** The `intersect` test: from (0.5, 0, -1) along +z the ray enters the
      sphere at 1 - sqrt(0.75), just above 0.133, and is reported exactly
      when that distance lies in its interval. */
  lemma {:induction false} UnitTestIntersect(minDistance: real, maxDistance: real)
    requires SqrtLaws()
    ensures UNIT_SPHERE.EntryDistance(Ray(Vec3(0.5, 0.0, -1.0), PLUS_Z, minDistance, maxDistance)) == 1.0 - Sqrt(0.75)
    ensures 0.133 < 1.0 - Sqrt(0.75) < 0.134
    ensures UNIT_SPHERE.Intersect(Ray(Vec3(0.5, 0.0, -1.0), PLUS_Z, minDistance, maxDistance)).Some?
        <==> minDistance < 1.0 - Sqrt(0.75) < maxDistance
  {
    UnitSphereAlongZ(Vec3(0.5, 0.0, -1.0), minDistance, maxDistance);
    SqrtBetween(0.75, 0.866, 0.867);
  }

  /** The two candidates disagree on a concrete ray: from (-2, 0.6, 0)
      along +x with interval (1, 2), `intersect` reports the entry at 1.2
      while `does_intersect`, whose candidate 2 - sqrt(1.36) lies below 1,
      reports no hit. */
  lemma {:induction false} CandidatesDisagree()
    requires SqrtLaws()
    ensures UNIT_SPHERE.Intersect(Ray(Vec3(-2.0, 0.6, 0.0), Vec3(1.0, 0.0, 0.0), 1.0, 2.0)).Some?
    ensures UNIT_SPHERE.Intersect(Ray(Vec3(-2.0, 0.6, 0.0), Vec3(1.0, 0.0, 0.0), 1.0, 2.0)).value.distance == 1.2
    ensures !UNIT_SPHERE.DoesIntersect(Ray(Vec3(-2.0, 0.6, 0.0), Vec3(1.0, 0.0, 0.0), 1.0, 2.0))
  {
    var ray := Ray(Vec3(-2.0, 0.6, 0.0), Vec3(1.0, 0.0, 0.0), 1.0, 2.0);
    assert UNIT_SPHERE.ClosestApproach(ray) == 2.0;
    assert ray.At(2.0) == Vec3(0.0, 0.6, 0.0);
    assert UNIT_SPHERE.HeightSquared(ray) == 0.36;
    SqrtOfSquare(0.64, 0.8);
    SqrtBetween(1.36, 1.16, 1.17);
  }

  /** The `does_intersect1` test: from (-2, 0, 0) along (1, 0.5, 0) the
      stored direction is (a, a / 2, 0) with a * a = 0.8, and the candidate
      of `does_intersect` is 2a - sqrt(1.8), just above 0.447; the unit
      sphere is reported hit exactly when the interval contains it. */
  lemma {:induction false} UnitTestDoesIntersect(minDistance: real, maxDistance: real)
    requires SqrtLaws()
    ensures 0.447 < UNIT_SPHERE.ShadowCandidate(Ray.New(Vec3(-2.0, 0.0, 0.0), Vec3(1.0, 0.5, 0.0), minDistance, maxDistance)) < 0.448
    ensures UNIT_SPHERE.DoesIntersect(Ray.New(Vec3(-2.0, 0.0, 0.0), Vec3(1.0, 0.5, 0.0), minDistance, maxDistance))
        <==> minDistance < UNIT_SPHERE.ShadowCandidate(Ray.New(Vec3(-2.0, 0.0, 0.0), Vec3(1.0, 0.5, 0.0), minDistance, maxDistance)) < maxDistance
  {
    var origin := Vec3(-2.0, 0.0, 0.0);
    var dir := Vec3(1.0, 0.5, 0.0);
    var ray := Ray.New(origin, dir, minDistance, maxDistance);
    NewStoresUnitDirection(origin, dir, minDistance, maxDistance);
    var l := dir.Length();
    var a := 1.0 / l;
    assert ray.direction == Vec3(a * 1.0, a * 0.5, a * 0.0) by { ScaledFields(a, dir); }
    assert a * a == 0.8 by {
      assert dir.LengthSquared() == 1.25;
      SqrtSquared(1.25, l);
      InverseSquare(l, 1.25);
    }
    assert 0.0 < a;
    UnitTestDoesIntersectCoordinates(ray, a);
    assert UNIT_SPHERE.ShadowCandidate(ray) == 2.0 * a - Sqrt(1.8);
    SqrtOfSquare(0.8, a);
    SqrtBetween(0.8, 0.8944, 0.8945);
    SqrtBetween(1.8, 1.3416, 1.3417);
  }

  /** Closest approach and height of the `does_intersect1` ray, for its
      direction (a, a / 2, 0) with a * a = 0.8. */
  lemma UnitTestDoesIntersectCoordinates(ray: Ray, a: real)
    requires ray.origin == Vec3(-2.0, 0.0, 0.0) && ray.direction == Vec3(a * 1.0, a * 0.5, a * 0.0)
    requires a * a == 0.8
    ensures UNIT_SPHERE.ClosestApproach(ray) == 2.0 * a
    ensures UNIT_SPHERE.HeightSquared(ray) == 0.8
  {
    var d := ray.direction;
    assert d.x == a && d.y == 0.5 * a && d.z == 0.0;
    assert UNIT_SPHERE.ClosestApproach(ray) == 2.0 * a;
    assert (2.0 * a) * d.x == 1.6 && (2.0 * a) * d.y == 0.8 && (2.0 * a) * d.z == 0.0;
    assert ray.At(2.0 * a) == Vec3(-0.4, 0.8, 0.0);
    assert ZERO.Minus(Vec3(-0.4, 0.8, 0.0)) == Vec3(0.4, -0.8, 0.0);
  }
}

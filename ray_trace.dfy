/** The ray-trace integrator (src/integrators/ray_trace.rs): find the
    nearest hit of the primary ray in the world's geometry and add up, over
    every light, the light's sample weighted by the cosine between the hit
    normal and the direction to the light, divided by PI. The cosine is not
    clamped, so a light behind the surface subtracts colour. */
module RayTrace {
  import opened Numbers
  import opened Wrappers
  import opened Vector3
  import opened Rays
  import opened Hits
  import opened Colors
  import opened Shapes
  import opened Groups
  import opened Lights

  /** The world's `does_intersect`, answered by its geometry. */
  function Occluder(shapes: seq<Shape>): (occluded: Ray -> bool)
    ensures forall r :: occluded(r) <==> exists i :: 0 <= i < |shapes| && shapes[i].Intersect(r).Some?
  {
    (r: Ray) => Nearest(shapes, r).Some?
  }

  /** No light sits exactly at the point, as `Ray::new` demands of every
      shadow ray. */
  predicate LightsApart(point: Vec3, lights: seq<PointLight>)
  {
    forall l :: l in lights ==> l.center.Minus(point).LengthSquared() != 0.0
  }

  /** One light's term `c * (normal . dir) / PI`. */
  function Contribution(hit: Hit, light: PointLight, occluded: Ray -> bool): (c: Color)
    requires light.center.Minus(hit.point).LengthSquared() != 0.0
    ensures occluded(light.ShadowRay(hit.point)) ==> c == BLACK
    ensures c.Scale(PI) == light.Sample(hit.point, occluded).0.Scale(hit.normal.Dot(light.center.Minus(hit.point).Normalized()))
  {
    var (c, dir) := light.Sample(hit.point, occluded);
    c.Scale(hit.normal.Dot(dir)).Div(PI)
  }

  /** The accumulated colour after the lights of `lights`, in order. */
  function LightSum(hit: Hit, lights: seq<PointLight>, occluded: Ray -> bool): (c: Color)
    requires LightsApart(hit.point, lights)
    ensures (forall l :: l in lights ==> occluded(l.ShadowRay(hit.point))) ==> c == BLACK
  {
    if |lights| == 0 then BLACK
    else
      var last := lights[|lights| - 1];
      assert last in lights;
      LightSum(hit, lights[..|lights| - 1], occluded).Plus(Contribution(hit, last, occluded))
  }

  /** The colour `li` returns for a given nearest hit. */
  function Radiance(hit: Option<Hit>, lights: seq<PointLight>, occluded: Ray -> bool): (color: Color)
    requires hit.Some? ==> LightsApart(hit.value.point, lights)
    ensures hit.None? ==> color == BLACK
    ensures |lights| == 0 ==> color == BLACK
  {
    if hit.None? then BLACK else LightSum(hit.value, lights, occluded)
  }

  /** `li`: the loop of the source over the world's lights, proved to
      compute `Radiance` of the group's nearest hit, with every light
      sampled at that one hit point. */
  method Li(geometry: SimpleGroup, lights: seq<PointLight>, ray: Ray) returns (color: Color)
    requires Nearest(geometry.list, ray).Some? ==> LightsApart(Nearest(geometry.list, ray).value.point, lights)
    ensures color == Radiance(Nearest(geometry.list, ray), lights, Occluder(geometry.list))
    ensures Nearest(geometry.list, ray).None? ==> color == BLACK
    ensures |lights| == 0 ==> color == BLACK
  {
    color := BLACK;
    var found := geometry.Intersect(ray);
    if found.Some? {
      var hit := found.value;
      var world := Occluder(geometry.list);
      for i := 0 to |lights|
        invariant LightsApart(hit.point, lights[..i])
        invariant color == LightSum(hit, lights[..i], world)
      {
        assert lights[..i + 1][..i] == lights[..i];
        assert lights[i] in lights;
        var (c, dir) := lights[i].Sample(hit.point, world);
        color := color.Plus(c.Scale(hit.normal.Dot(dir)).Div(PI));
      }
      assert lights[..|lights|] == lights;
    }
  }

  // ---------------------------------------------------------------------
  // Properties of the accumulation

  /** Adding one more light adds its term. */
  lemma LightSumAppend(hit: Hit, lights: seq<PointLight>, light: PointLight, occluded: Ray -> bool)
    requires LightsApart(hit.point, lights + [light])
    ensures LightsApart(hit.point, lights)
    ensures LightSum(hit, lights + [light], occluded) == LightSum(hit, lights, occluded).Plus(Contribution(hit, light, occluded))
  {
    assert (lights + [light])[..|lights|] == lights;
  }

  /** There is no clamping: an unoccluded light of positive intensity
      lying behind the surface (negative cosine) lowers every channel. */
  lemma {:induction false} BacklightDarkens(hit: Hit, lights: seq<PointLight>, light: PointLight, occluded: Ray -> bool)
    requires LightsApart(hit.point, lights + [light])
    requires !occluded(light.ShadowRay(hit.point))
    requires 0.0 < light.intensity.r && 0.0 < light.intensity.g && 0.0 < light.intensity.b
    requires hit.normal.Dot(light.center.Minus(hit.point).Normalized()) < 0.0
    ensures LightsApart(hit.point, lights)
    ensures LightSum(hit, lights + [light], occluded).r < LightSum(hit, lights, occluded).r
    ensures LightSum(hit, lights + [light], occluded).g < LightSum(hit, lights, occluded).g
    ensures LightSum(hit, lights + [light], occluded).b < LightSum(hit, lights, occluded).b
  {
    var term := Contribution(hit, light, occluded);
    assert LightSum(hit, lights + [light], occluded) == LightSum(hit, lights, occluded).Plus(term) by {
      LightSumAppend(hit, lights, light, occluded);
    }
    BacklightTermNegative(hit, light, occluded);
  }

  /** The term of such a light is negative in every channel. */
  lemma {:induction false} BacklightTermNegative(hit: Hit, light: PointLight, occluded: Ray -> bool)
    requires light.center.Minus(hit.point).LengthSquared() != 0.0
    requires !occluded(light.ShadowRay(hit.point))
    requires 0.0 < light.intensity.r && 0.0 < light.intensity.g && 0.0 < light.intensity.b
    requires hit.normal.Dot(light.center.Minus(hit.point).Normalized()) < 0.0
    ensures Contribution(hit, light, occluded).r < 0.0
    ensures Contribution(hit, light, occluded).g < 0.0
    ensures Contribution(hit, light, occluded).b < 0.0
  {
    var s := light.center.Minus(hit.point).LengthSquared();
    var c := light.Sample(hit.point, occluded).0;
    var cos := hit.normal.Dot(light.center.Minus(hit.point).Normalized());
    assert Contribution(hit, light, occluded) == c.Scale(cos).Div(PI);
    assert c.Scale(s) == light.intensity;
    LengthSquaredIsSelfDot(light.center.Minus(hit.point));
    ScaledPositive(c.r, s, light.intensity.r);
    ScaledPositive(c.g, s, light.intensity.g);
    ScaledPositive(c.b, s, light.intensity.b);
    NegativeTerm(c.r, cos);
    NegativeTerm(c.g, cos);
    NegativeTerm(c.b, cos);
  }

  /** A channel that a non-negative factor scales to a positive intensity
      is itself positive. */
  lemma ScaledPositive(a: real, s: real, i: real)
    requires a * s == i && 0.0 < i && 0.0 <= s
    ensures 0.0 < a
  {
  }

  lemma NegativeTerm(a: real, cos: real)
    ensures 0.0 < a && cos < 0.0 ==> a * cos / PI < 0.0
  {
  }

  /** Over reals the order of the lights does not matter: any permutation
      gives the same colour. */
  lemma {:induction false} LightSumPermutation(hit: Hit, lights: seq<PointLight>, other: seq<PointLight>, occluded: Ray -> bool)
    requires LightsApart(hit.point, lights)
    requires multiset(lights) == multiset(other)
    ensures LightsApart(hit.point, other)
    ensures LightSum(hit, lights, occluded) == LightSum(hit, other, occluded)
  {
    assert LightsApart(hit.point, other) by {
      forall l | l in other
        ensures l in lights
      {
        assert l in multiset(other);
      }
    }
    LightSumIsTotal(hit, lights, occluded);
    LightSumIsTotal(hit, other, occluded);
    TotalPermutation(lights, other, TermOf(hit, occluded));
  }

  // ---------------------------------------------------------------------
  // Sums of per-light terms, for the order-independence proof

  /** The sum, in order, of a term for each light. */
  function Total(lights: seq<PointLight>, term: PointLight -> Color): Color
  {
    if |lights| == 0 then BLACK
    else Total(lights[..|lights| - 1], term).Plus(term(lights[|lights| - 1]))
  }

  /** The term of a light in `LightSum`, extended by black to a light at
      the point itself. */
  function TermOf(hit: Hit, occluded: Ray -> bool): PointLight -> Color
  {
    (l: PointLight) =>
      if l.center.Minus(hit.point).LengthSquared() != 0.0 then Contribution(hit, l, occluded) else BLACK
  }

  lemma {:induction false} LightSumIsTotal(hit: Hit, lights: seq<PointLight>, occluded: Ray -> bool)
    requires LightsApart(hit.point, lights)
    ensures LightSum(hit, lights, occluded) == Total(lights, TermOf(hit, occluded))
  {
    if |lights| > 0 {
      var init := lights[..|lights| - 1];
      assert LightsApart(hit.point, init) by {
        assert forall l :: l in init ==> l in lights;
      }
      assert lights[|lights| - 1] in lights;
      LightSumIsTotal(hit, init, occluded);
    }
  }

  lemma TotalAppend(lights: seq<PointLight>, light: PointLight, term: PointLight -> Color)
    ensures Total(lights + [light], term) == Total(lights, term).Plus(term(light))
  {
    assert (lights + [light])[..|lights|] == lights;
  }

  /** The term of any one light can be taken out of the sum. */
  lemma {:induction false} TotalRemove(lights: seq<PointLight>, i: nat, term: PointLight -> Color)
    requires i < |lights|
    ensures Total(lights, term) == Total(lights[..i] + lights[i + 1..], term).Plus(term(lights[i]))
  {
    var n := |lights|;
    var rest := lights[..i] + lights[i + 1..];
    var init := lights[..n - 1];
    var last := lights[n - 1];
    if i == n - 1 {
      assert rest == init;
    } else {
      assert init[i] == lights[i];
      TotalRemove(init, i, term);
      var initRest := init[..i] + init[i + 1..];
      assert rest == initRest + [last];
      TotalAppend(initRest, last, term);
      SwapLast(Total(initRest, term), term(lights[i]), term(last));
    }
  }

  lemma {:induction false} TotalPermutation(lights: seq<PointLight>, other: seq<PointLight>, term: PointLight -> Color)
    requires multiset(lights) == multiset(other)
    ensures Total(lights, term) == Total(other, term)
    decreases |lights|
  {
    var n := |other|;
    assert n == |lights| by {
      assert |multiset(other)| == |multiset(lights)|;
    }
    if n > 0 {
      var init := other[..n - 1];
      var last := other[n - 1];
      assert other == init + [last];
      assert last in multiset(lights) by {
        assert last in multiset(other);
      }
      var i :| 0 <= i < |lights| && lights[i] == last;
      var rest := lights[..i] + lights[i + 1..];
      TotalRemove(lights, i, term);
      assert multiset(rest) == multiset(init) by {
        assert lights == lights[..i] + [last] + lights[i + 1..];
        assert multiset(lights) == multiset(rest) + multiset{last};
        assert multiset(other) == multiset(init) + multiset{last};
        MultisetCancel(multiset(rest), multiset(init), last);
      }
      TotalPermutation(rest, init, term);
      TotalAppend(init, last, term);
    }
  }

  lemma MultisetCancel<T>(a: multiset<T>, b: multiset<T>, x: T)
    requires a + multiset{x} == b + multiset{x}
    ensures a == b
  {
    assert a == (a + multiset{x}) - multiset{x};
    assert b == (b + multiset{x}) - multiset{x};
  }

  lemma SwapLast(a: Color, x: Color, y: Color)
    ensures a.Plus(x).Plus(y) == a.Plus(y).Plus(x)
  {
  }
}

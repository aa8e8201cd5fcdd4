/** The Lambertian material (src/materials/lambertian.rs): the incoming
    colour scaled by the cosine between the light direction and the
    normal, with no clamping. The stored colour and the outgoing direction
    are not used. */
module Materials {
  import opened Vector3
  import opened Colors

  datatype Lambertian = Lambertian(color: Color) {

    /** `brdf`: per channel, the incoming channel times `light_in . normal`. */
    function Brdf(colorIn: Color, lightIn: Vec3, lightOut: Vec3, normal: Vec3): (c: Color)
      ensures c.r == colorIn.r * lightIn.Dot(normal)
      ensures c.g == colorIn.g * lightIn.Dot(normal)
      ensures c.b == colorIn.b * lightIn.Dot(normal)
    {
      colorIn.Scale(lightIn.Dot(normal))
    }
  }

  /** Neither the outgoing direction nor the stored colour affects the
      result. */
  lemma BrdfIgnoresOutAndColor(m1: Lambertian, m2: Lambertian, colorIn: Color, lightIn: Vec3, out1: Vec3, out2: Vec3, normal: Vec3)
    ensures m1.Brdf(colorIn, lightIn, out1, normal) == m2.Brdf(colorIn, lightIn, out2, normal)
  {
  }

  /** No clamping: light from behind the surface gives negative channels
      for a positive incoming colour, and a light perpendicular to the
      normal gives black. */
  lemma BrdfSign(m: Lambertian, colorIn: Color, lightIn: Vec3, lightOut: Vec3, normal: Vec3)
    requires 0.0 < colorIn.r && 0.0 < colorIn.g && 0.0 < colorIn.b
    ensures lightIn.Dot(normal) < 0.0 ==>
              var c := m.Brdf(colorIn, lightIn, lightOut, normal); c.r < 0.0 && c.g < 0.0 && c.b < 0.0
    ensures lightIn.Dot(normal) == 0.0 ==> m.Brdf(colorIn, lightIn, lightOut, normal) == BLACK
  {
  }

  /** The result is linear in the incoming colour and symmetric in the
      light direction and the normal. */
  lemma BrdfLinear(m: Lambertian, a: Color, b: Color, lightIn: Vec3, lightOut: Vec3, normal: Vec3)
    ensures m.Brdf(a.Plus(b), lightIn, lightOut, normal)
         == m.Brdf(a, lightIn, lightOut, normal).Plus(m.Brdf(b, lightIn, lightOut, normal))
    ensures m.Brdf(a, lightIn, lightOut, normal) == m.Brdf(a, normal, lightOut, lightIn)
  {
    DotSymmetric(lightIn, normal);
  }
}

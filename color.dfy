/** RGB colours (src/color.rs) and their quantisation to bytes. color.rs
    defines only `new` and `to_u8`; the light and
    the integrator also use `Color::BLACK`, `+=`, `* f32` and `/ f32`,
    which are modelled here componentwise. */
module Colors {
  import opened Numbers

  newtype uint8 = x: int | 0 <= x < 0x100

  datatype Color = Color(r: real, g: real, b: real) {

    /** `+` and `+=`: BLACK adds nothing on either side (and the sum is
        a commutative monoid, by `PlusMonoid`). */
    function Plus(rhs: Color): (c: Color)
      ensures rhs == BLACK ==> c == this
      ensures this == BLACK ==> c == rhs
    {
      Color(r + rhs.r, g + rhs.g, b + rhs.b)
    }

    /** `* f32`: scaling by 1 keeps the colour and scaling by 0 gives
        BLACK. */
    function Scale(s: real): (c: Color)
      ensures s == 1.0 ==> c == this
      ensures s == 0.0 ==> c == BLACK
    {
      Color(r * s, g * s, b * s)
    }

    /** `/ f32`, undone by scaling back; a zero divisor would give
        infinities in f32, or NaN for a zero channel. */
    function Div(s: real): (c: Color)
      requires s != 0.0
      ensures c.Scale(s) == this
    {
      Color(r / s, g / s, b / s)
    }

    /** `to_u8`: the three channels, each quantised on its own. */
    function ToU8(): (bytes: seq<uint8>)
      ensures |bytes| == 3
      ensures forall i :: 0 <= i < 3 ==> bytes[i] as real <= Channel(i) * 255.0 < bytes[i] as real + 1.0
    {
      [ChannelToU8(r), ChannelToU8(g), ChannelToU8(b)]
    }

    /** Channel `i` clamped to [0, 1]. */
    function Channel(i: nat): (c: real)
      requires i < 3
      ensures 0.0 <= c <= 1.0
    {
      Clamp(if i == 0 then r else if i == 1 then g else b, 0.0, 1.0)
    }
  }

  const BLACK := Color(0.0, 0.0, 0.0)

  /** `(c.clamp(0., 1.) * 255.) as u8`: the cast truncates toward zero,
      which on a non-negative value is the floor. */
  function ChannelToU8(c: real): (byte: uint8)
    ensures byte as real <= Clamp(c, 0.0, 1.0) * 255.0 < byte as real + 1.0
    ensures c <= 0.0 ==> byte == 0
    ensures 1.0 <= c ==> byte == 255
  {
    var scaled := Clamp(c, 0.0, 1.0) * 255.0;
    scaled.Floor as uint8
  }

  // ---------------------------------------------------------------------
  // Properties of the quantisation

  /** A brighter channel never gives a smaller byte. */
  lemma {:induction false} ChannelMonotone(a: real, b: real)
    requires a <= b
    ensures ChannelToU8(a) <= ChannelToU8(b)
  {
    var sa := Clamp(a, 0.0, 1.0) * 255.0;
    var sb := Clamp(b, 0.0, 1.0) * 255.0;
    assert Clamp(a, 0.0, 1.0) <= Clamp(b, 0.0, 1.0);
    assert sa <= sb;
  }

  /** The cast truncates: half intensity gives 127, not the rounded 128;
      just below 1 still gives 254. */
  lemma Truncates()
    ensures ChannelToU8(0.5) == 127
    ensures ChannelToU8(0.999) == 254
  {
  }

  /** Each byte depends on its own channel only. */
  lemma ChannelsIndependent(c: Color, d: Color)
    ensures c.r == d.r ==> c.ToU8()[0] == d.ToU8()[0]
    ensures c.g == d.g ==> c.ToU8()[1] == d.ToU8()[1]
    ensures c.b == d.b ==> c.ToU8()[2] == d.ToU8()[2]
  {
  }

  /** `+` makes colours a commutative monoid with unit BLACK. */
  lemma PlusMonoid(a: Color, b: Color, c: Color)
    ensures a.Plus(b) == b.Plus(a)
    ensures a.Plus(b).Plus(c) == a.Plus(b.Plus(c))
    ensures a.Plus(BLACK) == a && BLACK.Plus(a) == a
  {
  }
}

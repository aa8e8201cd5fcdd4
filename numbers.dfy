/** Scalars of the ray tracer: every f32 of the source is a `real` here.
    The constants of src/math/mod.rs and the f32 helpers (`abs`, `min`,
    `max`, `clamp`, `sqrt`) live in this module. */
module Numbers {

  /** The parallel-ray threshold of the triangle test (src/math/mod.rs:10). */
  const EPSILON: real := 0.0000001

  /** `std::f32::consts::PI`; the model only uses that it is positive. */
  const PI: real := 3.1415927

  /** The square root of f32. Its value is left open: nothing is known of it
      except what `SqrtLaws` states, and every proof that needs a fact about
      square roots takes `SqrtLaws()` as a hypothesis. */
  const SqrtFunction: real -> real

  function Sqrt(x: real): real
  {
    SqrtFunction(x)
  }

  /** `Sqrt` under another name, so that the laws below are instantiated
      only where a proof names `RootOf`, that is through `SqrtSquared`. */
  ghost function RootOf(x: real): real
  {
    Sqrt(x)
  }

  /** The laws of the square root on non-negative arguments. */
  ghost predicate SqrtLaws()
  {
    forall x :: 0.0 <= x ==> 0.0 <= RootOf(x) && RootOf(x) * RootOf(x) == x
  }

  function Abs(a: real): (r: real)
    ensures 0.0 <= r
    ensures r == a || r == -a
  {
    if a < 0.0 then -a else a
  }

  /** `f32::min` without NaN. */
  function Min(a: real, b: real): (r: real)
    ensures r <= a && r <= b
    ensures r == a || r == b
  {
    if a <= b then a else b
  }

  /** `f32::max` without NaN. */
  function Max(a: real, b: real): (r: real)
    ensures a <= r && b <= r
    ensures r == a || r == b
  {
    if a <= b then b else a
  }

  /** `f32::clamp`, which panics unless `lo <= hi`. */
  function Clamp(a: real, lo: real, hi: real): (r: real)
    requires lo <= hi
    ensures lo <= r <= hi
    ensures lo <= a <= hi ==> r == a
    ensures a <= lo ==> r == lo
    ensures hi <= a ==> r == hi
  {
    if a < lo then lo else if hi < a then hi else a
  }

  lemma SquareMonotone(a: real, b: real)
    requires 0.0 <= a < b
    ensures a * a < b * b
  {
    var ab := a * b;
    assert a * a <= ab;
    assert ab < b * b;
  }

  lemma NegatedSquare(a: real)
    ensures (-a) * (-a) == a * a
  {
  }

  lemma SquareNonNegative(a: real)
    ensures 0.0 <= a * a
  {
    if a < 0.0 {
      NegatedSquare(a);
      assert 0.0 <= (-a) * (-a);
    }
  }

  /** A square no larger than r^2 bounds its root by r on both sides. */
  lemma SquareBound(x: real, r: real)
    requires 0.0 <= r && x * x <= r * r
    ensures -r <= x <= r
  {
    if r < x {
      SquareMonotone(r, x);
    } else if x < -r {
      NegatedSquare(x);
      SquareMonotone(r, -x);
    }
  }

  /** A common nonzero factor cancels in a quotient. */
  lemma CancelFactor(k: real, a: real, l: real)
    requires k != 0.0 && l != 0.0
    ensures (k * a) / (k * l) == a / l
  {
    var q := a / l;
    assert a == q * l;
    assert k * a == q * (k * l);
  }

  lemma MulSquare(k: real, a: real)
    ensures (k * a) * (k * a) == (k * k) * (a * a)
  {
  }

  /** Dividing a, b, c and d by l, where l * l is the sum of their squares
      and nonzero, gives squares that sum to one. */
  lemma UnitQuotients(a: real, b: real, c: real, d: real, l: real)
    requires l != 0.0 && l * l == a * a + b * b + c * c + d * d
    ensures (a / l) * (a / l) + (b / l) * (b / l) + (c / l) * (c / l) + (d / l) * (d / l) == 1.0
  {
    var k := 1.0 / l;
    assert a / l == k * a && b / l == k * b && c / l == k * c && d / l == k * d;
    MulSquare(k, a);
    MulSquare(k, b);
    MulSquare(k, c);
    MulSquare(k, d);
    MulSquare(k, l);
    var kk := k * k;
    assert kk * (a * a) + kk * (b * b) + kk * (c * c) + kk * (d * d) == kk * (l * l);
  }

  /** Four reals divided by a nonzero l: zeros stay zero, multiplying by l
      gives each back, and when l * l is the sum of their squares the
      quotients' squares sum to one. */
  lemma Quotients(a: real, b: real, c: real, d: real, l: real)
    requires l != 0.0
    ensures a == 0.0 && b == 0.0 && c == 0.0 && d == 0.0 ==> a / l == 0.0 && b / l == 0.0 && c / l == 0.0 && d / l == 0.0
    ensures (a / l) * l == a && (b / l) * l == b && (c / l) * l == c && (d / l) * l == d
    ensures l * l == a * a + b * b + c * c + d * d ==>
            (a / l) * (a / l) + (b / l) * (b / l) + (c / l) * (c / l) + (d / l) * (d / l) == 1.0
  {
    if a == 0.0 && b == 0.0 && c == 0.0 && d == 0.0 {
      ZeroQuotients(a, b, c, d, l);
    }
    if l * l == a * a + b * b + c * c + d * d {
      UnitQuotients(a, b, c, d, l);
    }
  }

  /** `(1 / d) * x` solves `q * d == x`. */
  lemma InverseTimes(d: real, x: real)
    requires d != 0.0
    ensures ((1.0 / d) * x) * d == x
  {
  }

  /** Zeros divided by anything nonzero stay zero. */
  lemma ZeroQuotients(a: real, b: real, c: real, d: real, l: real)
    requires l != 0.0 && a == 0.0 && b == 0.0 && c == 0.0 && d == 0.0
    ensures a / l == 0.0 && b / l == 0.0 && c / l == 0.0 && d / l == 0.0
  {
  }

  /** Only zero squares to zero. */
  lemma ProductNonzero(a: real, b: real)
    requires a != 0.0 && b != 0.0
    ensures a * b != 0.0
  {
  }

  lemma SquareZero(a: real)
    requires a * a == 0.0
    ensures a == 0.0
  {
    if 0.0 < a {
      SquareMonotone(0.0, a);
    } else if a < 0.0 {
      SquareMonotone(0.0, -a);
    }
  }

  /** Two non-negative reals with the same square are equal. */
  lemma NonNegativeRootUnique(a: real, b: real)
    requires 0.0 <= a && 0.0 <= b && a * a == b * b
    ensures a == b
  {
    if a < b {
      SquareMonotone(a, b);
    } else if b < a {
      SquareMonotone(b, a);
    }
  }

  /** The square-root laws at one argument. */
  lemma SqrtSquared(x: real, r: real)
    requires SqrtLaws()
    requires 0.0 <= x && r == Sqrt(x)
    ensures 0.0 <= r && r * r == x
  {
    assert RootOf(x) == r;
  }

  /** The root of a square x = k^2, k non-negative, is k. */
  lemma SqrtOfSquare(x: real, k: real)
    requires SqrtLaws()
    requires 0.0 <= k && x == k * k
    ensures Sqrt(x) == k
  {
    SqrtSquared(x, Sqrt(x));
    NonNegativeRootUnique(Sqrt(x), k);
  }

  /** |a|^2 == a^2. */
  lemma AbsSquare(a: real)
    ensures Abs(a) * Abs(a) == a * a
  {
    NegatedSquare(a);
  }

  /** The root of a positive number is positive. */
  lemma SqrtPositive(x: real)
    requires SqrtLaws()
    requires 0.0 < x
    ensures 0.0 < Sqrt(x)
  {
    SqrtSquared(x, Sqrt(x));
  }

  /** The root is monotone. */
  lemma SqrtMonotone(x: real, y: real)
    requires SqrtLaws()
    requires 0.0 <= x <= y
    ensures 0.0 <= Sqrt(x) <= Sqrt(y)
  {
    SqrtSquared(x, Sqrt(x));
    SqrtSquared(y, Sqrt(y));
    if Sqrt(y) < Sqrt(x) {
      SquareMonotone(Sqrt(y), Sqrt(x));
    }
  }

  /** Scaling under the root: sqrt(k * k * x) == k * sqrt(x) for k >= 0. */
  lemma SqrtScale(k: real, x: real, y: real)
    requires SqrtLaws()
    requires 0.0 <= k && 0.0 <= x && y == k * k * x
    ensures Sqrt(y) == k * Sqrt(x)
  {
    var s := Sqrt(x);
    SqrtSquared(x, s);
    SquareNonNegative(k);
    assert 0.0 <= y;
    SqrtSquared(y, Sqrt(y));
    MulSquare(k, s);
    NonNegativeRootUnique(Sqrt(y), k * s);
  }

  /** The root is strictly monotone: it lies strictly between a and b when
      x lies strictly between their squares. */
  lemma SqrtBetween(x: real, a: real, b: real)
    requires SqrtLaws()
    requires 0.0 <= a && 0.0 <= b && a * a < x < b * b
    ensures a < Sqrt(x) < b
  {
    var s := Sqrt(x);
    SqrtSquared(x, s);
    if s <= a {
      if s < a { SquareMonotone(s, a); }
    }
    if b <= s {
      if b < s { SquareMonotone(b, s); }
    }
  }
}

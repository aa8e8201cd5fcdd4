/** Three-component vectors (src/math/vec3.rs). vec3.rs defines only
    `new`, `normalize`, `normalized`, `length_squared`, `length`, `dot`,
    `cross`, `Add`, `From<f32>` and indexing; the geometry code also uses
    the `vec_op!` family and the `Vector` members that Vec2 and Vec4
    carry, so Vec3 has them too. The cross product is the one written in vec3.rs,
    with its non-standard z component. */
module Vector3 {
  import opened Numbers
  import opened VecOps
  import opened Wrappers

  datatype Vec3 = Vec3(x: real, y: real, z: real) {

    function LengthSquared(): real
    {
      x * x + y * y + z * z
    }

    /** `length`: under the square-root laws, the non-negative number whose
        square is the squared length. */
    function Length(): (r: real)
      ensures SqrtLaws() ==> 0.0 <= r && r * r == LengthSquared()
    {
      var ls := LengthSquared();
      var r := Sqrt(ls);
      assert SqrtLaws() ==> 0.0 <= r && r * r == ls by {
        if SqrtLaws() {
          LengthSquaredZero(this);
          SqrtSquared(ls, r);
        }
      }
      r
    }

    function Dot(rhs: Vec3): real
    {
      x * rhs.x + y * rhs.y + z * rhs.z
    }

    /** As written: the z component is `x * rhs.y - y * rhs.z`. */
    function Cross(rhs: Vec3): Vec3
    {
      Vec3(y * rhs.z - z * rhs.y, z * rhs.x - x * rhs.z, x * rhs.y - y * rhs.z)
    }

    /** Every field divided by the length. For the zero vector f32 gives
        NaN components; the model returns the vector unchanged. */
    function Normalized(): Vec3
    {
      var length := Length();
      if length == 0.0 then this else Vec3(x / length, y / length, z / length)
    }

    /** `normalize(&mut self)`: the value the receiver holds afterwards,
        dividing one field at a time by the length taken beforehand. */
    method Normalize() returns (self': Vec3)
      ensures self' == Normalized()
    {
      var length := Length();
      self' := this;
      if length != 0.0 {
        self' := self'.(x := self'.x / length);
        self' := self'.(y := self'.y / length);
        self' := self'.(z := self'.z / length);
      }
    }

    function MinVector(rhs: Vec3): (r: Vec3)
      ensures r.LessEq(this) && r.LessEq(rhs)
      ensures (r.x == x || r.x == rhs.x) && (r.y == y || r.y == rhs.y) && (r.z == z || r.z == rhs.z)
    {
      Vec3(Min(x, rhs.x), Min(y, rhs.y), Min(z, rhs.z))
    }

    function MaxVector(rhs: Vec3): (r: Vec3)
      ensures this.LessEq(r) && rhs.LessEq(r)
      ensures (r.x == x || r.x == rhs.x) && (r.y == y || r.y == rhs.y) && (r.z == z || r.z == rhs.z)
    {
      Vec3(Max(x, rhs.x), Max(y, rhs.y), Max(z, rhs.z))
    }

    /** Componentwise `<=`. */
    predicate LessEq(rhs: Vec3)
    {
      x <= rhs.x && y <= rhs.y && z <= rhs.z
    }

    /** Component `i`, for `i` in range. */
    function At(i: nat): real
      requires i < 3
    {
      if i == 0 then x else if i == 1 then y else z
    }

    /** `Index<usize>`: `None` is the panic "index out of bounds". */
    function Index(i: nat): (r: Option<real>)
      ensures r.Some? <==> i < 3
      ensures i == 0 ==> r == Some(x)
      ensures i == 1 ==> r == Some(y)
      ensures i == 2 ==> r == Some(z)
    {
      if i < 3 then Some(At(i)) else None
    }

    /** `IndexMut<usize>` followed by a write of `value` through the
        returned reference: the vector afterwards, or `None` for the panic. */
    function IndexMut(i: nat, value: real): (r: Option<Vec3>)
      ensures r.Some? <==> i < 3
      ensures r.Some? ==> forall k :: 0 <= k < 3 ==> r.value.At(k) == if k == i then value else At(k)
    {
      if i == 0 then Some(this.(x := value))
      else if i == 1 then Some(this.(y := value))
      else if i == 2 then Some(this.(z := value))
      else None
    }

    /** vector op vector (src/math/macros.rs:23-31). */
    function Combine(op: BinOp, rhs: Vec3): Vec3
      requires Defined(op, rhs.x) && Defined(op, rhs.y) && Defined(op, rhs.z)
    {
      Vec3(Apply(op, x, rhs.x), Apply(op, y, rhs.y), Apply(op, z, rhs.z))
    }

    /** vector op scalar (src/math/macros.rs:33-41): every component
        combined with the scalar; adding or subtracting 0 and multiplying
        or dividing by 1 leave the vector as it is. */
    function CombineScalar(op: BinOp, s: real): (r: Vec3)
      requires Defined(op, s)
      ensures forall i :: 0 <= i < 3 ==> r.At(i) == Apply(op, At(i), s)
      ensures (op.Add? || op.Sub?) && s == 0.0 ==> r == this
      ensures (op.Mul? || op.Div?) && s == 1.0 ==> r == this
    {
      Vec3(Apply(op, x, s), Apply(op, y, s), Apply(op, z, s))
    }

    /** `self op= rhs`: the value the receiver holds afterwards. */
    method CombineAssign(op: BinOp, rhs: Vec3) returns (self': Vec3)
      requires Defined(op, rhs.x) && Defined(op, rhs.y) && Defined(op, rhs.z)
      ensures self' == Combine(op, rhs)
    {
      self' := Vec3(Apply(op, x, rhs.x), Apply(op, y, rhs.y), Apply(op, z, rhs.z));
    }

    /** `self op= s`: the value the receiver holds afterwards. */
    method CombineScalarAssign(op: BinOp, s: real) returns (self': Vec3)
      requires Defined(op, s)
      ensures self' == CombineScalar(op, s)
    {
      self' := Vec3(Apply(op, x, s), Apply(op, y, s), Apply(op, z, s));
    }

    function Plus(rhs: Vec3): Vec3
    {
      Combine(Add, rhs)
    }

    function Minus(rhs: Vec3): Vec3
    {
      Combine(Sub, rhs)
    }
  }

  const ZERO := Vec3(0.0, 0.0, 0.0)

  /** The unit vector along +z. */
  const PLUS_Z := Vec3(0.0, 0.0, 1.0)

  /** scalar op vector (src/math/macros.rs:43-51): `s op field`. */
  function ScalarCombine(s: real, op: BinOp, v: Vec3): Vec3
    requires Defined(op, v.x) && Defined(op, v.y) && Defined(op, v.z)
  {
    Vec3(Apply(op, s, v.x), Apply(op, s, v.y), Apply(op, s, v.z))
  }

  /** `s * v`. */
  function Scaled(s: real, v: Vec3): Vec3
  {
    ScalarCombine(s, Mul, v)
  }

  /** `From<f32>`. */
  function Splat(value: real): (r: Vec3)
    ensures forall i :: 0 <= i < 3 ==> r.At(i) == value
  {
    Vec3(value, value, value)
  }

  // ---------------------------------------------------------------------
  // Properties of the vec3.rs operations

  lemma {:induction false} LengthSquaredIsSelfDot(v: Vec3)
    ensures v.LengthSquared() == v.Dot(v)
    ensures 0.0 <= v.LengthSquared()
  {
    assert 0.0 <= v.x * v.x && 0.0 <= v.y * v.y && 0.0 <= v.z * v.z;
  }

  lemma LengthSquaredOf(v: Vec3, a: real, b: real, c: real)
    requires v == Vec3(a, b, c)
    ensures v.LengthSquared() == a * a + b * b + c * c
  {
  }

  /** No component's square exceeds the squared length. */
  lemma ComponentSquaresBounded(v: Vec3)
    ensures v.x * v.x <= v.LengthSquared()
    ensures v.y * v.y <= v.LengthSquared()
    ensures v.z * v.z <= v.LengthSquared()
  {
    SquareNonNegative(v.x);
    SquareNonNegative(v.y);
    SquareNonNegative(v.z);
  }

  /** The squared length is zero for the zero vector only. */
  lemma LengthSquaredZero(v: Vec3)
    ensures v.LengthSquared() == 0.0 <==> v == ZERO
  {
    assert 0.0 <= v.x * v.x && 0.0 <= v.y * v.y && 0.0 <= v.z * v.z;
    if v.LengthSquared() == 0.0 {
      SquareZero(v.x);
      SquareZero(v.y);
      SquareZero(v.z);
    }
  }

  lemma DotSymmetric(a: Vec3, b: Vec3)
    ensures a.Dot(b) == b.Dot(a)
  {
  }

  /** The x and y components of `a.cross(a)` vanish. */
  lemma CrossSelfXY(a: Vec3)
    ensures a.Cross(a).x == 0.0 && a.Cross(a).y == 0.0
  {
  }

  /** The as-written z component makes the cross product neither vanish on
      equal arguments nor stay perpendicular to its second argument. */
  lemma CrossAsWritten()
    ensures Vec3(0.0, 1.0, 1.0).Cross(Vec3(0.0, 1.0, 1.0)) == Vec3(0.0, 0.0, -1.0)
    ensures Vec3(0.0, 1.0, 0.0).Cross(Vec3(0.0, 0.0, 1.0)) == Vec3(1.0, 0.0, -1.0)
    ensures Vec3(0.0, 1.0, 0.0).Cross(Vec3(0.0, 0.0, 1.0)).Dot(Vec3(0.0, 0.0, 1.0)) == -1.0
  {
  }

  /** `Add` is componentwise and commutative. */
  lemma PlusCommutes(a: Vec3, b: Vec3)
    ensures forall i :: 0 <= i < 3 ==> a.Plus(b).At(i) == a.At(i) + b.At(i)
    ensures a.Plus(b) == b.Plus(a)
  {
  }

  /** vector op vector applies the operator field by field. */
  lemma CombineAt(a: Vec3, op: BinOp, b: Vec3)
    requires Defined(op, b.x) && Defined(op, b.y) && Defined(op, b.z)
    ensures forall i :: 0 <= i < 3 ==> a.Combine(op, b).At(i) == Apply(op, a.At(i), b.At(i))
  {
  }

  /** vector op scalar is vector op the splatted scalar. */
  lemma CombineScalarIsSplat(a: Vec3, op: BinOp, s: real)
    requires Defined(op, s)
    ensures a.CombineScalar(op, s) == a.Combine(op, Splat(s))
  {
  }

  /** scalar op vector agrees with vector op scalar for `+` and `*` and is
      its negation for `-`. */
  lemma ScalarCombineSwapped(s: real, v: Vec3)
    ensures ScalarCombine(s, Add, v) == v.CombineScalar(Add, s)
    ensures ScalarCombine(s, Mul, v) == v.CombineScalar(Mul, s)
    ensures ScalarCombine(s, Sub, v) == v.CombineScalar(Sub, s).CombineScalar(Mul, -1.0)
  {
  }

  /** Reading a component just written gives the value written; the others
      keep theirs. */
  lemma IndexAfterIndexMut(v: Vec3, i: nat, j: nat, value: real)
    requires i < 3 && j < 3
    ensures v.IndexMut(i, value).value.Index(j) == if i == j then Some(value) else v.Index(j)
  {
  }

  /** Under the square-root laws, normalizing a nonzero vector gives unit
      length, and the result is the vector times a positive factor. */
  lemma {:induction false} NormalizedIsUnit(v: Vec3)
    requires SqrtLaws()
    requires v.LengthSquared() != 0.0
    ensures 0.0 < v.Length()
    ensures v.Normalized() == Scaled(1.0 / v.Length(), v)
    ensures v.Normalized().LengthSquared() == 1.0
  {
    var l := v.Length();
    assert 0.0 < l by {
      LengthSquaredIsSelfDot(v);
      SqrtPositive(v.LengthSquared());
    }
    NormalizedNonzero(v, l);
    assert v.Normalized() == Scaled(1.0 / l, v) by {
      DivIsScale(v.x, l);
      DivIsScale(v.y, l);
      DivIsScale(v.z, l);
      ScaledFields(1.0 / l, v);
    }
    assert v.Normalized().LengthSquared() == 1.0 by {
      LengthSquaredIsSelfDot(v);
      SqrtSquared(v.LengthSquared(), l);
      ScaledLengthSquared(1.0 / l, v);
      InverseSquare(l, v.LengthSquared());
    }
  }

  lemma ScaledFields(k: real, v: Vec3)
    ensures Scaled(k, v) == Vec3(k * v.x, k * v.y, k * v.z)
  {
  }

  /** Dividing by l is scaling by 1 / l. */
  lemma DivIsScale(a: real, l: real)
    requires l != 0.0
    ensures a / l == (1.0 / l) * a
  {
  }

  /** (1 / l)^2 l^2 == 1. */
  lemma InverseSquare(l: real, s: real)
    requires l != 0.0 && s == l * l
    ensures (1.0 / l) * (1.0 / l) * s == 1.0
  {
  }

  /** Normalising the zero vector gives the zero vector. */
  lemma ZeroNormalized()
    ensures ZERO.Normalized() == ZERO
  {
  }

  /** A vector of squared length r^2, r nonzero, has length |r| and
      normalises to itself divided by |r|. */
  lemma {:induction false} NormalizedOfKnownLength(v: Vec3, r: real)
    requires SqrtLaws()
    requires r != 0.0 && v.LengthSquared() == r * r
    ensures v.Length() == Abs(r)
    ensures v.Normalized().LengthSquared() == 1.0
    ensures v.Normalized() == Scaled(1.0 / Abs(r), v)
  {
    ProductNonzero(r, r);
    AbsSquare(r);
    SqrtOfSquare(v.LengthSquared(), Abs(r));
    NormalizedIsUnit(v);
  }

  /** A vector of length one is its own normalization. */
  lemma {:induction false} NormalizedUnit(v: Vec3)
    requires SqrtLaws()
    requires v.LengthSquared() == 1.0
    ensures v.Normalized() == v
  {
    SqrtOfSquare(v.LengthSquared(), 1.0);
  }

  lemma ScaledLengthSquared(k: real, v: Vec3)
    ensures Scaled(k, v).LengthSquared() == k * k * v.LengthSquared()
  {
    var kk := k * k;
    MulSquare(k, v.x);
    MulSquare(k, v.y);
    MulSquare(k, v.z);
    assert kk * (v.x * v.x) + kk * (v.y * v.y) + kk * (v.z * v.z) == kk * v.LengthSquared();
  }

  lemma {:induction false} ScaledLength(k: real, v: Vec3)
    requires SqrtLaws()
    requires 0.0 <= k
    ensures Scaled(k, v).Length() == k * v.Length()
  {
    ScaledLengthSquared(k, v);
    LengthSquaredIsSelfDot(v);
    SqrtScale(k, v.LengthSquared(), Scaled(k, v).LengthSquared());
  }

  /** Directions that differ by a positive factor normalize alike. */
  lemma {:induction false} NormalizedScaleInvariant(v: Vec3, k: real)
    requires SqrtLaws()
    requires 0.0 < k
    ensures Scaled(k, v).Normalized() == v.Normalized()
  {
    var w := Scaled(k, v);
    var l := v.Length();
    if v.LengthSquared() == 0.0 {
      LengthSquaredZero(v);
      ScaledZero(k);
      ZeroNormalized();
    } else {
      ScaledLength(k, v);
      LengthSquaredIsSelfDot(v);
      SqrtPositive(v.LengthSquared());
      var lw := w.Length();
      assert lw == k * l && lw != 0.0;
      ScaledQuotient(v.x, w.x, k, l, lw);
      ScaledQuotient(v.y, w.y, k, l, lw);
      ScaledQuotient(v.z, w.z, k, l, lw);
      NormalizedAlike(w, v, lw, l);
    }
  }

  /** Two nonzero vectors whose fields over their lengths agree normalize
      alike. */
  lemma NormalizedAlike(w: Vec3, v: Vec3, lw: real, l: real)
    requires lw == w.Length() && lw != 0.0 && l == v.Length() && l != 0.0
    requires w.x / lw == v.x / l && w.y / lw == v.y / l && w.z / lw == v.z / l
    ensures w.Normalized() == v.Normalized()
  {
    NormalizedNonzero(w, lw);
    NormalizedNonzero(v, l);
  }

  /** Normalising divides each field by a nonzero length. */
  lemma NormalizedNonzero(v: Vec3, l: real)
    requires l == v.Length() && l != 0.0
    ensures v.Normalized() == Vec3(v.x / l, v.y / l, v.z / l)
  {
  }

  lemma ScaledZero(k: real)
    ensures Scaled(k, ZERO) == ZERO
  {
  }

  /** A common factor k of numerator and denominator cancels. */
  lemma ScaledQuotient(a: real, ka: real, k: real, l: real, kl: real)
    requires k != 0.0 && l != 0.0 && ka == k * a && kl == k * l
    ensures ka / kl == a / l
  {
    CancelFactor(k, a, l);
  }
}

/** Four-component vectors (src/math/vec4.rs): the `Vector` members,
    homogeneous conversion from and to Vec3, `From<f32>`, indexing, and the
    `vec_op!` family instantiated at src/math/vec4.rs:89-92. */
module Vector4 {
  import opened Numbers
  import opened VecOps
  import opened Wrappers
  import opened Vector3

  datatype Vec4 = Vec4(x: real, y: real, z: real, w: real) {

    /** `length_squared`: the vector dotted with itself, never negative
        and zero only for the zero vector. */
    function LengthSquared(): (r: real)
      ensures r == Dot(this)
      ensures 0.0 <= r
      ensures r == 0.0 <==> this == ZERO4
    {
      var r := x * x + y * y + z * z + w * w;
      SquareNonNegative(x);
      SquareNonNegative(y);
      SquareNonNegative(z);
      SquareNonNegative(w);
      assert r == 0.0 ==> x == 0.0 && y == 0.0 && z == 0.0 && w == 0.0 by {
        if r == 0.0 {
          SquareZero(x);
          SquareZero(y);
          SquareZero(z);
          SquareZero(w);
        }
      }
      r
    }

    /** `length`: under the square-root laws, the non-negative number whose
        square is the squared length, zero only for the zero vector. */
    function Length(): (r: real)
      ensures SqrtLaws() ==> 0.0 <= r && r * r == LengthSquared()
      ensures SqrtLaws() ==> (r == 0.0 <==> this == ZERO4)
    {
      var ls := LengthSquared();
      var r := Sqrt(ls);
      assert SqrtLaws() ==> 0.0 <= r && r * r == ls && (r == 0.0 <==> ls == 0.0) by {
        if SqrtLaws() {
          SqrtSquared(ls, r);
          if r * r == 0.0 {
            SquareZero(r);
          }
        }
      }
      r
    }

    /** `dot`: zero when either side is the zero vector. */
    function Dot(rhs: Vec4): (r: real)
      ensures rhs == ZERO4 || this == ZERO4 ==> r == 0.0
    {
      x * rhs.x + y * rhs.y + z * rhs.z + w * rhs.w
    }

    /** Every field divided by the length: under the square-root laws a
        nonzero vector becomes the unit vector that, scaled by the length,
        gives it back. The zero vector (NaN in f32) is returned unchanged. */
    function Normalized(): (r: Vec4)
      ensures this == ZERO4 ==> r == ZERO4
      ensures SqrtLaws() && this != ZERO4 ==> r.LengthSquared() == 1.0
      ensures SqrtLaws() && this != ZERO4 ==>
              0.0 < Length() && r.x * Length() == x && r.y * Length() == y && r.z * Length() == z && r.w * Length() == w
    {
      var length := Length();
      assert SqrtLaws() && this != ZERO4 ==> length != 0.0;
      if length == 0.0 then this
      else
        Quotients(x, y, z, w, length);
        Vec4(x / length, y / length, z / length, w / length)
    }

    /** `normalize(&mut self)`: the value the receiver holds afterwards. */
    method Normalize() returns (self': Vec4)
      ensures self' == Normalized()
    {
      var length := Length();
      self' := this;
      if length != 0.0 {
        self' := self'.(x := self'.x / length);
        self' := self'.(y := self'.y / length);
        self' := self'.(z := self'.z / length);
        self' := self'.(w := self'.w / length);
      }
    }

    function MinVector(rhs: Vec4): (r: Vec4)
      ensures forall i :: 0 <= i < 4 ==> r.At(i) <= At(i) && r.At(i) <= rhs.At(i)
      ensures forall i :: 0 <= i < 4 ==> r.At(i) == At(i) || r.At(i) == rhs.At(i)
    {
      Vec4(Min(x, rhs.x), Min(y, rhs.y), Min(z, rhs.z), Min(w, rhs.w))
    }

    function MaxVector(rhs: Vec4): (r: Vec4)
      ensures forall i :: 0 <= i < 4 ==> At(i) <= r.At(i) && rhs.At(i) <= r.At(i)
      ensures forall i :: 0 <= i < 4 ==> r.At(i) == At(i) || r.At(i) == rhs.At(i)
    {
      Vec4(Max(x, rhs.x), Max(y, rhs.y), Max(z, rhs.z), Max(w, rhs.w))
    }

    function MinComponent(): (r: real)
      ensures forall i :: 0 <= i < 4 ==> r <= At(i)
      ensures exists i :: 0 <= i < 4 && r == At(i)
    {
      var r := Min(x, Min(y, Min(z, w)));
      assert r == At(0) || r == At(1) || r == At(2) || r == At(3);
      r
    }

    function MaxComponent(): (r: real)
      ensures forall i :: 0 <= i < 4 ==> At(i) <= r
      ensures exists i :: 0 <= i < 4 && r == At(i)
    {
      var r := Max(x, Max(y, Max(z, w)));
      assert r == At(0) || r == At(1) || r == At(2) || r == At(3);
      r
    }

    function At(i: nat): real
      requires i < 4
    {
      if i == 0 then x else if i == 1 then y else if i == 2 then z else w
    }

    /** `Index<usize>`: `None` is the panic "index out of bounds". */
    function Index(i: nat): (r: Option<real>)
      ensures r.Some? <==> i < 4
      ensures i == 0 ==> r == Some(x)
      ensures i == 1 ==> r == Some(y)
      ensures i == 2 ==> r == Some(z)
      ensures i == 3 ==> r == Some(w)
    {
      if i < 4 then Some(At(i)) else None
    }

    /** `IndexMut<usize>` and a write of `value` through it. */
    function IndexMut(i: nat, value: real): (r: Option<Vec4>)
      ensures r.Some? <==> i < 4
      ensures r.Some? ==> forall k :: 0 <= k < 4 ==> r.value.At(k) == if k == i then value else At(k)
    {
      if i == 0 then Some(this.(x := value))
      else if i == 1 then Some(this.(y := value))
      else if i == 2 then Some(this.(z := value))
      else if i == 3 then Some(this.(w := value))
      else None
    }

    /** vector op vector (src/math/macros.rs:23-31): componentwise;
        adding or subtracting the zero vector leaves the vector as it is,
        and a vector minus itself is zero. */
    function Combine(op: BinOp, rhs: Vec4): (r: Vec4)
      requires Defined(op, rhs.x) && Defined(op, rhs.y) && Defined(op, rhs.z) && Defined(op, rhs.w)
      ensures forall i :: 0 <= i < 4 ==> r.At(i) == Apply(op, At(i), rhs.At(i))
      ensures (op.Add? || op.Sub?) && rhs == ZERO4 ==> r == this
      ensures op.Sub? && rhs == this ==> r == ZERO4
    {
      Vec4(Apply(op, x, rhs.x), Apply(op, y, rhs.y), Apply(op, z, rhs.z), Apply(op, w, rhs.w))
    }

    /** vector op scalar (src/math/macros.rs:33-41): every component
        combined with the scalar; adding or subtracting 0 and multiplying
        or dividing by 1 leave the vector as it is. */
    function CombineScalar(op: BinOp, s: real): (r: Vec4)
      requires Defined(op, s)
      ensures forall i :: 0 <= i < 4 ==> r.At(i) == Apply(op, At(i), s)
      ensures (op.Add? || op.Sub?) && s == 0.0 ==> r == this
      ensures (op.Mul? || op.Div?) && s == 1.0 ==> r == this
    {
      Vec4(Apply(op, x, s), Apply(op, y, s), Apply(op, z, s), Apply(op, w, s))
    }

    /** `self op= rhs` (src/math/macros.rs:53-59). */
    method CombineAssign(op: BinOp, rhs: Vec4) returns (self': Vec4)
      requires Defined(op, rhs.x) && Defined(op, rhs.y) && Defined(op, rhs.z) && Defined(op, rhs.w)
      ensures self' == Combine(op, rhs)
    {
      self' := Vec4(Apply(op, x, rhs.x), Apply(op, y, rhs.y), Apply(op, z, rhs.z), Apply(op, w, rhs.w));
    }

    /** `self op= s` (src/math/macros.rs:61-67). */
    method CombineScalarAssign(op: BinOp, s: real) returns (self': Vec4)
      requires Defined(op, s)
      ensures self' == CombineScalar(op, s)
    {
      self' := Vec4(Apply(op, x, s), Apply(op, y, s), Apply(op, z, s), Apply(op, w, s));
    }

    /** `From<Vec4> for Vec3`: the homogeneous division by `w`, which must
        be nonzero for the result to be a point. */
    function ToVec3(): (r: Vec3)
      requires w != 0.0
      ensures r.x * w == x && r.y * w == y && r.z * w == z
    {
      Vec3(x / w, y / w, z / w)
    }
  }

  const ZERO4 := Vec4(0.0, 0.0, 0.0, 0.0)
  const ONE4 := Vec4(1.0, 1.0, 1.0, 1.0)

  /** scalar op vector (src/math/macros.rs:43-51): the scalar combined
      with every component, so `+` and `*` agree with vector op scalar. */
  function ScalarCombine(s: real, op: BinOp, v: Vec4): (r: Vec4)
    requires Defined(op, v.x) && Defined(op, v.y) && Defined(op, v.z) && Defined(op, v.w)
    ensures forall i :: 0 <= i < 4 ==> r.At(i) == Apply(op, s, v.At(i))
    ensures op.Add? || op.Mul? ==> r == v.CombineScalar(op, s)
  {
    Vec4(Apply(op, s, v.x), Apply(op, s, v.y), Apply(op, s, v.z), Apply(op, s, v.w))
  }

  /** `From<f32>`. */
  function Splat(value: real): (r: Vec4)
    ensures forall i :: 0 <= i < 4 ==> r.At(i) == value
  {
    Vec4(value, value, value, value)
  }

  /** `From<Vec3> for Vec4`: the point in homogeneous coordinates. */
  function FromVec3(v: Vec3): (r: Vec4)
    ensures r.w == 1.0
    ensures r.x == v.x && r.y == v.y && r.z == v.z
  {
    Vec4(v.x, v.y, v.z, 1.0)
  }

  /** Converting a Vec3 to a Vec4 and back gives the Vec3 again. */
  lemma HomogeneousRoundTrip(v: Vec3)
    ensures FromVec3(v).ToVec3() == v
  {
  }

  lemma IndexAfterIndexMut(v: Vec4, i: nat, j: nat, value: real)
    requires i < 4 && j < 4
    ensures v.IndexMut(i, value).value.Index(j) == if i == j then Some(value) else v.Index(j)
  {
  }
}

/** Two-component vectors (src/math/vec2.rs): the `Vector` members, the
    direction constants, `From<f32>`, indexing, and the `vec_op!` family
    instantiated at src/math/vec2.rs:86-89. */
module Vector2 {
  import opened Numbers
  import opened VecOps
  import opened Wrappers

  datatype Vec2 = Vec2(x: real, y: real) {

    /** `length_squared`: the vector dotted with itself, never negative
        and zero only for the zero vector. */
    function LengthSquared(): (r: real)
      ensures r == Dot(this)
      ensures 0.0 <= r
      ensures r == 0.0 <==> this == ZERO
    {
      var r := x * x + y * y;
      SquareNonNegative(x);
      SquareNonNegative(y);
      assert r == 0.0 ==> x == 0.0 && y == 0.0 by {
        if r == 0.0 {
          SquareZero(x);
          SquareZero(y);
        }
      }
      r
    }

    /** `length`: under the square-root laws, the non-negative number whose
        square is the squared length, zero only for the zero vector. */
    function Length(): (r: real)
      ensures SqrtLaws() ==> 0.0 <= r && r * r == LengthSquared()
      ensures SqrtLaws() ==> (r == 0.0 <==> this == ZERO)
    {
      var ls := LengthSquared();
      var r := Sqrt(ls);
      assert SqrtLaws() ==> 0.0 <= r && r * r == ls && (r == 0.0 <==> ls == 0.0) by {
        if SqrtLaws() {
          SqrtSquared(ls, r);
          if r * r == 0.0 {
            SquareZero(r);
          }
        }
      }
      r
    }

    /** `dot`: zero when either side is the zero vector. */
    function Dot(rhs: Vec2): (r: real)
      ensures rhs == ZERO || this == ZERO ==> r == 0.0
    {
      x * rhs.x + y * rhs.y
    }

    /** Every field divided by the length: under the square-root laws a
        nonzero vector becomes the unit vector that, scaled by the length,
        gives it back. The zero vector (NaN in f32) is returned unchanged. */
    function Normalized(): (r: Vec2)
      ensures this == ZERO ==> r == ZERO
      ensures SqrtLaws() && this != ZERO ==> r.LengthSquared() == 1.0
      ensures SqrtLaws() && this != ZERO ==> 0.0 < Length() && r.x * Length() == x && r.y * Length() == y
    {
      var length := Length();
      assert SqrtLaws() && this != ZERO ==> length != 0.0;
      if length == 0.0 then this
      else
        var r := Vec2(x / length, y / length);
        assert SqrtLaws() ==> r.LengthSquared() == 1.0 by {
          if SqrtLaws() {
            UnitQuotients(x, y, 0.0, 0.0, length);
            assert 0.0 / length == 0.0;
          }
        }
        r
    }

    /** `normalize(&mut self)`: the value the receiver holds afterwards. */
    method Normalize() returns (self': Vec2)
      ensures self' == Normalized()
    {
      var length := Length();
      self' := this;
      if length != 0.0 {
        self' := self'.(x := self'.x / length);
        self' := self'.(y := self'.y / length);
      }
    }

    function MinVector(rhs: Vec2): (r: Vec2)
      ensures r.x <= x && r.x <= rhs.x && r.y <= y && r.y <= rhs.y
      ensures (r.x == x || r.x == rhs.x) && (r.y == y || r.y == rhs.y)
    {
      Vec2(Min(x, rhs.x), Min(y, rhs.y))
    }

    function MaxVector(rhs: Vec2): (r: Vec2)
      ensures x <= r.x && rhs.x <= r.x && y <= r.y && rhs.y <= r.y
      ensures (r.x == x || r.x == rhs.x) && (r.y == y || r.y == rhs.y)
    {
      Vec2(Max(x, rhs.x), Max(y, rhs.y))
    }

    function MinComponent(): (r: real)
      ensures r <= x && r <= y
      ensures r == x || r == y
    {
      Min(x, y)
    }

    function MaxComponent(): (r: real)
      ensures x <= r && y <= r
      ensures r == x || r == y
    {
      Max(x, y)
    }

    function At(i: nat): real
      requires i < 2
    {
      if i == 0 then x else y
    }

    /** `Index<usize>`: `None` is the panic "index out of bounds". */
    function Index(i: nat): (r: Option<real>)
      ensures r.Some? <==> i < 2
      ensures i == 0 ==> r == Some(x)
      ensures i == 1 ==> r == Some(y)
    {
      if i < 2 then Some(At(i)) else None
    }

    /** `IndexMut<usize>` and a write of `value` through it. */
    function IndexMut(i: nat, value: real): (r: Option<Vec2>)
      ensures r.Some? <==> i < 2
      ensures r.Some? ==> forall k :: 0 <= k < 2 ==> r.value.At(k) == if k == i then value else At(k)
    {
      if i == 0 then Some(this.(x := value))
      else if i == 1 then Some(this.(y := value))
      else None
    }

    /** vector op vector (src/math/macros.rs:23-31): componentwise;
        adding or subtracting the zero vector leaves the vector as it is,
        and a vector minus itself is zero. */
    function Combine(op: BinOp, rhs: Vec2): (r: Vec2)
      requires Defined(op, rhs.x) && Defined(op, rhs.y)
      ensures forall i :: 0 <= i < 2 ==> r.At(i) == Apply(op, At(i), rhs.At(i))
      ensures (op.Add? || op.Sub?) && rhs == ZERO ==> r == this
      ensures op.Sub? && rhs == this ==> r == ZERO
    {
      Vec2(Apply(op, x, rhs.x), Apply(op, y, rhs.y))
    }

    /** vector op scalar (src/math/macros.rs:33-41): every component
        combined with the scalar; adding or subtracting 0 and multiplying
        or dividing by 1 leave the vector as it is. */
    function CombineScalar(op: BinOp, s: real): (r: Vec2)
      requires Defined(op, s)
      ensures forall i :: 0 <= i < 2 ==> r.At(i) == Apply(op, At(i), s)
      ensures (op.Add? || op.Sub?) && s == 0.0 ==> r == this
      ensures (op.Mul? || op.Div?) && s == 1.0 ==> r == this
    {
      Vec2(Apply(op, x, s), Apply(op, y, s))
    }

    /** `self op= rhs` (src/math/macros.rs:53-59). */
    method CombineAssign(op: BinOp, rhs: Vec2) returns (self': Vec2)
      requires Defined(op, rhs.x) && Defined(op, rhs.y)
      ensures self' == Combine(op, rhs)
    {
      self' := Vec2(Apply(op, x, rhs.x), Apply(op, y, rhs.y));
    }

    /** `self op= s` (src/math/macros.rs:61-67). */
    method CombineScalarAssign(op: BinOp, s: real) returns (self': Vec2)
      requires Defined(op, s)
      ensures self' == CombineScalar(op, s)
    {
      self' := Vec2(Apply(op, x, s), Apply(op, y, s));
    }
  }

  const ZERO := Vec2(0.0, 0.0)
  const DOWN := Vec2(0.0, 1.0)
  const UP := Vec2(0.0, -1.0)
  const RIGHT := Vec2(1.0, 0.0)
  const LEFT := Vec2(-1.0, 0.0)

  /** scalar op vector (src/math/macros.rs:43-51): the scalar combined
      with every component, so `+` and `*` agree with vector op scalar. */
  function ScalarCombine(s: real, op: BinOp, v: Vec2): (r: Vec2)
    requires Defined(op, v.x) && Defined(op, v.y)
    ensures forall i :: 0 <= i < 2 ==> r.At(i) == Apply(op, s, v.At(i))
    ensures op.Add? || op.Mul? ==> r == v.CombineScalar(op, s)
  {
    Vec2(Apply(op, s, v.x), Apply(op, s, v.y))
  }

  /** `From<f32>`. */
  function Splat(value: real): (r: Vec2)
    ensures forall i :: 0 <= i < 2 ==> r.At(i) == value
  {
    Vec2(value, value)
  }

  /** The opposite directions are negations of each other, and subtracting
      a direction from zero negates it. */
  lemma OppositeDirections()
    ensures UP == DOWN.CombineScalar(Mul, -1.0) && LEFT == RIGHT.CombineScalar(Mul, -1.0)
    ensures UP == ZERO.Combine(Sub, DOWN) && LEFT == ZERO.Combine(Sub, RIGHT)
  {
  }

  lemma IndexAfterIndexMut(v: Vec2, i: nat, j: nat, value: real)
    requires i < 2 && j < 2
    ensures v.IndexMut(i, value).value.Index(j) == if i == j then Some(value) else v.Index(j)
  {
  }
}

/** The operator family that the `vec_op!` macro (src/math/macros.rs)
    generates for each vector type: for every operator `+ - * /` it
    implements vector op vector, vector op scalar, scalar op vector and the
    two compound assignments. Each vector module instantiates the five
    shapes with `BinOp`; this module fixes the scalar operator itself. */
module VecOps {

  /** The four macro arms (src/math/macros.rs:4-15). */
  datatype BinOp = Add | Sub | Mul | Div

  /** Division by zero yields an f32 infinity or NaN, which lies outside
      the model: a divisor must be nonzero. */
  predicate Defined(op: BinOp, rhs: real)
  {
    op.Div? ==> rhs != 0.0
  }

  /** The scalar operation a field undergoes: `self.field op rhs.field`. */
  function Apply(op: BinOp, a: real, b: real): real
    requires Defined(op, b)
  {
    match op
    case Add => a + b
    case Sub => a - b
    case Mul => a * b
    case Div => a / b
  }

  /** Exchanging the operands changes no sum or product, negates a
      difference and inverts a quotient: this is why `s op v` and `v op s`
      differ exactly for `-` and `/`. */
  lemma ApplySwapped(op: BinOp, a: real, b: real)
    requires op.Div? ==> a != 0.0 && b != 0.0
    ensures op.Add? || op.Mul? ==> Apply(op, a, b) == Apply(op, b, a)
    ensures op.Sub? ==> Apply(op, a, b) == -Apply(op, b, a)
    ensures op.Div? ==> Apply(op, a, b) * Apply(op, b, a) == 1.0
  {
  }
}

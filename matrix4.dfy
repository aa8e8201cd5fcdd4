/** 4x4 matrices (src/math/matrix4x4.rs): four row vectors, indexing,
    the constant matrices, the affine constructors and the product, which
    the source computes with a triple loop accumulating into `res[i][j]`. */
module Matrix4 {
  import opened Wrappers
  import Vector3
  import opened Vector4

  datatype Mat4 = Mat4(xAxis: Vec4, yAxis: Vec4, zAxis: Vec4, wAxis: Vec4) {

    /** Row `i`: what `self[i]` returns. */
    function Row(i: nat): (r: Vec4)
      requires i < 4
      ensures Index(i) == Some(r)
    {
      if i == 0 then xAxis else if i == 1 then yAxis else if i == 2 then zAxis else wAxis
    }

    /** Entry `self[i][j]`: component `j` of the row `self[i]`. */
    function At(i: nat, j: nat): (r: real)
      requires i < 4 && j < 4
      ensures Index(i).Some? && Index(i).value.Index(j) == Some(r)
    {
      Row(i).At(j)
    }

    /** `Index<usize>`: the row, or `None` for the panic. */
    function Index(i: nat): (r: Option<Vec4>)
      ensures r.Some? <==> i < 4
      ensures i == 0 ==> r == Some(xAxis)
      ensures i == 1 ==> r == Some(yAxis)
      ensures i == 2 ==> r == Some(zAxis)
      ensures i == 3 ==> r == Some(wAxis)
    {
      if i == 0 then Some(xAxis)
      else if i == 1 then Some(yAxis)
      else if i == 2 then Some(zAxis)
      else if i == 3 then Some(wAxis)
      else None
    }

    /** `IndexMut<usize>` and a write of `row` through it: only row `i`
        changes. */
    function IndexMut(i: nat, row: Vec4): (r: Option<Mat4>)
      ensures r.Some? <==> i < 4
      ensures r.Some? ==> forall k :: 0 <= k < 4 ==> r.value.Row(k) == if k == i then row else Row(k)
    {
      if i == 0 then Some(this.(xAxis := row))
      else if i == 1 then Some(this.(yAxis := row))
      else if i == 2 then Some(this.(zAxis := row))
      else if i == 3 then Some(this.(wAxis := row))
      else None
    }

    /** `Mul<Mat4>`: `res` starts at ZERO and `res[i][j] += self[i][k] *
        rhs[k][j]` runs for every i, j, k below 4, in that loop order. */
    method Mul(rhs: Mat4) returns (res: Mat4)
      ensures forall i, j :: 0 <= i < 4 && 0 <= j < 4 ==> res.At(i, j) == Entry(this, rhs, i, j)
      ensures res == Product(this, rhs)
    {
      res := ZERO;
      for i := 0 to 4
        invariant forall p, q :: 0 <= p < i && 0 <= q < 4 ==> res.At(p, q) == Entry(this, rhs, p, q)
        invariant forall p, q :: i <= p < 4 && 0 <= q < 4 ==> res.At(p, q) == 0.0
      {
        for j := 0 to 4
          invariant forall p, q :: 0 <= p < i && 0 <= q < 4 ==> res.At(p, q) == Entry(this, rhs, p, q)
          invariant forall q :: 0 <= q < j ==> res.At(i, q) == Entry(this, rhs, i, q)
          invariant forall q :: j <= q < 4 ==> res.At(i, q) == 0.0
          invariant forall p, q :: i < p < 4 && 0 <= q < 4 ==> res.At(p, q) == 0.0
        {
          for k := 0 to 4
            invariant forall p, q :: 0 <= p < i && 0 <= q < 4 ==> res.At(p, q) == Entry(this, rhs, p, q)
            invariant forall q :: 0 <= q < j ==> res.At(i, q) == Entry(this, rhs, i, q)
            invariant res.At(i, j) == PartialEntry(this, rhs, i, j, k)
            invariant forall q :: j < q < 4 ==> res.At(i, q) == 0.0
            invariant forall p, q :: i < p < 4 && 0 <= q < 4 ==> res.At(p, q) == 0.0
          {
            ghost var before := res;
            var row := res.Row(i);
            row := row.IndexMut(j, row.At(j) + At(i, k) * rhs.At(k, j)).value;
            res := res.IndexMut(i, row).value;
            assert forall p, q :: 0 <= p < 4 && 0 <= q < 4 && p != i ==> res.At(p, q) == before.At(p, q);
            assert forall q :: 0 <= q < 4 && q != j ==> res.At(i, q) == before.At(i, q);
          }
          PartialEntryComplete(this, rhs, i, j);
        }
      }
      EqualByEntries(res, Product(this, rhs));
    }
  }

  /** `self[i][0] * rhs[0][j] + ... + self[i][k-1] * rhs[k-1][j]`. */
  function PartialEntry(a: Mat4, b: Mat4, i: nat, j: nat, k: nat): real
    requires i < 4 && j < 4 && k <= 4
  {
    if k == 0 then 0.0 else PartialEntry(a, b, i, j, k - 1) + a.At(i, k - 1) * b.At(k - 1, j)
  }

  /** Entry (i, j) of the product: the sum over k < 4 of a[i][k] * b[k][j]. */
  function Entry(a: Mat4, b: Mat4, i: nat, j: nat): real
    requires i < 4 && j < 4
  {
    a.At(i, 0) * b.At(0, j) + a.At(i, 1) * b.At(1, j) + a.At(i, 2) * b.At(2, j) + a.At(i, 3) * b.At(3, j)
  }

  /** The accumulation over all four k is the entry of the product. */
  lemma PartialEntryComplete(a: Mat4, b: Mat4, i: nat, j: nat)
    requires i < 4 && j < 4
    ensures PartialEntry(a, b, i, j, 4) == Entry(a, b, i, j)
  {
    assert PartialEntry(a, b, i, j, 1) == a.At(i, 0) * b.At(0, j);
    assert PartialEntry(a, b, i, j, 2) == PartialEntry(a, b, i, j, 1) + a.At(i, 1) * b.At(1, j);
    assert PartialEntry(a, b, i, j, 3) == PartialEntry(a, b, i, j, 2) + a.At(i, 2) * b.At(2, j);
  }

  /** Row `i` of the product: the rows of `b` weighted by row `i` of `a`. */
  function RowOfProduct(a: Mat4, b: Mat4, i: nat): Vec4
    requires i < 4
  {
    var r := a.Row(i);
    Vec4(r.x * b.xAxis.x + r.y * b.yAxis.x + r.z * b.zAxis.x + r.w * b.wAxis.x,
         r.x * b.xAxis.y + r.y * b.yAxis.y + r.z * b.zAxis.y + r.w * b.wAxis.y,
         r.x * b.xAxis.z + r.y * b.yAxis.z + r.z * b.zAxis.z + r.w * b.wAxis.z,
         r.x * b.xAxis.w + r.y * b.yAxis.w + r.z * b.zAxis.w + r.w * b.wAxis.w)
  }

  lemma RowOfProductAt(a: Mat4, b: Mat4, i: nat, j: nat)
    requires i < 4 && j < 4
    ensures RowOfProduct(a, b, i).At(j) == Entry(a, b, i, j)
  {
    var r := a.Row(i);
    assert a.At(i, 0) == r.x && a.At(i, 1) == r.y && a.At(i, 2) == r.z && a.At(i, 3) == r.w;
    assert b.At(0, j) == b.xAxis.At(j) && b.At(1, j) == b.yAxis.At(j);
    assert b.At(2, j) == b.zAxis.At(j) && b.At(3, j) == b.wAxis.At(j);
  }

  /** The matrix product, entry by entry. */
  function Product(a: Mat4, b: Mat4): (r: Mat4)
    ensures forall i, j :: 0 <= i < 4 && 0 <= j < 4 ==> r.At(i, j) == Entry(a, b, i, j)
  {
    var r := Mat4(RowOfProduct(a, b, 0), RowOfProduct(a, b, 1), RowOfProduct(a, b, 2), RowOfProduct(a, b, 3));
    assert forall i, j :: 0 <= i < 4 && 0 <= j < 4 ==> r.At(i, j) == Entry(a, b, i, j) by {
      forall i, j | 0 <= i < 4 && 0 <= j < 4
        ensures r.At(i, j) == Entry(a, b, i, j)
      {
        RowOfProductAt(a, b, i, j);
      }
    }
    r
  }

  /** Matrices with equal entries are equal. */
  lemma EqualByEntries(m: Mat4, n: Mat4)
    requires forall i, j :: 0 <= i < 4 && 0 <= j < 4 ==> m.At(i, j) == n.At(i, j)
    ensures m == n
  {
    assert forall j :: 0 <= j < 4 ==> m.At(0, j) == n.At(0, j);
    assert m.At(0, 0) == n.At(0, 0) && m.At(0, 1) == n.At(0, 1) && m.At(0, 2) == n.At(0, 2) && m.At(0, 3) == n.At(0, 3);
    assert m.At(1, 0) == n.At(1, 0) && m.At(1, 1) == n.At(1, 1) && m.At(1, 2) == n.At(1, 2) && m.At(1, 3) == n.At(1, 3);
    assert m.At(2, 0) == n.At(2, 0) && m.At(2, 1) == n.At(2, 1) && m.At(2, 2) == n.At(2, 2) && m.At(2, 3) == n.At(2, 3);
    assert m.At(3, 0) == n.At(3, 0) && m.At(3, 1) == n.At(3, 1) && m.At(3, 2) == n.At(3, 2) && m.At(3, 3) == n.At(3, 3);
  }

  const ZERO := Mat4(ZERO4, ZERO4, ZERO4, ZERO4)

  /** As written, every entry of ONE is 1: it is not the identity. */
  const ONE := Mat4(ONE4, ONE4, ONE4, ONE4)

  /** The matrix applied to a column vector: component `i` is row `i`
      dotted with `p`. matrix4x4.rs has no such operator; it states what
      the constructors below do to a point in homogeneous coordinates. */
  function Transform(m: Mat4, p: Vec4): Vec4
  {
    Vec4(m.xAxis.Dot(p), m.yAxis.Dot(p), m.zAxis.Dot(p), m.wAxis.Dot(p))
  }

  /** The identity except that column 3 holds (v.x, v.y, v.z, 1): it
      moves every point by `v`. */
  function Translate(v: Vector3.Vec3): (m: Mat4)
    ensures forall p: Vector3.Vec3 {:trigger Transform(m, FromVec3(p))} :: Transform(m, FromVec3(p)) == Vec4(p.x + v.x, p.y + v.y, p.z + v.z, 1.0)
  {
    Mat4(Vec4(1.0, 0.0, 0.0, v.x),
         Vec4(0.0, 1.0, 0.0, v.y),
         Vec4(0.0, 0.0, 1.0, v.z),
         Vec4(0.0, 0.0, 0.0, 1.0))
  }

  /** Scales every point componentwise by `v`. */
  function Scale(v: Vector3.Vec3): (m: Mat4)
    ensures forall p: Vector3.Vec3 {:trigger Transform(m, FromVec3(p))} :: Transform(m, FromVec3(p)) == Vec4(v.x * p.x, v.y * p.y, v.z * p.z, 1.0)
  {
    Mat4(Vec4(v.x, 0.0, 0.0, 0.0),
         Vec4(0.0, v.y, 0.0, 0.0),
         Vec4(0.0, 0.0, v.z, 0.0),
         Vec4(0.0, 0.0, 0.0, 1.0))
  }

  /** Negates the x coordinate of every point. */
  function MirrorX(): (m: Mat4)
    ensures forall p: Vector3.Vec3 {:trigger Transform(m, FromVec3(p))} :: Transform(m, FromVec3(p)) == Vec4(-p.x, p.y, p.z, 1.0)
  {
    Mat4(Vec4(-1.0, 0.0, 0.0, 0.0), Vec4(0.0, 1.0, 0.0, 0.0), Vec4(0.0, 0.0, 1.0, 0.0), Vec4(0.0, 0.0, 0.0, 1.0))
  }

  /** Negates the y coordinate of every point. */
  function MirrorY(): (m: Mat4)
    ensures forall p: Vector3.Vec3 {:trigger Transform(m, FromVec3(p))} :: Transform(m, FromVec3(p)) == Vec4(p.x, -p.y, p.z, 1.0)
  {
    Mat4(Vec4(1.0, 0.0, 0.0, 0.0), Vec4(0.0, -1.0, 0.0, 0.0), Vec4(0.0, 0.0, 1.0, 0.0), Vec4(0.0, 0.0, 0.0, 1.0))
  }

  /** Negates the z coordinate of every point. */
  function MirrorZ(): (m: Mat4)
    ensures forall p: Vector3.Vec3 {:trigger Transform(m, FromVec3(p))} :: Transform(m, FromVec3(p)) == Vec4(p.x, p.y, -p.z, 1.0)
  {
    Mat4(Vec4(1.0, 0.0, 0.0, 0.0), Vec4(0.0, 1.0, 0.0, 0.0), Vec4(0.0, 0.0, -1.0, 0.0), Vec4(0.0, 0.0, 0.0, 1.0))
  }

  /** Point reflection through the origin: negates every coordinate. */
  function Mirror0(): (m: Mat4)
    ensures forall p: Vector3.Vec3 {:trigger Transform(m, FromVec3(p))} :: Transform(m, FromVec3(p)) == Vec4(-p.x, -p.y, -p.z, 1.0)
  {
    Mat4(Vec4(-1.0, 0.0, 0.0, 0.0), Vec4(0.0, -1.0, 0.0, 0.0), Vec4(0.0, 0.0, -1.0, 0.0), Vec4(0.0, 0.0, 0.0, 1.0))
  }

  /** Adds to each coordinate the other two weighted by the factors:
      `x_y` and `x_z` feed x, `y_x` and `y_z` feed y, `z_x` and `z_y` feed z. */
  function Shear(xY: real, xZ: real, yZ: real, yX: real, zX: real, zY: real): (m: Mat4)
    ensures forall p: Vector3.Vec3 {:trigger Transform(m, FromVec3(p))} ::
              Transform(m, FromVec3(p)) == Vec4(p.x + xY * p.y + xZ * p.z, yX * p.x + p.y + yZ * p.z, zX * p.x + zY * p.y + p.z, 1.0)
  {
    Mat4(Vec4(1.0, xY, xZ, 0.0),
         Vec4(yX, 1.0, yZ, 0.0),
         Vec4(zX, zY, 1.0, 0.0),
         Vec4(0.0, 0.0, 0.0, 1.0))
  }

  // ---------------------------------------------------------------------
  // Algebra of the constructors under the product

  lemma ProductZero(m: Mat4)
    ensures Product(ZERO, m) == ZERO
    ensures Product(m, ZERO) == ZERO
  {
  }

  /** `translate(0)` is a unit of the product on both sides. */
  lemma TranslateZeroIsUnit(m: Mat4)
    ensures Product(Translate(Vector3.ZERO), m) == m
    ensures Product(m, Translate(Vector3.ZERO)) == m
  {
  }

  /** Scalings compose componentwise. */
  lemma ScaleCompose(a: Vector3.Vec3, b: Vector3.Vec3)
    ensures Product(Scale(a), Scale(b)) == Scale(Vector3.Vec3(a.x * b.x, a.y * b.y, a.z * b.z))
  {
  }

  /** Every mirror is an involution. */
  lemma MirrorXInvolution()
    ensures Product(MirrorX(), MirrorX()) == Translate(Vector3.ZERO)
  {
    var m := MirrorX();
    assert RowOfProduct(m, m, 0) == Vec4(1.0, 0.0, 0.0, 0.0);
    assert RowOfProduct(m, m, 1) == Vec4(0.0, 1.0, 0.0, 0.0);
    assert RowOfProduct(m, m, 2) == Vec4(0.0, 0.0, 1.0, 0.0);
    assert RowOfProduct(m, m, 3) == Vec4(0.0, 0.0, 0.0, 1.0);
  }

  lemma MirrorYInvolution()
    ensures Product(MirrorY(), MirrorY()) == Translate(Vector3.ZERO)
  {
    var m := MirrorY();
    assert RowOfProduct(m, m, 0) == Vec4(1.0, 0.0, 0.0, 0.0);
    assert RowOfProduct(m, m, 1) == Vec4(0.0, 1.0, 0.0, 0.0);
    assert RowOfProduct(m, m, 2) == Vec4(0.0, 0.0, 1.0, 0.0);
    assert RowOfProduct(m, m, 3) == Vec4(0.0, 0.0, 0.0, 1.0);
  }

  lemma MirrorZInvolution()
    ensures Product(MirrorZ(), MirrorZ()) == Translate(Vector3.ZERO)
  {
    var m := MirrorZ();
    assert RowOfProduct(m, m, 0) == Vec4(1.0, 0.0, 0.0, 0.0);
    assert RowOfProduct(m, m, 1) == Vec4(0.0, 1.0, 0.0, 0.0);
    assert RowOfProduct(m, m, 2) == Vec4(0.0, 0.0, 1.0, 0.0);
    assert RowOfProduct(m, m, 3) == Vec4(0.0, 0.0, 0.0, 1.0);
  }

  lemma Mirror0Involution()
    ensures Product(Mirror0(), Mirror0()) == Translate(Vector3.ZERO)
  {
    var m := Mirror0();
    assert RowOfProduct(m, m, 0) == Vec4(1.0, 0.0, 0.0, 0.0);
    assert RowOfProduct(m, m, 1) == Vec4(0.0, 1.0, 0.0, 0.0);
    assert RowOfProduct(m, m, 2) == Vec4(0.0, 0.0, 1.0, 0.0);
    assert RowOfProduct(m, m, 3) == Vec4(0.0, 0.0, 0.0, 1.0);
  }

  /** The half turn about the z axis. */
  function HalfTurnZ(): Mat4
  {
    Mat4(Vec4(-1.0, 0.0, 0.0, 0.0), Vec4(0.0, -1.0, 0.0, 0.0), Vec4(0.0, 0.0, 1.0, 0.0), Vec4(0.0, 0.0, 0.0, 1.0))
  }

  /** The x and y mirrors compose to the half turn about the z axis. */
  lemma MirrorXYCompose()
    ensures Product(MirrorX(), MirrorY()) == HalfTurnZ()
  {
    var x, y := MirrorX(), MirrorY();
    assert RowOfProduct(x, y, 0) == Vec4(-1.0, 0.0, 0.0, 0.0);
    assert RowOfProduct(x, y, 1) == Vec4(0.0, -1.0, 0.0, 0.0);
    assert RowOfProduct(x, y, 2) == Vec4(0.0, 0.0, 1.0, 0.0);
    assert RowOfProduct(x, y, 3) == Vec4(0.0, 0.0, 0.0, 1.0);
  }

  /** The half turn about z followed by the z mirror is the point
      reflection. */
  lemma HalfTurnThenMirrorZ()
    ensures Product(HalfTurnZ(), MirrorZ()) == Mirror0()
  {
    var h, z := HalfTurnZ(), MirrorZ();
    assert RowOfProduct(h, z, 0) == Vec4(-1.0, 0.0, 0.0, 0.0);
    assert RowOfProduct(h, z, 1) == Vec4(0.0, -1.0, 0.0, 0.0);
    assert RowOfProduct(h, z, 2) == Vec4(0.0, 0.0, -1.0, 0.0);
    assert RowOfProduct(h, z, 3) == Vec4(0.0, 0.0, 0.0, 1.0);
  }

  /** The three axis mirrors compose to the point reflection. */
  lemma AxisMirrorsCompose()
    ensures Product(Product(MirrorX(), MirrorY()), MirrorZ()) == Mirror0()
  {
    MirrorXYCompose();
    HalfTurnThenMirrorZ();
  }

  /** `ONE` is no unit: ONE * ONE has every entry 4. */
  lemma OneSquared()
    ensures Product(ONE, ONE) == Mat4(Splat(4.0), Splat(4.0), Splat(4.0), Splat(4.0))
    ensures Product(ONE, ONE) != ONE
  {
    var four := Vec4(4.0, 4.0, 4.0, 4.0);
    assert Splat(4.0) == four;
    assert RowOfProduct(ONE, ONE, 0) == four;
    assert RowOfProduct(ONE, ONE, 1) == four;
    assert RowOfProduct(ONE, ONE, 2) == four;
    assert RowOfProduct(ONE, ONE, 3) == four;
  }

  /** The shear with all factors zero is the identity. */
  lemma ShearZero()
    ensures Shear(0.0, 0.0, 0.0, 0.0, 0.0, 0.0) == Translate(Vector3.ZERO)
  {
  }

  /** Writing a row through `IndexMut` and reading it back gives that row;
      every other row reads as before. */
  lemma IndexAfterIndexMut(m: Mat4, i: nat, j: nat, row: Vec4)
    requires i < 4 && j < 4
    ensures m.IndexMut(i, row).value.Index(j) == if i == j then Some(row) else m.Index(j)
  {
  }
}

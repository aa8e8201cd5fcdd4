# rayst in Dafny

A model of the core of `rayst`, a small Rust ray tracer, with proofs of
what its code promises. Every `f32` is a Dafny `real`. The square root is
left uninterpreted: the predicate `Numbers.SqrtLaws()` states its laws, and
every proof that needs them takes it as a hypothesis.

What is modelled:

- **Linear algebra.**
  - The vectors `Vec2`, `Vec3` and `Vec4` with their `Vector` members and
    indexing.
  - The `vec_op!` operator family. Module `VecOps` gives the operator, and
    each vector module has its five shapes.
  - The homogeneous conversions between `Vec3` and `Vec4`.
  - The 4×4 matrix: indexing, the constant and affine constructors, and the
    product, which is computed by the source's triple loop.
- **Rays and hits.** `Ray::new` normalises the direction, and `at(t)` is
  `origin + t·direction`. `Hit::new` normalises the normal.
- **Primitives.**
  - The Möller–Trumbore triangle test.
  - The sphere's closest-approach test.
  - Both primitives' bounding boxes.
  - `Box<dyn Geometry>` becomes the datatype `Shapes.Shape`, with one case
    per primitive.
- **`SimpleGroup`.** A class whose `list` field `push` extends. Its
  `intersect` is the source's loop, proved equal to the reference scan
  `Groups.Nearest`.
- **Shading.**
  - The point light's shadow ray and inverse-square falloff.
  - The ray-trace integrator's accumulation loop, proved equal to
    `RayTrace.Radiance`.
  - The debug shade.
  - The Lambertian BRDF.
- **Colour quantisation.** `Color::to_u8`.

Behaviour that looks unintended is modelled as written, and lemmas show
what it implies:

- **Sphere candidate.** The sphere's `does_intersect` uses
  `radius2 + height2` under the root. `Spheres.CandidatesDisagree` gives a
  ray on which it contradicts `intersect`.
- **Cross product.** The z component of `Vec3::cross` is non-standard.
  - `Vector3.CrossAsWritten`: the result is not perpendicular to its
    arguments.
  - `Triangles.UnitTestNormal`: the unit-test triangle's `e2 × e1` is the zero vector, so in f32 the reported normal is NaN; the model's `Normalized` returns the zero vector.
  - `Triangles.HitOutsideAsWritten`: the triangle accepts a point outside
    itself.
- **`Mat4::ONE`.** It is all ones: `Matrix4.OneSquared`.
- **No cosine clamp.** The integrator does not clamp negative cosines:
  `RayTrace.BacklightDarkens`.

World queries become function parameters or datatype cases:

- `sample` receives the world's `does_intersect` as `occluded: Ray -> bool`.
- `li` uses the group's own scan as that query (`RayTrace.Occluder`).
- The debug shade takes the world's two answers as functions.

Index operators return `Option`, where `None` is the panic. `IndexMut`
followed by a write is a function that returns the updated value.

`Matrix4.Transform`, a matrix applied to a homogeneous column vector, is
not part of matrix4x4.rs. The model uses it to say what each affine
constructor does to a point.

The `Vec3` primitives `length_squared`, `dot`, `cross`, `normalized` and
the operators, `Ray::at`, and the triangle's edges, determinant and face
normal are used by every geometric proof. Their properties are stated by
separate lemmas, so the rows below cite those lemmas:
`Vector3.LengthSquaredIsSelfDot`, `Vector3.LengthSquaredZero`,
`Vector3.DotSymmetric`, `Vector3.CrossSelfXY`, `Vector3.CrossAsWritten`,
`Vector3.NormalizedIsUnit`, `Vector3.CombineAt`,
`Vector3.ScalarCombineSwapped`, `Rays.AtOffset`, `Triangles.ParallelMisses`
and `Triangles.FaceNormalIsUnit`.

## Model

| member | source | states |
|---|---|---|
| Numbers.Abs | src/geometry/triangle.rs:31 | `f32::abs`: non-negative, and equal to the argument or its negation |
| Numbers.Min | src/math/vec2.rs:62-67 | `f32::min` without NaN: below both arguments, and one of them |
| Numbers.Max | src/math/vec2.rs:69-74 | `f32::max` without NaN: above both arguments, and one of them |
| Numbers.Clamp | src/color.rs:21-23 | `clamp(lo, hi)` lands in [lo, hi]; it is the identity inside, lo below and hi above |
| VecOps.ApplySwapped | src/math/macros.rs:4-15 | of the four operator arms, `+` and `*` commute and `-` anticommutes; with operands swapped, `/` gives the reciprocal |
| Vector2.Vec2.LengthSquared | src/math/vec2.rs:50-52 | `length_squared` is `dot(v, v)`, is never negative, and is zero exactly for the zero vector |
| Vector2.Vec2.Length | src/math/vec2.rs:46-48 | under the square-root laws, the non-negative number whose square is the squared length; zero exactly for the zero vector |
| Vector2.Vec2.Dot | src/math/vec2.rs:58-60 | zero when either side is the zero vector |
| Vector2.Vec2.Normalized | src/math/vec2.rs:40-44 | under the square-root laws, a nonzero vector becomes a unit vector which, times the positive length, gives the original back; the zero vector stays zero |
| Vector2.Vec2.Normalize | src/math/vec2.rs:34-38 | the in-place normalize leaves the receiver equal to `normalized()`, which does not change the original |
| Vector2.Vec2.MinVector | src/math/vec2.rs:62-67 | is componentwise ≤ both arguments, and each component comes from one of them |
| Vector2.Vec2.MaxVector | src/math/vec2.rs:69-74 | is componentwise ≥ both arguments, and each component comes from one of them |
| Vector2.Vec2.MinComponent | src/math/vec2.rs:76-78 | is ≤ x and y, and is one of them |
| Vector2.Vec2.MaxComponent | src/math/vec2.rs:80-82 | is ≥ x and y, and is one of them |
| Vector2.Vec2.Index | src/math/vec2.rs:98-108 | indices 0 and 1 give x and y; every other index panics |
| Vector2.Vec2.IndexMut | src/math/vec2.rs:110-118 | writing through an index changes only that component; indices of 2 or more panic |
| Vector2.Vec2.Combine | src/math/macros.rs:23-31 | vector op vector applies the operator field by field; adding or subtracting ZERO changes nothing, and v - v is ZERO |
| Vector2.Vec2.CombineScalar | src/math/macros.rs:33-41 | vector op scalar combines every field with the scalar; `+ 0`, `- 0`, `* 1` and `/ 1` change nothing |
| Vector2.Vec2.CombineAssign | src/math/macros.rs:53-59 | `a op= b` leaves `a` equal to the old `a op b` |
| Vector2.Vec2.CombineScalarAssign | src/math/macros.rs:61-67 | `a op= s` leaves `a` equal to the old `a op s` |
| Vector2.ScalarCombine | src/math/macros.rs:43-51 | scalar op vector combines the scalar with every field; for `+` and `*` it equals vector op scalar |
| Vector2.Splat | src/math/vec2.rs:92-96 | `From<f32>` sets both components to the scalar |
| Vector2.OppositeDirections | src/math/vec2.rs:20-26 | UP is the negation of DOWN, and LEFT of RIGHT, whether computed by scaling by -1 or by subtracting from ZERO |
| Vector2.IndexAfterIndexMut | src/math/vec2.rs:98-118 | reading back after a write gives the written value at that index and the old value elsewhere |
| Vector3.Vec3.Length | src/math/vec3.rs:32-34 | under the square-root laws, the non-negative number whose square is the squared length |
| Vector3.Vec3.Normalize | src/math/vec3.rs:15-20 | the in-place normalize, one field at a time by the length taken first, leaves the receiver equal to `normalized()` |
| Vector3.Vec3.MinVector | src/geometry/triangle.rs:67 | is componentwise ≤ both arguments, and each component comes from one of them |
| Vector3.Vec3.MaxVector | src/geometry/triangle.rs:68 | is componentwise ≥ both arguments, and each component comes from one of them |
| Vector3.Vec3.Index | src/math/vec3.rs:71-82 | indices 0, 1 and 2 give x, y and z; every other index panics |
| Vector3.Vec3.IndexMut | src/math/vec3.rs:84-93 | writing through an index changes only that component; indices of 3 or more panic |
| Vector3.Vec3.CombineScalar | src/math/macros.rs:33-41 | vector op scalar combines every field with the scalar; `+ 0`, `- 0`, `* 1` and `/ 1` change nothing |
| Vector3.Vec3.CombineAssign | src/math/macros.rs:53-59 | `a op= b` leaves `a` equal to the old `a op b` |
| Vector3.Vec3.CombineScalarAssign | src/math/macros.rs:61-67 | `a op= s` leaves `a` equal to the old `a op s` |
| Vector3.Splat | src/math/vec3.rs:61-69 | `From<f32>` sets every component to the scalar |
| Vector3.LengthSquaredIsSelfDot | src/math/vec3.rs:28-38 | `length_squared` is `dot(v, v)` and is non-negative |
| Vector3.LengthSquaredZero | src/math/vec3.rs:28-30 | the squared length is zero exactly for the zero vector |
| Vector3.DotSymmetric | src/math/vec3.rs:36-38 | `dot` is symmetric |
| Vector3.CrossSelfXY | src/math/vec3.rs:42-43 | `a.cross(a)` has zero x and y components |
| Vector3.CrossAsWritten | src/math/vec3.rs:44 | the z component as written: (0,1,1)×(0,1,1) is (0,0,-1), and (0,1,0)×(0,0,1) is (1,0,-1), which is not perpendicular to (0,0,1) |
| Vector3.PlusCommutes | src/math/vec3.rs:49-59 | `Add` is componentwise and commutative |
| Vector3.CombineAt | src/math/macros.rs:23-31 | vector op vector applies the operator field by field |
| Vector3.CombineScalarIsSplat | src/math/macros.rs:33-41 | vector op scalar equals vector op the splatted scalar |
| Vector3.ScalarCombineSwapped | src/math/macros.rs:43-51 | scalar op vector equals vector op scalar for `+` and `*`, and is its negation for `-` |
| Vector3.IndexAfterIndexMut | src/math/vec3.rs:71-93 | reading back after a write gives the written value at that index and the old value elsewhere |
| Vector3.NormalizedIsUnit | src/math/vec3.rs:22-26 | a nonzero vector normalizes to unit length, as itself times the positive factor 1/length |
| Vector3.NormalizedUnit | src/math/vec3.rs:22-26 | a unit vector normalizes to itself |
| Vector3.NormalizedScaleInvariant | src/math/vec3.rs:22-26 | vectors that differ by a positive factor normalize alike |
| Vector4.Vec4.LengthSquared | src/math/vec4.rs:49-51 | `length_squared` is `dot(v, v)`, is never negative, and is zero exactly for the zero vector |
| Vector4.Vec4.Length | src/math/vec4.rs:45-47 | under the square-root laws, the non-negative number whose square is the squared length; zero exactly for the zero vector |
| Vector4.Vec4.Dot | src/math/vec4.rs:57-59 | zero when either side is the zero vector |
| Vector4.Vec4.Normalized | src/math/vec4.rs:39-43 | under the square-root laws, a nonzero vector becomes a unit vector which, times the positive length, gives the original back; the zero vector stays zero |
| Vector4.Vec4.Normalize | src/math/vec4.rs:31-37 | the in-place normalize leaves the receiver equal to `normalized()`, which does not change the original |
| Vector4.Vec4.MinVector | src/math/vec4.rs:61-68 | is componentwise ≤ both arguments, and each component comes from one of them |
| Vector4.Vec4.MaxVector | src/math/vec4.rs:70-77 | is componentwise ≥ both arguments, and each component comes from one of them |
| Vector4.Vec4.MinComponent | src/math/vec4.rs:79-81 | is ≤ all four components, and is one of them |
| Vector4.Vec4.MaxComponent | src/math/vec4.rs:83-85 | is ≥ all four components, and is one of them |
| Vector4.Vec4.Index | src/math/vec4.rs:124-136 | indices 0 to 3 give x, y, z and w; every other index panics |
| Vector4.Vec4.IndexMut | src/math/vec4.rs:138-148 | writing through an index changes only that component; indices of 4 or more panic |
| Vector4.Vec4.Combine | src/math/macros.rs:23-31 | vector op vector applies the operator field by field; adding or subtracting ZERO changes nothing, and v - v is ZERO |
| Vector4.Vec4.CombineScalar | src/math/macros.rs:33-41 | vector op scalar combines every field with the scalar; `+ 0`, `- 0`, `* 1` and `/ 1` change nothing |
| Vector4.Vec4.CombineAssign | src/math/macros.rs:53-59 | `a op= b` leaves `a` equal to the old `a op b` |
| Vector4.Vec4.CombineScalarAssign | src/math/macros.rs:61-67 | `a op= s` leaves `a` equal to the old `a op s` |
| Vector4.Vec4.ToVec3 | src/math/vec4.rs:108-116 | `From<Vec4> for Vec3` divides x, y and z by a nonzero w: each result times w gives back the component |
| Vector4.ScalarCombine | src/math/macros.rs:43-51 | scalar op vector combines the scalar with every field; for `+` and `*` it equals vector op scalar |
| Vector4.Splat | src/math/vec4.rs:118-122 | `From<f32>` sets all four components to the scalar |
| Vector4.FromVec3 | src/math/vec4.rs:97-106 | `From<Vec3>` gives (x, y, z, 1) |
| Vector4.HomogeneousRoundTrip | src/math/vec4.rs:97-116 | Vec3 → Vec4 → Vec3 is the identity |
| Vector4.IndexAfterIndexMut | src/math/vec4.rs:124-148 | reading back after a write gives the written value at that index and the old value elsewhere |
| Matrix4.Mat4.Row | src/math/matrix4x4.rs:144-156 | row i < 4 is the row that indexing returns |
| Matrix4.Mat4.At | src/math/matrix4x4.rs:144-156 | entry (i, j), for i, j < 4, is what `self[i][j]` returns, and both indexings succeed |
| Matrix4.Mat4.Index | src/math/matrix4x4.rs:144-156 | indices 0 to 3 give the x, y, z and w rows; every other index panics |
| Matrix4.Mat4.IndexMut | src/math/matrix4x4.rs:158-168 | writing a row through an index changes only that row; indices of 4 or more panic |
| Matrix4.Mat4.Mul | src/math/matrix4x4.rs:131-141 | the triple loop leaves `res[i][j]` equal to the sum over k < 4 of `self[i][k]·rhs[k][j]`, for every i, j < 4 |
| Matrix4.Product | src/math/matrix4x4.rs:131-141 | on every entry, the product matrix is that sum over k |
| Matrix4.Translate | src/math/matrix4x4.rs:36-43 | applied to any point (x, y, z, 1), `translate(v)` moves it by v |
| Matrix4.Scale | src/math/matrix4x4.rs:45-52 | `scale(v)` multiplies every point componentwise by v |
| Matrix4.MirrorX | src/math/matrix4x4.rs:54-61 | `mirror_x` negates the x coordinate of every point and keeps y and z |
| Matrix4.MirrorY | src/math/matrix4x4.rs:63-70 | `mirror_y` negates the y coordinate of every point and keeps x and z |
| Matrix4.MirrorZ | src/math/matrix4x4.rs:72-79 | `mirror_z` negates the z coordinate of every point and keeps x and y |
| Matrix4.Mirror0 | src/math/matrix4x4.rs:81-88 | `mirror_0` negates every coordinate of every point |
| Matrix4.Shear | src/math/matrix4x4.rs:90-97 | `shear` adds to each coordinate the other two, weighted by the factors `x_y`, `x_z` for x, `y_x`, `y_z` for y, and `z_x`, `z_y` for z |
| Matrix4.ProductZero | src/math/matrix4x4.rs:22-27 | multiplying by `ZERO` on either side gives `ZERO` |
| Matrix4.TranslateZeroIsUnit | src/math/matrix4x4.rs:36-43 | `translate(0)` is a left and a right unit of the product |
| Matrix4.ScaleCompose | src/math/matrix4x4.rs:45-52 | `scale(a)·scale(b)` is `scale` of the componentwise product |
| Matrix4.MirrorXInvolution | src/math/matrix4x4.rs:54-61 | `mirror_x` squared is `translate(0)` |
| Matrix4.MirrorYInvolution | src/math/matrix4x4.rs:63-70 | `mirror_y` squared is `translate(0)` |
| Matrix4.MirrorZInvolution | src/math/matrix4x4.rs:72-79 | `mirror_z` squared is `translate(0)` |
| Matrix4.Mirror0Involution | src/math/matrix4x4.rs:81-88 | `mirror_0` squared is `translate(0)` |
| Matrix4.MirrorXYCompose | src/math/matrix4x4.rs:54-70 | `mirror_x·mirror_y` is the half turn about z |
| Matrix4.HalfTurnThenMirrorZ | src/math/matrix4x4.rs:72-88 | the half turn about z times `mirror_z` is `mirror_0` |
| Matrix4.AxisMirrorsCompose | src/math/matrix4x4.rs:54-88 | `mirror_x·mirror_y·mirror_z` is `mirror_0` |
| Matrix4.OneSquared | src/math/matrix4x4.rs:29-34 | `ONE` is all ones, so `ONE·ONE` has every entry 4 and differs from `ONE` |
| Matrix4.ShearZero | src/math/matrix4x4.rs:90-97 | the shear with all factors zero is `translate(0)` |
| Matrix4.IndexAfterIndexMut | src/math/matrix4x4.rs:144-168 | reading back after a row write gives the written row at that index and the old row elsewhere |
| Colors.Color.ToU8 | src/color.rs:19-25 | three bytes; byte i is the floor of the clamped channel i times 255 |
| Colors.Color.Channel | src/color.rs:21-23 | each channel is clamped into [0, 1] |
| Colors.ChannelToU8 | src/color.rs:21-23 | a byte that truncates clamp(c, 0, 1)·255; a channel ≤ 0 gives 0 and a channel ≥ 1 gives 255 |
| Colors.ChannelMonotone | src/color.rs:21-23 | a brighter channel never gives a smaller byte |
| Colors.Truncates | src/color.rs:21-23 | the cast is a truncation: 0.5 gives 127 (not 128), and 0.999 gives 254 |
| Colors.ChannelsIndependent | src/color.rs:21-23 | each byte depends only on its own channel |
| Colors.Color.Plus | src/integrators/ray_trace.rs:20 | `+` of colours has BLACK as a unit on both sides |
| Colors.Color.Scale | src/integrators/ray_trace.rs:20 | scaling by 1 changes nothing, and scaling by 0 gives BLACK |
| Colors.Color.Div | src/lights/point.rs:27 | for a nonzero divisor, the quotient scaled back by the divisor is the colour |
| Colors.PlusMonoid | src/integrators/ray_trace.rs:16-20 | the `+=` of colours is commutative and associative, with unit BLACK |
| Rays.Ray.New | src/ray.rs:11-19 | keeps the origin and both bounds; under the square-root laws the stored direction has unit length |
| Rays.NewAcceptsNonzero | src/ray.rs:14 | the constructor's precondition rejects exactly the zero direction |
| Rays.NewStoresUnitDirection | src/ray.rs:11-19 | `new` keeps the origin and the bounds; it stores a unit direction, the given one times the positive factor 1/length |
| Rays.NewKeepsUnitDirection | src/ray.rs:35-40 | a unit direction such as (1,0,0) is stored unchanged |
| Rays.NewScaleInvariant | src/ray.rs:41-52 | directions that differ by a positive factor give the same ray |
| Rays.NewExampleOblique | src/ray.rs:47-52 | (-9,9,27) gives the same ray as (-1,1,3) |
| Rays.AtOffset | src/ray.rs:21-23 | `at(t) - origin` is `t·direction`; `at(0)` is the origin; `at(-t)` reaches the opposite offset |
| Rays.AtDistance | src/ray.rs:21-23 | on a unit direction, `at(t)` lies at squared distance t² from the origin |
| Hits.Hit.New | src/geometry/mod.rs:14-20 | keeps point and distance; under the square-root laws a nonzero normal is stored with unit length |
| Hits.NewNormalIsUnit | src/geometry/mod.rs:14-20 | `Hit::new` keeps point and distance, and stores a unit normal that is the given one times a positive factor |
| Hits.NewNormalScaleInvariant | src/geometry/mod.rs:17 | normals that differ by a positive factor give the same record |
| Triangles.Triangle.U | src/geometry/triangle.rs:35-38 | u times the determinant `e1·h` is `(origin - v0)·(direction × e2)`, the numerator of Cramer's rule |
| Triangles.Triangle.V | src/geometry/triangle.rs:42-43 | v times the determinant is `direction·((origin - v0) × e1)` |
| Triangles.Triangle.T | src/geometry/triangle.rs:47 | t times the determinant is `e2·((origin - v0) × e1)` |
| Triangles.Triangle.Accepts | src/geometry/triangle.rs:31-48 | a ray that passes every test has a nonzero determinant, 0 ≤ v ≤ 1, and a nonempty interval |
| Triangles.Triangle.Intersect | src/geometry/triangle.rs:22-59 | a hit exactly when the parallel cutoff, the u range, the v range and the interval check all pass; the hit is at `at(t)` with distance t and normal `normalize(e2 × e1)` |
| Triangles.Triangle.DoesIntersect | src/geometry/triangle.rs:61-63 | true exactly when `intersect` reports a hit |
| Triangles.Triangle.GetBounds | src/geometry/triangle.rs:65-70 | the box contains all three vertices, and each bound component is one of the vertices' components |
| Triangles.ParallelMisses | src/geometry/triangle.rs:29-33 | if \|e1·h\| < EPSILON there is no hit, for any origin of the ray |
| Triangles.HitIsInside | src/geometry/triangle.rs:38-52 | every hit has 0 ≤ u ≤ 1, v ≥ 0, u + v ≤ 1, and min < distance < max, and lies at `at(distance)` |
| Triangles.FaceNormalIsUnit | src/geometry/triangle.rs:53 | under the square-root laws, when `e2 × e1` is nonzero, the face normal and the normal of every reported hit have unit length |
| Triangles.NormalIndependentOfRay | src/geometry/triangle.rs:53 | every ray that hits gets the same normal |
| Triangles.UnitTestNormal | src/geometry/triangle.rs:84 | with the cross product as written, the test triangle's `e2 × e1` is the zero vector, so in f32 the reported normal is NaN; the model's `Normalized` returns the zero vector |
| Triangles.UnitTestCoordinates | src/geometry/triangle.rs:84-85 | for rays along +z against the test triangle: determinant -1, u = x, v = 0 and t = -z |
| Triangles.UnitTestHit | src/geometry/triangle.rs:84-85 | a +z ray hits exactly when 0 ≤ x ≤ 1 and -z lies in its interval, whatever y is |
| Triangles.UnitTestHitDistance | src/geometry/triangle.rs:47-52 | a reported hit of such a ray is at distance -z |
| Triangles.UnitTestHitPoint | src/geometry/triangle.rs:47-52 | a reported hit of such a ray lies at (x, y, 0) |
| Triangles.UnitTestRay | src/geometry/triangle.rs:83-88 | the test ray from (0.1, 0.1, -0.1) hits exactly when 0.1 lies in its interval |
| Triangles.HitOutsideAsWritten | src/geometry/triangle.rs:42-46 | as written, the ray from (0.5, 5, -1) is reported to hit at (0.5, 5, 0), outside the triangle |
| Spheres.Sphere.HeightSquared | src/geometry/sphere.rs:28-30 | the squared height of the closest point over the center is never negative |
| Spheres.Sphere.EntryDistance | src/geometry/sphere.rs:37 | under the square-root laws, when height2 ≤ radius2, the entry root is not beyond the closest approach |
| Spheres.Sphere.ShadowCandidate | src/geometry/sphere.rs:65 | under the square-root laws, the `radius2 + height2` candidate is not beyond the closest approach, and, when height2 ≤ radius2, not beyond the entry root either |
| Spheres.Sphere.Intersect | src/geometry/sphere.rs:21-48 | no hit when height2 > radius2; otherwise a hit exactly when the entry root lies in the interval; the hit is at `at(entry)` with normal `normalize(point - center)` |
| Spheres.Sphere.DoesIntersect | src/geometry/sphere.rs:50-67 | false when height2 > radius2; otherwise true exactly when the `radius2 + height2` candidate lies in the interval |
| Spheres.Sphere.GetBounds | src/geometry/sphere.rs:69-74 | the box is center ∓ radius componentwise, and contains the center when radius ≥ 0 |
| Spheres.DistanceAlongRay | src/geometry/sphere.rs:24-31 | on a unit direction, the squared distance from the center to `at(t)` is height2 + (t - closest)² |
| Spheres.MissesAboveRadius | src/geometry/sphere.rs:33-35 | when height2 > radius2, `intersect` is None and `does_intersect` is false (lines 62-64 too) |
| Spheres.EntryNotBeyondClosest | src/geometry/sphere.rs:37 | the reported distance is never beyond the closest approach |
| Spheres.HitOnSurface | src/geometry/sphere.rs:37-41 | on a unit direction, every hit point lies on the sphere |
| Spheres.HitNormalIsUnit | src/geometry/sphere.rs:39-43 | for a nonzero radius, the reported normal is unit length: the offset from the center divided by \|radius\| |
| Spheres.HitInsideBounds | src/geometry/sphere.rs:69-74 | for radius ≥ 0 and a unit direction, every hit point lies inside `get_bounds` |
| Spheres.CandidatesAgreeIffCentral | src/geometry/sphere.rs:37-65 | the two candidates, `radius2 - height2` at line 37 and `radius2 + height2` at line 65, coincide exactly when height2 = 0 |
| Spheres.CandidatesDisagree | src/geometry/sphere.rs:65 | on the ray from (-2, 0.6, 0) along +x with interval (1, 2), `intersect` hits at 1.2 and `does_intersect` is false |
| Spheres.UnitTestIntersect | src/geometry/sphere.rs:91-95 | the test ray from (0.5, 0, -1) along +z enters at 1 - sqrt(0.75), in (0.133, 0.134), and hits exactly when that distance lies in its interval |
| Spheres.UnitTestDoesIntersect | src/geometry/sphere.rs:84-88 | the test ray from (-2, 0, 0) along (1, 0.5, 0) has a candidate in (0.447, 0.448), and `does_intersect` holds exactly when the candidate lies in the interval |
| Shapes.Shape.Intersect | src/geometry/mod.rs:23-27 | every primitive's hit lies strictly inside the ray interval, at `at(distance)` |
| Shapes.Shape.DoesIntersect | src/geometry/mod.rs:23-27 | for a triangle, true exactly when `intersect` reports a hit; for any primitive, true only when the ray interval is nonempty |
| Shapes.Shape.GetBounds | src/geometry/mod.rs:23-27 | a triangle's box contains its three vertices, and a sphere's box, for radius ≥ 0, contains its center |
| Shapes.DoesIntersectAgrees | src/geometry/triangle.rs:61-63 | `does_intersect` equals `intersect(..).is_some()` for a triangle, and for a sphere when height2 = 0 |
| Groups.SimpleGroup.constructor | src/groups/simple_group.rs:11-15 | `new` gives an empty list |
| Groups.SimpleGroup.Push | src/groups/simple_group.rs:19-21 | the item goes last, and the old members keep their order |
| Groups.SimpleGroup.Intersect | src/groups/simple_group.rs:25-39 | the loop returns the reference scan `Nearest` of the list |
| Groups.SimpleGroup.DoesIntersect | src/groups/simple_group.rs:41-43 | true exactly when `intersect` reports a hit |
| Groups.Closer | src/groups/simple_group.rs:28-35 | one step of the scan keeps one of the two hits, misses only when both miss, is no farther than either, and on a tie keeps the old hit |
| Groups.Nearest | src/groups/simple_group.rs:25-39 | the reference scan misses exactly when every member misses, and a hit it reports lies strictly inside the ray interval, at `at(distance)` |
| Groups.EmptyMisses | src/groups/simple_group.rs:26-38 | the empty group never reports a hit |
| Groups.NearestIsMinimal | src/groups/simple_group.rs:30 | the reported distance is ≤ every member's hit distance |
| Groups.NearestIsEarliest | src/groups/simple_group.rs:28-34 | the reported hit is a member's hit, and every earlier member's hit is strictly farther, so ties go to the earliest member |
| Groups.NearestAfterPush | src/groups/simple_group.rs:19-39 | after `push`, the answer is the old answer combined with the new member's by one more step of the scan |
| Lights.PointLight.ShadowRay | src/lights/point.rs:23-25 | starts at the point, with lower bound the default minimum and upper bound \|center - point\|; under the square-root laws its direction has unit length |
| Lights.PointLight.Sample | src/lights/point.rs:21-31 | the direction is `normalize(center - point)`; an occluded light gives black; otherwise the colour times \|center - point\|² is the intensity |
| Lights.ShadowRayReachesLight | src/lights/point.rs:25 | the shadow ray starts at the point and has a unit direction; its max_distance is \|center - point\| > 0, and `at(max_distance)` is the center |
| Lights.SampleOnlyAsksShadowRay | src/lights/point.rs:25 | the sample depends on the world only through its `does_intersect` answer for the shadow ray |
| Lights.InverseSquareFalloff | src/lights/point.rs:26-27 | an unoccluded light at twice the distance delivers a quarter of the colour |
| RayTrace.Occluder | src/integrators/ray_trace.rs:19 | the world reports a ray as occluded exactly when some member of the group reports a hit on it |
| RayTrace.Contribution | src/integrators/ray_trace.rs:19-20 | an occluded light contributes BLACK; the term times π is the sample's colour scaled by `normal·dir` |
| RayTrace.LightSum | src/integrators/ray_trace.rs:16-21 | BLACK when every light is occluded at the hit point |
| RayTrace.Radiance | src/integrators/ray_trace.rs:15-24 | BLACK with no hit, and BLACK with no lights |
| RayTrace.Li | src/integrators/ray_trace.rs:15-24 | the loop returns `Radiance` of the group's nearest hit; every light is sampled at that one point; the result is BLACK with no hit or no lights |
| RayTrace.LightSumAppend | src/integrators/ray_trace.rs:18-21 | one more light adds its term `c·(normal·dir)/π` |
| RayTrace.BacklightDarkens | src/integrators/ray_trace.rs:20 | with no clamping, an unoccluded positive light behind the surface lowers every channel |
| RayTrace.BacklightTermNegative | src/integrators/ray_trace.rs:19-20 | the term of such a light is negative in every channel |
| RayTrace.LightSumPermutation | src/integrators/ray_trace.rs:18-21 | over the reals, any permutation of the lights gives the same colour |
| SimpleShade.Shade | src/integrators/simple_shade.rs:6-20 | BLACK with no hit; on a hit r = direction·normal; g = -r and b = 0 |
| SimpleShade.ShadeIgnoresDoesIntersect | src/integrators/simple_shade.rs:8-18 | the colour depends only on `intersect` |
| SimpleShade.TriangleNeverMismatches | src/integrators/simple_shade.rs:10 | a triangle never triggers the mismatch diagnostic |
| SimpleShade.SphereMismatches | src/integrators/simple_shade.rs:10-15 | the unit sphere triggers it on the `CandidatesDisagree` ray, where the colour is (-0.8, 0.8, 0) |
| Materials.Lambertian.Brdf | src/materials/lambertian.rs:10-12 | each channel is the incoming channel times `light_in·normal` |
| Materials.BrdfIgnoresOutAndColor | src/materials/lambertian.rs:5-11 | neither `_light_out` nor the stored colour affects the result |
| Materials.BrdfSign | src/materials/lambertian.rs:11 | with no clamping, light from behind gives negative channels and a perpendicular light gives BLACK |
| Materials.BrdfLinear | src/materials/lambertian.rs:11 | linear in the incoming colour, and symmetric in `light_in` and `normal` |

## Left out

- f32 arithmetic: rounding, NaN, infinities and `is_nan` (src/math/vec2.rs:54, src/math/vec4.rs:53) are not modelled, because every scalar is a real.
- The value of the square root: it is an uninterpreted function constrained only by `SqrtLaws`. PI is the concrete positive constant 3.1415927.
- Vector3.Vec3.Normalized: on the zero vector f32 gives NaN components; the model returns the vector unchanged, because a real division needs a nonzero divisor.
- Vector2.Vec2.Normalized and Vector4.Vec4.Normalized: the same zero-vector choice.
- VecOps.Defined: division by a zero scalar or field yields an f32 infinity or NaN; the model requires a nonzero divisor.
- Colors.Color.Div: requires a nonzero divisor for the same reason.
- Vector4.Vec4.ToVec3: requires w ≠ 0; for w = 0 f32 gives infinities, or NaN for a zero component.
- Numbers.Clamp: requires lo ≤ hi, as `f32::clamp` panics otherwise.
- Rays.Ray.New: requires a nonzero direction. The source panics there in debug builds (`debug_assert_ne!`, src/ray.rs:14, with a test at src/ray.rs:55-62) and yields NaN components in release builds (src/ray.rs:12-13).
- Lights.PointLight.Sample: requires the light not to sit at the point, because the shadow ray's `Ray::new` asserts a nonzero direction.
- RayTrace.Li: requires, when there is a hit, that no light sits at the hit point; this is the same assertion, for every light.
- Rays.DEFAULT_MIN_DISTANCE: src/ray.rs defines only the two-argument `new`, so the lower bound that the four-argument `Ray::new(.., None, ..)` of src/geometry/sphere.rs:86, src/geometry/triangle.rs:85 and src/lights/point.rs:25 uses for `None` is unknown. The model uses an uninterpreted constant.
- The revisions of the files disagree. `Ray::new` takes two arguments in src/ray.rs but four elsewhere. The `Geometry` trait (src/geometry/mod.rs:23-27) has `intersect` and `does_intersect` take `ray: Ray` by value and names its box method `bounds`, while the triangle, sphere and group implementations (src/geometry/triangle.rs:22-65, src/geometry/sphere.rs:21-69, src/groups/simple_group.rs:25-45) take `&Ray` and name it `get_bounds`; only the `Aabb` stub (src/geometry/aabb.rs:12-20) follows the trait. One `Ray` record with origin, direction and both bounds is used throughout, `Ray.New` takes the bounds explicitly, and the box method is `GetBounds`.
- The `(10,0,0)` constructor case of src/ray.rs:41-46 is not stated as its own lemma. `Rays.NewScaleInvariant` and `Rays.NewKeepsUnitDirection` cover it for any origin.
- The Vec3 operators and `Vector` members that vec3.rs lacks but the geometry uses (`-`, min/max vectors) are modelled as the `vec_op!` family and the Vec2/Vec4 members.
- The Color operators that color.rs lacks but the light and the integrator use (`BLACK`, `+=`, `* f32`, `/ f32`) are modelled componentwise.
- `Color::new`, `Sphere::new`, `Triangle::new`, `PointLight::new`, `Vec3::new` and `Mat4::new` are the datatype constructors, which store their fields unchanged.
- The rotation matrices `rotate_x/y/z` (src/math/matrix4x4.rs:99-124) need sine and cosine, which are not modelled.
- The camera (src/camera.rs) is commented out in the source.
- AABB `intersect` and `does_intersect` (src/geometry/aabb.rs:12-18) are `todo!()`. Only the record `Aabb { min, max }` is kept, as the result of `get_bounds`.
- `SimpleGroup::get_bounds` (src/groups/simple_group.rs:45-47) is `todo!()`.
- The `println!` diagnostic of the debug shade is I/O. The condition that triggers it is `SimpleShade.ReportsMismatch`. `main` is not modelled.
- The files for module wiring and traits (world, groups, lights, materials and integrators `mod.rs`, math `mod.rs`, `vec.rs`) hold no behaviour.
  - The `World` is modelled as the geometry and lights parameters of `Li`, and its materials are not used by the integrator.
  - `li` uses the group's scan as the world's `does_intersect`.
- Groups nested inside groups are not modelled: `Shapes.Shape` has cases for spheres and triangles only.
- The `vec_access!` swizzle macros (src/math/macros.rs:72-89) name bare identifiers and have no behaviour to model.
- `IndexMut` hands out a mutable reference. The model is a function from the value, the index and the written value to the updated value, so aliasing through the reference is not captured.

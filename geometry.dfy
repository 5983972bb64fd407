/** Engine value types shared by both components: vectors over `real` (the
    engine's single-precision floats without rounding), a mesh as the two arrays
    the engine hands out, and an Option for the source's failure paths. */
module Geometry {

  datatype Option<T> = None | Some(value: T)

  /** A point or direction in the XZ plane as the source stores it: `x` is the
      world x, `y` is the world z. */
  datatype Vec2 = Vec2(x: real, y: real)

  datatype Vec3 = Vec3(x: real, y: real, z: real)

  function Add(a: Vec3, b: Vec3): Vec3 { Vec3(a.x + b.x, a.y + b.y, a.z + b.z) }

  function Sub(a: Vec3, b: Vec3): Vec3 { Vec3(a.x - b.x, a.y - b.y, a.z - b.z) }

  function Scale(a: Vec3, k: real): Vec3 { Vec3(a.x * k, a.y * k, a.z * k) }

  function Dot(a: Vec3, b: Vec3): real { a.x * b.x + a.y * b.y + a.z * b.z }

  function Cross(a: Vec3, b: Vec3): Vec3
  {
    Vec3(a.y * b.z - a.z * b.y, a.z * b.x - a.x * b.z, a.x * b.y - a.y * b.x)
  }

  /** Projection of a world point onto the floor plane, `new Vector2(v.x, v.z)`. */
  function Planar(v: Vec3): Vec2 { Vec2(v.x, v.z) }

  /** Vector3.down */
  const Down: Vec3 := Vec3(0.0, -1.0, 0.0)

  function Abs(r: real): real { if r < 0.0 then -r else r }

  function Min(a: real, b: real): real { if a <= b then a else b }

  function Max(a: real, b: real): real { if a >= b then a else b }

  lemma MulNonNegative(x: real, y: real)
    requires 0.0 <= x && 0.0 <= y
    ensures 0.0 <= x * y
  {
  }

  /** float.MinValue, the most negative finite single-precision value. */
  const FloatMinValue: real := -340282346638528859811704183484516925440.0

  /** The smallest positive single-precision value (Mathf.Epsilon where
      denormals are supported). */
  const FloatEpsilon: real := 1.401298e-45

  /** Mathf.Approximately: a difference below one millionth of the larger
      magnitude, or below eight times the smallest float. */
  predicate Approximately(a: real, b: real)
  {
    Abs(b - a) < Max(0.000001 * Max(Abs(a), Abs(b)), 8.0 * FloatEpsilon)
  }

  lemma ApproximatelyReflexive(a: real)
    ensures Approximately(a, a)
  {
  }

  /** A vertex array and a triangle-index array, three indices per triangle,
      each index naming a vertex: what Unity's Mesh guarantees of
      `mesh.vertices` and `mesh.triangles`. */
  datatype Mesh = Mesh(vertices: seq<Vec3>, triangles: seq<int>)

  predicate ValidMesh(m: Mesh)
  {
    && |m.triangles| % 3 == 0
    && forall i :: 0 <= i < |m.triangles| ==> 0 <= m.triangles[i] < |m.vertices|
  }
}

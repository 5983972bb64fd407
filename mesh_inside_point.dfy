/** The mesh-based walking restriction: the floor mesh is copied with its top
    layer of vertices raised, and a move is accepted when every bottom corner
    of the walker's box, at the moved position, lies inside that raised mesh
    by the even-odd rule on a downward ray. */
module MeshInside {
  import opened Geometry
  import Floor

  // ---------------------------------------------------------------------------
  // The raised copy of the floor mesh
  // ---------------------------------------------------------------------------

  /** The height of the highest vertex, found by a scan that starts from
      float.MinValue: it is never below float.MinValue, no vertex is above it,
      and it is the height of some vertex unless every vertex lies below
      float.MinValue. */
  function TopY(vs: seq<Vec3>): (m: real)
    ensures FloatMinValue <= m
    ensures forall i :: 0 <= i < |vs| ==> vs[i].y <= m
    ensures m == FloatMinValue || exists i :: 0 <= i < |vs| && vs[i].y == m
  {
    if vs == [] then FloatMinValue
    else
      var m := TopY(vs[..|vs| - 1]);
      var y := vs[|vs| - 1].y;
      assert forall i :: 0 <= i < |vs| - 1 ==> vs[..|vs| - 1][i] == vs[i];
      if y > m then y else m
  }

  /** One vertex of the raised copy: moved up by `yOffset` when its height is
      approximately the top height, kept otherwise. */
  function Raise(v: Vec3, top: real, yOffset: real): Vec3
  {
    if Approximately(v.y, top) then Add(v, Vec3(0.0, yOffset, 0.0)) else v
  }

  /** The raised copy of `mesh`: every vertex raised against the top height
      of the original vertices, the triangle list shared. */
  function Elevated(mesh: Mesh, yOffset: real): Mesh
  {
    var top := TopY(mesh.vertices);
    Mesh(seq(|mesh.vertices|, i requires 0 <= i < |mesh.vertices| => Raise(mesh.vertices[i], top, yOffset)),
         mesh.triangles)
  }

  /** Builds the raised copy: a scan for the top height, then a pass that
      fills a new vertex array. */
  method CreateElevatedMesh(originalMesh: Mesh, yOffset: real) returns (elevatedMesh: Mesh)
    ensures elevatedMesh == Elevated(originalMesh, yOffset)
  {
    var vertices := originalMesh.vertices;
    var triangles := originalMesh.triangles;

    var maxY := FloatMinValue;
    for i := 0 to |vertices|
      invariant maxY == TopY(vertices[..i])
    {
      assert vertices[..i + 1][..i] == vertices[..i];
      if vertices[i].y > maxY {
        maxY := vertices[i].y;
      }
    }
    assert vertices[..|vertices|] == vertices;

    var elevatedVertices := new Vec3[|vertices|];
    for i := 0 to |vertices|
      invariant forall k :: 0 <= k < i ==> elevatedVertices[k] == Raise(vertices[k], maxY, yOffset)
    {
      if Approximately(vertices[i].y, maxY) {
        elevatedVertices[i] := Add(vertices[i], Vec3(0.0, yOffset, 0.0));
      } else {
        elevatedVertices[i] := vertices[i];
      }
      assert elevatedVertices[i] == Raise(vertices[i], maxY, yOffset);
    }

    elevatedMesh := Mesh(elevatedVertices[..], triangles);
  }

  /** What raising keeps: the vertex count, the triangle list (so a valid
      mesh stays valid), and the x and z of every vertex; each vertex either
      stays put or moves up by exactly `yOffset`, the first when its height is
      not approximately the top height, the second when it is. */
  lemma ElevatedShape(mesh: Mesh, yOffset: real)
    ensures |Elevated(mesh, yOffset).vertices| == |mesh.vertices|
    ensures Elevated(mesh, yOffset).triangles == mesh.triangles
    ensures ValidMesh(mesh) ==> ValidMesh(Elevated(mesh, yOffset))
    ensures forall i :: 0 <= i < |mesh.vertices| ==>
      && Elevated(mesh, yOffset).vertices[i].x == mesh.vertices[i].x
      && Elevated(mesh, yOffset).vertices[i].z == mesh.vertices[i].z
    ensures forall i :: 0 <= i < |mesh.vertices| ==>
      Elevated(mesh, yOffset).vertices[i].y ==
        if Approximately(mesh.vertices[i].y, TopY(mesh.vertices)) then mesh.vertices[i].y + yOffset
        else mesh.vertices[i].y
  {
  }

  /** A zero offset gives back the original mesh. */
  lemma ElevatedByZero(mesh: Mesh)
    ensures Elevated(mesh, 0.0) == mesh
  {
    var e := Elevated(mesh, 0.0);
    assert forall i :: 0 <= i < |mesh.vertices| ==> e.vertices[i] == mesh.vertices[i];
  }

  /** The highest vertex is among those raised: for a mesh with a vertex at
      or above float.MinValue, some vertex sits at the top height and ends up
      `yOffset` higher. */
  lemma HighestRaised(mesh: Mesh, yOffset: real, j: int)
    requires 0 <= j < |mesh.vertices| && FloatMinValue <= mesh.vertices[j].y
    ensures exists i :: (0 <= i < |mesh.vertices| && mesh.vertices[i].y == TopY(mesh.vertices) &&
      Elevated(mesh, yOffset).vertices[i] == Add(mesh.vertices[i], Vec3(0.0, yOffset, 0.0)))
  {
    var top := TopY(mesh.vertices);
    var i :| 0 <= i < |mesh.vertices| && mesh.vertices[i].y == top;
    ApproximatelyReflexive(top);
  }

  // ---------------------------------------------------------------------------
  // Ray against triangle (Moller-Trumbore)
  // ---------------------------------------------------------------------------

  /** UnityEngine.Ray as the test reads it. */
  datatype Ray = Ray(origin: Vec3, direction: Vec3)

  /** Below this magnitude the determinant counts as zero: the ray is taken
      as parallel to the triangle's plane. */
  const DetEpsilon: real := 0.00001

  /** Intersections farther along the ray than this are not counted. */
  const MaxRayDistance: real := 1000.0

  /** The determinant of the system `origin + t * direction == v1 + u * e1 +
      v * e2`, with `e1 == v2 - v1` and `e2 == v3 - v1`. */
  function Det(ray: Ray, v1: Vec3, v2: Vec3, v3: Vec3): real
  {
    Dot(Sub(v2, v1), Cross(ray.direction, Sub(v3, v1)))
  }

  /** The first barycentric coordinate, the weight of `v2`. */
  function BaryU(ray: Ray, v1: Vec3, v2: Vec3, v3: Vec3): real
    requires Det(ray, v1, v2, v3) != 0.0
  {
    Dot(Sub(ray.origin, v1), Cross(ray.direction, Sub(v3, v1))) * (1.0 / Det(ray, v1, v2, v3))
  }

  /** The second barycentric coordinate, the weight of `v3`. */
  function BaryV(ray: Ray, v1: Vec3, v2: Vec3, v3: Vec3): real
    requires Det(ray, v1, v2, v3) != 0.0
  {
    Dot(ray.direction, Cross(Sub(ray.origin, v1), Sub(v2, v1))) * (1.0 / Det(ray, v1, v2, v3))
  }

  /** The distance along the ray, in units of its direction. */
  function Distance(ray: Ray, v1: Vec3, v2: Vec3, v3: Vec3): real
    requires Det(ray, v1, v2, v3) != 0.0
  {
    Dot(Sub(v3, v1), Cross(Sub(ray.origin, v1), Sub(v2, v1))) * (1.0 / Det(ray, v1, v2, v3))
  }

  /** The test as the job performs it, rejecting in the source's order: a
      near-zero determinant, then `u` outside [0, 1], then `v` below 0 or
      `u + v` above 1, and finally a distance outside [0, 1000]. So a hit is
      reported only for a determinant at least 0.00001 in magnitude,
      barycentric coordinates in the closed triangle and a distance in
      [0, 1000]. */
  function RayTriangleIntersection(ray: Ray, v1: Vec3, v2: Vec3, v3: Vec3): (hit: bool)
    ensures hit ==> Abs(Det(ray, v1, v2, v3)) >= DetEpsilon
    ensures hit ==> 0.0 <= BaryU(ray, v1, v2, v3) <= 1.0 && 0.0 <= BaryV(ray, v1, v2, v3)
    ensures hit ==> BaryU(ray, v1, v2, v3) + BaryV(ray, v1, v2, v3) <= 1.0
    ensures hit ==> 0.0 <= Distance(ray, v1, v2, v3) <= MaxRayDistance
  {
    var det := Det(ray, v1, v2, v3);
    if det > -DetEpsilon && det < DetEpsilon then false
    else
      var u := BaryU(ray, v1, v2, v3);
      if u < 0.0 || u > 1.0 then false
      else
        var v := BaryV(ray, v1, v2, v3);
        if v < 0.0 || u + v > 1.0 then false
        else
          var tValue := Distance(ray, v1, v2, v3);
          !(tValue < 0.0) && !(tValue > MaxRayDistance)
  }

  /** The point of the triangle with barycentric coordinates `u` and `v`. */
  function TrianglePoint(v1: Vec3, v2: Vec3, v3: Vec3, u: real, v: real): Vec3
  {
    Add(v1, Add(Scale(Sub(v2, v1), u), Scale(Sub(v3, v1), v)))
  }

  /** For a downward ray the determinant is the planar cross product of the
      two edges. */
  lemma DownDet(origin: Vec3, v1: Vec3, v2: Vec3, v3: Vec3)
    ensures Det(Ray(origin, Down), v1, v2, v3)
      == Sub(v2, v1).z * Sub(v3, v1).x - Sub(v2, v1).x * Sub(v3, v1).z
  {
  }

  /** For a downward ray the three computed values, written out over the
      components of the edges `e1`, `e2` and of `t == origin - v1`. */
  lemma DownWeights(origin: Vec3, v1: Vec3, v2: Vec3, v3: Vec3, e1: Vec3, e2: Vec3, t: Vec3, k: real)
    requires Det(Ray(origin, Down), v1, v2, v3) != 0.0
    requires e1 == Sub(v2, v1) && e2 == Sub(v3, v1) && t == Sub(origin, v1)
    requires k == 1.0 / Det(Ray(origin, Down), v1, v2, v3)
    ensures BaryU(Ray(origin, Down), v1, v2, v3) == (t.z * e2.x - t.x * e2.z) * k
    ensures BaryV(Ray(origin, Down), v1, v2, v3) == (e1.z * t.x - e1.x * t.z) * k
    ensures Distance(Ray(origin, Down), v1, v2, v3)
      == (e2.x * (t.y * e1.z - t.z * e1.y) + e2.y * (t.z * e1.x - t.x * e1.z) + e2.z * (t.x * e1.y - t.y * e1.x)) * k
  {
  }

  /** Cramer's rule in the x-z plane: with `k` the inverse of the
      determinant of `p` and `q`, the two weights rebuild `t`. */
  lemma PlanarSolve(px: real, pz: real, qx: real, qz: real, tx: real, tz: real, k: real, u: real, v: real)
    requires (pz * qx - px * qz) * k == 1.0
    requires u == (tz * qx - tx * qz) * k && v == (pz * tx - px * tz) * k
    ensures px * u + qx * v == tx
    ensures pz * u + qz * v == tz
  {
    calc {
      px * u + qx * v;
      (px * (tz * qx - tx * qz) + qx * (pz * tx - px * tz)) * k;
      (tx * (pz * qx - px * qz)) * k;
      tx * ((pz * qx - px * qz) * k);
      tx;
    }
    calc {
      pz * u + qz * v;
      (pz * (tz * qx - tx * qz) + qz * (pz * tx - px * tz)) * k;
      (tz * (pz * qx - px * qz)) * k;
      tz * ((pz * qx - px * qz) * k);
      tz;
    }
  }

  /** The height row of the same system: the weights rebuild `t.y` less the
      distance `d`. */
  lemma HeightSolve(px: real, py: real, pz: real, qx: real, qy: real, qz: real,
                    tx: real, ty: real, tz: real, k: real, u: real, v: real, d: real)
    requires (pz * qx - px * qz) * k == 1.0
    requires u == (tz * qx - tx * qz) * k && v == (pz * tx - px * tz) * k
    requires d == (qx * (ty * pz - tz * py) + qy * (tz * px - tx * pz) + qz * (tx * py - ty * px)) * k
    ensures py * u + qy * v == ty - d
  {
    calc {
      py * u + qy * v;
      (py * (tz * qx - tx * qz) + qy * (pz * tx - px * tz)) * k;
      (ty * (pz * qx - px * qz) - (qx * (ty * pz - tz * py) + qy * (tz * px - tx * pz) + qz * (tx * py - ty * px))) * k;
      ty * ((pz * qx - px * qz) * k) - d;
      ty - d;
    }
  }

  /** The whole system at once: the three rows of
      `t == u * e1 + v * e2 - d * down`. */
  lemma SolveRows(e1: Vec3, e2: Vec3, t: Vec3, k: real, u: real, v: real, d: real)
    requires (e1.z * e2.x - e1.x * e2.z) * k == 1.0
    requires u == (t.z * e2.x - t.x * e2.z) * k && v == (e1.z * t.x - e1.x * t.z) * k
    requires d == (e2.x * (t.y * e1.z - t.z * e1.y) + e2.y * (t.z * e1.x - t.x * e1.z)
                   + e2.z * (t.x * e1.y - t.y * e1.x)) * k
    ensures e1.x * u + e2.x * v == t.x
    ensures e1.y * u + e2.y * v == t.y - d
    ensures e1.z * u + e2.z * v == t.z
  {
    PlanarSolve(e1.x, e1.z, e2.x, e2.z, t.x, t.z, k, u, v);
    HeightSolve(e1.x, e1.y, e1.z, e2.x, e2.y, e2.z, t.x, t.y, t.z, k, u, v, d);
  }

  /** A solution of the three coordinate rows is the triangle point. */
  lemma TrianglePointOfSolution(origin: Vec3, v1: Vec3, v2: Vec3, v3: Vec3, u: real, v: real, d: real)
    requires Sub(v2, v1).x * u + Sub(v3, v1).x * v == Sub(origin, v1).x
    requires Sub(v2, v1).y * u + Sub(v3, v1).y * v == Sub(origin, v1).y - d
    requires Sub(v2, v1).z * u + Sub(v3, v1).z * v == Sub(origin, v1).z
    ensures TrianglePoint(v1, v2, v3, u, v) == Vec3(origin.x, origin.y - d, origin.z)
  {
  }

  /** Whenever the determinant is non-zero, the coordinates and the distance
      the test computes solve `origin + d * down == v1 + u * e1 + v * e2`. */
  lemma DownSolution(origin: Vec3, v1: Vec3, v2: Vec3, v3: Vec3)
    requires Det(Ray(origin, Down), v1, v2, v3) != 0.0
    ensures var ray := Ray(origin, Down);
      TrianglePoint(v1, v2, v3, BaryU(ray, v1, v2, v3), BaryV(ray, v1, v2, v3))
        == Vec3(origin.x, origin.y - Distance(ray, v1, v2, v3), origin.z)
  {
    var ray := Ray(origin, Down);
    var e1, e2, t := Sub(v2, v1), Sub(v3, v1), Sub(origin, v1);
    var det := Det(ray, v1, v2, v3);
    var k := 1.0 / det;
    DownDet(origin, v1, v2, v3);
    DownWeights(origin, v1, v2, v3, e1, e2, t, k);
    var u, v, d := BaryU(ray, v1, v2, v3), BaryV(ray, v1, v2, v3), Distance(ray, v1, v2, v3);
    assert (e1.z * e2.x - e1.x * e2.z) * k == 1.0 by {
      assert det * k == 1.0;
    }
    SolveRows(e1, e2, t, k, u, v, d);
    TrianglePointOfSolution(origin, v1, v2, v3, u, v, d);
  }

  /** Soundness of the downward test: a reported hit names the point of the
      triangle, at the reported coordinates, lying straight below the ray's
      origin at the reported depth (by the test's own contract a point of the
      closed triangle, at a depth between 0 and 1000). */
  lemma DownHitOnTriangle(origin: Vec3, v1: Vec3, v2: Vec3, v3: Vec3)
    ensures RayTriangleIntersection(Ray(origin, Down), v1, v2, v3) ==>
      var ray := Ray(origin, Down);
      TrianglePoint(v1, v2, v3, BaryU(ray, v1, v2, v3), BaryV(ray, v1, v2, v3))
        == Vec3(origin.x, origin.y - Distance(ray, v1, v2, v3), origin.z)
  {
    if RayTriangleIntersection(Ray(origin, Down), v1, v2, v3) {
      DownSolution(origin, v1, v2, v3);
    }
  }

  lemma ConvexBetween(a: real, b: real, c: real, u: real, v: real)
    requires 0.0 <= u && 0.0 <= v && u + v <= 1.0
    ensures Min(a, Min(b, c)) <= a + ((b - a) * u + (c - a) * v) <= Max(a, Max(b, c))
  {
    var lo, hi := Min(a, Min(b, c)), Max(a, Max(b, c));
    var w := 1.0 - u - v;
    assert a + ((b - a) * u + (c - a) * v) == w * a + u * b + v * c;
    MulNonNegative(w, a - lo);
    MulNonNegative(u, b - lo);
    MulNonNegative(v, c - lo);
    assert w * a + u * b + v * c - lo == w * (a - lo) + u * (b - lo) + v * (c - lo);
    MulNonNegative(w, hi - a);
    MulNonNegative(u, hi - b);
    MulNonNegative(v, hi - c);
    assert hi - (w * a + u * b + v * c) == w * (hi - a) + u * (hi - b) + v * (hi - c);
  }

  lemma AxisBetween(p: real, a: real, b: real, c: real, u: real, v: real)
    requires 0.0 <= u && 0.0 <= v && u + v <= 1.0
    requires p == a + ((b - a) * u + (c - a) * v)
    ensures Min(a, Min(b, c)) <= p <= Max(a, Max(b, c))
  {
    ConvexBetween(a, b, c, u, v);
  }

  lemma TrianglePointParts(v1: Vec3, v2: Vec3, v3: Vec3, u: real, v: real)
    ensures TrianglePoint(v1, v2, v3, u, v).x == v1.x + ((v2.x - v1.x) * u + (v3.x - v1.x) * v)
    ensures TrianglePoint(v1, v2, v3, u, v).y == v1.y + ((v2.y - v1.y) * u + (v3.y - v1.y) * v)
    ensures TrianglePoint(v1, v2, v3, u, v).z == v1.z + ((v2.z - v1.z) * u + (v3.z - v1.z) * v)
  {
  }

  /** A point of the closed triangle lies within the range of its corners
      on every axis. */
  lemma TrianglePointBetween(v1: Vec3, v2: Vec3, v3: Vec3, u: real, v: real)
    requires 0.0 <= u && 0.0 <= v && u + v <= 1.0
    ensures Min(v1.x, Min(v2.x, v3.x)) <= TrianglePoint(v1, v2, v3, u, v).x <= Max(v1.x, Max(v2.x, v3.x))
    ensures Min(v1.y, Min(v2.y, v3.y)) <= TrianglePoint(v1, v2, v3, u, v).y <= Max(v1.y, Max(v2.y, v3.y))
    ensures Min(v1.z, Min(v2.z, v3.z)) <= TrianglePoint(v1, v2, v3, u, v).z <= Max(v1.z, Max(v2.z, v3.z))
  {
    var p := TrianglePoint(v1, v2, v3, u, v);
    TrianglePointParts(v1, v2, v3, u, v);
    AxisBetween(p.x, v1.x, v2.x, v3.x, u, v);
    AxisBetween(p.y, v1.y, v2.y, v3.y, u, v);
    AxisBetween(p.z, v1.z, v2.z, v3.z, u, v);
  }

  /** Where a downward hit can happen: the origin lies within the x and the z
      range of the triangle's corners, and no lower than its lowest corner. */
  lemma DownHitWithinTriangle(origin: Vec3, v1: Vec3, v2: Vec3, v3: Vec3)
    ensures RayTriangleIntersection(Ray(origin, Down), v1, v2, v3) ==>
      && Min(v1.x, Min(v2.x, v3.x)) <= origin.x <= Max(v1.x, Max(v2.x, v3.x))
      && Min(v1.z, Min(v2.z, v3.z)) <= origin.z <= Max(v1.z, Max(v2.z, v3.z))
      && Min(v1.y, Min(v2.y, v3.y)) <= origin.y
  {
    var ray := Ray(origin, Down);
    if RayTriangleIntersection(ray, v1, v2, v3) {
      DownHitOnTriangle(origin, v1, v2, v3);
      TrianglePointBetween(v1, v2, v3, BaryU(ray, v1, v2, v3), BaryV(ray, v1, v2, v3));
    }
  }

  /** A triangle seen edge-on from above is never hit: when all three corners
      share one x, or one z, the determinant is zero. */
  lemma EdgeOnNeverHit(origin: Vec3, v1: Vec3, v2: Vec3, v3: Vec3)
    requires (v1.x == v2.x == v3.x) || (v1.z == v2.z == v3.z)
    ensures !RayTriangleIntersection(Ray(origin, Down), v1, v2, v3)
  {
    var e1, e2 := Sub(v2, v1), Sub(v3, v1);
    assert Det(Ray(origin, Down), v1, v2, v3) == e1.z * e2.x - e1.x * e2.z;
  }

  // ---------------------------------------------------------------------------
  // Counting hits
  // ---------------------------------------------------------------------------

  /** Whether the downward ray from `point` hits triangle `t`. */
  predicate HitsTriangle(vertices: seq<Vec3>, triangles: seq<int>, point: Vec3, t: nat)
    requires ValidMesh(Mesh(vertices, triangles)) && 3 * t + 3 <= |triangles|
  {
    RayTriangleIntersection(Ray(point, Down),
      vertices[triangles[3 * t]], vertices[triangles[3 * t + 1]], vertices[triangles[3 * t + 2]])
  }

  /** How many of the first `n` triangles the downward ray from `point`
      hits: at most `n`. */
  function HitCount(vertices: seq<Vec3>, triangles: seq<int>, point: Vec3, n: nat): (c: nat)
    requires ValidMesh(Mesh(vertices, triangles)) && 3 * n <= |triangles|
    ensures c <= n
  {
    if n == 0 then 0
    else HitCount(vertices, triangles, point, n - 1) + if HitsTriangle(vertices, triangles, point, n - 1) then 1 else 0
  }

  /** The even-odd rule: a point is inside when its downward ray hits an odd
      number of the mesh's triangles. */
  predicate InsideMesh(vertices: seq<Vec3>, triangles: seq<int>, point: Vec3)
    requires ValidMesh(Mesh(vertices, triangles))
  {
    HitCount(vertices, triangles, point, |triangles| / 3) % 2 == 1
  }

  /** The point lies below every vertex of the mesh, or beyond all of them
      on one side along x or along z. */
  predicate BeyondMesh(vertices: seq<Vec3>, point: Vec3)
  {
    || (forall i :: 0 <= i < |vertices| ==> point.y < vertices[i].y)
    || (forall i :: 0 <= i < |vertices| ==> point.x < vertices[i].x)
    || (forall i :: 0 <= i < |vertices| ==> vertices[i].x < point.x)
    || (forall i :: 0 <= i < |vertices| ==> point.z < vertices[i].z)
    || (forall i :: 0 <= i < |vertices| ==> vertices[i].z < point.z)
  }

  /** The downward ray from a point beyond the mesh misses every triangle. */
  lemma MissedTriangle(vertices: seq<Vec3>, triangles: seq<int>, point: Vec3, t: nat)
    requires ValidMesh(Mesh(vertices, triangles)) && 3 * t + 3 <= |triangles|
    requires BeyondMesh(vertices, point)
    ensures !HitsTriangle(vertices, triangles, point, t)
  {
    DownHitWithinTriangle(point, vertices[triangles[3 * t]], vertices[triangles[3 * t + 1]],
      vertices[triangles[3 * t + 2]]);
  }

  /** So none of the first `n` triangles is hit. */
  lemma {:induction false} NoHitsBeyond(vertices: seq<Vec3>, triangles: seq<int>, point: Vec3, n: nat)
    requires ValidMesh(Mesh(vertices, triangles)) && 3 * n <= |triangles|
    requires BeyondMesh(vertices, point)
    ensures HitCount(vertices, triangles, point, n) == 0
  {
    if n > 0 {
      NoHitsBeyond(vertices, triangles, point, n - 1);
      MissedTriangle(vertices, triangles, point, n - 1);
    }
  }

  /** A point below the mesh, or outside its x or z range, is outside: its
      hit count is zero, which is even. */
  lemma OutsideBeyondMesh(vertices: seq<Vec3>, triangles: seq<int>, point: Vec3)
    requires ValidMesh(Mesh(vertices, triangles))
    requires BeyondMesh(vertices, point)
    ensures !InsideMesh(vertices, triangles, point)
  {
    NoHitsBeyond(vertices, triangles, point, |triangles| / 3);
  }

  /** Elevation closes a volume only when the floor mesh already encloses one.
      A flat single-layer floor has every vertex at the top height, so the
      whole surface is lifted by a positive offset and no side faces are
      added: a point resting on or below the original floor lies below every
      lifted vertex and is never inside. */
  lemma FlatFloorLifted(mesh: Mesh, yOffset: real, h: real, point: Vec3)
    requires ValidMesh(mesh)
    requires FloatMinValue <= h && forall i :: 0 <= i < |mesh.vertices| ==> mesh.vertices[i].y == h
    requires 0.0 < yOffset && point.y <= h
    ensures !InsideMesh(Elevated(mesh, yOffset).vertices, Elevated(mesh, yOffset).triangles, point)
  {
    var lifted := Elevated(mesh, yOffset);
    ElevatedShape(mesh, yOffset);
    if |mesh.vertices| > 0 {
      assert mesh.vertices[0].y <= TopY(mesh.vertices);
      assert TopY(mesh.vertices) == h;
      ApproximatelyReflexive(h);
    }
    assert forall i :: 0 <= i < |lifted.vertices| ==> point.y < lifted.vertices[i].y;
    OutsideBeyondMesh(lifted.vertices, lifted.triangles, point);
  }

  /** The point-in-mesh job: one call per point, each writing only its own
      result slot. */
  class IsPointInsideMeshJob {
    const points: seq<Vec3>
    const vertices: seq<Vec3>
    const triangles: seq<int>
    const results: array<bool>

    constructor (points: seq<Vec3>, vertices: seq<Vec3>, triangles: seq<int>, results: array<bool>)
      ensures this.points == points && this.vertices == vertices
      ensures this.triangles == triangles && this.results == results
    {
      this.points := points;
      this.vertices := vertices;
      this.triangles := triangles;
      this.results := results;
    }

    /** Counts the triangles hit by the downward ray from point `index` and
        records whether that count is odd; no other slot changes. */
    method Execute(index: int)
      requires 0 <= index < |points| && index < results.Length
      requires ValidMesh(Mesh(vertices, triangles))
      modifies results
      ensures results[index] == InsideMesh(vertices, triangles, points[index])
      ensures forall j :: 0 <= j < results.Length && j != index ==> results[j] == old(results[j])
    {
      var point := points[index];
      var intersectCount := 0;
      ghost var n := |triangles| / 3;
      Floor.WholeTriangles(|triangles|);
      ghost var t := 0;
      var i := 0;
      while i < |triangles|
        invariant 0 <= t <= n && i == 3 * t && |triangles| == 3 * n
        invariant intersectCount == HitCount(vertices, triangles, point, t)
        invariant unchanged(results)
      {
        Floor.NextFaceFits(i, t, n);
        var v1 := vertices[triangles[i]];
        var v2 := vertices[triangles[i + 1]];
        var v3 := vertices[triangles[i + 2]];
        assert HitsTriangle(vertices, triangles, point, t) == RayTriangleIntersection(Ray(point, Down), v1, v2, v3);
        if RayTriangleIntersection(Ray(point, Down), v1, v2, v3) {
          intersectCount := intersectCount + 1;
        }
        i := i + 3;
        t := t + 1;
      }
      results[index] := intersectCount % 2 == 1;
    }
  }

  // ---------------------------------------------------------------------------
  // The walker's box and the move
  // ---------------------------------------------------------------------------

  /** The four bottom corners of a box of extents `size` centred on
      `position`, in the order (-x,-z), (+x,-z), (+x,+z), (-x,+z): all at the
      height of the box's bottom face, spanning exactly its x and z extents. */
  function GetCubeCorners(size: Vec3, position: Vec3): (r: seq<Vec3>)
    ensures |r| == 4
    ensures forall i :: 0 <= i < 4 ==> r[i].y == position.y - size.y / 2.0
    ensures r[2].x - r[0].x == size.x && r[2].z - r[0].z == size.z
    ensures (r[0].x + r[2].x) / 2.0 == position.x && (r[0].z + r[2].z) / 2.0 == position.z
    ensures r[1].x == r[2].x && r[1].z == r[0].z && r[3].x == r[0].x && r[3].z == r[2].z
  {
    var bottom := position.y - size.y / 2.0;
    [Vec3(position.x - size.x / 2.0, bottom, position.z - size.z / 2.0),
     Vec3(position.x + size.x / 2.0, bottom, position.z - size.z / 2.0),
     Vec3(position.x + size.x / 2.0, bottom, position.z + size.z / 2.0),
     Vec3(position.x - size.x / 2.0, bottom, position.z + size.z / 2.0)]
  }

  /** The two components test the same footprint: seen from above, the mesh
      test's corners are the outline test's corners, in the same order. */
  lemma SameFootprint(size: Vec3, position: Vec3)
    ensures forall i :: 0 <= i < 4 ==>
      Planar(GetCubeCorners(size, position)[i]) == Planar(Floor.CubeCornersXZ(size, position)[i])
  {
  }

  /** Whether all four bottom corners of the box at `position` are inside. */
  predicate AllCornersInside(vertices: seq<Vec3>, triangles: seq<int>, size: Vec3, position: Vec3)
    requires ValidMesh(Mesh(vertices, triangles))
  {
    forall i :: 0 <= i < 4 ==> InsideMesh(vertices, triangles, GetCubeCorners(size, position)[i])
  }

  /** The component: the raised copy of the floor mesh, computed once. */
  class MeshInsidePoint {
    var elevatedVertices: seq<Vec3>
    var triangles: seq<int>
    var yOffset: real

    constructor ()
      ensures elevatedVertices == [] && triangles == [] && yOffset == 1.0
    {
      elevatedVertices := [];
      triangles := [];
      yOffset := 1.0;
    }

    predicate Valid()
      reads this
    {
      ValidMesh(Mesh(elevatedVertices, triangles))
    }

    /** Builds the raised copy of the floor mesh and caches its vertices and
        triangles. */
    method Start(originalMesh: Mesh)
      requires ValidMesh(originalMesh)
      modifies this
      ensures yOffset == old(yOffset)
      ensures Mesh(elevatedVertices, triangles) == Elevated(originalMesh, yOffset)
      ensures Valid()
    {
      var elevatedMesh := CreateElevatedMesh(originalMesh, yOffset);
      ElevatedShape(originalMesh, yOffset);
      elevatedVertices := elevatedMesh.vertices;
      triangles := elevatedMesh.triangles;
    }

    /** One frame of movement: the whole move is taken when every bottom
        corner of the box at the moved position is inside the raised mesh,
        and none of it otherwise. Returns the new position. */
    method Update(position: Vec3, movement: Vec3, size: Vec3) returns (newPosition: Vec3)
      requires Valid()
      ensures newPosition ==
        if AllCornersInside(elevatedVertices, triangles, size, Add(position, movement))
        then Add(position, movement) else position
    {
      var targetPosition := Add(position, movement);
      var cubeCorners := GetCubeCorners(size, targetPosition);

      var results := new bool[|cubeCorners|];
      var job := new IsPointInsideMeshJob(cubeCorners, elevatedVertices, triangles, results);
      for k := 0 to |cubeCorners|
        invariant forall j :: 0 <= j < k ==> results[j] == InsideMesh(elevatedVertices, triangles, cubeCorners[j])
      {
        job.Execute(k);
      }

      var isInside := true;
      var i := 0;
      while i < results.Length
        invariant 0 <= i <= results.Length
        invariant isInside && forall j :: 0 <= j < i ==> results[j]
      {
        if !results[i] {
          isInside := false;
          break;
        }
        i := i + 1;
      }

      if isInside {
        newPosition := targetPosition;
      } else {
        newPosition := position;
      }
    }
  }
}

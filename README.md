# FloorWalking: boundary and containment geometry in Dafny

FloorWalking is a small Unity project that keeps a box from walking off a floor mesh.
This project models its geometry core and proves properties of that model. The core comes from two scripts.

- `FloorBoundary` finds the floor's outline and checks each move against it:
  - it counts how many triangles use each edge (`Edge` is an unordered index pair);
  - it keeps the edges used exactly once;
  - it chains them into an ordered outline projected onto the x/z plane;
  - each frame it keeps the x part of a move only if all four bottom corners of the box stay inside the outline, and likewise the z part. Containment is an even-odd ray-casting test.
- `MeshInsidePoint` raises the highest vertices of the floor mesh by `yOffset`. For a floor mesh that already encloses a volume this stretches it upward. An open single-layer floor is only lifted: every vertex is at the top height, and no side faces are added. `FlatFloorLifted` proves that a box resting on such a floor is then never inside, so it can never move.
  - Each frame it fires a downward ray from each bottom corner of the box at the target position and counts Möller–Trumbore hits against the slab's triangles.
  - An odd count means inside.
  - The move is taken only if all four corners are inside.

Files:

- `geometry.dfy` (module `Geometry`): vectors, `Mesh`, Unity's `Mathf.Approximately`, `float.MinValue`.
- `floor_boundary.dfy` (module `Floor`): `Edge`, edge counting, boundary selection, chaining, the point-in-polygon test, the footprint, and the class `FloorBoundary`.
- `mesh_inside_point.dfy` (module `MeshInside`): elevation, the ray/triangle test, the per-point job `IsPointInsideMeshJob`, and the class `MeshInsidePoint`.

Modelling choices:

- Coordinates are mathematical reals.
- The `Dictionary<Edge, int>` of edge counts is a map paired with the sequence of its keys in insertion order. .NET enumerates a dictionary in that order when nothing has been removed from it. `CountAll` folds the sides into that pair. `TallyOf` (the count per edge) and `FirstOccurrences` (the keys in first-seen order) are its independent reference definitions.
- The chaining loop is specified by the function `Walk`. Its first-match search is `FindIndex`, as in `List.FindIndex`.

Two behaviours of the code are kept as written:

- Chaining a single closed loop of B boundary edges gives B+1 points, and the last point repeats the first. `RepeatedClosingPoint` shows that the repeated point changes no answer of the containment test: the extra edge from the last point back to the first has zero length, and a zero-length edge is never crossed.
- When the mesh has no boundary edge, `OrderBoundaryEdges` reads `edges[0]` of an empty list and throws. The model reports this as `ok == false` from `ExtractBoundary` and leaves the outline unchanged. It does not return a partial outline.

## Model

| member | source | states |
|---|---|---|
| Floor.MakeEdge | Assets/Scripts/FloorBoundary.cs:207-211 | the edge stores the smaller index first, and its two ends are exactly the two given indices |
| Floor.MakeEdgeSymmetric | Assets/Scripts/FloorBoundary.cs:207-211 | building an edge from (a, b) or from (b, a) gives the same edge |
| Floor.MakeEdgeEquality | Assets/Scripts/FloorBoundary.cs:207-226 | two edges are equal exactly when their index pairs are equal as sets, in both directions |
| Floor.FirstOccurrencesMembers | Assets/Scripts/FloorBoundary.cs:99-100 | the dictionary's keys are exactly the sides seen so far |
| Floor.FirstOccurrencesDistinct | Assets/Scripts/FloorBoundary.cs:99-100 | no key appears twice |
| Floor.TallyOfAppend | Assets/Scripts/FloorBoundary.cs:99-100 | adding a side gives a new key the count 1 and increments the count of a known key |
| Floor.FirstOccurrencesAppend | Assets/Scripts/FloorBoundary.cs:99-100 | a side seen for the first time becomes the last key; a known side leaves the key order unchanged |
| Floor.TotalOfTally | Assets/Scripts/FloorBoundary.cs:90-102 | every key has a count, and the counts over all keys add up to the number of sides seen |
| Floor.CountAllAppend | Assets/Scripts/FloorBoundary.cs:99-100 | counting one more side is one TryAdd-or-increment step on the dictionary |
| Floor.Counted | Assets/Scripts/FloorBoundary.cs:99-100 | one TryAdd-or-increment step: a new edge gets count 1 and becomes the last key; a known edge's count goes up by one |
| Floor.CountAll | Assets/Scripts/FloorBoundary.cs:90-102 | the dictionary after counting a sequence of sides in order, starting from the empty dictionary |
| Floor.CountAllMeaning | Assets/Scripts/FloorBoundary.cs:90-102 | the dictionary after any sequence of sides holds each side's multiplicity, with keys in first-seen order |
| Floor.CountFace | Assets/Scripts/FloorBoundary.cs:93-101 | after the three sides of one face, the dictionary is the fold of the earlier sides plus those three |
| Floor.DictionaryMeaning | Assets/Scripts/FloorBoundary.cs:87-102 | every side of every triangle is a key, each count equals that edge's number of uses, and the counts add up to three per triangle |
| Floor.CountEdges | Assets/Scripts/FloorBoundary.cs:87-102 | the counting loop yields each edge's number of uses and the keys in first-seen order |
| Floor.Singles | Assets/Scripts/FloorBoundary.cs:105-109 | an edge is selected iff it is a key whose count is 1; distinct keys give distinct results |
| Floor.SelectBoundaryEdges | Assets/Scripts/FloorBoundary.cs:105-109 | the selection loop keeps exactly the edges counted once, without repeats, in key order |
| Floor.BoundaryEdgesMeaning | Assets/Scripts/FloorBoundary.cs:87-109 | an edge is a boundary edge iff exactly one triangle side is that edge; an edge used two or more times (interior or non-manifold) never is |
| Floor.BoundaryEdgesOf | Assets/Scripts/FloorBoundary.cs:87-109 | the boundary-edge list of a triangle list: the count-1 keys of its counted sides, in key order |
| Floor.SidesInRange | Assets/Scripts/FloorBoundary.cs:92-97 | the ends of every side of the first n triangles are valid vertex indices |
| Floor.BoundaryEdgesInRange | Assets/Scripts/FloorBoundary.cs:83-109 | every boundary edge of a well-formed mesh indexes its vertex array |
| Floor.FindIndex | Assets/Scripts/FloorBoundary.cs:133 | returns the first edge touching the vertex, or -1 when no edge touches it |
| Floor.Touches | Assets/Scripts/FloorBoundary.cs:133 | the search predicate: the edge has the vertex as one of its ends |
| Floor.RemoveAt | Assets/Scripts/FloorBoundary.cs:137 | removes exactly the one element at the index, and the others keep their order |
| Floor.OtherEnd | Assets/Scripts/FloorBoundary.cs:140 | the end of the edge that is not the current vertex (its start when the edge ends at the vertex) |
| Floor.Walk | Assets/Scripts/FloorBoundary.cs:131-142 | one point per consumed edge, and the consumed and left-over edges number as many as the input |
| Floor.WalkAccounts | Assets/Scripts/FloorBoundary.cs:131-142 | the consumed and left-over edges together are a permutation of the input edges |
| Floor.WalkLinks | Assets/Scripts/FloorBoundary.cs:133-141 | each consumed edge joins the previous point of the walk to the next one |
| Floor.WalkStops | Assets/Scripts/FloorBoundary.cs:133-134 | when the walk stops, no left-over edge touches its open end |
| Floor.ChainLength | Assets/Scripts/FloorBoundary.cs:121-142 | the outline starts with the first edge's two ends, has one more point than consumed edges, and at most one more than all edges |
| Floor.ChainLinks | Assets/Scripts/FloorBoundary.cs:121-141 | consecutive outline points are the ends of the edge consumed between them |
| Floor.ChainAccounts | Assets/Scripts/FloorBoundary.cs:121-137 | the consumed edges and the edges left in the list are a permutation of the boundary edges |
| Floor.ChainStops | Assets/Scripts/FloorBoundary.cs:131-134 | the loop ends only when no remaining edge touches the open end |
| Floor.Chain | Assets/Scripts/FloorBoundary.cs:121-142 | the whole chaining: the first edge's start and end, then the walk from its end over the remaining edges |
| Floor.ChainConsumesDistinct | Assets/Scripts/FloorBoundary.cs:131-141 | when the input has no repeated edges, no edge is consumed twice, so each consecutive pair of points has its own edge |
| Floor.BoundaryChainDistinct | Assets/Scripts/FloorBoundary.cs:105-141 | the outline chained from a mesh's boundary edges consumes each boundary edge at most once |
| Floor.ChainInRange | Assets/Scripts/FloorBoundary.cs:127-141 | every outline point is a valid vertex index when the edges are |
| Floor.OutlineShape | Assets/Scripts/FloorBoundary.cs:116-145 | the projected outline has between 2 and B+1 points and starts with the x/z projections of the first edge's ends |
| Floor.OrderBoundaryEdges | Assets/Scripts/FloorBoundary.cs:116-145 | the chaining loop produces the x/z projection of the walk's points, and leaves behind exactly the walk's left-over edges |
| Floor.HorizontalNeverCrosses | Assets/Scripts/FloorBoundary.cs:156-158 | the band test excludes edges parallel to the ray, so the division never has a zero denominator |
| Floor.InBand | Assets/Scripts/FloorBoundary.cs:156 | the guard before the division: the point is above the edge's lower end, at or below its upper end, and not right of both ends |
| Floor.XIntersection | Assets/Scripts/FloorBoundary.cs:158 | the x where the horizontal line through the point meets the edge's line; defined only for a non-horizontal edge |
| Floor.Crosses | Assets/Scripts/FloorBoundary.cs:156-159 | an edge is counted when the guard holds and the point is at or left of the intersection |
| Floor.CrossingCount | Assets/Scripts/FloorBoundary.cs:150-164 | at most one crossing is counted per edge |
| Floor.IsPointInPolygon | Assets/Scripts/FloorBoundary.cs:148-167 | the loop returns the parity of the counted crossings; the empty outline contains no point |
| Floor.InsidePolygon | Assets/Scripts/FloorBoundary.cs:150-166 | a point is inside when the crossings over all edges, including the closing one, are odd |
| Floor.NoCrossingsOutsideBand | Assets/Scripts/FloorBoundary.cs:156 | a point not strictly above the outline's lowest point, or above its highest point, crosses no edge |
| Floor.XIntersectionBetween | Assets/Scripts/FloorBoundary.cs:156-158 | for a point in an edge's band, the computed intersection lies between the edge's x extremes |
| Floor.CrossesLeftOf | Assets/Scripts/FloorBoundary.cs:156-159 | left of both ends, an edge is counted iff its ends lie on opposite sides of the point's height |
| Floor.CrossingParityLeftOf | Assets/Scripts/FloorBoundary.cs:150-164 | left of the whole outline, the parity of the first n crossings tells whether vertex 0 and vertex n are on opposite sides |
| Floor.OutsideBoundingBox | Assets/Scripts/FloorBoundary.cs:148-167 | a point outside the outline's vertical extent is reported outside |
| Floor.EvenLeftOfPolygon | Assets/Scripts/FloorBoundary.cs:150-166 | a point left of every vertex sees an even number of crossings, so it is reported outside |
| Floor.SharedEdgesCount | Assets/Scripts/FloorBoundary.cs:151-154 | an outline with one extra trailing point counts the same crossings on their common edges |
| Floor.RepeatedClosingPoint | Assets/Scripts/FloorBoundary.cs:151-154 | repeating the first point at the end, as chaining a closed loop does, leaves the containment answer unchanged |
| Floor.CubeCornersXZ | Assets/Scripts/FloorBoundary.cs:170-183 | four corners at height 0, spanning the box's x and z size, centred on the position, in order (-,-), (+,-), (+,+), (-,+) |
| Floor.FootprintInside | Assets/Scripts/FloorBoundary.cs:66-78 | all four footprint corners at the position, projected to x/z, are inside the outline |
| Floor.FloorBoundary.constructor | Assets/Scripts/FloorBoundary.cs:7 | a fresh component has an empty outline |
| Floor.FloorBoundary.ExtractedBoundary | Assets/Scripts/FloorBoundary.cs:81-113 | the outline extraction yields: None without boundary edges (where the source throws), else the x/z projection of the chained boundary edges |
| Floor.FloorBoundary.ExtractBoundary | Assets/Scripts/FloorBoundary.cs:81-113 | succeeds iff the mesh has a boundary edge, and then stores the chained outline; otherwise the outline is unchanged |
| Floor.FloorBoundary.CanMoveInDirection | Assets/Scripts/FloorBoundary.cs:60-79 | true iff all four footprint corners at the moved position are inside the outline |
| Floor.FloorBoundary.Update | Assets/Scripts/FloorBoundary.cs:42-58 | the x move is kept iff moving by x alone keeps the footprint inside, and likewise z; y passes through |
| Geometry.ApproximatelyReflexive | Assets/Scripts/MeshInsidePoint.cs:98 | a height is approximately equal to itself under Unity's tolerance, so the top vertex always qualifies |
| Geometry.Approximately | Assets/Scripts/MeshInsidePoint.cs:98 | Mathf.Approximately: the difference is below a millionth of the larger magnitude, or below eight times the smallest float |
| MeshInside.TopY | Assets/Scripts/MeshInsidePoint.cs:86-93 | the scan's result is at least float.MinValue and at least every vertex height, and it is float.MinValue or the height of some vertex |
| MeshInside.Raise | Assets/Scripts/MeshInsidePoint.cs:98-105 | a vertex approximately at the top height moves up by yOffset; any other vertex is copied |
| MeshInside.Elevated | Assets/Scripts/MeshInsidePoint.cs:95-112 | the elevated mesh: every vertex raised against the top height of the original, the triangle list shared |
| MeshInside.CreateElevatedMesh | Assets/Scripts/MeshInsidePoint.cs:81-118 | the two loops build the elevated mesh: vertices approximately at the top height raised by yOffset, the others copied, triangles shared |
| MeshInside.ElevatedShape | Assets/Scripts/MeshInsidePoint.cs:95-112 | the same vertex count and triangles, so the mesh stays well formed; x and z kept; y raised by yOffset iff approximately at the top height |
| MeshInside.ElevatedByZero | Assets/Scripts/MeshInsidePoint.cs:95-106 | a zero offset gives back the original mesh |
| MeshInside.HighestRaised | Assets/Scripts/MeshInsidePoint.cs:86-100 | some vertex at the top height is raised by exactly yOffset |
| MeshInside.FlatFloorLifted | Assets/Scripts/MeshInsidePoint.cs:95-112 | on a flat open floor every vertex is lifted by a positive offset, so a point on or below the floor is never inside the result |
| MeshInside.RayTriangleIntersection | Assets/Scripts/MeshInsidePoint.cs:166-188 | a hit has a determinant of magnitude at least 1e-5, barycentric weights u in [0,1], v >= 0, u + v <= 1, and distance in [0, 1000] |
| MeshInside.Det | Assets/Scripts/MeshInsidePoint.cs:168-172 | the determinant: the first edge dotted with the ray direction crossed with the second edge |
| MeshInside.BaryU | Assets/Scripts/MeshInsidePoint.cs:176-179 | the first barycentric weight (of the second corner), divided by the determinant |
| MeshInside.BaryV | Assets/Scripts/MeshInsidePoint.cs:182-183 | the second barycentric weight (of the third corner), divided by the determinant |
| MeshInside.Distance | Assets/Scripts/MeshInsidePoint.cs:186 | the hit's distance along the ray, divided by the determinant |
| MeshInside.DownSolution | Assets/Scripts/MeshInsidePoint.cs:168-186 | for a downward ray with nonzero determinant, the point at weights (u, v) on the triangle's plane is the point at distance t straight below the origin |
| MeshInside.DownHitOnTriangle | Assets/Scripts/MeshInsidePoint.cs:157-187 | a reported downward hit is a point of the closed triangle straight below the corner, at the reported depth |
| MeshInside.DownHitWithinTriangle | Assets/Scripts/MeshInsidePoint.cs:157-187 | a downward hit needs the corner's x and z within the triangle's x and z range, and the corner at or above the triangle's lowest point |
| MeshInside.EdgeOnNeverHit | Assets/Scripts/MeshInsidePoint.cs:171-174 | a triangle whose corners share one x or one z is never hit from above, because its determinant is zero |
| MeshInside.HitsTriangle | Assets/Scripts/MeshInsidePoint.cs:153-157 | the downward ray from the point hits the t-th index triple's triangle |
| MeshInside.HitCount | Assets/Scripts/MeshInsidePoint.cs:149-161 | at most one hit is counted per triangle |
| MeshInside.InsideMesh | Assets/Scripts/MeshInsidePoint.cs:163 | the point is inside when its downward ray hits an odd number of triangles |
| MeshInside.MissedTriangle | Assets/Scripts/MeshInsidePoint.cs:151-160 | a corner below the whole mesh, or beyond it along x or z, misses each triangle |
| MeshInside.NoHitsBeyond | Assets/Scripts/MeshInsidePoint.cs:149-161 | such a corner counts no hits at all |
| MeshInside.OutsideBeyondMesh | Assets/Scripts/MeshInsidePoint.cs:146-164 | such a corner is reported outside the mesh |
| MeshInside.IsPointInsideMeshJob.constructor | Assets/Scripts/MeshInsidePoint.cs:48-54 | the job holds the given corners, vertices, triangles and result buffer |
| MeshInside.IsPointInsideMeshJob.Execute | Assets/Scripts/MeshInsidePoint.cs:146-164 | writes to its own result slot whether the corner's downward ray has an odd hit count, and leaves every other slot unchanged |
| MeshInside.GetCubeCorners | Assets/Scripts/MeshInsidePoint.cs:120-136 | four bottom corners at height position.y - size.y/2, spanning the box's x and z size, centred on the position, in the same order as the floor version |
| MeshInside.SameFootprint | Assets/Scripts/MeshInsidePoint.cs:125-130 | in x/z the four corners are those of the floor outline check |
| MeshInside.AllCornersInside | Assets/Scripts/MeshInsidePoint.cs:60-68 | all four bottom corners of the box at the position are inside the elevated mesh |
| MeshInside.MeshInsidePoint.constructor | Assets/Scripts/MeshInsidePoint.cs:9-13 | no cached mesh yet, and yOffset defaults to 1 |
| MeshInside.MeshInsidePoint.Start | Assets/Scripts/MeshInsidePoint.cs:17-26 | the cached vertices and triangles are those of the mesh elevated by yOffset |
| MeshInside.MeshInsidePoint.Update | Assets/Scripts/MeshInsidePoint.cs:38-78 | the whole move is taken iff all four bottom corners at the target are inside the elevated mesh, and none of it otherwise |

## Left out

- Unity's lifecycle and input are not modelled: both `Start` methods locating the mesh through `GetComponent<MeshFilter>` (`FloorBoundary.Start` logs an error and returns when the filter is missing; `MeshInsidePoint.Start` reads `.mesh` unchecked and throws a NullReferenceException without logging), the null `targetModel` check, `Input.GetAxis`, the no-input early return, `movementSpeed * Time.deltaTime`, and the write to `targetModel.position`. The move vector is a parameter and the new position is the result.
- The box's renderer bounds are passed in as the parameter `size`, which replaces `GetComponent<Renderer>().bounds.size`.
- The `Debug.Log` output in `FloorBoundary.Start` and the `OnDrawGizmos` outline drawing are left out. Both are output only.
- The job system is not modelled: NativeArray allocation and disposal, `Schedule`, `Complete`, and parallel execution. The job's `Execute` runs for each corner in turn. Each run writes only its own slot, so the order does not matter.
- The Unity `Mesh` object built by `CreateElevatedMesh` is modelled as the pair of its arrays. `RecalculateNormals` and `RecalculateBounds` are not modelled, because nothing in the core reads their results.
- Floating-point rounding is not modelled: all coordinates are reals. `float.MinValue` and `Mathf.Epsilon` are kept as constants, and `Mathf.Approximately` uses Unity's published formula over reals.
- `Edge.GetHashCode` is left out: it affects speed, not which edges are counted.
- Dictionary enumeration is assumed to follow insertion order. .NET does not promise this, but it holds when nothing is removed.
- Vertex indices are unbounded integers. With valid indices no arithmetic in the core can overflow.
- `Ray` direction normalisation is not modelled. The only ray the code builds points along `Vector3.down`, which is already a unit vector.
- MeshInside.DownHitOnTriangle: soundness is proved for the downward ray only, the only ray the code casts. `RayTriangleIntersection` itself is modelled for any direction.
- MeshInside.RayTriangleIntersection: the contract states what a hit implies, not the converse.
- MeshInside.MeshInsidePoint.Start and Floor.FloorBoundary.ExtractBoundary require a well-formed mesh (triangle count a multiple of three, every index in range). Unity enforces this when a mesh is built.
- The other scripts (box-collider generation and plain movement) are not part of this model.

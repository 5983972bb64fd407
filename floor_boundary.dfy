/** The floor-boundary component: it derives the outline of a floor mesh from
    its topology (edges used by exactly one triangle, chained into a path of
    floor-plane points) and keeps an object's square footprint inside that
    outline, admitting the x and z parts of a move independently. */
module Floor {
  import opened Geometry

  // ---------------------------------------------------------------------------
  // Edges
  // ---------------------------------------------------------------------------

  /** An undirected mesh edge as a canonical pair of vertex indices. Dafny's
      structural equality on this datatype is the source's componentwise
      Equals on (Start, End). */
  datatype Edge = Edge(start: int, end: int)

  /** The edge constructor: the smaller index becomes the start. */
  function MakeEdge(a: int, b: int): (e: Edge)
    ensures e.start <= e.end
    ensures {e.start, e.end} == {a, b}
  {
    if a <= b then Edge(a, b) else Edge(b, a)
  }

  function Ends(e: Edge): set<int> { {e.start, e.end} }

  lemma MakeEdgeSymmetric(a: int, b: int)
    ensures MakeEdge(a, b) == MakeEdge(b, a)
  {
  }

  /** Two constructed edges are equal exactly when they join the same two
      vertices, whatever the order the indices were given in. */
  lemma MakeEdgeEquality(a: int, b: int, c: int, d: int)
    ensures MakeEdge(a, b) == MakeEdge(c, d) <==> {a, b} == {c, d}
  {
    if {a, b} == {c, d} {
      assert a == c || a == d;
      if a == c {
        assert b == d || b == c;
      } else {
        assert b == c || b == d;
      }
    }
  }

  predicate Distinct(s: seq<Edge>)
  {
    forall i, j :: 0 <= i < j < |s| ==> s[i] != s[j]
  }

  // ---------------------------------------------------------------------------
  // Counting triangle sides
  // ---------------------------------------------------------------------------

  /** The three sides of a face in visiting order: side j joins face[j] and
      face[(j + 1) % 3]. */
  function Ring(face: seq<int>): (s: seq<Edge>)
    requires |face| == 3
    ensures |s| == 3
  {
    [MakeEdge(face[0], face[1]), MakeEdge(face[1], face[2]), MakeEdge(face[2], face[0])]
  }

  /** The three sides of triangle `t`. */
  function FaceSides(tris: seq<int>, t: nat): (s: seq<Edge>)
    requires 3 * t + 2 < |tris|
    ensures |s| == 3
  {
    Ring([tris[3 * t], tris[3 * t + 1], tris[3 * t + 2]])
  }

  /** Every side of the first `n` triangles, in the order the counting loop
      visits them. */
  function Sides(tris: seq<int>, n: nat): (s: seq<Edge>)
    requires 3 * n <= |tris|
    ensures |s| == 3 * n
  {
    if n == 0 then [] else Sides(tris, n - 1) + FaceSides(tris, n - 1)
  }

  function AllSides(tris: seq<int>): seq<Edge>
    requires |tris| % 3 == 0
  {
    Sides(tris, |tris| / 3)
  }

  /** The distinct elements of `s` in order of first appearance: the order in
      which the edge dictionary received its keys. */
  function FirstOccurrences(s: seq<Edge>): seq<Edge>
  {
    if s == [] then []
    else
      var p := FirstOccurrences(s[..|s| - 1]);
      if s[|s| - 1] in p then p else p + [s[|s| - 1]]
  }

  /** Every element occurs among the first occurrences, and nothing else. */
  lemma {:induction false} FirstOccurrencesMembers(s: seq<Edge>)
    ensures forall e :: e in FirstOccurrences(s) <==> e in s
  {
    if s != [] {
      FirstOccurrencesMembers(s[..|s| - 1]);
      assert s == s[..|s| - 1] + [s[|s| - 1]];
    }
  }

  /** Dictionary keys are unique: no edge occurs twice among the first
      occurrences. */
  lemma {:induction false} FirstOccurrencesDistinct(s: seq<Edge>)
    ensures Distinct(FirstOccurrences(s))
  {
    if s != [] {
      FirstOccurrencesDistinct(s[..|s| - 1]);
      FirstOccurrencesMembers(s[..|s| - 1]);
    }
  }

  /** The dictionary the counting loop builds, as a value: each side mapped to
      the number of times it occurs. */
  function TallyOf(sides: seq<Edge>): map<Edge, nat>
  {
    map e | e in sides :: multiset(sides)[e]
  }

  /** The sum of the counts stored under `keys`. */
  function Total(keys: seq<Edge>, counts: map<Edge, nat>): nat
    requires forall e :: e in keys ==> e in counts
  {
    if keys == [] then 0 else Total(keys[..|keys| - 1], counts) + counts[keys[|keys| - 1]]
  }

  lemma {:induction false} TotalFrame(keys: seq<Edge>, c1: map<Edge, nat>, c2: map<Edge, nat>)
    requires forall e :: e in keys ==> e in c1 && e in c2 && c1[e] == c2[e]
    ensures Total(keys, c1) == Total(keys, c2)
  {
    if keys != [] {
      TotalFrame(keys[..|keys| - 1], c1, c2);
    }
  }

  lemma {:induction false} TotalBump(keys: seq<Edge>, counts: map<Edge, nat>, x: Edge)
    requires forall e :: e in keys ==> e in counts
    requires Distinct(keys) && x in keys
    ensures Total(keys, counts[x := counts[x] + 1]) == Total(keys, counts) + 1
  {
    var init := keys[..|keys| - 1];
    var bumped := counts[x := counts[x] + 1];
    assert forall i :: 0 <= i < |init| ==> init[i] == keys[i];
    if keys[|keys| - 1] == x {
      assert forall i :: 0 <= i < |init| ==> init[i] != x;
      TotalFrame(init, bumped, counts);
    } else {
      assert x in init by {
        var i :| 0 <= i < |keys| && keys[i] == x;
        assert init[i] == x;
      }
      TotalBump(init, counts, x);
    }
  }

  /** Appending a side to the counted ones raises its tally by one, adding it
      with tally 1 when it is new. */
  lemma TallyOfAppend(seen: seq<Edge>, e: Edge)
    ensures e !in TallyOf(seen) ==> TallyOf(seen + [e]) == TallyOf(seen)[e := 1]
    ensures e in TallyOf(seen) ==> TallyOf(seen + [e]) == TallyOf(seen)[e := TallyOf(seen)[e] + 1]
  {
    var seen' := seen + [e];
    assert multiset(seen') == multiset(seen) + multiset{e};
    assert forall x :: x in seen' <==> x in seen || x == e;
  }

  /** Appending a side adds it to the first occurrences when it is new. */
  lemma FirstOccurrencesAppend(seen: seq<Edge>, e: Edge)
    ensures FirstOccurrences(seen + [e])
      == if e in seen then FirstOccurrences(seen) else FirstOccurrences(seen) + [e]
  {
    assert (seen + [e])[..|seen|] == seen;
    FirstOccurrencesMembers(seen);
  }

  /** The counts stored under the keys add up to the number of sides counted. */
  lemma {:induction false} TotalOfTally(seen: seq<Edge>)
    ensures forall e :: e in FirstOccurrences(seen) ==> e in TallyOf(seen)
    ensures Total(FirstOccurrences(seen), TallyOf(seen)) == |seen|
  {
    FirstOccurrencesMembers(seen);
    if seen != [] {
      var init, e := seen[..|seen| - 1], seen[|seen| - 1];
      assert seen == init + [e];
      var keys, counts := FirstOccurrences(init), TallyOf(init);
      TotalOfTally(init);
      FirstOccurrencesDistinct(init);
      FirstOccurrencesMembers(init);
      FirstOccurrencesAppend(init, e);
      TallyOfAppend(init, e);
      if e !in counts {
        assert (keys + [e])[..|keys|] == keys;
        TotalFrame(keys, counts[e := 1], counts);
      } else {
        TotalBump(keys, counts, e);
      }
    }
  }

  /** The edge dictionary: its contents, and its keys in enumeration order
      (the order of insertion, since nothing is ever removed). */
  datatype Dictionary = Dictionary(counts: map<Edge, nat>, keys: seq<Edge>)

  /** One step of the counting loop: a new edge is added with count 1 at the
      end of the enumeration order, a present one has its count raised. */
  function Counted(d: Dictionary, e: Edge): Dictionary
  {
    if e in d.counts then Dictionary(d.counts[e := d.counts[e] + 1], d.keys)
    else Dictionary(d.counts[e := 1], d.keys + [e])
  }

  /** The dictionary after counting `seen` in order, starting empty. */
  function CountAll(seen: seq<Edge>): Dictionary
  {
    if seen == [] then Dictionary(map[], [])
    else Counted(CountAll(seen[..|seen| - 1]), seen[|seen| - 1])
  }

  lemma CountAllAppend(seen: seq<Edge>, e: Edge)
    ensures CountAll(seen + [e]) == Counted(CountAll(seen), e)
  {
    assert (seen + [e])[..|seen|] == seen;
  }

  /** Counting side by side yields, for every side, its number of
      occurrences, keyed in order of first appearance. */
  lemma {:induction false} CountAllMeaning(seen: seq<Edge>)
    ensures CountAll(seen).counts == TallyOf(seen)
    ensures CountAll(seen).keys == FirstOccurrences(seen)
  {
    if seen != [] {
      var init, e := seen[..|seen| - 1], seen[|seen| - 1];
      assert seen == init + [e];
      CountAllMeaning(init);
      FirstOccurrencesAppend(init, e);
      TallyOfAppend(init, e);
    }
  }

  /** Side `j` of a face is the one the inner counting loop builds, and the
      sides visited so far grow by it. */
  lemma RingStep(face: seq<int>, j: int, next: int)
    requires |face| == 3 && 0 <= j < 3 && next == (j + 1) % 3
    ensures 0 <= next < 3
    ensures Ring(face)[..j + 1] == Ring(face)[..j] + [MakeEdge(face[j], face[next])]
  {
    if j == 0 {
    } else if j == 1 {
    } else {
    }
  }

  lemma SidesStep(tris: seq<int>, t: nat, i: int, face: seq<int>)
    requires i == 3 * t && i + 3 <= |tris| && face == [tris[i], tris[i + 1], tris[i + 2]]
    ensures Sides(tris, t + 1) == Sides(tris, t) + Ring(face)
  {
  }

  /** The inner loop: the three sides of one face, in order, go through the
      dictionary step. */
  method CountFace(counts: map<Edge, nat>, keys: seq<Edge>, ghost seen: seq<Edge>, face: seq<int>)
    returns (counts': map<Edge, nat>, keys': seq<Edge>)
    requires |face| == 3
    requires Dictionary(counts, keys) == CountAll(seen)
    ensures Dictionary(counts', keys') == CountAll(seen + Ring(face))
  {
    counts', keys' := counts, keys;
    ghost var seen' := seen;
    var j := 0;
    while j < 3
      invariant 0 <= j <= 3
      invariant seen' == seen + Ring(face)[..j]
      invariant Dictionary(counts', keys') == CountAll(seen')
    {
      var next := (j + 1) % 3;
      RingStep(face, j, next);
      var edge := MakeEdge(face[j], face[next]);
      if edge !in counts' {
        counts', keys' := counts'[edge := 1], keys' + [edge];
      } else {
        counts' := counts'[edge := counts'[edge] + 1];
      }
      CountAllAppend(seen', edge);
      seen' := seen' + [edge];
      j := j + 1;
    }
    assert Ring(face)[..3] == Ring(face);
  }

  lemma WholeTriangles(length: int)
    requires length % 3 == 0
    ensures length == 3 * (length / 3)
  {
  }

  lemma NextFaceFits(i: int, t: int, n: int)
    requires i == 3 * t && i < 3 * n
    ensures i + 3 <= 3 * n && i + 3 == 3 * (t + 1)
  {
  }

  /** What the finished dictionary says: its keys are exactly the sides that
      occur, each stored with its number of occurrences (so at least one), no
      key twice, and the counts add up to three per triangle. */
  lemma DictionaryMeaning(tris: seq<int>)
    requires |tris| % 3 == 0
    ensures forall e :: e in TallyOf(AllSides(tris)) <==> e in AllSides(tris)
    ensures forall e :: e in TallyOf(AllSides(tris)) ==>
      TallyOf(AllSides(tris))[e] == multiset(AllSides(tris))[e] >= 1
    ensures forall e :: e in FirstOccurrences(AllSides(tris)) <==> e in TallyOf(AllSides(tris))
    ensures Distinct(FirstOccurrences(AllSides(tris)))
    ensures Total(FirstOccurrences(AllSides(tris)), TallyOf(AllSides(tris))) == |tris|
  {
    TotalOfTally(AllSides(tris));
    FirstOccurrencesDistinct(AllSides(tris));
    FirstOccurrencesMembers(AllSides(tris));
  }

  /** The counting loop: every side of every triangle, canonicalised, is added
      to the dictionary with count 1 or has its count raised by one. */
  method CountEdges(triangles: seq<int>) returns (edgeCounts: map<Edge, nat>, keys: seq<Edge>)
    requires |triangles| % 3 == 0
    ensures edgeCounts == TallyOf(AllSides(triangles))
    ensures keys == FirstOccurrences(AllSides(triangles))
  {
    edgeCounts := map[];
    keys := [];
    ghost var t := 0;
    ghost var n := |triangles| / 3;
    WholeTriangles(|triangles|);
    var i := 0;
    while i < |triangles|
      invariant 0 <= t <= n && i == 3 * t && |triangles| == 3 * n
      invariant Dictionary(edgeCounts, keys) == CountAll(Sides(triangles, t))
    {
      NextFaceFits(i, t, n);
      var face := [triangles[i], triangles[i + 1], triangles[i + 2]];
      edgeCounts, keys := CountFace(edgeCounts, keys, Sides(triangles, t), face);
      SidesStep(triangles, t, i, face);
      i := i + 3;
      t := t + 1;
    }
    assert t == n;
    CountAllMeaning(Sides(triangles, t));
  }

  // ---------------------------------------------------------------------------
  // Selecting boundary edges
  // ---------------------------------------------------------------------------

  /** The keys, in enumeration order, whose count is exactly one. */
  function Singles(keys: seq<Edge>, counts: map<Edge, nat>): (r: seq<Edge>)
    requires forall e :: e in keys ==> e in counts
    ensures forall e :: e in r <==> e in keys && counts[e] == 1
    ensures Distinct(keys) ==> Distinct(r)
  {
    if keys == [] then []
    else
      var init := keys[..|keys| - 1];
      var last := keys[|keys| - 1];
      assert forall i :: 0 <= i < |init| ==> init[i] == keys[i];
      assert Distinct(keys) ==> forall i :: 0 <= i < |init| ==> init[i] != last;
      Singles(init, counts) + if counts[last] == 1 then [last] else []
  }

  /** The second loop: walk the dictionary and keep the edges counted once. */
  method SelectBoundaryEdges(edgeCounts: map<Edge, nat>, keys: seq<Edge>) returns (boundaryEdges: seq<Edge>)
    requires forall e :: e in keys <==> e in edgeCounts
    requires Distinct(keys)
    ensures boundaryEdges == Singles(keys, edgeCounts)
    ensures forall e :: e in boundaryEdges <==> e in edgeCounts && edgeCounts[e] == 1
    ensures Distinct(boundaryEdges)
  {
    boundaryEdges := [];
    for i := 0 to |keys|
      invariant boundaryEdges == Singles(keys[..i], edgeCounts)
    {
      assert keys[..i + 1][..i] == keys[..i];
      if edgeCounts[keys[i]] == 1 {
        boundaryEdges := boundaryEdges + [keys[i]];
      }
    }
    assert keys[..|keys|] == keys;
  }

  /** The boundary edges of a mesh: the sides that occur exactly once, each
      listed once, in the order the dictionary enumerates them. */
  function BoundaryEdgesOf(tris: seq<int>): seq<Edge>
    requires |tris| % 3 == 0
  {
    var sides := AllSides(tris);
    FirstOccurrencesMembers(sides);
    Singles(FirstOccurrences(sides), TallyOf(sides))
  }

  /** An edge is a boundary edge iff exactly one triangle side canonicalises to
      it; an edge shared by two or more sides never is. No edge is listed
      twice and every boundary edge is canonical. */
  lemma BoundaryEdgesMeaning(tris: seq<int>, e: Edge)
    requires |tris| % 3 == 0
    ensures e in BoundaryEdgesOf(tris) <==> multiset(AllSides(tris))[e] == 1
    ensures multiset(AllSides(tris))[e] >= 2 ==> e !in BoundaryEdgesOf(tris)
    ensures Distinct(BoundaryEdgesOf(tris))
  {
    FirstOccurrencesDistinct(AllSides(tris));
    FirstOccurrencesMembers(AllSides(tris));
  }

  lemma {:induction false} SidesInRange(tris: seq<int>, n: nat, vertexCount: int)
    requires 3 * n <= |tris|
    requires forall i :: 0 <= i < |tris| ==> 0 <= tris[i] < vertexCount
    ensures forall e :: e in Sides(tris, n) ==> 0 <= e.start < vertexCount && 0 <= e.end < vertexCount
  {
    if n > 0 {
      SidesInRange(tris, n - 1, vertexCount);
      var f := FaceSides(tris, n - 1);
      assert forall e :: e in f ==> 0 <= e.start < vertexCount && 0 <= e.end < vertexCount;
    }
  }

  predicate IndexesBelow(edges: seq<Edge>, vertexCount: int)
  {
    forall e :: e in edges ==> 0 <= e.start < vertexCount && 0 <= e.end < vertexCount
  }

  lemma BoundaryEdgesInRange(mesh: Mesh)
    requires ValidMesh(mesh)
    ensures IndexesBelow(BoundaryEdgesOf(mesh.triangles), |mesh.vertices|)
  {
    SidesInRange(mesh.triangles, |mesh.triangles| / 3, |mesh.vertices|);
  }

  // ---------------------------------------------------------------------------
  // Chaining boundary edges into a path
  // ---------------------------------------------------------------------------

  predicate Touches(e: Edge, v: int) { e.start == v || e.end == v }

  /** List.FindIndex with the predicate "the edge touches `v`". */
  function FindIndex(edges: seq<Edge>, v: int): (k: int)
    ensures -1 <= k < |edges|
    ensures k == -1 ==> forall j :: 0 <= j < |edges| ==> !Touches(edges[j], v)
    ensures 0 <= k ==> Touches(edges[k], v) && forall j :: 0 <= j < k ==> !Touches(edges[j], v)
  {
    if |edges| == 0 then -1
    else if Touches(edges[0], v) then 0
    else
      var k := FindIndex(edges[1..], v);
      if k == -1 then -1 else k + 1
  }

  /** List.RemoveAt */
  function RemoveAt(s: seq<Edge>, k: nat): (r: seq<Edge>)
    requires k < |s|
    ensures |r| == |s| - 1
    ensures multiset(r) + multiset{s[k]} == multiset(s)
    ensures forall i :: 0 <= i < |r| ==> r[i] == if i < k then s[i] else s[i + 1]
  {
    assert s == s[..k] + [s[k]] + s[k + 1..];
    s[..k] + s[k + 1..]
  }

  /** The endpoint of `e` that the walk moves to from `v`. */
  function OtherEnd(e: Edge, v: int): int
  {
    if e.start == v then e.end else e.start
  }

  /** What a chain walk produced: the vertex indices appended, the edges
      consumed (one per appended vertex) and the edges left in the list. */
  datatype Walked = Walked(path: seq<int>, consumed: seq<Edge>, rest: seq<Edge>)

  /** The while loop of the ordering routine from the open end `endVertex`:
      take the first edge touching the open end, remove it, step to its other
      end; stop when the list is empty or no edge touches the open end. */
  function Walk(edges: seq<Edge>, endVertex: int): (r: Walked)
    ensures |r.path| == |r.consumed|
    ensures |r.consumed| + |r.rest| == |edges|
    decreases |edges|
  {
    if |edges| == 0 then Walked([], [], [])
    else
      var k := FindIndex(edges, endVertex);
      if k == -1 then Walked([], [], edges)
      else
        var next := OtherEnd(edges[k], endVertex);
        var w := Walk(RemoveAt(edges, k), next);
        Walked([next] + w.path, [edges[k]] + w.consumed, w.rest)
  }

  /** The whole ordering routine on vertex indices: seed with the first edge,
      its start then its end, then walk from its end over the other edges. */
  function Chain(edges: seq<Edge>): Walked
    requires |edges| > 0
  {
    var seed := edges[0];
    var w := Walk(edges[1..], seed.end);
    Walked([seed.start, seed.end] + w.path, [seed] + w.consumed, w.rest)
  }

  /** The consumed edges and the edges left are, together, the input list. */
  lemma {:induction false} WalkAccounts(edges: seq<Edge>, v: int)
    ensures multiset(Walk(edges, v).consumed) + multiset(Walk(edges, v).rest) == multiset(edges)
    decreases |edges|
  {
    if |edges| > 0 {
      var k := FindIndex(edges, v);
      if k != -1 {
        var next := OtherEnd(edges[k], v);
        WalkAccounts(RemoveAt(edges, k), next);
      }
    }
  }

  lemma {:induction false} WalkLinks(edges: seq<Edge>, v: int)
    ensures |Walk(edges, v).path| > 0 ==> Ends(Walk(edges, v).consumed[0]) == {v, Walk(edges, v).path[0]}
    ensures forall i :: 0 < i < |Walk(edges, v).path| ==>
      Ends(Walk(edges, v).consumed[i]) == {Walk(edges, v).path[i - 1], Walk(edges, v).path[i]}
    decreases |edges|
  {
    if |edges| > 0 {
      var k := FindIndex(edges, v);
      if k != -1 {
        var next := OtherEnd(edges[k], v);
        var w' := Walk(RemoveAt(edges, k), next);
        var w := Walk(edges, v);
        assert w == Walked([next] + w'.path, [edges[k]] + w'.consumed, w'.rest);
        WalkLinks(RemoveAt(edges, k), next);
        assert Ends(edges[k]) == {v, next};
        forall i | 0 < i < |w.path|
          ensures Ends(w.consumed[i]) == {w.path[i - 1], w.path[i]}
        {
          assert w.consumed[i] == w'.consumed[i - 1];
          assert w.path[i] == w'.path[i - 1];
          if i > 1 {
            assert w.path[i - 1] == w'.path[i - 2];
          }
        }
      }
    }
  }

  /** The open end after walking `path` from `v`. */
  function OpenEnd(v: int, path: seq<int>): int
  {
    if path == [] then v else path[|path| - 1]
  }

  lemma {:induction false} WalkStops(edges: seq<Edge>, v: int)
    ensures forall j :: 0 <= j < |Walk(edges, v).rest| ==>
      !Touches(Walk(edges, v).rest[j], OpenEnd(v, Walk(edges, v).path))
    decreases |edges|
  {
    if |edges| > 0 {
      var k := FindIndex(edges, v);
      if k != -1 {
        var next := OtherEnd(edges[k], v);
        var w' := Walk(RemoveAt(edges, k), next);
        var w := Walk(edges, v);
        assert w == Walked([next] + w'.path, [edges[k]] + w'.consumed, w'.rest);
        WalkStops(RemoveAt(edges, k), next);
        assert OpenEnd(v, w.path) == OpenEnd(next, w'.path) by {
          if w'.path != [] {
            assert w.path[|w.path| - 1] == w'.path[|w'.path| - 1];
          }
        }
      } else {
        assert Walk(edges, v) == Walked([], [], edges);
      }
    }
  }

  /** Length: the path holds the seed's two vertices plus one vertex per edge
      removed in the loop, so it has between 2 and |edges| + 1 points, and
      starts with the seed's start and end. */
  lemma ChainLength(edges: seq<Edge>)
    requires |edges| > 0
    ensures |Chain(edges).path| == |Chain(edges).consumed| + 1
    ensures |Chain(edges).consumed| + |Chain(edges).rest| == |edges|
    ensures 2 <= |Chain(edges).path| <= |edges| + 1
    ensures Chain(edges).path[0] == edges[0].start && Chain(edges).path[1] == edges[0].end
  {
  }

  /** Each pair of consecutive path vertices are the two ends of the edge
      consumed at that step. */
  lemma ChainLinks(edges: seq<Edge>)
    requires |edges| > 0
    ensures forall i :: 0 <= i < |Chain(edges).consumed| ==>
      Ends(Chain(edges).consumed[i]) == {Chain(edges).path[i], Chain(edges).path[i + 1]}
  {
    var seed := edges[0];
    var w := Walk(edges[1..], seed.end);
    var c := Chain(edges);
    WalkLinks(edges[1..], seed.end);
    forall i | 0 <= i < |c.consumed|
      ensures Ends(c.consumed[i]) == {c.path[i], c.path[i + 1]}
    {
      if i > 0 {
        assert c.consumed[i] == w.consumed[i - 1];
        assert c.path[i + 1] == w.path[i - 1];
        if i > 1 {
          assert c.path[i] == w.path[i - 2];
        }
      }
    }
  }

  /** The consumed edges together with the edges left over are exactly the
      input list. */
  lemma ChainAccounts(edges: seq<Edge>)
    requires |edges| > 0
    ensures multiset(Chain(edges).consumed) + multiset(Chain(edges).rest) == multiset(edges)
  {
    var w := Walk(edges[1..], edges[0].end);
    WalkAccounts(edges[1..], edges[0].end);
    ConsAccounts(edges[0], edges[1..], w.consumed, w.rest);
    assert [edges[0]] + edges[1..] == edges;
  }

  lemma ConsAccounts(x: Edge, xs: seq<Edge>, consumed: seq<Edge>, rest: seq<Edge>)
    requires multiset(consumed) + multiset(rest) == multiset(xs)
    ensures multiset([x] + consumed) + multiset(rest) == multiset([x] + xs)
  {
  }

  /** A list without repeats holds each edge at most once. */
  lemma {:induction false} DistinctCounts(s: seq<Edge>)
    requires Distinct(s)
    ensures forall e :: multiset(s)[e] <= 1
  {
    if |s| > 0 {
      assert Distinct(s[1..]);
      DistinctCounts(s[1..]);
      assert s == [s[0]] + s[1..];
      assert s[0] !in s[1..];
    }
  }

  /** An edge at two positions is counted at least twice. */
  lemma RepeatCounts(s: seq<Edge>, i: int, j: int)
    requires 0 <= i < j < |s| && s[i] == s[j]
    ensures multiset(s)[s[i]] >= 2
  {
    assert s == s[..j] + s[j..];
    assert s[i] in s[..j] && s[j] in s[j..];
  }

  /** Each pair of consecutive outline points comes from its own edge: when
      the input list has no repeats, no edge is consumed twice. */
  lemma ChainConsumesDistinct(edges: seq<Edge>)
    requires |edges| > 0 && Distinct(edges)
    ensures Distinct(Chain(edges).consumed)
  {
    var c := Chain(edges).consumed;
    ChainAccounts(edges);
    DistinctCounts(edges);
    forall i, j | 0 <= i < j < |c|
      ensures c[i] != c[j]
    {
      assert multiset(c)[c[i]] <= multiset(edges)[c[i]] <= 1;
      if c[i] == c[j] {
        RepeatCounts(c, i, j);
      }
    }
  }

  /** The boundary edges of a mesh have no repeats, so the outline chained
      from them consumes each boundary edge at most once. */
  lemma BoundaryChainDistinct(tris: seq<int>)
    requires |tris| % 3 == 0 && |BoundaryEdgesOf(tris)| > 0
    ensures Distinct(Chain(BoundaryEdgesOf(tris)).consumed)
  {
    BoundaryEdgesMeaning(tris, BoundaryEdgesOf(tris)[0]);
    ChainConsumesDistinct(BoundaryEdgesOf(tris));
  }

  /** The loop stops only when no edge left touches the last vertex. */
  lemma ChainStops(edges: seq<Edge>)
    requires |edges| > 0
    ensures forall j :: 0 <= j < |Chain(edges).rest| ==>
      !Touches(Chain(edges).rest[j], Chain(edges).path[|Chain(edges).path| - 1])
  {
    var seed := edges[0];
    var w := Walk(edges[1..], seed.end);
    var c := Chain(edges);
    WalkStops(edges[1..], seed.end);
    assert c.path[|c.path| - 1] == OpenEnd(seed.end, w.path);
  }

  lemma ChainInRange(edges: seq<Edge>, vertexCount: int)
    requires |edges| > 0 && IndexesBelow(edges, vertexCount)
    ensures forall i :: 0 <= i < |Chain(edges).path| ==> 0 <= Chain(edges).path[i] < vertexCount
  {
    var c := Chain(edges);
    ChainLength(edges);
    ChainLinks(edges);
    assert IndexesBelow(c.consumed, vertexCount) by {
      ChainAccounts(edges);
      forall e | e in c.consumed
        ensures e in edges
      {
        assert e in multiset(c.consumed);
        assert e in multiset(edges);
      }
    }
    forall i | 0 <= i < |c.path|
      ensures 0 <= c.path[i] < vertexCount
    {
      var k := if i == 0 then 0 else i - 1;
      var e := c.consumed[k];
      assert Ends(e) == {c.path[k], c.path[k + 1]};
      assert c.path[i] in Ends(e);
      assert e in c.consumed;
    }
  }

  /** The floor-plane points of a sequence of vertex indices. */
  function Project(vertices: seq<Vec3>, path: seq<int>): (r: seq<Vec2>)
    requires forall i :: 0 <= i < |path| ==> 0 <= path[i] < |vertices|
    ensures |r| == |path|
  {
    seq(|path|, i requires 0 <= i < |path| => Planar(vertices[path[i]]))
  }

  /** One iteration of the ordering loop unfolds the walk by one step. */
  lemma WalkStep(edges: seq<Edge>, v: int, k: int)
    requires |edges| > 0 && k == FindIndex(edges, v) && k != -1
    ensures 0 <= k < |edges|
    ensures Walk(edges, v).path == [OtherEnd(edges[k], v)] + Walk(RemoveAt(edges, k), OtherEnd(edges[k], v)).path
    ensures Walk(edges, v).rest == Walk(RemoveAt(edges, k), OtherEnd(edges[k], v)).rest
  {
  }

  /** The path so far followed by what the walk from the open end will append
      is unchanged by one iteration. */
  lemma PathStep(path: seq<int>, edges: seq<Edge>, v: int, k: int)
    requires |edges| > 0 && k == FindIndex(edges, v) && k != -1
    ensures 0 <= k < |edges|
    ensures path + Walk(edges, v).path
      == (path + [OtherEnd(edges[k], v)]) + Walk(RemoveAt(edges, k), OtherEnd(edges[k], v)).path
  {
    WalkStep(edges, v, k);
  }

  /** The loop stops with nothing more to walk: the list is empty or no edge
      touches the open end. */
  lemma WalkDone(edges: seq<Edge>, v: int)
    requires |edges| == 0 || FindIndex(edges, v) == -1
    ensures Walk(edges, v).path == [] && Walk(edges, v).rest == edges
  {
  }

  lemma RemoveAtBelow(edges: seq<Edge>, k: int, vertexCount: int)
    requires 0 <= k < |edges| && IndexesBelow(edges, vertexCount)
    ensures IndexesBelow(RemoveAt(edges, k), vertexCount)
  {
    forall e | e in RemoveAt(edges, k)
      ensures 0 <= e.start < vertexCount && 0 <= e.end < vertexCount
    {
      assert e in multiset(RemoveAt(edges, k));
    }
  }

  predicate PathBelow(path: seq<int>, vertexCount: int)
  {
    forall i :: 0 <= i < |path| ==> 0 <= path[i] < vertexCount
  }

  lemma ProjectAppend(vertices: seq<Vec3>, path: seq<int>, x: int)
    requires PathBelow(path, |vertices|) && 0 <= x < |vertices|
    ensures PathBelow(path + [x], |vertices|)
    ensures Project(vertices, path + [x]) == Project(vertices, path) + [Planar(vertices[x])]
  {
  }

  /** The outline the ordering routine returns has between 2 and |edges| + 1
      points and starts with the first edge's two ends. */
  lemma OutlineShape(edges: seq<Edge>, vertices: seq<Vec3>)
    requires |edges| > 0 && IndexesBelow(edges, |vertices|)
    ensures PathBelow(Chain(edges).path, |vertices|)
    ensures 2 <= |Project(vertices, Chain(edges).path)| <= |edges| + 1
    ensures Project(vertices, Chain(edges).path)[0] == Planar(vertices[edges[0].start])
    ensures Project(vertices, Chain(edges).path)[1] == Planar(vertices[edges[0].end])
  {
    ChainInRange(edges, |vertices|);
    ChainLength(edges);
  }

  /** The ordering routine. It removes the consumed edges from the caller's
      list, so the list that is left is returned as `remaining`. */
  method OrderBoundaryEdges(edges: seq<Edge>, vertices: seq<Vec3>)
    returns (orderedVertices: seq<Vec2>, remaining: seq<Edge>)
    requires |edges| > 0
    requires IndexesBelow(edges, |vertices|)
    ensures PathBelow(Chain(edges).path, |vertices|)
    ensures orderedVertices == Project(vertices, Chain(edges).path)
    ensures remaining == Chain(edges).rest
  {
    var currentEdge := edges[0];
    remaining := edges[1..];
    var startVertex := currentEdge.start;
    var endVertex := currentEdge.end;
    orderedVertices := [Planar(vertices[startVertex]), Planar(vertices[endVertex])];
    ghost var path := [startVertex, endVertex];
    ChainInRange(edges, |vertices|);

    while |remaining| > 0
      invariant 0 <= endVertex < |vertices|
      invariant PathBelow(path, |vertices|)
      invariant IndexesBelow(remaining, |vertices|)
      invariant path + Walk(remaining, endVertex).path == Chain(edges).path
      invariant Walk(remaining, endVertex).rest == Chain(edges).rest
      invariant orderedVertices == Project(vertices, path)
      decreases |remaining|
    {
      var nextEdgeIndex := FindIndex(remaining, endVertex);
      if nextEdgeIndex == -1 {
        break;
      }
      var nextEdge := remaining[nextEdgeIndex];
      ghost var before, from := remaining, endVertex;
      remaining := RemoveAt(remaining, nextEdgeIndex);
      endVertex := if nextEdge.start == endVertex then nextEdge.end else nextEdge.start;
      orderedVertices := orderedVertices + [Planar(vertices[endVertex])];
      PathStep(path, before, from, nextEdgeIndex);
      RemoveAtBelow(before, nextEdgeIndex, |vertices|);
      ProjectAppend(vertices, path, endVertex);
      path := path + [endVertex];
    }
    WalkDone(remaining, endVertex);
    assert path == Chain(edges).path;
  }

  // ---------------------------------------------------------------------------
  // Point in polygon
  // ---------------------------------------------------------------------------

  /** The crossing test for the polygon edge (v1, v2): the point's y lies in
      the half-open interval (min, max] of the edge's y values, the point is
      not right of the edge's larger x, and the ray towards +x meets the
      edge at or right of the point. The guard is evaluated before the
      division, and it already rules out v1.y == v2.y. */
  predicate Crosses(v1: Vec2, v2: Vec2, p: Vec2)
  {
    && InBand(v1, v2, p)
    && p.x <= XIntersection(v1, v2, p)
  }

  /** The guard before the division. */
  predicate InBand(v1: Vec2, v2: Vec2, p: Vec2)
  {
    p.y > Min(v1.y, v2.y) && p.y <= Max(v1.y, v2.y) && p.x <= Max(v1.x, v2.x)
  }

  /** Where the horizontal line through `p` meets the line through v1, v2. */
  function XIntersection(v1: Vec2, v2: Vec2, p: Vec2): real
    requires v1.y != v2.y
  {
    (p.y - v1.y) * (v2.x - v1.x) / (v2.y - v1.y) + v1.x
  }

  /** A horizontal edge (a zero-length closing edge included) is never
      counted, because the guard implies the two y values differ. */
  lemma HorizontalNeverCrosses(v1: Vec2, v2: Vec2, p: Vec2)
    ensures p.y > Min(v1.y, v2.y) && p.y <= Max(v1.y, v2.y) ==> v1.y != v2.y
    ensures v1.y == v2.y ==> !Crosses(v1, v2, p)
  {
  }

  /** The number of crossed edges among the first `n` edges (i, (i + 1) mod N). */
  function CrossingCount(polygon: seq<Vec2>, p: Vec2, n: nat): (c: nat)
    requires n <= |polygon|
    ensures c <= n
  {
    if n == 0 then 0
    else CrossingCount(polygon, p, n - 1) + if Crosses(polygon[n - 1], polygon[n % |polygon|], p) then 1 else 0
  }

  /** Even-odd rule: inside iff an odd number of edges is crossed. */
  predicate InsidePolygon(polygon: seq<Vec2>, p: Vec2)
  {
    CrossingCount(polygon, p, |polygon|) % 2 == 1
  }

  method IsPointInPolygon(polygon: seq<Vec2>, point: Vec2) returns (inside: bool)
    ensures inside == InsidePolygon(polygon, point)
    ensures |polygon| == 0 ==> !inside
  {
    var intersections := 0;
    for i := 0 to |polygon|
      invariant intersections == CrossingCount(polygon, point, i)
    {
      var v1 := polygon[i];
      var v2 := polygon[(i + 1) % |polygon|];
      if point.y > Min(v1.y, v2.y) && point.y <= Max(v1.y, v2.y) && point.x <= Max(v1.x, v2.x) {
        var xIntersection := XIntersection(v1, v2, point);
        if point.x <= xIntersection {
          intersections := intersections + 1;
        }
      }
    }
    inside := intersections % 2 != 0;
  }

  /** A point on or below the lowest vertex, above the highest vertex, or right
      of the rightmost vertex crosses no edge at all. */
  lemma {:induction false} NoCrossingsOutsideBand(polygon: seq<Vec2>, p: Vec2, n: nat)
    requires n <= |polygon|
    requires || (forall i :: 0 <= i < |polygon| ==> p.y <= polygon[i].y)
             || (forall i :: 0 <= i < |polygon| ==> polygon[i].y < p.y)
             || (forall i :: 0 <= i < |polygon| ==> polygon[i].x < p.x)
    ensures CrossingCount(polygon, p, n) == 0
  {
    if n > 0 {
      NoCrossingsOutsideBand(polygon, p, n - 1);
      var v1, v2 := polygon[n - 1], polygon[n % |polygon|];
      assert !Crosses(v1, v2, p);
    }
  }

  lemma ModSmall(n: int, m: int)
    requires 0 <= n < m
    ensures n % m == n
  {
  }

  /** Whether a vertex lies below the point's level. */
  predicate Below(v: Vec2, p: Vec2) { v.y < p.y }

  /** Past the guard, the intersection abscissa lies between the edge's two x
      values. */
  lemma XIntersectionBetween(v1: Vec2, v2: Vec2, p: Vec2)
    requires InBand(v1, v2, p)
    ensures v1.y != v2.y
    ensures Min(v1.x, v2.x) <= XIntersection(v1, v2, p) <= Max(v1.x, v2.x)
  {
    var a, d := p.y - v1.y, v2.y - v1.y;
    var s := a / d;
    if d > 0.0 {
      FractionInUnit(a, d);
    } else {
      FractionInUnit(-a, -d);
      NegateBoth(a, d);
    }
    var dx := v2.x - v1.x;
    DivideThenScale(a, dx, d);
    assert XIntersection(v1, v2, p) == s * dx + v1.x;
    ScaledBetween(s, dx);
    assert Min(v1.x, v2.x) == v1.x + Min(0.0, dx) && Max(v1.x, v2.x) == v1.x + Max(0.0, dx);
  }

  lemma NegateBoth(a: real, d: real)
    requires d != 0.0
    ensures (-a) / (-d) == a / d
  {
  }

  lemma DivideThenScale(a: real, dx: real, d: real)
    requires d != 0.0
    ensures a * dx / d == (a / d) * dx
  {
  }

  lemma FractionInUnit(a: real, d: real)
    requires 0.0 <= a <= d && d > 0.0
    ensures 0.0 <= a / d <= 1.0
  {
    assert (a / d) * d == a;
  }

  lemma ScaledBetween(s: real, dx: real)
    requires 0.0 <= s <= 1.0
    ensures Min(0.0, dx) <= s * dx <= Max(0.0, dx)
  {
    if dx >= 0.0 {
      MulNonNegative(s, dx);
      MulNonNegative(1.0 - s, dx);
    } else {
      MulNonNegative(s, -dx);
      MulNonNegative(1.0 - s, -dx);
    }
  }

  /** For a point left of every vertex, an edge is crossed exactly when it
      joins a vertex below the point's level to one that is not. */
  lemma CrossesLeftOf(v1: Vec2, v2: Vec2, p: Vec2)
    requires p.x < v1.x && p.x < v2.x
    ensures Crosses(v1, v2, p) <==> Below(v1, p) != Below(v2, p)
  {
    if InBand(v1, v2, p) {
      XIntersectionBetween(v1, v2, p);
    }
  }

  lemma ParityStep(count: nat, crossed: bool)
    ensures (count + if crossed then 1 else 0) % 2 == if crossed then 1 - count % 2 else count % 2
  {
  }

  /** Along the open path polygon[0], ..., polygon[n], the number of crossings
      is odd exactly when the two ends lie on different sides of the level. */
  lemma {:induction false} CrossingParityLeftOf(polygon: seq<Vec2>, p: Vec2, n: nat)
    requires n < |polygon|
    requires forall i :: 0 <= i < |polygon| ==> p.x < polygon[i].x
    ensures CrossingCount(polygon, p, n) % 2 == (if Below(polygon[0], p) != Below(polygon[n], p) then 1 else 0)
  {
    if n > 0 {
      CrossingParityLeftOf(polygon, p, n - 1);
      ModSmall(n, |polygon|);
      var v1, v2 := polygon[n - 1], polygon[n];
      CrossesLeftOf(v1, v2, p);
      ParityStep(CrossingCount(polygon, p, n - 1), Crosses(v1, v2, p));
    }
  }

  /** A point outside the bounding box of the polygon's vertices is outside:
      on the left the ray crosses the closed outline an even number of times,
      elsewhere it crosses nothing. */
  lemma OutsideBoundingBox(polygon: seq<Vec2>, p: Vec2)
    requires || (forall i :: 0 <= i < |polygon| ==> p.y <= polygon[i].y)
             || (forall i :: 0 <= i < |polygon| ==> polygon[i].y < p.y)
             || (forall i :: 0 <= i < |polygon| ==> polygon[i].x < p.x)
             || (forall i :: 0 <= i < |polygon| ==> p.x < polygon[i].x)
    ensures !InsidePolygon(polygon, p)
  {
    if |polygon| > 0 {
      if forall i :: 0 <= i < |polygon| ==> p.x < polygon[i].x {
        EvenLeftOfPolygon(polygon, p);
      } else {
        NoCrossingsOutsideBand(polygon, p, |polygon|);
      }
    }
  }

  /** Left of every vertex, the closing edge brings the walk back to where it
      started, so the crossings come in pairs. */
  lemma EvenLeftOfPolygon(polygon: seq<Vec2>, p: Vec2)
    requires |polygon| > 0
    requires forall i :: 0 <= i < |polygon| ==> p.x < polygon[i].x
    ensures CrossingCount(polygon, p, |polygon|) % 2 == 0
  {
    var n := |polygon|;
    CrossingParityLeftOf(polygon, p, n - 1);
    CrossesLeftOf(polygon[n - 1], polygon[0], p);
    assert n % n == 0;
    ParityStep(CrossingCount(polygon, p, n - 1), Crosses(polygon[n - 1], polygon[0], p));
  }

  /** Crossings are counted edge by edge, so an outline with one more trailing
      point agrees with the shorter one on every edge they share. */
  lemma {:induction false} SharedEdgesCount(polygon: seq<Vec2>, open: seq<Vec2>, p: Vec2, n: nat)
    requires |open| >= 1 && |polygon| == |open| + 1
    requires forall i :: 0 <= i < |open| ==> polygon[i] == open[i]
    requires n < |open|
    ensures CrossingCount(polygon, p, n) == CrossingCount(open, p, n)
  {
    if n > 0 {
      SharedEdgesCount(polygon, open, p, n - 1);
      ModSmall(n, |polygon|);
      ModSmall(n, |open|);
    }
  }

  /** The outline the ordering routine builds repeats its first point at the
      end. That repetition does not change the inside test: the closing edge
      from the repeated point back to the first one has length zero and is
      never crossed, and the edge into the repeated point is the edge that
      closes the shorter outline. */
  lemma RepeatedClosingPoint(polygon: seq<Vec2>, p: Vec2)
    requires |polygon| >= 2 && polygon[|polygon| - 1] == polygon[0]
    ensures InsidePolygon(polygon, p) == InsidePolygon(polygon[..|polygon| - 1], p)
  {
    var open := polygon[..|polygon| - 1];
    var m := |open|;
    SharedEdgesCount(polygon, open, p, m - 1);
    ModSmall(m, |polygon|);
    assert m % |open| == 0 && |polygon| % |polygon| == 0;
    assert open[m - 1] == polygon[m - 1] && open[0] == polygon[m];
    HorizontalNeverCrosses(polygon[m], polygon[0], p);
    assert CrossingCount(open, p, m) == CrossingCount(polygon, p, m);
  }

  // ---------------------------------------------------------------------------
  // Footprint and per-axis movement
  // ---------------------------------------------------------------------------

  /** The four corners of an object's footprint on the floor plane: the
      rectangle centred on `center` with the bounds' x and z extents, listed
      around the rectangle, all at height 0. */
  function CubeCornersXZ(size: Vec3, center: Vec3): (r: seq<Vec3>)
    ensures |r| == 4
    ensures forall i :: 0 <= i < 4 ==> r[i].y == 0.0
    ensures r[2].x - r[0].x == size.x && r[2].z - r[0].z == size.z
    ensures (r[0].x + r[2].x) / 2.0 == center.x && (r[0].z + r[2].z) / 2.0 == center.z
    ensures r[1] == Vec3(r[2].x, 0.0, r[0].z) && r[3] == Vec3(r[0].x, 0.0, r[2].z)
  {
    [Vec3(center.x - size.x / 2.0, 0.0, center.z - size.z / 2.0),
     Vec3(center.x + size.x / 2.0, 0.0, center.z - size.z / 2.0),
     Vec3(center.x + size.x / 2.0, 0.0, center.z + size.z / 2.0),
     Vec3(center.x - size.x / 2.0, 0.0, center.z + size.z / 2.0)]
  }

  /** Every footprint corner, projected to the floor plane, is inside. */
  predicate FootprintInside(polygon: seq<Vec2>, size: Vec3, position: Vec3)
  {
    forall i :: 0 <= i < 4 ==> InsidePolygon(polygon, Planar(CubeCornersXZ(size, position)[i]))
  }

  class FloorBoundary {
    /** The outline of the floor as floor-plane points, empty until a boundary
        has been extracted. */
    var boundaryVertices: seq<Vec2>

    constructor ()
      ensures boundaryVertices == []
    {
      boundaryVertices := [];
    }

    /** The outline extracted from `mesh`, or None where the ordering routine
        would read the first element of an empty edge list. */
    static function ExtractedBoundary(mesh: Mesh): Option<seq<Vec2>>
      requires ValidMesh(mesh)
    {
      var edges := BoundaryEdgesOf(mesh.triangles);
      if edges == [] then None
      else
        BoundaryEdgesInRange(mesh);
        ChainInRange(edges, |mesh.vertices|);
        Some(Project(mesh.vertices, Chain(edges).path))
    }

    /** Counts the sides, selects the boundary edges and chains them. With no
        boundary edge the ordering routine throws, `ok` is false and the
        outline is left as it was. */
    method ExtractBoundary(mesh: Mesh) returns (ok: bool)
      requires ValidMesh(mesh)
      modifies this
      ensures ok <==> ExtractedBoundary(mesh).Some?
      ensures boundaryVertices == if ok then ExtractedBoundary(mesh).value else old(boundaryVertices)
    {
      var edgeCounts, keys := CountEdges(mesh.triangles);
      DictionaryMeaning(mesh.triangles);
      var boundaryEdges := SelectBoundaryEdges(edgeCounts, keys);
      if |boundaryEdges| == 0 {
        return false;
      }
      BoundaryEdgesInRange(mesh);
      var ordered, _ := OrderBoundaryEdges(boundaryEdges, mesh.vertices);
      boundaryVertices := ordered;
      ok := true;
    }

    /** True iff every footprint corner at the moved position is inside the
        outline. */
    method CanMoveInDirection(currentPosition: Vec3, movement: Vec3, size: Vec3) returns (ok: bool)
      ensures ok == FootprintInside(boundaryVertices, size, Add(currentPosition, movement))
    {
      var targetPosition := Add(currentPosition, movement);
      var cubeCorners := CubeCornersXZ(size, targetPosition);
      for i := 0 to 4
        invariant forall k :: 0 <= k < i ==> InsidePolygon(boundaryVertices, Planar(cubeCorners[k]))
      {
        var corner2D := Planar(cubeCorners[i]);
        var inside := IsPointInPolygon(boundaryVertices, corner2D);
        if !inside {
          return false;
        }
      }
      return true;
    }

    /** One frame of movement: the x part of the move is kept iff moving by it
        alone keeps the footprint inside, likewise the z part; the y part is
        passed through. Returns the new position. */
    method Update(position: Vec3, movement: Vec3, size: Vec3) returns (newPosition: Vec3)
      ensures newPosition.x == position.x +
        if FootprintInside(boundaryVertices, size, Add(position, Vec3(movement.x, 0.0, 0.0))) then movement.x else 0.0
      ensures newPosition.z == position.z +
        if FootprintInside(boundaryVertices, size, Add(position, Vec3(0.0, 0.0, movement.z))) then movement.z else 0.0
      ensures newPosition.y == position.y + movement.y
    {
      var adjustedMovement := movement;
      var canX := CanMoveInDirection(position, Vec3(movement.x, 0.0, 0.0), size);
      if !canX {
        adjustedMovement := adjustedMovement.(x := 0.0);
      }
      var canZ := CanMoveInDirection(position, Vec3(0.0, 0.0, movement.z), size);
      if !canZ {
        adjustedMovement := adjustedMovement.(z := 0.0);
      }
      newPosition := Add(position, adjustedMovement);
    }
  }
}

/**
 * Raycast refinement: find the cells with an edge longer than the search
 * length, and after subdivision cast a ray inward from every vertex near
 * those cells; a vertex moves to its hit point only when a neighbour's hit is
 * close to its own.
 *
 * The VTK services are parameters: `cast(p)` is the intersection point the
 * cell locator returns for the inward ray of vertex `p` (the origin when
 * nothing is hit), `distanceTo(large)(x)` is the implicit distance from `x` to
 * the mesh `large`, and `subdivide` is adaptive subdivision followed by
 * cleaning. The vertex normals that orient the rays are computed only when
 * refinement runs, and only through `cast`; they are not modelled.
 */
module Raycast {
  import opened Wrappers
  import opened Geometry
  import opened Selection

  /** The exceptions the Python code raises here: `max()` of the empty edge
      list of a cell with fewer than two points, and a `KeyError` for a vertex
      without a hit record. */
  datatype RaycastError = EmptyEdgeList | MissingRecord

  /** The squared length of the longest edge between consecutive vertices
      `pa, pa + 1, ..` of `f`; the closing edge back to `f[0]` is not one. */
  function LongestEdge2(points: seq<Point>, f: Face, pa: nat): real
    requires IndexedBelow(f, |points|) && pa + 1 < |f|
    decreases |f| - pa
  {
    var here := Dist2(points[f[pa]], points[f[pa + 1]]);
    if pa + 2 == |f| then here
    else
      var rest := LongestEdge2(points, f, pa + 1);
      if here > rest then here else rest
  }

  /** `LongestEdge2` is the maximum of the measured edges: it bounds each of
      them and is attained by one. */
  lemma {:induction false} LongestEdgeIsMax(points: seq<Point>, f: Face, pa: nat)
    requires IndexedBelow(f, |points|) && pa + 1 < |f|
    decreases |f| - pa
    ensures forall k :: pa <= k < |f| - 1 ==> Dist2(points[f[k]], points[f[k + 1]]) <= LongestEdge2(points, f, pa)
    ensures exists k :: pa <= k < |f| - 1 && Dist2(points[f[k]], points[f[k + 1]]) == LongestEdge2(points, f, pa)
  {
    var here := Dist2(points[f[pa]], points[f[pa + 1]]);
    if pa + 2 < |f| && LongestEdge2(points, f, pa + 1) >= here {
      LongestEdgeIsMax(points, f, pa + 1);
    } else {
      if pa + 2 < |f| {
        LongestEdgeIsMax(points, f, pa + 1);
      }
      assert Dist2(points[f[pa]], points[f[pa + 1]]) == LongestEdge2(points, f, pa);
    }
  }

  /** `max(edgeLength) > raycastSearchEdgeLength` for a cell with an edge. */
  predicate Large(points: seq<Point>, f: Face, searchLength: real)
    requires IndexedBelow(f, |points|) && |f| >= 2
  {
    ExceedsNorm(LongestEdge2(points, f, 0), searchLength)
  }

  /** Some edge `f[k] -> f[k + 1]` is longer than `len`. */
  predicate HasLongEdge(points: seq<Point>, f: Face, len: real)
    requires IndexedBelow(f, |points|)
  {
    exists k :: 0 <= k < |f| - 1 && LongerThan(points[f[k]], points[f[k + 1]], len)
  }

  /** A cell is large exactly when one of its consecutive-vertex edges is
      longer than the search length. */
  lemma LargeIffLongEdge(points: seq<Point>, f: Face, len: real)
    requires IndexedBelow(f, |points|) && |f| >= 2
    ensures Large(points, f, len) <==> HasLongEdge(points, f, len)
  {
    var m := LongestEdge2(points, f, 0);
    LongestEdgeIsMax(points, f, 0);
    if Large(points, f, len) {
      var k :| 0 <= k < |f| - 1 && Dist2(points[f[k]], points[f[k + 1]]) == m;
      assert LongerThan(points[f[k]], points[f[k + 1]], len);
    }
  }

  /** Only the edges between consecutive vertices are measured: whether a
      triangle `a, b, c` is large never depends on its closing edge `c -> a`. */
  lemma ClosingEdgeIgnored(a: Point, b: Point, c: Point, len: real)
    ensures Large([a, b, c], [0, 1, 2], len) <==> LongerThan(a, b, len) || LongerThan(b, c, len)
  {
    var points, f := [a, b, c], [0, 1, 2];
    LargeIffLongEdge(points, f, len);
    assert points[f[0]] == a && points[f[1]] == b && points[f[2]] == c;
    if LongerThan(a, b, len) {
      assert LongerThan(points[f[0]], points[f[1]], len);
    } else if LongerThan(b, c, len) {
      assert LongerThan(points[f[1]], points[f[2]], len);
    }
  }

  /** The cell test the large-cell loop applies. */
  predicate LargeCell(points: seq<Point>, searchLength: real, f: Face) {
    IndexedBelow(f, |points|) && |f| >= 2 && Large(points, f, searchLength)
  }

  /** The cell test as a value, so that every use names the same function. */
  function LargeTest(points: seq<Point>, searchLength: real): Face -> bool {
    f => LargeCell(points, searchLength, f)
  }

  /** The ids of the large cells in cell order, or the `max()` error when a cell
      has no edge. */
  function LargeCellIds(m: Mesh, searchLength: real): (r: Result<seq<nat>, RaycastError>)
    requires Valid(m)
    ensures r.Failure? <==> exists c :: 0 <= c < |m.faces| && |m.faces[c]| < 2
    ensures r.Success? ==> Increasing(r.value)
    ensures r.Success? ==> forall j :: 0 <= j < |r.value| ==> r.value[j] < |m.faces|
    ensures r.Success? ==> forall c :: 0 <= c < |m.faces| ==>
              (c in r.value <==> HasLongEdge(m.points, m.faces[c], searchLength))
  {
    if exists c :: 0 <= c < |m.faces| && |m.faces[c]| < 2 then Failure(EmptyEdgeList)
    else
      var ids := SelectFrom(m.faces, LargeTest(m.points, searchLength), 0);
      assert forall c :: 0 <= c < |m.faces| ==> (c in ids <==> HasLongEdge(m.points, m.faces[c], searchLength)) by {
        forall c | 0 <= c < |m.faces| {
          LargeIffLongEdge(m.points, m.faces[c], searchLength);
        }
      }
      Success(ids)
  }

  /** The copy of the mesh with every cell that is not large deleted, which the
      distance to large cells is measured against: the large cells in their
      original order. */
  function LargeCellMesh(m: Mesh, searchLength: real): (r: Result<Mesh, RaycastError>)
    requires Valid(m)
    ensures r.Failure? <==> LargeCellIds(m, searchLength).Failure?
    ensures r.Success? ==> Valid(r.value) && r.value.points == m.points
    ensures r.Success? ==> r.value.faces == Filter(m.faces, LargeTest(m.points, searchLength))
  {
    match LargeCellIds(m, searchLength)
    case Failure(e) => Failure(e)
    case Success(ids) =>
      var keep := LargeTest(m.points, searchLength);
      assert Pick(m.faces, ids) == Filter(m.faces, keep) by {
        FilterIsPickOfSelect(m.faces, keep, 0);
        assert m.faces[0..] == m.faces;
      }
      FilterKeepsValid(m, keep);
      Success(Mesh(m.points, Pick(m.faces, ids)))
  }

  /** The vertices within one unit of the large-cell mesh (`abs(distance) < 1`). */
  function NearLargePoints(points: seq<Point>, nearLarge: Point -> real): set<nat> {
    set p: nat | p < |points| && Abs(nearLarge(points[p])) < 1.0
  }

  /** A hit record: the hit point and the squared ray length, or no hit. */
  datatype Record = Miss | Hit(at: Point, length2: real)

  /** The record a ray from vertex `p` yields: a hit exactly when the returned
      point has a non-zero norm, that is, is not the origin. */
  function RayRecord(points: seq<Point>, p: nat, cast: nat -> Point): Record {
    var g := cast(p);
    if g != Origin && p < |points| then Hit(g, Dist2(g, points[p])) else Miss
  }

  /** One visit of vertex `p` in the record loop. A vertex not near a large
      cell, or one that already holds a miss, gets a miss; any other vertex
      gets the record of its ray. */
  function Visit(rec: map<nat, Record>, p: nat, large: set<nat>, points: seq<Point>,
                 cast: nat -> Point): (r: map<nat, Record>)
    ensures r.Keys == rec.Keys + {p}
    ensures forall q :: q in rec && q != p ==> r[q] == rec[q]
    ensures p !in large ==> r[p] == Miss
    ensures p in rec && rec[p].Miss? ==> r[p] == Miss
    ensures p in large && !(p in rec && rec[p].Miss?) ==> r[p] == RayRecord(points, p, cast)
  {
    if p !in large || (p in rec && rec[p].Miss?) then rec[p := Miss]
    else rec[p := RayRecord(points, p, cast)]
  }

  /** The final record of a vertex. */
  function Expected(points: seq<Point>, large: set<nat>, cast: nat -> Point, p: nat): Record {
    if p in large then RayRecord(points, p, cast) else Miss
  }

  /** The vertices of triangle cells (VTK cell type 5). */
  function TriangleIds(m: Mesh, upTo: nat): set<nat>
    requires upTo <= |m.faces|
  {
    set c, k | 0 <= c < upTo && |m.faces[c]| == 3 && 0 <= k < 3 :: m.faces[c][k]
  }

  lemma TriangleIdsStep(m: Mesh, c: nat)
    requires c < |m.faces|
    ensures TriangleIds(m, c + 1)
            == TriangleIds(m, c) + (if |m.faces[c]| == 3 then set k | 0 <= k < 3 :: m.faces[c][k] else {})
  {
  }

  /** The record map after the loop over all cells. */
  function Records(m: Mesh, large: set<nat>, cast: nat -> Point): map<nat, Record> {
    map p | p in TriangleIds(m, |m.faces|) :: Expected(m.points, large, cast, p)
  }

  /** The record loop as the program runs it: cells in order, triangles only,
      their vertices in order, each visit updating the map. Every triangle
      vertex gets a record, and a vertex's record is a hit only when it is
      near a large cell and its ray returned a non-zero point. */
  method BuildRecords(m: Mesh, large: set<nat>, cast: nat -> Point) returns (rec: map<nat, Record>)
    ensures rec.Keys == TriangleIds(m, |m.faces|)
    ensures forall p :: p in rec ==> (rec[p].Hit? <==> p in large && cast(p) != Origin && p < |m.points|)
    ensures forall p :: p in rec && rec[p].Hit? ==> rec[p] == Hit(cast(p), Dist2(cast(p), m.points[p]))
    ensures rec == Records(m, large, cast)
  {
    rec := map[];
    var c := 0;
    while c < |m.faces|
      invariant 0 <= c <= |m.faces|
      invariant rec.Keys == TriangleIds(m, c)
      invariant forall p :: p in rec ==> rec[p] == Expected(m.points, large, cast, p)
    {
      var f := m.faces[c];
      TriangleIdsStep(m, c);
      if |f| == 3 {
        var j := 0;
        while j < |f|
          invariant 0 <= j <= |f|
          invariant rec.Keys == TriangleIds(m, c) + set k | 0 <= k < j :: f[k]
          invariant forall p :: p in rec ==> rec[p] == Expected(m.points, large, cast, p)
        {
          rec := Visit(rec, f[j], large, m.points, cast);
          assert (set k | 0 <= k < j + 1 :: f[k]) == (set k | 0 <= k < j :: f[k]) + {f[j]};
          j := j + 1;
        }
      }
      c := c + 1;
    }
  }

  /** Vertex `q` shares cell `c` with `i` and has a hit closer than
      `maxHitDistance` to the hit of `i`. */
  predicate Corroborates(m: Mesh, rec: map<nat, Record>, i: nat, maxHit: real, c: nat, q: nat)
    requires i in rec && c < |m.faces|
  {
    i in m.faces[c] && q in m.faces[c] && q != i
    && q in rec && rec[q].Hit? && rec[i].Hit? && CloserThan(rec[q].at, rec[i].at, maxHit)
  }

  /** The acceptance rule of the refinement loop for vertex `i`. */
  ghost predicate Moves(m: Mesh, rec: map<nat, Record>, i: nat, minLength: real, maxHit: real) {
    && i in rec && rec[i].Hit?
    && ExceedsNorm(rec[i].length2, minLength)
    && exists c, q :: 0 <= c < |m.faces| && Corroborates(m, rec, i, maxHit, c, q)
  }

  /** The refinement loop, in vertex order, breaking out at the first
      corroborating neighbour. It fails when some vertex has no record; otherwise
      an accepted vertex moves to its own hit point and every other vertex stays.
      Decisions read only the records, never the moved positions. */
  method Refine(m: Mesh, rec: map<nat, Record>, minLength: real, maxHit: real)
    returns (r: Result<seq<Point>, RaycastError>)
    requires Valid(m)
    ensures r.Failure? <==> exists i :: 0 <= i < |m.points| && i !in rec
    ensures r.Success? ==> |r.value| == |m.points|
    ensures r.Success? ==> forall i :: 0 <= i < |m.points| ==>
              r.value[i] == if Moves(m, rec, i, minLength, maxHit) then rec[i].at else m.points[i]
  {
    var pts := m.points;
    var i := 0;
    while i < |m.points|
      invariant 0 <= i <= |m.points| && |pts| == |m.points|
      invariant forall v :: 0 <= v < i ==> v in rec
      invariant forall v :: 0 <= v < i ==>
                  pts[v] == if Moves(m, rec, v, minLength, maxHit) then rec[v].at else m.points[v]
      invariant forall v :: i <= v < |m.points| ==> pts[v] == m.points[v]
    {
      if i !in rec {
        return Failure(MissingRecord);
      }
      var changed := false;
      ghost var before := pts;
      if rec[i].Hit? && ExceedsNorm(rec[i].length2, minLength) {
        var c := 0;
        while c < |m.faces| && !changed
          invariant 0 <= c <= |m.faces|
          invariant |pts| == |m.points|
          invariant forall v :: 0 <= v < |m.points| && v != i ==> pts[v] == before[v]
          invariant changed ==> pts[i] == rec[i].at && exists c', q :: 0 <= c' < |m.faces| && Corroborates(m, rec, i, maxHit, c', q)
          invariant !changed ==> pts[i] == m.points[i]
          invariant !changed ==> forall c', q :: 0 <= c' < c ==> !Corroborates(m, rec, i, maxHit, c', q)
        {
          var f := m.faces[c];
          if i in f {
            var k := 0;
            while k < |f| && !changed
              invariant 0 <= k <= |f|
              invariant |pts| == |m.points|
              invariant forall v :: 0 <= v < |m.points| && v != i ==> pts[v] == before[v]
              invariant changed ==> pts[i] == rec[i].at && exists c', q :: 0 <= c' < |m.faces| && Corroborates(m, rec, i, maxHit, c', q)
              invariant !changed ==> pts[i] == m.points[i]
              invariant !changed ==> forall k' :: 0 <= k' < k ==> !Corroborates(m, rec, i, maxHit, c, f[k'])
            {
              var q := f[k];
              if q != i {
                if q !in rec {
                  assert q < |m.points|;
                  return Failure(MissingRecord);
                }
                if rec[q].Hit? && CloserThan(rec[q].at, rec[i].at, maxHit) {
                  assert Corroborates(m, rec, i, maxHit, c, q);
                  pts := pts[i := rec[i].at];
                  changed := true;
                }
              }
              k := k + 1;
            }
            if !changed {
              forall q | q in f
                ensures !Corroborates(m, rec, i, maxHit, c, q)
              {
                var k' :| 0 <= k' < |f| && f[k'] == q;
              }
            }
          }
          c := c + 1;
        }
      }
      i := i + 1;
    }
    r := Success(pts);
  }

  /** The refinement step on the subdivided mesh `m`. It runs only when the
      mesh before subdivision had a large cell and the maximal ray length is
      positive; otherwise the mesh is returned unchanged. */
  method Raycast(m: Mesh, largeCellCount: nat, maxLength: real, nearLarge: Point -> real,
                 cast: nat -> Point, minLength: real, maxHit: real)
    returns (r: Result<Mesh, RaycastError>)
    requires Valid(m)
    ensures !(largeCellCount > 0 && maxLength > 0.0) ==> r == Success(m)
    ensures largeCellCount > 0 && maxLength > 0.0 ==>
              (r.Failure? <==> exists i :: 0 <= i < |m.points| && i !in TriangleIds(m, |m.faces|))
    ensures r.Success? ==> r.value.faces == m.faces && |r.value.points| == |m.points|
    ensures largeCellCount > 0 && maxLength > 0.0 && r.Success? ==>
              var rec := Records(m, NearLargePoints(m.points, nearLarge), cast);
              forall i :: 0 <= i < |m.points| ==>
                r.value.points[i] == if Moves(m, rec, i, minLength, maxHit) then rec[i].at else m.points[i]
  {
    if largeCellCount > 0 && maxLength > 0.0 {
      var large := NearLargePoints(m.points, nearLarge);
      var rec := BuildRecords(m, large, cast);
      var moved := Refine(m, rec, minLength, maxHit);
      match moved
      case Failure(e) => r := Failure(e);
      case Success(pts) => r := Success(Mesh(pts, m.faces));
    } else {
      r := Success(m);
    }
  }

  /** The raycast stage as a whole. Large cells are found on the mesh `m0`
      before subdivision (a cell without an edge raises), the large-cell copy is
      built, and the subdivided mesh is refined against the distance to that
      copy. Without a large cell, or without a positive maximal ray length, the
      result is the subdivided mesh as it is. */
  method RaycastStage(m0: Mesh, subdivide: Mesh -> Mesh, distanceTo: Mesh -> Point -> real,
                      cast: nat -> Point, searchLength: real, maxLength: real,
                      minLength: real, maxHit: real)
    returns (r: Result<Mesh, RaycastError>)
    requires Valid(m0) && Valid(subdivide(m0))
    ensures (exists c :: 0 <= c < |m0.faces| && |m0.faces[c]| < 2) ==> r == Failure(EmptyEdgeList)
    ensures (forall c :: 0 <= c < |m0.faces| ==>
               |m0.faces[c]| >= 2 && !HasLongEdge(m0.points, m0.faces[c], searchLength))
            ==> r == Success(subdivide(m0))
    ensures maxLength <= 0.0 && LargeCellIds(m0, searchLength).Success? ==> r == Success(subdivide(m0))
    ensures maxLength > 0.0 && LargeCellIds(m0, searchLength).Success?
            && (exists c :: 0 <= c < |m0.faces| && HasLongEdge(m0.points, m0.faces[c], searchLength))
            ==> (r.Failure? <==> exists i :: 0 <= i < |subdivide(m0).points|
                                            && i !in TriangleIds(subdivide(m0), |subdivide(m0).faces|))
    ensures r.Success? ==> r.value.faces == subdivide(m0).faces
                           && |r.value.points| == |subdivide(m0).points|
    ensures r.Success? && maxLength > 0.0
            && (exists c :: 0 <= c < |m0.faces| && HasLongEdge(m0.points, m0.faces[c], searchLength))
            ==> LargeCellMesh(m0, searchLength).Success?
                && var m, large := subdivide(m0), LargeCellMesh(m0, searchLength).value;
                   var rec := Records(m, NearLargePoints(m.points, distanceTo(large)), cast);
                   forall i :: 0 <= i < |m.points| ==>
                     r.value.points[i] == if Moves(m, rec, i, minLength, maxHit) then rec[i].at else m.points[i]
  {
    var found := LargeCellIds(m0, searchLength);
    if found.Failure? {
      return Failure(found.error);
    }
    var ids := found.value;
    var large := LargeCellMesh(m0, searchLength);
    var m := subdivide(m0);
    assert |ids| > 0 <==> exists c :: 0 <= c < |m0.faces| && HasLongEdge(m0.points, m0.faces[c], searchLength) by {
      if |ids| > 0 {
        assert ids[0] in ids;
      }
    }
    r := Raycast(m, |ids|, maxLength, distanceTo(large.value), cast, minLength, maxHit);
  }
}

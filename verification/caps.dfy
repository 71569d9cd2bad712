/**
 * Cap removal: every cell with a vertex farther than `maxModelDistance` from
 * the input surface is deleted; the point array is kept as it is. The implicit
 * signed distance of VTK is the parameter `sd`.
 */
module Caps {
  import opened Geometry
  import opened Selection

  /** Every vertex of the cell lies within `maxDist` of the input surface. */
  predicate Near(points: seq<Point>, f: Face, sd: Point -> real, maxDist: real) {
    forall k :: 0 <= k < |f| && f[k] < |points| ==> Abs(sd(points[f[k]])) <= maxDist
  }

  /** The survival test as a value, so that every use names the same function. */
  function NearTest(points: seq<Point>, sd: Point -> real, maxDist: real): Face -> bool {
    f => Near(points, f, sd, maxDist)
  }

  /** The mesh after `RemoveDeletedCells`: the surviving cells are exactly the
      cells the survival test selects, each once, in cell order. */
  function RemoveCaps(m: Mesh, sd: Point -> real, maxDist: real): (r: Mesh)
    requires Valid(m)
    ensures r.points == m.points && Valid(r)
    ensures |r.faces| <= |m.faces|
    ensures forall f :: f in r.faces ==> f in m.faces && Near(m.points, f, sd, maxDist)
    ensures forall c :: 0 <= c < |m.faces| && Near(m.points, m.faces[c], sd, maxDist) ==> m.faces[c] in r.faces
    ensures r.faces == Pick(m.faces, SelectFrom(m.faces, NearTest(m.points, sd, maxDist), 0))
  {
    var keep := NearTest(m.points, sd, maxDist);
    FilterKeepsValid(m, keep);
    FilterIsPickOfSelect(m.faces, keep, 0);
    assert m.faces[0..] == m.faces;
    Mesh(m.points, Filter(m.faces, keep))
  }

  /** Cells are kept or dropped one by one, in order: the result on a
      concatenation of cell lists is the concatenation of the results. */
  lemma RemoveCapsKeepsOrder(points: seq<Point>, a: seq<Face>, b: seq<Face>, sd: Point -> real, maxDist: real)
    requires Valid(Mesh(points, a + b))
    ensures Valid(Mesh(points, a)) && Valid(Mesh(points, b))
    ensures RemoveCaps(Mesh(points, a + b), sd, maxDist).faces
            == RemoveCaps(Mesh(points, a), sd, maxDist).faces + RemoveCaps(Mesh(points, b), sd, maxDist).faces
  {
    assert forall c :: 0 <= c < |a| ==> (a + b)[c] == a[c];
    assert forall c :: 0 <= c < |b| ==> (a + b)[|a| + c] == b[c];
    FilterAppend(a, b, NearTest(points, sd, maxDist));
  }

  /** With one vertex `v` out of range and all others in range, exactly the
      cells that touch `v` are removed. */
  lemma RemovesExactlyCellsAt(m: Mesh, sd: Point -> real, maxDist: real, v: nat)
    requires Valid(m) && v < |m.points|
    requires Abs(sd(m.points[v])) > maxDist
    requires forall u :: 0 <= u < |m.points| && u != v ==> Abs(sd(m.points[u])) <= maxDist
    ensures forall c :: 0 <= c < |m.faces| ==>
              (m.faces[c] in RemoveCaps(m, sd, maxDist).faces <==> v !in m.faces[c])
  {
    var r := RemoveCaps(m, sd, maxDist);
    forall c | 0 <= c < |m.faces|
      ensures m.faces[c] in r.faces <==> v !in m.faces[c]
    {
      var f := m.faces[c];
      if v in f {
        var k :| 0 <= k < |f| && f[k] == v;
        assert !Near(m.points, f, sd, maxDist);
      } else {
        assert Near(m.points, f, sd, maxDist);
      }
    }
  }
}

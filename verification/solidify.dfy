/**
 * Solidification: the cap-free surface becomes a closed shell by adding an
 * inner copy of every point, an inner copy of every face with reversed
 * orientation, and a quad joining each matched boundary edge to its inner copy.
 *
 * The input mesh is the surface after duplicate-point cleaning and normal
 * computation. The offset direction of each vertex (the normalised sum of its
 * flipped cell normals, scaled by the projection on the first one) is the
 * parameter `dir`; the boundary edges are the point lists of the cells the
 * boundary-edge filter returns, and `locate` is the point matcher over the
 * doubled point set, with `None` for its `-1`.
 */
module Solidify {
  import opened Wrappers
  import opened Geometry

  /** The inner copy of a face: the vertices in reverse order, each shifted
      by the number of original points `n`. */
  function InnerFace(f: Face, n: nat): (r: Face)
    ensures |r| == |f|
  {
    seq(|f|, k requires 0 <= k < |f| => f[|f| - 1 - k] + n)
  }

  /** Undo the shift of every index by `n`. */
  function Unshift(f: Face, n: nat): Face
    requires forall k :: 0 <= k < |f| ==> f[k] >= n
  {
    seq(|f|, k requires 0 <= k < |f| => f[k] - n)
  }

  function Reverse(f: Face): (r: Face)
    ensures |r| == |f|
  {
    seq(|f|, k requires 0 <= k < |f| => f[|f| - 1 - k])
  }

  /** Reversing the inner face and removing the shift gives back the
      original face. */
  lemma InnerFaceInverse(f: Face, n: nat)
    ensures forall k :: 0 <= k < |f| ==> InnerFace(f, n)[k] >= n
    ensures Unshift(Reverse(InnerFace(f, n)), n) == f
  {
    var r := Unshift(Reverse(InnerFace(f, n)), n);
    assert forall k :: 0 <= k < |f| ==> r[k] == f[k];
  }

  /** The edge leaving position `k` of `f` (the closing edge for the last
      position) runs `a -> b`. */
  predicate EdgeAt(f: Face, k: nat, a: nat, b: nat) {
    k < |f| && f[k] == a && f[Next(|f|, k)] == b
  }

  /** The position after `k` in a cyclic face of `len` vertices. */
  function Next(len: nat, k: nat): (r: nat)
    requires k < len
    ensures r < len
  {
    if k + 1 < len then k + 1 else 0
  }

  /** Face `f` traverses the directed edge `a -> b`, closing edge included. */
  ghost predicate Traverses(f: Face, a: nat, b: nat) {
    exists k :: EdgeAt(f, k, a, b)
  }

  /** Every directed edge `a -> b` of a face appears as `b + n -> a + n` in its
      inner copy, so the shell's two sides are oriented oppositely. */
  lemma InnerFaceReversesEdges(f: Face, n: nat, k: nat)
    requires k < |f|
    ensures Traverses(f, f[k], f[Next(|f|, k)])
    ensures Traverses(InnerFace(f, n), f[Next(|f|, k)] + n, f[k] + n)
  {
    var len := |f|;
    var inner := InnerFace(f, n);
    var j := len - 1 - Next(len, k);
    assert len - 1 - Next(len, j) == k;
    assert EdgeAt(f, k, f[k], f[Next(len, k)]);
    assert EdgeAt(inner, j, f[Next(len, k)] + n, f[k] + n);
  }

  /** The quad `[m1, m0, m0 + n, m1 + n]` for a boundary edge whose two end
      points the matcher finds; an edge of another size or with an unmatched
      end point gets none. */
  function Quad(e: seq<Point>, locate: Point -> Option<nat>, n: nat): Option<Face> {
    if |e| == 2 && locate(e[0]).Some? && locate(e[1]).Some? then
      var m0, m1 := locate(e[0]).value, locate(e[1]).value;
      Some([m1, m0, m0 + n, m1 + n])
    else None
  }

  /** The stitching quads of the boundary edges, in edge order. */
  function StitchQuads(edges: seq<seq<Point>>, locate: Point -> Option<nat>, n: nat): (r: seq<Face>)
    ensures |r| <= |edges|
    ensures forall q :: q in r ==> exists j :: 0 <= j < |edges| && Quad(edges[j], locate, n) == Some(q)
    ensures forall j :: 0 <= j < |edges| && Quad(edges[j], locate, n).Some? ==> Quad(edges[j], locate, n).value in r
  {
    if |edges| == 0 then []
    else
      var rest := StitchQuads(edges[1..], locate, n);
      assert forall j :: 1 <= j < |edges| ==> edges[j] == edges[1..][j - 1];
      match Quad(edges[0], locate, n)
      case Some(q) => [q] + rest
      case None => rest
  }

  /** Quads come out in the order of their edges. */
  lemma {:induction false} StitchAppend(a: seq<seq<Point>>, b: seq<seq<Point>>,
                                        locate: Point -> Option<nat>, n: nat)
    ensures StitchQuads(a + b, locate, n) == StitchQuads(a, locate, n) + StitchQuads(b, locate, n)
  {
    if |a| > 0 {
      assert (a + b)[1..] == a[1..] + b;
      StitchAppend(a[1..], b, locate, n);
    } else {
      assert a + b == b;
    }
  }

  /** A quad joins the boundary edge `m0 - m1` to its inner copy, traversing
      the outer edge as `m1 -> m0` and the inner one as `m0 + n -> m1 + n`:
      when a face traverses `m0 -> m1`, the quad and the inner face each run
      the edge they share with the face's two copies the other way. */
  lemma StitchOrientation(e: seq<Point>, locate: Point -> Option<nat>, n: nat, f: Face, k: nat)
    requires Quad(e, locate, n).Some? && k < |f|
    requires f[k] == locate(e[0]).value && f[Next(|f|, k)] == locate(e[1]).value
    ensures var q, m0, m1 := Quad(e, locate, n).value, locate(e[0]).value, locate(e[1]).value;
            && Traverses(f, m0, m1)
            && Traverses(q, m1, m0)
            && Traverses(InnerFace(f, n), m1 + n, m0 + n)
            && Traverses(q, m0 + n, m1 + n)
  {
    var q := Quad(e, locate, n).value;
    InnerFaceReversesEdges(f, n, k);
    assert EdgeAt(q, 0, q[0], q[1]);
    assert EdgeAt(q, 2, q[2], q[3]);
  }

  /** The offset point of vertex `i`. */
  function InnerPoint(p: Point, d: Point, thickness: real): Point {
    Add(p, Scale(thickness, d))
  }

  /** An inner point lies at distance `thickness` times the length of the
      offset direction from its original point. */
  lemma InnerPointDistance(p: Point, d: Point, thickness: real)
    ensures Dist2(InnerPoint(p, d, thickness), p) == thickness * thickness * Dot(d, d)
  {
    var s := Sub(InnerPoint(p, d, thickness), p);
    assert s == Scale(thickness, d);
  }

  /** The doubled surface with its boundary stitched, before triangulation:
      the `n` original points followed by their `n` offset copies, and the
      original faces followed by their inner copies and the quads. */
  function Solidify(m: Mesh, dir: nat -> Point, thickness: real,
                    edges: seq<seq<Point>>, locate: Point -> Option<nat>): (r: Mesh)
    ensures |r.points| == 2 * |m.points| && r.points[..|m.points|] == m.points
    ensures forall i :: 0 <= i < |m.points| ==>
              r.points[|m.points| + i] == InnerPoint(m.points[i], dir(i), thickness)
    ensures |r.faces| == 2 * |m.faces| + |StitchQuads(edges, locate, |m.points|)|
    ensures r.faces[..|m.faces|] == m.faces
    ensures forall c :: 0 <= c < |m.faces| ==>
              r.faces[|m.faces| + c] == InnerFace(m.faces[c], |m.points|)
    ensures r.faces[2 * |m.faces|..] == StitchQuads(edges, locate, |m.points|)
  {
    var n := |m.points|;
    var inner := seq(n, i requires 0 <= i < n => InnerPoint(m.points[i], dir(i), thickness));
    var innerFaces := seq(|m.faces|, c requires 0 <= c < |m.faces| => InnerFace(m.faces[c], n));
    Mesh(m.points + inner, m.faces + innerFaces + StitchQuads(edges, locate, n))
  }

  /** Every matched end point is an original point. */
  predicate MatchesOriginal(edges: seq<seq<Point>>, locate: Point -> Option<nat>, n: nat) {
    forall j, k :: 0 <= j < |edges| && 0 <= k < |edges[j]| && locate(edges[j][k]).Some? ==>
      locate(edges[j][k]).value < n
  }

  /** With matched ids below `n`, every index of the solid is below `2n`. */
  lemma SolidifyValid(m: Mesh, dir: nat -> Point, thickness: real,
                      edges: seq<seq<Point>>, locate: Point -> Option<nat>)
    requires Valid(m) && MatchesOriginal(edges, locate, |m.points|)
    ensures Valid(Solidify(m, dir, thickness, edges, locate))
  {
    var n := |m.points|;
    var r := Solidify(m, dir, thickness, edges, locate);
    forall c | 0 <= c < |r.faces|
      ensures IndexedBelow(r.faces[c], 2 * n)
    {
      if c < |m.faces| {
        assert r.faces[c] == r.faces[..|m.faces|][c];
      } else if c < 2 * |m.faces| {
        assert IndexedBelow(m.faces[c - |m.faces|], n);
      } else {
        var quads := StitchQuads(edges, locate, n);
        assert r.faces[c] == quads[c - 2 * |m.faces|];
        assert r.faces[c] in quads;
      }
    }
  }
}

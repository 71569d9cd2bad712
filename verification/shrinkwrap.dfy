/**
 * One pass of the first shrinkwrap: every vertex of the working mesh moves
 * to the closest point of the input surface, or stops `offset` short of it.
 *
 * The closest-point query of the cell locator and the vector normalisation
 * are floating-point services of VTK and numpy; they are the parameters
 * `closest` and `unit`.
 */
module Shrinkwrap {
  import opened Geometry

  /** Displacements no longer than this are not normalised. */
  const NoiseFloor: real := 0.01

  /** The new location of a vertex at `p` whose closest surface point is `c`. */
  function Move(p: Point, c: Point, unit: Point -> Point, offset: real): (r: Point)
    ensures !(offset > 0.0 && LongerThan(c, p, NoiseFloor)) ==> r == c
  {
    if offset > 0.0 && LongerThan(c, p, NoiseFloor) then Sub(c, Scale(offset, unit(Sub(c, p))))
    else c
  }

  /** A pass over all vertices; the faces are untouched. */
  function Pass(m: Mesh, closest: Point -> Point, unit: Point -> Point, offset: real): (r: Mesh)
    ensures r.faces == m.faces && |r.points| == |m.points|
    ensures forall i :: 0 <= i < |m.points| ==>
              r.points[i] == Move(m.points[i], closest(m.points[i]), unit, offset)
  {
    Mesh(seq(|m.points|, i requires 0 <= i < |m.points| => Move(m.points[i], closest(m.points[i]), unit, offset)),
         m.faces)
  }

  /** With no positive offset every vertex lands on the surface. */
  lemma NoOffsetSnaps(m: Mesh, closest: Point -> Point, unit: Point -> Point, offset: real)
    requires offset <= 0.0
    ensures forall i :: 0 <= i < |m.points| ==>
              Pass(m, closest, unit, offset).points[i] == closest(m.points[i])
  {
  }

  /** When the closest-point query is a projection (a surface point is its own
      closest point), a pass without offset is idempotent. */
  lemma NoOffsetIdempotent(m: Mesh, closest: Point -> Point, unit: Point -> Point, offset: real)
    requires offset <= 0.0
    requires forall p :: closest(closest(p)) == closest(p)
    ensures Pass(Pass(m, closest, unit, offset), closest, unit, offset) == Pass(m, closest, unit, offset)
  {
    var once := Pass(m, closest, unit, offset);
    var twice := Pass(once, closest, unit, offset);
    assert twice.points == once.points;
  }

  /** Squared distance after stepping back `d` along `u` from `c`. */
  lemma StepBackDistance(c: Point, u: Point, d: real)
    ensures Dist2(Sub(c, Scale(d, u)), c) == d * d * Dot(u, u)
  {
    var w := Sub(Sub(c, Scale(d, u)), c);
    assert w == Point(-(d * u.x), -(d * u.y), -(d * u.z));
    calc {
      Dot(w, w);
      (d * u.x) * (d * u.x) + (d * u.y) * (d * u.y) + (d * u.z) * (d * u.z);
      d * d * (u.x * u.x + u.y * u.y + u.z * u.z);
    }
  }

  /** A vertex farther than the noise floor from the surface, moved with a
      positive offset along a unit direction, ends exactly `offset` away from
      its closest point; a nearer vertex snaps onto it. */
  lemma OffsetDistance(p: Point, c: Point, unit: Point -> Point, offset: real)
    requires offset > 0.0
    requires Dot(unit(Sub(c, p)), unit(Sub(c, p))) == 1.0
    ensures LongerThan(c, p, NoiseFloor) ==> Dist2(Move(p, c, unit, offset), c) == offset * offset
    ensures !LongerThan(c, p, NoiseFloor) ==> Move(p, c, unit, offset) == c
  {
    StepBackDistance(c, unit(Sub(c, p)), offset);
  }

  /** When `unit` scales the displacement by a positive factor `s` (as
      `vector / vectorLength` does, with `s` the reciprocal length), an offset
      vertex lands on the segment from its closest point back toward where it
      started, `offset * s` of the way per unit of displacement. */
  lemma OffsetTowardVertex(p: Point, c: Point, unit: Point -> Point, offset: real, s: real)
    requires offset > 0.0 && LongerThan(c, p, NoiseFloor)
    requires s > 0.0 && unit(Sub(c, p)) == Scale(s, Sub(c, p))
    ensures Move(p, c, unit, offset) == Add(c, Scale(offset * s, Sub(p, c)))
    ensures Dot(Sub(Move(p, c, unit, offset), c), Sub(p, c)) == offset * s * Dist2(p, c)
  {
    var r := Move(p, c, unit, offset);
    assert r == Sub(c, Scale(offset, Scale(s, Sub(c, p))));
    assert Sub(r, c) == Scale(offset * s, Sub(p, c));
  }
}

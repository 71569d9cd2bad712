/**
 * Points, meshes and the exact distance comparisons the filter performs.
 *
 * The program compares Euclidean lengths (`np.linalg.norm`) against
 * thresholds. A norm is the non-negative square root of a squared distance,
 * so every such comparison is stated here on squared distances, which keeps
 * the model in exact real arithmetic; `ExceedsNorm` and `BelowNorm` are proved
 * to agree with the norm comparison they stand for.
 */
module Geometry {

  datatype Point = Point(x: real, y: real, z: real)

  const Origin := Point(0.0, 0.0, 0.0)

  function Add(a: Point, b: Point): Point {
    Point(a.x + b.x, a.y + b.y, a.z + b.z)
  }

  function Sub(a: Point, b: Point): Point {
    Point(a.x - b.x, a.y - b.y, a.z - b.z)
  }

  function Scale(s: real, a: Point): Point {
    Point(s * a.x, s * a.y, s * a.z)
  }

  function Dot(a: Point, b: Point): real {
    a.x * b.x + a.y * b.y + a.z * b.z
  }

  /** Squared Euclidean distance. */
  function Dist2(a: Point, b: Point): real {
    Dot(Sub(a, b), Sub(a, b))
  }

  function Abs(x: real): real {
    if x < 0.0 then -x else x
  }

  /** `len > bound` for a length whose square is `len2`. */
  predicate ExceedsNorm(len2: real, bound: real) {
    bound < 0.0 || len2 > bound * bound
  }

  /** `len < bound` for a length whose square is `len2`. */
  predicate BelowNorm(len2: real, bound: real) {
    bound > 0.0 && len2 < bound * bound
  }

  /** `‖a - b‖ > bound` */
  predicate LongerThan(a: Point, b: Point, bound: real) {
    ExceedsNorm(Dist2(a, b), bound)
  }

  /** `‖a - b‖ < bound` */
  predicate CloserThan(a: Point, b: Point, bound: real) {
    BelowNorm(Dist2(a, b), bound)
  }

  /** The squared-distance comparisons decide exactly the comparisons of the
      non-negative root `len` against `bound`, whatever the sign of `bound`. */
  lemma NormComparisons(len: real, bound: real)
    requires len >= 0.0
    ensures ExceedsNorm(len * len, bound) <==> len > bound
    ensures BelowNorm(len * len, bound) <==> len < bound
  {
    if bound >= 0.0 {
      assert len * len - bound * bound == (len - bound) * (len + bound);
      if len > bound {
        PositiveProduct(len - bound, len + bound);
      } else if len < bound {
        PositiveProduct(bound - len, bound + len);
      }
    }
  }

  lemma PositiveProduct(a: real, b: real)
    requires a > 0.0 && b > 0.0
    ensures a * b > 0.0
  {
  }

  /** A face is an ordered list of point indices. */
  type Face = seq<nat>

  /** A polygonal mesh: the point array and the polygon cells, in cell order. */
  datatype Mesh = Mesh(points: seq<Point>, faces: seq<Face>)

  /** Every index of `f` names one of `n` points. */
  predicate IndexedBelow(f: Face, n: nat) {
    forall k :: 0 <= k < |f| ==> f[k] < n
  }

  /** Every face references existing points. */
  predicate Valid(m: Mesh) {
    forall c :: 0 <= c < |m.faces| ==> IndexedBelow(m.faces[c], |m.points|)
  }
}

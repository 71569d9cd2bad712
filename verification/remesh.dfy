/**
 * The sizing of the voxel grid `remeshPolydata` rasterises a mesh into. The
 * rasterisation and the isosurface extraction are VTK filters and are not
 * part of this model; the grid size per axis is.
 */
module Remesh {
  import opened Wrappers

  /** Python's `math.ceil`: the least integer not below `x`. */
  function Ceil(x: real): (r: int)
    ensures x <= r as real < x + 1.0
  {
    -((-x).Floor)
  }

  /** The number of grid samples along one axis spanning `[lo, hi]` at
      `spacing`: `ceil((hi - lo) / spacing) + 1`, raised to 1 when smaller.
      A zero spacing makes the Python division raise. */
  function AxisDim(lo: real, hi: real, spacing: real): (r: Option<int>)
    ensures r.None? <==> spacing == 0.0
    ensures r.Some? ==> r.value >= 1
  {
    if spacing == 0.0 then None
    else
      var d := Ceil((hi - lo) / spacing) + 1;
      Some(if d < 1 then 1 else d)
  }

  lemma MulMonotone(a: real, b: real, s: real)
    requires a <= b && s > 0.0
    ensures a * s <= b * s
  {
  }

  lemma MulStrict(a: real, b: real, s: real)
    requires a < b && s > 0.0
    ensures a * s < b * s
  {
  }

  /** For a positive spacing and a non-empty extent the grid covers the extent
      with `dim - 1` steps, and it is the smallest grid that does: one sample
      fewer would fall short. */
  lemma AxisDimCovers(lo: real, hi: real, spacing: real)
    requires spacing > 0.0 && lo <= hi
    ensures AxisDim(lo, hi, spacing).Some?
    ensures (AxisDim(lo, hi, spacing).value - 1) as real * spacing >= hi - lo
    ensures AxisDim(lo, hi, spacing).value == 1
            || (AxisDim(lo, hi, spacing).value - 2) as real * spacing < hi - lo
  {
    var q := (hi - lo) / spacing;
    assert q * spacing == hi - lo;
    var c := Ceil(q);
    MulMonotone(q, c as real, spacing);
    assert 0.0 <= q by {
      if q < 0.0 {
        MulStrict(q, 0.0, spacing);
      }
    }
    assert c >= 0;
    assert AxisDim(lo, hi, spacing).value == c + 1;
    if c >= 1 {
      MulStrict((c - 1) as real, q, spacing);
    }
  }

  /** A degenerate or inverted extent (VTK reports inverted bounds for an empty
      mesh) collapses to a single sample for any positive spacing. */
  lemma AxisDimDegenerate(lo: real, hi: real, spacing: real)
    requires spacing > 0.0 && hi <= lo
    ensures AxisDim(lo, hi, spacing) == Some(1)
  {
    var q := (hi - lo) / spacing;
    assert q * spacing == hi - lo;
    if q > 0.0 {
      MulStrict(0.0, q, spacing);
    }
    assert Ceil(q) <= 0;
  }

  /** The three grid dimensions for VTK bounds `[xmin, xmax, ymin, ymax, zmin,
      zmax]` and per-axis spacings; `None` when some spacing is zero. */
  function GridDims(bounds: seq<real>, spacing: seq<real>): (r: Option<seq<int>>)
    requires |bounds| == 6 && |spacing| == 3
    ensures r.Some? <==> forall i :: 0 <= i < 3 ==> spacing[i] != 0.0
    ensures r.Some? ==> (|r.value| == 3 &&
              forall i :: 0 <= i < 3 ==> Some(r.value[i]) == AxisDim(bounds[2 * i], bounds[2 * i + 1], spacing[i]))
  {
    var x := AxisDim(bounds[0], bounds[1], spacing[0]);
    var y := AxisDim(bounds[2], bounds[3], spacing[1]);
    var z := AxisDim(bounds[4], bounds[5], spacing[2]);
    if x.None? || y.None? || z.None? then None
    else Some([x.value, y.value, z.value])
  }
}

/**
 * Cell selection by a per-cell test, as the program does it twice: the list
 * of large cell ids (`largeCellIds.InsertNextId`) and the deletion of cells
 * followed by `RemoveDeletedCells`, which keeps the surviving cells in order
 * and leaves the point array alone.
 */
module Selection {
  import opened Geometry

  predicate Increasing(s: seq<nat>) {
    forall i, j :: 0 <= i < j < |s| ==> s[i] < s[j]
  }

  /** The ids `from ..` of the cells that pass `keep`, in cell order. */
  function SelectFrom(cells: seq<Face>, keep: Face -> bool, from: nat): (ids: seq<nat>)
    requires from <= |cells|
    decreases |cells| - from
    ensures Increasing(ids)
    ensures forall j :: 0 <= j < |ids| ==> from <= ids[j] < |cells|
    ensures forall c :: from <= c < |cells| ==> (c in ids <==> keep(cells[c]))
  {
    if from == |cells| then []
    else (if keep(cells[from]) then [from] else []) + SelectFrom(cells, keep, from + 1)
  }

  /** The cells that pass `keep`, in their original order. */
  function Filter(cells: seq<Face>, keep: Face -> bool): (r: seq<Face>)
    ensures |r| <= |cells|
    ensures forall f :: f in r ==> f in cells && keep(f)
    ensures forall c :: 0 <= c < |cells| && keep(cells[c]) ==> cells[c] in r
  {
    if cells == [] then []
    else (if keep(cells[0]) then [cells[0]] else []) + Filter(cells[1..], keep)
  }

  /** Filtering commutes with concatenation: survivors keep their relative
      order, and each cell's fate depends on that cell alone. */
  lemma {:induction false} FilterAppend(a: seq<Face>, b: seq<Face>, keep: Face -> bool)
    ensures Filter(a + b, keep) == Filter(a, keep) + Filter(b, keep)
  {
    if a == [] {
      assert a + b == b;
    } else {
      assert (a + b)[1..] == a[1..] + b;
      FilterAppend(a[1..], b, keep);
    }
  }

  /** The cells named by `ids`, in the order of `ids`. */
  function Pick(cells: seq<Face>, ids: seq<nat>): (r: seq<Face>)
    requires forall j :: 0 <= j < |ids| ==> ids[j] < |cells|
    ensures |r| == |ids|
  {
    seq(|ids|, j requires 0 <= j < |ids| => cells[ids[j]])
  }

  /** Deleting the unselected cells leaves exactly the cells whose ids are
      selected: the two selections in the program agree. */
  lemma {:induction false} FilterIsPickOfSelect(cells: seq<Face>, keep: Face -> bool, from: nat)
    requires from <= |cells|
    decreases |cells| - from
    ensures Filter(cells[from..], keep) == Pick(cells, SelectFrom(cells, keep, from))
  {
    if from < |cells| {
      var tail := cells[from..];
      assert tail[0] == cells[from] && tail[1..] == cells[from + 1..];
      var rest := SelectFrom(cells, keep, from + 1);
      FilterIsPickOfSelect(cells, keep, from + 1);
      assert Filter(tail, keep) == (if keep(cells[from]) then [cells[from]] else []) + Filter(cells[from + 1..], keep);
      if keep(cells[from]) {
        assert SelectFrom(cells, keep, from) == [from] + rest;
        PickCons(cells, from, rest);
      }
    } else {
      assert cells[from..] == [];
    }
  }

  lemma PickCons(cells: seq<Face>, x: nat, rest: seq<nat>)
    requires x < |cells| && forall j :: 0 <= j < |rest| ==> rest[j] < |cells|
    ensures Pick(cells, [x] + rest) == [cells[x]] + Pick(cells, rest)
  {
    var lhs, rhs := Pick(cells, [x] + rest), [cells[x]] + Pick(cells, rest);
    forall j | 0 <= j < |lhs| ensures lhs[j] == rhs[j] {
      if j > 0 {
        assert rhs[j] == Pick(cells, rest)[j - 1];
      }
    }
  }

  /** A filtered mesh references only points the original references. */
  lemma FilterKeepsValid(m: Mesh, keep: Face -> bool)
    requires Valid(m)
    ensures Valid(Mesh(m.points, Filter(m.faces, keep)))
  {
    var r := Filter(m.faces, keep);
    forall c | 0 <= c < |r|
      ensures IndexedBelow(r[c], |m.points|)
    {
      assert r[c] in r;
    }
  }
}

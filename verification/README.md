# SRS filter: a Dafny model of `SRSFilterLogic.ApplySRSFilter`

The Shrinkwrap-Raycast-Shrinkwrap filter of the SRSFilter 3D Slicer extension
turns a segment into an even surface. It runs these stages in a fixed order:

1. Shrinkwrap a sphere onto the segment, remeshing between iterations.
2. Raycast into fracture gaps from the vertices near long-edged faces.
3. Shrinkwrap again by remeshing and relaxation.
4. Remove caps: faces too far from the segment.
5. Solidify the open surface into a shell.

The `filterMode` option chooses the stage after which the run hands its mesh
to the scene and returns. The `outputType` option chooses whether the mesh
becomes a model node or replaces the segment. A cancellation flag is tested
between steps.

This project models the discrete part of that function:

- the control flow;
- the option defaults;
- the iteration schedules;
- the remesh grid size;
- the per-vertex shrinkwrap move;
- the raycast bookkeeping (large cells, hit records, neighbour corroboration);
- the cap filter;
- the index structure of the solidified shell.

VTK's geometric services are function parameters of the model:

- closest point;
- vector normalisation;
- ray intersection;
- implicit signed distance;
- the offset direction;
- point matching.

Lengths are compared through squared distances. `Geometry.NormComparisons`
proves that this is exact.

Modules, one per file:

| module | file | what it models |
|---|---|---|
| `Wrappers` | wrappers.dfy | `Option` and `Result` |
| `Geometry` | geometry.dfy | points, meshes, squared-distance comparisons |
| `Options` | options.dfy | defaults, `options.update(kwargs)`, the mode and output strings, `int()` |
| `Schedule` | schedule.dfy | the two shrinkwrap loops as step sequences |
| `Pipeline` | pipeline.dfy | stage order, cancellation tests, terminal dispatch, return values |
| `Remesh` | remesh.dfy | the voxel grid dimensions of `remeshPolydata` |
| `Shrinkwrap` | shrinkwrap.dfy | the move of each vertex in the first shrinkwrap |
| `Selection` | selection.dfy | selecting and deleting cells by a test, in order |
| `Raycast` | raycast.dfy | large cells, hit records, the acceptance loop |
| `Caps` | caps.dfy | cap removal |
| `Solidify` | solidify.dfy | the doubled, stitched shell |

### How the run is modelled

A run is a program of instructions interpreted by `Pipeline.Exec`. There are
three kinds of instruction:

- `Guarded(step)` tests the cancellation flag, then performs a mesh step.
- `Unguarded(step)` performs a step without a test. This is the final
  smoothing after the second shrinkwrap.
- `Dispatch(stage)` is the terminal test that closes each stage.

The flag is an input sequence of polls. The j-th test of the flag sees
`polls[j]`, and a test past the end sees `false`. An outcome records:

- the boolean the run returns;
- what was stored, and where;
- the steps that ran;
- whether the run stopped on the flag.

## Model

All source paths are under `SRSFilter/SegmentEditorSRSFilterLib/`.

| member | source | states |
|---|---|---|
| Geometry.NormComparisons | SRSFilter/SegmentEditorSRSFilterLib/SegmentEditorEffect.py:543-546 | comparing a squared length with a bound decides exactly `norm > bound` and `norm < bound`, for bounds of either sign |
| Options.ParseMode | SRSFilter/SegmentEditorSRSFilterLib/SegmentEditorEffect.py:994-998 | a decoded mode names exactly the string it came from; a string equal to no stage name decodes to "unknown" |
| Options.ParseOutput | SRSFilter/SegmentEditorSRSFilterLib/SegmentEditorEffect.py:991-992 | the output is a model exactly for "MODEL" and a segmentation exactly for "SEGMENTATION" |
| Options.ParseModeName | SRSFilter/SegmentEditorSRSFilterLib/SegmentEditorEffect.py:994-998 | every stage's own name decodes back to that stage |
| Options.DefaultOptions | SRSFilter/SegmentEditorSRSFilterLib/SegmentEditorEffect.py:335-353 | with no keyword arguments the merged options are the defaults: SOLIDIFIED, MODEL, 3 and 5 iterations |
| Options.MergeSteering | SRSFilter/SegmentEditorSRSFilterLib/SegmentEditorEffect.py:335-353 | a passed `filterMode` / `outputType` overrides the default, and an absent one leaves SOLIDIFIED / MODEL |
| Options.Trunc | SRSFilter/SegmentEditorSRSFilterLib/SegmentEditorEffect.py:522 | `int()` truncates toward zero: the result is the integer nearest zero within one unit of `x` |
| Schedule.FirstPassCounts | SRSFilter/SegmentEditorSRSFilterLib/SegmentEditorEffect.py:522-563 | the first pass with N iterations shrinks max(N,0) times, remeshes max(N-1,0) times, and runs nothing else |
| Schedule.FirstPassAlternates | SRSFilter/SegmentEditorSRSFilterLib/SegmentEditorEffect.py:522-563 | the first pass alternates shrink/remesh starting with a shrink, has 2N-1 steps, and ends on a shrink, so no remesh follows the last shrink |
| Schedule.SecondPassCounts | SRSFilter/SegmentEditorSRSFilterLib/SegmentEditorEffect.py:750-772 | the second pass with M iterations remeshes max(M+1,0) times, relaxes max(M,0) times, and runs nothing else |
| Schedule.SecondPassAlternates | SRSFilter/SegmentEditorSRSFilterLib/SegmentEditorEffect.py:750-772 | the second pass alternates remesh/relax over 2M+1 steps, starting and ending on a remesh, and is empty for negative M |
| Pipeline.Exec | SRSFilter/SegmentEditorSRSFilterLib/SegmentEditorEffect.py:522-972 | a run only adds to the step trace; it stores a mesh only when it returns True, is not cancelled, and the stored stage is the requested mode; a cancelled run stores nothing |
| Pipeline.StopsAfterRequestedStage | SRSFilter/SegmentEditorSRSFilterLib/SegmentEditorEffect.py:565-575 | an uncancelled run whose mode names stage t runs exactly the steps through t and then stops with t's terminal outcome; the same test closes the stages at 734-744, 776-786, 819-829 and 959-969 |
| Pipeline.UnknownModeRunsEverything | SRSFilter/SegmentEditorSRSFilterLib/SegmentEditorEffect.py:959-972 | a mode naming no stage runs every step of every stage, stores nothing, and returns False |
| Pipeline.RunCancellation | SRSFilter/SegmentEditorSRSFilterLib/SegmentEditorEffect.py:525-527 | the steps of a cancelled run are a prefix of the uncancelled run's steps, and nothing is stored; a run that sees no set flag equals the run without polls; a cancelled run that returns True stopped inside the store, after all the work of a run that would have stored |
| Pipeline.SeenFlagCancels | SRSFilter/SegmentEditorSRSFilterLib/SegmentEditorEffect.py:355-376 | a run is cancelled exactly when one of the flag tests it reaches sees the flag set: one test before each guarded step, and one inside the store of a matching terminal test that stores |
| Pipeline.RunSeenFlagCancels | SRSFilter/SegmentEditorSRSFilterLib/SegmentEditorEffect.py:522-834 | a whole run stops on the flag exactly when one of its flag tests (lines 525, 559, 580, 630, 752, 763, 791, 834, and the store at 356/374) sees it set, and then stores nothing |
| Pipeline.CancelledAtStart | SRSFilter/SegmentEditorSRSFilterLib/SegmentEditorEffect.py:522-527 | a flag set at the first test, with at least one first-pass iteration, ends the run at once with False, no steps and no output |
| Pipeline.OpsThroughStages | SRSFilter/SegmentEditorSRSFilterLib/SegmentEditorEffect.py:516-957 | the steps through each stage are: the first pass; then subdivide and refine; then the second pass and the final smoothing; then cap removal; then solidification |
| Pipeline.SolidifiedRunCounts | SRSFilter/SegmentEditorSRSFilterLib/SegmentEditorEffect.py:959-969 | an uncancelled SOLIDIFIED run with a valid output returns True, stores the solid, and shrinks max(N,0) times, remeshes max(N-1,0) + max(M+1,0) times, relaxes max(M,0) times, and subdivides and solidifies once, for the truncated counts N and M |
| Pipeline.DefaultRun | SRSFilter/SegmentEditorSRSFilterLib/SegmentEditorEffect.py:335-353 | with the defaults, a run stores a solidified model, returns True, shrinks 3 times, remeshes 2 + 6 times and relaxes 5 times |
| Remesh.AxisDim | SRSFilter/SegmentEditorSRSFilterLib/SegmentEditorEffect.py:409-412 | the axis size fails exactly on a zero spacing (the division raises) and is otherwise at least 1 |
| Remesh.AxisDimCovers | SRSFilter/SegmentEditorSRSFilterLib/SegmentEditorEffect.py:409-412 | for a positive spacing and a non-empty extent, dim-1 steps cover the extent and dim-2 steps would not (unless dim is 1) |
| Remesh.AxisDimDegenerate | SRSFilter/SegmentEditorSRSFilterLib/SegmentEditorEffect.py:409-412 | an empty or inverted extent gives exactly one sample |
| Remesh.GridDims | SRSFilter/SegmentEditorSRSFilterLib/SegmentEditorEffect.py:400-413 | the three dimensions exist exactly when no spacing is zero, and each is the axis size of its pair of bounds |
| Shrinkwrap.Pass | SRSFilter/SegmentEditorSRSFilterLib/SegmentEditorEffect.py:531-553 | a pass moves each vertex by its own closest point only, keeps the point count, and leaves the faces alone |
| Shrinkwrap.NoOffsetSnaps | SRSFilter/SegmentEditorSRSFilterLib/SegmentEditorEffect.py:543-551 | without a positive offset every vertex lands on its closest surface point |
| Shrinkwrap.NoOffsetIdempotent | SRSFilter/SegmentEditorSRSFilterLib/SegmentEditorEffect.py:543-551 | when closest-point is a projection, a second pass without offset changes nothing |
| Shrinkwrap.OffsetDistance | SRSFilter/SegmentEditorSRSFilterLib/SegmentEditorEffect.py:543-551 | with a positive offset along a unit direction, a vertex farther than 0.01 ends exactly `offset` from its closest point, and a nearer one snaps onto it |
| Shrinkwrap.OffsetTowardVertex | SRSFilter/SegmentEditorSRSFilterLib/SegmentEditorEffect.py:543-547 | when `unit` is a positive multiple s of the displacement, an offset vertex lands at c + offset*s*(p - c): from the closest point back toward the vertex, never past the surface |
| Selection.SelectFrom | SRSFilter/SegmentEditorSRSFilterLib/SegmentEditorEffect.py:587-601 | the selected cell ids are increasing and in range, and contain a cell exactly when the cell passes the test |
| Selection.FilterIsPickOfSelect | SRSFilter/SegmentEditorSRSFilterLib/SegmentEditorEffect.py:605-613 | deleting the unselected cells of a copy leaves exactly the selected cells, in id order |
| Selection.FilterAppend | SRSFilter/SegmentEditorSRSFilterLib/SegmentEditorEffect.py:609-613 | deletion keeps relative order: filtering a concatenation is the concatenation of the filtered parts |
| Raycast.LargeIffLongEdge | SRSFilter/SegmentEditorSRSFilterLib/SegmentEditorEffect.py:591-601 | a cell is large exactly when some edge between consecutive vertices is longer than the search length |
| Raycast.LongestEdgeIsMax | SRSFilter/SegmentEditorSRSFilterLib/SegmentEditorEffect.py:595-601 | the measured maximum bounds every consecutive edge and is attained by one |
| Raycast.ClosingEdgeIgnored | SRSFilter/SegmentEditorSRSFilterLib/SegmentEditorEffect.py:595-598 | whether a triangle is large depends only on its two consecutive edges, never on the closing edge |
| Raycast.LargeCellIds | SRSFilter/SegmentEditorSRSFilterLib/SegmentEditorEffect.py:586-601 | detection fails (max of an empty list) exactly when some cell has fewer than two points; otherwise the ids are increasing and contain exactly the cells with a long edge |
| Raycast.LargeCellMesh | SRSFilter/SegmentEditorSRSFilterLib/SegmentEditorEffect.py:605-613 | the large-cell copy has the same points, is a valid mesh, and holds exactly the large cells in order |
| Raycast.Visit | SRSFilter/SegmentEditorSRSFilterLib/SegmentEditorEffect.py:673-704 | a visit records vertex p and no other; a vertex not near a large cell gets a miss, and a miss already recorded stays a miss |
| Raycast.BuildRecords | SRSFilter/SegmentEditorSRSFilterLib/SegmentEditorEffect.py:664-704 | the loop records exactly the triangle vertices; a record is a hit exactly when the vertex is near a large cell and its ray returns a non-zero point, and it holds that point and its distance |
| Raycast.Refine | SRSFilter/SegmentEditorSRSFilterLib/SegmentEditorEffect.py:706-732 | the loop fails (KeyError) exactly when some vertex has no record; otherwise a vertex moves to its hit point exactly when the hit is longer than the minimum and a vertex sharing a cell has a hit within the maximal hit distance, and every other vertex stays |
| Raycast.Raycast | SRSFilter/SegmentEditorSRSFilterLib/SegmentEditorEffect.py:634-732 | without large cells or without a positive maximal ray length the mesh is unchanged; otherwise the faces stay and each vertex moves as the acceptance rule over the records decides |
| Raycast.RaycastStage | SRSFilter/SegmentEditorSRSFilterLib/SegmentEditorEffect.py:585-732 | a cell without an edge in the mesh before subdivision raises; without a long edge there, or without a positive maximal ray length, the result is the subdivided mesh; otherwise the stage raises exactly when a vertex of the subdivided mesh is in no triangle, and else the subdivided mesh is refined against the distance to the large-cell copy |
| Caps.RemoveCaps | SRSFilter/SegmentEditorSRSFilterLib/SegmentEditorEffect.py:805-817 | the point array is unchanged and the mesh stays valid; a face survives exactly when every vertex has absolute signed distance at most `maxModelDistance`; the survivors are the selected cells, each once, in order, so there are at most as many as before |
| Caps.RemoveCapsKeepsOrder | SRSFilter/SegmentEditorSRSFilterLib/SegmentEditorEffect.py:805-815 | faces are kept or dropped one by one, so survivors keep their relative order |
| Caps.RemovesExactlyCellsAt | SRSFilter/SegmentEditorSRSFilterLib/SegmentEditorEffect.py:805-815 | if one vertex is out of range and the rest are in range, exactly the faces touching that vertex are removed |
| Solidify.Solidify | SRSFilter/SegmentEditorSRSFilterLib/SegmentEditorEffect.py:865-947 | the shell has 2n points, and point n+i is point i offset along its direction; the faces are the originals, then their inner copies in cell order, then the stitching quads |
| Solidify.InnerFaceInverse | SRSFilter/SegmentEditorSRSFilterLib/SegmentEditorEffect.py:898-906 | reversing an inner face and removing the +n shift gives back the original face |
| Solidify.InnerFaceReversesEdges | SRSFilter/SegmentEditorSRSFilterLib/SegmentEditorEffect.py:898-906 | every directed edge a -> b of a face appears as b+n -> a+n in its inner copy |
| Solidify.StitchQuads | SRSFilter/SegmentEditorSRSFilterLib/SegmentEditorEffect.py:934-947 | each quad comes from a boundary edge with two points and both end points matched, and every such edge yields its quad; edges with an unmatched end are skipped |
| Solidify.StitchAppend | SRSFilter/SegmentEditorSRSFilterLib/SegmentEditorEffect.py:934-947 | quads appear in the order of their boundary edges |
| Solidify.StitchOrientation | SRSFilter/SegmentEditorSRSFilterLib/SegmentEditorEffect.py:942-947 | the quad `[m1, m0, m0+n, m1+n]` runs the outer edge as m1 -> m0 and the inner edge as m0+n -> m1+n, opposite to the face and to the inner face that share them |
| Solidify.InnerPointDistance | SRSFilter/SegmentEditorSRSFilterLib/SegmentEditorEffect.py:893 | an inner point lies thickness times the direction's length from its original point |
| Solidify.SolidifyValid | SRSFilter/SegmentEditorSRSFilterLib/SegmentEditorEffect.py:865-947 | if every matched id is an original point, every index of the shell is below 2n |

### Where the model follows the code rather than the documented behaviour

The model does what the code does in these places:

- **NONMANIFOLD with SEGMENTATION.** The combination is not rejected up front.
  The run performs every step through cap removal. At the terminal test it
  only logs an error, stores nothing, and returns True (lines 819-829).
- **A flag seen inside the store.** `polydataToModel` and `polydataToSegment`
  test the flag again and return False without storing (lines 356-358 and
  374-376). The caller ignores that value, so the run still returns True.
  `Pipeline.RunSeenFlagCancels` counts this test among the run's flag tests,
  and `Pipeline.RunCancellation` states that such a run ran all the work of
  a run that would have stored.
- **A negative or fractional iteration count** is truncated toward zero by
  `int()`. The first pass is skipped when `int(N) <= 0`. The second pass runs
  `range(int(M) + 1)`: it remeshes once when `int(M) == 0` (so also for
  -1 < M < 0), and it is skipped only when `int(M) <= -1`.

## Left out

- The Qt/CTK user interface (lines 9-290), logging, progress messages and
  `cleanup()`: no effect on the result.
- Scene persistence: `polydataToModel`, `polydataToSegment`, and the refresh of
  the closed-surface representation (lines 479-490). The model records only
  whether and where a mesh is stored.
- The internals of the VTK filters are abstract. This covers:
  - closest point and ray intersection of `vtkCellLocator`;
  - implicit distance;
  - rasterisation and marching cubes in `remeshPolydata`;
  - windowed-sinc and Laplacian smoothing;
  - adaptive subdivision;
  - `vtkCleanPolyData`;
  - normal computation;
  - boundary-edge extraction;
  - point matching;
  - the final triangle filter.

  The steps that use them appear in the pipeline as named steps. Where they
  feed a modelled computation they appear as function parameters.
- Floating point is not modelled. Arithmetic is exact over the reals.
- The initial bounding sphere (lines 493-514) is not modelled at all. Its
  radius is the largest extent of the input bounds and its resolution is
  `int(radius/10)`, both computed in Python at lines 494-503; its
  tessellation is VTK's sphere source.
- Pipeline.Exec: every step is total here. In the program a step can raise:
  `max()` of an empty edge list (line 600, `Raycast.LargeCellIds`), a missing
  hit record (lines 710 and 727, `Raycast.Refine`), a zero remesh spacing
  (line 410, `Remesh.AxisDim`), a vertex without cells in solidification
  (line 891). Such an exception ends `ApplySRSFilter` with neither True nor
  False, so the True of `Pipeline.StopsAfterRequestedStage`,
  `Pipeline.SolidifiedRunCounts` and `Pipeline.DefaultRun` holds only for runs
  in which no step raises.
- The `SetExtent(0, dim)` call gives the image one more sample per axis than
  `SetDimensions(dim)` (line 415). The model keeps only `dim`.
- Solidify.Solidify: the offset direction of each vertex is the parameter
  `dir`. This stands for the normalised sum of its flipped cell normals,
  scaled by the projection on the first normal (lines 870-893). That
  computation, its division by a possibly zero norm, and the IndexError for a
  vertex without cells are not modelled.
- Raycast.BuildRecords: a cell counts as a triangle (VTK cell type 5) when it
  has exactly three point ids. The mesh model has no cell types, and after
  subdivision the cells are triangles.
- Raycast.Raycast: the ray itself is the parameter `cast`. It stands for the
  vertex normal flipped and scaled by `raycastMaxLength` and intersected with
  the input surface. The model takes its returned point as given. The
  normals filter at lines 650-659 replaces the mesh with its output, and its
  default consistent-ordering pass may reverse cells wound against their
  neighbours; the model assumes it leaves the cells as they are, so its
  `faces` are those of the input. Which vertices move does not depend on
  this, since the records and neighbourhoods use only face membership.
- Shrinkwrap.Move: `unit` stands for `vector / vectorLength`. The distance
  result assumes it returns a unit vector.
- Solidify.Solidify and Caps.RemoveCaps assume every cell of the mesh is a
  polygon. Vertex and line cells, which VTK keeps in separate arrays, are not
  represented.
- The connection from the pipeline's named steps to the mesh functions is not
  modelled. `Pipeline` models which steps run and in what order. The other
  modules model what the steps with discrete content compute.
- Keyword arguments of a wrong type cannot be expressed. `Options.Overrides`
  is typed, one optional value per option key.
- The cancellation flag as shared mutable state is modelled as a sequence of
  polls.

/**
 * The keyword options of `ApplySRSFilter`: the built-in defaults, the merge
 * with the caller's keyword arguments, and the decoding of the two string
 * options that steer the pipeline.
 */
module Options {
  import opened Wrappers

  /** The stages after which a run may stop and hand its mesh over. */
  datatype Terminal = ConvexHull | Raycasts | DeepHull | NonManifold | Solidified

  /** A decoded `filterMode`: one of the five stage names, or anything else. */
  datatype FilterMode = StopAfter(stage: Terminal) | UnknownMode

  /** A decoded `outputType`. */
  datatype OutputType = ToModel | ToSegmentation | UnknownOutput

  /** The string constant the program uses for each stage. */
  function ModeName(t: Terminal): string {
    match t
    case ConvexHull => "CONVEXHULL"
    case Raycasts => "RAYCASTS"
    case DeepHull => "DEEPHULL"
    case NonManifold => "NONMANIFOLD"
    case Solidified => "SOLIDIFIED"
  }

  const OutputModel := "MODEL"
  const OutputSegmentation := "SEGMENTATION"

  /** The chain of `==` tests the program makes on `filterMode`. */
  function ParseMode(s: string): (m: FilterMode)
    ensures m.StopAfter? ==> ModeName(m.stage) == s
    ensures m.UnknownMode? ==> forall t :: ModeName(t) != s
  {
    if s == ModeName(ConvexHull) then StopAfter(ConvexHull)
    else if s == ModeName(Raycasts) then StopAfter(Raycasts)
    else if s == ModeName(DeepHull) then StopAfter(DeepHull)
    else if s == ModeName(NonManifold) then StopAfter(NonManifold)
    else if s == ModeName(Solidified) then StopAfter(Solidified)
    else UnknownMode
  }

  /** The `==` tests the program makes on `outputType`. */
  function ParseOutput(s: string): (o: OutputType)
    ensures o.ToModel? <==> s == OutputModel
    ensures o.ToSegmentation? <==> s == OutputSegmentation
  {
    if s == OutputSegmentation then ToSegmentation
    else if s == OutputModel then ToModel
    else UnknownOutput
  }

  /** Every stage name decodes to its own stage. */
  lemma ParseModeName(t: Terminal)
    ensures ParseMode(ModeName(t)) == StopAfter(t)
  {
  }

  /** The merged option dictionary, one field per option key. Numbers are
      real; the iteration counts are truncated where they are read. */
  datatype Config = Config(
    outputType: string,
    filterMode: string,
    offsetFirstShrinkwrap: real,
    spacingFirstRemesh: real,
    spacingSecondRemesh: real,
    iterationsFirstShrinkwrap: real,
    iterationsSecondShrinkwrap: real,
    raycastSearchEdgeLength: real,
    raycastOutputEdgeLength: real,
    raycastMaxHitDistance: real,
    raycastMaxLength: real,
    raycastMinLength: real,
    maxModelDistance: real,
    solidificationThickness: real,
    smoothingFactor: real)

  /** The defaults `ApplySRSFilter` starts from. */
  const Defaults := Config(
    OutputModel, "SOLIDIFIED",
    15.0, 10.0, 1.0, 3.0, 5.0,
    20.0, 2.0, 2.0, 100.0, 0.0,
    0.7, 1.5, 0.2)

  /** The keyword arguments a caller passed; `None` for an absent key. */
  datatype Overrides = Overrides(
    outputType: Option<string>,
    filterMode: Option<string>,
    offsetFirstShrinkwrap: Option<real>,
    spacingFirstRemesh: Option<real>,
    spacingSecondRemesh: Option<real>,
    iterationsFirstShrinkwrap: Option<real>,
    iterationsSecondShrinkwrap: Option<real>,
    raycastSearchEdgeLength: Option<real>,
    raycastOutputEdgeLength: Option<real>,
    raycastMaxHitDistance: Option<real>,
    raycastMaxLength: Option<real>,
    raycastMinLength: Option<real>,
    maxModelDistance: Option<real>,
    solidificationThickness: Option<real>,
    smoothingFactor: Option<real>)

  const NoOverrides := Overrides(None, None, None, None, None, None, None, None,
                                 None, None, None, None, None, None, None)

  /** `options.update(kwargs)`: a passed key replaces the default. */
  function Merge(kw: Overrides): Config {
    Config(
      kw.outputType.GetOr(Defaults.outputType),
      kw.filterMode.GetOr(Defaults.filterMode),
      kw.offsetFirstShrinkwrap.GetOr(Defaults.offsetFirstShrinkwrap),
      kw.spacingFirstRemesh.GetOr(Defaults.spacingFirstRemesh),
      kw.spacingSecondRemesh.GetOr(Defaults.spacingSecondRemesh),
      kw.iterationsFirstShrinkwrap.GetOr(Defaults.iterationsFirstShrinkwrap),
      kw.iterationsSecondShrinkwrap.GetOr(Defaults.iterationsSecondShrinkwrap),
      kw.raycastSearchEdgeLength.GetOr(Defaults.raycastSearchEdgeLength),
      kw.raycastOutputEdgeLength.GetOr(Defaults.raycastOutputEdgeLength),
      kw.raycastMaxHitDistance.GetOr(Defaults.raycastMaxHitDistance),
      kw.raycastMaxLength.GetOr(Defaults.raycastMaxLength),
      kw.raycastMinLength.GetOr(Defaults.raycastMinLength),
      kw.maxModelDistance.GetOr(Defaults.maxModelDistance),
      kw.solidificationThickness.GetOr(Defaults.solidificationThickness),
      kw.smoothingFactor.GetOr(Defaults.smoothingFactor))
  }

  /** Without keyword arguments a run solidifies and stores a model, with
      three first-pass and five second-pass iterations. */
  lemma DefaultOptions()
    ensures Merge(NoOverrides) == Defaults
    ensures ParseMode(Merge(NoOverrides).filterMode) == StopAfter(Solidified)
    ensures ParseOutput(Merge(NoOverrides).outputType) == ToModel
    ensures Trunc(Merge(NoOverrides).iterationsFirstShrinkwrap) == 3
    ensures Trunc(Merge(NoOverrides).iterationsSecondShrinkwrap) == 5
  {
  }

  /** A key that is passed wins over its default; the others keep theirs. */
  lemma MergeSteering(kw: Overrides)
    ensures kw.filterMode.Some? ==> Merge(kw).filterMode == kw.filterMode.value
    ensures kw.filterMode.None? ==> Merge(kw).filterMode == "SOLIDIFIED"
    ensures kw.outputType.Some? ==> Merge(kw).outputType == kw.outputType.value
    ensures kw.outputType.None? ==> Merge(kw).outputType == OutputModel
  {
  }

  /** Python's `int()` on a float: truncation toward zero. */
  function Trunc(x: real): (r: int)
    ensures 0.0 <= x ==> 0 <= r && r as real <= x < r as real + 1.0
    ensures x < 0.0 ==> r <= 0 && r as real - 1.0 < x <= r as real
  {
    if x >= 0.0 then x.Floor else -((-x).Floor)
  }
}

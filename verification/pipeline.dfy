/**
 * The control flow of `ApplySRSFilter`: the fixed stage order, the
 * cancellation tests at stage and iteration boundaries, and the terminal test
 * after each stage that hands the mesh to the scene and returns.
 *
 * The five copies of the terminal test in the program are one `Dispatch`
 * instruction here, interpreted by `Exec`. The cancellation flag is read as a
 * sequence of polls: the j-th test of the flag during a run sees `polls[j]`,
 * and a test beyond the end of the sequence sees `false`.
 */
module Pipeline {
  import opened Wrappers
  import opened Options
  import opened Schedule

  /** Where a stopping run puts its mesh. */
  datatype Sink = ModelNode | SegmentSurface

  /** A mesh handed to the scene: where, and after which stage. */
  datatype Stored = Stored(sink: Sink, stage: Terminal)

  /** The boolean the run returns, what it stored, the mesh steps it ran, and
      whether it stopped on a set cancellation flag. */
  datatype Outcome = Outcome(result: bool, stored: Option<Stored>, trace: seq<Op>, cancelled: bool)

  function Rank(t: Terminal): nat {
    match t
    case ConvexHull => 0
    case Raycasts => 1
    case DeepHull => 2
    case NonManifold => 3
    case Solidified => 4
  }

  /** The work of stage `t`, before its terminal test. */
  function Body(t: Terminal, n1: int, n2: int): (p: seq<Instr>)
    ensures forall i :: 0 <= i < |p| ==> !p[i].Dispatch?
  {
    match t
    case ConvexHull => FirstPass(n1)
    case Raycasts => [Guarded(Subdivide), Guarded(Refine)]
    case DeepHull => SecondPass(n2) + [Unguarded(FinalSmooth)]
    case NonManifold => [Guarded(RemoveCaps)]
    case Solidified => [Guarded(Solidify)]
  }

  /** Stage `t` followed by its terminal test. */
  function Block(t: Terminal, n1: int, n2: int): seq<Instr> {
    Body(t, n1, n2) + [Dispatch(t)]
  }

  /** The program up to and including the terminal test of stage `t`. */
  function Through(t: Terminal, n1: int, n2: int): (p: seq<Instr>)
    decreases Rank(t)
    ensures forall i :: 0 <= i < |p| && p[i].Dispatch? ==> Rank(p[i].stage) <= Rank(t)
  {
    match t
    case ConvexHull => Block(ConvexHull, n1, n2)
    case Raycasts => Through(ConvexHull, n1, n2) + Block(Raycasts, n1, n2)
    case DeepHull => Through(Raycasts, n1, n2) + Block(DeepHull, n1, n2)
    case NonManifold => Through(DeepHull, n1, n2) + Block(NonManifold, n1, n2)
    case Solidified => Through(NonManifold, n1, n2) + Block(Solidified, n1, n2)
  }

  /** The whole run: five stages, each closed by its terminal test. */
  function Program(n1: int, n2: int): seq<Instr> {
    Through(Solidified, n1, n2)
  }

  /** The value the j-th test of the cancellation flag sees. */
  predicate Polled(polls: seq<bool>, j: nat) {
    j < |polls| && polls[j]
  }

  /** `polydataToModel` / `polydataToSegment`: they test the flag first and
      return without storing; their return value is ignored by the caller,
      which returns True either way. */
  function Deliver(sink: Sink, t: Terminal, polls: seq<bool>, k: nat, trace: seq<Op>): Outcome {
    if Polled(polls, k) then Outcome(true, None, trace, true)
    else Outcome(true, Some(Stored(sink, t)), trace, false)
  }

  /** Runs `prog` with the flag tests numbered from `k`, having already run
      `trace`. Falling off the end is the final "unknown filterMode" error. */
  function Exec(prog: seq<Instr>, mode: FilterMode, out: OutputType,
                polls: seq<bool>, k: nat, trace: seq<Op>): (r: Outcome)
    decreases |prog|
    ensures trace <= r.trace
    ensures r.stored.Some? ==> r.result && !r.cancelled && mode.StopAfter? && r.stored.value.stage == mode.stage
    ensures r.cancelled ==> r.stored.None?
  {
    if prog == [] then Outcome(false, None, trace, false)
    else match prog[0]
      case Guarded(op) =>
        if Polled(polls, k) then Outcome(false, None, trace, true)
        else Exec(prog[1..], mode, out, polls, k + 1, trace + [op])
      case Unguarded(op) =>
        Exec(prog[1..], mode, out, polls, k, trace + [op])
      case Dispatch(t) =>
        if mode != StopAfter(t) then Exec(prog[1..], mode, out, polls, k, trace)
        else match out
          case ToSegmentation =>
            if t == NonManifold then Outcome(true, None, trace, false)  // logged error only
            else Deliver(SegmentSurface, t, polls, k, trace)
          case ToModel => Deliver(ModelNode, t, polls, k, trace)
          case UnknownOutput => Outcome(false, None, trace, false)
  }

  /** `ApplySRSFilter` on merged options `cfg`. */
  function Run(cfg: Config, polls: seq<bool>): Outcome {
    Exec(Program(Trunc(cfg.iterationsFirstShrinkwrap), Trunc(cfg.iterationsSecondShrinkwrap)),
         ParseMode(cfg.filterMode), ParseOutput(cfg.outputType), polls, 0, [])
  }

  /** The outcome of a terminal test that matches the requested mode. */
  function Terminate(t: Terminal, out: OutputType, trace: seq<Op>): Outcome {
    match out
    case ToModel => Outcome(true, Some(Stored(ModelNode, t)), trace, false)
    case ToSegmentation =>
      if t == NonManifold then Outcome(true, None, trace, false)
      else Outcome(true, Some(Stored(SegmentSurface, t)), trace, false)
    case UnknownOutput => Outcome(false, None, trace, false)
  }

  /** Without cancellation, instructions whose terminal tests do not match the
      mode just add their steps to the trace. */
  lemma {:induction false} PassThrough(a: seq<Instr>, b: seq<Instr>, mode: FilterMode,
                                       out: OutputType, k: nat, trace: seq<Op>)
    requires forall i :: 0 <= i < |a| && a[i].Dispatch? ==> mode != StopAfter(a[i].stage)
    ensures Exec(a + b, mode, out, [], k, trace) == Exec(b, mode, out, [], k, trace + Ops(a))
    decreases |a|
  {
    if a == [] {
      assert a + b == b;
      assert trace + Ops(a) == trace;
    } else {
      assert (a + b)[1..] == a[1..] + b;
      assert Ops(a) == (if a[0].Dispatch? then [] else [a[0].op]) + Ops(a[1..]);
      match a[0]
      case Guarded(op) =>
        assert Exec(a + b, mode, out, [], k, trace) == Exec(a[1..] + b, mode, out, [], k + 1, trace + [op]);
        assert trace + Ops(a) == trace + [op] + Ops(a[1..]);
        PassThrough(a[1..], b, mode, out, k + 1, trace + [op]);
        ExecIgnoresCounter(b, mode, out, k + 1, k, trace + [op] + Ops(a[1..]));
      case Unguarded(op) =>
        assert trace + Ops(a) == trace + [op] + Ops(a[1..]);
        PassThrough(a[1..], b, mode, out, k, trace + [op]);
      case Dispatch(t) =>
        assert Exec(a + b, mode, out, [], k, trace) == Exec(a[1..] + b, mode, out, [], k, trace);
        assert Ops(a) == Ops(a[1..]);
        PassThrough(a[1..], b, mode, out, k, trace);
    }
  }

  /** Without polls the flag-test counter does not matter. */
  lemma {:induction false} ExecIgnoresCounter(p: seq<Instr>, mode: FilterMode, out: OutputType,
                                              k: nat, k': nat, trace: seq<Op>)
    ensures Exec(p, mode, out, [], k, trace) == Exec(p, mode, out, [], k', trace)
    decreases |p|
  {
    if p != [] {
      match p[0]
      case Guarded(op) => ExecIgnoresCounter(p[1..], mode, out, k + 1, k' + 1, trace + [op]);
      case Unguarded(op) => ExecIgnoresCounter(p[1..], mode, out, k, k', trace + [op]);
      case Dispatch(t) => ExecIgnoresCounter(p[1..], mode, out, k, k', trace);
    }
  }

  /** The program after the terminal test of stage `t`. */
  function After(t: Terminal, n1: int, n2: int): seq<Instr>
    decreases 4 - Rank(t)
  {
    match t
    case ConvexHull => Block(Raycasts, n1, n2) + After(Raycasts, n1, n2)
    case Raycasts => Block(DeepHull, n1, n2) + After(DeepHull, n1, n2)
    case DeepHull => Block(NonManifold, n1, n2) + After(NonManifold, n1, n2)
    case NonManifold => Block(Solidified, n1, n2)
    case Solidified => []
  }

  /** The program is cut into the part through `t`, split into everything before
      the terminal test of `t`, and the rest. */
  function Before(t: Terminal, n1: int, n2: int): (p: seq<Instr>)
    ensures forall i :: 0 <= i < |p| && p[i].Dispatch? ==> Rank(p[i].stage) < Rank(t)
  {
    match t
    case ConvexHull => Body(ConvexHull, n1, n2)
    case Raycasts => Through(ConvexHull, n1, n2) + Body(Raycasts, n1, n2)
    case DeepHull => Through(Raycasts, n1, n2) + Body(DeepHull, n1, n2)
    case NonManifold => Through(DeepHull, n1, n2) + Body(NonManifold, n1, n2)
    case Solidified => Through(NonManifold, n1, n2) + Body(Solidified, n1, n2)
  }

  lemma ProgramSplit(t: Terminal, n1: int, n2: int)
    ensures Through(t, n1, n2) == Before(t, n1, n2) + [Dispatch(t)]
    ensures Program(n1, n2) == Before(t, n1, n2) + [Dispatch(t)] + After(t, n1, n2)
  {
  }

  /** A run that is never cancelled and whose mode names stage `t` runs every
      step through stage `t`, then stops there: it stores the mesh as asked and
      returns True, except that an open NONMANIFOLD mesh is not stored as a
      segment (the run still returns True), and an unrecognised output type
      stores nothing and returns False. */
  lemma StopsAfterRequestedStage(cfg: Config, t: Terminal)
    requires ParseMode(cfg.filterMode) == StopAfter(t)
    ensures Run(cfg, []) == Terminate(t, ParseOutput(cfg.outputType),
              Ops(Through(t, Trunc(cfg.iterationsFirstShrinkwrap), Trunc(cfg.iterationsSecondShrinkwrap))))
  {
    ProgramStops(t, Trunc(cfg.iterationsFirstShrinkwrap), Trunc(cfg.iterationsSecondShrinkwrap),
                 ParseOutput(cfg.outputType));
  }

  lemma ProgramStops(t: Terminal, n1: int, n2: int, out: OutputType)
    ensures Exec(Program(n1, n2), StopAfter(t), out, [], 0, []) == Terminate(t, out, Ops(Through(t, n1, n2)))
  {
    var pre, rest := Before(t, n1, n2), [Dispatch(t)] + After(t, n1, n2);
    assert Program(n1, n2) == pre + rest by {
      ProgramSplit(t, n1, n2);
    }
    assert Ops(Through(t, n1, n2)) == Ops(pre) by {
      ProgramSplit(t, n1, n2);
      OpsAppend(pre, [Dispatch(t)]);
      assert Ops([Dispatch(t)]) == [];
    }
    StopAtDispatch(pre, t, After(t, n1, n2), out);
  }

  lemma StopAtDispatch(pre: seq<Instr>, t: Terminal, after: seq<Instr>, out: OutputType)
    requires forall i :: 0 <= i < |pre| && pre[i].Dispatch? ==> Rank(pre[i].stage) < Rank(t)
    ensures Exec(pre + ([Dispatch(t)] + after), StopAfter(t), out, [], 0, []) == Terminate(t, out, Ops(pre))
  {
    PassThrough(pre, [Dispatch(t)] + after, StopAfter(t), out, 0, []);
    assert [] + Ops(pre) == Ops(pre);
    ExecAtDispatch(t, after, out, Ops(pre));
  }

  /** The terminal test of the requested stage ends a run without polls. */
  lemma ExecAtDispatch(t: Terminal, rest: seq<Instr>, out: OutputType, trace: seq<Op>)
    ensures Exec([Dispatch(t)] + rest, StopAfter(t), out, [], 0, trace) == Terminate(t, out, trace)
  {
    var p := [Dispatch(t)] + rest;
    assert p[0] == Dispatch(t);
  }

  /** A filter mode that names no stage runs every stage, stores nothing and
      returns False. */
  lemma UnknownModeRunsEverything(cfg: Config)
    requires ParseMode(cfg.filterMode) == UnknownMode
    ensures Run(cfg, []) == Outcome(false, None,
              Ops(Program(Trunc(cfg.iterationsFirstShrinkwrap), Trunc(cfg.iterationsSecondShrinkwrap))), false)
  {
    var p := Program(Trunc(cfg.iterationsFirstShrinkwrap), Trunc(cfg.iterationsSecondShrinkwrap));
    assert p + [] == p;
    PassThrough(p, [], UnknownMode, ParseOutput(cfg.outputType), 0, []);
  }

  /** Cancellation only cuts a run short. A run that never sees the flag set
      behaves exactly as a run without polls; one that sees it stores nothing,
      has run a prefix of the uncancelled steps, and returns True only when the
      flag was seen by the store itself, after all the uncancelled work and
      where the uncancelled run would have stored and returned True. */
  lemma {:induction false} CancellationTruncates(p: seq<Instr>, mode: FilterMode, out: OutputType,
                                                 polls: seq<bool>, k: nat, k': nat, trace: seq<Op>)
    ensures var r, u := Exec(p, mode, out, polls, k, trace), Exec(p, mode, out, [], k', trace);
            && r.trace <= u.trace
            && (!r.cancelled ==> r == u)
            && (r.cancelled ==> r.stored.None?)
            && (r.cancelled && r.result ==> u.result && u.stored.Some? && r.trace == u.trace)
    decreases |p|
  {
    if p != [] {
      match p[0]
      case Guarded(op) =>
        CancellationTruncates(p[1..], mode, out, polls, k + 1, k' + 1, trace + [op]);
      case Unguarded(op) =>
        CancellationTruncates(p[1..], mode, out, polls, k, k', trace + [op]);
      case Dispatch(t) =>
        CancellationTruncates(p[1..], mode, out, polls, k, k', trace);
    }
  }

  /** How many times a run of `p` tests the flag when no test sees it set: one
      test before each guarded step, and one in the store of a matching
      terminal test that stores (the run ends at that terminal test). */
  function Tests(p: seq<Instr>, mode: FilterMode, out: OutputType): nat
    decreases |p|
  {
    if p == [] then 0
    else match p[0]
      case Guarded(_) => 1 + Tests(p[1..], mode, out)
      case Unguarded(_) => Tests(p[1..], mode, out)
      case Dispatch(t) =>
        if mode != StopAfter(t) then Tests(p[1..], mode, out)
        else if out == ToModel || (out == ToSegmentation && t != NonManifold) then 1
        else 0
  }

  /** A run is cancelled exactly when one of the flag tests it reaches sees the
      flag set: the tests numbered `k` up to `k + Tests(p, mode, out)`. */
  lemma {:induction false} SeenFlagCancels(p: seq<Instr>, mode: FilterMode, out: OutputType,
                                           polls: seq<bool>, k: nat, trace: seq<Op>)
    ensures Exec(p, mode, out, polls, k, trace).cancelled
            <==> exists j :: k <= j < k + Tests(p, mode, out) && Polled(polls, j)
    decreases |p|
  {
    if p != [] {
      match p[0]
      case Guarded(op) =>
        if !Polled(polls, k) {
          SeenFlagCancels(p[1..], mode, out, polls, k + 1, trace + [op]);
          if exists j :: k <= j < k + Tests(p, mode, out) && Polled(polls, j) {
            var j :| k <= j < k + Tests(p, mode, out) && Polled(polls, j);
            assert k + 1 <= j;
          }
        }
      case Unguarded(op) =>
        SeenFlagCancels(p[1..], mode, out, polls, k, trace + [op]);
      case Dispatch(t) =>
        if mode != StopAfter(t) {
          SeenFlagCancels(p[1..], mode, out, polls, k, trace);
        } else if out == ToModel || (out == ToSegmentation && t != NonManifold) {
          if Polled(polls, k) {
            assert k <= k < k + Tests(p, mode, out);
          }
        }
    }
  }

  /** The flag tests of a whole run. */
  function RunTests(cfg: Config): nat {
    Tests(Program(Trunc(cfg.iterationsFirstShrinkwrap), Trunc(cfg.iterationsSecondShrinkwrap)),
          ParseMode(cfg.filterMode), ParseOutput(cfg.outputType))
  }

  /** A whole run stops on the flag exactly when one of its flag tests, before
      a guarded step or in the store, sees the flag set; such a run stores
      nothing, and returns False unless the store saw it. */
  lemma RunSeenFlagCancels(cfg: Config, polls: seq<bool>)
    ensures Run(cfg, polls).cancelled <==> exists j :: 0 <= j < RunTests(cfg) && Polled(polls, j)
    ensures Run(cfg, polls).cancelled ==> Run(cfg, polls).stored.None?
  {
    SeenFlagCancels(Program(Trunc(cfg.iterationsFirstShrinkwrap), Trunc(cfg.iterationsSecondShrinkwrap)),
                    ParseMode(cfg.filterMode), ParseOutput(cfg.outputType), polls, 0, []);
  }

  /** The same for whole runs. */
  lemma RunCancellation(cfg: Config, polls: seq<bool>)
    ensures var r, u := Run(cfg, polls), Run(cfg, []);
            && r.trace <= u.trace
            && (!r.cancelled ==> r == u)
            && (r.cancelled ==> r.stored.None?)
            && (r.cancelled && r.result ==> u.result && u.stored.Some? && r.trace == u.trace)
  {
    CancellationTruncates(Program(Trunc(cfg.iterationsFirstShrinkwrap), Trunc(cfg.iterationsSecondShrinkwrap)),
                          ParseMode(cfg.filterMode), ParseOutput(cfg.outputType), polls, 0, 0, []);
  }

  /** A flag set before the first shrinkwrap ends the run at once with False. */
  lemma CancelledAtStart(cfg: Config, polls: seq<bool>)
    requires Trunc(cfg.iterationsFirstShrinkwrap) >= 1
    requires |polls| > 0 && polls[0]
    ensures Run(cfg, polls) == Outcome(false, None, [], true)
  {
  }

  /** The steps a run through stage `t` performs, stage by stage. */
  lemma OpsThroughStages(n1: int, n2: int)
    ensures Ops(Through(ConvexHull, n1, n2)) == Ops(FirstPass(n1))
    ensures Ops(Through(Raycasts, n1, n2)) == Ops(FirstPass(n1)) + [Subdivide, Refine]
    ensures Ops(Through(DeepHull, n1, n2))
            == Ops(FirstPass(n1)) + [Subdivide, Refine] + Ops(SecondPass(n2)) + [FinalSmooth]
    ensures Ops(Through(NonManifold, n1, n2))
            == Ops(FirstPass(n1)) + [Subdivide, Refine] + Ops(SecondPass(n2)) + [FinalSmooth, RemoveCaps]
    ensures Ops(Program(n1, n2))
            == Ops(FirstPass(n1)) + [Subdivide, Refine] + Ops(SecondPass(n2)) + [FinalSmooth, RemoveCaps, Solidify]
  {
    var f, s := FirstPass(n1), SecondPass(n2);
    OpsAppend(f, [Dispatch(ConvexHull)]);
    assert Ops([Dispatch(ConvexHull)]) == [];
    var r := [Guarded(Subdivide), Guarded(Refine), Dispatch(Raycasts)];
    assert Block(Raycasts, n1, n2) == r;
    assert Ops(r) == [Subdivide, Refine];
    OpsAppend(Through(ConvexHull, n1, n2), r);
    var d := [Unguarded(FinalSmooth), Dispatch(DeepHull)];
    assert Block(DeepHull, n1, n2) == s + d;
    assert Ops(d) == [FinalSmooth];
    OpsAppend(s, d);
    OpsAppend(Through(Raycasts, n1, n2), s + d);
    var c := [Guarded(RemoveCaps), Dispatch(NonManifold)];
    assert Block(NonManifold, n1, n2) == c;
    assert Ops(c) == [RemoveCaps];
    OpsAppend(Through(DeepHull, n1, n2), c);
    var z := [Guarded(Solidify), Dispatch(Solidified)];
    assert Block(Solidified, n1, n2) == z;
    assert Ops(z) == [Solidify];
    OpsAppend(Through(NonManifold, n1, n2), z);
  }

  /** An uncancelled SOLIDIFIED run with a valid output type runs every stage
      once, with the iteration counts of both shrinkwrap passes, and stores the
      solidified mesh. */
  lemma SolidifiedRunCounts(cfg: Config)
    requires ParseMode(cfg.filterMode) == StopAfter(Solidified)
    requires ParseOutput(cfg.outputType) != UnknownOutput
    ensures Run(cfg, []).result && Run(cfg, []).stored.Some?
    ensures Run(cfg, []).stored.value.stage == Solidified
    ensures Count(Run(cfg, []).trace, Shrinkwrap) == Max0(Trunc(cfg.iterationsFirstShrinkwrap))
    ensures Count(Run(cfg, []).trace, RemeshFirst) == Max0(Trunc(cfg.iterationsFirstShrinkwrap) - 1)
    ensures Count(Run(cfg, []).trace, RemeshSecond) == Max0(Trunc(cfg.iterationsSecondShrinkwrap) + 1)
    ensures Count(Run(cfg, []).trace, Relax) == Max0(Trunc(cfg.iterationsSecondShrinkwrap))
    ensures Count(Run(cfg, []).trace, Subdivide) == 1
    ensures Count(Run(cfg, []).trace, Solidify) == 1
  {
    var n1, n2 := Trunc(cfg.iterationsFirstShrinkwrap), Trunc(cfg.iterationsSecondShrinkwrap);
    var a, b := Ops(FirstPass(n1)), Ops(SecondPass(n2));
    var tr := a + [Subdivide, Refine] + b + [FinalSmooth, RemoveCaps, Solidify];
    var r := Run(cfg, []);
    assert r == Terminate(Solidified, ParseOutput(cfg.outputType), tr) by {
      StopsAfterRequestedStage(cfg, Solidified);
      OpsThroughStages(n1, n2);
    }
    assert r.result && r.stored.Some? && r.stored.value.stage == Solidified && r.trace == tr;
    TraceCounts(a, b, n1, n2);
  }

  lemma TraceCounts(a: seq<Op>, b: seq<Op>, n1: int, n2: int)
    requires a == Ops(FirstPass(n1)) && b == Ops(SecondPass(n2))
    ensures var tr := a + [Subdivide, Refine] + b + [FinalSmooth, RemoveCaps, Solidify];
            && Count(tr, Shrinkwrap) == Max0(n1)
            && Count(tr, RemeshFirst) == Max0(n1 - 1)
            && Count(tr, RemeshSecond) == Max0(n2 + 1)
            && Count(tr, Relax) == Max0(n2)
            && Count(tr, Subdivide) == 1
            && Count(tr, Solidify) == 1
  {
    var mid, tail := [Subdivide, Refine], [FinalSmooth, RemoveCaps, Solidify];
    FirstPassCounts(n1);
    SecondPassCounts(n2);
    CountPieces(a, mid, b, tail, Shrinkwrap);
    CountPieces(a, mid, b, tail, RemeshFirst);
    CountPieces(a, mid, b, tail, RemeshSecond);
    CountPieces(a, mid, b, tail, Relax);
    CountPieces(a, mid, b, tail, Subdivide);
    CountPieces(a, mid, b, tail, Solidify);
  }

  lemma CountPieces(a: seq<Op>, b: seq<Op>, c: seq<Op>, d: seq<Op>, o: Op)
    ensures Count(a + b + c + d, o) == Count(a, o) + Count(b, o) + Count(c, o) + Count(d, o)
  {
    CountAppend(a, b, o);
    CountAppend(a + b, c, o);
    CountAppend(a + b + c, d, o);
  }

  /** The default options run all five stages, with three shrinks, two first
      remeshes, six second remeshes and five relaxations, and store the
      solidified mesh as a model. */
  lemma DefaultRun(cfg: Config)
    requires cfg == Merge(NoOverrides)
    ensures Run(cfg, []).result
    ensures Run(cfg, []).stored == Some(Stored(ModelNode, Solidified))
    ensures Count(Run(cfg, []).trace, Shrinkwrap) == 3
    ensures Count(Run(cfg, []).trace, RemeshFirst) == 2
    ensures Count(Run(cfg, []).trace, RemeshSecond) == 6
    ensures Count(Run(cfg, []).trace, Relax) == 5
  {
    DefaultOptions();
    SolidifiedRunCounts(cfg);
    StopsAfterRequestedStage(cfg, Solidified);
  }
}

/**
 * The steps of a run and the iteration schedules of the two shrinkwrap
 * passes. A step whose `for`-loop body or stage opens with a test of the
 * cancellation flag is `Guarded`.
 */
module Schedule {
  import opened Options

  /** The mesh-changing steps of a run, in the vocabulary of the program. */
  datatype Op =
    | Shrinkwrap     // one closest-point pass of the first shrinkwrap
    | RemeshFirst    // remesh at `spacingFirstRemesh`
    | Subdivide      // large-face detection and adaptive subdivision
    | Refine         // raycast refinement of the subdivided mesh
    | RemeshSecond   // remesh at `spacingSecondRemesh`
    | Relax          // one smoothing pass toward the input surface
    | FinalSmooth    // the windowed-sinc smoothing after the second pass
    | RemoveCaps     // cap removal by signed distance
    | Solidify       // inner shell and rim stitching

  /** One instruction of the pipeline program. */
  datatype Instr =
    | Guarded(op: Op)            // test the cancellation flag, then run `op`
    | Unguarded(op: Op)          // run `op`
    | Dispatch(stage: Terminal)  // the terminal test for `stage`

  /** The mesh steps an instruction list runs when nothing stops it. */
  function Ops(p: seq<Instr>): (ops: seq<Op>)
    ensures |ops| <= |p|
  {
    if p == [] then []
    else (if p[0].Dispatch? then [] else [p[0].op]) + Ops(p[1..])
  }

  lemma {:induction false} OpsAppend(a: seq<Instr>, b: seq<Instr>)
    ensures Ops(a + b) == Ops(a) + Ops(b)
  {
    if a == [] {
      assert a + b == b;
    } else {
      assert (a + b)[1..] == a[1..] + b;
      OpsAppend(a[1..], b);
    }
  }

  /** A list of guarded steps runs exactly those steps. */
  lemma {:induction false} OpsOfGuarded(p: seq<Instr>)
    requires forall i :: 0 <= i < |p| ==> p[i].Guarded?
    ensures |Ops(p)| == |p|
    ensures forall i :: 0 <= i < |p| ==> Ops(p)[i] == p[i].op
  {
    if p != [] {
      OpsOfGuarded(p[1..]);
    }
  }

  /** Iterations `x .. n-1` of the first-pass loop: each shrinks, and each but
      the last (`x == n - 1` breaks) then remeshes. */
  function FirstPassFrom(x: nat, n: int): (p: seq<Instr>)
    decreases n - x
    ensures |p| == if x < n then 2 * (n - x) - 1 else 0
    ensures forall i :: 0 <= i < |p| ==>
              p[i] == Guarded(if i % 2 == 0 then Shrinkwrap else RemeshFirst)
  {
    if x >= n then []
    else [Guarded(Shrinkwrap)]
         + (if x == n - 1 then [] else [Guarded(RemeshFirst)] + FirstPassFrom(x + 1, n))
  }

  /** `for x in range(n)` of the first shrinkwrap. */
  function FirstPass(n: int): seq<Instr> {
    FirstPassFrom(0, n)
  }

  /** Iterations `x .. m` of the second-pass loop: each remeshes, and each but
      the last (`x == m` breaks) then relaxes. */
  function SecondPassFrom(x: nat, m: int): (p: seq<Instr>)
    requires x <= m
    decreases m - x
    ensures |p| == 2 * (m - x) + 1
    ensures forall i :: 0 <= i < |p| ==>
              p[i] == Guarded(if i % 2 == 0 then RemeshSecond else Relax)
  {
    [Guarded(RemeshSecond)]
    + (if x == m then [] else [Guarded(Relax)] + SecondPassFrom(x + 1, m))
  }

  /** `for x in range(m + 1)` of the second shrinkwrap. */
  function SecondPass(m: int): seq<Instr> {
    if m < 0 then [] else SecondPassFrom(0, m)
  }

  /** How often `o` occurs in `s`. */
  function Count(s: seq<Op>, o: Op): nat {
    if s == [] then 0 else (if s[0] == o then 1 else 0) + Count(s[1..], o)
  }

  lemma {:induction false} CountAppend(a: seq<Op>, b: seq<Op>, o: Op)
    ensures Count(a + b, o) == Count(a, o) + Count(b, o)
  {
    if a == [] {
      assert a + b == b;
    } else {
      assert (a + b)[1..] == a[1..] + b;
      CountAppend(a[1..], b, o);
    }
  }

  function Max0(x: int): nat {
    if x < 0 then 0 else x
  }

  lemma {:induction false} FirstPassFromCounts(x: nat, n: int)
    ensures Count(Ops(FirstPassFrom(x, n)), Shrinkwrap) == Max0(n - x)
    ensures Count(Ops(FirstPassFrom(x, n)), RemeshFirst) == Max0(n - x - 1)
    ensures forall o :: o != Shrinkwrap && o != RemeshFirst ==> Count(Ops(FirstPassFrom(x, n)), o) == 0
    decreases n - x
  {
    if x < n && x != n - 1 {
      var rest := FirstPassFrom(x + 1, n);
      assert FirstPassFrom(x, n) == [Guarded(Shrinkwrap), Guarded(RemeshFirst)] + rest;
      OpsAppend([Guarded(Shrinkwrap), Guarded(RemeshFirst)], rest);
      assert Ops([Guarded(Shrinkwrap), Guarded(RemeshFirst)]) == [Shrinkwrap, RemeshFirst];
      FirstPassFromCounts(x + 1, n);
      forall o {
        CountAppend([Shrinkwrap, RemeshFirst], Ops(rest), o);
      }
    } else if x == n - 1 {
      assert Ops(FirstPassFrom(x, n)) == [Shrinkwrap];
    }
  }

  /** The first pass with `n` iterations shrinks `n` times, remeshes `n - 1`
      times and runs no other step. */
  lemma FirstPassCounts(n: int)
    ensures Count(Ops(FirstPass(n)), Shrinkwrap) == Max0(n)
    ensures Count(Ops(FirstPass(n)), RemeshFirst) == Max0(n - 1)
    ensures forall o :: o != Shrinkwrap && o != RemeshFirst ==> Count(Ops(FirstPass(n)), o) == 0
  {
    FirstPassFromCounts(0, n);
  }

  /** The first pass alternates strictly, starting with a shrink, and never
      remeshes after its last shrink. */
  lemma FirstPassAlternates(n: int)
    ensures |Ops(FirstPass(n))| == if n > 0 then 2 * n - 1 else 0
    ensures forall i :: 0 <= i < |Ops(FirstPass(n))| ==>
              Ops(FirstPass(n))[i] == if i % 2 == 0 then Shrinkwrap else RemeshFirst
    ensures n > 0 ==> Ops(FirstPass(n))[2 * n - 2] == Shrinkwrap
  {
    OpsOfGuarded(FirstPass(n));
  }

  lemma {:induction false} SecondPassFromCounts(x: nat, m: int)
    requires x <= m
    ensures Count(Ops(SecondPassFrom(x, m)), RemeshSecond) == m - x + 1
    ensures Count(Ops(SecondPassFrom(x, m)), Relax) == m - x
    ensures forall o :: o != RemeshSecond && o != Relax ==> Count(Ops(SecondPassFrom(x, m)), o) == 0
    decreases m - x
  {
    if x == m {
      assert Ops(SecondPassFrom(x, m)) == [RemeshSecond];
    } else {
      var rest := SecondPassFrom(x + 1, m);
      assert SecondPassFrom(x, m) == [Guarded(RemeshSecond), Guarded(Relax)] + rest;
      OpsAppend([Guarded(RemeshSecond), Guarded(Relax)], rest);
      assert Ops([Guarded(RemeshSecond), Guarded(Relax)]) == [RemeshSecond, Relax];
      SecondPassFromCounts(x + 1, m);
      forall o {
        CountAppend([RemeshSecond, Relax], Ops(rest), o);
      }
    }
  }

  /** The second pass with `m` iterations remeshes `m + 1` times and relaxes
      `m` times, none at all when `m` is negative, and runs no other step. */
  lemma SecondPassCounts(m: int)
    ensures Count(Ops(SecondPass(m)), RemeshSecond) == Max0(m + 1)
    ensures Count(Ops(SecondPass(m)), Relax) == Max0(m)
    ensures forall o :: o != RemeshSecond && o != Relax ==> Count(Ops(SecondPass(m)), o) == 0
  {
    if m >= 0 {
      SecondPassFromCounts(0, m);
    }
  }

  /** The second pass alternates strictly, starting and ending with a remesh;
      a negative count makes it empty. */
  lemma SecondPassAlternates(m: int)
    ensures |Ops(SecondPass(m))| == if m >= 0 then 2 * m + 1 else 0
    ensures forall i :: 0 <= i < |Ops(SecondPass(m))| ==>
              Ops(SecondPass(m))[i] == if i % 2 == 0 then RemeshSecond else Relax
    ensures m >= 0 ==> Ops(SecondPass(m))[2 * m] == RemeshSecond
  {
    OpsOfGuarded(SecondPass(m));
  }
}

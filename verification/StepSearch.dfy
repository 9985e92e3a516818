/** The step controller of the autoscan engine and the two phases that drive it
    (auto-optimizer/src/scan_strategy.rs).  Offsets are kHz, modelled as unbounded
    integers; ShortPhaseFitsInI32 bounds every value the code computes. */
module StepSearch {
  import opened Arithmetic

  /** `step * 2^k`, the stride the source computes as `f_min_step * pow(2, k)`. */
  function Stride(step: int, k: nat): int {
    if k == 0 then step else 2 * Stride(step, k - 1)
  }

  lemma {:induction false} StrideIsPower(step: int, k: nat)
    ensures Stride(step, k) == step * Pow2(k)
  {
    if k > 0 {
      StrideIsPower(step, k - 1);
      assert 2 * (step * Pow2(k - 1)) == step * (2 * Pow2(k - 1));
    }
  }

  lemma {:induction false} StrideGrows(step: int, j: nat, k: nat)
    requires step > 0 && j <= k
    ensures step <= Stride(step, j) <= Stride(step, k)
    ensures j < k ==> 2 * Stride(step, j) <= Stride(step, k)
    decreases k
  {
    if j < k {
      StrideGrows(step, j, k - 1);
    } else if k > 0 {
      StrideGrows(step, j - 1, k - 1);
    }
  }

  // ---------------------------------------------------------------- one step

  /** The four fields of the controller. */
  datatype Search = Search(exp: nat, progress: nat, current: int, limit: int)

  /** `exp - progress` is an unsigned subtraction in the source: the clamped progress of a
      failed test may not exceed `exp`. */
  predicate CanFail(c: Search) {
    c.progress <= c.exp || c.exp >= 3
  }

  /** Unless it ends the phase at once, a passed test forms `exp + 1 - progress`; it forms
      `exp - progress` only where that stride is too long, so longer than one step. */
  predicate CanPass(c: Search, step: int) {
    c.current + step >= c.limit || c.progress <= c.exp + 1
  }

  /** The controller after a failed test. */
  function Failed(c: Search, step: int): Search
    requires CanFail(c)
  {
    var p := if c.progress > 3 then 3 else c.progress;
    Search(c.exp, p, c.current - Stride(step, c.exp - p + 1), c.current)
  }

  /** The controller after a passed test, and whether the search goes on. */
  function Passed(c: Search, step: int): (Search, bool)
    requires CanPass(c, step)
  {
    if c.current + step >= c.limit then
      (c, false)
    else
      var normal := Stride(step, c.exp + 1 - c.progress);
      var c' :=
        if c.current + normal >= c.limit then
          var half := Stride(step, c.exp - c.progress);
          if c.current + half == c.limit then
            c.(current := c.current + half / 2, progress := c.progress + 1)
          else
            c.(current := c.current + half)
        else
          c.(current := c.current + normal, progress := if c.progress == 0 then 0 else c.progress - 1);
      (c', c'.progress < c'.exp)
  }

  // ---------------------------------------------------------- runs of a phase

  /** One stress test: the offset under test and its verdict. */
  datatype Probe = Probe(freq: int, passed: bool)

  /** A short phase in flight: the controller, the tests so far, whether it still loops. */
  datatype Phase = Phase(c: Search, probes: seq<Probe>, running: bool)

  function Begin(c: Search): Phase {
    Phase(c, [], c.progress < c.exp)
  }

  function Advance(ph: Phase, step: int, passed: bool): (ph': Phase)
    requires ph.running ==> ph.c.progress < ph.c.exp
    ensures ph'.running ==> ph'.c.progress < ph'.c.exp
  {
    if !ph.running then ph
    else
      var probes := ph.probes + [Probe(ph.c.current, passed)];
      if passed then
        var (c, more) := Passed(ph.c, step);
        Phase(c, probes, more)
      else
        Phase(Failed(ph.c, step), probes, true)
  }

  /** The phase after the verdicts `outcomes`, whatever device produced them;
      verdicts past the end of the phase are ignored. */
  ghost function Run(c: Search, step: int, outcomes: seq<bool>): (ph: Phase)
    ensures ph.running ==> ph.c.progress < ph.c.exp
    decreases |outcomes|
  {
    if outcomes == [] then Begin(c)
    else Advance(Run(c, step, outcomes[..|outcomes| - 1]), step, outcomes[|outcomes| - 1])
  }

  predicate AnyFailed(probes: seq<Probe>) {
    exists i :: 0 <= i < |probes| && !probes[i].passed
  }

  /** `probes[i]` is the last failed test. */
  ghost predicate LastFailed(probes: seq<Probe>, i: int) {
    && 0 <= i < |probes| && !probes[i].passed
    && forall j :: i < j < |probes| ==> probes[j].passed
  }

  /** Between two tests after a failure the gap is a power-of-two multiple of the step:
      the stride the last failure took, or half of it once a test has passed again. */
  ghost predicate Narrowing(c: Search, step: int)
  {
    && c.progress < c.exp
    && (c.limit - c.current == Stride(step, c.exp + 1 - c.progress)
        || c.limit - c.current == Stride(step, c.exp - c.progress))
  }

  /** The loop has ended after a failure: exactly one step is left, and the test
      two steps below the limit was the last one and passed. */
  ghost predicate OneStepLeft(c: Search, probes: seq<Probe>, step: int) {
    && c.limit - c.current == step
    && probes != []
    && probes[|probes| - 1] == Probe(c.limit - 2 * step, true)
  }

  /** An upper bound on every offset tested by a phase started at `c0`. */
  ghost function Ceiling(c0: Search, step: int): int {
    var overshoot := c0.limit + Stride(step, c0.exp) - step - 1;
    if c0.current > overshoot then c0.current else overshoot
  }

  ghost predicate FailuresFall(probes: seq<Probe>) {
    forall i, j :: 0 <= i < j < |probes| && !probes[i].passed && !probes[j].passed ==>
      probes[j].freq < probes[i].freq
  }

  ghost predicate ShortInv(c0: Search, step: int, ph: Phase) {
    && ph.c.exp == c0.exp
    && (ph.running ==> ph.c.progress < ph.c.exp)
    && (!AnyFailed(ph.probes) ==>
          && ph.c.limit == c0.limit
          && c0.current <= ph.c.current <= Ceiling(c0, step)
          && (!ph.running && ph.probes != [] ==> ph.c.current + step >= ph.c.limit))
    && (AnyFailed(ph.probes) ==>
          && (exists i :: LastFailed(ph.probes, i) && ph.probes[i].freq == ph.c.limit)
          && ph.c.current < ph.c.limit <= Ceiling(c0, step)
          && (if ph.running then Narrowing(ph.c, step) else OneStepLeft(ph.c, ph.probes, step)))
    && (forall i :: 0 <= i < |ph.probes| ==> ph.probes[i].freq <= Ceiling(c0, step))
    && FailuresFall(ph.probes)
  }

  lemma AnyFailedAppend(probes: seq<Probe>, p: Probe)
    ensures AnyFailed(probes + [p]) <==> AnyFailed(probes) || !p.passed
  {
    var ps := probes + [p];
    assert ps[|probes|] == p;
    if AnyFailed(probes) {
      var i :| 0 <= i < |probes| && !probes[i].passed;
      assert !ps[i].passed;
    }
  }

  lemma FailedStep(c0: Search, step: int, ph: Phase)
    requires step > 0 && ShortInv(c0, step, ph) && ph.running
    ensures ShortInv(c0, step, Advance(ph, step, false))
  {
    var ph' := Advance(ph, step, false);
    AnyFailedAppend(ph.probes, Probe(ph.c.current, false));
    StrideGrows(step, 0, ph'.c.exp + 1 - ph'.c.progress);
    assert LastFailed(ph'.probes, |ph.probes|);
    forall i | 0 <= i < |ph.probes| && !ph'.probes[i].passed
      ensures ph.c.current < ph'.probes[i].freq
    {
      assert !ph.probes[i].passed;
      var k :| LastFailed(ph.probes, k) && ph.probes[k].freq == ph.c.limit;
      assert i <= k;
      assert i == k || ph.probes[k].freq < ph.probes[i].freq;
    }
  }

  lemma PassedStepAfterFailure(c: Search, step: int)
    requires step > 0 && Narrowing(c, step) && c.current < c.limit
    ensures var (c', more) := Passed(c, step);
      && c'.exp == c.exp && c'.limit == c.limit && c.current < c'.current < c'.limit
      && 2 * (c'.limit - c'.current) == c.limit - c.current
      && (if more then Narrowing(c', step)
          else c'.limit - c'.current == step && c.current == c.limit - 2 * step)
  {
    StrideGrows(step, 0, c.exp - c.progress - 1);
  }

  lemma PassedStepBeforeFailure(c0: Search, step: int, c: Search)
    requires step > 0 && c.exp == c0.exp && c.progress < c.exp && c.limit == c0.limit
    requires c.current <= Ceiling(c0, step)
    ensures var (c', more) := Passed(c, step);
      && c'.exp == c0.exp && c'.limit == c0.limit
      && c.current <= c'.current <= Ceiling(c0, step)
      && (more ==> c'.progress < c'.exp && c'.current >= c.current + step)
      && (!more ==> c'.current + step >= c'.limit)
  {
    StrideGrows(step, c.exp - c.progress, c.exp);
    StrideGrows(step, 0, c.exp - c.progress);
    StrideGrows(step, c.exp - c.progress - 1, c.exp - c.progress);
    StrideGrows(step, 0, c.exp - c.progress - 1);
  }

  lemma PassedStep(c0: Search, step: int, ph: Phase)
    requires step > 0 && ShortInv(c0, step, ph) && ph.running
    ensures ShortInv(c0, step, Advance(ph, step, true))
  {
    var p := Probe(ph.c.current, true);
    var ph' := Advance(ph, step, true);
    AnyFailedAppend(ph.probes, p);
    if AnyFailed(ph.probes) {
      PassedStepAfterFailure(ph.c, step);
      var k :| LastFailed(ph.probes, k) && ph.probes[k].freq == ph.c.limit;
      assert LastFailed(ph'.probes, k);
    } else {
      PassedStepBeforeFailure(c0, step, ph.c);
    }
  }

  /** Every run of the short phase, against any device, keeps the invariant; in
      particular no unsigned exponent ever underflows. */
  lemma {:induction false} RunKeeps(c0: Search, step: int, outcomes: seq<bool>)
    requires step > 0
    ensures ShortInv(c0, step, Run(c0, step, outcomes))
    decreases |outcomes|
  {
    if outcomes == [] {
      assert Run(c0, step, outcomes) == Begin(c0);
    } else {
      var before := outcomes[..|outcomes| - 1];
      RunKeeps(c0, step, before);
      var ph := Run(c0, step, before);
      if ph.running {
        if outcomes[|outcomes| - 1] { PassedStep(c0, step, ph); } else { FailedStep(c0, step, ph); }
      }
    }
  }

  // ------------------------------------------------------------ main results

  /** A short phase that has seen a failure and ended stops exactly one step below
      the last failed offset, and the offset two steps below it passed. */
  lemma ShortPhaseCloses(c0: Search, step: int, outcomes: seq<bool>)
    requires step > 0
    ensures var ph := Run(c0, step, outcomes);
      && (!ph.running && AnyFailed(ph.probes) ==>
            && ph.c.limit - ph.c.current == step
            && Probe(ph.c.limit - 2 * step, true) in ph.probes
            && exists i :: LastFailed(ph.probes, i) && ph.probes[i].freq == ph.c.limit)
      && (!ph.running && ph.probes != [] && !AnyFailed(ph.probes) ==> ph.c.limit - ph.c.current <= step)
  {
    RunKeeps(c0, step, outcomes);
  }

  /** While the loop runs after a failure, the gap is a power-of-two multiple of the
      step with a positive exponent: halving it can never leave a remainder. */
  lemma GapIsPowerOfTwo(c0: Search, step: int, outcomes: seq<bool>) returns (k: nat)
    requires step > 0
    requires var ph := Run(c0, step, outcomes); ph.running && AnyFailed(ph.probes)
    ensures var ph := Run(c0, step, outcomes);
      && 1 <= k <= c0.exp + 1 - ph.c.progress
      && ph.c.limit - ph.c.current == step * Pow2(k)
  {
    RunKeeps(c0, step, outcomes);
    var ph := Run(c0, step, outcomes);
    k := if ph.c.limit - ph.c.current == Stride(step, c0.exp - ph.c.progress)
         then c0.exp - ph.c.progress else c0.exp + 1 - ph.c.progress;
    StrideIsPower(step, k);
  }

  /** The ceiling and the strictly falling failures, for any device. */
  lemma ProbesStayBelowCeiling(c0: Search, step: int, outcomes: seq<bool>)
    requires step > 0
    ensures var ph := Run(c0, step, outcomes);
      && (forall p :: p in ph.probes ==>
            p.freq <= c0.current || p.freq < c0.limit + step * (Pow2(c0.exp) - 1))
      && FailuresFall(ph.probes)
  {
    RunKeeps(c0, step, outcomes);
    StrideIsPower(step, c0.exp);
    assert step * (Pow2(c0.exp) - 1) == step * Pow2(c0.exp) - step;
  }

  /** The verdicts agree with a device on which every offset up to `safe` passes. */
  ghost predicate SafeUpTo(probes: seq<Probe>, safe: int) {
    forall i :: 0 <= i < |probes| && probes[i].freq <= safe ==> probes[i].passed
  }

  ghost function Floor(c0: Search, step: int, safe: int): int {
    var deepest := safe + 1 - Stride(step, c0.exp + 1);
    if c0.current < deepest then c0.current else deepest
  }

  lemma {:induction false} RunStaysAboveFloor(c0: Search, step: int, outcomes: seq<bool>, safe: int)
    requires step > 0
    requires SafeUpTo(Run(c0, step, outcomes).probes, safe)
    ensures var ph := Run(c0, step, outcomes);
      && ph.c.current >= Floor(c0, step, safe)
      && (forall i :: 0 <= i < |ph.probes| ==> ph.probes[i].freq >= Floor(c0, step, safe))
      && (AnyFailed(ph.probes) ==> ph.c.limit > safe)
    decreases |outcomes|
  {
    if outcomes != [] {
      var before := outcomes[..|outcomes| - 1];
      var ph, ph' := Run(c0, step, before), Run(c0, step, outcomes);
      assert ph.probes <= ph'.probes;
      assert forall i :: 0 <= i < |ph.probes| ==> ph.probes[i] == ph'.probes[i];
      RunStaysAboveFloor(c0, step, before, safe);
      RunKeeps(c0, step, before);
      if ph.running {
        var passed := outcomes[|outcomes| - 1];
        AnyFailedAppend(ph.probes, Probe(ph.c.current, passed));
        assert ph'.probes[|ph.probes|] == Probe(ph.c.current, passed);
        StepStaysAboveFloor(c0, step, ph, passed, safe);
      }
    }
  }

  /** One test: a pass goes up, and a failure above `safe` goes down by one stride. */
  lemma StepStaysAboveFloor(c0: Search, step: int, ph: Phase, passed: bool, safe: int)
    requires step > 0 && ShortInv(c0, step, ph) && ph.running
    requires Floor(c0, step, safe) <= ph.c.current && (!passed ==> ph.c.current > safe)
    ensures Advance(ph, step, passed).c.current >= Floor(c0, step, safe)
    ensures Advance(ph, step, passed).c.limit == if passed then ph.c.limit else ph.c.current
  {
    if !passed {
      StrideGrows(step, c0.exp + 1 - Advance(ph, step, false).c.progress, c0.exp + 1);
    } else if AnyFailed(ph.probes) {
      PassedStepAfterFailure(ph.c, step);
    } else {
      PassedStepBeforeFailure(c0, step, ph.c);
    }
  }

  predicate InI32(x: int) { -0x8000_0000 <= x < 0x8000_0000 }

  /** Where the two fields lie throughout a run. */
  lemma RunStaysWithin(c0: Search, step: int, outcomes: seq<bool>, safe: int)
    requires step > 0
    requires SafeUpTo(Run(c0, step, outcomes).probes, safe)
    ensures var c := Run(c0, step, outcomes).c;
      && c.exp == c0.exp
      && Floor(c0, step, safe) <= c.current <= Ceiling(c0, step)
      && (c.limit == c0.limit || safe < c.limit <= Ceiling(c0, step))
  {
    RunKeeps(c0, step, outcomes);
    RunStaysAboveFloor(c0, step, outcomes, safe);
  }

  /** The sums a single test forms fit, given where the fields lie. */
  ghost predicate TestFits(c: Search, step: int)
    requires c.progress < c.exp
  {
    var p := Failed(c, step).progress;
    && InI32(c.current + step)
    && InI32(Stride(step, c.exp + 1 - c.progress)) && InI32(Stride(step, c.exp + 1 - p))
    && InI32(c.current + Stride(step, c.exp + 1 - c.progress))
    && InI32(c.current + Stride(step, c.exp - c.progress))
  }

  lemma TestFitsWithin(c: Search, step: int, low: int, high: int)
    requires step > 0 && c.progress < c.exp
    requires -0x8000_0000 <= low <= c.current <= high
    requires high + Stride(step, c.exp + 1) < 0x8000_0000 && Stride(step, c.exp + 1) < 0x8000_0000
    ensures TestFits(c, step)
  {
    var p := Failed(c, step).progress;
    StrideGrows(step, c.exp + 1 - c.progress, c.exp + 1);
    StrideGrows(step, c.exp - c.progress, c.exp + 1);
    StrideGrows(step, c.exp + 1 - p, c.exp + 1);
  }

  /** Every value a test computes fits the source's 32-bit integers when the start, the
      limit and some safe offset lie within `m` and twice the largest stride is left. */
  lemma ShortPhaseFitsInI32(c0: Search, step: int, outcomes: seq<bool>, safe: int, m: int)
    requires step > 0
    requires -m <= c0.current <= m && -m <= c0.limit <= m && -m <= safe
    requires m + 2 * Stride(step, c0.exp + 1) < 0x8000_0000
    requires SafeUpTo(Run(c0, step, outcomes).probes, safe)
    ensures var ph := Run(c0, step, outcomes);
      && InI32(ph.c.current) && InI32(ph.c.limit) && (ph.running ==> TestFits(ph.c, step))
  {
    RunStaysWithin(c0, step, outcomes, safe);
    var ph := Run(c0, step, outcomes);
    StrideGrows(step, c0.exp, c0.exp + 1);
    if ph.running {
      TestFitsWithin(ph.c, step, Floor(c0, step, safe), Ceiling(c0, step));
    }
  }

  /** Some offset must pass for the loop to end: a device that fails every test keeps
      the short phase running after any number of tests. */
  lemma {:induction false} AlwaysFailingNeverEnds(c0: Search, step: int, n: nat)
    requires c0.progress < c0.exp
    ensures Run(c0, step, seq(n, _ => false)).running
  {
    if n > 0 {
      assert seq(n, _ => false)[..n - 1] == seq(n - 1, _ => false);
      AlwaysFailingNeverEnds(c0, step, n - 1);
    }
  }

  /** While tests pass and there is room, the strides of the search double: after `n` tests it has
      climbed by the sum of `n` powers of two times the step. */
  lemma {:induction false} PassesClimbDoubling(c0: Search, step: int, n: nat)
    requires step > 0 && n <= c0.progress < c0.exp
    requires var k := c0.exp + 1 - c0.progress; c0.current + Stride(step, k + n) - Stride(step, k) < c0.limit
    ensures var k, ph := c0.exp + 1 - c0.progress, Run(c0, step, seq(n, _ => true));
      && ph.running
      && ph.c == c0.(current := c0.current + Stride(step, k + n) - Stride(step, k), progress := c0.progress - n)
  {
    if n > 0 {
      var k := c0.exp + 1 - c0.progress;
      StrideGrows(step, k + n - 1, k + n);
      PassesClimbDoubling(c0, step, n - 1);
      assert seq(n, _ => true)[..n - 1] == seq(n - 1, _ => true);
      PassTakes(Run(c0, step, seq(n - 1, _ => true)).c, step, k + n - 1);
    }
  }

  lemma PassTakes(c: Search, step: int, k: nat)
    requires step > 0 && 0 < c.progress < c.exp && k == c.exp + 1 - c.progress && c.current + Stride(step, k) < c.limit
    ensures CanPass(c, step)
    ensures Passed(c, step) == (c.(current := c.current + Stride(step, k), progress := c.progress - 1), true)
  {
    StrideGrows(step, 0, k);
  }

  /** A failure takes the stride of its progress, at most three, and does not change that: in a row
      failures fall in equal strides. */
  lemma {:induction false} FailuresFallEvenly(c0: Search, step: int, n: nat, d: int)
    requires c0.progress < c0.exp && d == step * Pow2(c0.exp + 1 - Min(c0.progress, 3))
    ensures var ph := Run(c0, step, seq(n, _ => false));
      && ph.running && |ph.probes| == n && ph.c.exp == c0.exp
      && ph.c.progress == (if n == 0 then c0.progress else Min(c0.progress, 3))
      && ph.c.current == c0.current - n * d
  {
    if n > 0 {
      FailuresFallEvenly(c0, step, n - 1, d);
      assert seq(n, _ => false)[..n - 1] == seq(n - 1, _ => false);
      var ph := Run(c0, step, seq(n - 1, _ => false));
      FailureTakes(ph.c, step, c0.progress, d);
      assert n * d == (n - 1) * d + d;
    }
  }

  lemma FailureTakes(c: Search, step: int, progress: nat, d: int)
    requires CanFail(c) && progress < c.exp && d == step * Pow2(c.exp + 1 - Min(progress, 3))
    requires c.progress == progress || c.progress == Min(progress, 3)
    ensures Failed(c, step) == Search(c.exp, Min(progress, 3), c.current - d, c.current)
  {
    StrideIsPower(step, c.exp + 1 - Min(progress, 3));
  }

  /** The verdicts are those of a device. */
  ghost predicate Agrees(probes: seq<Probe>, device: int -> bool) {
    forall i :: 0 <= i < |probes| ==> (probes[i].passed <==> device(probes[i].freq))
  }

  ghost predicate EndsOn(c0: Search, step: int, device: int -> bool, outcomes: seq<bool>) {
    var ph := Run(c0, step, outcomes);
    !ph.running && Agrees(ph.probes, device)
  }

  /** From any point of a run on a device with a safe offset the run goes on to an end. */
  lemma RunsToItsEnd(c0: Search, step: int, device: int -> bool, safe: int, outcomes: seq<bool>)
    returns (all: seq<bool>)
    requires step > 0 && (forall f :: f <= safe ==> device(f))
    requires Agrees(Run(c0, step, outcomes).probes, device)
    ensures EndsOn(c0, step, device, all)
    decreases var ph := Run(c0, step, outcomes); ph.running,
              var ph := Run(c0, step, outcomes); !AnyFailed(ph.probes),
              var ph := Run(c0, step, outcomes);
                if AnyFailed(ph.probes) then ph.c.limit - safe else Ceiling(c0, step) - ph.c.current,
              var ph := Run(c0, step, outcomes); ph.c.limit - ph.c.current
  {
    var ph := Run(c0, step, outcomes);
    all := outcomes;
    if ph.running {
      var passed := device(ph.c.current);
      ShortStepShrinks(c0, step, outcomes, passed, safe);
      all := RunsToItsEnd(c0, step, device, safe, outcomes + [passed]);
    }
  }

  /** On a device that passes every offset below one it passes, an unconverged short phase
      ends if and only if the device passes some offset. */
  lemma ShortPhaseEndsIff(c0: Search, step: int, device: int -> bool)
    requires step > 0 && c0.progress < c0.exp
    requires forall f, g :: f <= g && device(g) ==> device(f)
    ensures (exists outcomes :: EndsOn(c0, step, device, outcomes)) <==> exists f :: device(f)
  {
    if outcomes :| EndsOn(c0, step, device, outcomes) {
      EndedMeansPassed(c0, step, outcomes);
      var probes := Run(c0, step, outcomes).probes;
      assert device(probes[|probes| - 1].freq);
    }
    if safe :| device(safe) {
      assert Run(c0, step, []) == Begin(c0);
      var outcomes := RunsToItsEnd(c0, step, device, safe, []);
    }
  }

  /** The test that ends a phase is a passed one. */
  lemma {:induction false} EndedMeansPassed(c0: Search, step: int, outcomes: seq<bool>)
    requires c0.progress < c0.exp && !Run(c0, step, outcomes).running
    ensures var probes := Run(c0, step, outcomes).probes; probes != [] && probes[|probes| - 1].passed
  {
    if outcomes != [] {
      var before := outcomes[..|outcomes| - 1];
      if !Run(c0, step, before).running { EndedMeansPassed(c0, step, before); }
    }
  }

  // ------------------------------------------------------------ the long phase

  /** The tests of a long phase: each failed one `d` above the next, the last one passed. */
  ghost predicate LongTests(start: int, d: int, calls: seq<Probe>) {
    && calls != []
    && (forall i :: 0 <= i < |calls| ==> calls[i] == Probe(start - d * i, i == |calls| - 1))
  }

  /** From one step below a failed offset the long phase comes within its own step of the
      threshold. */
  lemma LongPhaseFindsThreshold(start: int, limit: int, step: int, d: int, calls: seq<Probe>, tShort: int, tLong: int)
    requires d >= step && limit - start == step && limit > tShort >= tLong
    requires LongTests(start, d, calls)
    requires forall p :: p in calls ==> (p.passed <==> p.freq <= tLong)
    ensures tLong - d < calls[|calls| - 1].freq <= tLong
  {
    var n := |calls|;
    assert calls[n - 1] in calls;
    if n > 1 {
      assert calls[n - 2] in calls;
      assert d * (n - 1) == d * (n - 2) + d;
    } else {
      assert d * 0 == 0;
    }
  }

  /** Short phase, then long phase, on a device with sharp thresholds: if the short
      phase met a failure, the result is within `d` below the long threshold. */
  lemma PhasesFindThreshold(c0: Search, step: int, outcomes: seq<bool>, calls: seq<Probe>,
                            d: int, tShort: int, tLong: int)
    requires step > 0 && d >= step && tLong <= tShort
    requires var ph := Run(c0, step, outcomes);
      && !ph.running && AnyFailed(ph.probes)
      && (forall p :: p in ph.probes ==> (p.passed <==> p.freq <= tShort))
      && LongTests(ph.c.current, d, calls)
    requires forall p :: p in calls ==> (p.passed <==> p.freq <= tLong)
    ensures tLong - d < calls[|calls| - 1].freq <= tLong
  {
    ShortPhaseCloses(c0, step, outcomes);
    var ph := Run(c0, step, outcomes);
    var k :| LastFailed(ph.probes, k) && ph.probes[k].freq == ph.c.limit;
    assert ph.probes[k] in ph.probes;
    LongPhaseFindsThreshold(ph.c.current, ph.c.limit, step, d, calls, tShort, tLong);
  }

  // -------------------------------------------------------- starting a search

  predicate StrideFits(current: int, step: int, top: nat, limit: int, progress: nat) {
    progress <= top && current + Stride(step, top - progress) < limit
  }

  /** The smallest progress from `p` on whose stride stays below the limit. */
  function FirstFit(current: int, step: int, top: nat, limit: int, p: nat): (q: nat)
    requires p <= top && current + step < limit
    decreases top - p
  {
    if current + Stride(step, top - p) < limit then p
    else if p == top then top
    else FirstFit(current, step, top, limit, p + 1)
  }

  lemma {:induction false} FirstFitIsLeast(current: int, step: int, top: nat, limit: int, p: nat)
    requires step > 0 && p <= top && current + step < limit
    ensures var q := FirstFit(current, step, top, limit, p);
      && p <= q <= top
      && StrideFits(current, step, top, limit, q)
      && (forall j :: p <= j < q ==> !StrideFits(current, step, top, limit, j))
    decreases top - p
  {
    if current + Stride(step, top - p) >= limit && p < top {
      FirstFitIsLeast(current, step, top, limit, p + 1);
    }
  }

  /** The start-up loop finds a progress without underflowing its exponent if and only
      if one step fits below the limit. */
  lemma StartLoopStopsIff(current: int, step: int, top: nat, limit: int)
    requires step > 0
    ensures (exists q: nat :: StrideFits(current, step, top, limit, q)) <==> current + step < limit
  {
    if current + step < limit {
      assert StrideFits(current, step, top, limit, top);
    }
    if q: nat :| StrideFits(current, step, top, limit, q) {
      StrideGrows(step, 0, top - q);
    }
  }

  /** The limit a resumed search starts from. */
  function ResumeLimit(success: int, failed: int, elastic: int): int {
    var floor := success - elastic;
    var high := if failed >= floor then failed else floor;
    if failed + elastic <= high then failed + elastic else high
  }

  function Resumed(success: int, failed: int, elastic: int, step: int, exp: nat): Search
    requires success - elastic + step < ResumeLimit(success, failed, elastic)
  {
    var limit := ResumeLimit(success, failed, elastic);
    if success >= failed - step then Search(exp, exp + 1, success, limit)
    else Search(exp, FirstFit(success - elastic, step, exp, limit, 0), success - elastic, limit)
  }

  /** The start-up loop of a resume stops if and only if the backed-off success leaves
      one step below the failure. */
  lemma ResumeStopsIff(success: int, failed: int, elastic: int, step: int)
    requires elastic >= 0 && step > 0
    ensures success - elastic + step < ResumeLimit(success, failed, elastic)
       <==> success - elastic + step < failed
  {
  }

  /** The limit is the failure, raised as far as the backed-off success asks for and the elastic
      margin allows. */
  lemma ResumeLimitIs(success: int, failed: int, elastic: int)
    requires elastic >= 0
    ensures var limit := ResumeLimit(success, failed, elastic);
      && failed <= limit <= failed + elastic
      && (limit > failed ==> limit <= success - elastic)
      && (limit < failed + elastic ==> limit >= success - elastic)
  {
  }

  /** Resuming below a failure keeps the failed offset as the limit and starts below
      it; the short phase is skipped exactly when at most one step was left. */
  lemma ResumeStartsBelowFailure(success: int, failed: int, elastic: int, step: int, exp: nat)
    requires success < failed && elastic >= step > 0
    ensures success - elastic + step < ResumeLimit(success, failed, elastic)
    ensures var c := Resumed(success, failed, elastic, step, exp);
      && c.limit == failed && c.current < failed
      && (c.progress > exp <==> failed - success <= step)
      && (failed - success <= step ==> c.current == success && c.progress == exp + 1)
      && (failed - success > step ==>
            && c.current == success - elastic && c.current + Stride(step, exp - c.progress) < failed
            && forall p: nat :: p < c.progress ==> !StrideFits(c.current, step, exp, failed, p))
  {
    if failed - success > step {
      FirstFitIsLeast(success - elastic, step, exp, failed, 0);
    }
  }

  // ------------------------------------------------------------- the controller

  class StepController {
    var currentStepExp: nat
    var testProgressNum: nat
    var fCurrent: int
    var fMax: int

    ghost function View(): Search
      reads this
    {
      Search(currentStepExp, testProgressNum, fCurrent, fMax)
    }

    constructor New(fInitial: int, fMax: int, fMinStep: int, stepExp: nat)
      requires fMinStep > 0 && fInitial + fMinStep < fMax
      ensures View() == Search(stepExp, FirstFit(fInitial, fMinStep, stepExp + 1, fMax, 0), fInitial, fMax)
    {
      var progress := 0;
      while fInitial + Stride(fMinStep, stepExp + 1 - progress) >= fMax
        invariant progress <= stepExp + 1
        invariant FirstFit(fInitial, fMinStep, stepExp + 1, fMax, 0)
               == FirstFit(fInitial, fMinStep, stepExp + 1, fMax, progress)
        decreases stepExp + 1 - progress
      {
        progress := progress + 1;
      }
      currentStepExp, testProgressNum, fCurrent, this.fMax := stepExp, progress, fInitial, fMax;
    }

    constructor InitFromResume(fLastSuccess: int, fLastFailed: int, fElastic: int, fMinStep: int, stepExp: nat)
      requires fMinStep > 0
      requires fLastSuccess - fElastic + fMinStep < ResumeLimit(fLastSuccess, fLastFailed, fElastic)
      ensures View() == Resumed(fLastSuccess, fLastFailed, fElastic, fMinStep, stepExp)
    {
      var current := fLastSuccess - fElastic;
      var high := if fLastFailed >= current then fLastFailed else current;
      var limit := if fLastFailed + fElastic <= high then fLastFailed + fElastic else high;
      var progress := 0;
      while current + Stride(fMinStep, stepExp - progress) >= limit
        invariant progress <= stepExp
        invariant FirstFit(current, fMinStep, stepExp, limit, 0)
               == FirstFit(current, fMinStep, stepExp, limit, progress)
        decreases stepExp - progress
      {
        progress := progress + 1;
      }
      if fLastSuccess >= fLastFailed - fMinStep {
        current := fLastSuccess;
        progress := stepExp + 1;
      }
      currentStepExp, testProgressNum, fCurrent, fMax := stepExp, progress, current, limit;
    }

    method OnTestPassed(fMinStep: int) returns (more: bool)
      requires CanPass(View(), fMinStep)
      modifies this
      ensures (View(), more) == Passed(old(View()), fMinStep)
    {
      if fCurrent + fMinStep >= fMax {
        return false;
      }
      var normalStep := Stride(fMinStep, currentStepExp + 1 - testProgressNum);
      var increase;
      if fCurrent + normalStep >= fMax {
        increase := Stride(fMinStep, currentStepExp - testProgressNum);
        if fCurrent + increase == fMax {
          increase := increase / 2;
          testProgressNum := testProgressNum + 1;
        }
      } else {
        testProgressNum := if testProgressNum == 0 then 0 else testProgressNum - 1;
        increase := normalStep;
      }
      fCurrent := fCurrent + increase;
      more := testProgressNum < currentStepExp;
    }

    method OnTestFailed(fMinStep: int) returns (decrease: int)
      requires CanFail(View())
      modifies this
      ensures View() == Failed(old(View()), fMinStep)
      ensures decrease == old(fCurrent) - fCurrent
    {
      if testProgressNum > 3 {
        testProgressNum := 3;
      }
      fMax := fCurrent;
      decrease := Stride(fMinStep, currentStepExp - testProgressNum + 1);
      fCurrent := fCurrent - decrease;
    }

    method ApplyLongFailureStep(fMinStep: int, is50Series: bool) returns (decrease: int)
      modifies this`fCurrent
      ensures decrease == (if is50Series then 2 * fMinStep else fMinStep)
      ensures fCurrent == old(fCurrent) - decrease
    {
      decrease := if is50Series then 2 * fMinStep else fMinStep;
      fCurrent := fCurrent - decrease;
    }

    /** One round of the loop around a test's verdict. */
    method TakeVerdict(fMinStep: int, passed: bool, ghost ph: Phase) returns (more: bool)
      requires View() == ph.c && ph.running && ph.c.progress < ph.c.exp
      modifies this
      ensures View() == Advance(ph, fMinStep, passed).c && more == Advance(ph, fMinStep, passed).running
    {
      more := true;
      if passed {
        more := OnTestPassed(fMinStep);
      } else {
        var _ := OnTestFailed(fMinStep);
      }
    }

    /** The exponential/bisection loop. `passes(f, code)` is the verdict of the stress
        test number `code` at offset `f`; `safe` witnesses that low offsets pass, which
        is what makes the loop end. `calls` are the callbacks made, in order. */
    method RunShortPhase(fMinStep: int, debugSkip: bool, passes: (int, nat) -> bool, ghost safe: int)
      returns (calls: seq<Probe>)
      requires fMinStep > 0
      requires forall f, code :: f <= safe ==> passes(f, code)
      modifies this
      ensures forall i :: 0 <= i < |calls| ==> (calls[i].passed <==> passes(calls[i].freq, i + 1))
      ensures debugSkip ==> calls == [] && View() == old(View()).(progress := 0)
      ensures !debugSkip ==> exists outcomes ::
        var ph := Run(old(View()), fMinStep, outcomes);
        !ph.running && ph.probes == calls && View() == ph.c.(progress := 0)
    {
      calls := [];
      ghost var c0 := View();
      ghost var outcomes: seq<bool> := [];
      if debugSkip || testProgressNum >= currentStepExp {
        testProgressNum := 0;
        assert Run(c0, fMinStep, outcomes) == Begin(c0);
        return;
      }
      ghost var ph := Begin(c0);
      var more := true;
      while more
        invariant ph == Run(c0, fMinStep, outcomes)
        invariant View() == ph.c && calls == ph.probes && more == ph.running
        invariant forall i :: 0 <= i < |calls| ==> (calls[i].passed <==> passes(calls[i].freq, i + 1))
        decreases more,
                  !AnyFailed(ph.probes),
                  if AnyFailed(ph.probes) then ph.c.limit - safe else Ceiling(c0, fMinStep) - ph.c.current,
                  ph.c.limit - ph.c.current
      {
        var freq := fCurrent;
        var passed := passes(freq, |calls| + 1);
        ghost var outcomes' := outcomes + [passed];
        assert outcomes'[..|outcomes'| - 1] == outcomes;
        ShortStepShrinks(c0, fMinStep, outcomes, passed, safe);
        more := TakeVerdict(fMinStep, passed, ph);
        calls := calls + [Probe(freq, passed)];
        outcomes := outcomes';
        ph := Run(c0, fMinStep, outcomes);
      }
      testProgressNum := 0;
    }

    /** The endurance loop: step down until an offset passes. */
    method RunLongPhase(fMinStep: int, is50Series: bool, debugSkip: bool, passes: (int, nat) -> bool, ghost safe: int)
      returns (calls: seq<Probe>)
      requires fMinStep > 0
      requires forall f, code :: f <= safe ==> passes(f, code)
      modifies this`fCurrent
      ensures debugSkip ==> calls == [] && fCurrent == old(fCurrent)
      ensures !debugSkip ==>
        && LongTests(old(fCurrent), LongStep(fMinStep, is50Series), calls)
        && fCurrent == calls[|calls| - 1].freq
      ensures forall i :: 0 <= i < |calls| ==> (calls[i].passed <==> passes(calls[i].freq, i + 1))
    {
      calls := [];
      if debugSkip {
        return;
      }
      ghost var d := LongStep(fMinStep, is50Series);
      var passed := false;
      while !passed
        invariant !passed ==> fCurrent == old(fCurrent) - d * |calls|
        invariant passed ==> calls != [] && fCurrent == calls[|calls| - 1].freq
        invariant forall i :: 0 <= i < |calls| ==>
          && calls[i] == Probe(old(fCurrent) - d * i, passed && i == |calls| - 1)
          && (calls[i].passed <==> passes(calls[i].freq, i + 1))
        decreases !passed, fCurrent - safe
      {
        passed := passes(fCurrent, |calls| + 1);
        calls := calls + [Probe(fCurrent, passed)];
        if !passed {
          assert d * |calls| == d * (|calls| - 1) + d;
          var _ := ApplyLongFailureStep(fMinStep, is50Series);
        }
      }
    }
  }

  /** One more test of a running short phase: a first failure happens once, every later
      one lowers the limit towards `safe`, and between failures the gap shrinks. */
  lemma ShortStepShrinks(c0: Search, step: int, outcomes: seq<bool>, passed: bool, safe: int)
    requires step > 0
    requires var ph := Run(c0, step, outcomes);
      && ph.running && SafeUpTo(ph.probes, safe)
      && (ph.c.current <= safe ==> passed)
    ensures var ph, ph' := Run(c0, step, outcomes), Run(c0, step, outcomes + [passed]);
      && ph' == Advance(ph, step, passed)
      && SafeUpTo(ph'.probes, safe)
      && (AnyFailed(ph.probes) ==> AnyFailed(ph'.probes) && safe < ph.c.limit && ph.c.current < ph.c.limit)
      && (AnyFailed(ph.probes) && !passed ==> safe < ph'.c.limit < ph.c.limit)
      && (AnyFailed(ph.probes) && passed ==>
            ph'.c.limit == ph.c.limit && ph'.c.limit - ph'.c.current < ph.c.limit - ph.c.current)
      && (!AnyFailed(ph.probes) ==> ph.c.current <= Ceiling(c0, step))
      && (!AnyFailed(ph.probes) && passed && ph'.running ==> !AnyFailed(ph'.probes) && ph'.c.current > ph.c.current)
      && (!passed ==> AnyFailed(ph'.probes))
  {
    assert (outcomes + [passed])[..|outcomes|] == outcomes;
    RunKeeps(c0, step, outcomes);
    RunKeeps(c0, step, outcomes + [passed]);
    RunStaysAboveFloor(c0, step, outcomes, safe);
    var ph := Run(c0, step, outcomes);
    AnyFailedAppend(ph.probes, Probe(ph.c.current, passed));
    if passed {
      if AnyFailed(ph.probes) {
        PassedStepAfterFailure(ph.c, step);
      } else {
        PassedStepBeforeFailure(c0, step, ph.c);
      }
    }
  }

  /** A long phase that met a failure stops within one of its steps below the threshold. */
  lemma LongPhaseStopsClose(start: int, d: int, calls: seq<Probe>, tLong: int)
    requires LongTests(start, d, calls) && AnyFailed(calls)
    requires forall p :: p in calls ==> (p.passed <==> p.freq <= tLong)
    ensures tLong - d < calls[|calls| - 1].freq
  {
    var n := |calls|;
    if n > 1 {
      assert calls[n - 2] in calls;
      assert d * (n - 1) == d * (n - 2) + d;
    }
  }

  function LongStep(step: int, is50Series: bool): int { if is50Series then 2 * step else step }

  /** Both phases in a row on a device with sharp thresholds. The offset settled on
      passes; it is within one long step of the best one if any test failed, and within
      one step of the limit if tests were run and none failed. */
  method RunPhases(controller: StepController, fMinStep: int, is50Series: bool, tShort: int, tLong: int)
    returns (short: seq<Probe>, long: seq<Probe>)
    requires fMinStep > 0 && tLong <= tShort
    modifies controller
    ensures controller.fCurrent <= tLong
    ensures AnyFailed(short) || AnyFailed(long) ==> tLong - LongStep(fMinStep, is50Series) < controller.fCurrent
    ensures short != [] && !AnyFailed(short) && !AnyFailed(long) ==> controller.fCurrent + fMinStep >= controller.fMax
    ensures controller.testProgressNum == 0 && controller.currentStepExp == old(controller.currentStepExp)
    ensures old(controller.testProgressNum) < old(controller.currentStepExp) ==> short != []
  {
    ghost var c0 := controller.View();
    short := controller.RunShortPhase(fMinStep, false, (f, code) => f <= tShort, tShort);
    ghost var outcomes :| var ph := Run(c0, fMinStep, outcomes);
      !ph.running && ph.probes == short && controller.View() == ph.c.(progress := 0);
    RunKeeps(c0, fMinStep, outcomes);
    ghost var start := controller.fCurrent;
    long := controller.RunLongPhase(fMinStep, is50Series, false, (f, code) => f <= tLong, tLong);
    if AnyFailed(short) {
      PhasesFindThreshold(c0, fMinStep, outcomes, long, LongStep(fMinStep, is50Series), tShort, tLong);
    } else if AnyFailed(long) {
      LongPhaseStopsClose(start, LongStep(fMinStep, is50Series), long, tLong);
    }
    assert |long| > 1 ==> !long[0].passed;
    if short == [] { NoTestsMeansConverged(c0, fMinStep, outcomes); }
  }

  /** A phase that has ended without a test was converged when it began. */
  lemma {:induction false} NoTestsMeansConverged(c0: Search, step: int, outcomes: seq<bool>)
    requires var ph := Run(c0, step, outcomes); !ph.running && ph.probes == []
    ensures c0.progress >= c0.exp
  {
    if outcomes != [] { NoTestsMeansConverged(c0, step, outcomes[..|outcomes| - 1]); }
  }
}

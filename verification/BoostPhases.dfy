/** The two phases the scanner runs at each voltage point
    (auto-optimizer/src/oc_scanner/phases.rs).  Unlike the phases of `StepSearch`, the short
    one raises the progress before every test, and a converged start is skipped only in a
    session that resumes.  An unsigned exponent that underflows ends the phase. */
module BoostPhases {
  import opened Arithmetic
  import opened StepSearch

  datatype Status = Running | Ended | Underflow

  /** A short phase in flight: the controller, the tests so far, and where it stands. */
  datatype Flight = Flight(c: Search, probes: seq<Probe>, status: Status)

  function Raised(c: Search): Search { c.(progress := c.progress + 1) }

  function Next(fl: Flight, step: int, passed: bool): Flight {
    if fl.status != Running then fl
    else
      var c, probes := Raised(fl.c), fl.probes + [Probe(fl.c.current, passed)];
      if passed then
        if !CanPass(c, step) then Flight(c, probes, Underflow)
        else
          var (c', more) := Passed(c, step);
          Flight(c', probes, if more then Running else Ended)
      else if !CanFail(c) then Flight(c, probes, Underflow)
      else Flight(Failed(c, step), probes, Running)
  }

  /** The phase after the verdicts `outcomes`; those past its end are ignored. */
  ghost function Fly(c: Search, step: int, outcomes: seq<bool>): Flight
    decreases |outcomes|
  {
    if outcomes == [] then Flight(c, [], Running)
    else Next(Fly(c, step, outcomes[..|outcomes| - 1]), step, outcomes[|outcomes| - 1])
  }

  // ----------------------------------------------------------------- the invariant

  /** No verdicts make this start underflow; UnderflowIff says that this is exact. */
  predicate Startable(c: Search, step: int) {
    c.exp >= 3 && (c.progress <= c.exp || c.current + step >= c.limit)
  }

  /** A start below convergence, or one from which two steps do not fit. */
  predicate Fits(c: Search, step: int) {
    c.progress < c.exp || c.current + 2 * step >= c.limit
  }

  /** Between two tests after a failure: the stride of the last failure, or half of it. */
  ghost predicate Halving(c: Search, step: int) {
    && 1 <= c.progress <= c.exp
    && (c.limit - c.current == Stride(step, c.exp + 1 - c.progress)
        || (c.progress < c.exp && c.limit - c.current == Stride(step, c.exp - c.progress)))
  }

  /** A session that resumes skips a search that starts converged. */
  predicate Skips(c: Search, resuming: bool) { resuming && c.progress >= c.exp }

  /** A search whose end without a failure means that the limit was reached. */
  predicate Searches(c: Search, step: int, resuming: bool) { Fits(c, step) && !Skips(c, resuming) }

  /** An upper bound on every offset tested. */
  ghost function Top(c0: Search, step: int): int
    requires c0.exp >= 1
  {
    var overshoot := c0.limit + Stride(step, c0.exp - 1) - step - 1;
    if c0.current > overshoot then c0.current else overshoot
  }

  ghost predicate BeforeFailure(c0: Search, step: int, fl: Flight)
    requires c0.exp >= 1
  {
    && fl.c.limit == c0.limit && c0.current <= fl.c.current <= Top(c0, step)
    && (fl.probes == [] ==> fl.c == c0 && fl.status == Running)
    && (fl.status == Running && fl.probes != [] ==> fl.c.progress < fl.c.exp)
    && (fl.status == Ended && Fits(c0, step) ==> fl.c.current + step >= fl.c.limit)
  }

  ghost predicate AfterFailure(c0: Search, step: int, fl: Flight)
    requires c0.exp >= 1
  {
    && (exists i :: LastFailed(fl.probes, i) && fl.probes[i].freq == fl.c.limit)
    && fl.c.current < fl.c.limit <= Top(c0, step)
    && (if fl.status == Running then Halving(fl.c, step) else OneStepLeft(fl.c, fl.probes, step))
  }

  ghost predicate Inv(c0: Search, step: int, fl: Flight)
    requires c0.exp >= 1
  {
    && fl.status != Underflow && fl.c.exp == c0.exp
    && (if AnyFailed(fl.probes) then AfterFailure(c0, step, fl) else BeforeFailure(c0, step, fl))
    && (forall i :: 0 <= i < |fl.probes| ==> fl.probes[i].freq <= Top(c0, step))
    && FailuresFall(fl.probes)
  }

  // --------------------------------------------------------------- one more test

  lemma FailureKeeps(c0: Search, step: int, fl: Flight)
    requires step > 0 && Startable(c0, step) && Inv(c0, step, fl) && fl.status == Running
    ensures Inv(c0, step, Next(fl, step, false))
  {
    var fl' := Next(fl, step, false);
    AnyFailedAppend(fl.probes, Probe(fl.c.current, false));
    StrideGrows(step, 0, fl'.c.exp + 1 - fl'.c.progress);
    assert LastFailed(fl'.probes, |fl.probes|);
    FailuresFallOn(fl.probes, fl.c.limit, fl.c.current);
  }

  /** A failure below the limit is below every failure before it. */
  lemma FailuresFallOn(probes: seq<Probe>, limit: int, current: int)
    requires FailuresFall(probes)
    requires AnyFailed(probes) ==>
      current < limit && exists i :: LastFailed(probes, i) && probes[i].freq == limit
    ensures FailuresFall(probes + [Probe(current, false)])
  {
    var longer := probes + [Probe(current, false)];
    forall i | 0 <= i < |probes| && !longer[i].passed ensures current < longer[i].freq {
      assert !probes[i].passed;
      var k :| LastFailed(probes, k) && probes[k].freq == limit;
      assert i == k || probes[k].freq < probes[i].freq;
    }
  }

  lemma PassAfterFailure(c: Search, step: int)
    requires step > 0 && Halving(c, step)
    ensures CanPass(Raised(c), step)
    ensures var (c', more) := Passed(Raised(c), step);
      && c'.exp == c.exp && c'.limit == c.limit
      && 2 * (c'.limit - c'.current) == c.limit - c.current
      && (if more then Halving(c', step)
          else c'.limit - c'.current == step && c.current == c.limit - 2 * step)
  {
    StrideGrows(step, 0, c.exp - c.progress);
    if c.progress < c.exp { StrideGrows(step, 0, c.exp - c.progress - 1); }
  }

  lemma PassBeforeFailure(c0: Search, step: int, c: Search)
    requires step > 0 && Startable(c0, step) && c.exp == c0.exp && c.limit == c0.limit
    requires c0.current <= c.current <= Top(c0, step)
    requires c == c0 || c.progress < c.exp
    ensures CanPass(Raised(c), step)
    ensures var (c', more) := Passed(Raised(c), step);
      && c'.exp == c0.exp && c'.limit == c0.limit && c.current <= c'.current <= Top(c0, step)
      && (more ==> c'.progress < c'.exp && c'.current > c.current)
      && (!more && Fits(c0, step) ==> c'.current + step >= c'.limit)
  {
    if c.progress < c.exp {
      StrideGrows(step, c.exp - c.progress - 1, c.exp - 1);
      StrideGrows(step, 0, c.exp - c.progress - 1);
      if c.progress + 1 < c.exp { StrideGrows(step, 0, c.exp - c.progress - 2); }
    }
    StrideGrows(step, 0, c0.exp - 1);
  }

  lemma PassKeeps(c0: Search, step: int, fl: Flight)
    requires step > 0 && Startable(c0, step) && Inv(c0, step, fl) && fl.status == Running
    ensures Inv(c0, step, Next(fl, step, true))
  {
    var fl' := Next(fl, step, true);
    AnyFailedAppend(fl.probes, Probe(fl.c.current, true));
    if AnyFailed(fl.probes) {
      PassAfterFailure(fl.c, step);
      StrideGrows(step, 0, fl'.c.exp + 1 - fl.c.progress);
      var k :| LastFailed(fl.probes, k) && fl.probes[k].freq == fl.c.limit;
      assert LastFailed(fl'.probes, k);
    } else {
      PassBeforeFailure(c0, step, fl.c);
    }
  }

  /** Every run of the phase, against any device, keeps the invariant. */
  lemma {:induction false} FlyKeeps(c0: Search, step: int, outcomes: seq<bool>)
    requires step > 0 && Startable(c0, step)
    ensures Inv(c0, step, Fly(c0, step, outcomes))
    decreases |outcomes|
  {
    if outcomes != [] {
      var before := outcomes[..|outcomes| - 1];
      FlyKeeps(c0, step, before);
      var fl := Fly(c0, step, before);
      if fl.status == Running {
        if outcomes[|outcomes| - 1] { PassKeeps(c0, step, fl); } else { FailureKeeps(c0, step, fl); }
      }
    }
  }

  // ------------------------------------------------------------------ main results

  /** Some verdicts make an exponent underflow. */
  ghost predicate MayUnderflow(c0: Search, step: int) {
    exists outcomes :: Fly(c0, step, outcomes).status == Underflow
  }

  /** Some verdicts make an exponent underflow if and only if the step exponent is below
      three, or the start is past convergence with a step still to go. */
  lemma UnderflowIff(c0: Search, step: int)
    requires step > 0
    ensures MayUnderflow(c0, step) <==> !Startable(c0, step)
  {
    if Startable(c0, step) {
      forall outcomes ensures Fly(c0, step, outcomes).status != Underflow { FlyKeeps(c0, step, outcomes); }
    } else if c0.exp < 3 {
      ThreeFailures(c0, step);
    } else {
      assert [true][..0] == [];
      assert Fly(c0, step, []) == Flight(c0, [], Running);
      assert Fly(c0, step, [true]).status == Underflow;
    }
  }

  /** With an exponent below three, three failures in a row are enough. */
  lemma ThreeFailures(c0: Search, step: int)
    requires c0.exp < 3
    ensures Fly(c0, step, [false, false, false]).status == Underflow
  {
    assert [false][..0] == [];
    assert [false, false][..1] == [false];
    assert [false, false, false][..2] == [false, false];
    var f0, f1 := Fly(c0, step, []), Fly(c0, step, [false]);
    var f2 := Fly(c0, step, [false, false]);
    assert f0 == Flight(c0, [], Running);
    assert f1 == Next(f0, step, false);
    assert f2 == Next(f1, step, false);
  }

  /** A fresh controller may underflow exactly for a small exponent, or when two steps do
      not fit below the limit: then the start-up loop has raised the progress too far. */
  lemma NewStartUnderflowsIff(current: int, step: int, exp: nat, limit: int)
    requires step > 0 && current + step < limit
    ensures var c0 := Search(exp, FirstFit(current, step, exp + 1, limit, 0), current, limit);
      MayUnderflow(c0, step) <==> exp < 3 || current + 2 * step >= limit
  {
    var c0 := Search(exp, FirstFit(current, step, exp + 1, limit, 0), current, limit);
    UnderflowIff(c0, step);
    FirstFitIsLeast(current, step, exp + 1, limit, 0);
    assert Stride(step, 1) == 2 * step;
    if current + 2 * step < limit { assert StrideFits(current, step, exp + 1, limit, exp); }
    if c0.progress <= exp { StrideGrows(step, 1, exp + 1 - c0.progress); }
  }

  /** A resumed controller that has not converged never underflows with an exponent of at
      least three, and neither does a search that starts from zero progress. */
  lemma ResumedStartIsStartable(success: int, failed: int, elastic: int, step: int, exp: nat)
    requires step > 0 && success - elastic + step < ResumeLimit(success, failed, elastic)
    ensures var c := Resumed(success, failed, elastic, step, exp);
      (c.progress < exp ==> (Startable(c, step) <==> exp >= 3))
      && (c.progress == exp && exp > 0 ==> Fits(c, step))
  {
    var limit := ResumeLimit(success, failed, elastic);
    FirstFitIsLeast(success - elastic, step, exp, limit, 0);
    if success < failed - step && FirstFit(success - elastic, step, exp, limit, 0) == exp && exp > 0 {
      assert !StrideFits(success - elastic, step, exp, limit, exp - 1);
      assert Stride(step, 1) == 2 * step;
    }
  }

  /** The gap when the phase has ended after a failure, the passed test two steps below the
      limit, and the last failure as the limit; without a failure, how far it came. */
  lemma FlightCloses(c0: Search, step: int, outcomes: seq<bool>)
    requires step > 0 && Startable(c0, step)
    ensures var fl := Fly(c0, step, outcomes);
      && (fl.status == Ended && AnyFailed(fl.probes) ==>
            && fl.c.limit - fl.c.current == step
            && Probe(fl.c.limit - 2 * step, true) in fl.probes
            && exists i :: LastFailed(fl.probes, i) && fl.probes[i].freq == fl.c.limit)
      && (fl.status == Ended && !AnyFailed(fl.probes) && Fits(c0, step) ==>
            fl.c.limit == c0.limit && fl.c.limit - fl.c.current <= step)
  {
    FlyKeeps(c0, step, outcomes);
  }

  /** While the phase runs after a failure the gap is a power-of-two multiple of the step. */
  lemma FlightGapIsPowerOfTwo(c0: Search, step: int, outcomes: seq<bool>) returns (k: nat)
    requires step > 0 && Startable(c0, step)
    requires var fl := Fly(c0, step, outcomes); fl.status == Running && AnyFailed(fl.probes)
    ensures var fl := Fly(c0, step, outcomes);
      1 <= k <= c0.exp && fl.c.limit - fl.c.current == step * Pow2(k)
  {
    FlyKeeps(c0, step, outcomes);
    var c := Fly(c0, step, outcomes).c;
    k := if c.limit - c.current == Stride(step, c.exp + 1 - c.progress) then c.exp + 1 - c.progress
         else c.exp - c.progress;
    StrideIsPower(step, k);
  }

  // ---------------------------------------------------------- the strides of a search

  /** While tests pass and there is room, the search climbs in equal strides: raising the progress
      before a test and lowering it after undo each other. */
  lemma {:induction false} PassesClimbEvenly(c0: Search, step: int, n: nat)
    requires step > 0 && c0.progress < c0.exp && c0.current + n * (step * Pow2(c0.exp - c0.progress)) < c0.limit
    ensures var fl := Fly(c0, step, seq(n, _ => true));
      fl.status == Running && fl.c == c0.(current := c0.current + n * (step * Pow2(c0.exp - c0.progress)))
  {
    var d := step * Pow2(c0.exp - c0.progress);
    StrideIsPower(step, c0.exp - c0.progress);
    StrideGrows(step, 0, c0.exp - c0.progress);
    if n > 0 {
      assert n * d == (n - 1) * d + d;
      PassesClimbEvenly(c0, step, n - 1);
      assert seq(n, _ => true)[..n - 1] == seq(n - 1, _ => true);
    }
  }

  /** The stride a failure takes is a power of two for the progress it is met with, from the third
      failure in a row on always the same one. */
  lemma {:induction false} FailuresFallInStrides(c0: Search, step: int, n: nat)
    requires c0.exp >= 3
    ensures var fl := Fly(c0, step, seq(n, _ => false));
      && fl.status == Running && |fl.probes| == n && fl.c.exp == c0.exp
      && fl.c.progress == (if n == 0 then c0.progress else Min(c0.progress + n, 3))
      && (n > 0 ==>
            && fl.c.limit == fl.probes[n - 1].freq
            && fl.c.current == fl.probes[n - 1].freq - step * Pow2(c0.exp + 1 - Min(c0.progress + n, 3)))
      && (forall i :: 1 <= i < n ==>
            fl.probes[i].freq == fl.probes[i - 1].freq - step * Pow2(c0.exp + 1 - Min(c0.progress + i, 3)))
  {
    if n > 0 {
      FailuresFallInStrides(c0, step, n - 1);
      assert seq(n, _ => false)[..n - 1] == seq(n - 1, _ => false);
      StrideIsPower(step, c0.exp + 1 - Min(c0.progress + n, 3));
    }
  }

  /** Whether a resuming session skips the short phase of its first point: exactly when at most one
      step was left between success and failure, or two do not fit between the backed-off
      success and the limit. */
  lemma ResumedSkipsIff(success: int, failed: int, elastic: int, step: int, exp: nat)
    requires success - elastic + step < ResumeLimit(success, failed, elastic) && step > 0 && exp > 0
    ensures Skips(Resumed(success, failed, elastic, step, exp), true) <==>
      failed - success <= step || success - elastic + 2 * step >= ResumeLimit(success, failed, elastic)
  {
    StrideLeftIff(success - elastic, step, exp, ResumeLimit(success, failed, elastic), 1);
  }

  /** The same for a fresh controller: exactly when four steps do not fit. */
  lemma NewSkipsIff(current: int, step: int, exp: nat, limit: int)
    requires current + step < limit && step > 0 && exp > 0
    ensures Skips(Search(exp, FirstFit(current, step, exp + 1, limit, 0), current, limit), true) <==>
      current + 4 * step >= limit
  {
    StrideLeftIff(current, step, exp + 1, limit, 2);
  }

  /** The start-up loop leaves an exponent of at least `k` if and only if that stride fits. */
  lemma StrideLeftIff(current: int, step: int, top: nat, limit: int, k: nat)
    requires step > 0 && current + step < limit && k <= top
    ensures top - FirstFit(current, step, top, limit, 0) >= k <==> current + Stride(step, k) < limit
    ensures Stride(step, 1) == 2 * step && Stride(step, 2) == 4 * step
  {
    FirstFitIsLeast(current, step, top, limit, 0);
    var p := FirstFit(current, step, top, limit, 0);
    assert Stride(step, 1) == 2 * step;
    if top - p >= k { StrideGrows(step, k, top - p); } else { assert !StrideFits(current, step, top, limit, top - k); }
  }

  // ------------------------------------------------------------------- termination

  ghost function Bottom(c0: Search, step: int, safe: int): int {
    var deepest := safe + 1 - Stride(step, c0.exp);
    if c0.current < deepest then c0.current else deepest
  }

  /** No test goes below the start or one full stride below the safe offsets, and none above
      the limit by more than half a stride. */
  lemma {:induction false} TestsStayWithin(c0: Search, step: int, outcomes: seq<bool>, safe: int)
    requires step > 0 && Startable(c0, step)
    requires SafeUpTo(Fly(c0, step, outcomes).probes, safe)
    ensures var fl := Fly(c0, step, outcomes);
      && Bottom(c0, step, safe) <= fl.c.current <= Top(c0, step)
      && (forall i :: 0 <= i < |fl.probes| ==> Bottom(c0, step, safe) <= fl.probes[i].freq <= Top(c0, step))
      && (AnyFailed(fl.probes) ==> safe < fl.c.limit)
    decreases |outcomes|
  {
    FlyKeeps(c0, step, outcomes);
    if outcomes != [] {
      var before, passed := outcomes[..|outcomes| - 1], outcomes[|outcomes| - 1];
      var fl, fl' := Fly(c0, step, before), Fly(c0, step, outcomes);
      assert fl.probes <= fl'.probes;
      assert forall i :: 0 <= i < |fl.probes| ==> fl.probes[i] == fl'.probes[i];
      TestsStayWithin(c0, step, before, safe);
      FlyKeeps(c0, step, before);
      if fl.status == Running {
        assert fl'.probes[|fl.probes|] == Probe(fl.c.current, passed);
        AnyFailedAppend(fl.probes, Probe(fl.c.current, passed));
        TestMoves(c0, step, fl, passed);
      }
    }
  }

  /** A passed test keeps the limit and goes up; a failed one is the limit from then on, and
      the next test is at most one full stride below it. */
  lemma TestMoves(c0: Search, step: int, fl: Flight, passed: bool)
    requires step > 0 && Startable(c0, step) && Inv(c0, step, fl) && fl.status == Running
    ensures var fl' := Next(fl, step, passed);
      && (passed ==> fl'.c.limit == fl.c.limit && fl'.c.current >= fl.c.current)
      && (passed && fl'.status == Running ==> fl'.c.current > fl.c.current)
      && (!passed ==> fl'.c.limit == fl.c.current && fl'.c.current >= fl.c.current - Stride(step, c0.exp))
  {
    if !passed {
      StrideGrows(step, c0.exp + 1 - Next(fl, step, false).c.progress, c0.exp);
    } else if AnyFailed(fl.probes) {
      PassAfterFailure(fl.c, step);
    } else {
      PassBeforeFailure(c0, step, fl.c);
    }
  }

  /** One more test brings the phase nearer to its end. */
  lemma TestShrinks(c0: Search, step: int, outcomes: seq<bool>, passed: bool, safe: int)
    requires step > 0 && Startable(c0, step)
    requires var fl := Fly(c0, step, outcomes);
      fl.status == Running && SafeUpTo(fl.probes, safe) && (fl.c.current <= safe ==> passed)
    ensures var fl, fl' := Fly(c0, step, outcomes), Fly(c0, step, outcomes + [passed]);
      && fl' == Next(fl, step, passed) && fl'.status != Underflow
      && fl'.probes == fl.probes + [Probe(fl.c.current, passed)]
      && SafeUpTo(fl'.probes, safe)
      && (AnyFailed(fl'.probes) <==> AnyFailed(fl.probes) || !passed)
      && (AnyFailed(fl.probes) ==> safe < fl.c.limit && fl.c.current < fl.c.limit)
      && (AnyFailed(fl'.probes) ==> safe < fl'.c.limit)
      && (AnyFailed(fl.probes) && !passed ==> fl'.c.limit < fl.c.limit)
      && (passed ==> fl'.c.limit == fl.c.limit && (fl'.status == Running ==> fl'.c.current > fl.c.current))
      && fl.c.current <= Top(c0, step)
  {
    assert (outcomes + [passed])[..|outcomes|] == outcomes;
    FlyKeeps(c0, step, outcomes);
    FlyKeeps(c0, step, outcomes + [passed]);
    TestsStayWithin(c0, step, outcomes, safe);
    var fl := Fly(c0, step, outcomes);
    AnyFailedAppend(fl.probes, Probe(fl.c.current, passed));
    TestMoves(c0, step, fl, passed);
  }

  ghost predicate LandsOn(c0: Search, step: int, device: int -> bool, outcomes: seq<bool>) {
    var fl := Fly(c0, step, outcomes);
    fl.status == Ended && Agrees(fl.probes, device)
  }

  lemma FliesToItsEnd(c0: Search, step: int, device: int -> bool, safe: int, outcomes: seq<bool>)
    returns (all: seq<bool>)
    requires step > 0 && Startable(c0, step) && (forall f :: f <= safe ==> device(f))
    requires Agrees(Fly(c0, step, outcomes).probes, device)
    ensures LandsOn(c0, step, device, all)
    decreases var fl := Fly(c0, step, outcomes); fl.status == Running,
              var fl := Fly(c0, step, outcomes); !AnyFailed(fl.probes),
              var fl := Fly(c0, step, outcomes);
                if AnyFailed(fl.probes) then fl.c.limit - safe else Top(c0, step) - fl.c.current,
              var fl := Fly(c0, step, outcomes); fl.c.limit - fl.c.current
  {
    FlyKeeps(c0, step, outcomes);
    var fl := Fly(c0, step, outcomes);
    all := outcomes;
    if fl.status == Running {
      TestShrinks(c0, step, outcomes, device(fl.c.current), safe);
      all := FliesToItsEnd(c0, step, device, safe, outcomes + [device(fl.c.current)]);
    }
  }

  /** On a device that passes every offset below one it passes, the phase ends if and only
      if the device passes some offset. */
  lemma FlightEndsIff(c0: Search, step: int, device: int -> bool)
    requires step > 0 && Startable(c0, step)
    requires forall f, g :: f <= g && device(g) ==> device(f)
    ensures (exists outcomes :: LandsOn(c0, step, device, outcomes)) <==> exists f :: device(f)
  {
    if outcomes :| LandsOn(c0, step, device, outcomes) {
      LandedMeansPassed(c0, step, outcomes);
      var probes := Fly(c0, step, outcomes).probes;
      assert device(probes[|probes| - 1].freq);
    }
    if safe :| device(safe) {
      assert Fly(c0, step, []) == Flight(c0, [], Running);
      var outcomes := FliesToItsEnd(c0, step, device, safe, []);
    }
  }

  lemma {:induction false} LandedMeansPassed(c0: Search, step: int, outcomes: seq<bool>)
    requires Fly(c0, step, outcomes).status == Ended
    ensures var probes := Fly(c0, step, outcomes).probes; probes != [] && probes[|probes| - 1].passed
  {
    var before := outcomes[..|outcomes| - 1];
    if Fly(c0, step, before).status == Ended { LandedMeansPassed(c0, step, before); }
  }

  // -------------------------------------------------------------------- 32-bit range

  /** The sums a single test forms fit: the one that may end the phase, those of a passed test
      that goes on, and those of a failed one. */
  ghost predicate FlightTestFits(c: Search, step: int)
    requires CanFail(Raised(c)) && CanPass(Raised(c), step)
  {
    && InI32(c.current + step)
    && (c.current + step < c.limit ==> PassSumsFit(c, step))
    && InI32(Stride(step, c.exp + 1 - Failed(Raised(c), step).progress)) && InI32(Failed(Raised(c), step).current)
  }

  ghost predicate PassSumsFit(c: Search, step: int)
    requires c.progress <= c.exp
  {
    var normal := Stride(step, c.exp - c.progress);
    && InI32(normal) && InI32(c.current + normal)
    && (c.progress < c.exp ==> InI32(c.current + Stride(step, c.exp - c.progress - 1)))
  }

  /** Every value a test of a running phase computes fits the source's 32-bit integers when
      the start, the limit and some safe offset lie within `m` and two full strides are left. */
  lemma FlightFitsInI32(c0: Search, step: int, outcomes: seq<bool>, safe: int, m: int)
    requires step > 0 && Startable(c0, step)
    requires -m <= c0.current <= m && -m <= c0.limit <= m && -m <= safe
    requires m + 2 * Stride(step, c0.exp) < 0x7FFF_FFFF
    requires SafeUpTo(Fly(c0, step, outcomes).probes, safe)
    ensures var fl := Fly(c0, step, outcomes);
      && InI32(fl.c.current) && InI32(fl.c.limit)
      && (fl.status == Running ==>
            CanFail(Raised(fl.c)) && CanPass(Raised(fl.c), step) && FlightTestFits(fl.c, step))
  {
    FlightStaysWithin(c0, step, outcomes, safe);
    RangeFits(c0, step, safe, m);
    var fl := Fly(c0, step, outcomes);
    if fl.status == Running {
      FlightTestFitsWithin(fl.c, step, Bottom(c0, step, safe), Top(c0, step));
    }
  }

  /** One full stride is left on either side of where the offsets lie. */
  lemma RangeFits(c0: Search, step: int, safe: int, m: int)
    requires step > 0 && c0.exp >= 3
    requires -m <= c0.current <= m && -m <= c0.limit <= m && -m <= safe
    requires m + 2 * Stride(step, c0.exp) < 0x7FFF_FFFF
    ensures 0 < Stride(step, c0.exp) < 0x8000_0000
    ensures -0x8000_0000 <= Bottom(c0, step, safe) - Stride(step, c0.exp)
    ensures Top(c0, step) + Stride(step, c0.exp) < 0x8000_0000
  {
    StrideGrows(step, c0.exp - 1, c0.exp);
    StrideGrows(step, 0, c0.exp);
  }

  /** Where the fields lie throughout a run. */
  lemma FlightStaysWithin(c0: Search, step: int, outcomes: seq<bool>, safe: int)
    requires step > 0 && Startable(c0, step)
    requires SafeUpTo(Fly(c0, step, outcomes).probes, safe)
    ensures var fl := Fly(c0, step, outcomes);
      && Bottom(c0, step, safe) <= fl.c.current <= Top(c0, step)
      && (fl.c.limit == c0.limit || safe < fl.c.limit <= Top(c0, step))
      && (fl.status == Running ==>
            fl.c.exp == c0.exp && (fl.c.progress <= fl.c.exp || fl.c.current + step >= fl.c.limit))
  {
    FlyKeeps(c0, step, outcomes);
    TestsStayWithin(c0, step, outcomes, safe);
  }

  lemma FlightTestFitsWithin(c: Search, step: int, low: int, high: int)
    requires step > 0 && c.exp >= 3 && low <= c.current <= high
    requires c.progress <= c.exp || c.current + step >= c.limit
    requires -0x8000_0000 <= low - Stride(step, c.exp) && high + Stride(step, c.exp) < 0x8000_0000
    requires Stride(step, c.exp) < 0x8000_0000
    ensures FlightTestFits(c, step)
  {
    StrideGrows(step, 0, c.exp);
    if c.progress <= c.exp { StrideGrows(step, c.exp - c.progress, c.exp); }
    if c.progress < c.exp { StrideGrows(step, c.exp - c.progress - 1, c.exp); }
    StrideGrows(step, c.exp + 1 - Failed(Raised(c), step).progress, c.exp);
  }

  // -------------------------------------------------------------------- the phases

  /** The calls and the final controller are those of a complete run. */
  ghost predicate Flown(c0: Search, step: int, outcomes: seq<bool>, calls: seq<Probe>, c: Search) {
    var fl := Fly(c0, step, outcomes);
    fl.status == Ended && fl.probes == calls && c == fl.c.(progress := 0)
  }

  /** One round of the loop around a test's verdict. */
  method TakeVerdict(controller: StepController, fMinStep: int, passed: bool, ghost fl: Flight) returns (more: bool)
    requires controller.View() == fl.c && fl.status == Running && Next(fl, fMinStep, passed).status != Underflow
    modifies controller
    ensures controller.View() == Next(fl, fMinStep, passed).c
    ensures more <==> Next(fl, fMinStep, passed).status == Running
  {
    controller.testProgressNum := controller.testProgressNum + 1;
    assert controller.View() == Raised(fl.c);
    more := true;
    if passed {
      more := controller.OnTestPassed(fMinStep);
    } else {
      var _ := controller.OnTestFailed(fMinStep);
    }
  }

  /** Each test has the device's verdict under its own number. */
  ghost predicate Judged(calls: seq<Probe>, passes: (int, nat) -> bool) {
    forall i :: 0 <= i < |calls| ==> (calls[i].passed <==> passes(calls[i].freq, i + 1))
  }

  lemma JudgedOn(calls: seq<Probe>, passes: (int, nat) -> bool, freq: int)
    requires Judged(calls, passes)
    ensures Judged(calls + [Probe(freq, passes(freq, |calls| + 1))], passes)
  {
  }

  /** `run_gpuboostv3_short_phase`. `passes(f, code)` is the verdict of test number `code` at
      offset `f`; `safe` witnesses that low offsets pass. A session that resumes skips a
      search that has converged. */
  method RunShortPhase(controller: StepController, fMinStep: int, resuming: bool,
                       passes: (int, nat) -> bool, ghost safe: int)
    returns (calls: seq<Probe>)
    requires fMinStep > 0
    requires Skips(controller.View(), resuming) || Startable(controller.View(), fMinStep)
    requires forall f, code :: f <= safe ==> passes(f, code)
    modifies controller
    ensures forall i :: 0 <= i < |calls| ==> (calls[i].passed <==> passes(calls[i].freq, i + 1))
    ensures old(Skips(controller.View(), resuming)) ==>
      calls == [] && controller.View() == old(controller.View()).(progress := 0)
    ensures !old(Skips(controller.View(), resuming)) ==>
      exists outcomes :: Flown(old(controller.View()), fMinStep, outcomes, calls, controller.View())
  {
    calls := [];
    ghost var c0 := controller.View();
    if resuming && controller.testProgressNum >= controller.currentStepExp {
      controller.testProgressNum := 0;
      return;
    }
    ghost var outcomes: seq<bool> := [];
    ghost var fl := Flight(c0, [], Running);
    assert Fly(c0, fMinStep, outcomes) == fl;
    var more := true;
    while more
      invariant fl == Fly(c0, fMinStep, outcomes) && fl.status == (if more then Running else Ended)
      invariant controller.View() == fl.c && calls == fl.probes && Judged(calls, passes)
      decreases more,
                !AnyFailed(fl.probes),
                if AnyFailed(fl.probes) then fl.c.limit - safe else Top(c0, fMinStep) - fl.c.current,
                fl.c.limit - fl.c.current
    {
      var freq := controller.fCurrent;
      var passed := passes(freq, |calls| + 1);
      TestShrinks(c0, fMinStep, outcomes, passed, safe);
      more := TakeVerdict(controller, fMinStep, passed, fl);
      JudgedOn(calls, passes, freq);
      calls := calls + [Probe(freq, passed)];
      outcomes := outcomes + [passed];
      fl := Next(fl, fMinStep, passed);
    }
    controller.testProgressNum := 0;
    assert Flown(c0, fMinStep, outcomes, calls, controller.View());
  }

  /** `run_gpuboostv3_long_phase`: the endurance loop, its test codes counting on. */
  method RunLongPhase(controller: StepController, fMinStep: int, is50Series: bool, testCode: nat,
                      passes: (int, nat) -> bool, ghost safe: int)
    returns (calls: seq<Probe>)
    requires fMinStep > 0
    requires forall f, code :: f <= safe ==> passes(f, code)
    modifies controller`fCurrent
    ensures LongTests(old(controller.fCurrent), LongStep(fMinStep, is50Series), calls)
    ensures controller.fCurrent == calls[|calls| - 1].freq
    ensures forall i :: 0 <= i < |calls| ==> (calls[i].passed <==> passes(calls[i].freq, testCode + i + 1))
  {
    ghost var d := LongStep(fMinStep, is50Series);
    calls := [];
    var passed := false;
    while !passed
      invariant !passed ==> controller.fCurrent == old(controller.fCurrent) - d * |calls|
      invariant passed ==> calls != [] && controller.fCurrent == calls[|calls| - 1].freq
      invariant forall i :: 0 <= i < |calls| ==>
        && calls[i] == Probe(old(controller.fCurrent) - d * i, passed && i == |calls| - 1)
        && (calls[i].passed <==> passes(calls[i].freq, testCode + i + 1))
      decreases !passed, controller.fCurrent - safe
    {
      passed := passes(controller.fCurrent, testCode + |calls| + 1);
      calls := calls + [Probe(controller.fCurrent, passed)];
      if !passed {
        assert d * |calls| == d * (|calls| - 1) + d;
        var _ := controller.ApplyLongFailureStep(fMinStep, is50Series);
      }
    }
  }

  /** A device's thresholds at one voltage point. */
  datatype Thresholds = Thresholds(short: int, long: int)

  /** What one point of a scan settled on: the tests it made, the offset, whether any test failed
      on the way, and the limit the search ended with. */
  datatype Settled = Settled(tests: seq<Probe>, freq: int, failed: bool, limit: int)

  /** The offset passes; it is within one long step of the best one if any test failed, and
      within one step of the limit if none did. */
  ghost predicate SettledOn(t: Thresholds, s: Settled, step: int, is50Series: bool) {
    && s.freq <= t.long
    && (if s.failed then t.long - LongStep(step, is50Series) < s.freq else s.freq + step >= s.limit)
  }

  /** The point's tests are those of a search from `c0` on this device: a whole short phase, unless
      it is skipped, and then the long phase from where that ended; the limit is the one the
      short phase left. */
  ghost predicate SearchedFrom(c0: Search, step: int, is50Series: bool, resuming: bool, t: Thresholds,
                               s: Settled) {
    exists short, long, c1 :: InPhases(c0, step, is50Series, resuming, t, s, short, long, c1)
  }

  ghost predicate InPhases(c0: Search, step: int, is50Series: bool, resuming: bool, t: Thresholds, s: Settled,
                           short: seq<Probe>, long: seq<Probe>, c1: Search) {
    && (if Skips(c0, resuming) then short == [] && c1 == c0.(progress := 0)
        else exists outcomes :: Flown(c0, step, outcomes, short, c1))
    && LongTests(c1.current, LongStep(step, is50Series), long)
    && (forall p :: p in short ==> (p.passed <==> p.freq <= t.short))
    && (forall p :: p in long ==> (p.passed <==> p.freq <= t.long))
    && s == Settled(short + long, long[|long| - 1].freq, AnyFailed(short + long), c1.limit)
  }

  lemma {:induction false} FirstTestIsStart(c0: Search, step: int, outcomes: seq<bool>)
    ensures var fl := Fly(c0, step, outcomes);
      if fl.probes == [] then fl.status == Running ==> fl.c == c0 else fl.probes[0].freq == c0.current
    decreases |outcomes|
  {
    if outcomes != [] { FirstTestIsStart(c0, step, outcomes[..|outcomes| - 1]); }
  }

  /** A search makes its first test at its start; while nothing fails its limit stays, and it ends
      within one step of it. */
  lemma SearchBegins(c0: Search, step: int, is50Series: bool, resuming: bool, t: Thresholds, s: Settled)
    requires step > 0 && (Skips(c0, resuming) || Startable(c0, step))
    requires SearchedFrom(c0, step, is50Series, resuming, t, s)
    ensures s.tests != [] && s.tests[0].freq == c0.current
    ensures !s.failed ==> s.limit == c0.limit
    ensures !s.failed && Searches(c0, step, resuming) ==> s.freq + step >= c0.limit
  {
    var short, long, c1 :| InPhases(c0, step, is50Series, resuming, t, s, short, long, c1);
    if !Skips(c0, resuming) {
      var outcomes :| Flown(c0, step, outcomes, short, c1);
      FirstTestIsStart(c0, step, outcomes);
      LandedMeansPassed(c0, step, outcomes);
      FlyKeeps(c0, step, outcomes);
      AnyFailedJoin(short, long);
    }
    assert s.tests == short + long;
    if |long| > 1 { assert !s.tests[|short|].passed; }
    assert LongStep(step, is50Series) * 0 == 0;
  }

  lemma AnyFailedJoin(a: seq<Probe>, b: seq<Probe>)
    ensures AnyFailed(a + b) <==> AnyFailed(a) || AnyFailed(b)
  {
    if i :| 0 <= i < |a| && !a[i].passed { assert !(a + b)[i].passed; }
    if i :| 0 <= i < |b| && !b[i].passed { assert !(a + b)[|a| + i].passed; }
  }

  /** The two phases settle as they should. */
  lemma PhasesSettle(c0: Search, step: int, is50Series: bool, resuming: bool, t: Thresholds, s: Settled,
                     short: seq<Probe>, long: seq<Probe>, c1: Search)
    requires step > 0 && t.long <= t.short && (Skips(c0, resuming) || Startable(c0, step))
    requires InPhases(c0, step, is50Series, resuming, t, s, short, long, c1)
    ensures s.freq <= t.long && c1.progress == 0 && c1.exp == c0.exp
    ensures s.failed || Searches(c0, step, resuming) ==> SettledOn(t, s, step, is50Series)
  {
    var d := LongStep(step, is50Series);
    AnyFailedJoin(short, long);
    assert long[|long| - 1] in long;
    if !Skips(c0, resuming) {
      var outcomes :| Flown(c0, step, outcomes, short, c1);
      FlyKeeps(c0, step, outcomes);
      FlightCloses(c0, step, outcomes);
      if AnyFailed(short) { LongPhaseFindsThreshold(c1.current, c1.limit, step, d, long, t.short, t.long); }
    }
    if AnyFailed(long) { LongPhaseStopsClose(c1.current, d, long, t.long); }
    assert |long| > 1 ==> !long[0].passed;
  }

  /** The two phases at one point, on a device with sharp thresholds. */
  method SettlePoint(controller: StepController, fMinStep: int, is50Series: bool, resuming: bool, t: Thresholds)
    returns (settled: Settled)
    requires fMinStep > 0 && t.long <= t.short
    requires Skips(controller.View(), resuming) || Startable(controller.View(), fMinStep)
    modifies controller
    ensures settled.freq == controller.fCurrent && settled.limit == controller.fMax
    ensures controller.testProgressNum == 0 && controller.currentStepExp == old(controller.currentStepExp)
    ensures settled.freq <= t.long
    ensures settled.failed || old(Searches(controller.View(), fMinStep, resuming)) ==>
      SettledOn(t, settled, fMinStep, is50Series)
    ensures SearchedFrom(old(controller.View()), fMinStep, is50Series, resuming, t, settled)
  {
    ghost var c0 := controller.View();
    var short := RunShortPhase(controller, fMinStep, resuming, (f, code) => f <= t.short, t.short);
    ghost var c1 := controller.View();
    var long := RunLongPhase(controller, fMinStep, is50Series, |short|, (f, code) => f <= t.long, t.long);
    settled := Settled(short + long, controller.fCurrent, AnyFailed(short + long), controller.fMax);
    PhasesSettle(c0, fMinStep, is50Series, resuming, t, settled, short, long, c1);
    assert InPhases(c0, fMinStep, is50Series, resuming, t, settled, short, long, c1);
  }

  /** Where the search at point `i` starts: the given controller, then always the result before
      less the elastic margin, with the limit before widened by it. */
  ghost function StartOf(c0: Search, elastic: int, settled: seq<Settled>, i: nat): Search
    requires i <= |settled|
  {
    if i == 0 then c0 else Search(c0.exp, 0, settled[i - 1].freq - elastic, settled[i - 1].limit + elastic)
  }

  /** Point `i` of the loop: its search starts where it should, it settles as it should, and a
      point after the first makes its first test one elastic margin below the result before and,
      unless a test fails, ends under the limit before widened by that margin, within one step. */
  ghost predicate LoopOk(c0: Search, step: int, elastic: int, is50Series: bool, resuming: bool,
                         points: seq<Thresholds>, settled: seq<Settled>, i: nat)
    requires i < |settled| && i < |points|
  {
    var s := settled[i];
    && s.freq <= points[i].long
    && (i > 0 || s.failed || Searches(c0, step, resuming) ==> SettledOn(points[i], s, step, is50Series))
    && SearchedFrom(StartOf(c0, elastic, settled, i), step, is50Series, resuming && i == 0, points[i], s)
    && (i > 0 ==>
          && s.tests != [] && s.tests[0].freq == settled[i - 1].freq - elastic
          && (!s.failed ==>
                s.limit == settled[i - 1].limit + elastic && s.freq + step >= settled[i - 1].limit + elastic))
  }

  lemma LoopGrows(c0: Search, step: int, elastic: int, is50Series: bool, resuming: bool,
                  points: seq<Thresholds>, settled: seq<Settled>, s: Settled)
    requires |settled| < |points| && step > 0
    requires forall i: nat :: i < |settled| ==> LoopOk(c0, step, elastic, is50Series, resuming, points, settled, i)
    requires var start, resumes := StartOf(c0, elastic, settled, |settled|), resuming && settled == [];
      && (Skips(start, resumes) || Startable(start, step))
      && s.freq <= points[|settled|].long
      && (s.failed || Searches(start, step, resumes) ==> SettledOn(points[|settled|], s, step, is50Series))
      && SearchedFrom(start, step, is50Series, resumes, points[|settled|], s)
    requires settled == [] || c0.exp >= 1
    ensures forall i: nat :: i <= |settled| ==>
      LoopOk(c0, step, elastic, is50Series, resuming, points, settled + [s], i)
  {
    var longer, n := settled + [s], |settled|;
    var start := StartOf(c0, elastic, settled, n);
    SearchBegins(start, step, is50Series, resuming && n == 0, points[n], s);
    assert StartOf(c0, elastic, longer, n) == start && longer[n] == s;
    forall i: nat | i < n ensures LoopOk(c0, step, elastic, is50Series, resuming, points, longer, i) {
      assert LoopOk(c0, step, elastic, is50Series, resuming, points, settled, i);
      assert StartOf(c0, elastic, longer, i) == StartOf(c0, elastic, settled, i) && longer[i] == settled[i];
    }
  }

  /** The point loop: settle on an offset, widen both ends by the elastic margin, and go on
      to the next point. Only the first search may start converged. */
  method SettlePoints(controller: StepController, fMinStep: int, fElastic: int, is50Series: bool, resuming: bool,
                      points: seq<Thresholds>)
    returns (settled: seq<Settled>)
    requires fMinStep > 0 && controller.currentStepExp >= 3
    requires Skips(controller.View(), resuming) || Startable(controller.View(), fMinStep)
    requires forall i :: 0 <= i < |points| ==> points[i].long <= points[i].short
    modifies controller
    ensures |settled| == |points|
    ensures forall i: nat :: i < |points| ==>
      LoopOk(old(controller.View()), fMinStep, fElastic, is50Series, resuming, points, settled, i)
  {
    settled := [];
    ghost var c0 := controller.View();
    for i := 0 to |points|
      invariant |settled| == i && controller.View() == StartOf(c0, fElastic, settled, i)
      invariant forall j: nat :: j < i ==> LoopOk(c0, fMinStep, fElastic, is50Series, resuming, points, settled, j)
    {
      var s := SettlePoint(controller, fMinStep, is50Series, resuming && i == 0, points[i]);
      LoopGrows(c0, fMinStep, fElastic, is50Series, resuming, points, settled, s);
      settled := settled + [s];
      controller.fCurrent := controller.fCurrent - fElastic;
      controller.fMax := controller.fMax + fElastic;
    }
  }
}

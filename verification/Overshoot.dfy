/** Two runs of the scan on a device that passes every test, after which a session cannot begin
    as it should: its widened limit lets a point pass above the default limit, and a crash
    then leaves that success in the log (auto-optimizer/src/oc_scanner.rs). */
module Overshoot {
  import opened Options
  import opened Resume
  import opened ScanLogFile
  import opened TornLog
  import opened StepSearch
  import BoostPhases
  import Scanner
  import TornScan

  /** Passed tests of a point at these offsets, their codes counting on from `code`. */
  function TestsOf(point: nat, phase: TestPhase, code: nat, deltas: seq<int>): seq<Event> {
    if deltas == [] then []
    else
      var last := |deltas| - 1;
      TestsOf(point, phase, code, deltas[..last])
      + [TestResult(Core, phase, code + last, point, deltas[last], Some(0))]
  }

  lemma {:induction false} TestsOfAre(point: nat, phase: TestPhase, code: nat, deltas: seq<int>)
    ensures var es := TestsOf(point, phase, code, deltas);
      && |es| == |deltas|
      && forall i :: 0 <= i < |es| ==> es[i] == TestResult(Core, phase, code + i, point, deltas[i], Some(0))
  {
    if deltas != [] { TestsOfAre(point, phase, code, deltas[..|deltas| - 1]); }
  }

  /** What a point logs that passes all its tests. */
  function PointOf(point: nat, short: seq<int>, long: int): seq<Event> {
    TestsOf(point, Short, 1, short) + TestsOf(point, Long, |short| + 1, [long]) + [PointFinished(Core, point)]
  }

  // ------------------------------------------------------------ what the log then says

  /** Nothing failed and nothing was completed. */
  ghost predicate OnlyPasses(log: seq<Event>) {
    forall i: nat :: i < |log| ==> IsPass(log, i)
  }

  ghost predicate IsPass(log: seq<Event>, i: nat)
    requires i < |log|
  {
    !log[i].ScanCompleted? && (log[i].TestResult? ==> log[i].domain == Core && log[i].resultCode == Some(0))
  }

  /** The last test of the log. */
  ghost predicate LastTest(log: seq<Event>, j: nat) {
    j < |log| && log[j].TestResult? && forall i :: j < i < |log| ==> !log[i].TestResult?
  }

  lemma PassesJoin(a: seq<Event>, b: seq<Event>)
    requires OnlyPasses(a) && OnlyPasses(b)
    ensures OnlyPasses(a + b)
  {
    forall i: nat | i < |a + b| ensures IsPass(a + b, i) {
      assert if i < |a| then IsPass(a, i) else IsPass(b, i - |a|);
    }
  }

  lemma TestsPass(point: nat, phase: TestPhase, code: nat, deltas: seq<int>)
    ensures OnlyPasses(TestsOf(point, phase, code, deltas))
  {
    TestsOfAre(point, phase, code, deltas);
    var es := TestsOf(point, phase, code, deltas);
    assert forall i: nat :: i < |es| ==> IsPass(es, i);
  }

  lemma PointPasses(point: nat, short: seq<int>, long: int)
    ensures OnlyPasses(PointOf(point, short, long))
  {
    TestsPass(point, Short, 1, short);
    TestsPass(point, Long, |short| + 1, [long]);
    var tests, last := TestsOf(point, Short, 1, short), TestsOf(point, Long, |short| + 1, [long]);
    assert IsPass([PointFinished(Core, point)], 0);
    PassesJoin(tests, last);
    PassesJoin(tests + last, [PointFinished(Core, point)]);
  }

  /** The reading of such a log: the last test is the success, and there is no failure. */
  lemma ReadsLastPass(log: seq<Event>, j: nat, testingStep: nat, elastic: int, minStep: int)
    requires OnlyPasses(log) && SessionStart(log) <= j && LastTest(log, j)
    ensures var r := Reading(log, testingStep, elastic, minStep);
      && r.success == Some(log[j].delta - (if FinishedLast(log) then elastic else 0)) && r.failed == None
      && (SessionStart(log) == 0 ==> r.ultrafast == None)
  {
    LastSuccessIs(log, j);
    NoFailureIn(log);
    NeverClosed(log, testingStep);
    ReadingFrom(log, j, testingStep, elastic, minStep);
  }

  lemma ReadingFrom(log: seq<Event>, j: nat, testingStep: nat, elastic: int, minStep: int)
    requires j < |log| && log[j].TestResult? && !Closed(log, testingStep)
    requires Last(SessionStart(log), |log|, SuccessTest(log)) == Some(j)
    requires Last(SessionStart(log), |log|, FailureTest(log)) == None
    ensures var r := Reading(log, testingStep, elastic, minStep);
      && r.success == Some(log[j].delta - (if FinishedLast(log) then elastic else 0)) && r.failed == None
      && (SessionStart(log) == 0 ==> r.ultrafast == None)
  {
  }

  lemma LastSuccessIs(log: seq<Event>, j: nat)
    requires OnlyPasses(log) && SessionStart(log) <= j && LastTest(log, j)
    ensures Last(SessionStart(log), |log|, SuccessTest(log)) == Some(j)
  {
    assert IsPass(log, j) && SuccessAt(log, j);
    forall i: nat | j < i < |log| ensures !SuccessTest(log)(i) {
      assert !log[i].TestResult?;
    }
    LastIsUnique(SessionStart(log), |log|, SuccessTest(log), Some(j));
  }

  lemma NoFailureIn(log: seq<Event>)
    requires OnlyPasses(log)
    ensures Last(SessionStart(log), |log|, FailureTest(log)) == None
  {
    forall i: nat | i < |log| ensures !FailureTest(log)(i) {
      assert IsPass(log, i);
    }
    LastIsUnique(SessionStart(log), |log|, FailureTest(log), None);
  }

  lemma NeverClosed(log: seq<Event>, testingStep: nat)
    requires OnlyPasses(log)
    ensures !Closed(log, testingStep)
  {
    forall k: nat ensures !ClosedAt(log, k, testingStep) {
      assert k < |log| ==> IsPass(log, k);
    }
  }

  // ------------------------------------------------------------------ what is searched

  function PassedAt(deltas: seq<int>): (ps: seq<Probe>)
    ensures |ps| == |deltas|
  {
    seq(|deltas|, i requires 0 <= i < |deltas| => Probe(deltas[i], true))
  }

  function Trues(n: nat): seq<bool> { seq(n, _ => true) }

  /** The controller passes tests at exactly these offsets and then stands at `c`. */
  ghost predicate Climbs(c0: Search, step: int, deltas: seq<int>, c: Search, status: BoostPhases.Status) {
    BoostPhases.Fly(c0, step, Trues(|deltas|)) == BoostPhases.Flight(c, PassedAt(deltas), status)
  }

  lemma ClimbsFromHere(c0: Search, step: int)
    ensures Climbs(c0, step, [], c0, BoostPhases.Running)
  {
    assert Trues(0) == [] && PassedAt([]) == [];
  }

  lemma ClimbsOn(c0: Search, step: int, deltas: seq<int>, c: Search)
    requires Climbs(c0, step, deltas, c, BoostPhases.Running) && BoostPhases.Raised(c).progress <= c.exp + 1
    ensures var (c', more) := Passed(BoostPhases.Raised(c), step);
      Climbs(c0, step, deltas + [c.current], c', if more then BoostPhases.Running else BoostPhases.Ended)
  {
    var n := |deltas|;
    assert Trues(n + 1)[..n] == Trues(n);
    assert PassedAt(deltas) + [Probe(c.current, true)] == PassedAt(deltas + [c.current]);
  }

  // --------------------------------------------- a run that no controller can be made from

  const CONFIG := Scanner.Config(40, 60, 3, 30000, 15000)
  const LIMITS := Scanner.Limits(90000, 300000, 30000, 15000, 3)

  const FIRST := [60000, 180000, 240000, 270000]
  const SECOND := [255000, 315000]

  /** The log of a whole first point, and of a second one that dies after two tests. */
  function DeadEndLog(): seq<Event> {
    [VoltageRange(40, 60), ScanMode(NormalMode)] + PointOf(43, FIRST, 285000) + TestsOf(46, Short, 1, SECOND)
  }

  /** What the first search does from the default start. */
  lemma FirstClimb()
    ensures Climbs(Resumed(90000, 300000, 30000, 15000, 3), 15000, FIRST,
                   Search(3, 3, 285000, 300000), BoostPhases.Ended)
  {
    var c0 := Resumed(90000, 300000, 30000, 15000, 3);
    assert c0 == Search(3, 0, 60000, 300000);
    ClimbsFromHere(c0, 15000);
    ClimbsOn(c0, 15000, [], c0);
    ClimbsOn(c0, 15000, [60000], Search(3, 0, 180000, 300000));
    ClimbsOn(c0, 15000, [60000, 180000], Search(3, 1, 240000, 300000));
    ClimbsOn(c0, 15000, [60000, 180000, 240000], Search(3, 2, 270000, 300000));
  }

  /** What the second one does from the first result, both ends widened. */
  lemma SecondClimb()
    ensures Climbs(Search(3, 0, 285000 - 30000, 300000 + 30000), 15000, SECOND,
                   Search(3, 2, 315000, 330000), BoostPhases.Ended)
  {
    var c0 := Search(3, 0, 255000, 330000);
    ClimbsFromHere(c0, 15000);
    ClimbsOn(c0, 15000, [], c0);
    ClimbsOn(c0, 15000, [255000], Search(3, 1, 315000, 330000));
  }

  /** A run goes on by tests that pass. */
  lemma {:induction false} RunTests(c: Scanner.Config, states: seq<Scanner.State>, log: seq<Event>, point: nat,
                                    phase: TestPhase, code: nat, deltas: seq<int>)
    returns (longer: seq<Scanner.State>)
    requires Scanner.IsRun(c, states) && states[|states| - 1] == Scanner.Up(log, point, false, Scanner.Testing)
    ensures Scanner.IsRun(c, longer)
    ensures longer[|longer| - 1] == Scanner.Up(log + TestsOf(point, phase, code, deltas), point, false, Scanner.Testing)
  {
    longer := states;
    if deltas == [] {
      assert log + [] == log;
    } else {
      var last := |deltas| - 1;
      var before := log + TestsOf(point, phase, code, deltas[..last]);
      var pending := TestResult(Core, phase, code + last, point, deltas[last], None);
      var passed := pending.(resultCode := Some(0));
      longer := RunTests(c, states, log, point, phase, code, deltas[..last]);
      longer := Scanner.RunOn(c, longer, Scanner.BeginTest(phase, code + last, deltas[last]),
                              Scanner.Up(before + [pending], point, false, Scanner.Pending));
      assert (before + [pending])[|before| := passed] == before + [passed];
      longer := Scanner.RunOn(c, longer, Scanner.EndTest(0),
                              Scanner.Up(before + [passed], point, false, Scanner.Testing));
      assert log + TestsOf(point, phase, code, deltas) == before + [passed];
    }
  }

  /** A log with nothing but a voltage range starts a session at the lowest point. */
  lemma FreshStart(c: Scanner.Config, range: Event)
    requires range.VoltageRange? && c.lower > 0
    ensures Scanner.Next(c, Scanner.Down([range]), Scanner.Start(false))
         == Some(Scanner.Up([range, ScanMode(NormalMode)], c.lower, false, Scanner.Top))
  {
    var log := [range];
    RangeReads(range, c.step, c.elastic, c.minStep);
    assert log[0].VoltageRange?;
    assert log + [ScanMode(NormalMode)] == [range, ScanMode(NormalMode)];
  }

  lemma RangeReads(range: Event, testingStep: nat, elastic: int, minStep: int)
    requires range.VoltageRange?
    ensures var r := Reading([range], testingStep, elastic, minStep); r.point.None? && r.ultrafast.None?
  {
    SessionStartIs([range], 0);
    assert [range][..0] == [];
    assert Scanner.RoundStart([range]) == 0;
    Scanner.NoDataNoPoint([range], testingStep, elastic, minStep);
  }

  /** A whole point, from the head of the loop back to it. */
  lemma RunPoint(c: Scanner.Config, states: seq<Scanner.State>, log: seq<Event>, from: nat, short: seq<int>, long: int)
    returns (longer: seq<Scanner.State>)
    requires Scanner.IsRun(c, states) && states[|states| - 1] == Scanner.Up(log, from, false, Scanner.Top)
    requires from + c.step <= c.upper
    ensures Scanner.IsRun(c, longer)
    ensures longer[|longer| - 1]
         == Scanner.Up(log + PointOf(from + c.step, short, long), from + c.step, false, Scanner.Top)
  {
    var p := from + c.step;
    var tests, all := TestsOf(p, Short, 1, short), TestsOf(p, Long, |short| + 1, [long]);
    longer := Scanner.RunOn(c, states, Scanner.NextPoint, Scanner.Up(log, p, false, Scanner.Testing));
    longer := RunTests(c, longer, log, p, Short, 1, short);
    longer := RunTests(c, longer, log + tests, p, Long, |short| + 1, [long]);
    assert log + PointOf(p, short, long) == log + tests + all + [PointFinished(Core, p)];
    longer := Scanner.RunOn(c, longer, Scanner.FinishPoint,
                            Scanner.Up(log + PointOf(p, short, long), p, false, Scanner.Top));
  }

  /** The run: one whole point, and the short phase of the next. */
  lemma DeadEndRun() returns (states: seq<Scanner.State>)
    ensures Scanner.IsRun(CONFIG, states) && states[|states| - 1] == Scanner.Down(DeadEndLog())
  {
    var c, range := CONFIG, VoltageRange(40, 60);
    var head := [range, ScanMode(NormalMode)];
    var done := head + PointOf(43, FIRST, 285000);
    FreshStart(c, range);
    states := Scanner.RunOn(c, [Scanner.Down([])], Scanner.ProbeRange, Scanner.Down([] + [range]));
    states := Scanner.RunOn(c, states, Scanner.Start(false), Scanner.Up(head, 40, false, Scanner.Top));
    states := RunPoint(c, states, head, 40, FIRST, 285000);
    states := Scanner.RunOn(c, states, Scanner.NextPoint, Scanner.Up(done, 46, false, Scanner.Testing));
    states := RunTests(c, states, done, 46, Short, 1, SECOND);
    states := Scanner.RunOn(c, states, Scanner.Crash, Scanner.Down(DeadEndLog()));
  }

  /** The log of that run, as a session reads it. */
  lemma DeadEndReads()
    ensures var r := Reading(DeadEndLog(), 3, 30000, 15000); r.success == Some(315000) && r.failed == None
  {
    var log, head := DeadEndLog(), [VoltageRange(40, 60), ScanMode(NormalMode)];
    var first, second := PointOf(43, FIRST, 285000), TestsOf(46, Short, 1, SECOND);
    TestsOfAre(43, Short, 1, FIRST);
    TestsOfAre(43, Long, |FIRST| + 1, [285000]);
    TestsOfAre(46, Short, 1, SECOND);
    PointPasses(43, FIRST, 285000);
    TestsPass(46, Short, 1, SECOND);
    assert IsPass(head, 0) && IsPass(head, 1);
    PassesJoin(head, first);
    PassesJoin(head + first, second);
    assert log[1] == ScanMode(NormalMode);
    SessionStartIs(log, 2);
    assert log[|log| - 1] == second[1] == TestResult(Core, Short, 2, 46, 315000, Some(0));
    ReadsLastPass(log, |log| - 1, 3, 30000, 15000);
  }

  /** A start-up loop that underflows, in a run and at the offsets of the search: the second point
      passes a test at 315000, above the default limit of 300000, and after a crash before
      its long phase no controller can be made. */
  lemma StartLoopUnderflows() returns (states: seq<Scanner.State>)
    ensures Climbs(Resumed(90000, 300000, 30000, 15000, 3), 15000, FIRST,
                   Search(3, 3, 285000, 300000), BoostPhases.Ended)
    ensures Climbs(Search(3, 0, 285000 - 30000, 300000 + 30000), 15000, SECOND,
                   Search(3, 2, 315000, 330000), BoostPhases.Ended)
    ensures Scanner.IsRun(CONFIG, states) && states[|states| - 1] == Scanner.Down(DeadEndLog())
    ensures Scanner.StartSearch(LIMITS, Reading(DeadEndLog(), 3, 30000, 15000)) == None
  {
    FirstClimb();
    SecondClimb();
    states := DeadEndRun();
    DeadEndReads();
    Scanner.StartLoopUnderflowsIff(LIMITS, DeadEndLog(), 3);
  }
}

/** A run on bytes, again on a device that passes every test, after which a session begins with
    a short phase whose exponent underflows: a torn mode record swallows the next one, so
    the success of that session is read back without a mode, and the session that reads it
    does not count as resumed (auto-optimizer/src/oc_scanner.rs). */
module TornOvershoot {
  import opened Options
  import opened Resume
  import opened ScanLogFile
  import opened TornLog
  import opened StepSearch
  import opened Overshoot
  import BoostPhases
  import Scanner
  import TornScan

  const LOST_CONFIG := Scanner.Config(40, 43, 3, 37500, 15000)
  const LOST_LIMITS := Scanner.Limits(0, 300000, 37500, 15000, 3)

  const LOWER := [-37500, 82500, 202500, 262500, 292500]
  const UPPER := [255000, 315000, 345000]

  /** What is read back: the mode record of the session is missing. */
  function LostModeLog(): seq<Event> {
    [VoltageRange(40, 43)] + PointOf(40, LOWER, 292500) + PointOf(43, UPPER, 345000)
  }

  // ------------------------------------------------------------------ what is searched

  lemma LowerClimb()
    ensures Climbs(Resumed(0, 300000, 37500, 15000, 3), 15000, LOWER,
                   Search(3, 3, 292500, 300000), BoostPhases.Ended)
  {
    var c0 := LowerStart();
    LowerClimbBegins(c0);
    ClimbsOn(c0, 15000, [-37500, 82500, 202500], Search(3, 1, 262500, 300000));
    ClimbsOn(c0, 15000, [-37500, 82500, 202500, 262500], Search(3, 2, 292500, 300000));
  }

  lemma LowerStart() returns (c0: Search)
    ensures c0 == Resumed(0, 300000, 37500, 15000, 3) == Search(3, 0, -37500, 300000)
  {
    c0 := Search(3, 0, -37500, 300000);
    assert Stride(15000, 3) == 120000;
  }

  lemma LowerClimbBegins(c0: Search)
    requires c0 == Search(3, 0, -37500, 300000)
    ensures Climbs(c0, 15000, [-37500, 82500, 202500], Search(3, 1, 262500, 300000), BoostPhases.Running)
  {
    ClimbsFromHere(c0, 15000);
    ClimbsOn(c0, 15000, [], c0);
    ClimbsOn(c0, 15000, [-37500], Search(3, 0, 82500, 300000));
    ClimbsOn(c0, 15000, [-37500, 82500], Search(3, 0, 202500, 300000));
  }

  lemma UpperClimb()
    ensures Climbs(Search(3, 0, 292500 - 37500, 300000 + 37500), 15000, UPPER,
                   Search(3, 3, 345000, 337500), BoostPhases.Ended)
  {
    var c0 := Search(3, 0, 255000, 337500);
    ClimbsFromHere(c0, 15000);
    ClimbsOn(c0, 15000, [], c0);
    ClimbsOn(c0, 15000, [255000], Search(3, 1, 315000, 337500));
    ClimbsOn(c0, 15000, [255000, 315000], Search(3, 2, 345000, 337500));
  }

  // ----------------------------------------------------------------------- the run

  ghost function Anything(): Event -> bool { (e: Event) => true }

  /** The closed lines read back as `log`, and nothing is torn. */
  ghost predicate Holds(k: Codec<Event>, file: seq<byte>, log: seq<Event>) {
    Readable(k, file, Anything()) && LogOf(k, file) == log && Tail(file) == []
  }

  lemma HoldsMore(k: Codec<Event>, file: seq<byte>, log: seq<Event>, e: Event)
    requires TornScan.Laws(k) && Holds(k, file, log)
    ensures Holds(k, file + Record(k, e), log + [e])
  {
    AppendWhole(k, file, Anything(), Anything(), e);
  }

  lemma HeldIsLoaded(k: Codec<Event>, file: seq<byte>, log: seq<Event>)
    requires Holds(k, file, log)
    ensures Load(k, file) == log
  {
    var o := LoadReadable(k, file, Anything());
    assert log + [] == log;
  }

  /** A session stands at a point, its log clean. */
  ghost predicate Stands(k: Codec<Event>, w: TornScan.World, log: seq<Event>, point: nat, resuming: bool,
                         stage: Scanner.Stage)
  {
    w.session == TornScan.On(point, resuming, stage) && Holds(k, w.file, log)
  }

  lemma RunOnBytes(k: Codec<Event>, c: Scanner.Config, worlds: seq<TornScan.World>, a: TornScan.Action,
                   w: TornScan.World)
    returns (longer: seq<TornScan.World>)
    requires TornScan.IsRun(k, c, worlds) && TornScan.Next(k, c, worlds[|worlds| - 1], a) == Some(w)
    ensures TornScan.IsRun(k, c, longer) && longer[|longer| - 1] == w
  {
    longer := worlds + [w];
    assert TornScan.Moves(k, c, worlds[|worlds| - 1], w);
  }

  /** A passed core test of the point. */
  predicate PassedTest(e: Event, point: nat) {
    e.TestResult? && e.domain == Core && e.at == point && e.resultCode == Some(0)
  }

  /** One test that passes. */
  lemma TestOnBytes(k: Codec<Event>, c: Scanner.Config, worlds: seq<TornScan.World>, log: seq<Event>, point: nat,
                    e: Event)
    returns (longer: seq<TornScan.World>)
    requires TornScan.Laws(k) && TornScan.IsRun(k, c, worlds) && PassedTest(e, point)
    requires Stands(k, worlds[|worlds| - 1], log, point, false, Scanner.Testing)
    ensures TornScan.IsRun(k, c, longer)
    ensures Stands(k, longer[|longer| - 1], log + [e], point, false, Scanner.Testing)
  {
    var w, pending := worlds[|worlds| - 1], e.(resultCode := None);
    var inside := TornScan.World(w.file + Record(k, pending), w.finished, TornScan.InTest(point, |w.file|, pending));
    var next := TornScan.World(w.file + Record(k, e), w.finished, TornScan.On(point, false, Scanner.Testing));
    assert w.file[..|w.file|] == w.file;
    longer := RunOnBytes(k, c, worlds, TornScan.Complete(TornScan.TestBegins(e.phase, e.testCode, e.delta)), inside);
    assert inside.file[..|w.file|] == w.file;
    longer := RunOnBytes(k, c, longer, TornScan.Complete(TornScan.TestEnds(0)), next);
    HoldsMore(k, w.file, log, e);
  }

  /** Some run comes to a session that stands there with this log. */
  ghost predicate CanStand(k: Codec<Event>, c: Scanner.Config, log: seq<Event>, point: nat, resuming: bool,
                           stage: Scanner.Stage)
  {
    exists worlds: seq<TornScan.World> :: StandsAfter(k, c, worlds, log, point, resuming, stage)
  }

  ghost predicate StandsAfter(k: Codec<Event>, c: Scanner.Config, worlds: seq<TornScan.World>, log: seq<Event>,
                              point: nat, resuming: bool, stage: Scanner.Stage)
  {
    TornScan.IsRun(k, c, worlds) && Stands(k, worlds[|worlds| - 1], log, point, resuming, stage)
  }

  lemma OneMoreTest(k: Codec<Event>, c: Scanner.Config, log: seq<Event>, point: nat, e: Event)
    requires TornScan.Laws(k) && PassedTest(e, point) && CanStand(k, c, log, point, false, Scanner.Testing)
    ensures CanStand(k, c, log + [e], point, false, Scanner.Testing)
  {
    var worlds: seq<TornScan.World> :| StandsAfter(k, c, worlds, log, point, false, Scanner.Testing);
    var longer := TestOnBytes(k, c, worlds, log, point, e);
    assert StandsAfter(k, c, longer, log + [e], point, false, Scanner.Testing);
  }

  ghost predicate Leads(can: nat -> bool, i: nat) { can(i) ==> can(i + 1) }

  lemma {:induction false} LeadsOn(can: nat -> bool, n: nat)
    requires can(0) && forall i: nat :: i < n ==> Leads(can, i)
    ensures can(n)
  {
    if n > 0 {
      LeadsOn(can, n - 1);
      assert Leads(can, n - 1);
    }
  }

  /** How many of the tests `es` some run can get through from a log. */
  ghost function Through(k: Codec<Event>, c: Scanner.Config, log: seq<Event>, point: nat, es: seq<Event>): nat -> bool {
    (i: nat) => i <= |es| && CanStand(k, c, log + es[..i], point, false, Scanner.Testing)
  }

  lemma ThroughLeads(k: Codec<Event>, c: Scanner.Config, log: seq<Event>, point: nat, es: seq<Event>, i: nat)
    requires TornScan.Laws(k) && i < |es| && PassedTest(es[i], point)
    ensures Leads(Through(k, c, log, point, es), i)
  {
    if CanStand(k, c, log + es[..i], point, false, Scanner.Testing) {
      OneMoreTest(k, c, log + es[..i], point, es[i]);
      Prefixes(log, es, i);
    }
  }

  lemma Prefixes(log: seq<Event>, es: seq<Event>, i: nat)
    requires i < |es|
    ensures log + es[..i] + [es[i]] == log + es[..i + 1]
  {
  }

  lemma AllThrough(k: Codec<Event>, c: Scanner.Config, log: seq<Event>, point: nat, es: seq<Event>)
    requires TornScan.Laws(k) && Through(k, c, log, point, es)(0)
    requires AllPassed(es, point)
    ensures Through(k, c, log, point, es)(|es|)
  {
    forall i: nat | i < |es| ensures Leads(Through(k, c, log, point, es), i) {
      ThroughLeads(k, c, log, point, es, i);
    }
    LeadsOn(Through(k, c, log, point, es), |es|);
  }

  lemma MoreTests(k: Codec<Event>, c: Scanner.Config, log: seq<Event>, point: nat, es: seq<Event>)
    requires TornScan.Laws(k) && CanStand(k, c, log, point, false, Scanner.Testing)
    requires AllPassed(es, point)
    ensures CanStand(k, c, log + es, point, false, Scanner.Testing)
  {
    assert log + es[..0] == log && es[..|es|] == es;
    AllThrough(k, c, log, point, es);
  }

  lemma PointBegins(k: Codec<Event>, c: Scanner.Config, log: seq<Event>, from: nat, resuming: bool, point: nat)
    requires CanStand(k, c, log, from, resuming, Scanner.Top)
    requires point == (if resuming then from else from + c.step) && from <= c.upper && point <= c.upper
    ensures CanStand(k, c, log, point, false, Scanner.Testing)
  {
    var worlds: seq<TornScan.World> :| StandsAfter(k, c, worlds, log, from, resuming, Scanner.Top);
    var w := worlds[|worlds| - 1];
    var longer := RunOnBytes(k, c, worlds, TornScan.Proceed, w.(session := TornScan.On(point, false, Scanner.Testing)));
    assert StandsAfter(k, c, longer, log, point, false, Scanner.Testing);
  }

  lemma PointEnds(k: Codec<Event>, c: Scanner.Config, log: seq<Event>, point: nat)
    requires TornScan.Laws(k) && CanStand(k, c, log, point, false, Scanner.Testing)
    ensures CanStand(k, c, log + [PointFinished(Core, point)], point, false, Scanner.Top)
  {
    var worlds: seq<TornScan.World> :| StandsAfter(k, c, worlds, log, point, false, Scanner.Testing);
    var w, e := worlds[|worlds| - 1], PointFinished(Core, point);
    var after := TornScan.World(w.file + Record(k, e), w.finished + {point}, TornScan.On(point, false, Scanner.Top));
    assert w.file[..|w.file|] == w.file;
    var longer := RunOnBytes(k, c, worlds, TornScan.Complete(TornScan.PointEnds), after);
    HoldsMore(k, w.file, log, e);
    assert StandsAfter(k, c, longer, log + [e], point, false, Scanner.Top);
  }

  /** A whole point, from the head of the loop back to it. */
  lemma WholePoint(k: Codec<Event>, c: Scanner.Config, log: seq<Event>, from: nat, resuming: bool, point: nat,
                   short: seq<Event>, long: seq<Event>)
    requires TornScan.Laws(k) && CanStand(k, c, log, from, resuming, Scanner.Top)
    requires point == (if resuming then from else from + c.step) && from <= c.upper && point <= c.upper
    requires AllPassed(short, point) && AllPassed(long, point)
    ensures CanStand(k, c, log + short + long + [PointFinished(Core, point)], point, false, Scanner.Top)
  {
    PointBegins(k, c, log, from, resuming, point);
    MoreTests(k, c, log, point, short);
    MoreTests(k, c, log + short, point, long);
    PointEnds(k, c, log + short + long, point);
  }

  ghost predicate AllPassed(es: seq<Event>, point: nat) {
    forall i: nat :: i < |es| ==> PassedTest(es[i], point)
  }

  lemma TestsPassed(point: nat, phase: TestPhase, code: nat, deltas: seq<int>)
    ensures AllPassed(TestsOf(point, phase, code, deltas), point)
  {
    TestsOfAre(point, phase, code, deltas);
  }

  lemma PointSplits(log: seq<Event>, point: nat, short: seq<int>, long: int)
    ensures var tests, last := TestsOf(point, Short, 1, short), TestsOf(point, Long, |short| + 1, [long]);
      log + tests + last + [PointFinished(Core, point)] == log + PointOf(point, short, long)
  {
  }

  lemma PassedPoint(k: Codec<Event>, c: Scanner.Config, log: seq<Event>, from: nat, resuming: bool, point: nat,
                    short: seq<int>, long: int)
    requires TornScan.Laws(k) && CanStand(k, c, log, from, resuming, Scanner.Top)
    requires point == (if resuming then from else from + c.step) && from <= c.upper && point <= c.upper
    ensures CanStand(k, c, log + PointOf(point, short, long), point, false, Scanner.Top)
  {
    TestsPassed(point, Short, 1, short);
    TestsPassed(point, Long, |short| + 1, [long]);
    PointSplits(log, point, short, long);
    WholePoint(k, c, log, from, resuming, point,
               TestsOf(point, Short, 1, short), TestsOf(point, Long, |short| + 1, [long]));
  }

  /** A file with nothing but a voltage range, and then with a mode record torn off right before
      its newline. */
  lemma TornMode(k: Codec<Event>, range: Event)
    requires TornScan.Laws(k) && range.VoltageRange?
    ensures var file, mode := Record(k, range), ScanMode(NormalMode);
      && Holds(k, file, [range])
      && Load(k, file + k.enc(mode)) == [range, mode]
      && Holds(k, file + k.enc(mode) + Record(k, mode), [range])
  {
    var file, mode := Record(k, range), ScanMode(NormalMode);
    assert LawfulFor(k, mode);
    TornScan.EmptyFileGood(k, LOST_CONFIG);
    assert LogOf(k, []) == [];
    AppendWhole(k, [], Anything(), Anything(), range);
    assert [] + file == file && [] + [range] == [range];
    AppendTorn(k, file, Anything(), mode, |k.enc(mode)|);
    assert k.enc(mode)[..|k.enc(mode)|] == k.enc(mode);
    BodyAndTail(file);
    SplitIs(file, k.enc(mode));
    AppendWhole(k, file + k.enc(mode), Anything(), Anything(), mode);
    TornModeLoads(k, range, mode);
  }

  lemma TornModeLoads(k: Codec<Event>, range: Event, mode: Event)
    requires TornScan.Laws(k)
    ensures Load(k, Record(k, range) + k.enc(mode)) == [range, mode]
  {
    assert LawfulFor(k, mode);
    assert EncodeAll(k, [range]) == Record(k, range) by {
      assert [range][1..] == [] && Record(k, range) + [] == Record(k, range);
    }
    LoadWithTail(k, [range], k.enc(mode), false);
    RecordIsSolid(k, mode, true);
    assert EncodeAll(k, [range]) + k.enc(mode) + [] == Record(k, range) + k.enc(mode);
  }

  /** The first session: it writes the range and dies right before the newline of its mode
      record. */
  lemma ModeIsTorn(k: Codec<Event>) returns (worlds: seq<TornScan.World>)
    requires TornScan.Laws(k)
    ensures TornScan.IsRun(k, LOST_CONFIG, worlds)
    ensures worlds[|worlds| - 1] == TornScan.World(TornFile(k), {}, TornScan.Off)
  {
    var n := |k.enc(ScanMode(NormalMode))|;
    worlds := RangeIsWritten(k);
    RangeIsRecovered(k);
    ModeTears(k, LOST_CONFIG, worlds[|worlds| - 1]);
    worlds := RunOnBytes(k, LOST_CONFIG, worlds, TornScan.Tear(TornScan.Begins(false), n),
                         TornScan.World(TornFile(k), {}, TornScan.Off));
  }

  lemma RangeIsRecovered(k: Codec<Event>)
    requires TornScan.Laws(k)
    ensures TornScan.Recovered(k, LOST_CONFIG, Record(k, VoltageRange(40, 43)), false).ultrafast == None
  {
    var range := VoltageRange(40, 43);
    TornMode(k, range);
    HeldIsLoaded(k, Record(k, range), [range]);
    RangeReads(range, LOST_CONFIG.step, LOST_CONFIG.elastic, LOST_CONFIG.minStep);
  }

  /** A session that dies right before the newline of its mode record. */
  lemma ModeTears(k: Codec<Event>, c: Scanner.Config, w: TornScan.World)
    requires TornScan.Laws(k) && w.session.Ready?
    requires TornScan.Recovered(k, c, w.file, false).ultrafast == None
    ensures var text := k.enc(ScanMode(NormalMode));
      TornScan.Next(k, c, w, TornScan.Tear(TornScan.Begins(false), |text|))
      == Some(TornScan.World(w.file + text, w.finished, TornScan.Off))
  {
    var mode := ScanMode(NormalMode);
    assert LawfulFor(k, mode);
    TornScan.TornBytes(k, w.file, mode, |k.enc(mode)|);
    assert k.enc(mode)[..|k.enc(mode)|] == k.enc(mode);
  }

  function TornFile(k: Codec<Event>): seq<byte> { Record(k, VoltageRange(40, 43)) + k.enc(ScanMode(NormalMode)) }

  lemma RangeIsWritten(k: Codec<Event>) returns (worlds: seq<TornScan.World>)
    ensures TornScan.IsRun(k, LOST_CONFIG, worlds)
    ensures worlds[|worlds| - 1] == TornScan.World(Record(k, VoltageRange(40, 43)), {}, TornScan.Ready)
  {
    var file := Record(k, VoltageRange(40, 43));
    assert [][..0] + file == file;
    worlds := RunOnBytes(k, LOST_CONFIG, [TornScan.World([], {}, TornScan.Off)], TornScan.Complete(TornScan.Range),
                         TornScan.World(file, {}, TornScan.Ready));
  }

  /** The second session loses its own mode record to the torn one. */
  lemma ModeIsLost(k: Codec<Event>) returns (worlds: seq<TornScan.World>)
    requires TornScan.Laws(k)
    ensures TornScan.IsRun(k, LOST_CONFIG, worlds)
    ensures Stands(k, worlds[|worlds| - 1], [VoltageRange(40, 43)], 40, true, Scanner.Top)
  {
    var range, mode, torn := VoltageRange(40, 43), ScanMode(NormalMode), TornFile(k);
    worlds := ModeIsTorn(k);
    TornMode(k, range);
    worlds := TornIsOpened(k, worlds);
    worlds := SecondBegins(k, worlds);
  }

  lemma TornIsOpened(k: Codec<Event>, worlds: seq<TornScan.World>) returns (longer: seq<TornScan.World>)
    requires TornScan.Laws(k) && TornScan.IsRun(k, LOST_CONFIG, worlds)
    requires worlds[|worlds| - 1] == TornScan.World(TornFile(k), {}, TornScan.Off)
    ensures TornScan.IsRun(k, LOST_CONFIG, longer)
    ensures longer[|longer| - 1] == TornScan.World(TornFile(k), {}, TornScan.Ready)
  {
    TornModeLoads(k, VoltageRange(40, 43), ScanMode(NormalMode));
    assert [VoltageRange(40, 43), ScanMode(NormalMode)][0].VoltageRange?;
    longer := RunOnBytes(k, LOST_CONFIG, worlds, TornScan.Open, TornScan.World(TornFile(k), {}, TornScan.Ready));
  }

  lemma SecondBegins(k: Codec<Event>, worlds: seq<TornScan.World>) returns (longer: seq<TornScan.World>)
    requires TornScan.Laws(k) && TornScan.IsRun(k, LOST_CONFIG, worlds)
    requires worlds[|worlds| - 1] == TornScan.World(TornFile(k), {}, TornScan.Ready)
    ensures TornScan.IsRun(k, LOST_CONFIG, longer)
    ensures longer[|longer| - 1]
         == TornScan.World(TornFile(k) + Record(k, ScanMode(NormalMode)), {}, TornScan.On(40, true, Scanner.Top))
  {
    var torn := TornFile(k);
    TornModeLoads(k, VoltageRange(40, 43), ScanMode(NormalMode));
    ModeReads(VoltageRange(40, 43), LOST_CONFIG);
    assert torn[..|torn|] == torn;
    var next := TornScan.World(torn + Record(k, ScanMode(NormalMode)), {}, TornScan.On(40, true, Scanner.Top));
    longer := RunOnBytes(k, LOST_CONFIG, worlds, TornScan.Complete(TornScan.Begins(false)), next);
  }

  /** A log of a range and a mode record resumes at the lowest point. */
  lemma ModeReads(range: Event, c: Scanner.Config)
    requires range.VoltageRange? && c.step > 0
    ensures var r := Reading([range, ScanMode(NormalMode)], c.step, c.elastic, c.minStep);
      r.ultrafast == Some(false) && Scanner.StartAt(c, r) == (c.lower, true)
  {
    assert [range] + [ScanMode(NormalMode)] == [range, ScanMode(NormalMode)];
    Scanner.CrashAfterModeRestarts(c, [range]);
    SessionStartIs([range, ScanMode(NormalMode)], 2);
    NeverClosed([range, ScanMode(NormalMode)], c.step);
  }

  /** The whole run: both points, a crash before the scan is completed, a new session. */
  lemma LostModeRun(k: Codec<Event>) returns (worlds: seq<TornScan.World>)
    requires TornScan.Laws(k)
    ensures TornScan.IsRun(k, LOST_CONFIG, worlds)
    ensures worlds[|worlds| - 1].session == TornScan.Ready && Load(k, worlds[|worlds| - 1].file) == LostModeLog()
  {
    var range := VoltageRange(40, 43);
    var lost := ModeIsLost(k);
    assert StandsAfter(k, LOST_CONFIG, lost, [range], 40, true, Scanner.Top);
    BothPoints(k, [range]);
    worlds := CrashAndOpen(k, LOST_CONFIG, LostModeLog(), 43);
  }

  lemma BothPoints(k: Codec<Event>, log: seq<Event>)
    requires TornScan.Laws(k) && CanStand(k, LOST_CONFIG, log, 40, true, Scanner.Top)
    ensures var all := log + PointOf(40, LOWER, 292500) + PointOf(43, UPPER, 345000);
      CanStand(k, LOST_CONFIG, all, 43, false, Scanner.Top)
  {
    PassedPoint(k, LOST_CONFIG, log, 40, true, 40, LOWER, 292500);
    PassedPoint(k, LOST_CONFIG, log + PointOf(40, LOWER, 292500), 40, false, 43, UPPER, 345000);
  }

  lemma CrashAndOpen(k: Codec<Event>, c: Scanner.Config, log: seq<Event>, point: nat)
    returns (worlds: seq<TornScan.World>)
    requires CanStand(k, c, log, point, false, Scanner.Top) && log != [] && log[0].VoltageRange?
    ensures TornScan.IsRun(k, c, worlds)
    ensures worlds[|worlds| - 1].session == TornScan.Ready && Load(k, worlds[|worlds| - 1].file) == log
  {
    worlds :| StandsAfter(k, c, worlds, log, point, false, Scanner.Top);
    var w := worlds[|worlds| - 1];
    HeldIsLoaded(k, w.file, log);
    worlds := RunOnBytes(k, c, worlds, TornScan.Crash, w.(session := TornScan.Off));
    worlds := RunOnBytes(k, c, worlds, TornScan.Open, w.(session := TornScan.Ready));
  }

  // ------------------------------------------------------------------- what is read back

  lemma LostModeReads()
    ensures var r := Reading(LostModeLog(), 3, 37500, 15000);
      r.success == Some(307500) && r.failed == None && r.ultrafast == None && r.point == Some(46)
  {
    var log, lower, upper := LostModeLog(), PointOf(40, LOWER, 292500), PointOf(43, UPPER, 345000);
    TestsOfAre(40, Short, 1, LOWER);
    TestsOfAre(40, Long, |LOWER| + 1, [292500]);
    TestsOfAre(43, Short, 1, UPPER);
    TestsOfAre(43, Long, |UPPER| + 1, [345000]);
    PointPasses(40, LOWER, 292500);
    PointPasses(43, UPPER, 345000);
    var head := [VoltageRange(40, 43)];
    assert IsPass(head, 0);
    PassesJoin(head, lower);
    PassesJoin(head + lower, upper);
    SessionStartIs(log, 0);
    var n := |log| - 1;
    assert log[n] == upper[|upper| - 1] == PointFinished(Core, 43);
    assert log[n - 1] == upper[|upper| - 2] == TestResult(Core, Long, 4, 43, 345000, Some(0));
    ReadsLastPass(log, n - 1, 3, 37500, 15000);
    assert log[..n] + [PointFinished(Core, 43)] == log;
    FinishedPointAdvances(log[..n], 43, 3, 37500, 15000);
  }

  /** A short phase that underflows, for every record text, in a run and at the offsets of the
      search, with the parameters of core/src/gpu_type.rs:567-577. The session that reads the
      log, its errors accepted, starts afresh at the lowest point, and the first passed test
      underflows its exponent. */
  lemma FirstShortPhaseUnderflows(k: Codec<Event>) returns (worlds: seq<TornScan.World>)
    requires TornScan.Laws(k)
    ensures Climbs(Resumed(0, 300000, 37500, 15000, 3), 15000, LOWER,
                   Search(3, 3, 292500, 300000), BoostPhases.Ended)
    ensures Climbs(Search(3, 0, 292500 - 37500, 300000 + 37500), 15000, UPPER,
                   Search(3, 3, 345000, 337500), BoostPhases.Ended)
    ensures TornScan.IsRun(k, LOST_CONFIG, worlds) && worlds[|worlds| - 1].session == TornScan.Ready
    ensures var r := TornScan.Recovered(k, LOST_CONFIG, worlds[|worlds| - 1].file, false);
      && Scanner.StartAt(LOST_CONFIG, r) == (40, false)
      && Scanner.StartSearch(LOST_LIMITS, r).Some? && Scanner.UnderflowsFirst(LOST_CONFIG, LOST_LIMITS, r)
  {
    LowerClimb();
    UpperClimb();
    worlds := LostModeRun(k);
    LostModeReads();
    Scanner.FirstShortPhaseUnderflowsIff(LOST_CONFIG, LOST_LIMITS, LostModeLog());
  }
}

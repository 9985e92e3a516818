/** The normal-mode scan on real bytes: sessions that append to the log, overwrite a pending
    result in place, and may die after any byte of any write, so that the next session's
    records can be swallowed by a torn line (auto-optimizer/src/oc_scanner.rs,
    auto-optimizer/src/scan_log.rs). */
module TornScan {
  import opened Options
  import opened Resume
  import opened ScanLogFile
  import opened TornLog
  import Scanner

  // ---------------------------------------------------------------- the state machine

  /** A session: not running, about to start, at the head of the point loop or past it or
      between two tests, inside a test whose pending record begins at byte `start`, or an
      ultrafast one, which no run has. */
  datatype Session =
    | Off
    | Ready
    | On(point: nat, resuming: bool, stage: Scanner.Stage)
    | InTest(point: nat, start: nat, pending: Event)
    | Fast

  /** The log on disk, and the points both phases have been run for since the last completed
      scan whose record reached the disk. */
  datatype World = World(file: seq<byte>, finished: set<nat>, session: Session)

  /** What a session writes. */
  datatype Write =
    | Range
    | Begins(refused: bool)
    | TestBegins(phase: TestPhase, code: nat, delta: int)
    | TestEnds(result: int)
    | PointEnds
    | ScanEnds

  datatype Action =
    | Open
    | Proceed
    | Complete(write: Write)
    | Tear(write: Write, n: nat)
    | Crash

  predicate HasRange(log: seq<Event>) { exists i :: 0 <= i < |log| && log[i].VoltageRange? }

  ghost function Recovered(k: Codec<Event>, c: Scanner.Config, file: seq<byte>, refused: bool): BreakPoint {
    if refused then NOTHING else Reading(Load(k, file), c.step, c.elastic, c.minStep)
  }

  /** The record a write puts down, if the session is where it can write it. A session probes the
      voltage range and writes it whenever the log gives none, or one that it declines
      because the log has errors; `refused` is the same choice for the break point. */
  ghost function Written(k: Codec<Event>, c: Scanner.Config, s: World, w: Write): Option<Event> {
    match w
    case Range => if s.session.Off? then Some(VoltageRange(c.lower, c.upper)) else None
    case Begins(refused) =>
      if !s.session.Ready? then None
      else
        var fast := Recovered(k, c, s.file, refused).ultrafast == Some(true);
        Some(ScanMode(if fast then UltrafastMode else NormalMode))
    case TestBegins(phase, code, delta) =>
      if s.session.On? && s.session.stage == Scanner.Testing
      then Some(TestResult(Core, phase, code, s.session.point, delta, None)) else None
    case TestEnds(result) =>
      if s.session.InTest? && s.session.pending.TestResult?
      then Some(s.session.pending.(resultCode := Some(result))) else None
    case PointEnds =>
      if s.session.On? && s.session.stage == Scanner.Testing then Some(PointFinished(Core, s.session.point)) else None
    case ScanEnds => if s.session.On? && s.session.stage == Scanner.Closing then Some(ScanCompleted) else None
  }

  /** Where a write begins: a result at its pending record, all else at the end. */
  function StartOf(s: World): nat {
    if s.session.InTest? then s.session.start else |s.file|
  }

  /** The session after a write that came to its end. */
  ghost function Onward(k: Codec<Event>, c: Scanner.Config, s: World, w: Write): Session {
    match w
    case Range => Ready
    case Begins(refused) =>
      var r := Recovered(k, c, s.file, refused);
      var (point, resuming) := Scanner.StartAt(c, r);
      if r.ultrafast == Some(true) then Fast
      else if point == 0 then Off
      else On(point, resuming, Scanner.Top)
    case TestBegins(_, _, _) =>
      var e := Written(k, c, s, w);
      if s.session.On? && e.Some? then InTest(s.session.point, |s.file|, e.value) else Off
    case TestEnds(_) => if s.session.InTest? then On(s.session.point, false, Scanner.Testing) else Off
    case PointEnds => if s.session.On? then On(s.session.point, s.session.resuming, Scanner.Top) else Off
    case ScanEnds => Off
  }

  /** The work a point's record stands for is done before the record is written; a completed
      scan counts once its record is on disk. */
  function Done(s: World, w: Write, whole: bool): set<nat> {
    if w.PointEnds? && s.session.On? then s.finished + {s.session.point}
    else if w.ScanEnds? && whole then {}
    else s.finished
  }

  /** The world after a write that came to its end. */
  ghost function Finish(k: Codec<Event>, c: Scanner.Config, s: World, w: Write): World
    requires Written(k, c, s, w).Some? && StartOf(s) <= |s.file|
  {
    World(s.file[..StartOf(s)] + Record(k, Written(k, c, s, w).value), Done(s, w, true), Onward(k, c, s, w))
  }

  ghost function Next(k: Codec<Event>, c: Scanner.Config, s: World, a: Action): Option<World> {
    match a
    case Open =>
      if s.session.Off? && HasRange(Load(k, s.file)) then Some(s.(session := Ready)) else None
    case Proceed =>
      if !(s.session.On? && s.session.stage == Scanner.Top) then None
      else if s.session.point > c.upper then Some(s.(session := s.session.(stage := Scanner.Closing)))
      else
        var point := if s.session.resuming then s.session.point else s.session.point + c.step;
        if point > c.upper then Some(s.(session := s.session.(point := point, stage := Scanner.Closing)))
        else Some(s.(session := On(point, false, Scanner.Testing)))
    case Complete(w) =>
      var e := Written(k, c, s, w);
      if e.None? || StartOf(s) > |s.file| then None
      else Some(Finish(k, c, s, w))
    case Tear(w, n) =>
      var e := Written(k, c, s, w);
      if e.None? || StartOf(s) > |s.file| || !(1 <= n <= |k.enc(e.value)|) then None
      else Some(World(Splice(s.file, StartOf(s), Record(k, e.value)[..n]), Done(s, w, false), Off))
    case Crash => Some(s.(session := Off))
  }

  ghost predicate Moves(k: Codec<Event>, c: Scanner.Config, s: World, s': World) {
    exists a :: Next(k, c, s, a) == Some(s')
  }

  ghost predicate IsRun(k: Codec<Event>, c: Scanner.Config, worlds: seq<World>) {
    && worlds != [] && worlds[0] == World([], {}, Off)
    && forall i :: 0 <= i < |worlds| - 1 ==> Moves(k, c, worlds[i], worlds[i + 1])
  }

  /** The laws of the record text: a record is one line that decodes, nothing before it or cut
      off it does, and a half-overwritten result is one of the two results or nothing. */
  ghost predicate Laws(k: Codec<Event>) {
    Lawful(k) && Framed(k) && forall e: Event, result: int :: ResultOverlaid(k, e, result)
  }

  ghost predicate ResultOverlaid(k: Codec<Event>, e: Event, result: int) {
    e.TestResult? && e.resultCode.None? ==> Overlaid(k, e, e.(resultCode := Some(result)))
  }

  // ------------------------------------------------------------------- the invariant

  /** Every lattice point after the first and below `p` is finished. */
  ghost predicate CoveredBy(c: Scanner.Config, finished: set<nat>, p: nat)
    requires c.step > 0
  {
    forall q: nat :: c.lower < q < p && Scanner.OnLattice(c, q) ==> q in finished
  }

  ghost predicate Good(c: Scanner.Config, finished: set<nat>, e: Event)
    requires c.step > 0
  {
    match e
    case ScanMode(mode) => mode == NormalMode
    case TestResult(domain, _, _, at, _, _) =>
      domain == Core && Scanner.OnLattice(c, at) && at <= c.upper && CoveredBy(c, finished, at)
    case PointFinished(domain, at) =>
      domain == Core && Scanner.OnLattice(c, at) && at <= c.upper && at in finished && CoveredBy(c, finished, at)
    case _ => true
  }

  ghost function GoodTest(c: Scanner.Config, finished: set<nat>): Event -> bool
    requires c.step > 0
  {
    (e: Event) => Good(c, finished, e)
  }

  /** All modes are normal; since the last completed scan every entry is good. */
  ghost predicate LogGood(c: Scanner.Config, log: seq<Event>, finished: set<nat>)
    requires c.step > 0
  {
    ModesNormal(log) && forall i: nat :: Scanner.RoundStart(log) <= i < |log| ==> GoodAt(c, finished, log, i)
  }

  ghost predicate ModesNormal(log: seq<Event>) {
    forall i :: 0 <= i < |log| && log[i].ScanMode? ==> log[i].mode == NormalMode
  }

  ghost predicate GoodAt(c: Scanner.Config, finished: set<nat>, log: seq<Event>, i: nat)
    requires c.step > 0 && i < |log|
  {
    Good(c, finished, log[i])
  }

  ghost predicate FileGood(k: Codec<Event>, c: Scanner.Config, file: seq<byte>, finished: set<nat>)
    requires c.step > 0
  {
    Readable(k, file, GoodTest(c, finished)) && LogGood(c, LogOf(k, file), finished)
  }

  ghost predicate PlaceGood(c: Scanner.Config, finished: set<nat>, point: nat, resuming: bool, stage: Scanner.Stage)
    requires c.step > 0
  {
    && Scanner.OnLattice(c, point)
    && match stage
       case Top => CoveredBy(c, finished, if resuming then point else point + c.step)
       case Testing => !resuming && point <= c.upper && CoveredBy(c, finished, point)
       case Pending => false
       case Closing => CoveredBy(c, finished, c.upper + 1)
  }

  ghost predicate SessionGood(k: Codec<Event>, c: Scanner.Config, s: World)
    requires c.step > 0
  {
    match s.session
    case Off => true
    case Ready => true
    case On(point, resuming, stage) => Tail(s.file) == [] && PlaceGood(c, s.finished, point, resuming, stage)
    case InTest(point, start, pending) =>
      && Scanner.OnLattice(c, point) && point <= c.upper && CoveredBy(c, s.finished, point)
      && pending.TestResult? && pending.resultCode.None? && pending.domain == Core && pending.at == point
      && start <= |s.file| && s.file == s.file[..start] + Record(k, pending)
      && Tail(s.file[..start]) == [] && FileGood(k, c, s.file[..start], s.finished)
    case Fast => false
  }

  ghost predicate Inv(k: Codec<Event>, c: Scanner.Config, s: World)
    requires c.step > 0
  {
    FileGood(k, c, s.file, s.finished) && SessionGood(k, c, s)
  }

  // ----------------------------------------------------------------- what is read back

  lemma AppendGood(c: Scanner.Config, log: seq<Event>, finished: set<nat>, e: Event)
    requires c.step > 0 && LogGood(c, log, finished) && Good(c, finished, e)
    ensures LogGood(c, log + [e], finished)
  {
    assert (log + [e])[..|log|] == log;
    forall i: nat | Scanner.RoundStart(log + [e]) <= i < |log| + 1 ensures GoodAt(c, finished, log + [e], i) {
      assert i < |log| ==> GoodAt(c, finished, log, i);
    }
  }

  /** After a completed scan nothing is required of the entries before it. */
  lemma CloseGood(c: Scanner.Config, log: seq<Event>, finished: set<nat>, anew: set<nat>)
    requires c.step > 0 && LogGood(c, log, finished)
    ensures LogGood(c, log + [ScanCompleted], anew)
  {
    assert (log + [ScanCompleted])[..|log|] == log;
  }

  lemma GrowGood(c: Scanner.Config, log: seq<Event>, finished: set<nat>, more: set<nat>)
    requires c.step > 0 && LogGood(c, log, finished) && finished <= more
    ensures LogGood(c, log, more)
  {
    forall i: nat | Scanner.RoundStart(log) <= i < |log| ensures GoodAt(c, more, log, i) {
      assert GoodAt(c, finished, log, i);
    }
  }

  lemma GrowReadable(k: Codec<Event>, c: Scanner.Config, file: seq<byte>, finished: set<nat>, more: set<nat>)
    requires c.step > 0 && Readable(k, file, GoodTest(c, finished)) && finished <= more
    ensures Readable(k, file, GoodTest(c, more))
  {
    forall n: nat | 1 <= n <= |Tail(file)| ensures YieldsAt(k, Tail(file), GoodTest(c, more), n) {
      assert YieldsAt(k, Tail(file), GoodTest(c, finished), n);
    }
  }

  /** A point read from good entries is a lattice point with everything below it finished. The
      entries of an earlier round are never reached: a test of this round would be used
      first, and without one the completed scan ends the reading. */
  lemma ReadPointIsCovered(c: Scanner.Config, log: seq<Event>, finished: set<nat>)
    requires c.step > 0 && c.upper <= 255 && LogGood(c, log, finished)
    ensures var r := Reading(log, c.step, c.elastic, c.minStep);
      && r.ultrafast != Some(true)
      && (r.point.Some? ==> Scanner.OnLattice(c, r.point.value) && CoveredBy(c, finished, r.point.value))
  {
    var r := Reading(log, c.step, c.elastic, c.minStep);
    var lo := SessionStart(log);
    if lo > 0 { assert log[lo - 1].ScanMode?; }
    if r.point.Some? {
      var k := Last(lo, |log|, PointTest(log, c.step)).value;
      assert PointTest(log, c.step)(k);
      if k < Scanner.RoundStart(log) {
        QuietSince(c, log, finished, Scanner.RoundStart(log) - 1);
        QuietRoundIsClosed(log, c.step, Scanner.RoundStart(log) - 1);
      } else {
        assert GoodAt(c, finished, log, k);
        PointOfGood(c, log, finished, k);
      }
    }
  }

  lemma QuietRoundIsClosed(log: seq<Event>, testingStep: nat, n: nat)
    requires SessionStart(log) <= n && n + 1 == Scanner.RoundStart(log) && Quiet(log, n, testingStep)
    ensures Closed(log, testingStep)
  {
    assert ClosedAt(log, n, testingStep);
  }

  lemma QuietSince(c: Scanner.Config, log: seq<Event>, finished: set<nat>, n: nat)
    requires c.step > 0 && c.upper <= 255 && LogGood(c, log, finished) && n + 1 == Scanner.RoundStart(log)
    requires forall j: nat :: n < j < |log| ==> !PointTest(log, c.step)(j)
    ensures Quiet(log, n, c.step)
  {
    forall j: nat | n <= j < |log| ensures !Counts(log, j) && PointAt(log, j, c.step).None? {
      if j > n {
        assert !PointTest(log, c.step)(j);
        assert GoodAt(c, finished, log, j);
        GoodTestIsUsable(c, log, finished, j);
      }
    }
  }

  lemma GoodTestIsUsable(c: Scanner.Config, log: seq<Event>, finished: set<nat>, j: nat)
    requires c.step > 0 && c.upper <= 255 && j < |log| && Good(c, finished, log[j])
    ensures Counts(log, j) ==> PointAt(log, j, c.step).Some?
  {
  }

  lemma PointOfGood(c: Scanner.Config, log: seq<Event>, finished: set<nat>, k: nat)
    requires c.step > 0 && k < |log| && Good(c, finished, log[k]) && PointAt(log, k, c.step).Some?
    ensures var p := PointAt(log, k, c.step).value; Scanner.OnLattice(c, p) && CoveredBy(c, finished, p)
  {
    if log[k].PointFinished? {
      NextIsCovered(c, finished, log[k].at);
      Scanner.LatticeNext(c, log[k].at);
    }
  }

  lemma NextIsCovered(c: Scanner.Config, finished: set<nat>, p: nat)
    requires c.step > 0 && Scanner.OnLattice(c, p) && CoveredBy(c, finished, p)
    requires p > c.lower ==> p in finished
    ensures CoveredBy(c, finished, p + c.step)
  {
    forall q: nat | c.lower < q < p + c.step && Scanner.OnLattice(c, q) ensures q in finished {
      if q > p { Scanner.LatticeNeighbours(c, p, q); }
    }
  }

  /** The same for what is really on disk, a torn last line included. */
  lemma RecoveredIsCovered(k: Codec<Event>, c: Scanner.Config, file: seq<byte>, finished: set<nat>, refused: bool)
    requires c.step > 0 && c.upper <= 255 && FileGood(k, c, file, finished)
    ensures var r := Recovered(k, c, file, refused);
      && r.ultrafast != Some(true)
      && (r.point.Some? ==> Scanner.OnLattice(c, r.point.value) && CoveredBy(c, finished, r.point.value))
  {
    LoadedIsGood(k, c, file, finished);
    ReadPointIsCovered(c, Load(k, file), finished);
  }

  lemma LoadedIsGood(k: Codec<Event>, c: Scanner.Config, file: seq<byte>, finished: set<nat>)
    requires c.step > 0 && FileGood(k, c, file, finished)
    ensures LogGood(c, Load(k, file), finished)
  {
    var o := LoadReadable(k, file, GoodTest(c, finished));
    if o.Some? { AppendGood(c, LogOf(k, file), finished, o.value); }
    assert o.None? ==> LogOf(k, file) + [] == LogOf(k, file);
  }

  // -------------------------------------------------------------------- the writes

  /** What every write but a result leaves on disk when it comes to its end. */
  lemma AppendedWhole(k: Codec<Event>, c: Scanner.Config, file: seq<byte>, finished: set<nat>, e: Event)
    requires c.step > 0 && Laws(k) && FileGood(k, c, file, finished) && Good(c, finished, e)
    ensures FileGood(k, c, file + Record(k, e), finished) && Tail(file + Record(k, e)) == []
  {
    AppendWhole(k, file, GoodTest(c, finished), GoodTest(c, finished), e);
    AppendGood(c, LogOf(k, file), finished, e);
  }

  /** The record of a completed scan, from a clean end. */
  lemma ClosedWhole(k: Codec<Event>, c: Scanner.Config, file: seq<byte>, finished: set<nat>, anew: set<nat>)
    requires c.step > 0 && Laws(k) && FileGood(k, c, file, finished) && Tail(file) == []
    ensures FileGood(k, c, file + Record(k, ScanCompleted), anew)
  {
    AppendWhole(k, file, GoodTest(c, finished), GoodTest(c, anew), ScanCompleted);
    CloseGood(c, LogOf(k, file), finished, anew);
  }

  lemma AppendedTorn(k: Codec<Event>, c: Scanner.Config, file: seq<byte>, finished: set<nat>, e: Event, n: nat)
    requires c.step > 0 && Laws(k) && FileGood(k, c, file, finished) && Good(c, finished, e) && n <= |k.enc(e)|
    ensures FileGood(k, c, Splice(file, |file|, Record(k, e)[..n]), finished)
  {
    TornBytes(k, file, e, n);
    AppendTorn(k, file, GoodTest(c, finished), e, n);
  }

  lemma TornBytes(k: Codec<Event>, file: seq<byte>, e: Event, n: nat)
    requires n <= |k.enc(e)|
    ensures Splice(file, |file|, Record(k, e)[..n]) == file + k.enc(e)[..n]
  {
    assert Record(k, e)[..n] == k.enc(e)[..n];
  }

  lemma FinishedGrows(k: Codec<Event>, c: Scanner.Config, file: seq<byte>, finished: set<nat>, more: set<nat>)
    requires c.step > 0 && FileGood(k, c, file, finished) && finished <= more
    ensures FileGood(k, c, file, more)
  {
    GrowGood(c, LogOf(k, file), finished, more);
    GrowReadable(k, c, file, finished, more);
  }

  /** The record every write puts down is good for what is finished by then. */
  lemma WrittenIsGood(k: Codec<Event>, c: Scanner.Config, s: World, w: Write, whole: bool)
    requires c.step > 0 && c.upper <= 255 && Inv(k, c, s) && Written(k, c, s, w).Some?
    requires !(w.ScanEnds? && whole)
    ensures Good(c, Done(s, w, whole), Written(k, c, s, w).value)
    ensures FileGood(k, c, s.file, Done(s, w, whole))
  {
    if w.Begins? { RecoveredIsCovered(k, c, s.file, s.finished, w.refused); }
    if w.PointEnds? { EndIsGood(c, s.finished, s.session.point, s.finished + {s.session.point}); }
    FinishedGrows(k, c, s.file, s.finished, Done(s, w, whole));
  }

  lemma WholeFile(s: World)
    requires !s.session.InTest?
    ensures s.file[..StartOf(s)] == s.file
  {
  }

  /** Wherever a session starts, the points its loop will not test are finished. */
  lemma StartIsGood(c: Scanner.Config, finished: set<nat>, r: BreakPoint)
    requires c.step > 0
    requires r.point.Some? ==> Scanner.OnLattice(c, r.point.value) && CoveredBy(c, finished, r.point.value)
    ensures PlaceGood(c, finished, Scanner.StartAt(c, r).0, Scanner.StartAt(c, r).1, Scanner.Top)
  {
    assert CoveredBy(c, finished, c.lower);
    NextIsCovered(c, finished, c.lower);
  }

  lemma ModeKeeps(k: Codec<Event>, c: Scanner.Config, s: World, refused: bool)
    requires c.step > 0 && c.upper <= 255 && Laws(k) && Inv(k, c, s) && s.session.Ready?
    ensures Inv(k, c, Finish(k, c, s, Begins(refused)))
  {
    RecoveredIsCovered(k, c, s.file, s.finished, refused);
    WholeFile(s);
    AppendedWhole(k, c, s.file, s.finished, ScanMode(NormalMode));
    StartIsGood(c, s.finished, Recovered(k, c, s.file, refused));
  }

  lemma TestBeginsKeeps(k: Codec<Event>, c: Scanner.Config, s: World, w: Write)
    requires c.step > 0 && c.upper <= 255 && Laws(k) && Inv(k, c, s) && w.TestBegins? && Written(k, c, s, w).Some?
    ensures Inv(k, c, Finish(k, c, s, w))
  {
    var e := Written(k, c, s, w).value;
    WrittenIsGood(k, c, s, w, true);
    AppendedWhole(k, c, s.file, s.finished, e);
    WholeFile(s);
    assert (s.file + Record(k, e))[..|s.file|] == s.file;
  }

  lemma EndIsGood(c: Scanner.Config, finished: set<nat>, point: nat, more: set<nat>)
    requires c.step > 0 && PlaceGood(c, finished, point, false, Scanner.Testing) && more == finished + {point}
    ensures PlaceGood(c, more, point, false, Scanner.Top) && Good(c, more, PointFinished(Core, point))
  {
    assert CoveredBy(c, more, point);
    NextIsCovered(c, more, point);
  }

  lemma PointEndsKeeps(k: Codec<Event>, c: Scanner.Config, s: World)
    requires c.step > 0 && Laws(k) && Inv(k, c, s) && Written(k, c, s, PointEnds).Some?
    ensures Inv(k, c, Finish(k, c, s, PointEnds))
  {
    var p := s.session.point;
    EndedWhole(k, c, s.file, s.finished, p, s.finished + {p});
    WholeFile(s);
    assert Finish(k, c, s, PointEnds)
        == World(s.file + Record(k, PointFinished(Core, p)), s.finished + {p}, On(p, false, Scanner.Top));
  }

  lemma EndedWhole(k: Codec<Event>, c: Scanner.Config, file: seq<byte>, finished: set<nat>, p: nat, more: set<nat>)
    requires c.step > 0 && Laws(k) && FileGood(k, c, file, finished)
    requires PlaceGood(c, finished, p, false, Scanner.Testing) && more == finished + {p}
    ensures PlaceGood(c, more, p, false, Scanner.Top)
    ensures FileGood(k, c, file + Record(k, PointFinished(Core, p)), more)
    ensures Tail(file + Record(k, PointFinished(Core, p))) == []
  {
    EndIsGood(c, finished, p, more);
    FinishedGrows(k, c, file, finished, more);
    AppendedWhole(k, c, file, more, PointFinished(Core, p));
  }

  lemma ScanEndsKeeps(k: Codec<Event>, c: Scanner.Config, s: World)
    requires c.step > 0 && Laws(k) && Inv(k, c, s) && Written(k, c, s, ScanEnds).Some?
    ensures Inv(k, c, Finish(k, c, s, ScanEnds))
  {
    WholeFile(s);
    ClosedWhole(k, c, s.file, s.finished, {});
  }

  lemma RangeKeeps(k: Codec<Event>, c: Scanner.Config, s: World)
    requires c.step > 0 && Laws(k) && Inv(k, c, s) && Written(k, c, s, Range).Some?
    ensures Inv(k, c, Finish(k, c, s, Range))
  {
    WholeFile(s);
    AppendedWhole(k, c, s.file, s.finished, VoltageRange(c.lower, c.upper));
  }

  /** A crash inside the overwriting of a result. */
  lemma ResultTornKeeps(k: Codec<Event>, c: Scanner.Config, s: World, p: Event, result: int, a: seq<byte>, n: nat)
    requires c.step > 0 && Lawful(k) && Framed(k) && p.TestResult? && p.resultCode.None?
    requires Overlaid(k, p, p.(resultCode := Some(result)))
    requires FileGood(k, c, a, s.finished) && Tail(a) == [] && Good(c, s.finished, p)
    requires 1 <= n <= |k.enc(p.(resultCode := Some(result)))|
    ensures var e := p.(resultCode := Some(result));
      FileGood(k, c, Splice(a + Record(k, p), |a|, Record(k, e)[..n]), s.finished)
  {
    var e := p.(resultCode := Some(result));
    OverwriteTorn(k, a, GoodTest(c, s.finished), p, e, n);
    AppendGood(c, LogOf(k, a), s.finished, p);
    AppendGood(c, LogOf(k, a), s.finished, e);
  }

  lemma ResultTearKeeps(k: Codec<Event>, c: Scanner.Config, s: World, result: int, n: nat)
    requires c.step > 0 && Laws(k) && Inv(k, c, s) && s.session.InTest?
    requires 1 <= n <= |k.enc(s.session.pending.(resultCode := Some(result)))|
    ensures var e := s.session.pending.(resultCode := Some(result));
      FileGood(k, c, Splice(s.file, s.session.start, Record(k, e)[..n]), s.finished)
  {
    assert ResultOverlaid(k, s.session.pending, result);
    ResultTornKeeps(k, c, s, s.session.pending, result, s.file[..s.session.start], n);
  }

  lemma AppendTearKeeps(k: Codec<Event>, c: Scanner.Config, s: World, w: Write, n: nat)
    requires c.step > 0 && c.upper <= 255 && Laws(k) && Inv(k, c, s) && !w.TestEnds?
    requires Written(k, c, s, w).Some? && n <= |k.enc(Written(k, c, s, w).value)|
    ensures FileGood(k, c, Splice(s.file, |s.file|, Record(k, Written(k, c, s, w).value)[..n]), Done(s, w, false))
  {
    WrittenIsGood(k, c, s, w, false);
    AppendedTorn(k, c, s.file, Done(s, w, false), Written(k, c, s, w).value, n);
  }

  lemma TearKeeps(k: Codec<Event>, c: Scanner.Config, s: World, w: Write, n: nat)
    requires c.step > 0 && c.upper <= 255 && Laws(k) && Inv(k, c, s) && Written(k, c, s, w).Some?
    requires StartOf(s) <= |s.file| && 1 <= n <= |k.enc(Written(k, c, s, w).value)|
    ensures FileGood(k, c, Splice(s.file, StartOf(s), Record(k, Written(k, c, s, w).value)[..n]), Done(s, w, false))
  {
    if w.TestEnds? {
      assert StartOf(s) == s.session.start && Done(s, w, false) == s.finished;
      assert Written(k, c, s, w) == Some(s.session.pending.(resultCode := Some(w.result)));
      ResultTearKeeps(k, c, s, w.result, n);
    } else {
      assert StartOf(s) == |s.file|;
      AppendTearKeeps(k, c, s, w, n);
    }
  }

  lemma NextPointKeeps(k: Codec<Event>, c: Scanner.Config, s: World)
    requires c.step > 0 && SessionGood(k, c, s) && Next(k, c, s, Proceed).Some?
    ensures SessionGood(k, c, Next(k, c, s, Proceed).value)
  {
    Scanner.LatticeNext(c, s.session.point);
  }

  /** Every write that comes to its end keeps the invariant. */
  lemma WriteKeeps(k: Codec<Event>, c: Scanner.Config, s: World, w: Write)
    requires c.step > 0 && c.upper <= 255 && Laws(k) && Inv(k, c, s)
    requires Written(k, c, s, w).Some? && StartOf(s) <= |s.file|
    ensures Inv(k, c, Finish(k, c, s, w))
  {
    match w {
      case Range => RangeKeeps(k, c, s);
      case Begins(refused) => ModeKeeps(k, c, s, refused);
      case TestBegins(phase, code, delta) => TestBeginsKeeps(k, c, s, w);
      case TestEnds(result) =>
        AppendedWhole(k, c, s.file[..s.session.start], s.finished, Written(k, c, s, w).value);
      case PointEnds => PointEndsKeeps(k, c, s);
      case ScanEnds => ScanEndsKeeps(k, c, s);
    }
  }

  /** Every step keeps the invariant: every action, and every crash after any byte. */
  lemma StepKeeps(k: Codec<Event>, c: Scanner.Config, s: World, a: Action)
    requires c.step > 0 && c.upper <= 255 && Laws(k) && Inv(k, c, s) && Next(k, c, s, a).Some?
    ensures Inv(k, c, Next(k, c, s, a).value)
  {
    match a {
      case Open =>
      case Proceed => NextPointKeeps(k, c, s);
      case Complete(w) => WriteKeeps(k, c, s, w);
      case Tear(w, n) => TearKeeps(k, c, s, w, n);
      case Crash =>
    }
  }

  // -------------------------------------------------------------------- main results

  lemma EmptyFileGood(k: Codec<Event>, c: Scanner.Config)
    requires c.step > 0
    ensures Inv(k, c, World([], {}, Off))
  {
    assert Body([]) == [] && Tail([]) == [];
    assert Lines([]) == [];
  }

  lemma {:induction false} RunKeeps(k: Codec<Event>, c: Scanner.Config, worlds: seq<World>, i: nat)
    requires c.step > 0 && c.upper <= 255 && Laws(k) && IsRun(k, c, worlds) && i < |worlds|
    ensures Inv(k, c, worlds[i])
  {
    if i == 0 {
      EmptyFileGood(k, c);
    } else {
      RunKeeps(k, c, worlds, i - 1);
      assert Moves(k, c, worlds[i - 1], worlds[i]);
      var a :| Next(k, c, worlds[i - 1], a) == Some(worlds[i]);
      StepKeeps(k, c, worlds[i - 1], a);
    }
  }

  /** Whatever bytes the crashes tore off or joined: while a point is under test, every lattice
      point below it (the first one aside) has been finished since the last completed scan. */
  lemma NoPointLeftBehind(k: Codec<Event>, c: Scanner.Config, worlds: seq<World>, i: nat, j: nat)
    requires c.step > 0 && c.upper <= 255 && Laws(k) && IsRun(k, c, worlds) && i < |worlds|
    requires var s := worlds[i].session;
      ((s.On? && s.stage == Scanner.Testing) || s.InTest?) && j >= 1 && c.lower + j * c.step < s.point
    ensures c.lower + j * c.step in worlds[i].finished
    ensures Scanner.OnLattice(c, worlds[i].session.point) && worlds[i].session.point <= c.upper
  {
    RunKeeps(k, c, worlds, i);
    CoveredMultiple(c, worlds[i].finished, worlds[i].session.point, j);
  }

  lemma CoveredMultiple(c: Scanner.Config, finished: set<nat>, p: nat, j: nat)
    requires c.step > 0 && CoveredBy(c, finished, p) && j >= 1 && c.lower + j * c.step < p
    ensures c.lower + j * c.step in finished
  {
    assert c.lower + j * c.step > c.lower;
    Scanner.LatticeIsMultiples(c, c.lower + j * c.step);
  }

  /** And the record of a completed scan is written, or begun, only when every lattice point up
      to the upper end (the first one aside) has been finished. */
  lemma CompletedMeansAllFinished(k: Codec<Event>, c: Scanner.Config, worlds: seq<World>, i: nat, j: nat)
    requires c.step > 0 && c.upper <= 255 && Laws(k) && IsRun(k, c, worlds) && i < |worlds|
    requires Written(k, c, worlds[i], ScanEnds).Some?
    requires j >= 1 && c.lower + j * c.step <= c.upper
    ensures c.lower + j * c.step in worlds[i].finished
  {
    RunKeeps(k, c, worlds, i);
    CoveredMultiple(c, worlds[i].finished, c.upper + 1, j);
  }

  /** While a test runs the file reads back as everything before it and the pending test. */
  lemma PendingIsRead(k: Codec<Event>, c: Scanner.Config, s: World)
    requires c.step > 0 && Laws(k) && Inv(k, c, s) && s.session.InTest?
    ensures Load(k, s.file) == LogOf(k, s.file[..s.session.start]) + [s.session.pending]
  {
    var a, P := s.file[..s.session.start], GoodTest(c, s.finished);
    AppendWhole(k, a, P, P, s.session.pending);
    var o := LoadReadable(k, a + Record(k, s.session.pending), P);
    assert LogOf(k, a) + [s.session.pending] + [] == LogOf(k, a) + [s.session.pending];
  }

  /** In every run, whatever the crashes tore off or joined, a session finds a point to go on from
      if and only if a test or a finished point can be read back since the last mode record
      and the last completed scan. */
  lemma KeepsPlaceIff(k: Codec<Event>, c: Scanner.Config, worlds: seq<World>, i: nat)
    requires c.step > 0 && Laws(k) && IsRun(k, c, worlds) && i < |worlds| && c.upper + c.step <= 255
    ensures var log := Load(k, worlds[i].file);
      Reading(log, c.step, c.elastic, c.minStep).point.None? <==> Scanner.NoDataFrom(log, Scanner.Horizon(log))
  {
    RunKeeps(k, c, worlds, i);
    LoadedIsGood(k, c, worlds[i].file, worlds[i].finished);
    PlaceIff(c, Load(k, worlds[i].file), worlds[i].finished);
  }

  lemma PlaceIff(c: Scanner.Config, log: seq<Event>, finished: set<nat>)
    requires c.step > 0 && LogGood(c, log, finished) && c.upper + c.step <= 255
    ensures Reading(log, c.step, c.elastic, c.minStep).point.None? <==> Scanner.NoDataFrom(log, Scanner.Horizon(log))
  {
    if Scanner.NoDataFrom(log, Scanner.Horizon(log)) {
      Scanner.NoDataNoPoint(log, c.step, c.elastic, c.minStep);
    } else {
      var j: nat :| Scanner.Horizon(log) <= j < |log| && Scanner.IsData(log[j]);
      var k := DataIsUsable(c, log, finished, j);
      UsableIsRead(c, log, k);
    }
  }

  lemma DataIsUsable(c: Scanner.Config, log: seq<Event>, finished: set<nat>, j: nat) returns (k: nat)
    requires c.step > 0 && LogGood(c, log, finished) && c.upper + c.step <= 255
    requires Scanner.Horizon(log) <= j < |log| && Scanner.IsData(log[j])
    ensures j <= k < |log| && PointAt(log, k, c.step).Some?
  {
    assert GoodAt(c, finished, log, j);
    k := j;
    if log[j].TestResult? && log[j].resultCode.None? && CompletedFrom(log, j + 1, log[j].testCode) {
      k :| j + 1 <= k < |log| && CoreTest(log[k]) && log[k].resultCode.Some? && log[k].testCode == log[j].testCode;
      assert GoodAt(c, finished, log, k);
    }
  }

  /** A usable entry after the horizon is found by the reading. */
  lemma UsableIsRead(c: Scanner.Config, log: seq<Event>, k: nat)
    requires Scanner.Horizon(log) <= k < |log| && PointAt(log, k, c.step).Some?
    ensures Reading(log, c.step, c.elastic, c.minStep).point.Some?
  {
    assert PointTest(log, c.step)(k);
    assert forall q: nat :: Quiet(log, q, c.step) ==> q > k;
    assert forall q: nat :: ClosedAt(log, q, c.step) ==> q < Scanner.RoundStart(log);
  }

  /** In every run, whatever earlier crashes tore off or joined: a crash while a core test runs
      caps the next session's search at the test's offset and starts it below, if and only
      if a passed core test can be read back from the session or the default start lies
      below that offset. */
  lemma CrashIsRemembered(k: Codec<Event>, c: Scanner.Config, worlds: seq<World>, i: nat, l: Scanner.Limits)
    requires c.step > 0 && c.upper <= 255 && Laws(k) && IsRun(k, c, worlds) && i < |worlds|
    requires worlds[i].session.InTest?
    requires l.elastic == c.elastic && l.step == c.minStep && l.elastic >= l.step > 0 && l.initial < l.safe
    ensures worlds[i].session.pending.TestResult?
    ensures var log, d := Load(k, worlds[i].file), worlds[i].session.pending.delta;
      Scanner.CappedBelow(l, Recovered(k, c, worlds[i].file, false), d)
      <==> Scanner.SuccessLogged(log) || l.initial < d
  {
    RunKeeps(k, c, worlds, i);
    var s := worlds[i];
    PendingIsRead(k, c, s);
    Scanner.ResumesBelowCrash(l, LogOf(k, s.file[..s.session.start]), s.session.pending, c.step);
  }

  /** Step `i` ends the point `p`, whether or not its record comes down whole. */
  ghost predicate EndsPoint(k: Codec<Event>, c: Scanner.Config, worlds: seq<World>, i: nat, p: nat) {
    && i + 1 < |worlds| && worlds[i].session.On?
    && worlds[i].session.stage == Scanner.Testing && worlds[i].session.point == p
    && exists a :: Next(k, c, worlds[i], a) == Some(worlds[i + 1]) && (a.Complete? || a.Tear?) && a.write.PointEnds?
  }

  /** What `finished` means: a session did end that point, and since then no completed scan has
      reached the disk whole. */
  lemma {:induction false} FinishedMeansEnded(k: Codec<Event>, c: Scanner.Config, worlds: seq<World>, i: nat, p: nat)
    returns (j: nat)
    requires IsRun(k, c, worlds) && i < |worlds| && p in worlds[i].finished
    ensures j < i && EndsPoint(k, c, worlds, j, p)
    ensures forall m :: j < m <= i ==> p in worlds[m].finished
  {
    if p in worlds[i - 1].finished {
      j := FinishedMeansEnded(k, c, worlds, i - 1, p);
    } else {
      j := i - 1;
      EndedHere(k, c, worlds, j, p);
    }
  }

  lemma EndedHere(k: Codec<Event>, c: Scanner.Config, worlds: seq<World>, j: nat, p: nat)
    requires IsRun(k, c, worlds) && j + 1 < |worlds|
    requires p in worlds[j + 1].finished && p !in worlds[j].finished
    ensures EndsPoint(k, c, worlds, j, p)
  {
    assert Moves(k, c, worlds[j], worlds[j + 1]);
    var a :| Next(k, c, worlds[j], a) == Some(worlds[j + 1]);
    NewlyFinished(k, c, worlds[j], worlds[j + 1], a, p);
  }

  lemma NewlyFinished(k: Codec<Event>, c: Scanner.Config, s: World, s': World, a: Action, p: nat)
    requires Next(k, c, s, a) == Some(s') && p in s'.finished && p !in s.finished
    ensures s.session.On? && s.session.stage == Scanner.Testing && s.session.point == p
    ensures (a.Complete? || a.Tear?) && a.write.PointEnds?
  {
  }
}

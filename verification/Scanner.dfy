/** The normal-mode scan of `autoscan_gpuboostv3` (auto-optimizer/src/oc_scanner.rs):
    sessions that log every event, may die between any two of them, and resume from
    the log. */
module Scanner {
  import opened Options
  import opened Resume
  import opened Arithmetic
  import ScanLogFile
  import StepSearch
  import BoostPhases

  /** Lattice start, end and stride, and the parameters of the log reading. */
  datatype Config = Config(lower: nat, upper: nat, step: nat, elastic: int, minStep: int)

  /** Where a live session is: at the head of the point loop, between two tests of a
      point, inside a test, or past the loop. */
  datatype Stage = Top | Testing | Pending | Closing

  datatype State =
    | Down(log: seq<Event>)
    | Up(log: seq<Event>, point: nat, resuming: bool, stage: Stage)
    | Ultrafast(log: seq<Event>)  // a session that inherited that mode; no run has one

  datatype Action =
    | ProbeRange
    | Start(refused: bool)
    | NextPoint
    | BeginTest(phase: TestPhase, code: nat, delta: int)
    | EndTest(result: int)
    | FinishPoint
    | CompleteScan
    | Crash

  /** The session's first point and whether it is a resumed one. */
  ghost function StartAt(c: Config, r: BreakPoint): (nat, bool) {
    if r.point.Some? && c.lower <= r.point.value <= c.upper then (r.point.value, true)
    else (c.lower, r.ultrafast.Some?)
  }

  /** The state after an action, `None` where the action is not possible.  `refused` is
      the reader's choice not to resume from a log with corrupt records. */
  ghost function Next(c: Config, s: State, a: Action): Option<State> {
    match a
    case ProbeRange =>
      if s.Down? then Some(Down(s.log + [VoltageRange(c.lower, c.upper)])) else None
    case Start(refused) =>
      if !s.Down? || !(exists i :: 0 <= i < |s.log| && s.log[i].VoltageRange?) then None
      else
        var r := if refused then NOTHING else Reading(s.log, c.step, c.elastic, c.minStep);
        var (point, resuming) := StartAt(c, r);
        var log := s.log + [ScanMode(if r.ultrafast == Some(true) then UltrafastMode else NormalMode)];
        if r.ultrafast == Some(true) then Some(Ultrafast(log))
        else if point == 0 then Some(Down(log))
        else Some(Up(log, point, resuming, Top))
    case NextPoint =>
      if !(s.Up? && s.stage == Top) then None
      else if s.point > c.upper then Some(s.(stage := Closing))
      else
        var point := if s.resuming then s.point else s.point + c.step;
        if point > c.upper then Some(s.(point := point, stage := Closing))
        else Some(Up(s.log, point, false, Testing))
    case BeginTest(phase, code, delta) =>
      if !(s.Up? && s.stage == Testing) then None
      else Some(s.(log := s.log + [TestResult(Core, phase, code, s.point, delta, None)], stage := Pending))
    case EndTest(result) =>
      if !(s.Up? && s.stage == Pending && s.log != [] && s.log[|s.log| - 1].TestResult?) then None
      else Some(s.(log := s.log[|s.log| - 1 := s.log[|s.log| - 1].(resultCode := Some(result))], stage := Testing))
    case FinishPoint =>
      if !(s.Up? && s.stage == Testing) then None
      else Some(s.(log := s.log + [PointFinished(Core, s.point)], stage := Top))
    case CompleteScan =>
      if !(s.Up? && s.stage == Closing) then None
      else Some(Down(s.log + [ScanCompleted]))
    case Crash =>
      Some(Down(s.log))
  }

  /** A run: from an empty log, each state follows from the one before by some action. */
  ghost predicate IsRun(c: Config, states: seq<State>) {
    && states != [] && states[0] == Down([])
    && forall i :: 0 <= i < |states| - 1 ==> Moves(c, states[i], states[i + 1])
  }

  ghost predicate Moves(c: Config, s: State, s': State) {
    exists a :: Next(c, s, a) == Some(s')
  }

  /** A session begins inside the range, at the recovered point if that is one of it. */
  lemma StartIsInRange(c: Config, r: BreakPoint)
    requires c.lower <= c.upper
    ensures var (point, resuming) := StartAt(c, r);
      && c.lower <= point <= c.upper
      && (r.point.Some? && c.lower <= r.point.value <= c.upper ==> point == r.point.value && resuming)
      && (resuming ==> r.point.Some? || r.ultrafast.Some?)
  {
  }

  /** The first state of a session: there is none without a probed range in the log; it begins with
      a mode record; it does nothing if its first point is index zero. */
  lemma SessionBegins(c: Config, log: seq<Event>, refused: bool)
    ensures Next(c, Down(log), Start(refused)).None? <==> forall i :: 0 <= i < |log| ==> !log[i].VoltageRange?
    ensures Next(c, Down(log), Start(refused)).Some? ==>
      var s := Next(c, Down(log), Start(refused)).value;
      var r := if refused then NOTHING else Reading(log, c.step, c.elastic, c.minStep);
      && |s.log| == |log| + 1 && log <= s.log && s.log[|log|].ScanMode?
      && (s.Ultrafast? <==> r.ultrafast == Some(true)) && (s.Ultrafast? <==> s.log[|log|].mode == UltrafastMode)
      && (!s.Ultrafast? ==> (s.Down? <==> StartAt(c, r).0 == 0))
  {
  }

  /** An interrupted ultrafast session is followed by another one. */
  lemma UltrafastIsInherited(c: Config, pre: seq<Event>, s: seq<Event>)
    requires forall i :: 0 <= i < |s| ==> !s[i].ScanMode?
    requires var log := pre + [ScanMode(UltrafastMode)] + s;
      !Closed(log, c.step) && exists i :: 0 <= i < |log| && log[i].VoltageRange?
    ensures var log := pre + [ScanMode(UltrafastMode)] + s;
      Next(c, Down(log), Start(false)) == Some(Ultrafast(log + [ScanMode(UltrafastMode)]))
  {
    RecoveredModeIs(pre, UltrafastMode, s, c.step, c.elastic, c.minStep);
  }

  // ------------------------------------------------------------------ coverage

  /** Position after the last `ScanCompleted`. */
  ghost function RoundStart(log: seq<Event>): (k: nat)
    ensures k <= |log|
    ensures k > 0 ==> log[k - 1].ScanCompleted?
    ensures forall j :: k <= j < |log| ==> !log[j].ScanCompleted?
  {
    if log == [] then 0
    else if log[|log| - 1].ScanCompleted? then |log|
    else RoundStart(log[..|log| - 1])
  }

  ghost predicate Finished(log: seq<Event>, p: nat) {
    exists i :: RoundStart(log) <= i < |log| && log[i] == PointFinished(Core, p)
  }

  predicate OnLattice(c: Config, p: nat)
    requires c.step > 0
  {
    p >= c.lower && (p - c.lower) % c.step == 0
  }

  /** Every lattice point after the first and below `p` is finished in this round. */
  ghost predicate Covered(c: Config, log: seq<Event>, p: nat)
    requires c.step > 0
  {
    forall q: nat :: c.lower < q < p && OnLattice(c, q) ==> Finished(log, q)
  }

  lemma LatticeNeighbours(c: Config, p: nat, q: nat)
    requires c.step > 0 && OnLattice(c, p) && OnLattice(c, q)
    requires p < q
    ensures q >= p + c.step
  {
    var d, e := (q - c.lower) / c.step, (p - c.lower) / c.step;
    assert q - c.lower == c.step * d && p - c.lower == c.step * e;
    if d <= e { MulIsMonotone(d, e, c.step); } else { MulIsMonotone(e + 1, d, c.step); }
  }

  lemma LatticeNext(c: Config, p: nat)
    requires c.step > 0 && OnLattice(c, p)
    ensures OnLattice(c, p + c.step)
  {
    AddMultiple(p - c.lower, 1, c.step);
  }

  /** `OnLattice` means `lower + k * step`. */
  lemma LatticeIsMultiples(c: Config, p: nat)
    requires c.step > 0
    ensures OnLattice(c, p) <==> exists k: nat :: p == c.lower + k * c.step
  {
    if OnLattice(c, p) {
      var k: nat := (p - c.lower) / c.step;
      assert p == c.lower + k * c.step;
    }
    if k: nat :| p == c.lower + k * c.step {
      MultipleMod(k, c.step);
    }
  }

  lemma CoveredNext(c: Config, log: seq<Event>, p: nat)
    requires c.step > 0 && OnLattice(c, p) && Covered(c, log, p)
    requires p > c.lower ==> Finished(log, p)
    ensures Covered(c, log, p + c.step)
  {
    forall q: nat | c.lower < q < p + c.step && OnLattice(c, q) ensures Finished(log, q) {
      if q > p { LatticeNeighbours(c, p, q); }
    }
  }

  /** Appending an entry that does not close the round keeps what is finished. */
  lemma AppendKeeps(c: Config, log: seq<Event>, e: Event)
    requires c.step > 0 && !e.ScanCompleted?
    ensures RoundStart(log + [e]) == RoundStart(log)
    ensures forall p :: Finished(log, p) ==> Finished(log + [e], p)
    ensures forall p :: Covered(c, log, p) ==> Covered(c, log + [e], p)
  {
    assert (log + [e])[..|log|] == log;
    forall p | Finished(log, p) ensures Finished(log + [e], p) {
      var i :| RoundStart(log) <= i < |log| && log[i] == PointFinished(Core, p);
      assert (log + [e])[i] == log[i];
    }
  }

  /** Rewriting the result of the last entry keeps what is finished. */
  lemma OverwriteKeeps(c: Config, log: seq<Event>, e: Event)
    requires c.step > 0 && log != [] && log[|log| - 1].TestResult? && e.TestResult?
    ensures RoundStart(log[|log| - 1 := e]) == RoundStart(log)
    ensures forall p :: Finished(log, p) ==> Finished(log[|log| - 1 := e], p)
    ensures forall p :: Covered(c, log, p) ==> Covered(c, log[|log| - 1 := e], p)
  {
    var log' := log[|log| - 1 := e];
    assert log'[..|log| - 1] == log[..|log| - 1];
    forall p | Finished(log, p) ensures Finished(log', p) {
      var i :| RoundStart(log) <= i < |log| && log[i] == PointFinished(Core, p);
      assert log'[i] == log[i];
    }
  }

  /** An entry of the current round names a lattice point below which all is finished. */
  ghost predicate EntryOk(c: Config, log: seq<Event>, e: Event)
    requires c.step > 0
  {
    match e
    case TestResult(domain, _, _, at, _, _) =>
      domain == Core && OnLattice(c, at) && at <= c.upper && Covered(c, log, at)
    case PointFinished(domain, at) =>
      domain == Core && OnLattice(c, at) && at <= c.upper && Covered(c, log, at)
    case _ => true
  }

  ghost predicate EntryOkAt(c: Config, log: seq<Event>, i: nat)
    requires c.step > 0
  {
    i < |log| && EntryOk(c, log, log[i])
  }

  predicate IsData(e: Event) {
    e.TestResult? || e.PointFinished?
  }

  ghost predicate LogOk(c: Config, log: seq<Event>)
    requires c.step > 0
  {
    ModesOk(log) && EntriesOk(c, log) && DataPlaced(log)
  }

  ghost predicate ModesOk(log: seq<Event>) {
    forall i :: 0 <= i < |log| && log[i].ScanMode? ==> log[i].mode == NormalMode
  }

  /** Every entry of the current round is well placed. */
  ghost predicate EntriesOk(c: Config, log: seq<Event>)
    requires c.step > 0
  {
    forall i: nat :: RoundStart(log) <= i < |log| ==> EntryOkAt(c, log, i)
  }

  /** Data only stands behind a mode record, and behind the completed scan's one. */
  ghost predicate DataPlaced(log: seq<Event>) {
    && (SessionStart(log) < RoundStart(log) ==> NoDataFrom(log, RoundStart(log)))
    && (SessionStart(log) == 0 ==> NoDataFrom(log, 0))
  }

  /** No test and no finished point is logged from position `k` on. */
  ghost predicate NoDataFrom(log: seq<Event>, k: nat) {
    forall i :: k <= i < |log| ==> !IsData(log[i])
  }

  ghost predicate Inv(c: Config, s: State)
    requires c.step > 0
  {
    && LogOk(c, s.log) && !s.Ultrafast?
    && (s.Up? ==>
          && OnLattice(c, s.point) && InSession(s.log)
          && match s.stage
             case Top => Covered(c, s.log, if s.resuming then s.point else s.point + c.step)
             case Testing => !s.resuming && s.point <= c.upper && Covered(c, s.log, s.point)
             case Pending =>
               && !s.resuming && s.point <= c.upper && Covered(c, s.log, s.point)
               && s.log != [] && s.log[|s.log| - 1].TestResult?
               && s.log[|s.log| - 1].domain == Core && s.log[|s.log| - 1].at == s.point
             case Closing => Covered(c, s.log, c.upper + 1))
  }

  /** The log is in a session of the current round. */
  ghost predicate InSession(log: seq<Event>) { RoundStart(log) <= SessionStart(log) && SessionStart(log) > 0 }

  lemma EntryKeeps(c: Config, log: seq<Event>, log': seq<Event>, e: Event)
    requires c.step > 0 && EntryOk(c, log, e)
    requires forall p :: Covered(c, log, p) ==> Covered(c, log', p)
    ensures EntryOk(c, log', e)
  {
  }

  lemma EntryOfSamePoint(c: Config, log: seq<Event>, e: Event, e': Event)
    requires c.step > 0 && EntryOk(c, log, e)
    requires e == e' || (e.TestResult? && e'.TestResult? && e.domain == e'.domain && e.at == e'.at)
    ensures EntryOk(c, log, e')
  {
  }

  /** Appending an entry keeps the log well formed: the part about single entries, and the
      part about where data may stand. */
  lemma AppendOk(c: Config, log: seq<Event>, e: Event)
    requires c.step > 0 && LogOk(c, log) && !e.ScanCompleted?
    requires EntryOk(c, log, e)
    requires e.ScanMode? ==> e.mode == NormalMode
    requires IsData(e) ==> InSession(log)
    ensures LogOk(c, log + [e])
    ensures SessionStart(log + [e]) == if e.ScanMode? then |log| + 1 else SessionStart(log)
  {
    AppendModesOk(log, e);
    AppendEntriesOk(c, log, e);
    AppendDataOk(c, log, e);
  }

  lemma AppendModesOk(log: seq<Event>, e: Event)
    requires ModesOk(log) && (e.ScanMode? ==> e.mode == NormalMode)
    ensures ModesOk(log + [e])
  {
  }

  lemma AppendDataOk(c: Config, log: seq<Event>, e: Event)
    requires c.step > 0 && !e.ScanCompleted? && (IsData(e) ==> InSession(log)) && DataPlaced(log)
    ensures SessionStart(log + [e]) == if e.ScanMode? then |log| + 1 else SessionStart(log)
    ensures DataPlaced(log + [e])
  {
    AppendKeeps(c, log, e);
    SessionStartAfter(log, e);
    if !IsData(e) { NoDataAppend(log, e); }
  }

  lemma NoDataAppend(log: seq<Event>, e: Event)
    requires !IsData(e)
    ensures forall k: nat :: NoDataFrom(log, k) ==> NoDataFrom(log + [e], k)
  {
  }

  lemma AppendEntriesOk(c: Config, log: seq<Event>, e: Event)
    requires c.step > 0 && !e.ScanCompleted? && EntryOk(c, log, e) && EntriesOk(c, log)
    ensures EntriesOk(c, log + [e])
  {
    var log' := log + [e];
    AppendKeeps(c, log, e);
    forall i: nat | RoundStart(log') <= i < |log'| ensures EntryOkAt(c, log', i) {
      assert i < |log| ==> EntryOkAt(c, log, i);
      EntryKeeps(c, log, log', log'[i]);
    }
  }

  lemma SessionStartAfter(log: seq<Event>, e: Event)
    ensures SessionStart(log + [e]) == if e.ScanMode? then |log| + 1 else SessionStart(log)
  {
    SessionStartIs(log + [e], if e.ScanMode? then |log| + 1 else SessionStart(log));
  }

  lemma OverwriteOk(c: Config, log: seq<Event>, e: Event)
    requires c.step > 0 && LogOk(c, log) && log != []
    requires log[|log| - 1].TestResult? && e.TestResult?
    requires e.domain == log[|log| - 1].domain && e.at == log[|log| - 1].at
    ensures LogOk(c, log[|log| - 1 := e])
    ensures SessionStart(log[|log| - 1 := e]) == SessionStart(log)
  {
    var log' := log[|log| - 1 := e];
    OverwriteKeeps(c, log, e);
    SessionStartIs(log', SessionStart(log));
    forall i: nat | RoundStart(log') <= i < |log'| ensures EntryOkAt(c, log', i) {
      assert EntryOkAt(c, log, i);
      EntryKeeps(c, log, log', log[i]);
      EntryOfSamePoint(c, log', log[i], log'[i]);
    }
    assert forall i :: 0 <= i < |log'| ==> (IsData(log'[i]) <==> IsData(log[i]));
    assert !NoDataFrom(log, 0) by { assert IsData(log[|log| - 1]); }
  }

  lemma CloseOk(c: Config, log: seq<Event>)
    requires c.step > 0 && LogOk(c, log)
    ensures LogOk(c, log + [ScanCompleted])
  {
  }

  /** The point read from the log is a lattice point with everything below it finished. */
  lemma ReadPointIsCovered(c: Config, log: seq<Event>)
    requires c.step > 0 && LogOk(c, log)
    ensures var r := Reading(log, c.step, c.elastic, c.minStep);
      && r.ultrafast != Some(true)
      && (r.point.Some? ==> OnLattice(c, r.point.value) && Covered(c, log, r.point.value))
  {
    var r := Reading(log, c.step, c.elastic, c.minStep);
    if r.point.Some? {
      var lo := SessionStart(log);
      var k := Last(lo, |log|, PointTest(log, c.step)).value;
      assert PointTest(log, c.step)(k);
      if lo < RoundStart(log) { SwallowedIsClosed(log, c.step, RoundStart(log)); }
      var e := log[k];
      assert EntryOkAt(c, log, k);
      if e.PointFinished? {
        assert log[k] == PointFinished(Core, e.at);
        assert Finished(log, e.at);
        CoveredNext(c, log, e.at);
        LatticeNext(c, e.at);
      }
    }
  }

  lemma NoDataIsQuiet(log: seq<Event>, k: nat, testingStep: nat)
    requires NoDataFrom(log, k)
    ensures Quiet(log, k, testingStep)
  {
  }

  /** A session that a completed round has swallowed reads as closed. */
  lemma SwallowedIsClosed(log: seq<Event>, testingStep: nat, n: nat)
    requires SessionStart(log) < n <= |log| && log[n - 1].ScanCompleted?
    requires NoDataFrom(log, n)
    ensures Closed(log, testingStep)
  {
    NoDataIsQuiet(log, n - 1, testingStep);
    assert ClosedAt(log, n - 1, testingStep);
  }

  /** The log after the mode record of a new session. */
  lemma ModeAppended(c: Config, log: seq<Event>)
    requires c.step > 0 && LogOk(c, log)
    ensures var log' := log + [ScanMode(NormalMode)];
      LogOk(c, log') && InSession(log') && forall p :: Covered(c, log, p) ==> Covered(c, log', p)
  {
    AppendOk(c, log, ScanMode(NormalMode));
    AppendKeeps(c, log, ScanMode(NormalMode));
  }

  /** Wherever a session starts, the points its loop skips are finished. */
  lemma StartIsCovered(c: Config, log: seq<Event>, r: BreakPoint)
    requires c.step > 0
    requires r.point.Some? ==> OnLattice(c, r.point.value) && Covered(c, log, r.point.value)
    ensures var (point, resuming) := StartAt(c, r);
      OnLattice(c, point) && Covered(c, log, if resuming then point else point + c.step)
  {
    assert Covered(c, log, c.lower);
    CoveredNext(c, log, c.lower);
  }

  /** What a session of a normal scan does first. */
  lemma StartShape(c: Config, log: seq<Event>, refused: bool, r: BreakPoint)
    requires r == if refused then NOTHING else Reading(log, c.step, c.elastic, c.minStep)
    requires r.ultrafast != Some(true) && Next(c, Down(log), Start(refused)).Some?
    ensures var log', (point, resuming) := log + [ScanMode(NormalMode)], StartAt(c, r);
      Next(c, Down(log), Start(refused)).value == if point == 0 then Down(log') else Up(log', point, resuming, Top)
  {
  }

  lemma StartedInv(c: Config, log: seq<Event>, point: nat, resuming: bool)
    requires c.step > 0 && LogOk(c, log) && InSession(log) && OnLattice(c, point)
    requires Covered(c, log, if resuming then point else point + c.step)
    ensures Inv(c, Down(log)) && Inv(c, Up(log, point, resuming, Top))
  {
  }

  lemma StartKeeps(c: Config, s: State, refused: bool)
    requires c.step > 0 && LogOk(c, s.log) && s.Down? && Next(c, s, Start(refused)).Some?
    ensures Inv(c, Next(c, s, Start(refused)).value)
  {
    var r := if refused then NOTHING else Reading(s.log, c.step, c.elastic, c.minStep);
    var log' := s.log + [ScanMode(NormalMode)];
    ReadPointIsCovered(c, s.log);
    ModeAppended(c, s.log);
    StartShape(c, s.log, refused, r);
    StartIsCovered(c, log', r);
    StartedInv(c, log', StartAt(c, r).0, StartAt(c, r).1);
  }

  lemma NextPointKeeps(c: Config, s: State)
    requires c.step > 0 && Inv(c, s) && s.Up? && s.stage == Top
    ensures Inv(c, Next(c, s, NextPoint).value)
  {
    LatticeNext(c, s.point);
  }

  lemma BeginTestKeeps(c: Config, s: State, phase: TestPhase, code: nat, delta: int)
    requires c.step > 0 && Inv(c, s) && s.Up? && s.stage == Testing
    ensures Inv(c, Next(c, s, BeginTest(phase, code, delta)).value)
  {
    var e := TestResult(Core, phase, code, s.point, delta, None);
    AppendOk(c, s.log, e);
    AppendKeeps(c, s.log, e);
  }

  lemma ProbeKeeps(c: Config, s: State)
    requires c.step > 0 && Inv(c, s) && s.Down?
    ensures Inv(c, Next(c, s, ProbeRange).value)
  {
    AppendOk(c, s.log, VoltageRange(c.lower, c.upper));
  }

  lemma CompleteKeeps(c: Config, s: State)
    requires c.step > 0 && Inv(c, s) && s.Up? && s.stage == Closing
    ensures Inv(c, Next(c, s, CompleteScan).value)
  {
    CloseOk(c, s.log);
  }

  lemma EndTestKeeps(c: Config, s: State, result: int)
    requires c.step > 0 && Inv(c, s) && s.Up? && s.stage == Pending
    ensures Inv(c, Next(c, s, EndTest(result)).value)
  {
    OverwriteInv(c, s, s.log[|s.log| - 1].(resultCode := Some(result)));
  }

  lemma OverwriteInv(c: Config, s: State, e: Event)
    requires c.step > 0 && Inv(c, s) && s.Up? && s.stage == Pending
    requires e.TestResult? && e.domain == s.log[|s.log| - 1].domain && e.at == s.log[|s.log| - 1].at
    ensures Inv(c, s.(log := s.log[|s.log| - 1 := e], stage := Testing))
  {
    OverwriteOk(c, s.log, e);
    OverwriteKeeps(c, s.log, e);
  }

  lemma FinishPointKeeps(c: Config, s: State)
    requires c.step > 0 && Inv(c, s) && s.Up? && s.stage == Testing && !s.resuming
    ensures Inv(c, Next(c, s, FinishPoint).value)
  {
    var e := PointFinished(Core, s.point);
    AppendOk(c, s.log, e);
    AppendKeeps(c, s.log, e);
    assert (s.log + [e])[|s.log|] == e;
    assert Finished(s.log + [e], s.point);
    CoveredNext(c, s.log + [e], s.point);
  }

  lemma StepKeeps(c: Config, s: State, a: Action)
    requires c.step > 0 && Inv(c, s) && Next(c, s, a).Some?
    ensures Inv(c, Next(c, s, a).value)
  {
    match a {
      case ProbeRange => ProbeKeeps(c, s);
      case Start(refused) => StartKeeps(c, s, refused);
      case NextPoint => NextPointKeeps(c, s);
      case BeginTest(phase, code, delta) => BeginTestKeeps(c, s, phase, code, delta);
      case EndTest(result) => EndTestKeeps(c, s, result);
      case FinishPoint => FinishPointKeeps(c, s);
      case CompleteScan => CompleteKeeps(c, s);
      case Crash =>
    }
  }

  lemma {:induction false} RunKeeps(c: Config, states: seq<State>, i: nat)
    requires c.step > 0 && IsRun(c, states) && i < |states|
    ensures Inv(c, states[i])
  {
    if i > 0 {
      RunKeeps(c, states, i - 1);
      assert Moves(c, states[i - 1], states[i]);
      var a :| Next(c, states[i - 1], a) == Some(states[i]);
      StepKeeps(c, states[i - 1], a);
    }
  }

  /** Over every run of sessions with crashes anywhere: while a point is under test, no
      lattice point below it (the first one aside) is left unfinished in this round. */
  lemma NoPointLeftBehind(c: Config, states: seq<State>, i: nat, k: nat)
    requires c.step > 0 && IsRun(c, states) && i < |states|
    requires states[i].Up? && (states[i].stage == Testing || states[i].stage == Pending)
    requires k >= 1 && c.lower + k * c.step < states[i].point
    ensures Finished(states[i].log, c.lower + k * c.step)
    ensures OnLattice(c, states[i].point) && states[i].point <= c.upper
  {
    RunKeeps(c, states, i);
    assert c.lower + k * c.step > c.lower;
    LatticeIsMultiples(c, c.lower + k * c.step);
  }

  /** `ScanCompleted` is appended only when every lattice point up to the upper end
      (the first one aside) is finished in the round it closes. */
  lemma CompletedMeansAllFinished(c: Config, states: seq<State>, i: nat, k: nat)
    requires c.step > 0 && IsRun(c, states) && i + 1 < |states|
    requires states[i + 1].log == states[i].log + [ScanCompleted]
    requires k >= 1 && c.lower + k * c.step <= c.upper
    ensures Finished(states[i].log, c.lower + k * c.step)
  {
    RunKeeps(c, states, i);
    assert Moves(c, states[i], states[i + 1]);
    var a :| Next(c, states[i], a) == Some(states[i + 1]);
    var log' := states[i + 1].log;
    assert log'[|log'| - 1] == ScanCompleted && |log'| == |states[i].log| + 1;
    assert a.CompleteScan?;
    assert c.lower + k * c.step > c.lower;
    LatticeIsMultiples(c, c.lower + k * c.step);
  }

  /** A run goes on by one action. */
  lemma RunOn(c: Config, states: seq<State>, a: Action, s: State)
    returns (longer: seq<State>)
    requires IsRun(c, states) && Next(c, states[|states| - 1], a) == Some(s)
    ensures IsRun(c, longer) && longer[|longer| - 1] == s
  {
    longer := states + [s];
    assert Moves(c, states[|states| - 1], s);
  }

  /** The records of the points from `p` on, one for each. */
  function FinishesFrom(c: Config, p: nat): seq<Event>
    requires c.step > 0
    decreases c.upper + 1 - p
  {
    if p > c.upper then [] else [PointFinished(Core, p)] + FinishesFrom(c, p + c.step)
  }

  /** A session that nothing interrupts gets to the end: from every state a run can bring it to at
      the head of the point loop it goes on to a completed scan, with every lattice point left
      finished once and in order, the one it resumed at among them. */
  lemma {:induction false} SessionCanComplete(c: Config, states: seq<State>) returns (longer: seq<State>)
    requires c.step > 0 && IsRun(c, states)
    requires states[|states| - 1].Up? && states[|states| - 1].stage == Top
    ensures IsRun(c, longer)
    ensures var s := states[|states| - 1];
      longer[|longer| - 1]
      == Down(s.log + FinishesFrom(c, if s.resuming then s.point else s.point + c.step) + [ScanCompleted])
    decreases c.upper + c.step - states[|states| - 1].point, states[|states| - 1].resuming
  {
    var s := states[|states| - 1];
    var p := if s.resuming then s.point else s.point + c.step;
    longer := RunOn(c, states, NextPoint, Next(c, s, NextPoint).value);
    if p > c.upper {
      assert s.log + [] == s.log;
      longer := RunOn(c, longer, CompleteScan, Down(s.log + [ScanCompleted]));
    } else {
      var log := s.log + [PointFinished(Core, p)];
      longer := RunOn(c, longer, FinishPoint, Up(log, p, false, Top));
      longer := SessionCanComplete(c, longer);
      assert log + FinishesFrom(c, p + c.step) == s.log + FinishesFrom(c, p);
    }
  }

  /** A normal scan never turns into an ultrafast one by inheriting the log's mode. */
  lemma NeverTurnsUltrafast(c: Config, states: seq<State>, i: nat)
    requires c.step > 0 && IsRun(c, states) && i < |states|
    ensures Reading(states[i].log, c.step, c.elastic, c.minStep).ultrafast != Some(true)
  {
    RunKeeps(c, states, i);
    ReadPointIsCovered(c, states[i].log);
  }

  /** Where the entries that can send a resumed scan to a point begin: after the last mode
      record and after the last completed scan. */
  ghost function Horizon(log: seq<Event>): nat {
    if SessionStart(log) <= RoundStart(log) then RoundStart(log) else SessionStart(log)
  }

  /** A test of the session that no later entry completes is usable, and so is the result that
      completes it. */
  lemma DataIsUsable(c: Config, log: seq<Event>, j: nat)
    requires c.step > 0 && LogOk(c, log) && c.upper + c.step <= 255
    requires Horizon(log) <= j < |log| && IsData(log[j])
    ensures exists i: nat :: j <= i < |log| && PointAt(log, i, c.step).Some?
  {
    assert EntryOkAt(c, log, j);
    if log[j].TestResult? && log[j].resultCode.None? && CompletedFrom(log, j + 1, log[j].testCode) {
      var i :| j + 1 <= i < |log| && CoreTest(log[i]) && log[i].resultCode.Some? && log[i].testCode == log[j].testCode;
      assert EntryOkAt(c, log, i);
      assert PointAt(log, i, c.step).Some?;
    } else {
      assert PointAt(log, j, c.step).Some?;
    }
  }

  /** In every run a session that starts finds a point to go on from if and only if a test
      or a finished point is logged since the last mode record and the last completed scan. */
  lemma KeepsPlaceIff(c: Config, states: seq<State>, i: nat)
    requires c.step > 0 && IsRun(c, states) && i < |states| && c.upper + c.step <= 255
    ensures var log := states[i].log;
      Reading(log, c.step, c.elastic, c.minStep).point.None? <==> NoDataFrom(log, Horizon(log))
  {
    RunKeeps(c, states, i);
    var log := states[i].log;
    if NoDataFrom(log, Horizon(log)) {
      NoDataNoPoint(log, c.step, c.elastic, c.minStep);
    } else {
      var j: nat :| Horizon(log) <= j < |log| && IsData(log[j]);
      DataIsUsable(c, log, j);
      var k: nat :| j <= k < |log| && PointAt(log, k, c.step).Some?;
      assert PointTest(log, c.step)(k);
      assert forall q: nat :: Quiet(log, q, c.step) ==> q > k;
      assert forall q: nat :: ClosedAt(log, q, c.step) ==> q < RoundStart(log);
    }
  }

  lemma NoDataNoPoint(log: seq<Event>, testingStep: nat, elastic: int, minStep: int)
    requires NoDataFrom(log, Horizon(log))
    ensures Reading(log, testingStep, elastic, minStep).point.None?
  {
    var lo := SessionStart(log);
    if lo < RoundStart(log) {
      SwallowedIsClosed(log, testingStep, RoundStart(log));
    } else {
      assert Last(lo, |log|, PointTest(log, testingStep)).None?;
    }
  }

  /** So a crash right after the mode record sends the next session back to the lowest point,
      which it then tests itself: nothing is skipped, but nothing is remembered. */
  lemma CrashAfterModeRestarts(c: Config, log: seq<Event>)
    requires c.step > 0
    ensures StartAt(c, Reading(log + [ScanMode(NormalMode)], c.step, c.elastic, c.minStep)) == (c.lower, true)
  {
    var log' := log + [ScanMode(NormalMode)];
    SessionStartIs(log', |log'|);
    NoDataNoPoint(log', c.step, c.elastic, c.minStep);
    assert log'[|log'| - 1] == ScanMode(NormalMode);
  }

  // ----------------------------------------------------- resuming after a crash

  /** The limits the scanner hands to a new controller. */
  datatype Limits = Limits(initial: int, safe: int, elastic: int, step: int, exp: nat)

  /** What the recovered offsets make of the controller: the recorded ones where there
      are any, the defaults elsewhere, and a fresh start above the backed-off default
      when the failure lies below the success. */
  function StartSearch(l: Limits, r: BreakPoint): (c: Option<StepSearch.Search>)
    requires l.step > 0
  {
    var fc, fm := r.success.GetOr(l.initial), r.failed.GetOr(l.safe);
    if fm < fc then
      var fc' := fc - l.elastic;
      if fc' + l.step < l.safe
      then Some(StepSearch.Search(l.exp, StepSearch.FirstFit(fc', l.step, l.exp + 1, l.safe, 0), fc', l.safe))
      else None  // the start-up loop would underflow
    else if fc - l.elastic + l.step < StepSearch.ResumeLimit(fc, fm, l.elastic)
    then Some(StepSearch.Resumed(fc, fm, l.elastic, l.step, l.exp))
    else None
  }

  /** A core test that passed is logged in the current session. */
  ghost predicate SuccessLogged(log: seq<Event>) {
    exists j :: SessionStart(log) <= j < |log| && CoreTest(log[j]) && log[j].resultCode == Some(0)
  }

  /** A success is recovered from an interrupted session exactly when one was logged. */
  lemma SuccessIsRecovered(log: seq<Event>, e: Event, testingStep: nat, elastic: int, minStep: int)
    requires CoreTest(e) && e.resultCode.None? && minStep > 0
    ensures Reading(log + [e], testingStep, elastic, minStep).success.Some? <==> SuccessLogged(log + [e])
  {
    var log' := log + [e];
    UnfinishedTestIsFailure(log, e, testingStep, elastic, minStep);
    var k := Last(SessionStart(log'), |log'|, SuccessTest(log'));
    if SuccessLogged(log') {
      var j :| SessionStart(log') <= j < |log'| && CoreTest(log'[j]) && log'[j].resultCode == Some(0);
      assert SuccessTest(log')(j);
    }
  }

  /** The search is capped at the crash offset `d` and starts strictly below it. */
  predicate CappedBelow(l: Limits, r: BreakPoint, d: int)
    requires l.step > 0
  {
    StartSearch(l, r).Some? && StartSearch(l, r).value.limit == d && StartSearch(l, r).value.current < d
  }

  /** After a crash inside a core test at offset `d`, the next session's search is
      capped at `d` and starts strictly below it, if and only if a passed core test is logged
      in the session or the default start lies below `d`. */
  lemma ResumesBelowCrash(l: Limits, log: seq<Event>, e: Event, testingStep: nat)
    requires CoreTest(e) && e.resultCode.None?
    requires l.elastic >= l.step > 0 && l.initial < l.safe
    ensures CappedBelow(l, Reading(log + [e], testingStep, l.elastic, l.step), e.delta)
       <==> SuccessLogged(log + [e]) || l.initial < e.delta
  {
    UnfinishedTestIsFailure(log, e, testingStep, l.elastic, l.step);
    SuccessIsRecovered(log, e, testingStep, l.elastic, l.step);
    var r := Reading(log + [e], testingStep, l.elastic, l.step);
    var fc := r.success.GetOr(l.initial);
    if fc < e.delta {
      StepSearch.ResumeStartsBelowFailure(fc, e.delta, l.elastic, l.step, l.exp);
    } else {
      assert r.success.None?;
    }
  }

  /** The same from the bytes up: a crash after the pending record of a core test reached
      the disk, wherever the scan stood. */
  lemma DiskRemembersCrash(k: ScanLogFile.Codec<Event>, l: Limits, log: seq<Event>, e: Event, testingStep: nat)
    requires ScanLogFile.Lawful(k)
    requires CoreTest(e) && e.resultCode.None?
    requires l.elastic >= l.step > 0 && l.initial < l.safe
    ensures var file := ScanLogFile.EncodeAll(k, log) + ScanLogFile.Record(k, e);
      CappedBelow(l, Reading(ScanLogFile.Load(k, file), testingStep, l.elastic, l.step), e.delta)
      <==> SuccessLogged(log + [e]) || l.initial < e.delta
  {
    ScanLogFile.EncodeSnoc(k, log, e);
    ScanLogFile.LoadEncoded(k, log + [e]);
    ResumesBelowCrash(l, log, e, testingStep);
  }

  /** Whether the start-up loop of the next session's controller underflows its exponent, in
      the recovered offsets: exactly when a success without a failure lies at or above the
      default limit and backing off leaves no step below it, or when the one failure is the
      default start itself and the elastic margin is a single step. */
  lemma StartLoopUnderflowsIff(l: Limits, log: seq<Event>, testingStep: nat)
    requires l.elastic >= l.step > 0 && l.initial < l.safe
    ensures var r := Reading(log, testingStep, l.elastic, l.step);
      StartSearch(l, r).None? <==>
        || (r.failed.None? && r.success.Some? && r.success.value >= l.safe
            && r.success.value - l.elastic + l.step >= l.safe)
        || (r.success.None? && r.failed == Some(l.initial) && l.elastic == l.step)
  {
    SuccessBelowFailure(log, testingStep, l.elastic, l.step);
  }

  /** Whether a session whose start-up loop ends begins with a short phase that can underflow,
      for every log and every exponent of at least three: exactly when it does not count as
      resumed, its recovered failure lies below its recovered success, and two steps do not
      fit between the backed-off success and the default limit. */
  lemma FirstShortPhaseUnderflowsIff(c: Config, l: Limits, log: seq<Event>)
    requires l.elastic == c.elastic && l.step == c.minStep && l.elastic >= l.step > 0
    requires l.initial < l.safe && l.exp >= 3
    ensures var r := Reading(log, c.step, c.elastic, c.minStep);
      StartSearch(l, r).Some? ==>
        (UnderflowsFirst(c, l, r) <==>
          !StartAt(c, r).1 && r.failed.GetOr(l.safe) < r.success.GetOr(l.initial)
          && r.success.GetOr(l.initial) - l.elastic + 2 * l.step >= l.safe)
  {
    var r := Reading(log, c.step, c.elastic, c.minStep);
    var fc, fm := r.success.GetOr(l.initial), r.failed.GetOr(l.safe);
    SuccessBelowFailure(log, c.step, c.elastic, c.minStep);
    if StartSearch(l, r).Some? {
      var c0 := StartSearch(l, r).value;
      BoostPhases.UnderflowIff(c0, l.step);
      if fm < fc {
        NewProgressIff(fc - l.elastic, l.step, l.exp, l.safe);
        assert c0.current == fc - l.elastic && c0.limit == l.safe && c0.exp == l.exp;
        assert BoostPhases.Startable(c0, l.step) <==> fc - l.elastic + 2 * l.step < l.safe;
        assert fc - l.elastic + 2 * l.step >= l.safe ==> c0.progress == l.exp + 1;
        assert UnderflowsFirst(c, l, r) <==> !StartAt(c, r).1 && !BoostPhases.Startable(c0, l.step);
      } else if fc < fm - l.step {
        StepSearch.FirstFitIsLeast(fc - l.elastic, l.step, l.exp, StepSearch.ResumeLimit(fc, fm, l.elastic), 0);
      }
    }
  }

  /** The short phase of the first point runs, and some verdicts make its exponent underflow. */
  ghost predicate UnderflowsFirst(c: Config, l: Limits, r: BreakPoint)
    requires l.step > 0 && StartSearch(l, r).Some?
  {
    var c0 := StartSearch(l, r).value;
    !BoostPhases.Skips(c0, StartAt(c, r).1) && BoostPhases.MayUnderflow(c0, l.step)
  }

  /** A fresh start-up loop raises the progress past the exponent if and only if two steps do
      not fit below the limit. */
  lemma NewProgressIff(current: int, step: int, exp: nat, limit: int)
    requires step > 0 && current + step < limit
    ensures var p := StepSearch.FirstFit(current, step, exp + 1, limit, 0);
      p <= exp + 1 && (p == exp + 1 <==> current + 2 * step >= limit)
  {
    StepSearch.FirstFitIsLeast(current, step, exp + 1, limit, 0);
    var p := StepSearch.FirstFit(current, step, exp + 1, limit, 0);
    assert StepSearch.Stride(step, 1) == 2 * step;
    if current + 2 * step < limit {
      assert StepSearch.StrideFits(current, step, exp + 1, limit, exp);
    } else if p <= exp {
      StepSearch.StrideGrows(step, 1, exp + 1 - p);
    }
  }

  /** So with crashes between events it never happens: a recovered offset comes with a recovered
      mode, and that makes the session a resumed one. */
  lemma FirstShortPhaseNeverUnderflows(c: Config, l: Limits, states: seq<State>, i: nat)
    requires c.step > 0 && IsRun(c, states) && i < |states|
    requires l.elastic == c.elastic && l.step == c.minStep && l.elastic >= l.step > 0
    requires l.initial < l.safe && l.exp >= 3
    ensures var r := Reading(states[i].log, c.step, c.elastic, c.minStep);
      StartSearch(l, r).Some? ==> !UnderflowsFirst(c, l, r)
  {
    RunKeeps(c, states, i);
    OffsetsNeedAMode(c, states[i].log);
    FirstShortPhaseUnderflowsIff(c, l, states[i].log);
  }

  /** Recovered offsets come with a recovered mode. */
  lemma OffsetsNeedAMode(c: Config, log: seq<Event>)
    requires c.step > 0 && LogOk(c, log)
    ensures var r := Reading(log, c.step, c.elastic, c.minStep);
      r.success.Some? || r.failed.Some? ==> r.ultrafast.Some?
  {
    var lo := SessionStart(log);
    var ks, kf := Last(lo, |log|, SuccessTest(log)), Last(lo, |log|, FailureTest(log));
    assert ks.Some? ==> IsData(log[ks.value]);
    assert kf.Some? ==> IsData(log[kf.value]);
  }

  /** The other half, concretely: a default start equal to the crash offset resumes the
      search exactly at the offset that crashed, with the short phase switched off. */
  lemma ResumesAtCrashOffset()
    ensures var l := Limits(90000, 300000, 30000, 15000, 3);
      var e := TestResult(Core, Short, 1, 40, 90000, None);
      StartSearch(l, Reading([ScanMode(NormalMode), e], 3, 30000, 15000))
        == Some(StepSearch.Search(3, 4, 90000, 90000))
  {
    var log := [ScanMode(NormalMode)];
    var e := TestResult(Core, Short, 1, 40, 90000, None);
    UnfinishedTestIsFailure(log, e, 3, 30000, 15000);
    assert log + [e] == [ScanMode(NormalMode), e];
    SessionStartIs(log + [e], 1);
    LastIsUnique(1, 2, SuccessTest(log + [e]), None);
  }
}

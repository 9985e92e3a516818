/** The two models of the scan agree: a run on bytes whose writes all come to their end is a run
    on events with the same log (auto-optimizer/src/oc_scanner.rs, auto-optimizer/src/scan_log.rs). */
module WholeWrites {
  import opened Options
  import opened Resume
  import opened ScanLogFile
  import Scanner
  import TornScan

  /** The file is the encoded log, and the sessions stand at the same place. */
  ghost predicate Shows(k: Codec<Event>, s: TornScan.World, t: Scanner.State) {
    && s.file == EncodeAll(k, t.log)
    && match s.session
       case Off => t.Down?
       case Ready => t.Down? && TornScan.HasRange(t.log)
       case On(point, resuming, stage) =>
         && t == Scanner.Up(t.log, point, resuming, stage)
         && stage != Scanner.Pending && (stage == Scanner.Testing ==> !resuming)
       case InTest(point, start, pending) =>
         && t == Scanner.Up(t.log, point, false, Scanner.Pending)
         && t.log != [] && pending == t.log[|t.log| - 1] && pending.TestResult?
         && start == |EncodeAll(k, t.log[..|t.log| - 1])|
       case Fast => t.Ultrafast?
  }

  /** What a write is on the other side. */
  ghost function ActionOf(w: TornScan.Write): Scanner.Action {
    match w
    case Range => Scanner.ProbeRange
    case Begins(refused) => Scanner.Start(refused)
    case TestBegins(phase, code, delta) => Scanner.BeginTest(phase, code, delta)
    case TestEnds(result) => Scanner.EndTest(result)
    case PointEnds => Scanner.FinishPoint
    case ScanEnds => Scanner.CompleteScan
  }

  /** A whole write appends its record to the encoded log. */
  lemma AppendShows(k: Codec<Event>, s: TornScan.World, log: seq<Event>, e: Event)
    requires s.file == EncodeAll(k, log) && !s.session.InTest?
    ensures s.file[..TornScan.StartOf(s)] + Record(k, e) == EncodeAll(k, log + [e])
  {
    EncodeSnoc(k, log, e);
    assert s.file[..|s.file|] == s.file;
  }

  /** Or overwrites the pending one. */
  lemma OverwriteShows(k: Codec<Event>, s: TornScan.World, t: Scanner.State, e: Event)
    requires Shows(k, s, t) && s.session.InTest?
    ensures TornScan.StartOf(s) <= |s.file|
    ensures s.file[..TornScan.StartOf(s)] + Record(k, e) == EncodeAll(k, t.log[|t.log| - 1 := e])
  {
    var before := t.log[..|t.log| - 1];
    assert t.log == before + [t.log[|t.log| - 1]] && t.log[|t.log| - 1 := e] == before + [e];
    EncodeSnoc(k, before, t.log[|t.log| - 1]);
    EncodeSnoc(k, before, e);
  }

  /** A result is the end of a test. */
  lemma ResultRefines(k: Codec<Event>, c: Scanner.Config, s: TornScan.World, result: int, t: Scanner.State)
    requires Lawful(k) && Shows(k, s, t) && TornScan.Next(k, c, s, TornScan.Complete(TornScan.TestEnds(result))).Some?
    ensures Scanner.Next(c, t, Scanner.EndTest(result)).Some?
    ensures Shows(k, TornScan.Next(k, c, s, TornScan.Complete(TornScan.TestEnds(result))).value,
                  Scanner.Next(c, t, Scanner.EndTest(result)).value)
  {
    OverwriteShows(k, s, t, TornScan.Written(k, c, s, TornScan.TestEnds(result)).value);
  }

  /** A mode record is the start of a session. */
  lemma ModeRefines(k: Codec<Event>, c: Scanner.Config, s: TornScan.World, refused: bool, t: Scanner.State)
    requires Lawful(k) && Shows(k, s, t) && TornScan.Next(k, c, s, TornScan.Complete(TornScan.Begins(refused))).Some?
    ensures Scanner.Next(c, t, Scanner.Start(refused)).Some?
    ensures Shows(k, TornScan.Next(k, c, s, TornScan.Complete(TornScan.Begins(refused))).value,
                  Scanner.Next(c, t, Scanner.Start(refused)).value)
  {
    LoadEncoded(k, t.log);
    AppendShows(k, s, t.log, TornScan.Written(k, c, s, TornScan.Begins(refused)).value);
  }

  /** A whole write is the action it stands for. */
  lemma WriteRefines(k: Codec<Event>, c: Scanner.Config, s: TornScan.World, w: TornScan.Write, t: Scanner.State)
    returns (t': Scanner.State)
    requires Lawful(k) && Shows(k, s, t) && TornScan.Next(k, c, s, TornScan.Complete(w)).Some?
    ensures Scanner.Next(c, t, ActionOf(w)) == Some(t')
    ensures Shows(k, TornScan.Next(k, c, s, TornScan.Complete(w)).value, t')
  {
    match w {
      case TestEnds(result) => ResultRefines(k, c, s, result, t);
      case Begins(refused) => ModeRefines(k, c, s, refused, t);
      case _ =>
        var e := TornScan.Written(k, c, s, w).value;
        AppendShows(k, s, t.log, e);
        assert (t.log + [e])[..|t.log|] == t.log && (t.log + [e])[|t.log|] == e;
    }
    t' := Scanner.Next(c, t, ActionOf(w)).value;
  }

  /** One step without a torn write: an action of the event model, or nothing to it. */
  ghost predicate MovesWhole(k: Codec<Event>, c: Scanner.Config, s: TornScan.World, s': TornScan.World) {
    exists a: TornScan.Action :: !a.Tear? && TornScan.Next(k, c, s, a) == Some(s')
  }

  lemma StepRefines(k: Codec<Event>, c: Scanner.Config, s: TornScan.World, s': TornScan.World, t: Scanner.State)
    returns (t': Scanner.State)
    requires Lawful(k) && Shows(k, s, t) && MovesWhole(k, c, s, s')
    ensures Shows(k, s', t') && (t' == t || Scanner.Moves(c, t, t'))
  {
    var a: TornScan.Action :| !a.Tear? && TornScan.Next(k, c, s, a) == Some(s');
    t' := t;
    match a {
      case Open => LoadEncoded(k, t.log);
      case Proceed =>
        t' := Scanner.Next(c, t, Scanner.NextPoint).value;
        assert Scanner.Moves(c, t, t');
      case Complete(w) =>
        t' := WriteRefines(k, c, s, w, t);
        assert Scanner.Moves(c, t, t');
      case Crash =>
        t' := Scanner.Next(c, t, Scanner.Crash).value;
        assert Scanner.Moves(c, t, t');
    }
  }

  ghost predicate IsWholeRun(k: Codec<Event>, c: Scanner.Config, worlds: seq<TornScan.World>) {
    && worlds != [] && worlds[0] == TornScan.World([], {}, TornScan.Off)
    && forall i :: 0 <= i < |worlds| - 1 ==> MovesWhole(k, c, worlds[i], worlds[i + 1])
  }

  /** Refinement: every run on bytes that tears no write has a run on events that ends with the
      same log at the same place. */
  lemma {:induction false} WholeRunRefines(k: Codec<Event>, c: Scanner.Config, worlds: seq<TornScan.World>)
    returns (states: seq<Scanner.State>)
    requires Lawful(k) && IsWholeRun(k, c, worlds)
    ensures Scanner.IsRun(c, states) && Shows(k, worlds[|worlds| - 1], states[|states| - 1])
    ensures Load(k, worlds[|worlds| - 1].file) == states[|states| - 1].log
  {
    var n := |worlds| - 1;
    if n == 0 {
      states := [Scanner.Down([])];
    } else {
      states := WholeRunRefines(k, c, worlds[..n]);
      var t := states[|states| - 1];
      assert MovesWhole(k, c, worlds[n - 1], worlds[n]);
      var t' := StepRefines(k, c, worlds[n - 1], worlds[n], t);
      if t' != t { states := states + [t']; }
    }
    LoadEncoded(k, states[|states| - 1].log);
  }

  /** And back: an action is a whole write, or one of the two steps that write nothing. */
  ghost function StepOf(a: Scanner.Action): TornScan.Action {
    match a
    case ProbeRange => TornScan.Complete(TornScan.Range)
    case Start(refused) => TornScan.Complete(TornScan.Begins(refused))
    case NextPoint => TornScan.Proceed
    case BeginTest(phase, code, delta) => TornScan.Complete(TornScan.TestBegins(phase, code, delta))
    case EndTest(result) => TornScan.Complete(TornScan.TestEnds(result))
    case FinishPoint => TornScan.Complete(TornScan.PointEnds)
    case CompleteScan => TornScan.Complete(TornScan.ScanEnds)
    case Crash => TornScan.Crash
  }

  /** A session that is down may have to be opened, or dropped, for the action to come. */
  lemma MadeReady(k: Codec<Event>, c: Scanner.Config, s: TornScan.World, t: Scanner.State, a: Scanner.Action)
    returns (ready: TornScan.World)
    requires Lawful(k) && Shows(k, s, t) && Scanner.Next(c, t, a).Some?
    ensures Shows(k, ready, t) && (ready == s || MovesWhole(k, c, s, ready))
    ensures a.Start? ==> ready.session.Ready?
    ensures a.ProbeRange? ==> ready.session.Off?
  {
    ready := s;
    LoadEncoded(k, t.log);
    if a.Start? && s.session.Off? {
      ready := s.(session := TornScan.Ready);
      assert TornScan.Next(k, c, s, TornScan.Open) == Some(ready);
    } else if a.ProbeRange? && s.session.Ready? {
      ready := s.(session := TornScan.Off);
      assert TornScan.Next(k, c, s, TornScan.Crash) == Some(ready);
    }
  }

  lemma ActionIsStep(k: Codec<Event>, c: Scanner.Config, s: TornScan.World, t: Scanner.State, a: Scanner.Action)
    requires Lawful(k) && Shows(k, s, t) && Scanner.Next(c, t, a).Some?
    requires (a.Start? ==> s.session.Ready?) && (a.ProbeRange? ==> s.session.Off?)
    ensures TornScan.Next(k, c, s, StepOf(a)).Some?
    ensures Shows(k, TornScan.Next(k, c, s, StepOf(a)).value, Scanner.Next(c, t, a).value)
  {
    if a.EndTest? { OverwriteShows(k, s, t, ScanCompleted); }
    var step := StepOf(a);
    if step.Complete? { var t' := WriteRefines(k, c, s, step.write, t); }
  }

  /** Every run on events is one on bytes that tears no write: the two models differ in nothing but
      the torn writes. */
  lemma {:induction false} EventRunIsWhole(k: Codec<Event>, c: Scanner.Config, states: seq<Scanner.State>)
    returns (worlds: seq<TornScan.World>)
    requires Lawful(k) && Scanner.IsRun(c, states)
    ensures IsWholeRun(k, c, worlds) && Shows(k, worlds[|worlds| - 1], states[|states| - 1])
  {
    var n := |states| - 1;
    if n == 0 {
      worlds := [TornScan.World([], {}, TornScan.Off)];
    } else {
      worlds := EventRunIsWhole(k, c, states[..n]);
      var s, t := worlds[|worlds| - 1], states[n - 1];
      assert Scanner.Moves(c, t, states[n]);
      var a :| Scanner.Next(c, t, a) == Some(states[n]);
      var ready := MadeReady(k, c, s, t, a);
      if ready != s { worlds := worlds + [ready]; }
      ActionIsStep(k, c, ready, t, a);
      worlds := worlds + [TornScan.Next(k, c, ready, StepOf(a)).value];
    }
  }
}

/** The events of the scan log and the reading a new session makes of them
    (auto-optimizer/src/scan_log.rs).  The source converts offsets to MHz as `f64`
    and back; here they stay kHz integers. */
module Resume {
  import opened Options

  datatype Domain = Core | Memory | Legacy
  datatype Mode = NormalMode | UltrafastMode | LegacyMode
  datatype TestPhase = Short | Long

  datatype Event =
    | VoltageRange(lowerPoint: nat, upperPoint: nat)
    | ScanMode(mode: Mode)
    | KeyPoints(points: seq<nat>)
    | TestResult(domain: Domain, phase: TestPhase, testCode: nat, at: nat, delta: int, resultCode: Option<int>)
    | PointFinished(domain: Domain, at: nat)
    | ScanCompleted

  /** What a new session inherits: the last success and failure, the point to resume
      at, and whether the interrupted scan was an ultrafast one. */
  datatype BreakPoint = BreakPoint(success: Option<int>, failed: Option<int>,
                                   point: Option<nat>, ultrafast: Option<bool>)

  const NOTHING := BreakPoint(None, None, None, None)

  predicate HasData(r: BreakPoint) {
    r.success.Some? || r.failed.Some? || r.point.Some? || r.ultrafast.Some?
  }

  predicate Plausible(point: nat) { point <= 255 }

  // -------------------------------------------------------- declarative reading

  predicate CoreTest(e: Event) {
    e.TestResult? && (e.domain == Core || e.domain == Legacy)
  }

  predicate CoreFinish(e: Event) {
    e.PointFinished? && (e.domain == Core || e.domain == Legacy)
  }

  /** A completed core test with this code is logged at or after position `i`. */
  ghost predicate CompletedFrom(log: seq<Event>, i: nat, code: nat) {
    exists j :: i <= j < |log| && CoreTest(log[j]) && log[j].resultCode.Some? && log[j].testCode == code
  }

  /** The core test at `i` counts: it is complete, or no later core test with the same
      code is. */
  ghost predicate Counts(log: seq<Event>, i: nat)
    requires i < |log|
  {
    && CoreTest(log[i])
    && (log[i].resultCode.Some? || !CompletedFrom(log, i + 1, log[i].testCode))
  }

  ghost predicate SuccessAt(log: seq<Event>, i: nat)
    requires i < |log|
  {
    Counts(log, i) && log[i].resultCode == Some(0)
  }

  /** A non-zero result, or a test that never got one. */
  ghost predicate FailureAt(log: seq<Event>, i: nat)
    requires i < |log|
  {
    Counts(log, i) && log[i].resultCode != Some(0)
  }

  /** The point the entry at `i` sends a resumed scan to, if any. */
  ghost function PointAt(log: seq<Event>, i: nat, testingStep: nat): Option<nat>
    requires i < |log|
  {
    if CoreFinish(log[i]) && Plausible(log[i].at + testingStep) then Some(log[i].at + testingStep)
    else if Counts(log, i) && Plausible(log[i].at) then Some(log[i].at)
    else None
  }

  /** Where the current session's entries begin: after the last `ScanMode`. */
  ghost function SessionStart(log: seq<Event>): (k: nat)
    ensures k <= |log|
    ensures k > 0 ==> log[k - 1].ScanMode?
    ensures forall j :: k <= j < |log| ==> !log[j].ScanMode?
  {
    if log == [] then 0
    else if log[|log| - 1].ScanMode? then |log|
    else SessionStart(log[..|log| - 1])
  }

  /** `i` is the last position from `lo` on where `test` holds; `None` if there is none. */
  ghost predicate IsLast(lo: nat, hi: nat, test: nat -> bool, i: Option<nat>) {
    match i
    case None => forall j: nat :: lo <= j < hi ==> !test(j)
    case Some(k) => lo <= k < hi && test(k) && forall j: nat :: k < j < hi ==> !test(j)
  }

  ghost function Last(lo: nat, hi: nat, test: nat -> bool): (i: Option<nat>)
    ensures IsLast(lo, hi, test, i)
    decreases hi
  {
    if hi <= lo then None
    else if test(hi - 1) then Some(hi - 1)
    else Last(lo, hi - 1, test)
  }

  lemma LastIsUnique(lo: nat, hi: nat, test: nat -> bool, i: Option<nat>)
    requires IsLast(lo, hi, test, i)
    ensures Last(lo, hi, test) == i
  {
    var l := Last(lo, hi, test);
    assert l.Some? ==> test(l.value);
    assert i.Some? ==> test(i.value);
  }

  ghost function SuccessTest(log: seq<Event>): nat -> bool {
    (i: nat) => i < |log| && SuccessAt(log, i)
  }

  ghost function FailureTest(log: seq<Event>): nat -> bool {
    (i: nat) => i < |log| && FailureAt(log, i)
  }

  ghost function PointTest(log: seq<Event>, testingStep: nat): nat -> bool {
    (i: nat) => i < |log| && PointAt(log, i, testingStep).Some?
  }

  ghost function DeltaOf(log: seq<Event>, i: Option<nat>): Option<int>
    requires i.Some? ==> i.value < |log| && log[i.value].TestResult?
  {
    if i.None? then None else Some(log[i.value].delta)
  }

  /** The scan closed and nothing was tested since: a `ScanCompleted` that no counted
      core test and no usable finished point of the session follows. */
  ghost predicate ClosedAt(log: seq<Event>, k: nat, testingStep: nat) {
    SessionStart(log) <= k < |log| && log[k].ScanCompleted? && Quiet(log, k, testingStep)
  }

  /** No entry from `k` on contributes to the reading. */
  ghost predicate Quiet(log: seq<Event>, k: nat, testingStep: nat) {
    forall j :: k <= j < |log| ==> !Counts(log, j) && PointAt(log, j, testingStep).None?
  }

  ghost predicate Closed(log: seq<Event>, testingStep: nat) {
    exists k: nat :: ClosedAt(log, k, testingStep)
  }

  /** What the entries of the session say, before the log's end is taken into account. */
  ghost function RawReading(log: seq<Event>, testingStep: nat): BreakPoint {
    var lo := SessionStart(log);
    var p := Last(lo, |log|, PointTest(log, testingStep));
    BreakPoint(
      DeltaOf(log, Last(lo, |log|, SuccessTest(log))),
      DeltaOf(log, Last(lo, |log|, FailureTest(log))),
      if p.None? then None else PointAt(log, p.value, testingStep),
      if lo == 0 then None else Some(log[lo - 1].mode == UltrafastMode))
  }

  /** The elastic margin after a finished point, then the strict order of the two offsets. */
  function Adjust(r: BreakPoint, finishedLast: bool, elastic: int, minStep: int): BreakPoint {
    var s := if finishedLast && r.success.Some? then Some(r.success.value - elastic) else r.success;
    var f := if finishedLast && r.failed.Some? then Some(r.failed.value + elastic) else r.failed;
    var s' := if s.Some? && f.Some? && s.value >= f.value then Some(f.value - minStep) else s;
    BreakPoint(s', f, r.point, r.ultrafast)
  }

  predicate FinishedLast(log: seq<Event>) {
    log != [] && log[|log| - 1].PointFinished?
  }

  /** The reading before the adjustment; a closed scan gives nothing. */
  ghost function OpenReading(log: seq<Event>, testingStep: nat): BreakPoint {
    if Closed(log, testingStep) then NOTHING else RawReading(log, testingStep)
  }

  ghost function Reading(log: seq<Event>, testingStep: nat, elastic: int, minStep: int): BreakPoint {
    if Closed(log, testingStep) then NOTHING
    else Adjust(RawReading(log, testingStep), FinishedLast(log), elastic, minStep)
  }

  // ------------------------------------------------------------- the backward scan

  /** The three recovered values agree with the entries from `i` on. */
  ghost predicate SuccessScanned(log: seq<Event>, i: nat, success: Option<int>) {
    exists k: Option<nat> :: IsLast(i, |log|, SuccessTest(log), k) && success == DeltaOf(log, k)
  }

  ghost predicate FailureScanned(log: seq<Event>, i: nat, failed: Option<int>) {
    exists k: Option<nat> :: IsLast(i, |log|, FailureTest(log), k) && failed == DeltaOf(log, k)
  }

  ghost predicate PointScanned(log: seq<Event>, i: nat, testingStep: nat, point: Option<nat>) {
    exists k: Option<nat> :: IsLast(i, |log|, PointTest(log, testingStep), k)
      && point == if k.None? then None else PointAt(log, k.value, testingStep)
  }

  ghost predicate Scanned(log: seq<Event>, i: nat, testingStep: nat, r: BreakPoint) {
    SuccessScanned(log, i, r.success) && FailureScanned(log, i, r.failed) && PointScanned(log, i, testingStep, r.point)
  }

  lemma ScannedIsReading(log: seq<Event>, testingStep: nat, r: BreakPoint)
    requires Scanned(log, SessionStart(log), testingStep, r)
    ensures var w := RawReading(log, testingStep);
      r.success == w.success && r.failed == w.failed && r.point == w.point
  {
    var lo := SessionStart(log);
    var ks: Option<nat> :| IsLast(lo, |log|, SuccessTest(log), ks) && r.success == DeltaOf(log, ks);
    var kf: Option<nat> :| IsLast(lo, |log|, FailureTest(log), kf) && r.failed == DeltaOf(log, kf);
    var kp: Option<nat> :| IsLast(lo, |log|, PointTest(log, testingStep), kp)
      && r.point == if kp.None? then None else PointAt(log, kp.value, testingStep);
    LastIsUnique(lo, |log|, SuccessTest(log), ks);
    LastIsUnique(lo, |log|, FailureTest(log), kf);
    LastIsUnique(lo, |log|, PointTest(log, testingStep), kp);
  }

  lemma LastBack(i: nat, hi: nat, test: nat -> bool, k: Option<nat>)
    requires 0 < i <= hi && IsLast(i, hi, test, k)
    ensures IsLast(i - 1, hi, test, if k.Some? then k else if test(i - 1) then Some(i - 1) else None)
  {
  }

  /** One position further back: the newest match stands, else this entry decides. */
  lemma SuccessBack(log: seq<Event>, i: nat, success: Option<int>)
    requires 0 < i <= |log| && SuccessScanned(log, i, success)
    ensures SuccessScanned(log, i - 1,
      if success.Some? then success else if SuccessAt(log, i - 1) then Some(log[i - 1].delta) else None)
  {
    var k: Option<nat> :| IsLast(i, |log|, SuccessTest(log), k) && success == DeltaOf(log, k);
    LastBack(i, |log|, SuccessTest(log), k);
  }

  lemma FailureBack(log: seq<Event>, i: nat, failed: Option<int>)
    requires 0 < i <= |log| && FailureScanned(log, i, failed)
    ensures FailureScanned(log, i - 1,
      if failed.Some? then failed else if FailureAt(log, i - 1) then Some(log[i - 1].delta) else None)
  {
    var k: Option<nat> :| IsLast(i, |log|, FailureTest(log), k) && failed == DeltaOf(log, k);
    LastBack(i, |log|, FailureTest(log), k);
  }

  lemma PointBack(log: seq<Event>, i: nat, testingStep: nat, point: Option<nat>)
    requires 0 < i <= |log| && PointScanned(log, i, testingStep, point)
    ensures PointScanned(log, i - 1, testingStep, if point.Some? then point else PointAt(log, i - 1, testingStep))
  {
    var k: Option<nat> :| IsLast(i, |log|, PointTest(log, testingStep), k)
      && point == if k.None? then None else PointAt(log, k.value, testingStep);
    LastBack(i, |log|, PointTest(log, testingStep), k);
  }

  /** Nothing collected means that no entry from `i` on counts. */
  lemma NothingScanned(log: seq<Event>, i: nat, testingStep: nat, r: BreakPoint)
    requires i <= |log| && Scanned(log, i, testingStep, r)
    ensures r.success.None? && r.failed.None? && r.point.None? <==> Quiet(log, i, testingStep)
  {
    forall j: nat | i <= j < |log| && Counts(log, j)
      ensures SuccessTest(log)(j) || FailureTest(log)(j)
    {
    }
    forall j: nat | i <= j < |log|
      ensures PointAt(log, j, testingStep).Some? <==> PointTest(log, testingStep)(j)
      ensures SuccessTest(log)(j) ==> Counts(log, j)
      ensures FailureTest(log)(j) ==> Counts(log, j)
    {
    }
  }

  /** What one entry adds, given what the later entries gave. */
  function ReadEntry(e: Event, testingStep: nat, r: BreakPoint, completed: set<nat>): (BreakPoint, set<nat>) {
    match e
    case PointFinished(domain, at) =>
      if r.point.None? && domain != Memory && Plausible(at + testingStep)
      then (r.(point := Some(at + testingStep)), completed)
      else (r, completed)
    case TestResult(domain, _, code, at, delta, result) =>
      if domain == Memory || (result.None? && code in completed) then (r, completed)
      else
        var completed' := if result.Some? then completed + {code} else completed;
        var r1 := if r.point.None? && Plausible(at) then r.(point := Some(at)) else r;
        if result.GetOr(1) == 0 then
          (if r1.success.None? then r1.(success := Some(delta)) else r1, completed')
        else
          (if r1.failed.None? then r1.(failed := Some(delta)) else r1, completed')
    case _ => (r, completed)
  }

  /** The invariant of the backward loop. */
  ghost predicate ScanInv(log: seq<Event>, i: nat, testingStep: nat, r: BreakPoint, completed: set<nat>)
    requires i <= |log|
  {
    && Scanned(log, i, testingStep, r) && r.ultrafast.None?
    && (forall j :: i <= j < |log| ==> !log[j].ScanMode?)
    && (forall k: nat :: i <= k < |log| ==> !ClosedAt(log, k, testingStep))
    && (forall code :: code in completed <==> CompletedFrom(log, i, code))
  }

  /** What one entry contributes, in terms of the declarative reading. */
  lemma EntryContributes(log: seq<Event>, i: nat, testingStep: nat, r: BreakPoint, completed: set<nat>)
    requires 0 < i <= |log| && !log[i - 1].ScanMode?
    requires forall code :: code in completed <==> CompletedFrom(log, i, code)
    ensures var (r', completed') := ReadEntry(log[i - 1], testingStep, r, completed);
      && r'.success == (if r.success.Some? then r.success
                        else if SuccessAt(log, i - 1) then Some(log[i - 1].delta) else None)
      && r'.failed == (if r.failed.Some? then r.failed
                       else if FailureAt(log, i - 1) then Some(log[i - 1].delta) else None)
      && r'.point == (if r.point.Some? then r.point else PointAt(log, i - 1, testingStep))
      && r'.ultrafast == r.ultrafast
      && forall code :: code in completed' <==> CompletedFrom(log, i - 1, code)
  {
    CompletedBack(log, i);
  }

  lemma NotClosedBack(log: seq<Event>, i: nat, testingStep: nat, r: BreakPoint, completed: set<nat>)
    requires 0 < i <= |log| && ScanInv(log, i, testingStep, r, completed)
    requires !(log[i - 1].ScanCompleted? && !HasData(r))
    ensures forall k: nat :: i - 1 <= k < |log| ==> !ClosedAt(log, k, testingStep)
  {
    NothingScanned(log, i, testingStep, r);
    assert !ClosedAt(log, i - 1, testingStep);
  }

  lemma ReadBack(log: seq<Event>, i: nat, testingStep: nat, r: BreakPoint, completed: set<nat>,
                 r': BreakPoint, completed': set<nat>)
    requires 0 < i <= |log| && ScanInv(log, i, testingStep, r, completed)
    requires !log[i - 1].ScanMode? && !(log[i - 1].ScanCompleted? && !HasData(r))
    requires (r', completed') == ReadEntry(log[i - 1], testingStep, r, completed)
    ensures ScanInv(log, i - 1, testingStep, r', completed')
  {
    EntryContributes(log, i, testingStep, r, completed);
    SuccessBack(log, i, r.success);
    FailureBack(log, i, r.failed);
    PointBack(log, i, testingStep, r.point);
    NotClosedBack(log, i, testingStep, r, completed);
  }

  lemma ClosedHere(log: seq<Event>, i: nat, testingStep: nat, r: BreakPoint, completed: set<nat>)
    requires 0 < i <= |log| && ScanInv(log, i, testingStep, r, completed)
    requires log[i - 1].ScanCompleted? && !HasData(r)
    ensures Closed(log, testingStep)
  {
    NothingScanned(log, i, testingStep, r);
    SessionStartAt(log, i);
    assert ClosedAt(log, i - 1, testingStep);
  }

  /** At the session's start the collected values are the declarative reading. */
  lemma ReadAll(log: seq<Event>, i: nat, testingStep: nat, r: BreakPoint, completed: set<nat>)
    requires i <= |log| && ScanInv(log, i, testingStep, r, completed)
    requires i > 0 ==> log[i - 1].ScanMode?
    ensures !Closed(log, testingStep)
    ensures RawReading(log, testingStep)
         == r.(ultrafast := if i == 0 then None else Some(log[i - 1].mode == UltrafastMode))
  {
    SessionStartIs(log, i);
    ScannedIsReading(log, testingStep, r);
  }

  lemma NothingAtEnd(log: seq<Event>, testingStep: nat)
    ensures Scanned(log, |log|, testingStep, NOTHING)
  {
    assert IsLast(|log|, |log|, SuccessTest(log), None);
    assert IsLast(|log|, |log|, FailureTest(log), None);
    assert IsLast(|log|, |log|, PointTest(log, testingStep), None);
  }

  lemma CompletedBack(log: seq<Event>, i: nat)
    requires 0 < i <= |log|
    ensures forall code :: CompletedFrom(log, i - 1, code) <==>
      CompletedFrom(log, i, code)
      || (CoreTest(log[i - 1]) && log[i - 1].resultCode.Some? && log[i - 1].testCode == code)
  {
    forall code | CompletedFrom(log, i - 1, code) && !CompletedFrom(log, i, code)
      ensures CoreTest(log[i - 1]) && log[i - 1].resultCode.Some? && log[i - 1].testCode == code
    {
      var j :| i - 1 <= j < |log| && CoreTest(log[j]) && log[j].resultCode.Some? && log[j].testCode == code;
      assert j < i;
    }
  }

  lemma {:induction false} SessionStartIs(log: seq<Event>, k: nat)
    requires k <= |log| && (k > 0 ==> log[k - 1].ScanMode?)
    requires forall j :: k <= j < |log| ==> !log[j].ScanMode?
    ensures SessionStart(log) == k
  {
    var s := SessionStart(log);
    assert s < k ==> !(s <= k - 1 < |log|);
    assert s > k ==> !(k <= s - 1 < |log|);
  }

  lemma SessionStartAt(log: seq<Event>, i: nat)
    requires i <= |log| && forall j :: i <= j < |log| ==> !log[j].ScanMode?
    requires i > 0 && !log[i - 1].ScanMode?
    ensures SessionStart(log) <= i - 1
  {
    var s := SessionStart(log);
    assert s > 0 ==> log[s - 1].ScanMode?;
  }

  // ------------------------------------------------------------ main results

  /** A success and a failure, if both are recovered, are in strict order. */
  lemma SuccessBelowFailure(log: seq<Event>, testingStep: nat, elastic: int, minStep: int)
    requires minStep > 0
    ensures var r := Reading(log, testingStep, elastic, minStep);
      r.success.Some? && r.failed.Some? ==> r.success.value < r.failed.value
  {
  }

  /** The backward loop as a recursion, from position `i` on down. */
  ghost function ScanBack(log: seq<Event>, i: nat, testingStep: nat, r: BreakPoint, completed: set<nat>): BreakPoint
    requires i <= |log|
  {
    if i == 0 then r
    else if log[i - 1].ScanMode? then r.(ultrafast := Some(log[i - 1].mode == UltrafastMode))
    else if log[i - 1].ScanCompleted? && !HasData(r) then NOTHING
    else
      var (r', completed') := ReadEntry(log[i - 1], testingStep, r, completed);
      ScanBack(log, i - 1, testingStep, r', completed')
  }

  predicate ScanStops(log: seq<Event>, i: nat, r: BreakPoint)
    requires i <= |log|
  {
    i == 0 || log[i - 1].ScanMode? || (log[i - 1].ScanCompleted? && !HasData(r))
  }

  lemma StoppedScanIsRawReading(log: seq<Event>, i: nat, testingStep: nat, r: BreakPoint, completed: set<nat>)
    requires i <= |log| && ScanInv(log, i, testingStep, r, completed) && ScanStops(log, i, r)
    ensures ScanBack(log, i, testingStep, r, completed) == OpenReading(log, testingStep)
  {
    if i == 0 || log[i - 1].ScanMode? {
      ReadAll(log, i, testingStep, r, completed);
    } else {
      ClosedHere(log, i, testingStep, r, completed);
    }
  }

  lemma {:induction false} ScanBackIsRawReading(log: seq<Event>, i: nat, testingStep: nat,
                                                r: BreakPoint, completed: set<nat>)
    requires i <= |log| && ScanInv(log, i, testingStep, r, completed)
    ensures ScanBack(log, i, testingStep, r, completed) == OpenReading(log, testingStep)
  {
    if ScanStops(log, i, r) {
      StoppedScanIsRawReading(log, i, testingStep, r, completed);
    } else {
      var (r', completed') := ReadEntry(log[i - 1], testingStep, r, completed);
      ReadBack(log, i, testingStep, r, completed, r', completed');
      ScanBackIsRawReading(log, i - 1, testingStep, r', completed');
    }
  }

  lemma ScanIsReading(log: seq<Event>, testingStep: nat, elastic: int, minStep: int)
    ensures Adjust(ScanBack(log, |log|, testingStep, NOTHING, {}), FinishedLast(log), elastic, minStep)
         == Reading(log, testingStep, elastic, minStep)
  {
    NothingAtEnd(log, testingStep);
    ScanBackIsRawReading(log, |log|, testingStep, NOTHING, {});
  }

  /** `breakpoint_from_entries`: the loop over the log from its end. */
  method BreakpointFromEntries(log: seq<Event>, testingStep: nat, elastic: int, minStep: int)
    returns (r: BreakPoint)
    ensures r == Reading(log, testingStep, elastic, minStep)
  {
    ScanIsReading(log, testingStep, elastic, minStep);
    r := NOTHING;
    var completed: set<nat> := {};
    var i := |log|;
    while i > 0 && !log[i - 1].ScanMode?
      invariant 0 <= i <= |log|
      invariant ScanBack(log, |log|, testingStep, NOTHING, {}) == ScanBack(log, i, testingStep, r, completed)
    {
      if log[i - 1].ScanCompleted? && !HasData(r) {
        return NOTHING;
      }
      var (r', completed') := ReadEntry(log[i - 1], testingStep, r, completed);
      r, completed, i := r', completed', i - 1;
    }
    if i > 0 {
      r := r.(ultrafast := Some(log[i - 1].mode == UltrafastMode));
    }
    r := Adjust(r, FinishedLast(log), elastic, minStep);
  }

  lemma {:induction false} ScanBackInSuffix(pre: seq<Event>, s: seq<Event>, i: nat, testingStep: nat,
                                            r: BreakPoint, completed: set<nat>)
    requires 0 < i <= |s| && s[0].ScanMode?
    ensures ScanBack(pre + s, |pre| + i, testingStep, r, completed) == ScanBack(s, i, testingStep, r, completed)
  {
    assert (pre + s)[|pre| + i - 1] == s[i - 1];
    if !s[i - 1].ScanMode? {
      var (r', completed') := ReadEntry(s[i - 1], testingStep, r, completed);
      ScanBackInSuffix(pre, s, i - 1, testingStep, r', completed');
    }
  }

  /** Nothing logged before the last `ScanMode` record matters. */
  lemma DependsOnlyOnSession(pre: seq<Event>, s: seq<Event>, testingStep: nat, elastic: int, minStep: int)
    requires s != [] && s[0].ScanMode?
    ensures Reading(pre + s, testingStep, elastic, minStep) == Reading(s, testingStep, elastic, minStep)
  {
    ScanIsReading(s, testingStep, elastic, minStep);
    ScanIsReading(pre + s, testingStep, elastic, minStep);
    ScanBackInSuffix(pre, s, |s|, testingStep, NOTHING, {});
    assert (pre + s)[|pre| + |s| - 1] == s[|s| - 1];
  }

  lemma LastEntryInSession(pre: seq<Event>, e: Event)
    requires !e.ScanMode?
    ensures SessionStart(pre + [e]) <= |pre|
  {
    assert (pre + [e])[|pre|] == e;
  }

  /** A log that ends in a core test that never got its result: the test is read as the
      failure, at the point it was running on. */
  lemma UnfinishedTestIsFailure(pre: seq<Event>, e: Event, testingStep: nat, elastic: int, minStep: int)
    requires CoreTest(e) && e.resultCode.None? && minStep > 0
    ensures var r := Reading(pre + [e], testingStep, elastic, minStep);
      && r.failed == Some(e.delta)
      && (r.success.Some? ==> r.success.value < e.delta)
      && (Plausible(e.at) ==> r.point == Some(e.at))
  {
    var log, n := pre + [e], |pre|;
    assert log[n] == e;
    assert !CompletedFrom(log, n + 1, e.testCode);
    assert Counts(log, n);
    var lo := SessionStart(log);
    LastEntryInSession(pre, e);
    assert !Quiet(log, n, testingStep);
    assert forall k: nat :: Quiet(log, k, testingStep) ==> k > n;
    LastIsUnique(lo, |log|, FailureTest(log), Some(n));
    if Plausible(e.at) {
      LastIsUnique(lo, |log|, PointTest(log, testingStep), Some(n));
    }
  }

  /** A point that has just been finished sends the next session on to the next lattice
      point, while that point still has an index. */
  lemma FinishedPointAdvances(pre: seq<Event>, at: nat, testingStep: nat, elastic: int, minStep: int)
    requires Plausible(at + testingStep)
    ensures Reading(pre + [PointFinished(Core, at)], testingStep, elastic, minStep).point == Some(at + testingStep)
  {
    var log, n := pre + [PointFinished(Core, at)], |pre|;
    var lo := SessionStart(log);
    LastEntryInSession(pre, PointFinished(Core, at));
    assert PointAt(log, n, testingStep) == Some(at + testingStep);
    assert !Quiet(log, n, testingStep);
    assert forall k: nat :: Quiet(log, k, testingStep) ==> k > n;
    LastIsUnique(lo, |log|, PointTest(log, testingStep), Some(n));
  }

  // ------------------------------------------------ the recovered values, one by one

  /** What becomes of the offsets `s` and `f` of the last counted success and failure: both move
      away from each other by the margin, and a success that would then not lie below the
      failure is put one step below it. */
  predicate MovedApart(s: Option<int>, f: Option<int>, margin: int, minStep: int, r: BreakPoint) {
    && (f.None? ==> r.failed == None)
    && (f.Some? ==> r.failed == Some(f.value + margin))
    && (s.None? ==> r.success == None)
    && (s.Some? && (f.None? || s.value - margin < f.value + margin) ==> r.success == Some(s.value - margin))
    && (s.Some? && f.Some? && s.value - margin >= f.value + margin ==>
          r.success == Some(f.value + margin - minStep))
  }

  lemma AdjustMovesApart(w: BreakPoint, finishedLast: bool, elastic: int, minStep: int)
    ensures MovedApart(w.success, w.failed, if finishedLast then elastic else 0, minStep,
                       Adjust(w, finishedLast, elastic, minStep))
  {
  }

  /** In an open session the margin is the elastic one behind a finished point and none anywhere
      else. */
  lemma RecoveredOffsetsAre(log: seq<Event>, testingStep: nat, elastic: int, minStep: int,
                            s: Option<int>, f: Option<int>)
    requires !Closed(log, testingStep)
    requires SuccessScanned(log, SessionStart(log), s) && FailureScanned(log, SessionStart(log), f)
    ensures MovedApart(s, f, if log != [] && log[|log| - 1].PointFinished? then elastic else 0, minStep,
                       Reading(log, testingStep, elastic, minStep))
  {
    RawOffsetsAre(log, testingStep, s, f);
    AdjustMovesApart(RawReading(log, testingStep), FinishedLast(log), elastic, minStep);
  }

  lemma RawOffsetsAre(log: seq<Event>, testingStep: nat, s: Option<int>, f: Option<int>)
    requires SuccessScanned(log, SessionStart(log), s) && FailureScanned(log, SessionStart(log), f)
    ensures RawReading(log, testingStep).success == s && RawReading(log, testingStep).failed == f
  {
    var lo := SessionStart(log);
    var i: Option<nat> :| IsLast(lo, |log|, SuccessTest(log), i) && s == DeltaOf(log, i);
    var k: Option<nat> :| IsLast(lo, |log|, FailureTest(log), k) && f == DeltaOf(log, k);
    LastIsUnique(lo, |log|, SuccessTest(log), i);
    LastIsUnique(lo, |log|, FailureTest(log), k);
  }

  /** A closed session hands nothing on; an open one the mode of its own mode record. */
  lemma RecoveredModeIs(pre: seq<Event>, mode: Mode, s: seq<Event>, testingStep: nat, elastic: int, minStep: int)
    requires forall i :: 0 <= i < |s| ==> !s[i].ScanMode?
    ensures var log := pre + [ScanMode(mode)] + s;
      var r := Reading(log, testingStep, elastic, minStep);
      if Closed(log, testingStep) then r == BreakPoint(None, None, None, None)
      else r.ultrafast == Some(mode == UltrafastMode)
  {
    var log := pre + [ScanMode(mode)] + s;
    assert log[|pre|] == ScanMode(mode);
    forall i | |pre| + 1 <= i < |log| ensures !log[i].ScanMode? { assert log[i] == s[i - |pre| - 1]; }
    SessionStartIs(log, |pre| + 1);
  }

  /** No point above 255 is ever recovered. */
  lemma RecoveredPointIsPlausible(log: seq<Event>, testingStep: nat, elastic: int, minStep: int)
    ensures var r := Reading(log, testingStep, elastic, minStep); r.point.Some? ==> r.point.value <= 255
  {
    var p := Last(SessionStart(log), |log|, PointTest(log, testingStep));
    assert p.Some? ==> PointTest(log, testingStep)(p.value);
  }

  /** An entry of a scan on old hardware as one of the core clock. */
  function AsCore(e: Event): Event {
    match e
    case TestResult(Legacy, phase, code, at, delta, result) => TestResult(Core, phase, code, at, delta, result)
    case PointFinished(Legacy, at) => PointFinished(Core, at)
    case _ => e
  }

  lemma {:induction false} ScanBackAsCore(log: seq<Event>, core: seq<Event>, i: nat, testingStep: nat,
                                          r: BreakPoint, completed: set<nat>)
    requires |core| == |log| && i <= |log| && forall j :: 0 <= j < |log| ==> core[j] == AsCore(log[j])
    ensures ScanBack(core, i, testingStep, r, completed) == ScanBack(log, i, testingStep, r, completed)
  {
    if i > 0 {
      var (r', completed') := ReadEntry(log[i - 1], testingStep, r, completed);
      ScanBackAsCore(log, core, i - 1, testingStep, r', completed');
    }
  }

  /** Entries of old hardware are read like those of the core clock. */
  lemma LegacyReadsAsCore(log: seq<Event>, core: seq<Event>, testingStep: nat, elastic: int, minStep: int)
    requires |core| == |log| && forall j :: 0 <= j < |log| ==> core[j] == AsCore(log[j])
    ensures Reading(core, testingStep, elastic, minStep) == Reading(log, testingStep, elastic, minStep)
  {
    ScanIsReading(log, testingStep, elastic, minStep);
    ScanIsReading(core, testingStep, elastic, minStep);
    ScanBackAsCore(log, core, |log|, testingStep, NOTHING, {});
    assert FinishedLast(core) <==> FinishedLast(log);
  }

  lemma {:induction false} ScanBackOnPrefix(a: seq<Event>, b: seq<Event>, i: nat, testingStep: nat,
                                            r: BreakPoint, completed: set<nat>)
    requires i <= |a| && i <= |b| && forall j :: 0 <= j < i ==> a[j] == b[j]
    ensures ScanBack(a, i, testingStep, r, completed) == ScanBack(b, i, testingStep, r, completed)
  {
    if i > 0 {
      var (r', completed') := ReadEntry(a[i - 1], testingStep, r, completed);
      ScanBackOnPrefix(a, b, i - 1, testingStep, r', completed');
    }
  }

  /** A test the reading passes over: one of the memory clock, or a pending record with a completed
      core test of the same code behind it. */
  ghost predicate PassedOver(log: seq<Event>, i: nat) {
    && i < |log| && log[i].TestResult?
    && (log[i].domain == Memory
        || (log[i].resultCode.None?
            && exists j :: i < j < |log| && log[j].TestResult? && log[j].domain != Memory
                 && log[j].resultCode.Some? && log[j].testCode == log[i].testCode))
  }

  lemma {:induction false} ScanBackPassesOver(log: seq<Event>, other: seq<Event>, i: nat, k: nat, testingStep: nat,
                                              r: BreakPoint, completed: set<nat>)
    requires PassedOver(log, i) && i < k <= |log| && other == log[i := KeyPoints([])]
    requires forall code :: code in completed <==> CompletedFrom(log, k, code)
    requires forall j :: k <= j < |log| ==> !log[j].ScanMode?
    ensures ScanBack(other, k, testingStep, r, completed) == ScanBack(log, k, testingStep, r, completed)
  {
    if k == i + 1 {
      ScanBackOnPrefix(other, log, i, testingStep, r, completed);
    } else if !ScanStops(log, k, r) {
      var (r', completed') := ReadEntry(log[k - 1], testingStep, r, completed);
      EntryContributes(log, k, testingStep, r, completed);
      ScanBackPassesOver(log, other, i, k - 1, testingStep, r', completed');
    }
  }

  /** Such a test leaves no trace: the reading is the same as with another entry in its place. */
  lemma PassedOverLeavesNoTrace(log: seq<Event>, i: nat, testingStep: nat, elastic: int, minStep: int)
    requires PassedOver(log, i)
    ensures Reading(log[i := KeyPoints([])], testingStep, elastic, minStep)
         == Reading(log, testingStep, elastic, minStep)
  {
    ScanIsReading(log, testingStep, elastic, minStep);
    ScanIsReading(log[i := KeyPoints([])], testingStep, elastic, minStep);
    ScanBackPassesOver(log, log[i := KeyPoints([])], i, |log|, testingStep, NOTHING, {});
  }
}

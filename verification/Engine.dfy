/** The host side of the ride-on-load verifier (cli-stressor-opencl/verify_opencl.py): the
    pattern check with its sticky first failure, and the injection self-test.  What the
    memory does between a fill and a compare is an arbitrary function of its contents. */
module Engine {
  import opened Options
  import opened Arithmetic
  import opened Words
  import opened Compare
  import Hash
  import RandomFill

  /** What is reported as a failure. */
  datatype Message =
    | CompletionMismatch(done: nat, launched: nat)
    | WrongWords(report: Report)

  datatype DetectorStats = DetectorStats(opsChecked: nat, elementsChecked: nat, firstError: Option<Message>)

  /** The memory between two launches: what it holds may change, its size does not. */
  type Memory = f: seq<word> -> seq<word> | forall s :: |f(s)| == |s| witness (s: seq<word>) => s

  /** The oracle's word for an index under a seed. */
  function Expected(seed: bv64): nat -> word {
    (i: nat) => Hash.VExpected(RandomFill.Bits(i), seed) as int
  }

  /** The oracle counts its indices from zero. */
  lemma FirstExpected()
    ensures Expected(0)(0) == 0xE220A839
  {
    Hash.KnownAnswers();
    assert RandomFill.Bits(0) == 0;
  }

  ghost predicate Clean(words: seq<word>, expected: nat -> word) {
    forall i: nat :: i < |words| ==> words[i] == expected(i)
  }

  /** `verify_pattern_fill`: one item per word, each writing its own word, in any order. */
  method LaunchFill(buf: array<word>, expected: nat -> word)
    modifies buf
    ensures forall i: nat :: i < buf.Length ==> buf[i] == expected(i)
  {
    var items := Blocks(buf.Length) * LOCAL_SIZE;
    var todo := Range(items);
    ItemsCover(buf.Length);
    while todo != {}
      invariant forall i: nat :: i < buf.Length && i !in todo ==> buf[i] == expected(i)
      decreases todo
    {
      var idx :| idx in todo;
      if idx < buf.Length {
        buf[idx] := expected(idx);
      }
      todo := todo - {idx};
    }
  }

  /** Let the memory do what it does. */
  method Settle(buf: array<word>, memory: Memory)
    modifies buf
    ensures buf[..] == memory(old(buf[..]))
  {
    var after := memory(buf[..]);
    forall i | 0 <= i < buf.Length {
      buf[i] := after[i];
    }
  }

  lemma CleanIffNoFaults(words: seq<word>, expected: nat -> word)
    ensures Clean(words, expected) <==> Faults(KernelJob(words, expected)) == 0
  {
    var j := KernelJob(words, expected);
    CountBound(|words|, FaultTest(j));
    assert forall i: nat :: i < |words| ==> (FaultTest(j)(i) <==> words[i] != expected(i));
  }

  /** The whole buffer wrong: the one case a 32-bit error counter can miss. */
  ghost predicate AllWrong(words: seq<word>, expected: nat -> word) {
    forall i: nat :: i < |words| ==> words[i] != expected(i)
  }

  lemma AllWrongIffAllFaults(words: seq<word>, expected: nat -> word)
    ensures AllWrong(words, expected) <==> Faults(KernelJob(words, expected)) == |words|
    ensures Faults(KernelJob(words, expected)) <= |words|
  {
    var j := KernelJob(words, expected);
    CountBound(|words|, FaultTest(j));
    assert forall i: nat :: i < |words| ==> (FaultTest(j)(i) <==> words[i] != expected(i));
  }

  lemma WrapsToZeroIff(x: nat, n: nat)
    ensures x <= n <= WORD ==> (x % WORD == 0 <==> x == 0 || (x == n && n == WORD))
  {
  }

  /** The error counter reads zero if and only if nothing is wrong, or everything is and
      there are exactly 2^32 words. */
  lemma CounterIsZeroIff(words: seq<word>, expected: nat -> word, r: Report)
    requires |words| <= WORD && Reported(KernelJob(words, expected), r)
    ensures r.totalErrors == 0 <==> Clean(words, expected) || (|words| == WORD && AllWrong(words, expected))
    ensures r.done == Blocks(|words|)
  {
    CleanIffNoFaults(words, expected);
    AllWrongIffAllFaults(words, expected);
    WrapsToZeroIff(Faults(KernelJob(words, expected)), |words|);
    BlocksFit(|words|);
  }

  lemma BlocksFit(n: nat)
    requires n <= WORD
    ensures Blocks(n) % WORD == Blocks(n)
  {
    assert Blocks(n) < WORD;
  }

  // ------------------------------------------------------------------- self-test gates

  /** The second gate's verdict on a report. */
  predicate CaughtExactly(r: Report, idx: nat, bit: nat) {
    && r.totalErrors == 1
    && r.idxMin == idx && r.idxMax == idx
    && Xor(r.firstExp, r.firstAct) == Pow2(bit)
    && forall b :: 0 <= b < |r.bitHist| ==> r.bitHist[b] == if b == bit then 1 else 0
  }

  /** Exactly the bit `bit` of the word at `idx` is wrong. */
  ghost predicate SingleFlip(words: seq<word>, expected: nat -> word, idx: nat, bit: nat) {
    && idx < |words| && Xor(words[idx], expected(idx)) == Pow2(bit)
    && forall i: nat :: i < |words| && i != idx ==> words[i] == expected(i)
  }

  lemma {:induction false} CountOfOne(n: nat, p: nat -> bool, k: nat)
    requires k < n && p(k) && forall i: nat :: i < n && i != k ==> !p(i)
    ensures Count(n, p) == 1
  {
    CountBound(n, _ => false);
    CountOneMore(n, _ => false, p, k);
  }

  /** A single flipped bit is the only fault, in the only bin. */
  lemma FlipCounts(words: seq<word>, expected: nat -> word, idx: nat, bit: nat, b: nat)
    requires bit < 32 && b < 32 && SingleFlip(words, expected, idx, bit)
    ensures words[idx] != expected(idx)
    ensures Faults(KernelJob(words, expected)) == 1
    ensures Count(|words|, BitTest(KernelJob(words, expected), b)) == if b == bit then 1 else 0
  {
    var j, n := KernelJob(words, expected), |words|;
    XorIsZeroIff(words[idx], expected(idx));
    KernelBinIsLowest(words[idx], expected(idx));
    LowestBitOfPower(bit);
    CountOfOne(n, FaultTest(j), idx);
    if b == bit { CountOfOne(n, BitTest(j, b), idx); } else { CountBound(n, BitTest(j, b)); }
  }

  lemma FlipHistogram(words: seq<word>, expected: nat -> word, r: Report, idx: nat, bit: nat)
    requires bit < 32 && Reported(KernelJob(words, expected), r) && SingleFlip(words, expected, idx, bit)
    ensures r.totalErrors == 1
    ensures forall b :: 0 <= b < |r.bitHist| ==> r.bitHist[b] == if b == bit then 1 else 0
  {
    FlipCounts(words, expected, idx, bit, bit);
    forall b: nat | b < 32 ensures r.bitHist[b] == if b == bit then 1 else 0 {
      FlipCounts(words, expected, idx, bit, b);
    }
  }

  /** A single flipped bit is reported as exactly that index and bit. */
  lemma FlipIsCaught(words: seq<word>, expected: nat -> word, r: Report, idx: nat, bit: nat)
    requires |words| <= WORD && bit < 32 && Reported(KernelJob(words, expected), r)
    requires SingleFlip(words, expected, idx, bit)
    ensures CaughtExactly(r, idx, bit)
  {
    FaultyCutIsFaulty(KernelJob(words, expected), r.idxMin);
    FaultyCutIsFaulty(KernelJob(words, expected), r.idxMax);
    FlipCounts(words, expected, idx, bit, bit);
    FlipHistogram(words, expected, r, idx, bit);
    XorCommutes(words[idx], expected(idx));
    assert Faulty(KernelJob(words, expected), idx);
  }

  /** A report that brackets all faults by one index means that only that word is wrong. */
  lemma BracketedFault(j: Job, r: Report, idx: nat)
    requires |j.buf| < WORD && Reported(j, r) && r.totalErrors == 1 && r.idxMin == idx && r.idxMax == idx
    ensures Faulty(j, idx) && r.firstExp == j.expected(idx) && r.firstAct == j.buf[idx]
    ensures forall i: nat :: i != idx ==> !Faulty(j, i)
  {
    TotalIsExact(j, r);
    forall i: nat | Faulty(j, i) ensures i == idx {
      assert r.idxMin <= Cut(i) <= r.idxMax;
      SmallIsExact(i);
    }
    var w: nat :| Faulty(j, w) && r.firstExp == j.expected(w) && r.firstAct == j.buf[w];
    assert w == idx;
  }

  /** And nothing else is: a report that says so comes from exactly that flip. */
  lemma CaughtMeansFlip(words: seq<word>, expected: nat -> word, r: Report, idx: nat, bit: nat)
    requires |words| < WORD && bit < 32 && Reported(KernelJob(words, expected), r)
    requires CaughtExactly(r, idx, bit)
    ensures SingleFlip(words, expected, idx, bit)
  {
    var j := KernelJob(words, expected);
    BracketedFault(j, r, idx);
    XorCommutes(words[idx], expected(idx));
    forall i: nat | i < |words| && i != idx ensures words[i] == expected(i) {
      assert !Faulty(j, i);
    }
  }

  lemma FlipDiffersIff(a: nat, e: nat, m: nat)
    ensures Xor(Xor(a, m), e) == m <==> a == e
  {
    var y := Xor(a, m);
    XorUndone(y, e);
    XorUndone(m, a);
    XorCommutes(a, m);
    XorCommutes(m, y);
    if a == e {
      XorCommutes(y, e);
      XorUndone(a, m);
    }
  }

  /** Injecting a flip leaves exactly that flip wrong if and only if nothing was wrong. */
  lemma InjectionFlips(words: seq<word>, expected: nat -> word, idx: nat, bit: nat)
    requires idx < |words| && bit < 32
    ensures Xor(words[idx], Pow2(bit)) < WORD
    ensures SingleFlip(words[idx := Xor(words[idx], Pow2(bit))], expected, idx, bit) <==> Clean(words, expected)
  {
    Pow2Is32();
    PowersGrow(bit, 32);
    XorIsWord(words[idx], Pow2(bit));
    FlipDiffersIff(words[idx], expected(idx), Pow2(bit));
    var after := words[idx := Xor(words[idx], Pow2(bit))];
    if SingleFlip(after, expected, idx, bit) {
      forall i: nat | i < |words| ensures words[i] == expected(i) {
        assert i != idx ==> after[i] == expected(i);
      }
    }
  }

  lemma {:induction false} PowersGrow(a: nat, b: nat)
    requires a < b
    ensures Pow2(a) < Pow2(b)
  {
    if a < b - 1 { PowersGrow(a, b - 1); }
  }

  /** `verify_inject_error`. */
  method InjectError(buf: array<word>, idx: nat, bit: nat)
    requires idx < buf.Length && bit < 32
    modifies buf
    ensures Xor(old(buf[idx]), Pow2(bit)) < WORD
    ensures buf[..] == old(buf[..])[idx := Xor(old(buf[idx]), Pow2(bit))]
  {
    Pow2Is32();
    PowersGrow(bit, 32);
    XorIsWord(buf[idx], Pow2(bit));
    buf[idx] := Xor(buf[idx], Pow2(bit));
  }

  // ------------------------------------------------------------------------ the engine

  const SELF_TEST_IDX: nat := 0xADBA
  const SELF_TEST_BIT: nat := 22
  const SELF_TEST_SEED: bv64 := 0xADBA

  /** A launch that did not run to its end outranks what it counted. */
  function Verdict(r: Report, launched: nat): Option<Message> {
    if r.done != launched then Some(CompletionMismatch(r.done, launched))
    else if r.totalErrors > 0 then Some(WrongWords(r))
    else None
  }

  /** What the verdict on a true report says about the words. */
  lemma VerdictIff(words: seq<word>, expected: nat -> word, r: Report)
    requires Reported(KernelJob(words, expected), r)
    ensures var v, n := Verdict(r, Blocks(|words|)), |words|;
      && (v.Some? <==> Faults(KernelJob(words, expected)) % WORD != 0 || Blocks(n) >= WORD)
      && (n <= WORD ==> (v.Some? <==> !Clean(words, expected) && !(n == WORD && AllWrong(words, expected))))
      && (v.Some? && Blocks(n) < WORD ==> v == Some(WrongWords(r)))
  {
    if |words| <= WORD { CounterIsZeroIff(words, expected, r); }
    WrapsIff(Blocks(|words|));
  }

  lemma WrapsIff(x: nat)
    ensures x % WORD == x <==> x < WORD
  {
  }

  class VerifyEngine {
    var drained: DetectorStats
    var failure: Option<Message>
    var selfTestPassed: Option<bool>
    const patternBuf: array<word>
    const scratch: array<word>

    constructor (patternWords: nat, scratchWords: nat)
      requires scratchWords < WORD
      ensures patternBuf.Length == patternWords && scratch.Length == scratchWords
      ensures fresh(patternBuf) && fresh(scratch) && patternBuf != scratch
      ensures failure == None && drained == DetectorStats(0, 0, None)
    {
      patternBuf := new word[patternWords](_ => 0);
      scratch := new word[scratchWords](_ => 0);
      drained, failure, selfTestPassed := DetectorStats(0, 0, None), None, None;
    }

    /** Only the first failure since the last drain is kept. */
    method SetFailure(m: Message)
      modifies this`failure, this`drained
      ensures old(failure).Some? ==> failure == old(failure) && drained == old(drained)
      ensures old(failure).None? ==> failure == Some(m) && drained == old(drained).(firstError := Some(m))
    {
      if failure.None? {
        drained := drained.(firstError := Some(m));
        failure := Some(m);
      }
    }

    method Drain() returns (stats: DetectorStats)
      modifies this`failure, this`drained
      ensures stats == old(drained) && failure == None && drained == DetectorStats(0, 0, None)
    {
      failure := None;
      stats, drained := drained, DetectorStats(0, 0, None);
    }

    method AbsorbPattern(r: Report, expectedDone: nat, nWords: nat)
      modifies this`failure, this`drained
      ensures drained.opsChecked == old(drained).opsChecked + 1
      ensures drained.elementsChecked == old(drained).elementsChecked + nWords
      ensures old(failure).Some? ==> failure == old(failure)
      ensures old(failure).None? && r.done != expectedDone ==>
        failure == Some(CompletionMismatch(r.done, expectedDone))
      ensures old(failure).None? && r.done == expectedDone && r.totalErrors > 0 ==> failure == Some(WrongWords(r))
      ensures old(failure).None? && r.done == expectedDone && r.totalErrors == 0 ==> failure == None
    {
      drained := drained.(opsChecked := drained.opsChecked + 1, elementsChecked := drained.elementsChecked + nWords);
      if r.done != expectedDone {
        SetFailure(CompletionMismatch(r.done, expectedDone));
      } else if r.totalErrors > 0 {
        SetFailure(WrongWords(r));
      }
    }

    /** One pattern check over any memory and any buffer: a failure not yet reported is set if
        and only if the 32-bit counters of wrong words and finished groups do not both come
        out as zero and as the launched groups; up to 2^32 words that means some word is
        wrong, unless all of exactly 2^32 are. It carries a true report of the words, and
        an earlier failure is never overwritten. */
    method PatternCheck(expected: nat -> word, memory: Memory)
      modifies this`failure, this`drained, patternBuf
      ensures forall i: nat :: i < patternBuf.Length ==> patternBuf[i] == memory(Filled(expected, patternBuf.Length))[i]
      ensures drained.opsChecked == old(drained).opsChecked + 1
      ensures drained.elementsChecked == old(drained).elementsChecked + patternBuf.Length
      ensures old(failure).Some? ==> failure == old(failure)
      ensures old(failure).None? ==>
        (failure.Some? <==>
          Faults(KernelJob(patternBuf[..], expected)) % WORD != 0 || Blocks(patternBuf.Length) >= WORD)
      ensures old(failure).None? && patternBuf.Length <= WORD ==>
        (failure.Some? <==> !Clean(patternBuf[..], expected)
                            && !(patternBuf.Length == WORD && AllWrong(patternBuf[..], expected)))
      ensures old(failure).None? && failure.Some? && Blocks(patternBuf.Length) < WORD ==>
        && failure.value.WrongWords?
        && Reported(KernelJob(patternBuf[..], expected), failure.value.report)
    {
      LaunchFill(patternBuf, expected);
      assert patternBuf[..] == Filled(expected, patternBuf.Length);
      Settle(patternBuf, memory);
      KernelJobLaunchable(patternBuf[..], expected);
      var report := LaunchCompare(KernelJob(patternBuf[..], expected));
      VerdictIff(patternBuf[..], expected, report);
      AbsorbPattern(report, Blocks(patternBuf.Length), patternBuf.Length);
    }

    /** One gate: fill, let the memory settle, perhaps inject, compare. */
    method Gate(expected: nat -> word, memory: Memory, inject: bool, idx: nat, bit: nat)
      returns (report: Report, blocks: nat)
      requires scratch.Length < WORD && idx < scratch.Length && bit < 32
      modifies scratch
      ensures blocks == Blocks(scratch.Length)
      ensures Reported(KernelJob(scratch[..], expected), report)
      ensures !inject ==> scratch[..] == memory(Filled(expected, scratch.Length))
      ensures inject ==>
        (SingleFlip(scratch[..], expected, idx, bit) <==> Clean(memory(Filled(expected, scratch.Length)), expected))
    {
      LaunchFill(scratch, expected);
      assert scratch[..] == Filled(expected, scratch.Length);
      Settle(scratch, memory);
      if inject {
        InjectionFlips(scratch[..], expected, idx, bit);
        InjectError(scratch, idx, bit);
      }
      KernelJobLaunchable(scratch[..], expected);
      report := LaunchCompare(KernelJob(scratch[..], expected));
      blocks := Blocks(scratch.Length);
    }

    /** The injection self-test, for every pattern, index and bit: each of its two gates
        passes if and only if the memory kept the pattern, and afterwards the scratch
        buffer holds the pattern again. */
    method RunSelfTest(expected: nat -> word, memory: Memory, idx: nat, bit: nat)
      returns (clean: bool, captured: bool)
      requires scratch.Length < WORD && idx < scratch.Length && bit < 32
      modifies this`selfTestPassed, scratch
      ensures clean <==> Clean(memory(Filled(expected, scratch.Length)), expected)
      ensures captured <==> Clean(memory(Filled(expected, scratch.Length)), expected)
      ensures selfTestPassed == Some(clean && captured)
      ensures Clean(scratch[..], expected)
    {
      var report, blocks := Gate(expected, memory, false, idx, bit);
      CounterIsZeroIff(scratch[..], expected, report);
      clean := report.totalErrors == 0 && report.done == blocks;
      assert clean <==> Clean(scratch[..], expected);
      report, blocks := Gate(expected, memory, true, idx, bit);
      captured := CaughtExactly(report, idx, bit);
      GateDecides(scratch[..], expected, report, idx, bit);
      LaunchFill(scratch, expected);
      selfTestPassed := Some(clean && captured);
    }

    /** The self-test as the engine starts it, on its own seed, index and bit. */
    method RunStandardSelfTest(memory: Memory) returns (passed: bool)
      requires SELF_TEST_IDX < scratch.Length < WORD
      modifies this`selfTestPassed, scratch
      ensures passed <==> Clean(memory(Filled(Expected(SELF_TEST_SEED), scratch.Length)), Expected(SELF_TEST_SEED))
      ensures selfTestPassed == Some(passed)
    {
      var clean, captured := RunSelfTest(Expected(SELF_TEST_SEED), memory, SELF_TEST_IDX, SELF_TEST_BIT);
      passed := clean && captured;
    }
  }

  /** A buffer filled with the pattern. */
  function Filled(expected: nat -> word, n: nat): seq<word> {
    seq(n, i requires 0 <= i < n => expected(i))
  }

  /** The gate decides: over any words, the capture verdict is given if and only if exactly
      the injected bit is wrong. */
  lemma GateDecides(words: seq<word>, expected: nat -> word, r: Report, idx: nat, bit: nat)
    requires |words| < WORD && bit < 32 && Reported(KernelJob(words, expected), r)
    ensures CaughtExactly(r, idx, bit) <==> SingleFlip(words, expected, idx, bit)
  {
    if CaughtExactly(r, idx, bit) { CaughtMeansFlip(words, expected, r, idx, bit); }
    if SingleFlip(words, expected, idx, bit) { FlipIsCaught(words, expected, r, idx, bit); }
  }
}

/** The concurrent compare kernel of the ride-on-load verifier
    (cli-stressor-opencl/verify_opencl.py): one work-item per word, every global access an
    atomic step of its own, and any interleaving of the items' steps. */
module Compare {
  import opened Words

  const LOCAL_SIZE: nat := 256
  const NONE_YET: nat := 0xFFFF_FFFF

  /** A launch: the words as the device sees them, the pattern they should hold, and the
      histogram bin the kernel picks for a word and its expected value. */
  datatype Job = Job(buf: seq<word>, expected: nat -> word, bin: (word, word) -> nat)

  function Blocks(n: nat): nat { (n + LOCAL_SIZE - 1) / LOCAL_SIZE }

  predicate Faulty(j: Job, i: nat) {
    i < |j.buf| && j.buf[i] != j.expected(i)
  }

  function FaultBit(j: Job, i: nat): nat
    requires i < |j.buf|
  {
    j.bin(j.buf[i], j.expected(i))
  }

  /** A launch the histogram has room for; every launch of the kernel is one. */
  ghost predicate Launchable(j: Job) {
    forall i: nat :: Faulty(j, i) ==> FaultBit(j, i) < 32
  }

  /** The bin the kernel picks: `popcount(x ^ (x - 1)) - 1` of the difference `x`. */
  function KernelBin(act: word, exp: word): nat
    requires act != exp
  {
    var x := Xor(act, exp);
    XorIsZeroIff(act, exp);
    PopcountFindsLowestBit(x);
    Popcount(Xor(x, x - 1)) - 1
  }

  /** It is the lowest bit in which the two words differ. */
  lemma KernelBinIsLowest(act: word, exp: word)
    requires act != exp
    ensures Xor(act, exp) > 0 && KernelBin(act, exp) == LowestBit(Xor(act, exp)) < 32
  {
    var x := Xor(act, exp);
    XorIsZeroIff(act, exp);
    PopcountFindsLowestBit(x);
    XorIsWord(act, exp);
    Pow2Is32();
    LowestBitFits(x, 32);
  }

  function KernelJob(buf: seq<word>, expected: nat -> word): Job {
    Job(buf, expected, (a: word, e: word) => if a != e then KernelBin(a, e) else 0)
  }

  lemma KernelJobLaunchable(buf: seq<word>, expected: nat -> word)
    ensures Launchable(KernelJob(buf, expected))
  {
    var j := KernelJob(buf, expected);
    forall i: nat | Faulty(j, i) ensures FaultBit(j, i) < 32 {
      KernelBinIsLowest(buf[i], expected(i));
    }
  }

  datatype Report = Report(totalErrors: nat, idxMin: nat, idxMax: nat, firstExp: nat, firstAct: nat,
                           firstLock: nat, bitHist: seq<nat>, done: nat)

  const CLEAN := Report(0, NONE_YET, 0, 0, 0, NONE_YET, seq(32, _ => 0), 0)

  /** The next access of an item; `IncTotal` to `IncBit` only for a wrong word. */
  datatype Pc = Begin | Check | IncTotal | MinIdx | MaxIdx | Lock | StoreExp | StoreAct | IncBit | Finished

  function Rank(pc: Pc): nat {
    match pc
    case Begin => 0 case Check => 1 case IncTotal => 2 case MinIdx => 3 case MaxIdx => 4
    case Lock => 5 case StoreExp => 6 case StoreAct => 7 case IncBit => 8 case Finished => 9
  }

  /** An item's program counter and its local `prev == 0xFFFFFFFF`. */
  datatype Item = Item(pc: Pc, won: bool)

  datatype State = State(items: seq<Item>, report: Report)

  function Inc(x: nat): nat { (x + 1) % WORD }

  /** The index as the report's 32-bit fields hold it. */
  function Cut(i: nat): nat { i % WORD }

  /** One atomic step of item `i`. */
  function Next(j: Job, s: State, i: nat): State
    requires i < |s.items| && s.items[i].pc != Finished && |s.report.bitHist| == 32
    requires Rank(s.items[i].pc) >= 2 ==> Faulty(j, i) && FaultBit(j, i) < 32
  {
    var r := s.report;
    match s.items[i].pc
    case Begin =>
      if i >= |j.buf| then s.(items := s.items[i := Item(Finished, false)])
      else State(s.items[i := Item(Check, false)], if i % LOCAL_SIZE == 0 then r.(done := Inc(r.done)) else r)
    case Check =>
      s.(items := s.items[i := Item(if Faulty(j, i) then IncTotal else Finished, false)])
    case IncTotal =>
      State(s.items[i := Item(MinIdx, false)], r.(totalErrors := Inc(r.totalErrors)))
    case MinIdx =>
      State(s.items[i := Item(MaxIdx, false)], r.(idxMin := if Cut(i) < r.idxMin then Cut(i) else r.idxMin))
    case MaxIdx =>
      State(s.items[i := Item(Lock, false)], r.(idxMax := if Cut(i) > r.idxMax then Cut(i) else r.idxMax))
    case Lock =>
      if r.firstLock == NONE_YET then State(s.items[i := Item(StoreExp, true)], r.(firstLock := 0))
      else s.(items := s.items[i := Item(IncBit, false)])
    case StoreExp =>
      State(s.items[i := s.items[i].(pc := StoreAct)], r.(firstExp := j.expected(i)))
    case StoreAct =>
      State(s.items[i := s.items[i].(pc := IncBit)], r.(firstAct := j.buf[i]))
    case IncBit =>
      var b := FaultBit(j, i);
      State(s.items[i := s.items[i].(pc := Finished)], r.(bitHist := r.bitHist[b := Inc(r.bitHist[b])]))
  }

  // -------------------------------------------------------------------- counting

  function Count(n: nat, p: nat -> bool): nat {
    if n == 0 then 0 else Count(n - 1, p) + (if p(n - 1) then 1 else 0)
  }

  lemma {:induction false} CountSame(n: nat, p: nat -> bool, q: nat -> bool)
    requires forall i: nat :: i < n ==> (p(i) <==> q(i))
    ensures Count(n, p) == Count(n, q)
  {
    if n > 0 { CountSame(n - 1, p, q); }
  }

  lemma {:induction false} CountOneMore(n: nat, p: nat -> bool, q: nat -> bool, k: nat)
    requires k < n && !p(k) && q(k)
    requires forall i: nat :: i < n && i != k ==> (p(i) <==> q(i))
    ensures Count(n, q) == Count(n, p) + 1
  {
    if k == n - 1 {
      CountSame(n - 1, p, q);
    } else {
      CountOneMore(n - 1, p, q, k);
    }
  }

  lemma {:induction false} CountBound(n: nat, p: nat -> bool)
    ensures Count(n, p) <= n
    ensures Count(n, p) == 0 <==> forall i: nat :: i < n ==> !p(i)
    ensures Count(n, p) == n <==> forall i: nat :: i < n ==> p(i)
  {
    if n > 0 { CountBound(n - 1, p); }
  }

  /** Wrong words whose item has come past an access. */
  ghost function Past(j: Job, s: State, rank: nat): nat -> bool {
    (i: nat) => i < |s.items| && Faulty(j, i) && Rank(s.items[i].pc) >= rank
  }

  ghost function PastBit(j: Job, s: State, b: nat): nat -> bool {
    (i: nat) => i < |s.items| && Faulty(j, i) && Rank(s.items[i].pc) >= 9 && FaultBit(j, i) == b
  }

  ghost function LeaderPast(j: Job, s: State): nat -> bool {
    (i: nat) => i < |s.items| && i < |j.buf| && i % LOCAL_SIZE == 0 && Rank(s.items[i].pc) >= 1
  }

  // ------------------------------------------------------------------ the invariant

  ghost predicate PcOk(j: Job, s: State, i: nat)
    requires i < |s.items|
  {
    && (2 <= Rank(s.items[i].pc) <= 8 ==> Faulty(j, i))
    && (s.items[i].won ==> Faulty(j, i) && Rank(s.items[i].pc) >= 6)
    && (s.items[i].pc == StoreExp || s.items[i].pc == StoreAct ==> s.items[i].won)
  }

  ghost predicate PcsOk(j: Job, s: State) {
    && |s.items| == Blocks(|j.buf|) * LOCAL_SIZE && |s.report.bitHist| == 32
    && (forall i: nat {:trigger PcOk(j, s, i)} :: i < |s.items| ==> PcOk(j, s, i))
  }

  ghost predicate CountsOk(j: Job, s: State) {
    var n := |j.buf|;
    && s.report.totalErrors == Count(n, Past(j, s, 3)) % WORD
    && s.report.done == Count(n, LeaderPast(j, s)) % WORD
    && |s.report.bitHist| == 32
    && forall b: nat :: b < 32 ==> s.report.bitHist[b] == Count(n, PastBit(j, s, b)) % WORD
  }

  ghost predicate MinOk(j: Job, s: State) {
    && (forall i: nat :: Past(j, s, 4)(i) ==> s.report.idxMin <= Cut(i))
    && (s.report.idxMin == NONE_YET || exists i: nat :: Past(j, s, 4)(i) && Cut(i) == s.report.idxMin)
  }

  ghost predicate MaxOk(j: Job, s: State) {
    && (forall i: nat :: Past(j, s, 5)(i) ==> Cut(i) <= s.report.idxMax)
    && (s.report.idxMax == 0 || exists i: nat :: Past(j, s, 5)(i) && Cut(i) == s.report.idxMax)
  }

  /** The lock is free and nobody has come past it, or one item won it and only that
      item's words are stored. */
  ghost predicate LockOk(j: Job, s: State) {
    if s.report.firstLock == NONE_YET then
      && s.report.firstExp == s.report.firstAct == 0
      && forall i: nat :: i < |s.items| ==> !s.items[i].won && !Past(j, s, 6)(i)
    else
      && s.report.firstLock == 0
      && exists w: nat :: WonBy(j, s, w)
  }

  ghost predicate WonBy(j: Job, s: State, w: nat) {
    && w < |s.items| && s.items[w].won && Faulty(j, w)
    && (forall i: nat :: i < |s.items| && s.items[i].won ==> i == w)
    && (Rank(s.items[w].pc) >= 7 ==> s.report.firstExp == j.expected(w))
    && (Rank(s.items[w].pc) >= 8 ==> s.report.firstAct == j.buf[w])
  }

  ghost predicate Inv(j: Job, s: State) {
    PcsOk(j, s) && CountsOk(j, s) && MinOk(j, s) && MaxOk(j, s) && LockOk(j, s)
  }

  function Launch(j: Job): State {
    State(seq(Blocks(|j.buf|) * LOCAL_SIZE, _ => Item(Begin, false)), CLEAN)
  }

  lemma LaunchKeeps(j: Job)
    ensures Inv(j, Launch(j))
  {
    var s, n := Launch(j), |j.buf|;
    CountBound(n, Past(j, s, 3));
    CountBound(n, LeaderPast(j, s));
    forall b: nat | b < 32 ensures Count(n, PastBit(j, s, b)) == 0 {
      CountBound(n, PastBit(j, s, b));
    }
  }

  lemma ItemsCover(n: nat)
    ensures n <= Blocks(n) * LOCAL_SIZE
  {
  }

  ghost predicate CanStep(j: Job, s: State, k: nat) {
    Inv(j, s) && k < |s.items| && s.items[k].pc != Finished && Launchable(j)
  }

  /** What `Next` asks of an item's word. */
  ghost predicate MayStepNow(j: Job, s: State, k: nat)
    requires k < |s.items|
  {
    Rank(s.items[k].pc) >= 2 ==> Faulty(j, k) && FaultBit(j, k) < 32
  }

  lemma MayStep(j: Job, s: State, k: nat)
    requires PcsOk(j, s) && k < |s.items| && s.items[k].pc != Finished && Launchable(j)
    ensures MayStepNow(j, s, k)
  {
    assert PcOk(j, s, k);
  }

  lemma PcKept(j: Job, s: State, k: nat, i: nat)
    requires PcsOk(j, s) && k < |s.items| && s.items[k].pc != Finished && i < |s.items|
    requires MayStepNow(j, s, k)
    ensures i < |Next(j, s, k).items| && PcOk(j, Next(j, s, k), i)
  {
    assert PcOk(j, s, k) && PcOk(j, s, i);
  }

  lemma PcsKept(j: Job, s: State, k: nat)
    requires CanStep(j, s, k) && MayStepNow(j, s, k)
    ensures PcsOk(j, Next(j, s, k))
  {
    var s' := Next(j, s, k);
    assert |s'.items| == |s.items| && |s'.report.bitHist| == 32;
    forall i: nat | i < |s'.items| ensures PcOk(j, s', i) {
      PcKept(j, s, k, i);
    }
  }

  /** The count of items past an access grows by one exactly when a wrong word's item
      makes that access. */
  lemma PastKept(j: Job, s: State, s': State, k: nat, rank: nat)
    requires k < |s.items| == |s'.items| && (forall i: nat :: i < |s.items| && i != k ==> s'.items[i] == s.items[i])
    requires Rank(s'.items[k].pc) >= Rank(s.items[k].pc)
    ensures Count(|j.buf|, Past(j, s', rank)) == Count(|j.buf|, Past(j, s, rank))
      + if Faulty(j, k) && Rank(s.items[k].pc) < rank <= Rank(s'.items[k].pc) then 1 else 0
  {
    if Faulty(j, k) && Rank(s.items[k].pc) < rank <= Rank(s'.items[k].pc) {
      CountOneMore(|j.buf|, Past(j, s, rank), Past(j, s', rank), k);
    } else {
      CountSame(|j.buf|, Past(j, s, rank), Past(j, s', rank));
    }
  }

  lemma LeaderKept(j: Job, s: State, s': State, k: nat)
    requires k < |s.items| == |s'.items| && (forall i: nat :: i < |s.items| && i != k ==> s'.items[i] == s.items[i])
    requires Rank(s'.items[k].pc) > Rank(s.items[k].pc)
    ensures Count(|j.buf|, LeaderPast(j, s')) == Count(|j.buf|, LeaderPast(j, s))
      + if s.items[k].pc == Begin && k < |j.buf| && k % LOCAL_SIZE == 0 then 1 else 0
  {
    if s.items[k].pc == Begin && k < |j.buf| && k % LOCAL_SIZE == 0 {
      CountOneMore(|j.buf|, LeaderPast(j, s), LeaderPast(j, s'), k);
    } else {
      CountSame(|j.buf|, LeaderPast(j, s), LeaderPast(j, s'));
    }
  }

  lemma BitKept(j: Job, s: State, s': State, k: nat, b: nat)
    requires k < |s.items| == |s'.items| && (forall i: nat :: i < |s.items| && i != k ==> s'.items[i] == s.items[i])
    requires Rank(s'.items[k].pc) > Rank(s.items[k].pc)
    ensures Count(|j.buf|, PastBit(j, s', b)) == Count(|j.buf|, PastBit(j, s, b))
      + if s'.items[k].pc == Finished && Faulty(j, k) && FaultBit(j, k) == b then 1 else 0
  {
    if s'.items[k].pc == Finished && Faulty(j, k) && FaultBit(j, k) == b {
      CountOneMore(|j.buf|, PastBit(j, s, b), PastBit(j, s', b), k);
    } else {
      CountSame(|j.buf|, PastBit(j, s, b), PastBit(j, s', b));
    }
  }

  lemma NextShape(j: Job, s: State, k: nat)
    requires CanStep(j, s, k) && MayStepNow(j, s, k)
    ensures var s' := Next(j, s, k);
      && |s'.items| == |s.items| && (forall i: nat :: i < |s.items| && i != k ==> s'.items[i] == s.items[i])
      && Rank(s'.items[k].pc) > Rank(s.items[k].pc)
      && (s'.items[k].pc == Finished ==> s.items[k].pc == IncBit || !Faulty(j, k))
      && (Rank(s.items[k].pc) < 3 <= Rank(s'.items[k].pc) && Faulty(j, k) <==> s.items[k].pc == IncTotal)
  {
    assert PcOk(j, s, k);
  }

  lemma IncCounts(x: nat)
    ensures Inc(x % WORD) == (x + 1) % WORD
  {
  }

  lemma TotalKept(j: Job, s: State, k: nat)
    requires CanStep(j, s, k) && MayStepNow(j, s, k)
    ensures Next(j, s, k).report.totalErrors == Count(|j.buf|, Past(j, Next(j, s, k), 3)) % WORD
  {
    NextShape(j, s, k);
    PastKept(j, s, Next(j, s, k), k, 3);
    IncCounts(Count(|j.buf|, Past(j, s, 3)));
  }

  lemma DoneKept(j: Job, s: State, k: nat)
    requires CanStep(j, s, k) && MayStepNow(j, s, k)
    ensures Next(j, s, k).report.done == Count(|j.buf|, LeaderPast(j, Next(j, s, k))) % WORD
  {
    NextShape(j, s, k);
    LeaderKept(j, s, Next(j, s, k), k);
    IncCounts(Count(|j.buf|, LeaderPast(j, s)));
  }

  lemma HistStep(j: Job, s: State, k: nat, b: nat)
    requires CanStep(j, s, k) && MayStepNow(j, s, k) && b < 32
    ensures |Next(j, s, k).report.bitHist| == 32
    ensures Next(j, s, k).report.bitHist[b]
         == if s.items[k].pc == IncBit && FaultBit(j, k) == b then Inc(s.report.bitHist[b]) else s.report.bitHist[b]
  {
  }

  lemma HistCount(j: Job, s: State, k: nat, b: nat)
    requires CanStep(j, s, k) && MayStepNow(j, s, k) && b < 32
    ensures Count(|j.buf|, PastBit(j, Next(j, s, k), b)) == Count(|j.buf|, PastBit(j, s, b))
      + if s.items[k].pc == IncBit && FaultBit(j, k) == b then 1 else 0
  {
    NextShape(j, s, k);
    BitKept(j, s, Next(j, s, k), k, b);
  }

  lemma HistKept(j: Job, s: State, k: nat, b: nat)
    requires CanStep(j, s, k) && MayStepNow(j, s, k) && b < 32
    ensures |Next(j, s, k).report.bitHist| == 32
    ensures Next(j, s, k).report.bitHist[b] == Count(|j.buf|, PastBit(j, Next(j, s, k), b)) % WORD
  {
    HistStep(j, s, k, b);
    HistCount(j, s, k, b);
    CountOrStay(s.report.bitHist[b], Next(j, s, k).report.bitHist[b],
                Count(|j.buf|, PastBit(j, s, b)), Count(|j.buf|, PastBit(j, Next(j, s, k), b)),
                s.items[k].pc == IncBit && FaultBit(j, k) == b);
  }

  lemma CountOrStay(x: nat, x': nat, c: nat, c': nat, hit: bool)
    requires x == c % WORD && c' == c + (if hit then 1 else 0) && x' == if hit then Inc(x) else x
    ensures x' == c' % WORD
  {
    IncCounts(c);
  }

  lemma CountsKept(j: Job, s: State, k: nat)
    requires CanStep(j, s, k) && MayStepNow(j, s, k)
    ensures CountsOk(j, Next(j, s, k))
  {
    TotalKept(j, s, k);
    DoneKept(j, s, k);
    forall b: nat | b < 32
      ensures Next(j, s, k).report.bitHist[b] == Count(|j.buf|, PastBit(j, Next(j, s, k), b)) % WORD
    {
      HistKept(j, s, k, b);
    }
  }

  lemma MinKept(j: Job, s: State, k: nat)
    requires CanStep(j, s, k) && MayStepNow(j, s, k)
    ensures MinOk(j, Next(j, s, k))
  {
    var s' := Next(j, s, k);
    NextShape(j, s, k);
    forall i: nat | Past(j, s', 4)(i) ensures s'.report.idxMin <= Cut(i) {
      if i != k { assert Past(j, s, 4)(i); } else if s.items[k].pc != MinIdx { assert Past(j, s, 4)(i); }
    }
    if i: nat :| Past(j, s, 4)(i) && Cut(i) == s.report.idxMin { assert Past(j, s', 4)(i); }
    if s.items[k].pc == MinIdx { assert Past(j, s', 4)(k); }
  }

  lemma MaxKept(j: Job, s: State, k: nat)
    requires CanStep(j, s, k) && MayStepNow(j, s, k)
    ensures MaxOk(j, Next(j, s, k))
  {
    var s' := Next(j, s, k);
    NextShape(j, s, k);
    forall i: nat | Past(j, s', 5)(i) ensures Cut(i) <= s'.report.idxMax {
      if i != k { assert Past(j, s, 5)(i); } else if s.items[k].pc != MaxIdx { assert Past(j, s, 5)(i); }
    }
    if i: nat :| Past(j, s, 5)(i) && Cut(i) == s.report.idxMax { assert Past(j, s', 5)(i); }
    if s.items[k].pc == MaxIdx { assert Past(j, s', 5)(k); }
  }

  lemma LockKept(j: Job, s: State, k: nat)
    requires CanStep(j, s, k) && MayStepNow(j, s, k)
    ensures LockOk(j, Next(j, s, k))
  {
    var s' := Next(j, s, k);
    NextShape(j, s, k);
    assert PcOk(j, s, k);
    if s.report.firstLock == NONE_YET {
      assert !Past(j, s, 6)(k);
      if s.items[k].pc == Lock {
        assert WonBy(j, s', k);
      } else {
        forall i: nat | i < |s'.items| ensures !s'.items[i].won && !Past(j, s', 6)(i) {
          assert !s.items[i].won && !Past(j, s, 6)(i);
        }
      }
    } else {
      var w: nat :| WonBy(j, s, w);
      assert WonBy(j, s', w);
    }
  }

  lemma StepKeeps(j: Job, s: State, k: nat)
    requires CanStep(j, s, k)
    ensures MayStepNow(j, s, k)
    ensures Inv(j, Next(j, s, k))
  {
    MayStep(j, s, k);
    PcsKept(j, s, k);
    CountsKept(j, s, k);
    MinKept(j, s, k);
    MaxKept(j, s, k);
    LockKept(j, s, k);
  }

  // ------------------------------------------------------------------ main results

  ghost function FaultTest(j: Job): nat -> bool { (i: nat) => Faulty(j, i) }

  ghost function BitTest(j: Job, b: nat): nat -> bool { (i: nat) => Faulty(j, i) && FaultBit(j, i) == b }

  /** The number of wrong words. */
  ghost function Faults(j: Job): nat { Count(|j.buf|, FaultTest(j)) }

  /** A wrong word's index cut to 32 bits: the index itself in a buffer of up to 2^32 words. */
  ghost predicate FaultyCut(j: Job, x: nat) { exists i: nat :: Faulty(j, i) && Cut(i) == x }

  lemma FaultyCutIsFaulty(j: Job, x: nat)
    requires |j.buf| <= WORD
    ensures FaultyCut(j, x) <==> Faulty(j, x)
  {
    if Faulty(j, x) { assert Cut(x) == x; }
  }

  /** What a completed launch reports, as a statement about the words alone. */
  ghost predicate Reported(j: Job, r: Report) {
    && r.totalErrors == Faults(j) % WORD
    && r.done == Blocks(|j.buf|) % WORD
    && |r.bitHist| == 32
    && (forall b: nat :: b < 32 ==> r.bitHist[b] == Count(|j.buf|, BitTest(j, b)) % WORD)
    && (Faults(j) == 0 ==> r.idxMin == NONE_YET && r.idxMax == 0 && r.firstExp == r.firstAct == 0)
    && (Faults(j) > 0 ==>
          && FaultyCut(j, r.idxMin) && FaultyCut(j, r.idxMax)
          && (forall i: nat :: Faulty(j, i) ==> r.idxMin <= Cut(i) <= r.idxMax)
          && exists w: nat :: Faulty(j, w) && r.firstExp == j.expected(w) && r.firstAct == j.buf[w])
  }

  ghost predicate AllFinished(s: State) {
    forall i: nat :: i < |s.items| ==> s.items[i].pc == Finished
  }

  /** The number of work-items that lead a group inside the buffer. */
  lemma {:induction false} LeadersAreBlocks(n: nat)
    ensures Count(n, (i: nat) => i % LOCAL_SIZE == 0) == Blocks(n)
  {
    if n > 0 { LeadersAreBlocks(n - 1); }
  }

  lemma FinishedCounts(j: Job, s: State)
    requires Inv(j, s) && AllFinished(s)
    ensures Count(|j.buf|, Past(j, s, 3)) == Faults(j)
    ensures Count(|j.buf|, LeaderPast(j, s)) == Blocks(|j.buf|)
    ensures forall b: nat :: b < 32 ==> Count(|j.buf|, PastBit(j, s, b)) == Count(|j.buf|, BitTest(j, b))
  {
    var n := |j.buf|;
    ItemsCover(n);
    CountSame(n, Past(j, s, 3), FaultTest(j));
    CountSame(n, LeaderPast(j, s), (i: nat) => i % LOCAL_SIZE == 0);
    LeadersAreBlocks(n);
    forall b: nat | b < 32 ensures Count(n, PastBit(j, s, b)) == Count(n, BitTest(j, b)) {
      CountSame(n, PastBit(j, s, b), BitTest(j, b));
    }
  }

  lemma FinishedPast(j: Job, s: State, i: nat, rank: nat)
    requires Inv(j, s) && AllFinished(s) && rank <= 9
    ensures Past(j, s, rank)(i) <==> Faulty(j, i)
  {
    ItemsCover(|j.buf|);
  }

  lemma FinishedExtremes(j: Job, s: State)
    requires Inv(j, s) && AllFinished(s)
    ensures Faults(j) == 0 ==> s.report.idxMin == NONE_YET && s.report.idxMax == 0
    ensures Faults(j) > 0 ==>
      && FaultyCut(j, s.report.idxMin) && FaultyCut(j, s.report.idxMax)
      && (forall i: nat :: Faulty(j, i) ==> s.report.idxMin <= Cut(i) <= s.report.idxMax)
  {
    forall i: nat
      ensures Past(j, s, 4)(i) <==> Faulty(j, i)
      ensures Past(j, s, 5)(i) <==> Faulty(j, i)
    {
      FinishedPast(j, s, i, 4);
      FinishedPast(j, s, i, 5);
    }
    FaultsIff(j);
    if i: nat :| Faulty(j, i) {
      assert s.report.idxMin <= Cut(i) <= s.report.idxMax;
      assert s.report.idxMin == NONE_YET ==> Cut(i) == s.report.idxMin;
      assert s.report.idxMax == 0 ==> Cut(i) == s.report.idxMax;
    }
  }

  lemma FaultsIff(j: Job)
    ensures Faults(j) > 0 <==> exists i: nat :: Faulty(j, i)
  {
    CountBound(|j.buf|, FaultTest(j));
    assert forall i: nat :: FaultTest(j)(i) <==> Faulty(j, i);
  }

  lemma FinishedFirst(j: Job, s: State)
    requires Inv(j, s) && AllFinished(s)
    ensures Faults(j) == 0 ==> s.report.firstExp == s.report.firstAct == 0
    ensures Faults(j) > 0 ==>
      exists w: nat :: Faulty(j, w) && s.report.firstExp == j.expected(w) && s.report.firstAct == j.buf[w]
  {
    CountBound(|j.buf|, FaultTest(j));
    if s.report.firstLock == NONE_YET {
      forall i: nat | i < |j.buf| ensures !Faulty(j, i) {
        ItemsCover(|j.buf|);
        FinishedPast(j, s, i, 6);
      }
    } else {
      var w: nat :| WonBy(j, s, w);
      assert FaultTest(j)(w);
    }
  }

  /** Whatever the interleaving was, once every item has finished the report counts the
      wrong words (modulo 2^32), brackets them, sorts them by lowest differing bit,
      counts the launched groups, and shows one single wrong word. */
  lemma FinishedMeansReported(j: Job, s: State)
    requires Inv(j, s) && AllFinished(s) && Launchable(j)
    ensures Reported(j, s.report)
  {
    FinishedCounts(j, s);
    FinishedExtremes(j, s);
    FinishedFirst(j, s);
  }

  // ----------------------------------------------------------------- runs and launches

  ghost predicate Moves(j: Job, s: State, s': State) {
    exists k: nat :: StepOf(j, s, s', k)
  }

  ghost predicate StepOf(j: Job, s: State, s': State, k: nat) {
    && k < |s.items| && s.items[k].pc != Finished && |s.report.bitHist| == 32
    && MayStepNow(j, s, k)
    && s' == Next(j, s, k)
  }

  ghost predicate IsRun(j: Job, states: seq<State>) {
    && states != [] && states[0] == Launch(j)
    && forall i :: 0 <= i < |states| - 1 ==> Moves(j, states[i], states[i + 1])
  }

  lemma {:induction false} RunKeeps(j: Job, states: seq<State>, i: nat)
    requires IsRun(j, states) && i < |states| && Launchable(j)
    ensures Inv(j, states[i])
  {
    if i == 0 {
      LaunchKeeps(j);
    } else {
      RunKeeps(j, states, i - 1);
      assert Moves(j, states[i - 1], states[i]);
      var k: nat :| StepOf(j, states[i - 1], states[i], k);
      StepKeeps(j, states[i - 1], k);
    }
  }

  /** The main result over runs. */
  lemma EveryRunReports(j: Job, states: seq<State>)
    requires IsRun(j, states) && Launchable(j) && AllFinished(states[|states| - 1])
    ensures Reported(j, states[|states| - 1].report)
  {
    RunKeeps(j, states, |states| - 1);
    FinishedMeansReported(j, states[|states| - 1]);
  }

  /** The histogram accounts for every wrong word. */
  function SumTo(f: nat -> nat, n: nat): nat {
    if n == 0 then 0 else SumTo(f, n - 1) + f(n - 1)
  }

  ghost function BitCounts(j: Job, n: nat): nat -> nat {
    b => Count(n, BitTest(j, b))
  }

  lemma {:induction false} SumOneMore(f: nat -> nat, g: nat -> nat, n: nat, k: nat)
    requires k < n && g(k) == f(k) + 1 && forall b: nat :: b < n && b != k ==> g(b) == f(b)
    ensures SumTo(g, n) == SumTo(f, n) + 1
  {
    if k == n - 1 { SumSame(f, g, n - 1); } else { SumOneMore(f, g, n - 1, k); }
  }

  lemma {:induction false} SumSame(f: nat -> nat, g: nat -> nat, n: nat)
    requires forall b: nat :: b < n ==> g(b) == f(b)
    ensures SumTo(g, n) == SumTo(f, n)
  {
    if n > 0 { SumSame(f, g, n - 1); }
  }

  lemma {:induction false} SumOfZeros(f: nat -> nat, n: nat)
    requires forall b: nat :: b < n ==> f(b) == 0
    ensures SumTo(f, n) == 0
  {
    if n > 0 { SumOfZeros(f, n - 1); }
  }

  lemma {:induction false} HistogramSums(j: Job, n: nat)
    requires n <= |j.buf| && Launchable(j)
    ensures SumTo(BitCounts(j, n), 32) == Count(n, FaultTest(j))
  {
    if n == 0 {
      SumOfZeros(BitCounts(j, 0), 32);
    } else {
      HistogramSums(j, n - 1);
      if Faulty(j, n - 1) {
        SumOneMore(BitCounts(j, n - 1), BitCounts(j, n), 32, FaultBit(j, n - 1));
      } else {
        SumSame(BitCounts(j, n - 1), BitCounts(j, n), 32);
      }
    }
  }

  function HistOf(r: Report): nat -> nat {
    (b: nat) => if b < |r.bitHist| then r.bitHist[b] else 0
  }

  lemma BinIsExact(j: Job, r: Report, b: nat)
    requires Reported(j, r) && |j.buf| < WORD && b < 32
    ensures HistOf(r)(b) == BitCounts(j, |j.buf|)(b)
  {
    CountBound(|j.buf|, BitTest(j, b));
    SmallIsExact(Count(|j.buf|, BitTest(j, b)));
  }

  lemma TotalIsExact(j: Job, r: Report)
    requires Reported(j, r) && |j.buf| < WORD
    ensures r.totalErrors == Faults(j)
  {
    CountBound(|j.buf|, FaultTest(j));
    SmallIsExact(Faults(j));
  }

  lemma SmallIsExact(x: nat)
    ensures x < WORD ==> x % WORD == x
  {
  }

  /** With fewer than 2^32 words the reported histogram sums to the reported total. */
  lemma ReportedHistogramSums(j: Job, r: Report, bins: nat)
    requires Reported(j, r) && Launchable(j) && |j.buf| < WORD && bins == |r.bitHist|
    ensures SumTo(HistOf(r), bins) == r.totalErrors == Faults(j)
  {
    TotalIsExact(j, r);
    forall b: nat | b < bins ensures HistOf(r)(b) == BitCounts(j, |j.buf|)(b) {
      BinIsExact(j, r, b);
    }
    HistogramSums(j, |j.buf|);
    SumSame(BitCounts(j, |j.buf|), HistOf(r), bins);
  }

  /** Steps the items still owe. */
  function Owed(items: seq<Item>): nat {
    if items == [] then 0 else Owed(items[..|items| - 1]) + 9 - Rank(items[|items| - 1].pc)
  }

  lemma {:induction false} OwedShrinks(items: seq<Item>, k: nat, i: Item)
    requires k < |items| && Rank(i.pc) > Rank(items[k].pc)
    ensures Owed(items[k := i]) < Owed(items)
    decreases |items|
  {
    var last := |items| - 1;
    if k == last {
      assert items[k := i][..last] == items[..last];
    } else {
      assert items[k := i][..last] == items[..last][k := i];
      OwedShrinks(items[..last], k, i);
    }
  }

  /** The items that still have steps to take. */
  predicate Unfinished(s: State, todo: set<nat>) {
    && (forall i :: i in todo ==> i < |s.items|)
    && forall i: nat :: i < |s.items| ==> (i in todo <==> s.items[i].pc != Finished)
  }

  lemma LaunchStep(j: Job, s: State, k: nat, todo: set<nat>)
    requires Inv(j, s) && Launchable(j) && Unfinished(s, todo) && k in todo
    ensures MayStepNow(j, s, k)
    ensures var s' := Next(j, s, k);
      && Inv(j, s') && k < |s'.items| && Owed(s'.items) < Owed(s.items)
      && Unfinished(s', if s'.items[k].pc == Finished then todo - {k} else todo)
  {
    StepKeeps(j, s, k);
    NextShape(j, s, k);
    TodoAfter(s, Next(j, s, k), k, todo);
  }

  lemma TodoAfter(s: State, s': State, k: nat, todo: set<nat>)
    requires Unfinished(s, todo) && k in todo && |s'.items| == |s.items|
    requires forall i: nat :: i < |s.items| && i != k ==> s'.items[i] == s.items[i]
    requires k < |s.items| && Rank(s'.items[k].pc) > Rank(s.items[k].pc)
    ensures Owed(s'.items) < Owed(s.items)
    ensures Unfinished(s', if s'.items[k].pc == Finished then todo - {k} else todo)
  {
    assert s'.items == s.items[k := s'.items[k]];
    OwedShrinks(s.items, k, s'.items[k]);
  }

  /** A launch: the scheduler picks any unfinished item for the next step, until none is
      left. */
  method LaunchCompare(j: Job) returns (report: Report)
    requires Launchable(j)
    ensures Reported(j, report)
  {
    var s := Launch(j);
    LaunchKeeps(j);
    var todo := set i: nat | i < |s.items| && s.items[i].pc != Finished;
    while todo != {}
      invariant Inv(j, s) && Unfinished(s, todo)
      decreases Owed(s.items)
    {
      var k :| k in todo;
      LaunchStep(j, s, k, todo);
      s := Next(j, s, k);
      todo := if s.items[k].pc == Finished then todo - {k} else todo;
    }
    FinishedMeansReported(j, s);
    report := s.report;
  }
}

/** Filling a buffer with generator output in parallel chunks, and repeating one random
    tile over a large buffer (cli-stressor-cuda-rs/src/lib.rs). */
module RandomFill {
  import opened Arithmetic
  import opened Hash

  const RNG_CHUNK: nat := 65536
  const RNG_TILE_BYTES: nat := 4194304

  /** `n` as a 64-bit word, counted up from zero so that it wraps as the source's does. */
  function Bits(n: nat): bv64 {
    if n == 0 then 0 else Successor(Bits(n - 1))
  }

  /** `n` steps of the golden constant, one after the other. */
  function GoldenSteps(n: nat): bv64 {
    if n == 0 then 0 else Step(GoldenSteps(n - 1))
  }

  lemma GoldenMore(k: bv64, next: bv64)
    requires next == Successor(k)
    ensures Step(TimesGolden(k)) == TimesGolden(next)
  {
    StepGolden(k);
  }

  /** Stepping `n` times is multiplying by `n`, modulo 2^64. */
  lemma {:induction false} GoldenStepsIsProduct(n: nat)
    ensures GoldenSteps(n) == TimesGolden(Bits(n))
  {
    if n == 0 {
      StepGolden(0);
    } else {
      GoldenStepsIsProduct(n - 1);
      GoldenMore(Bits(n - 1), Bits(n));
    }
  }

  /** The low `n` bytes of a word, low byte first. */
  function LowBytes(w: bv64, n: nat): (bs: seq<bv8>)
    ensures |bs| == n
  {
    if n == 0 then [] else [(w & 0xFF) as bv8] + LowBytes(Rest(w), n - 1)
  }

  /** `to_le_bytes`. */
  function LeBytes(w: bv64): (bs: seq<bv8>)
    ensures |bs| == 8
  {
    LowBytes(w, 8)
  }

  /** A word read back from its bytes, low byte first. */
  function FromLeBytes(bs: seq<bv8>): bv64 {
    if bs == [] then 0 else Join(bs[0], FromLeBytes(bs[1..]))
  }

  function Join(low: bv8, high: bv64): bv64 { (low as bv64) | (high << 8) }

  /** A word without its low byte. */
  function Rest(w: bv64): bv64 { w >> 8 }

  function Shifted(w: bv64, n: nat): bv64 {
    if n == 0 then w else Shifted(Rest(w), n - 1)
  }

  lemma JoinSplits(w: bv64)
    ensures Join((w & 0xFF) as bv8, Rest(w)) == w
  {
  }

  lemma EightBytes(w: bv64)
    ensures Rest(Rest(Rest(Rest(Rest(Rest(Rest(Rest(w)))))))) == 0
  {
    assert w >> 8 >> 8 >> 8 >> 8 >> 8 >> 8 >> 8 >> 8 == 0;
  }

  lemma {:induction false} ShiftedFurther(w: bv64, m: nat, n: nat)
    ensures Shifted(w, m + n) == Shifted(Shifted(w, m), n)
  {
    if m > 0 { ShiftedFurther(Rest(w), m - 1, n); }
  }

  lemma ShiftedTwo(w: bv64)
    ensures Shifted(w, 2) == Rest(Rest(w))
  {
    assert Shifted(w, 2) == Shifted(Rest(w), 1) == Shifted(Rest(Rest(w)), 0);
  }

  lemma ShiftedFour(w: bv64)
    ensures Shifted(w, 4) == Rest(Rest(Rest(Rest(w))))
  {
    ShiftedFurther(w, 2, 2);
    ShiftedTwo(w);
    ShiftedTwo(Rest(Rest(w)));
  }

  lemma ShiftedEight(w: bv64)
    ensures Shifted(w, 8) == 0
  {
    ShiftedFurther(w, 4, 4);
    ShiftedFour(w);
    ShiftedFour(Rest(Rest(Rest(Rest(w)))));
    EightBytes(w);
  }

  lemma {:induction false} ReadsBack(w: bv64, n: nat)
    requires Shifted(w, n) == 0
    ensures FromLeBytes(LowBytes(w, n)) == w
  {
    if n > 0 {
      ReadsBack(Rest(w), n - 1);
      JoinSplits(w);
      assert LowBytes(w, n)[1..] == LowBytes(Rest(w), n - 1);
    }
  }

  /** The round trip: the eight bytes, low byte first, are the word. */
  lemma LeBytesRoundTrip(w: bv64)
    ensures FromLeBytes(LeBytes(w)) == w
  {
    ShiftedEight(w);
    ReadsBack(w, 8);
  }

  /** The state chunk task `c` starts from. */
  function ChunkSeed(seed: bv64, c: nat): bv64 {
    Plus(seed, TimesGolden(Bits(c)))
  }

  /** Word `k` of chunk `c`. */
  function Word(seed: bv64, c: nat, k: nat): bv64 {
    Mix(Plus(ChunkSeed(seed, c), GoldenSteps(k + 1)))
  }

  /** The byte the fill owes position `i`, whatever the length and the schedule. */
  function FillByte(seed: bv64, i: nat): bv8 {
    var o := i % RNG_CHUNK;
    LeBytes(Word(seed, i / RNG_CHUNK, o / 8))[o % 8]
  }

  lemma PlusZero(s: bv64)
    ensures Plus(s, 0) == s
  {
  }

  lemma {:induction false} StepsAdd(seed: bv64, c: nat, k: nat)
    ensures Plus(Plus(seed, GoldenSteps(c)), GoldenSteps(k)) == Plus(seed, GoldenSteps(c + k))
  {
    if k == 0 {
      PlusZero(Plus(seed, GoldenSteps(c)));
    } else {
      StepsAdd(seed, c, k - 1);
      StepPlus(Plus(seed, GoldenSteps(c)), GoldenSteps(k - 1));
      StepPlus(seed, GoldenSteps(c + k - 1));
    }
  }

  lemma WordState(seed: bv64, c: nat, k: nat, n: nat)
    requires n == c + (k + 1)
    ensures Word(seed, c, k) == Mix(Plus(seed, GoldenSteps(n)))
  {
    GoldenStepsIsProduct(c);
    StepsAdd(seed, c, k + 1);
  }

  /** Word `k` of chunk `c` is the finalized seed plus `(c + k + 1)` times the golden
      constant, modulo 2^64. */
  lemma WordIsMix(seed: bv64, c: nat, k: nat)
    ensures Word(seed, c, k) == Draw(seed, Bits(c + k + 1))
  {
    GoldenStepsIsProduct(c + k + 1);
    WordState(seed, c, k, c + k + 1);
  }

  /** So a chunk `d` and the one before it, `c`, carry the same stream one word apart. */
  lemma ChunksOverlap(seed: bv64, c: nat, d: nat, k: nat, j: nat)
    requires d == c + 1 && j == k + 1
    ensures Word(seed, d, k) == Word(seed, c, j)
  {
    var n := c + k + 2;
    WordState(seed, d, k, n);
    WordState(seed, c, j, n);
  }

  /** Byte `k` of a word, counted from the low end. */
  function ByteAt(w: bv64, k: nat): bv8 { (Shifted(w, k) & 0xFF) as bv8 }

  lemma {:induction false} LowBytesAt(w: bv64, n: nat, k: nat)
    requires k < n
    ensures LowBytes(w, n)[k] == ByteAt(w, k)
  {
    if k > 0 { LowBytesAt(Rest(w), n - 1, k - 1); }
  }

  lemma LeBytesAt(w: bv64, k: nat)
    requires k < 8
    ensures LeBytes(w)[k] == ByteAt(w, k)
  {
    LowBytesAt(w, 8, k);
  }

  lemma OffsetInWord(i: nat)
    ensures i % 65536 % 8 == i % 8
  {
  }

  /** The byte at position `i` in terms of the generator alone: chunks of 65536 bytes, eight bytes
      from each draw, the low one first. */
  lemma FillByteIs(seed: bv64, i: nat)
    ensures FillByte(seed, i) == ByteAt(Draw(seed, Bits(i / 65536 + i % 65536 / 8 + 1)), i % 8)
  {
    OffsetInWord(i);
    WordIsMix(seed, i / 65536, i % 65536 / 8);
    LeBytesAt(Word(seed, i / 65536, i % 65536 / 8), i % 8);
  }

  // ------------------------------------------------------------- the parallel fill

  function ChunkCount(len: nat): nat { (len + RNG_CHUNK - 1) / RNG_CHUNK }

  /** The length of chunk `c` of a buffer of `len` bytes. */
  function ChunkLength(len: nat, c: nat): nat
    requires c * RNG_CHUNK <= len
  {
    Min(RNG_CHUNK, len - c * RNG_CHUNK)
  }

  /** How often task `c` gets a turn. */
  function Turns(schedule: seq<nat>, c: nat): nat {
    if schedule == [] then 0
    else Turns(schedule[..|schedule| - 1], c) + (if schedule[|schedule| - 1] == c then 1 else 0)
  }

  lemma TurnsSnoc(schedule: seq<nat>, n: nat, c: nat)
    requires n < |schedule|
    ensures Turns(schedule[..n + 1], c) == Turns(schedule[..n], c) + (if schedule[n] == c then 1 else 0)
  {
    assert schedule[..n + 1][..n] == schedule[..n];
  }

  /** Position `i` has been written once its chunk's task has had enough turns. */
  predicate Written(schedule: seq<nat>, i: nat) {
    (i % RNG_CHUNK) / 8 < Turns(schedule, i / RNG_CHUNK)
  }

  lemma PositionSplits(i: nat)
    ensures i == (i / RNG_CHUNK) * RNG_CHUNK + i % RNG_CHUNK
  {
  }

  /** A buffer after some turns: every position holds its byte if its word has been
      written, and what it held before otherwise. */
  ghost predicate FilledSoFar(now: seq<bv8>, was: seq<bv8>, len: nat, seed: bv64, schedule: seq<nat>) {
    && |now| == |was| && len <= |was|
    && forall i :: 0 <= i < |was| ==>
         now[i] == if i < len && Written(schedule, i) then FillByte(seed, i) else was[i]
  }

  /** One word of one chunk task: eight bytes, or the partial tail of the chunk. */
  method WriteWord(buf: array<bv8>, len: nat, c: nat, k: nat, w: bv64)
    requires len <= buf.Length && c * RNG_CHUNK <= len && 8 * k < ChunkLength(len, c)
    modifies buf
    ensures var base := c * RNG_CHUNK;
      forall i :: 0 <= i < buf.Length ==>
        buf[i] == if base + 8 * k <= i < base + Min(8 * k + 8, ChunkLength(len, c)) then LeBytes(w)[i - base - 8 * k]
                  else old(buf[i])
  {
    var bytes := LeBytes(w);
    var start := c * RNG_CHUNK + 8 * k;
    var n := Min(8, ChunkLength(len, c) - 8 * k);
    for j := 0 to n
      invariant forall i :: 0 <= i < buf.Length ==>
        buf[i] == if start <= i < start + j then bytes[i - start] else old(buf[i])
    {
      buf[start + j] := bytes[j];
    }
  }

  /** What one position holds after a turn of task `c`, its turn number `k`. */
  function AfterTurn(before: bv8, len: nat, seed: bv64, c: nat, k: nat, i: nat): bv8
    requires c * RNG_CHUNK <= len
  {
    var base := c * RNG_CHUNK;
    if base + 8 * k <= i < base + Min(8 * k + 8, ChunkLength(len, c))
    then LeBytes(Word(seed, c, k))[i - base - 8 * k] else before
  }

  /** A turn completes exactly the positions of its word. */
  lemma TurnAt(was: bv8, before: bv8, len: nat, seed: bv64, c: nat, k: nat, i: nat)
    requires c * RNG_CHUNK <= len
    requires before == if i < len && i % RNG_CHUNK / 8 < k then FillByte(seed, i) else was
    requires i / RNG_CHUNK == c
    ensures AfterTurn(before, len, seed, c, k, i)
         == if i < len && i % RNG_CHUNK / 8 < k + 1 then FillByte(seed, i) else was
  {
    PositionSplits(i);
    var o := i % RNG_CHUNK;
    assert o == 8 * (o / 8) + o % 8;
  }

  lemma TurnElsewhere(before: bv8, len: nat, seed: bv64, c: nat, k: nat, i: nat)
    requires c * RNG_CHUNK <= len && i / RNG_CHUNK != c
    ensures AfterTurn(before, len, seed, c, k, i) == before
  {
    PositionSplits(i);
  }

  lemma TurnWritesWord(was: seq<bv8>, before: seq<bv8>, now: seq<bv8>, len: nat, seed: bv64,
                       schedule: seq<nat>, n: nat, c: nat)
    requires n < |schedule| && schedule[n] == c && c * RNG_CHUNK < len
    requires FilledSoFar(before, was, len, seed, schedule[..n])
    requires |now| == |before|
    requires forall i :: 0 <= i < |now| ==> now[i] == AfterTurn(before[i], len, seed, c, Turns(schedule[..n], c), i)
    ensures FilledSoFar(now, was, len, seed, schedule[..n + 1])
  {
    var k := Turns(schedule[..n], c);
    forall i: nat | i < |was|
      ensures now[i] == if i < len && Written(schedule[..n + 1], i) then FillByte(seed, i) else was[i]
    {
      TurnsSnoc(schedule, n, i / RNG_CHUNK);
      if i / RNG_CHUNK == c {
        TurnAt(was[i], before[i], len, seed, c, k, i);
      } else {
        TurnElsewhere(before[i], len, seed, c, k, i);
      }
    }
  }

  /** Each chunk's turn count and generator state after the first `n` turns. */
  ghost predicate TasksAfter(turns: seq<nat>, states: seq<bv64>, tasks: nat, seed: bv64, schedule: seq<nat>) {
    && |turns| == |states| == tasks
    && (forall c: nat :: c < tasks ==> TaskAfter(turns, states, seed, schedule, c))
  }

  ghost predicate TaskAfter(turns: seq<nat>, states: seq<bv64>, seed: bv64, schedule: seq<nat>, c: nat)
    requires c < |turns| && c < |states|
  {
    turns[c] == Turns(schedule, c) && states[c] == Plus(ChunkSeed(seed, c), GoldenSteps(turns[c]))
  }

  lemma TasksBegin(tasks: nat, seed: bv64)
    ensures TasksAfter(seq(tasks, _ => 0), seq(tasks, c requires 0 <= c < tasks => ChunkSeed(seed, c)), tasks, seed, [])
  {
    forall c: nat | c < tasks ensures Plus(ChunkSeed(seed, c), GoldenSteps(0)) == ChunkSeed(seed, c) {
      PlusZero(ChunkSeed(seed, c));
    }
  }

  lemma TasksTurn(turns: seq<nat>, states: seq<bv64>, tasks: nat, seed: bv64, schedule: seq<nat>, n: nat)
    requires n < |schedule| && schedule[n] < tasks
    requires TasksAfter(turns, states, tasks, seed, schedule[..n])
    ensures var c := schedule[n];
      && Mix(Step(states[c])) == Word(seed, c, turns[c])
      && TasksAfter(turns[c := turns[c] + 1], states[c := Step(states[c])], tasks, seed, schedule[..n + 1])
  {
    var c := schedule[n];
    assert TaskAfter(turns, states, seed, schedule[..n], c);
    StepPlus(ChunkSeed(seed, c), GoldenSteps(turns[c]));
    var turns', states', done := turns[c := turns[c] + 1], states[c := Step(states[c])], schedule[..n + 1];
    forall d: nat | d < tasks
      ensures TaskAfter(turns', states', seed, done, d)
    {
      assert TaskAfter(turns, states, seed, schedule[..n], d);
      TurnsSnoc(schedule, n, d);
    }
  }

  /** `fill_random_bytes` on the first `len` bytes, with its chunk tasks interleaved word by
      word in any way: `schedule` names the chunk whose turn is next. A position holds its
      final byte as soon as its own task has come that far, and nothing else moves. */
  method FillRandomBytes(buf: array<bv8>, len: nat, seed: bv64, schedule: seq<nat>)
    requires len <= buf.Length
    requires forall n :: 0 <= n < |schedule| ==> schedule[n] < ChunkCount(len)
    modifies buf
    ensures FilledSoFar(buf[..], old(buf[..]), len, seed, schedule)
  {
    ghost var was := buf[..];
    var tasks := ChunkCount(len);
    var turns: seq<nat> := seq(tasks, _ => 0);
    var states := seq(tasks, c requires 0 <= c < tasks => ChunkSeed(seed, c));
    assert schedule[..0] == [];
    TasksBegin(tasks, seed);
    for n := 0 to |schedule|
      invariant TasksAfter(turns, states, tasks, seed, schedule[..n])
      invariant FilledSoFar(buf[..], was, len, seed, schedule[..n])
    {
      var c := schedule[n];
      TaskStartsInside(len, c);
      ghost var before := buf[..];
      TasksTurn(turns, states, tasks, seed, schedule, n);
      assert TaskAfter(turns, states, seed, schedule[..n], c);
      RunTurn(buf, len, seed, c, turns[c], Mix(Step(states[c])));
      TurnWritesWord(was, before, buf[..], len, seed, schedule, n, c);
      turns, states := turns[c := turns[c] + 1], states[c := Step(states[c])];
    }
    assert schedule[..|schedule|] == schedule;
  }

  /** One turn of task `c`: its next word, unless the chunk is finished. */
  method RunTurn(buf: array<bv8>, len: nat, ghost seed: bv64, c: nat, k: nat, w: bv64)
    requires len <= buf.Length && c * RNG_CHUNK < len && w == Word(seed, c, k)
    modifies buf
    ensures forall i: nat :: i < buf.Length ==> buf[i] == AfterTurn(old(buf[i]), len, seed, c, k, i)
  {
    if 8 * k < ChunkLength(len, c) {
      WriteWord(buf, len, c, k, w);
    }
  }

  lemma TaskStartsInside(len: nat, c: nat)
    ensures c < ChunkCount(len) ==> c * RNG_CHUNK < len
  {
  }

  /** Every task has run to its end. */
  ghost predicate Complete(schedule: seq<nat>, len: nat) {
    forall i: nat :: i < len ==> Written(schedule, i)
  }

  /** Under every order of the chunk tasks the finished buffer is the same. */
  lemma OrderDoesNotMatter(a: seq<bv8>, b: seq<bv8>, was: seq<bv8>, len: nat, seed: bv64,
                           s: seq<nat>, t: seq<nat>)
    requires FilledSoFar(a, was, len, seed, s) && Complete(s, len)
    requires FilledSoFar(b, was, len, seed, t) && Complete(t, len)
    ensures a == b
    ensures forall i: nat :: i < len ==> a[i] == FillByte(seed, i)
  {
  }

  // ------------------------------------------------------------------ the tiled fill

  /** `tiled_random_bytes`: the first tile is random, and the copies of it that follow may
      be made in any order, `copies` naming the next one. */
  method TiledRandomBytes(buf: array<bv8>, seed: bv64, schedule: seq<nat>, copies: seq<nat>)
    requires forall n :: 0 <= n < |schedule| ==> schedule[n] < ChunkCount(Min(buf.Length, RNG_TILE_BYTES))
    requires Complete(schedule, Min(buf.Length, RNG_TILE_BYTES))
    requires forall n :: 0 <= n < |copies| ==> copies[n] >= 1 && copies[n] * RNG_TILE_BYTES < buf.Length
    requires forall j: nat :: j >= 1 && j * RNG_TILE_BYTES < buf.Length ==> j in copies
    modifies buf
    ensures forall i: nat :: i < buf.Length ==> buf[i] == FillByte(seed, i % RNG_TILE_BYTES)
  {
    var tile := Min(buf.Length, RNG_TILE_BYTES);
    FillRandomBytes(buf, tile, seed, schedule);
    assert forall i: nat :: i < tile ==> buf[i] == buf[..][i] == FillByte(seed, i);
    for n := 0 to |copies|
      invariant forall i: nat :: i < tile ==> buf[i] == FillByte(seed, i)
      invariant forall i: nat :: tile <= i < buf.Length && i / RNG_TILE_BYTES in copies[..n] ==>
        buf[i] == FillByte(seed, i % RNG_TILE_BYTES)
    {
      CopyTile(buf, seed, copies[n]);
      assert copies[..n + 1] == copies[..n] + [copies[n]];
    }
    assert copies[..|copies|] == copies;
    forall i: nat | i < buf.Length ensures buf[i] == FillByte(seed, i % RNG_TILE_BYTES) {
      TileOf(i);
    }
  }

  lemma TileOf(i: nat)
    ensures (i / RNG_TILE_BYTES) * RNG_TILE_BYTES <= i
    ensures i < RNG_TILE_BYTES ==> i % RNG_TILE_BYTES == i
    ensures i >= RNG_TILE_BYTES ==> i / RNG_TILE_BYTES >= 1
  {
  }

  lemma InTile(i: nat, j: nat)
    ensures i / RNG_TILE_BYTES == j <==> j * RNG_TILE_BYTES <= i < j * RNG_TILE_BYTES + RNG_TILE_BYTES
    ensures i / RNG_TILE_BYTES == j ==> i % RNG_TILE_BYTES == i - j * RNG_TILE_BYTES
  {
  }

  /** One copy of the tile, cut short at the end of the buffer. */
  method CopyTile(buf: array<bv8>, seed: bv64, j: nat)
    requires j >= 1 && j * RNG_TILE_BYTES < buf.Length
    requires forall i: nat :: i < RNG_TILE_BYTES ==> buf[i] == FillByte(seed, i)
    modifies buf
    ensures forall i: nat :: i < buf.Length ==>
      buf[i] == if i / RNG_TILE_BYTES == j then FillByte(seed, i % RNG_TILE_BYTES) else old(buf[i])
  {
    var start := j * RNG_TILE_BYTES;
    var n := Min(RNG_TILE_BYTES, buf.Length - start);
    for k := 0 to n
      invariant forall i: nat :: i < buf.Length ==>
        buf[i] == if start <= i < start + k then FillByte(seed, i - start) else old(buf[i])
    {
      buf[start + k] := buf[k];
    }
    forall i: nat | i < buf.Length
      ensures buf[i] == if i / RNG_TILE_BYTES == j then FillByte(seed, i % RNG_TILE_BYTES) else old(buf[i])
    {
      InTile(i, j);
    }
  }
}

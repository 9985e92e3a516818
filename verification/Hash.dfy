/** The splitmix64 generator and the pattern oracle built on its finalizer
    (cli-stressor-cuda-rs/src/lib.rs, cli-stressor-cuda-rs/src/verify.rs).  Machine
    words are 64-bit vectors, so every operation wraps as the source's does. */
module Hash {
  // -------------------------------------------------- the rounds and their inverses

  function Shift30(x: bv64): bv64 { x ^ (x >> 30) }
  function Shift27(x: bv64): bv64 { x ^ (x >> 27) }
  function Shift31(x: bv64): bv64 { x ^ (x >> 31) }
  function Times1(x: bv64): bv64 { x * 0xBF58476D1CE4E5B9 }
  function Times2(x: bv64): bv64 { x * 0x94D049BB133111EB }

  function Unshift30(y: bv64): bv64 { y ^ (y >> 30) ^ (y >> 60) }
  function Unshift27(y: bv64): bv64 { y ^ (y >> 27) ^ (y >> 54) }
  function Unshift31(y: bv64): bv64 { y ^ (y >> 31) ^ (y >> 62) }
  function Over1(y: bv64): bv64 { y * 0x96de1b173f119089 }
  function Over2(y: bv64): bv64 { y * 0x319642b2d24d8ec3 }

  /** The finalizer: two xorshift-multiply rounds and a last xorshift. */
  function Mix(x: bv64): bv64 { Shift31(Times2(Shift27(Times1(Shift30(x))))) }

  /** Its inverse: the rounds undone, last first. */
  function Unmix(y: bv64): bv64 { Unshift30(Over1(Unshift27(Over2(Unshift31(y))))) }

  lemma ShiftInverses(x: bv64)
    ensures Unshift30(Shift30(x)) == x == Shift30(Unshift30(x))
    ensures Unshift27(Shift27(x)) == x == Shift27(Unshift27(x))
    ensures Unshift31(Shift31(x)) == x == Shift31(Unshift31(x))
  {
    assert Unshift30(x ^ (x >> 30)) == x && Shift30(x ^ (x >> 30) ^ (x >> 60)) == x;
    assert Unshift27(x ^ (x >> 27)) == x && Shift27(x ^ (x >> 27) ^ (x >> 54)) == x;
    assert Unshift31(x ^ (x >> 31)) == x && Shift31(x ^ (x >> 31) ^ (x >> 62)) == x;
  }

  lemma TimesInverses(x: bv64)
    ensures Over1(Times1(x)) == x == Times1(Over1(x))
    ensures Over2(Times2(x)) == x == Times2(Over2(x))
  {
    assert Over1(x * 0xBF58476D1CE4E5B9) == x && Times1(x * 0x96de1b173f119089) == x;
    assert Over2(x * 0x94D049BB133111EB) == x && Times2(x * 0x319642b2d24d8ec3) == x;
  }

  lemma MixUndone(x: bv64)
    ensures Unmix(Mix(x)) == x
  {
    ShiftInverses(x);
    TimesInverses(Shift30(x));
    ShiftInverses(Times1(Shift30(x)));
    TimesInverses(Shift27(Times1(Shift30(x))));
    ShiftInverses(Times2(Shift27(Times1(Shift30(x)))));
  }

  lemma MixReached(y: bv64)
    ensures Mix(Unmix(y)) == y
  {
    ShiftInverses(y);
    TimesInverses(Unshift31(y));
    ShiftInverses(Over2(Unshift31(y)));
    TimesInverses(Unshift27(Over2(Unshift31(y))));
    ShiftInverses(Over1(Unshift27(Over2(Unshift31(y)))));
  }

  /** The finalizer is a permutation of the 64-bit words, with `Unmix` as its inverse. */
  lemma MixIsPermutation(x: bv64)
    ensures Unmix(Mix(x)) == x
    ensures Mix(Unmix(x)) == x
  {
    MixUndone(x);
    MixReached(x);
  }

  lemma MixIsInjective(x: bv64, y: bv64)
    requires Mix(x) == Mix(y)
    ensures x == y
  {
    MixUndone(x);
    MixUndone(y);
  }

  // ------------------------------------------------------------------ the generator

  function TimesGolden(k: bv64): bv64 { k * 0x9E3779B97F4A7C15 }
  function OverGolden(y: bv64): bv64 { y * 0xf1de83e19937733d }

  /** One step of the generator's counter. */
  function Step(s: bv64): bv64 { s + 0x9E3779B97F4A7C15 }

  lemma StepGolden(k: bv64)
    ensures TimesGolden(0) == 0
    ensures Step(TimesGolden(k)) == TimesGolden(k + 1)
  {
    assert Step(k * 0x9E3779B97F4A7C15) == (k + 1) * 0x9E3779B97F4A7C15;
  }

  lemma GoldenUndone(k: bv64)
    ensures OverGolden(TimesGolden(k)) == k
  {
    assert OverGolden(k * 0x9E3779B97F4A7C15) == k;
  }

  lemma GoldenIsInjective(j: bv64, k: bv64)
    requires TimesGolden(j) == TimesGolden(k)
    ensures j == k
  {
    GoldenUndone(j);
    GoldenUndone(k);
  }

  /** The generator: a counter stepping by the golden constant, finalized. */
  class SplitMix64 {
    var state: bv64

    constructor (seed: bv64)
      ensures state == seed
    {
      state := seed;
    }

    method Next() returns (z: bv64)
      modifies this
      ensures state == Step(old(state))
      ensures z == Mix(state)
    {
      state := Step(state);
      z := Times1(Shift30(state));
      z := Times2(Shift27(z));
      z := Shift31(z);
    }
  }

  function Plus(s: bv64, p: bv64): bv64 { s + p }
  function Minus(y: bv64, s: bv64): bv64 { y - s }

  lemma PlusUndone(s: bv64, p: bv64)
    ensures Minus(Plus(s, p), s) == p
  {
    assert Minus(s + p, s) == p;
  }

  lemma PlusIsInjective(s: bv64, p: bv64, q: bv64)
    requires Plus(s, p) == Plus(s, q)
    ensures p == q
  {
    PlusUndone(s, p);
    PlusUndone(s, q);
  }

  /** The word the generator gives `k` steps after state `s`. */
  function Draw(s: bv64, k: bv64): bv64 {
    Mix(Plus(s, TimesGolden(k)))
  }

  /** `2^64` consecutive draws never repeat, from any state. */
  lemma DrawsNeverRepeat(s: bv64, j: bv64, k: bv64)
    requires Draw(s, j) == Draw(s, k)
    ensures j == k
  {
    MixIsInjective(Plus(s, TimesGolden(j)), Plus(s, TimesGolden(k)));
    PlusIsInjective(s, TimesGolden(j), TimesGolden(k));
    GoldenIsInjective(j, k);
  }

  lemma StepPlus(s: bv64, p: bv64)
    ensures Step(Plus(s, p)) == Plus(s, Step(p))
  {
    assert Step(s + p) == s + p + 0x9E3779B97F4A7C15;
    assert Plus(s, p + 0x9E3779B97F4A7C15) == s + p + 0x9E3779B97F4A7C15;
  }

  /** One call from the state `k` steps on gives draw `k + 1` and moves one step on. */
  lemma NextIsDraw(s: bv64, k: bv64)
    ensures Step(Plus(s, TimesGolden(k))) == Plus(s, TimesGolden(k + 1))
    ensures Mix(Step(Plus(s, TimesGolden(k)))) == Draw(s, k + 1)
  {
    StepPlus(s, TimesGolden(k));
    StepGolden(k);
  }

  // ----------------------------------------------------------------- the pattern

  function Xor(s: bv64, p: bv64): bv64 { s ^ p }

  lemma XorIsInjective(s: bv64, p: bv64, q: bv64)
    requires Xor(s, p) == Xor(s, q)
    ensures p == q
  {
    assert Xor(s, s ^ p) == p;
    assert Xor(s, s ^ q) == q;
  }

  function Successor(i: bv64): bv64 { i + 1 }

  lemma SuccessorIsInjective(i: bv64, j: bv64)
    ensures Successor(i) == Successor(j) ==> i == j
  {
  }

  /** The oracle's 64-bit word before it is cut down. */
  function Pattern64(i: bv64, seed: bv64): bv64 {
    Mix(Xor(seed, TimesGolden(Successor(i))))
  }

  /** The finalizer's high 32 bits. */
  function VHash32(x: bv64): bv32 {
    High(Mix(x))
  }

  function High(w: bv64): bv32 { (w >> 32) as bv32 }

  /** The word the pattern expects at index `i`. */
  function VExpected(i: bv64, seed: bv64): bv32 {
    VHash32(Xor(seed, TimesGolden(Successor(i))))
  }

  /** The upper half of a word, and a half put back in its place. */
  function Upper(w: bv64): bv64 { w & 0xFFFF_FFFF_0000_0000 }
  function PutBack(half: bv32): bv64 { (half as bv64) << 32 }

  lemma HighIsUpper(w: bv64)
    ensures PutBack(High(w)) == Upper(w)
  {
    assert PutBack((w >> 32) as bv32) == w & 0xFFFF_FFFF_0000_0000;
  }

  /** What the oracle keeps of its 64-bit word is the upper half. */
  lemma ExpectedIsUpperHalf(i: bv64, seed: bv64)
    ensures PutBack(VExpected(i, seed)) == Upper(Pattern64(i, seed))
  {
    HighIsUpper(Pattern64(i, seed));
  }

  /** The first two outputs of the published generator from seed zero, and two words of the
      oracle: its first under seed zero, which is the high half of the first of them, and the
      self-test's own. */
  lemma KnownAnswers()
    ensures Draw(0, 1) == 0xE220A8397B1DCDAF
    ensures Draw(0, 2) == 0x6E789E6AA1B965F4
    ensures VExpected(0, 0) == 0xE220A839
    ensures VExpected(0xADBA, 0xADBA) == 0x66D14652
  {
    FirstMix();
    SecondMix();
    ThirdMix();
  }

  lemma FirstMix()
    ensures Mix(0x9E3779B97F4A7C15) == 0xE220A8397B1DCDAF
  {
  }

  lemma ThirdMix()
    ensures High(Mix(0x0FC8_4585_5142_79ED)) == 0x66D14652
  {
  }

  lemma SecondMix()
    ensures Mix(0x3C6EF372FE94F82A) == 0x6E789E6AA1B965F4
  {
  }

  /** Before truncation the oracle separates any two indices, for every seed. */
  lemma PatternIsInjective(i: bv64, j: bv64, seed: bv64)
    requires Pattern64(i, seed) == Pattern64(j, seed)
    ensures i == j
  {
    var p, q := TimesGolden(Successor(i)), TimesGolden(Successor(j));
    MixIsInjective(Xor(seed, p), Xor(seed, q));
    XorIsInjective(seed, p, q);
    GoldenIsInjective(Successor(i), Successor(j));
    SuccessorIsInjective(i, j);
  }
}

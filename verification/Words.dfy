/** 32-bit words as natural numbers: exclusive or, population count and the lowest set
    bit, bit by bit from the low end. */
module Words {
  import opened Arithmetic

  const WORD: nat := 0x1_0000_0000

  type word = x: int | 0 <= x < 0x1_0000_0000

  function Xor(x: nat, y: nat): nat {
    if x == 0 && y == 0 then 0 else 2 * Xor(x / 2, y / 2) + (x % 2 + y % 2) % 2
  }

  function Popcount(x: nat): nat {
    if x == 0 then 0 else Popcount(x / 2) + x % 2
  }

  /** The index of the lowest set bit. */
  function LowestBit(x: nat): nat
    requires x > 0
  {
    if x % 2 == 1 then 0 else 1 + LowestBit(x / 2)
  }

  lemma {:induction false} XorSelf(x: nat)
    ensures Xor(x, x) == 0 && Xor(x, 0) == x
  {
    if x > 0 { XorSelf(x / 2); }
  }

  lemma XorHalves(x: nat, y: nat)
    ensures Xor(x, y) / 2 == Xor(x / 2, y / 2) && Xor(x, y) % 2 == (x % 2 + y % 2) % 2
  {
  }

  lemma {:induction false} XorCommutes(x: nat, y: nat)
    ensures Xor(x, y) == Xor(y, x)
  {
    if x != 0 || y != 0 { XorCommutes(x / 2, y / 2); }
  }

  lemma {:induction false} XorUndone(x: nat, m: nat)
    ensures Xor(x, Xor(x, m)) == m
    decreases x + m
  {
    if x != 0 || m != 0 {
      XorUndone(x / 2, m / 2);
      XorHalves(x, m);
      XorHalves(x, Xor(x, m));
      ParityUndone(x % 2, m % 2);
    }
  }

  lemma ParityUndone(a: nat, b: nat)
    ensures a < 2 && b < 2 ==> (a + (a + b) % 2) % 2 == b
  {
  }

  lemma XorIsZeroIff(x: nat, y: nat)
    ensures Xor(x, y) == 0 <==> x == y
  {
    XorSelf(x);
    XorUndone(x, y);
  }

  lemma {:induction false} XorFits(x: nat, y: nat, k: nat)
    requires x < Pow2(k) && y < Pow2(k)
    ensures Xor(x, y) < Pow2(k)
  {
    if k > 0 && (x != 0 || y != 0) { XorFits(x / 2, y / 2, k - 1); }
  }

  lemma XorIsWord(x: word, y: word)
    ensures Xor(x, y) < WORD
  {
    Pow2Is32();
    XorFits(x, y, 32);
  }

  lemma Pow2Is32()
    ensures Pow2(32) == WORD
  {
    assert Pow2(8) == 256;
    assert Pow2(16) == 256 * Pow2(8);
    assert Pow2(24) == 256 * Pow2(16);
    assert Pow2(32) == 256 * Pow2(24);
  }

  /** The kernel's trick: the ones of `x ^ (x - 1)` reach exactly up to the lowest set bit. */
  lemma {:induction false} PopcountFindsLowestBit(x: nat)
    requires x > 0
    ensures Popcount(Xor(x, x - 1)) == LowestBit(x) + 1
  {
    if x % 2 == 1 {
      assert (x - 1) / 2 == x / 2;
      XorSelf(x / 2);
    } else {
      assert (x - 1) / 2 == x / 2 - 1;
      PopcountFindsLowestBit(x / 2);
    }
  }

  lemma {:induction false} LowestBitFits(x: nat, k: nat)
    requires 0 < x < Pow2(k)
    ensures LowestBit(x) < k
  {
    if x % 2 == 0 { LowestBitFits(x / 2, k - 1); }
  }

  lemma {:induction false} LowestBitOfPower(k: nat)
    ensures LowestBit(Pow2(k)) == k
  {
    if k > 0 { LowestBitOfPower(k - 1); }
  }

  lemma Doubled(y: nat, p: nat)
    requires p > 0 && y % p == 0
    ensures (2 * y) % (2 * p) == 0 && (2 * y) / (2 * p) == y / p
  {
    var q := y / p;
    assert y == p * q;
    assert 2 * y == (2 * p) * q;
    MultipleMod(q, 2 * p);
  }

  /** What the index means: the bit is set and every lower one is clear. */
  lemma {:induction false} LowestBitIsLowest(x: nat)
    requires x > 0
    ensures x % Pow2(LowestBit(x)) == 0 && (x / Pow2(LowestBit(x))) % 2 == 1
  {
    if x % 2 == 0 {
      LowestBitIsLowest(x / 2);
      Doubled(x / 2, Pow2(LowestBit(x / 2)));
    }
  }
}

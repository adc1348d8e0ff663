/** Single-bit access to an unsigned 32-bit word, as written with `1 << k` in the source. */
module Bits32 {

  /** The shift amount `k` as a machine word. */
  function Index(k: nat): (b: bv32)
    requires k < 32
    ensures b < 32 && b as int == k
  {
    // One case per shift amount: the conversion is evaluated on each literal.
    assert k == 0 || k == 1 || k == 2 || k == 3 || k == 4 || k == 5 || k == 6 || k == 7
      || k == 8 || k == 9 || k == 10 || k == 11 || k == 12 || k == 13 || k == 14 || k == 15
      || k == 16 || k == 17 || k == 18 || k == 19 || k == 20 || k == 21 || k == 22 || k == 23
      || k == 24 || k == 25 || k == 26 || k == 27 || k == 28 || k == 29 || k == 30 || k == 31;
    k as bv32
  }

  predicate BitAt(word: bv32, j: bv32)
    requires j < 32
  {
    word & ((1 as bv32) << j) != 0
  }

  function WithBitAt(word: bv32, j: bv32): bv32
    requires j < 32
  {
    word | ((1 as bv32) << j)
  }

  /** `word & (1 << k)` is non-zero. */
  predicate TestBit(word: bv32, k: nat)
    requires k < 32
  {
    BitAt(word, Index(k))
  }

  /** `word |= 1 << k` */
  function SetBit(word: bv32, k: nat): bv32
    requires k < 32
  {
    WithBitAt(word, Index(k))
  }

  lemma ShiftedOnes(word: bv32, k: bv32, j: bv32)
    requires k < 32 && j < 32
    ensures ((word | ((1 as bv32) << k)) & ((1 as bv32) << j) != 0)
       <==> (j == k || word & ((1 as bv32) << j) != 0)
  {
  }

  lemma WithBitAtOnly(word: bv32, k: bv32, j: bv32)
    requires k < 32 && j < 32
    ensures BitAt(WithBitAt(word, k), j) <==> (j == k || BitAt(word, j))
  {
    ShiftedOnes(word, k, j);
  }

  /** Setting bit `k` sets bit `k` and no other, for all 32 positions including the sign bit. */
  lemma SetBitOnly(word: bv32, k: nat, j: nat)
    requires k < 32 && j < 32
    ensures TestBit(SetBit(word, k), j) <==> (j == k || TestBit(word, j))
  {
    hide Index, BitAt, WithBitAt;
    assert Index(j) as int == j && Index(k) as int == k;
    WithBitAtOnly(word, Index(k), Index(j));
  }

  lemma NoBits(k: nat)
    requires k < 32
    ensures !TestBit(0, k)
  {
    hide Index;
    assert !BitAt(0, Index(k));
  }

  /** Which bit is which: bit 0 is the unit, and bit `k + 1` is bit `k` of half the word. */
  lemma BitsByHalving(word: bv32, k: nat)
    requires k < 31
    ensures TestBit(word, 0) <==> word % 2 == 1
    ensures TestBit(word, k + 1) <==> TestBit(word / 2, k)
  {
    assert Index(0) == 0 && Index(k + 1) == Index(k) + 1;
    hide Index;
    UnitBit(word);
    ShiftedBit(word, Index(k));
  }

  lemma UnitBit(word: bv32)
    ensures BitAt(word, 0) <==> word % 2 == 1
  {
  }

  lemma ShiftedBit(word: bv32, j: bv32)
    requires j < 31
    ensures BitAt(word, j + 1) <==> BitAt(word / 2, j)
  {
  }
}

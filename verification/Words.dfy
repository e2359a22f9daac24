/** Machine words: wrapping 64-bit addition and single bits of a 32-bit word. */
module Words {
  const TWO64 := 0x1_0000_0000_0000_0000

  /** Addition of two `uint64_t` values. */
  function Add64(a: nat, b: nat): (r: nat)
    ensures a + b < TWO64 ==> r == a + b
    ensures a < TWO64 && b < TWO64 && TWO64 <= a + b ==> r < a && r < b
  {
    (a + b) % TWO64
  }

  /** `BIT(k)`: the word 1 shifted left k times; 0 once the bit has been shifted out. */
  function Bit(k: nat): bv32 {
    if k < 32 then (1 as bv32) << k else 0
  }

  /** `w & b` as a condition. */
  predicate Meets(w: bv32, b: bv32) {
    w & b != 0
  }

  /** `w | b` */
  function With(w: bv32, b: bv32): bv32 {
    w | b
  }

  /** `w & ~b` */
  function Minus(w: bv32, b: bv32): bv32 {
    w & !b
  }

  predicate HasBit(w: bv32, k: nat) {
    Meets(w, Bit(k))
  }

  predicate OneHot(b: bv32) {
    b != 0 && b & (b - 1) == 0
  }

  lemma BitValues()
    ensures Bit(0) == 0x1 && Bit(1) == 0x2 && Bit(2) == 0x4 && Bit(3) == 0x8
    ensures Bit(4) == 0x10 && Bit(5) == 0x20 && Bit(6) == 0x40 && Bit(7) == 0x80
    ensures Bit(8) == 0x100 && Bit(9) == 0x200 && Bit(10) == 0x400 && Bit(11) == 0x800
    ensures Bit(12) == 0x1000 && Bit(13) == 0x2000 && Bit(14) == 0x4000 && Bit(15) == 0x8000
    ensures Bit(16) == 0x1_0000 && Bit(17) == 0x2_0000 && Bit(18) == 0x4_0000 && Bit(19) == 0x8_0000
    ensures Bit(20) == 0x10_0000 && Bit(21) == 0x20_0000 && Bit(22) == 0x40_0000 && Bit(23) == 0x80_0000
    ensures Bit(24) == 0x100_0000 && Bit(25) == 0x200_0000 && Bit(26) == 0x400_0000 && Bit(27) == 0x800_0000
    ensures Bit(28) == 0x1000_0000 && Bit(29) == 0x2000_0000 && Bit(30) == 0x4000_0000 && Bit(31) == 0x8000_0000
    ensures Bit(32) == 0
  {
  }

  lemma BitOneHot(k: nat)
    requires k < 32
    ensures OneHot(Bit(k))
  {
    ShiftOneHot(k as bv6);
  }

  lemma ShiftOneHot(k: bv6)
    requires k < 32
    ensures OneHot((1 as bv32) << k)
  {
  }

  /** Different positions have different bits. */
  lemma BitDistinct(j: nat, k: nat)
    requires j < k < 32
    ensures Bit(j) != Bit(k)
  {
    ShiftDistinct(j as bv6, k as bv6);
  }

  lemma ShiftDistinct(j: bv6, k: bv6)
    requires j < 32 && k < 32 && j != k
    ensures (1 as bv32) << j != (1 as bv32) << k
  {
  }

  lemma BitEqual(j: nat, k: nat)
    requires j < 32 && k < 32
    ensures Bit(j) == Bit(k) <==> j == k
  {
    if j < k { BitDistinct(j, k); }
    if k < j { BitDistinct(k, j); }
  }

  lemma RawSet(w: bv32, b: bv32, c: bv32)
    requires b != 0 && b & (b - 1) == 0 && c != 0 && c & (c - 1) == 0
    ensures ((w | b) & c != 0) == (b == c || w & c != 0)
  {
  }

  lemma RawClear(w: bv32, b: bv32, c: bv32)
    requires b != 0 && b & (b - 1) == 0 && c != 0 && c & (c - 1) == 0
    ensures ((w & !b) & c != 0) == (b != c && w & c != 0)
  {
  }

  lemma OneHotSet(w: bv32, b: bv32, c: bv32)
    requires OneHot(b) && OneHot(c)
    ensures Meets(With(w, b), c) <==> b == c || Meets(w, c)
  {
    RawSet(w, b, c);
  }

  lemma OneHotClear(w: bv32, b: bv32, c: bv32)
    requires OneHot(b) && OneHot(c)
    ensures Meets(Minus(w, b), c) <==> b != c && Meets(w, c)
  {
    RawClear(w, b, c);
  }

  lemma SetOrClear(w: bv32, k: nat, j: nat, b: bv32, c: bv32)
    requires j < 32 && k < 32 && b == Bit(k) && c == Bit(j)
    ensures Meets(With(w, b), c) <==> j == k || Meets(w, c)
    ensures Meets(Minus(w, b), c) <==> j != k && Meets(w, c)
  {
    BitOneHot(j);
    BitOneHot(k);
    BitEqual(j, k);
    OneHotSet(w, b, c);
    OneHotClear(w, b, c);
  }

  /** Setting or clearing bit k of a word does just that and changes no other bit. */
  lemma SetAndClearBit(w: bv32, k: nat, j: nat)
    requires j < 32 && k < 32
    ensures HasBit(With(w, Bit(k)), j) <==> j == k || HasBit(w, j)
    ensures HasBit(Minus(w, Bit(k)), j) <==> j != k && HasBit(w, j)
  {
    if HasBit(w, j) {
      SetOrClear(w, k, j, Bit(k), Bit(j));
    } else {
      SetOrClear(w, k, j, Bit(k), Bit(j));
    }
  }

  lemma NoBitInZero(k: nat)
    ensures !HasBit(0, k)
  {
  }

  /** w is the 32-bit word whose set bits are the positions in bits. */
  ghost predicate WordIs(w: bv32, bits: set<nat>) {
    forall j | 0 <= j < 32 :: HasBit(w, j) <==> j in bits
  }

  lemma WordZero()
    ensures WordIs(0, {})
  {
    forall j | 0 <= j < 32
      ensures !HasBit(0, j)
    {
      NoBitInZero(j);
    }
  }

  lemma WordWith(w: bv32, bits: set<nat>, k: nat)
    requires WordIs(w, bits) && k < 32
    ensures WordIs(With(w, Bit(k)), bits + {k})
  {
    forall j | 0 <= j < 32
      ensures HasBit(With(w, Bit(k)), j) <==> j in bits + {k}
    {
      SetAndClearBit(w, k, j);
    }
  }

  /** A word without a set bit is zero. */
  lemma NonzeroHasBit(w: bv32)
    requires forall k | 0 <= k < 32 :: !HasBit(w, k)
    ensures w == 0
  {
    BitValues();
    assert !HasBit(w, 0) && !HasBit(w, 1) && !HasBit(w, 2) && !HasBit(w, 3);
    assert !HasBit(w, 4) && !HasBit(w, 5) && !HasBit(w, 6) && !HasBit(w, 7);
    assert !HasBit(w, 8) && !HasBit(w, 9) && !HasBit(w, 10) && !HasBit(w, 11);
    assert !HasBit(w, 12) && !HasBit(w, 13) && !HasBit(w, 14) && !HasBit(w, 15);
    assert !HasBit(w, 16) && !HasBit(w, 17) && !HasBit(w, 18) && !HasBit(w, 19);
    assert !HasBit(w, 20) && !HasBit(w, 21) && !HasBit(w, 22) && !HasBit(w, 23);
    assert !HasBit(w, 24) && !HasBit(w, 25) && !HasBit(w, 26) && !HasBit(w, 27);
    assert !HasBit(w, 28) && !HasBit(w, 29) && !HasBit(w, 30) && !HasBit(w, 31);
    NoMaskMeets(w);
  }

  lemma NoMaskMeets(w: bv32)
    ensures w & 0x1 == 0 && w & 0x2 == 0 && w & 0x4 == 0 && w & 0x8 == 0
         && w & 0x10 == 0 && w & 0x20 == 0 && w & 0x40 == 0 && w & 0x80 == 0
         && w & 0x100 == 0 && w & 0x200 == 0 && w & 0x400 == 0 && w & 0x800 == 0
         && w & 0x1000 == 0 && w & 0x2000 == 0 && w & 0x4000 == 0 && w & 0x8000 == 0
         && w & 0x1_0000 == 0 && w & 0x2_0000 == 0 && w & 0x4_0000 == 0 && w & 0x8_0000 == 0
         && w & 0x10_0000 == 0 && w & 0x20_0000 == 0 && w & 0x40_0000 == 0 && w & 0x80_0000 == 0
         && w & 0x100_0000 == 0 && w & 0x200_0000 == 0 && w & 0x400_0000 == 0 && w & 0x800_0000 == 0
         && w & 0x1000_0000 == 0 && w & 0x2000_0000 == 0 && w & 0x4000_0000 == 0 && w & 0x8000_0000 == 0
         ==> w == 0
  {
  }
}

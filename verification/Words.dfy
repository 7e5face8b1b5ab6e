/**
 Machine words as bit strings.

 The reflected CRCs of the library keep the coefficient of the highest power in bit 0 of the
 word and shift right; LowBits reads a word from that end. The others keep it in the top bit
 and shift left; HighBits reads a word, moved up against bit 63, from that end. Words of every
 width are handled as 64-bit ones.
 */
module Words {
  import opened Bits

  // ---------------------------------------------------------------- low end first

  /** Addition of words: the solver reasons about it by name, and looks inside only where asked. */
  function Plus(x: bv64, y: bv64): bv64 { x ^ y }

  predicate Odd(x: bv64) { x & 1 != 0 }

  function Half(x: bv64): bv64 { x >> 1 }

  function LowBits(x: bv64, n: nat): (s: seq<bool>)
    ensures |s| == n
    decreases n
  {
    if n == 0 then [] else [Odd(x)] + LowBits(Half(x), n - 1)
  }

  function Shr(x: bv64, n: nat): bv64
    decreases n
  {
    if n == 0 then x else Shr(Half(x), n - 1)
  }

  lemma HalfXor(x: bv64, y: bv64)
    ensures Half(Plus(x, y)) == Plus(Half(x), Half(y))
    ensures Odd(Plus(x, y)) == (Odd(x) != Odd(y))
  {
  }

  lemma LowXorStep(p: bv64, x: bv64, y: bv64, n: nat)
    requires n > 0 && Odd(p) == (Odd(x) != Odd(y))
    requires LowBits(Half(p), n - 1) == Xor(LowBits(Half(x), n - 1), LowBits(Half(y), n - 1))
    ensures LowBits(p, n) == Xor(LowBits(x, n), LowBits(y, n))
  {
    XorConcat([Odd(x)], LowBits(Half(x), n - 1), [Odd(y)], LowBits(Half(y), n - 1));
    assert Xor([Odd(x)], [Odd(y)]) == [Odd(p)];
  }

  lemma {:induction false} LowXor(x: bv64, y: bv64, n: nat)
    ensures LowBits(Plus(x, y), n) == Xor(LowBits(x, n), LowBits(y, n))
    decreases n
  {
    if n == 0 {
    } else {
      HalfXor(x, y);
      LowXor(Half(x), Half(y), n - 1);
      LowXorStep(Plus(x, y), x, y, n);
    }
  }

  lemma {:induction false} LowSplit(x: bv64, k: nat, n: nat)
    ensures LowBits(x, k + n) == LowBits(x, k) + LowBits(Shr(x, k), n)
    decreases k
  {
    if k == 0 {
    } else {
      LowSplit(Half(x), k - 1, n);
    }
  }

  lemma {:induction false} LowOfZero(n: nat)
    ensures LowBits(0, n) == Zeros(n) && Shr(0, n) == 0
    decreases n
  {
    if n == 0 {
    } else {
      assert Half(0) == 0 && !Odd(0);
      LowOfZero(n - 1);
      assert Zeros(n) == [false] + Zeros(n - 1);
    }
  }

  lemma {:induction false} ShrPlus(x: bv64, k: nat, n: nat)
    ensures Shr(x, k + n) == Shr(Shr(x, k), n)
    decreases k
  {
    if k == 0 {
    } else {
      ShrPlus(Half(x), k - 1, n);
    }
  }

  lemma Shr4(x: bv64)
    ensures Shr(x, 4) == Half(Half(Half(Half(x))))
  {
    assert Shr(x, 4) == Shr(Half(x), 3);
    assert Shr(Half(x), 3) == Shr(Half(Half(x)), 2);
    assert Shr(Half(Half(x)), 2) == Shr(Half(Half(Half(x))), 1);
  }

  lemma Half8(x: bv64)
    ensures Half(Half(Half(Half(Half(Half(Half(Half(x)))))))) == x >> 8
  {
  }

  lemma Shr8(x: bv64)
    ensures Shr(x, 8) == x >> 8
  {
    ShrPlus(x, 4, 4);
    Shr4(x);
    Shr4(Shr(x, 4));
    Half8(x);
  }

  /** Words that fit in n bits lose nothing but zeros when they are read to n places. */
  ghost predicate FitsLow(x: bv64, n: nat) {
    Shr(x, n) == 0
  }

  lemma LowShift1(x: bv64, n: nat)
    requires n > 0 && FitsLow(x, n)
    ensures LowBits(Half(x), n) == LowBits(x, n)[1..] + [false]
  {
    LowSplit(Half(x), n - 1, 1);
    LowOfZero(1);
    assert Zeros(1) == [false];
  }

  /** The low byte and the rest of a word that fits in n bits. */
  lemma LowByteSplit(x: bv64, n: nat)
    requires n >= 8 && FitsLow(x, n)
    ensures LowBits(x, n) == LowBits(x, 8) + LowBits(x >> 8, n - 8)
    ensures LowBits(x >> 8, n) == LowBits(x >> 8, n - 8) + Zeros(8)
    ensures FitsLow(x >> 8, n - 8)
  {
    hide LowBits, Shr;
    LowSplit(x, 8, n - 8);
    Shr8(x);
    ShrPlus(x, 8, n - 8);
    LowSplit(x >> 8, n - 8, 8);
    LowOfZero(8);
  }

  /** The first n bits read are all clear. */
  ghost predicate LowClear(x: bv64, n: nat)
    decreases n
  {
    n == 0 || (!Odd(x) && LowClear(Half(x), n - 1))
  }

  lemma {:induction false} LowClearBits(x: bv64, n: nat)
    requires LowClear(x, n)
    ensures LowBits(x, n) == Zeros(n)
    decreases n
  {
    if n == 0 {
    } else {
      LowClearBits(Half(x), n - 1);
      assert Zeros(n) == [false] + Zeros(n - 1);
    }
  }

  lemma LowNibble(x: bv64)
    ensures x & 0xF == 0 ==> !Odd(x) && !Odd(Half(x)) && !Odd(Half(Half(x))) && !Odd(Half(Half(Half(x))))
    ensures x & 0xFF == 0 ==> x & 0xF == 0 && Half(Half(Half(Half(x)))) & 0xF == 0
  {
  }

  lemma Low4Clear(x: bv64)
    requires x & 0xF == 0
    ensures LowClear(x, 4)
  {
    LowNibble(x);
    assert LowClear(Half(Half(Half(x))), 1);
    assert LowClear(Half(Half(x)), 2);
    assert LowClear(Half(x), 3);
  }

  lemma Low8OfClear(x: bv64)
    requires x & 0xFF == 0
    ensures LowBits(x, 8) == Zeros(8)
  {
    LowNibble(x);
    LowSplit(x, 4, 4);
    Shr4(x);
    Low4Clear(x);
    Low4Clear(Shr(x, 4));
    LowClearBits(x, 4);
    LowClearBits(Shr(x, 4), 4);
  }

  lemma HalfAndOdd(x: bv64, y: bv64)
    requires Half(x) == Half(y) && Odd(x) == Odd(y)
    ensures x == y
  {
  }

  /** Equal bits, equal words. */
  lemma {:induction false} LowInjective(x: bv64, y: bv64, n: nat)
    requires FitsLow(x, n) && FitsLow(y, n)
    requires LowBits(x, n) == LowBits(y, n)
    ensures x == y
    decreases n
  {
    if n == 0 {
    } else {
      assert LowBits(x, n)[0] == LowBits(y, n)[0];
      assert LowBits(Half(x), n - 1) == LowBits(x, n)[1..] == LowBits(y, n)[1..] == LowBits(Half(y), n - 1);
      LowInjective(Half(x), Half(y), n - 1);
      HalfAndOdd(x, y);
    }
  }

  /** Folding a word onto itself keeps the parity of the bits read. */
  lemma LowParityFold(x: bv64, k: nat)
    ensures Parity(LowBits(x, k + k)) == Parity(LowBits(Plus(x, Shr(x, k)), k))
  {
    LowSplit(x, k, k);
    LowXor(x, Shr(x, k), k);
    ParityConcat(LowBits(x, k), LowBits(Shr(x, k), k));
    ParityXor(LowBits(x, k), LowBits(Shr(x, k), k));
  }

  lemma LowParity8(x: bv64)
    ensures var y := Plus(x, Shr(x, 4)); var z := Plus(y, Half(Half(y)));
            Parity(LowBits(x, 8)) == (Odd(z) != Odd(Half(z)))
  {
    var y := Plus(x, Shr(x, 4));
    var z := Plus(y, Half(Half(y)));
    LowParityFold(x, 4);
    assert Shr(y, 2) == Half(Half(y)) by { assert Shr(Half(y), 1) == Half(Half(y)); }
    LowParityFold(y, 2);
    LowSplit(z, 1, 1);
    LowSingle(z);
    LowSingle(Half(z));
    assert Shr(z, 1) == Half(z);
    ParityConcat([Odd(z)], [Odd(Half(z))]);
    ParitySingle(Odd(z));
    ParitySingle(Odd(Half(z)));
  }

  lemma LowSingle(x: bv64)
    ensures LowBits(x, 1) == [Odd(x)]
  {
    assert LowBits(Half(x), 0) == [];
  }

  lemma LowLast(x: bv64, n: nat)
    requires n > 0
    ensures LowBits(x, n)[n - 1] == Odd(Shr(x, n - 1))
  {
    LowSplit(x, n - 1, 1);
    LowSingle(Shr(x, n - 1));
  }

  lemma Shr7(x: bv64)
    ensures Shr(x, 7) == x >> 7
  {
    ShrPlus(x, 4, 3);
    Shr4(x);
    var y := Shr(x, 4);
    assert Shr(y, 3) == Shr(Half(y), 2);
    assert Shr(Half(y), 2) == Shr(Half(Half(y)), 1);
    assert Shr(Half(Half(y)), 1) == Half(Half(Half(y)));
    Half7(x);
  }

  lemma Half7(x: bv64)
    ensures Half(Half(Half(Half(Half(Half(Half(x))))))) == x >> 7
  {
  }

  lemma ShrChain(x: bv64, y: bv64, z: bv64, k: nat, n: nat)
    requires Shr(x, k) == y && Shr(y, n) == z
    ensures Shr(x, k + n) == z
  {
    ShrPlus(x, k, n);
  }

  lemma Shr16Sum(x: bv64)
    ensures (x >> 8) >> 8 == x >> 16
  {
  }

  lemma Shr16(x: bv64)
    ensures Shr(x, 16) == x >> 16
  {
    hide Shr;
    Shr8(x);
    Shr8(x >> 8);
    ShrChain(x, x >> 8, (x >> 8) >> 8, 8, 8);
    Shr16Sum(x);
  }

  lemma Shr15Sum(x: bv64)
    ensures (x >> 8) >> 7 == x >> 15
  {
  }

  lemma Shr15(x: bv64)
    ensures Shr(x, 15) == x >> 15
  {
    hide Shr;
    Shr8(x);
    Shr7(x >> 8);
    ShrChain(x, x >> 8, (x >> 8) >> 7, 8, 7);
    Shr15Sum(x);
  }

  lemma Shr32Sum(x: bv64)
    ensures (x >> 16) >> 16 == x >> 32
  {
  }

  lemma Shr32(x: bv64)
    ensures Shr(x, 32) == x >> 32
  {
    hide Shr;
    Shr16(x);
    Shr16(x >> 16);
    ShrChain(x, x >> 16, (x >> 16) >> 16, 16, 16);
    Shr32Sum(x);
  }

  lemma Shr31Sum(x: bv64)
    ensures (x >> 16) >> 15 == x >> 31
  {
  }

  lemma Shr31(x: bv64)
    ensures Shr(x, 31) == x >> 31
  {
    hide Shr;
    Shr16(x);
    Shr15(x >> 16);
    ShrChain(x, x >> 16, (x >> 16) >> 15, 16, 15);
    Shr31Sum(x);
  }

  /** The parity of the first eight bits read. */
  predicate LowFold8(x: bv64) {
    var y := Plus(x, Half(Half(Half(Half(x)))));
    var z := Plus(y, Half(Half(y)));
    Odd(z) != Odd(Half(z))
  }

  lemma LowParity16(x: bv64)
    ensures Parity(LowBits(x, 16)) == LowFold8(Plus(x, x >> 8))
  {
    LowParityFold(x, 8);
    Shr8(x);
    LowParity8(Plus(x, x >> 8));
    Shr4(Plus(x, x >> 8));
  }

  // ---------------------------------------------------------------- high end first

  predicate Top(x: bv64) { x & 0x8000_0000_0000_0000 != 0 }

  function Double(x: bv64): bv64 { x << 1 }

  function HighBits(x: bv64, n: nat): (s: seq<bool>)
    ensures |s| == n
    decreases n
  {
    if n == 0 then [] else [Top(x)] + HighBits(Double(x), n - 1)
  }

  function Shl(x: bv64, n: nat): bv64
    decreases n
  {
    if n == 0 then x else Shl(Double(x), n - 1)
  }

  lemma DoubleXor(x: bv64, y: bv64)
    ensures Double(Plus(x, y)) == Plus(Double(x), Double(y))
    ensures Top(Plus(x, y)) == (Top(x) != Top(y))
  {
    assert (x ^ y) << 1 == (x << 1) ^ (y << 1);
    TopXor(x, y);
  }

  lemma TopXor(x: bv64, y: bv64)
    ensures Top(x ^ y) == (Top(x) != Top(y))
  {
  }

  lemma HighXorStep(p: bv64, x: bv64, y: bv64, n: nat)
    requires n > 0 && Top(p) == (Top(x) != Top(y))
    requires HighBits(Double(p), n - 1) == Xor(HighBits(Double(x), n - 1), HighBits(Double(y), n - 1))
    ensures HighBits(p, n) == Xor(HighBits(x, n), HighBits(y, n))
  {
    XorConcat([Top(x)], HighBits(Double(x), n - 1), [Top(y)], HighBits(Double(y), n - 1));
    assert Xor([Top(x)], [Top(y)]) == [Top(p)];
  }

  lemma {:induction false} HighXor(x: bv64, y: bv64, n: nat)
    ensures HighBits(Plus(x, y), n) == Xor(HighBits(x, n), HighBits(y, n))
    decreases n
  {
    if n == 0 {
    } else {
      DoubleXor(x, y);
      HighXor(Double(x), Double(y), n - 1);
      HighXorStep(Plus(x, y), x, y, n);
    }
  }

  lemma {:induction false} HighSplit(x: bv64, k: nat, n: nat)
    ensures HighBits(x, k + n) == HighBits(x, k) + HighBits(Shl(x, k), n)
    decreases k
  {
    if k == 0 {
    } else {
      HighSplit(Double(x), k - 1, n);
    }
  }

  lemma {:induction false} HighOfZero(n: nat)
    ensures HighBits(0, n) == Zeros(n) && Shl(0, n) == 0
    decreases n
  {
    if n == 0 {
    } else {
      assert Double(0) == 0 && !Top(0);
      HighOfZero(n - 1);
      assert Zeros(n) == [false] + Zeros(n - 1);
    }
  }

  lemma {:induction false} ShlPlus(x: bv64, k: nat, n: nat)
    ensures Shl(x, k + n) == Shl(Shl(x, k), n)
    decreases k
  {
    if k == 0 {
    } else {
      ShlPlus(Double(x), k - 1, n);
    }
  }

  lemma Shl4(x: bv64)
    ensures Shl(x, 4) == Double(Double(Double(Double(x))))
  {
    assert Shl(x, 4) == Shl(Double(x), 3);
    assert Shl(Double(x), 3) == Shl(Double(Double(x)), 2);
    assert Shl(Double(Double(x)), 2) == Shl(Double(Double(Double(x))), 1);
  }

  lemma Double8(x: bv64)
    ensures Double(Double(Double(Double(Double(Double(Double(Double(x)))))))) == x << 8
  {
  }

  lemma Shl8(x: bv64)
    ensures Shl(x, 8) == x << 8
  {
    ShlPlus(x, 4, 4);
    Shl4(x);
    Shl4(Shl(x, 4));
    Double8(x);
  }

  ghost predicate FitsHigh(x: bv64, n: nat) {
    Shl(x, n) == 0
  }

  lemma HighShift1(x: bv64, n: nat)
    requires n > 0 && FitsHigh(x, n)
    ensures HighBits(Double(x), n) == HighBits(x, n)[1..] + [false]
  {
    HighSplit(Double(x), n - 1, 1);
    HighOfZero(1);
    assert Zeros(1) == [false];
  }

  lemma HighByteSplit(x: bv64, n: nat)
    requires n >= 8 && FitsHigh(x, n)
    ensures HighBits(x, n) == HighBits(x, 8) + HighBits(x << 8, n - 8)
    ensures HighBits(x << 8, n) == HighBits(x << 8, n - 8) + Zeros(8)
    ensures FitsHigh(x << 8, n - 8)
  {
    hide HighBits, Shl;
    HighSplit(x, 8, n - 8);
    Shl8(x);
    ShlPlus(x, 8, n - 8);
    HighSplit(x << 8, n - 8, 8);
    HighOfZero(8);
  }

  /** The first n bits read are all clear. */
  ghost predicate HighClear(x: bv64, n: nat)
    decreases n
  {
    n == 0 || (!Top(x) && HighClear(Double(x), n - 1))
  }

  lemma {:induction false} HighClearBits(x: bv64, n: nat)
    requires HighClear(x, n)
    ensures HighBits(x, n) == Zeros(n)
    decreases n
  {
    if n == 0 {
    } else {
      HighClearBits(Double(x), n - 1);
      assert Zeros(n) == [false] + Zeros(n - 1);
    }
  }

  lemma HighNibble(x: bv64)
    ensures x & 0xF000_0000_0000_0000 == 0 ==>
              !Top(x) && !Top(Double(x)) && !Top(Double(Double(x))) && !Top(Double(Double(Double(x))))
    ensures x & 0xFF00_0000_0000_0000 == 0 ==>
              x & 0xF000_0000_0000_0000 == 0 && Double(Double(Double(Double(x)))) & 0xF000_0000_0000_0000 == 0
  {
  }

  lemma High4Clear(x: bv64)
    requires x & 0xF000_0000_0000_0000 == 0
    ensures HighClear(x, 4)
  {
    HighNibble(x);
    assert HighClear(Double(Double(Double(x))), 1);
    assert HighClear(Double(Double(x)), 2);
    assert HighClear(Double(x), 3);
  }

  lemma High8OfClear(x: bv64)
    requires x & 0xFF00_0000_0000_0000 == 0
    ensures HighBits(x, 8) == Zeros(8)
  {
    HighNibble(x);
    HighSplit(x, 4, 4);
    Shl4(x);
    High4Clear(x);
    High4Clear(Shl(x, 4));
    HighClearBits(x, 4);
    HighClearBits(Shl(x, 4), 4);
  }

  lemma DoubleAndTop(x: bv64, y: bv64)
    requires Double(x) == Double(y) && Top(x) == Top(y)
    ensures x == y
  {
  }

  lemma {:induction false} HighInjective(x: bv64, y: bv64, n: nat)
    requires FitsHigh(x, n) && FitsHigh(y, n)
    requires HighBits(x, n) == HighBits(y, n)
    ensures x == y
    decreases n
  {
    if n == 0 {
    } else {
      assert HighBits(x, n)[0] == HighBits(y, n)[0];
      assert HighBits(Double(x), n - 1) == HighBits(x, n)[1..] == HighBits(y, n)[1..] == HighBits(Double(y), n - 1);
      HighInjective(Double(x), Double(y), n - 1);
      DoubleAndTop(x, y);
    }
  }

  /** Folding a word onto itself keeps the parity of the bits read. */
  lemma HighParityFold(x: bv64, k: nat)
    ensures Parity(HighBits(x, k + k)) == Parity(HighBits(Plus(x, Shl(x, k)), k))
  {
    HighSplit(x, k, k);
    HighXor(x, Shl(x, k), k);
    ParityConcat(HighBits(x, k), HighBits(Shl(x, k), k));
    ParityXor(HighBits(x, k), HighBits(Shl(x, k), k));
  }

  lemma HighParity8(x: bv64)
    ensures var y := Plus(x, Shl(x, 4)); var z := Plus(y, Double(Double(y)));
            Parity(HighBits(x, 8)) == (Top(z) != Top(Double(z)))
  {
    var y := Plus(x, Shl(x, 4));
    var z := Plus(y, Double(Double(y)));
    HighParityFold(x, 4);
    assert Shl(y, 2) == Double(Double(y)) by { assert Shl(Double(y), 1) == Double(Double(y)); }
    HighParityFold(y, 2);
    HighSplit(z, 1, 1);
    HighSingle(z);
    HighSingle(Double(z));
    assert Shl(z, 1) == Double(z);
    ParityConcat([Top(z)], [Top(Double(z))]);
    ParitySingle(Top(z));
    ParitySingle(Top(Double(z)));
  }

  lemma HighSingle(x: bv64)
    ensures HighBits(x, 1) == [Top(x)]
  {
    assert HighBits(Double(x), 0) == [];
  }

  lemma HighLast(x: bv64, n: nat)
    requires n > 0
    ensures HighBits(x, n)[n - 1] == Top(Shl(x, n - 1))
  {
    HighSplit(x, n - 1, 1);
    HighSingle(Shl(x, n - 1));
  }

  lemma Shl7(x: bv64)
    ensures Shl(x, 7) == x << 7
  {
    ShlPlus(x, 4, 3);
    Shl4(x);
    var y := Shl(x, 4);
    assert Shl(y, 3) == Shl(Double(y), 2);
    assert Shl(Double(y), 2) == Shl(Double(Double(y)), 1);
    assert Shl(Double(Double(y)), 1) == Double(Double(Double(y)));
    Double7(x);
  }

  lemma Double7(x: bv64)
    ensures Double(Double(Double(Double(Double(Double(Double(x))))))) == x << 7
  {
  }

  lemma ShlChain(x: bv64, y: bv64, z: bv64, k: nat, n: nat)
    requires Shl(x, k) == y && Shl(y, n) == z
    ensures Shl(x, k + n) == z
  {
    ShlPlus(x, k, n);
  }

  lemma Shl16Sum(x: bv64)
    ensures (x << 8) << 8 == x << 16
  {
  }

  lemma Shl16(x: bv64)
    ensures Shl(x, 16) == x << 16
  {
    hide Shl;
    Shl8(x);
    Shl8(x << 8);
    ShlChain(x, x << 8, (x << 8) << 8, 8, 8);
    Shl16Sum(x);
  }

  lemma Shl15Sum(x: bv64)
    ensures (x << 8) << 7 == x << 15
  {
  }

  lemma Shl15(x: bv64)
    ensures Shl(x, 15) == x << 15
  {
    hide Shl;
    Shl8(x);
    Shl7(x << 8);
    ShlChain(x, x << 8, (x << 8) << 7, 8, 7);
    Shl15Sum(x);
  }

  lemma Shl32Sum(x: bv64)
    ensures (x << 16) << 16 == x << 32
  {
  }

  lemma Shl32(x: bv64)
    ensures Shl(x, 32) == x << 32
  {
    hide Shl;
    Shl16(x);
    Shl16(x << 16);
    ShlChain(x, x << 16, (x << 16) << 16, 16, 16);
    Shl32Sum(x);
  }

  lemma Shl48Sum(x: bv64)
    ensures (x << 32) << 16 == x << 48
  {
  }

  lemma Shl48(x: bv64)
    ensures Shl(x, 48) == x << 48
  {
    hide Shl;
    Shl32(x);
    Shl16(x << 32);
    ShlChain(x, x << 32, (x << 32) << 16, 32, 16);
    Shl48Sum(x);
  }

  lemma Shl63Sum(x: bv64)
    ensures (x << 48) << 15 == x << 63
  {
  }

  lemma Shl63(x: bv64)
    ensures Shl(x, 63) == x << 63
  {
    hide Shl;
    Shl48(x);
    Shl15(x << 48);
    ShlChain(x, x << 48, (x << 48) << 15, 48, 15);
    Shl63Sum(x);
  }

  /** The parity of the first eight bits read. */
  predicate HighFold8(x: bv64) {
    var y := Plus(x, Double(Double(Double(Double(x)))));
    var z := Plus(y, Double(Double(y)));
    Top(z) != Top(Double(z))
  }

  lemma HighParity16(x: bv64)
    ensures Parity(HighBits(x, 16)) == HighFold8(Plus(x, x << 8))
  {
    HighParityFold(x, 8);
    Shl8(x);
    HighParity8(Plus(x, x << 8));
    Shl4(Plus(x, x << 8));
  }

  lemma HighParity32(x: bv64)
    ensures Parity(HighBits(x, 32)) == Parity(HighBits(Plus(x, x << 16), 16))
  {
    HighParityFold(x, 16);
    Shl16(x);
  }

  lemma HighParity64(x: bv64)
    ensures Parity(HighBits(x, 64)) == Parity(HighBits(Plus(x, x << 32), 32))
  {
    HighParityFold(x, 32);
    Shl32(x);
  }
}

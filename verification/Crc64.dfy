/**
 Chat/libcrc/src/crc64.c and the table generator Chat/libcrc/precalc/crc64_table.c: the CRC of
 Annex B of ECMA-182, and its WE form with all-ones start and complement.
 */
module Crc64 {
  import opened Bits
  import opened Lfsr
  import opened Words
  import opened Messages
  import opened ByteSteps
  import opened CrcLaws

  const CRC_POLY_64: bv64 := 0x42F0_E1EB_A9EA_3693
  const CRC_START_64_ECMA: bv64 := 0x0000_0000_0000_0000
  const CRC_START_64_WE: bv64 := 0xFFFF_FFFF_FFFF_FFFF

  function High64(x: bv64): (s: seq<bool>)
    ensures |s| == 64
  {
    HighBits(x, 64)
  }

  lemma DoubleAway(x: bv64)
    ensures Double(x << 63) == 0
  {
  }

  lemma Fits64(x: bv64)
    ensures FitsHigh(x, 64)
  {
    hide Shl;
    Shl63(x);
    DoubleAway(x);
    ShlOne(x << 63);
    ShlChain(x, x << 63, 0, 63, 1);
  }

  lemma ShlOne(x: bv64)
    ensures Shl(x, 1) == Double(x)
  {
  }

  lemma High64Injective(x: bv64, y: bv64)
    ensures High64(x) == High64(y) <==> x == y
  {
    Fits64(x);
    Fits64(y);
    if High64(x) == High64(y) {
      HighInjective(x, y, 64);
    }
  }

  lemma High64Xor(x: bv64, y: bv64)
    ensures High64(x ^ y) == Xor(High64(x), High64(y))
  {
    HighXor(x, y, 64);
  }

  function BitPass(x: bv64): bv64 {
    if x & 0x8000_0000_0000_0000 != 0 then (x << 1) ^ CRC_POLY_64 else x << 1
  }

  lemma PassFacts(x: bv64)
    ensures BitPass(x) == if Top(x) then Plus(Double(x), CRC_POLY_64) else Double(x)
  {
  }

  lemma BitStep64(x: bv64)
    ensures High64(BitPass(x)) == Step(High64(CRC_POLY_64), High64(x), false)
  {
    hide HighBits;
    Fits64(x);
    PassFacts(x);
    HighBitStep(High64(CRC_POLY_64), CRC_POLY_64, x);
  }

  /** Entry i of the table is i, as the top byte of the register, clocked eight times. */
  ghost predicate TableOf(tab: seq<bv64>) {
    |tab| == 256 && forall i | 0 <= i < 256 :: EntryOf(i, tab[i])
  }

  ghost predicate EntryOf(i: int, entry: bv64)
    requires 0 <= i < 256
  {
    Clocked(TopByte(i as bv64), 8, entry)
  }

  function TopByte(i: bv64): bv64 { i << 56 }

  ghost predicate Clocked(i: bv64, j: nat, x: bv64) {
    High64(x) == Run(High64(CRC_POLY_64), High64(i), Zeros(j))
  }

  lemma ClockedStart(i: bv64)
    ensures Clocked(i, 0, i)
  {
  }

  lemma ClockedStep(i: bv64, j: nat, x: bv64)
    requires Clocked(i, j, x)
    ensures Clocked(i, j + 1, BitPass(x))
  {
    hide HighBits, BitPass;
    BitStep64(x);
    OneMoreZero(High64(CRC_POLY_64), High64(i), j);
  }

  /** The inner loop keeps crc and c apart; only their sum matters. */
  lemma InnerLoopStep(crc: bv64, c: bv64)
    ensures (if (crc ^ c) & 0x8000_0000_0000_0000 != 0 then ((crc << 1) ^ CRC_POLY_64) ^ (c << 1)
             else (crc << 1) ^ (c << 1))
         == BitPass(crc ^ c)
  {
    SumOfShifts(crc, c);
  }

  lemma SumOfShifts(crc: bv64, c: bv64)
    ensures (if (crc ^ c) & 0x8000_0000_0000_0000 != 0 then ((crc << 1) ^ CRC_POLY_64) ^ (c << 1)
             else (crc << 1) ^ (c << 1))
         == (if (crc ^ c) & 0x8000_0000_0000_0000 != 0 then ((crc ^ c) << 1) ^ CRC_POLY_64 else (crc ^ c) << 1)
  {
  }

  /** c is used up after n more shifts. */
  ghost predicate Drains(c: bv64, n: nat) {
    Shl(c, n) == 0
  }

  lemma TopByteDrains(i: bv64)
    ensures TopByte(i) << 8 == 0
  {
  }

  lemma DrainsStart(i: bv64)
    ensures Drains(TopByte(i), 8)
  {
    TopByteDrains(i);
    Shl8(TopByte(i));
  }

  lemma DrainsStep(c: bv64, n: nat)
    requires n > 0 && Drains(c, n)
    ensures Drains(c << 1, n - 1)
  {
  }

  lemma Drained(c: bv64)
    requires Drains(c, 0)
    ensures c == 0
  {
  }

  lemma SumWithZero(c: bv64)
    ensures 0 ^ c == c && c ^ 0 == c
  {
  }

  lemma IndexRange(x: bv64)
    ensures 0 <= (x & 0xFF) as int < 256
  {
  }

  lemma IndexRoundTrip(x: bv64)
    ensures (x as int) as bv64 == x
  {
  }

  lemma EntryFrom(i: nat, entry: bv64)
    requires i < 256 && Clocked(TopByte(i as bv64), 8, entry)
    ensures EntryOf(i, entry)
  {
  }

  lemma EntryAt(tab: seq<bv64>, index: bv64)
    requires TableOf(tab) && 0 <= index as int < 256
    ensures Clocked(TopByte(index), 8, tab[index as int])
  {
    hide Clocked, TopByte;
    IndexRoundTrip(index);
    assert EntryOf(index as int, tab[index as int]);
  }

  lemma IndexAtTop(crc: bv64, c: bv8)
    ensures TopByte(((crc >> 56) ^ (c as bv64)) & 0xFF) == Plus(crc, AtTop(c)) & 0xFF00_0000_0000_0000
  {
  }

  lemma ByteStep64(crc: bv64, c: bv8, entry: bv64)
    requires Clocked(TopByte(((crc >> 56) ^ (c as bv64)) & 0xFF), 8, entry)
    ensures High64((crc << 8) ^ entry) == Run(High64(CRC_POLY_64), High64(crc), ByteBits(false, c))
  {
    hide HighBits, Run, TopByte;
    Fits64(crc);
    ByteFacts(c, c);
    IndexAtTop(crc, c);
    HighByteStep(High64(CRC_POLY_64), crc, AtTop(c), TopByte(((crc >> 56) ^ (c as bv64)) & 0xFF), entry);
  }

  // ---------------------------------------------------------------- the plain algorithm

  /** One byte, a bit at a time and without a table. */
  function Absorb(crc: bv64, c: bv8): bv64 {
    Passes(Plus(crc, AtTop(c)), 8)
  }

  function Passes(x: bv64, n: nat): bv64 {
    if n == 0 then x else BitPass(Passes(x, n - 1))
  }

  function FoldOf(crc: bv64, msg: seq<bv8>): bv64 {
    if msg == [] then crc else Absorb(FoldOf(crc, msg[..|msg| - 1]), msg[|msg| - 1])
  }

  function Complement(x: bv64): bv64 {
    x ^ 0xFFFF_FFFF_FFFF_FFFF
  }

  lemma {:induction false} PassesAreClocked(x: bv64, n: nat)
    ensures Clocked(x, n, Passes(x, n))
  {
    hide Clocked, BitPass;
    if n == 0 {
      ClockedStart(x);
    } else {
      PassesAreClocked(x, n - 1);
      ClockedStep(x, n - 1, Passes(x, n - 1));
    }
  }

  lemma AbsorbBits(crc: bv64, c: bv8)
    ensures High64(Absorb(crc, c)) == Run(High64(CRC_POLY_64), High64(crc), ByteBits(false, c))
  {
    hide HighBits, Run, Passes, Plus, AtTop;
    PassesAreClocked(Plus(crc, AtTop(c)), 8);
    ByteFacts(c, c);
    HighFeed(High64(CRC_POLY_64), crc, AtTop(c));
  }

  /** The word computed without a table is the register of the general theory. */
  lemma {:induction false} FoldBits(crc: bv64, msg: seq<bv8>)
    ensures High64(FoldOf(crc, msg)) == Run(High64(CRC_POLY_64), High64(crc), MessageBits(false, msg))
  {
    hide High64, Absorb, ByteBits;
    if msg == [] {
    } else {
      var m, c := msg[..|msg| - 1], msg[|msg| - 1];
      FoldBits(crc, m);
      AbsorbBits(FoldOf(crc, m), c);
      OneMoreByte(false, High64(CRC_POLY_64), High64(crc), m, c);
      assert m + [c] == msg;
    }
  }

  lemma OneMoreAbsorbed(crc: bv64, msg: seq<bv8>, c: bv8)
    ensures FoldOf(crc, msg + [c]) == Absorb(FoldOf(crc, msg), c)
  {
    hide Absorb;
    assert (msg + [c])[..|msg|] == msg;
  }

  class Crc64Table {
    var tab: array<bv64>

    ghost predicate Valid()
      reads this, tab
    {
      TableOf(tab[..])
    }

    /** The generator runs before the library is built, so the table is complete from the start. */
    constructor ()
      ensures Valid() && fresh(tab)
    {
      tab := new bv64[256];
      new;
      InitCrc64Tab();
    }

    method InitCrc64Tab()
      requires tab.Length == 256
      modifies tab
      ensures Valid()
    {
      hide Clocked, EntryOf, TopByte;
      for i := 0 to 256
        invariant forall k | 0 <= k < i :: EntryOf(k, tab[k])
      {
        var entry := Entry(i as bv64);
        EntryFrom(i, entry);
        tab[i] := entry;
      }
    }

    static method Entry(i: bv64) returns (crc: bv64)
      ensures Clocked(TopByte(i), 8, crc)
    {
      hide Clocked, Drains, BitPass;
      var c := i << 56;
      crc := 0;
      DrainsStart(i);
      SumWithZero(c);
      ClockedStart(TopByte(i));
      for j := 0 to 8
        invariant Clocked(TopByte(i), j, crc ^ c)
        invariant Drains(c, 8 - j)
      {
        ClockedStep(TopByte(i), j, crc ^ c);
        InnerLoopStep(crc, c);
        DrainsStep(c, 8 - j);
        if (crc ^ c) & 0x8000_0000_0000_0000 != 0 {
          crc := (crc << 1) ^ CRC_POLY_64;
        } else {
          crc := crc << 1;
        }
        c := c << 1;
      }
      Drained(c);
      SumWithZero(crc);
    }

    method UpdateCrc64(crc: bv64, c: bv8) returns (r: bv64)
      requires Valid()
      ensures r == Absorb(crc, c)
    {
      hide High64, Run, Absorb, ByteBits, TopByte, EntryOf;
      var index := ((crc >> 56) ^ (c as bv64)) & 0x0000_0000_0000_00FF;
      IndexRange((crc >> 56) ^ (c as bv64));
      LookupStep(tab[..], crc, c, index);
      r := (crc << 8) ^ tab[index as int];
      AbsorbBits(crc, c);
      High64Injective(r, Absorb(crc, c));
    }

    /** The loop of both one-shot functions; a null input leaves the start value. */
    method Fold(start: bv64, input: array?<bv8>, numBytes: nat) returns (crc: bv64)
      requires Valid() && (input != null ==> numBytes <= input.Length)
      ensures crc == FoldOf(start, Bytes(input, numBytes))
    {
      hide TableOf, Absorb;
      crc := start;
      if input != null {
        for a := 0 to numBytes
          invariant crc == FoldOf(start, input[..a])
        {
          assert input[..a + 1] == input[..a] + [input[a]];
          OneMoreAbsorbed(start, input[..a], input[a]);
          crc := UpdateCrc64(crc, input[a]);
        }
      }
    }

    method Crc64Ecma(input: array?<bv8>, numBytes: nat) returns (crc: bv64)
      requires Valid() && (input != null ==> numBytes <= input.Length)
      ensures crc == FoldOf(CRC_START_64_ECMA, Bytes(input, numBytes))
      ensures ECMA.Valid() && High64(crc) == Crc(ECMA, Bytes(input, numBytes))
    {
      EcmaIsCrc(Bytes(input, numBytes));
      hide High64, FoldOf;
      crc := Fold(CRC_START_64_ECMA, input, numBytes);
    }

    method Crc64We(input: array?<bv8>, numBytes: nat) returns (r: bv64)
      requires Valid() && (input != null ==> numBytes <= input.Length)
      ensures r == Complement(FoldOf(CRC_START_64_WE, Bytes(input, numBytes)))
      ensures WE.Valid() && High64(r) == Crc(WE, Bytes(input, numBytes))
    {
      WeIsCrc(Bytes(input, numBytes));
      hide High64, FoldOf, Complement;
      var crc := Fold(CRC_START_64_WE, input, numBytes);
      r := Complement(crc);
    }
  }

  lemma LookupStep(tab: seq<bv64>, crc: bv64, c: bv8, index: bv64)
    requires TableOf(tab) && index == ((crc >> 56) ^ (c as bv64)) & 0xFF && 0 <= index as int < 256
    ensures High64((crc << 8) ^ tab[index as int]) == Run(High64(CRC_POLY_64), High64(crc), ByteBits(false, c))
  {
    hide High64, Run, EntryOf, ByteBits, Clocked, TopByte;
    EntryAt(tab, index);
    ByteStep64(crc, c, tab[index as int]);
  }

  lemma EcmaIsCrc(msg: seq<bv8>)
    ensures ECMA.Valid() && High64(FoldOf(CRC_START_64_ECMA, msg)) == Crc(ECMA, msg)
  {
    hide HighBits, Run, FoldOf;
    Crc64Valid();
    FoldBits(CRC_START_64_ECMA, msg);
    XorNothing(High64(FoldOf(CRC_START_64_ECMA, msg)));
  }

  lemma WeIsCrc(msg: seq<bv8>)
    ensures WE.Valid() && High64(Complement(FoldOf(CRC_START_64_WE, msg))) == Crc(WE, msg)
  {
    hide HighBits, Run, FoldOf;
    Crc64Valid();
    FoldBits(CRC_START_64_WE, msg);
    High64Xor(FoldOf(CRC_START_64_WE, msg), 0xFFFF_FFFF_FFFF_FFFF);
  }

  const ECMA: Variant := Variant(false, High64(CRC_POLY_64), High64(CRC_START_64_ECMA), Zeros(64))
  const WE: Variant := Variant(false, High64(CRC_POLY_64), High64(CRC_START_64_WE), High64(0xFFFF_FFFF_FFFF_FFFF))

  lemma Crc64Valid()
    ensures ECMA.Valid() && WE.Valid()
  {
    HighLast(CRC_POLY_64, 64);
    Shl63(CRC_POLY_64);
    assert Top(CRC_POLY_64 << 63);
  }
}

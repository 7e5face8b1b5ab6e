/**
 Chat/libcrc/src/crc32.c and the table generator Chat/libcrc/precalc/crc32_table.c: the CRC of
 section 8 of RFC 1952, which the chat packets carry.
 */
module Crc32 {
  import opened Bits
  import opened Lfsr
  import opened Words
  import opened Messages
  import opened ByteSteps
  import opened CrcLaws

  const CRC_POLY_32: bv32 := 0xEDB8_8320
  const CRC_START_32: bv32 := 0xFFFF_FFFF

  /** A 32-bit register or polynomial whose highest power sits in bit 0. */
  function Low32(x: bv32): (s: seq<bool>)
    ensures |s| == 32
  {
    LowBits(x as bv64, 32)
  }

  lemma WidenFacts(x: bv32)
    ensures (x as bv64) >> 32 == 0
    ensures (x >> 8) as bv64 == (x as bv64) >> 8
    ensures (x & 0xFF) as bv64 == (x as bv64) & 0xFF
  {
  }

  lemma WidenXor(x: bv32, y: bv32)
    ensures (x ^ y) as bv64 == Plus(x as bv64, y as bv64)
  {
  }

  lemma Fits32(x: bv32)
    ensures FitsLow(x as bv64, 32)
  {
    WidenFacts(x);
    Shr32(x as bv64);
  }

  /** The bits determine the word. */
  lemma Low32Injective(x: bv32, y: bv32)
    ensures Low32(x) == Low32(y) <==> x == y
  {
    Fits32(x);
    Fits32(y);
    if Low32(x) == Low32(y) {
      LowInjective(x as bv64, y as bv64, 32);
      Narrow32(x, y);
    }
  }

  lemma Narrow32(x: bv32, y: bv32)
    requires x as bv64 == y as bv64
    ensures x == y
  {
  }

  lemma Low32Xor(x: bv32, y: bv32)
    ensures Low32(x ^ y) == Xor(Low32(x), Low32(y))
  {
    WidenXor(x, y);
    LowXor(x as bv64, y as bv64, 32);
  }

  /** One pass of the bit loop. */
  function BitPass(poly: bv32, x: bv32): bv32 {
    if x & 1 != 0 then (x >> 1) ^ poly else x >> 1
  }

  lemma OddPass(poly: bv32, x: bv32)
    requires x & 1 != 0
    ensures Odd(x as bv64) && ((x >> 1) ^ poly) as bv64 == Plus(Half(x as bv64), poly as bv64)
  {
  }

  lemma EvenPass(x: bv32)
    requires x & 1 == 0
    ensures !Odd(x as bv64) && (x >> 1) as bv64 == Half(x as bv64)
  {
  }

  /** The same pass on the wide word. */
  lemma PassWidened(poly: bv32, x: bv32)
    ensures BitPass(poly, x) as bv64 == if Odd(x as bv64) then Plus(Half(x as bv64), poly as bv64) else Half(x as bv64)
  {
    hide Half, Plus, Odd;
    if x & 1 != 0 {
      OddPass(poly, x);
    } else {
      EvenPass(x);
    }
  }

  lemma BitStep32(poly: bv32, x: bv32)
    ensures Low32(BitPass(poly, x)) == Step(Low32(poly), Low32(x), false)
  {
    hide LowBits, Step, Half, Plus, Odd, BitPass;
    Fits32(x);
    PassWidened(poly, x);
    LowBitStep(Low32(poly), poly as bv64, x as bv64);
  }

  lemma ByteFits32(crc: bv32, c: bv8)
    ensures (c as bv64) >> 8 == 0
    ensures ((crc ^ (c as bv32)) & 0xFF) as bv64 == Plus(crc as bv64, c as bv64) & 0xFF
  {
  }

  lemma WidenStep(crc: bv32, entry: bv32)
    ensures ((crc >> 8) ^ entry) as bv64 == Plus((crc as bv64) >> 8, entry as bv64)
  {
  }

  lemma ByteStep32(poly: bv32, crc: bv32, c: bv8, entry: bv32)
    requires Clocked(poly, (crc ^ (c as bv32)) & 0xFF, 8, entry)
    ensures Low32((crc >> 8) ^ entry) == Run(Low32(poly), Low32(crc), ByteBits(true, c))
  {
    hide LowBits, Run;
    Fits32(crc);
    ByteFits32(crc, c);
    WidenStep(crc, entry);
    LowByteStep(Low32(poly), crc as bv64, c as bv64, Plus(crc as bv64, c as bv64) & 0xFF, entry as bv64);
  }

  /** Entry i of the table is i clocked eight times. */
  ghost predicate TableOf(poly: bv32, tab: seq<bv32>) {
    |tab| == 256 && forall i | 0 <= i < 256 :: EntryOf(poly, i, tab[i])
  }

  ghost predicate EntryOf(poly: bv32, i: int, entry: bv32)
    requires 0 <= i < 256
  {
    Clocked(poly, i as bv32, 8, entry)
  }

  /** x is i clocked j times. */
  ghost predicate Clocked(poly: bv32, i: bv32, j: nat, x: bv32) {
    Low32(x) == Run(Low32(poly), Low32(i), Zeros(j))
  }

  lemma ClockedStart(poly: bv32, i: bv32)
    ensures Clocked(poly, i, 0, i)
  {
  }

  lemma ClockedStep(poly: bv32, i: bv32, j: nat, x: bv32)
    requires Clocked(poly, i, j, x)
    ensures Clocked(poly, i, j + 1, BitPass(poly, x))
  {
    hide LowBits, BitPass;
    BitStep32(poly, x);
    OneMoreZero(Low32(poly), Low32(i), j);
  }

  lemma IndexRange(x: bv32)
    ensures 0 <= (x & 0x00FF) as int < 256
  {
  }

  lemma IndexRoundTrip(x: bv32)
    ensures (x as int) as bv32 == x
  {
  }

  lemma EntryFrom(poly: bv32, i: nat, entry: bv32)
    requires i < 256 && Clocked(poly, i as bv32, 8, entry)
    ensures EntryOf(poly, i, entry)
  {
  }

  lemma EntryAt(poly: bv32, tab: seq<bv32>, index: bv32)
    requires TableOf(poly, tab) && 0 <= index as int < 256
    ensures Clocked(poly, index, 8, tab[index as int])
  {
    hide Clocked;
    IndexRoundTrip(index);
    assert EntryOf(poly, index as int, tab[index as int]);
  }

  lemma LookupStep(poly: bv32, tab: seq<bv32>, crc: bv32, c: bv8, index: bv32)
    requires TableOf(poly, tab) && index == (crc ^ (c as bv32)) & 0x000000FF && 0 <= index as int < 256
    ensures Low32((crc >> 8) ^ tab[index as int]) == Run(Low32(poly), Low32(crc), ByteBits(true, c))
  {
    hide Low32, Run, EntryOf, Clocked, ByteBits;
    EntryAt(poly, tab, index);
    ByteStep32(poly, crc, c, tab[index as int]);
  }

  /** Entry number 0 to 255 of the generated table. */
  class Crc32Table {
    var tab: array<bv32>

    ghost predicate Valid()
      reads this, tab
    {
      TableOf(CRC_POLY_32, tab[..])
    }

    /** The generator runs before the library is built, so the table is complete from the start. */
    constructor ()
      ensures Valid() && fresh(tab)
    {
      tab := new bv32[256];
      new;
      InitCrc32Tab();
    }

    method InitCrc32Tab()
      requires tab.Length == 256
      modifies tab
      ensures Valid()
    {
      hide Clocked, EntryOf;
      for i := 0 to 256
        invariant forall k | 0 <= k < i :: EntryOf(CRC_POLY_32, k, tab[k])
      {
        var entry := Entry(i as bv32);
        EntryFrom(CRC_POLY_32, i, entry);
        tab[i] := entry;
      }
    }

    /** The inner loop, which starts at i itself. */
    static method Entry(i: bv32) returns (crc: bv32)
      ensures Clocked(CRC_POLY_32, i, 8, crc)
    {
      hide Clocked;
      crc := i;
      ClockedStart(CRC_POLY_32, i);
      for j := 0 to 8
        invariant Clocked(CRC_POLY_32, i, j, crc)
      {
        ClockedStep(CRC_POLY_32, i, j, crc);
        if crc & 0x0000_0001 != 0 {
          crc := (crc >> 1) ^ CRC_POLY_32;
        } else {
          crc := crc >> 1;
        }
      }
    }

    method UpdateCrc32(crc: bv32, c: bv8) returns (r: bv32)
      requires Valid()
      ensures r == Absorb(crc, c)
    {
      hide Low32, Run, EntryOf, Absorb, ByteBits;
      var index := (crc ^ (c as bv32)) & 0x0000_00FF;
      IndexRange(crc ^ (c as bv32));
      LookupStep(CRC_POLY_32, tab[..], crc, c, index);
      r := (crc >> 8) ^ tab[index as int];
      AbsorbBits(crc, c);
      Low32Injective(r, Absorb(crc, c));
    }

    /** crc_32: a null input gives the value of the empty message. */
    method Crc32(input: array?<bv8>, numBytes: nat) returns (r: bv32)
      requires Valid() && (input != null ==> numBytes <= input.Length)
      ensures r == Crc32Of(Bytes(input, numBytes))
    {
      hide Absorb;
      var crc := CRC_START_32;
      if input != null {
        for a := 0 to numBytes
          invariant crc == Fold(CRC_START_32, input[..a])
        {
          assert input[..a + 1][..a] == input[..a];
          crc := UpdateCrc32(crc, input[a]);
        }
      }
      r := crc ^ 0xFFFF_FFFF;
    }
  }

  // ---------------------------------------------------------------- the plain algorithm

  /** One byte, a bit at a time and without a table. */
  function Absorb(crc: bv32, c: bv8): bv32 {
    Passes(crc ^ (c as bv32), 8)
  }

  function Passes(x: bv32, n: nat): bv32 {
    if n == 0 then x else BitPass(CRC_POLY_32, Passes(x, n - 1))
  }

  function Fold(crc: bv32, msg: seq<bv8>): bv32 {
    if msg == [] then crc else Absorb(Fold(crc, msg[..|msg| - 1]), msg[|msg| - 1])
  }

  function Crc32Of(msg: seq<bv8>): bv32 {
    Fold(CRC_START_32, msg) ^ 0xFFFF_FFFF
  }

  lemma {:induction false} PassesAreClocked(x: bv32, n: nat)
    ensures Clocked(CRC_POLY_32, x, n, Passes(x, n))
  {
    hide Clocked, BitPass;
    if n == 0 {
      ClockedStart(CRC_POLY_32, x);
    } else {
      PassesAreClocked(x, n - 1);
      ClockedStep(CRC_POLY_32, x, n - 1, Passes(x, n - 1));
    }
  }

  lemma AbsorbBits(crc: bv32, c: bv8)
    ensures Low32(Absorb(crc, c)) == Run(Low32(CRC_POLY_32), Low32(crc), ByteBits(true, c))
  {
    hide LowBits, Run, Passes;
    PassesAreClocked(crc ^ (c as bv32), 8);
    ByteFacts(c, c);
    WidenByte(crc, c);
    LowFeed(Low32(CRC_POLY_32), crc as bv64, c as bv64);
  }

  lemma WidenByte(crc: bv32, c: bv8)
    ensures (crc ^ (c as bv32)) as bv64 == Plus(crc as bv64, c as bv64)
  {
  }

  lemma {:induction false} FoldBits(crc: bv32, msg: seq<bv8>)
    ensures Low32(Fold(crc, msg)) == Run(Low32(CRC_POLY_32), Low32(crc), MessageBits(true, msg))
  {
    hide LowBits, Absorb;
    if msg == [] {
    } else {
      var m, c := msg[..|msg| - 1], msg[|msg| - 1];
      FoldBits(crc, m);
      AbsorbBits(Fold(crc, m), c);
      OneMoreByte(true, Low32(CRC_POLY_32), Low32(crc), m, c);
      assert m + [c] == msg;
    }
  }

  const CRC_32: Variant := Variant(true, Low32(CRC_POLY_32), Low32(CRC_START_32), Low32(0xFFFF_FFFF))

  lemma Crc32Valid()
    ensures CRC_32.Valid()
  {
    LowLast(CRC_POLY_32 as bv64, 32);
    Shr31(CRC_POLY_32 as bv64);
  }

  /** The word computed without a table is the CRC of the general theory. */
  lemma Crc32Bits(msg: seq<bv8>)
    ensures CRC_32.Valid() && Low32(Crc32Of(msg)) == Crc(CRC_32, msg)
  {
    hide LowBits, Run, Fold;
    Crc32Valid();
    FoldBits(CRC_START_32, msg);
    Low32Xor(Fold(CRC_START_32, msg), 0xFFFF_FFFF);
  }
}

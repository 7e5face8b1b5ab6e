/** Chat/libcrc/src/crcccitt.c: XModem and the two CCITT forms, one shift-left CRC with three start values. */
module CrcCcitt {
  import opened Bits
  import opened Lfsr
  import opened Words
  import opened Messages
  import opened ByteSteps
  import opened CrcLaws

  const CRC_POLY_CCITT: bv16 := 0x1021
  const CRC_START_XMODEM: bv16 := 0x0000
  const CRC_START_CCITT_1D0F: bv16 := 0x1D0F
  const CRC_START_CCITT_FFFF: bv16 := 0xFFFF

  /** A 16-bit register moved up against bit 63. */
  function Up16(x: bv16): bv64 { (x as bv64) << 48 }

  /** A 16-bit register or polynomial whose highest power sits in bit 15. */
  function High16(x: bv16): (s: seq<bool>)
    ensures |s| == 16
  {
    HighBits(Up16(x), 16)
  }

  lemma UpXor(x: bv16, y: bv16)
    ensures Up16(x ^ y) == Plus(Up16(x), Up16(y))
  {
  }

  lemma UpClear(x: bv16)
    ensures Up16(x) << 16 == 0
  {
  }

  lemma UpNarrow(x: bv16, y: bv16)
    requires Up16(x) == Up16(y)
    ensures x == y
  {
  }

  lemma Fits16(x: bv16)
    ensures FitsHigh(Up16(x), 16)
  {
    UpClear(x);
    Shl16(Up16(x));
  }

  lemma High16Injective(x: bv16, y: bv16)
    ensures High16(x) == High16(y) <==> x == y
  {
    Fits16(x);
    Fits16(y);
    if High16(x) == High16(y) {
      HighInjective(Up16(x), Up16(y), 16);
      UpNarrow(x, y);
    }
  }

  lemma High16Xor(x: bv16, y: bv16)
    ensures High16(x ^ y) == Xor(High16(x), High16(y))
  {
    UpXor(x, y);
    HighXor(Up16(x), Up16(y), 16);
  }

  function BitPass(poly: bv16, x: bv16): bv16 {
    if x & 0x8000 != 0 then (x << 1) ^ poly else x << 1
  }

  lemma UpPassTop(poly: bv16, x: bv16)
    requires x & 0x8000 != 0
    ensures Top(Up16(x)) && Up16((x << 1) ^ poly) == Plus(Double(Up16(x)), Up16(poly))
  {
  }

  lemma UpPassClear(x: bv16)
    requires x & 0x8000 == 0
    ensures !Top(Up16(x)) && Up16(x << 1) == Double(Up16(x))
  {
  }

  lemma BitStep16(poly: bv16, x: bv16)
    ensures High16(BitPass(poly, x)) == Step(High16(poly), High16(x), false)
  {
    hide HighBits;
    Fits16(x);
    HighBitStep(High16(poly), Up16(poly), Up16(x));
    if x & 0x8000 != 0 {
      UpPassTop(poly, x);
    } else {
      UpPassClear(x);
    }
  }

  lemma UpByte(crc: bv16, c: bv8)
    ensures AtTop(c) << 8 == 0
    ensures Up16((crc ^ ((c as bv16) << 8)) & 0xFF00) == Plus(Up16(crc), AtTop(c)) & 0xFF00_0000_0000_0000
  {
  }

  lemma UpStep(crc: bv16, entry: bv16)
    ensures Up16((crc << 8) ^ entry) == Plus(Up16(crc) << 8, Up16(entry))
  {
  }

  lemma ByteStep16(poly: bv16, crc: bv16, c: bv8, entry: bv16)
    requires Clocked(poly, (crc ^ ((c as bv16) << 8)) & 0xFF00, 8, entry)
    ensures High16((crc << 8) ^ entry) == Run(High16(poly), High16(crc), ByteBits(false, c))
  {
    hide HighBits, Run;
    Fits16(crc);
    UpByte(crc, c);
    UpStep(crc, entry);
    HighByteStep(High16(poly), Up16(crc), AtTop(c), Plus(Up16(crc), AtTop(c)) & 0xFF00_0000_0000_0000, Up16(entry));
  }

  /** Entry i of the table is i, as the high byte of the register, clocked eight times. */
  ghost predicate TableOf(poly: bv16, tab: seq<bv16>) {
    |tab| == 256 && forall i | 0 <= i < 256 :: EntryOf(poly, i, tab[i])
  }

  ghost predicate EntryOf(poly: bv16, i: int, entry: bv16)
    requires 0 <= i < 256
  {
    Clocked(poly, HighByte(i as bv16), 8, entry)
  }

  function HighByte(i: bv16): bv16 { i << 8 }

  ghost predicate Clocked(poly: bv16, i: bv16, j: nat, x: bv16) {
    High16(x) == Run(High16(poly), High16(i), Zeros(j))
  }

  lemma ClockedStart(poly: bv16, i: bv16)
    ensures Clocked(poly, i, 0, i)
  {
  }

  lemma ClockedStep(poly: bv16, i: bv16, j: nat, x: bv16)
    requires Clocked(poly, i, j, x)
    ensures Clocked(poly, i, j + 1, BitPass(poly, x))
  {
    hide HighBits, BitPass;
    BitStep16(poly, x);
    OneMoreZero(High16(poly), High16(i), j);
  }

  /** The inner loop keeps crc and c apart; only their sum matters. */
  lemma InnerLoopStep(poly: bv16, crc: bv16, c: bv16)
    ensures (if (crc ^ c) & 0x8000 != 0 then ((crc << 1) ^ poly) ^ (c << 1) else (crc << 1) ^ (c << 1))
         == BitPass(poly, crc ^ c)
  {
    SumOfShifts(poly, crc, c);
  }

  lemma SumOfShifts(poly: bv16, crc: bv16, c: bv16)
    ensures (if (crc ^ c) & 0x8000 != 0 then ((crc << 1) ^ poly) ^ (c << 1) else (crc << 1) ^ (c << 1))
         == (if (crc ^ c) & 0x8000 != 0 then ((crc ^ c) << 1) ^ poly else (crc ^ c) << 1)
  {
  }

  /** c is used up after n more shifts. */
  ghost predicate Drains(c: bv16, n: nat) {
    Shl(Up16(c), n) == 0
  }

  lemma UpDouble(c: bv16)
    ensures Up16(c << 1) == Double(Up16(c))
    ensures Up16(c << 8) << 8 == 0
  {
  }

  lemma DrainsStart(i: bv16)
    ensures Drains(i << 8, 8)
  {
    UpDouble(i);
    Shl8(Up16(i << 8));
  }

  lemma DrainsStep(c: bv16, n: nat)
    requires n > 0 && Drains(c, n)
    ensures Drains(c << 1, n - 1)
  {
    UpDouble(c);
  }

  lemma Drained(c: bv16)
    requires Drains(c, 0)
    ensures c == 0
  {
    UpNarrow(c, 0);
  }

  lemma SumWithZero(c: bv16)
    ensures 0 ^ c == c && c ^ 0 == c
  {
  }

  lemma IndexRange(x: bv16)
    ensures 0 <= (x & 0x00FF) as int < 256
  {
  }

  lemma IndexRoundTrip(x: bv16)
    ensures (x as int) as bv16 == x
  {
  }

  lemma IndexAtTop(crc: bv16, c: bv8)
    ensures (((crc >> 8) ^ (c as bv16)) & 0x00FF) << 8 == (crc ^ ((c as bv16) << 8)) & 0xFF00
  {
  }

  lemma EntryFrom(poly: bv16, i: nat, entry: bv16)
    requires i < 256 && Clocked(poly, HighByte(i as bv16), 8, entry)
    ensures EntryOf(poly, i, entry)
  {
  }

  lemma EntryAt(poly: bv16, tab: seq<bv16>, index: bv16)
    requires TableOf(poly, tab) && 0 <= index as int < 256
    ensures Clocked(poly, HighByte(index), 8, tab[index as int])
  {
    hide Clocked, HighByte;
    IndexRoundTrip(index);
    assert EntryOf(poly, index as int, tab[index as int]);
  }

  lemma ClockedIndex(poly: bv16, crc: bv16, c: bv8, index: bv16, entry: bv16)
    requires index == ((crc >> 8) ^ (c as bv16)) & 0x00FF && Clocked(poly, HighByte(index), 8, entry)
    ensures Clocked(poly, (crc ^ ((c as bv16) << 8)) & 0xFF00, 8, entry)
  {
    hide Clocked;
    IndexAtTop(crc, c);
  }

  lemma LookupStep(poly: bv16, tab: seq<bv16>, crc: bv16, c: bv8, index: bv16)
    requires TableOf(poly, tab) && index == ((crc >> 8) ^ (c as bv16)) & 0x00FF && 0 <= index as int < 256
    ensures High16((crc << 8) ^ tab[index as int]) == Run(High16(poly), High16(crc), ByteBits(false, c))
  {
    hide High16, Run, EntryOf, HighByte, Clocked, ByteBits;
    EntryAt(poly, tab, index);
    ClockedIndex(poly, crc, c, index, tab[index as int]);
    ByteStep16(poly, crc, c, tab[index as int]);
  }

  // ---------------------------------------------------------------- the plain algorithm

  /** One byte, a bit at a time and without a table. */
  function Absorb(crc: bv16, c: bv8): bv16 {
    Passes(crc ^ ((c as bv16) << 8), 8)
  }

  function Passes(x: bv16, n: nat): bv16 {
    if n == 0 then x else BitPass(CRC_POLY_CCITT, Passes(x, n - 1))
  }

  function FoldOf(crc: bv16, msg: seq<bv8>): bv16 {
    if msg == [] then crc else Absorb(FoldOf(crc, msg[..|msg| - 1]), msg[|msg| - 1])
  }

  lemma {:induction false} PassesAreClocked(x: bv16, n: nat)
    ensures Clocked(CRC_POLY_CCITT, x, n, Passes(x, n))
  {
    hide Clocked, BitPass;
    if n == 0 {
      ClockedStart(CRC_POLY_CCITT, x);
    } else {
      PassesAreClocked(x, n - 1);
      ClockedStep(CRC_POLY_CCITT, x, n - 1, Passes(x, n - 1));
    }
  }

  lemma AbsorbBits(crc: bv16, c: bv8)
    ensures High16(Absorb(crc, c)) == Run(High16(CRC_POLY_CCITT), High16(crc), ByteBits(false, c))
  {
    hide HighBits, Run, Passes, Up16;
    PassesAreClocked(crc ^ ((c as bv16) << 8), 8);
    ByteFacts(c, c);
    UpSum(crc, c);
    HighFeed(High16(CRC_POLY_CCITT), Up16(crc), AtTop(c));
  }

  lemma UpSum(crc: bv16, c: bv8)
    ensures Up16(crc ^ ((c as bv16) << 8)) == Plus(Up16(crc), AtTop(c))
  {
  }

  /** The word computed without a table is the register of the general theory. */
  lemma {:induction false} FoldBits(crc: bv16, msg: seq<bv8>)
    ensures High16(FoldOf(crc, msg)) == Run(High16(CRC_POLY_CCITT), High16(crc), MessageBits(false, msg))
  {
    hide High16, Absorb, ByteBits;
    if msg == [] {
    } else {
      var m, c := msg[..|msg| - 1], msg[|msg| - 1];
      FoldBits(crc, m);
      AbsorbBits(FoldOf(crc, m), c);
      OneMoreByte(false, High16(CRC_POLY_CCITT), High16(crc), m, c);
      assert m + [c] == msg;
    }
  }

  lemma OneMoreAbsorbed(crc: bv16, msg: seq<bv8>, c: bv8)
    ensures FoldOf(crc, msg + [c]) == Absorb(FoldOf(crc, msg), c)
  {
    hide Absorb;
    assert (msg + [c])[..|msg|] == msg;
  }

  /** The static table of crcccitt.c and its flag. */
  class CcittTable {
    var tab: array<bv16>
    var init: bool

    ghost predicate Valid()
      reads this, tab
    {
      tab.Length == 256 && (init ==> TableOf(CRC_POLY_CCITT, tab[..]))
    }

    constructor ()
      ensures Valid() && !init && fresh(tab)
    {
      tab := new bv16[256];
      init := false;
    }

    method InitCrcCcittTab()
      requires Valid()
      modifies this`init, tab
      ensures Valid() && init
    {
      hide Clocked, EntryOf, HighByte;
      for i := 0 to 256
        invariant forall k | 0 <= k < i :: EntryOf(CRC_POLY_CCITT, k, tab[k])
      {
        var entry := Entry(i as bv16);
        EntryFrom(CRC_POLY_CCITT, i, entry);
        tab[i] := entry;
      }
      init := true;
    }

    /** The inner loop of the table builder. */
    static method Entry(i: bv16) returns (crc: bv16)
      ensures Clocked(CRC_POLY_CCITT, HighByte(i), 8, crc)
    {
      hide Clocked, Drains, BitPass;
      var c := i << 8;
      crc := 0;
      DrainsStart(i);
      SumWithZero(c);
      ClockedStart(CRC_POLY_CCITT, HighByte(i));
      for j := 0 to 8
        invariant Clocked(CRC_POLY_CCITT, HighByte(i), j, crc ^ c)
        invariant Drains(c, 8 - j)
      {
        ClockedStep(CRC_POLY_CCITT, HighByte(i), j, crc ^ c);
        InnerLoopStep(CRC_POLY_CCITT, crc, c);
        DrainsStep(c, 8 - j);
        if (crc ^ c) & 0x8000 != 0 {
          crc := (crc << 1) ^ CRC_POLY_CCITT;
        } else {
          crc := crc << 1;
        }
        c := c << 1;
      }
      Drained(c);
      SumWithZero(crc);
    }

    method UpdateCrcCcitt(crc: bv16, c: bv8) returns (r: bv16)
      requires Valid()
      modifies this`init, tab
      ensures Valid() && init
      ensures r == Absorb(crc, c)
      ensures High16(r) == Run(High16(CRC_POLY_CCITT), High16(crc), ByteBits(false, c))
    {
      hide High16, Run, Absorb, ByteBits;
      if !init {
        InitCrcCcittTab();
      }
      r := Lookup(crc, c);
      AbsorbBits(crc, c);
    }

    method Lookup(crc: bv16, c: bv8) returns (r: bv16)
      requires Valid() && init
      ensures r == Absorb(crc, c)
    {
      hide High16, Run, EntryOf, Absorb, ByteBits;
      var index := ((crc >> 8) ^ (c as bv16)) & 0x00FF;
      IndexRange((crc >> 8) ^ (c as bv16));
      LookupStep(CRC_POLY_CCITT, tab[..], crc, c, index);
      r := (crc << 8) ^ tab[index as int];
      AbsorbBits(crc, c);
      High16Injective(r, Absorb(crc, c));
    }

    method CrcCcittGeneric(input: array?<bv8>, numBytes: nat, startValue: bv16) returns (crc: bv16)
      requires Valid() && (input != null ==> numBytes <= input.Length)
      modifies this`init, tab
      ensures Valid() && init && Ccitt(startValue).Valid()
      ensures crc == FoldOf(startValue, Bytes(input, numBytes))
      ensures High16(crc) == Crc(Ccitt(startValue), Bytes(input, numBytes))
    {
      hide High16, Crc, Ccitt, FoldOf, TableOf;
      if !init {
        InitCrcCcittTab();
      }
      crc := Fold(input, numBytes, startValue);
      FoldIsCrc(startValue, Bytes(input, numBytes), crc);
    }

    /** Its loop. */
    method Fold(input: array?<bv8>, numBytes: nat, startValue: bv16) returns (crc: bv16)
      requires Valid() && init && (input != null ==> numBytes <= input.Length)
      ensures crc == FoldOf(startValue, Bytes(input, numBytes))
    {
      hide TableOf, Absorb;
      crc := startValue;
      if input != null {
        for a := 0 to numBytes
          invariant crc == FoldOf(startValue, input[..a])
        {
          assert input[..a + 1] == input[..a] + [input[a]];
          OneMoreAbsorbed(startValue, input[..a], input[a]);
          crc := Lookup(crc, input[a]);
        }
      }
    }

    method CrcXmodem(input: array?<bv8>, numBytes: nat) returns (crc: bv16)
      requires Valid() && (input != null ==> numBytes <= input.Length)
      modifies this`init, tab
      ensures Valid() && crc == FoldOf(CRC_START_XMODEM, Bytes(input, numBytes))
      ensures XMODEM.Valid() && High16(crc) == Crc(XMODEM, Bytes(input, numBytes))
    {
      crc := CrcCcittGeneric(input, numBytes, CRC_START_XMODEM);
    }

    method CrcCcitt1D0F(input: array?<bv8>, numBytes: nat) returns (crc: bv16)
      requires Valid() && (input != null ==> numBytes <= input.Length)
      modifies this`init, tab
      ensures Valid() && crc == FoldOf(CRC_START_CCITT_1D0F, Bytes(input, numBytes))
      ensures CCITT_1D0F.Valid() && High16(crc) == Crc(CCITT_1D0F, Bytes(input, numBytes))
    {
      crc := CrcCcittGeneric(input, numBytes, CRC_START_CCITT_1D0F);
    }

    method CrcCcittFFFF(input: array?<bv8>, numBytes: nat) returns (crc: bv16)
      requires Valid() && (input != null ==> numBytes <= input.Length)
      modifies this`init, tab
      ensures Valid() && crc == FoldOf(CRC_START_CCITT_FFFF, Bytes(input, numBytes))
      ensures CCITT_FFFF.Valid() && High16(crc) == Crc(CCITT_FFFF, Bytes(input, numBytes))
    {
      crc := CrcCcittGeneric(input, numBytes, CRC_START_CCITT_FFFF);
    }
  }

  function Ccitt(startValue: bv16): Variant {
    Variant(false, High16(CRC_POLY_CCITT), High16(startValue), Zeros(16))
  }

  lemma FoldIsCrc(startValue: bv16, msg: seq<bv8>, crc: bv16)
    requires crc == FoldOf(startValue, msg)
    ensures Ccitt(startValue).Valid() && High16(crc) == Crc(Ccitt(startValue), msg)
  {
    hide HighBits, Run, FoldOf;
    CcittValid(startValue);
    FoldBits(startValue, msg);
    XorNothing(High16(crc));
  }

  const XMODEM: Variant := Ccitt(CRC_START_XMODEM)
  const CCITT_1D0F: Variant := Ccitt(CRC_START_CCITT_1D0F)
  const CCITT_FFFF: Variant := Ccitt(CRC_START_CCITT_FFFF)

  lemma CcittValid(startValue: bv16)
    ensures Ccitt(startValue).Valid()
  {
    HighLast(Up16(CRC_POLY_CCITT), 16);
    Shl15(Up16(CRC_POLY_CCITT));
    assert Top(Up16(CRC_POLY_CCITT) << 15);
  }
}

/**
 The lazily built table and the byte loop that Chat/libcrc/src/crc16.c, crckrmit.c and crcdnp.c
 share word for word except for the polynomial.
 */
module ReflectedCrc16 {
  import opened Bits
  import opened Lfsr
  import opened Words
  import opened Messages
  import opened ByteSteps
  import opened CrcLaws

  /** A 16-bit register or polynomial whose highest power sits in bit 0. */
  function Low16(x: bv16): (s: seq<bool>)
    ensures |s| == 16
  {
    LowBits(x as bv64, 16)
  }

  lemma WidenFacts(x: bv16)
    ensures (x as bv64) >> 16 == 0
    ensures (x >> 8) as bv64 == (x as bv64) >> 8
    ensures (x & 0xFF) as bv64 == (x as bv64) & 0xFF
  {
  }

  lemma WidenXor(x: bv16, y: bv16)
    ensures (x ^ y) as bv64 == Plus(x as bv64, y as bv64)
  {
  }

  lemma WidenBit(x: bv16)
    ensures (x >> 1) as bv64 == Half(x as bv64)
    ensures (x & 1 != 0) == Odd(x as bv64)
  {
  }

  lemma Fits16(x: bv16)
    ensures FitsLow(x as bv64, 16)
  {
    WidenFacts(x);
    Shr16(x as bv64);
  }

  /** The bits determine the word. */
  lemma Low16Injective(x: bv16, y: bv16)
    ensures Low16(x) == Low16(y) <==> x == y
  {
    Fits16(x);
    Fits16(y);
    if Low16(x) == Low16(y) {
      LowInjective(x as bv64, y as bv64, 16);
      Narrow16(x, y);
    }
  }

  lemma Narrow16(x: bv16, y: bv16)
    requires x as bv64 == y as bv64
    ensures x == y
  {
  }

  lemma Low16Xor(x: bv16, y: bv16)
    ensures Low16(x ^ y) == Xor(Low16(x), Low16(y))
  {
    WidenXor(x, y);
    LowXor(x as bv64, y as bv64, 16);
  }

  /** One pass of the bit loop on crc and c together. */
  function BitPass(poly: bv16, x: bv16): bv16 {
    if x & 1 != 0 then (x >> 1) ^ poly else x >> 1
  }

  lemma OddPass(poly: bv16, x: bv16)
    requires x & 1 != 0
    ensures Odd(x as bv64) && ((x >> 1) ^ poly) as bv64 == Plus(Half(x as bv64), poly as bv64)
  {
  }

  lemma EvenPass(x: bv16)
    requires x & 1 == 0
    ensures !Odd(x as bv64) && (x >> 1) as bv64 == Half(x as bv64)
  {
  }

  /** The same pass on the wide word. */
  lemma PassWidened(poly: bv16, x: bv16)
    ensures BitPass(poly, x) as bv64 == if Odd(x as bv64) then Plus(Half(x as bv64), poly as bv64) else Half(x as bv64)
  {
    hide Half, Plus, Odd;
    if x & 1 != 0 {
      OddPass(poly, x);
    } else {
      EvenPass(x);
    }
  }

  lemma BitStep16(poly: bv16, x: bv16)
    ensures Low16(BitPass(poly, x)) == Step(Low16(poly), Low16(x), false)
  {
    hide LowBits, Step, Half, Plus, Odd, BitPass;
    Fits16(x);
    PassWidened(poly, x);
    LowBitStep(Low16(poly), poly as bv64, x as bv64);
  }

  lemma ByteFits16(crc: bv16, c: bv8)
    ensures (c as bv64) >> 8 == 0
    ensures ((crc ^ (c as bv16)) & 0xFF) as bv64 == Plus(crc as bv64, c as bv64) & 0xFF
  {
  }

  lemma WidenStep(crc: bv16, entry: bv16)
    ensures ((crc >> 8) ^ entry) as bv64 == Plus((crc as bv64) >> 8, entry as bv64)
  {
  }

  lemma ByteStep16(poly: bv16, crc: bv16, c: bv8, entry: bv16)
    requires Clocked(poly, (crc ^ (c as bv16)) & 0xFF, 8, entry)
    ensures Low16((crc >> 8) ^ entry) == Run(Low16(poly), Low16(crc), ByteBits(true, c))
  {
    hide LowBits, Run;
    Fits16(crc);
    ByteFits16(crc, c);
    WidenStep(crc, entry);
    LowByteStep(Low16(poly), crc as bv64, c as bv64, Plus(crc as bv64, c as bv64) & 0xFF, entry as bv64);
  }

  /** Entry i of the table is i clocked eight times. */
  ghost predicate TableOf(poly: bv16, tab: seq<bv16>) {
    |tab| == 256 && forall i | 0 <= i < 256 :: EntryOf(poly, i, tab[i])
  }

  ghost predicate EntryOf(poly: bv16, i: int, entry: bv16)
    requires 0 <= i < 256
  {
    Clocked(poly, i as bv16, 8, entry)
  }

  /** x is i clocked j times. */
  ghost predicate Clocked(poly: bv16, i: bv16, j: nat, x: bv16) {
    Low16(x) == Run(Low16(poly), Low16(i), Zeros(j))
  }

  lemma ClockedStart(poly: bv16, i: bv16)
    ensures Clocked(poly, i, 0, i)
  {
  }

  lemma ClockedStep(poly: bv16, i: bv16, j: nat, x: bv16)
    requires Clocked(poly, i, j, x)
    ensures Clocked(poly, i, j + 1, BitPass(poly, x))
  {
    hide LowBits, BitPass;
    BitStep16(poly, x);
    OneMoreZero(Low16(poly), Low16(i), j);
  }

  /** The inner loop keeps crc and c apart; only their sum matters. */
  lemma InnerLoopStep(poly: bv16, crc: bv16, c: bv16)
    ensures (if (crc ^ c) & 1 != 0 then ((crc >> 1) ^ poly) ^ (c >> 1) else (crc >> 1) ^ (c >> 1))
         == BitPass(poly, crc ^ c)
  {
    OddSum(poly, crc, c);
  }

  lemma OddSum(poly: bv16, crc: bv16, c: bv16)
    ensures (if (crc ^ c) & 1 != 0 then ((crc >> 1) ^ poly) ^ (c >> 1) else (crc >> 1) ^ (c >> 1))
         == (if (crc ^ c) & 1 != 0 then ((crc ^ c) >> 1) ^ poly else (crc ^ c) >> 1)
  {
  }

  lemma SmallIndex(i: int)
    requires 0 <= i < 256
    ensures (i as bv16) >> 8 == 0
  {
  }

  /** c is used up after n more shifts. */
  ghost predicate Drains(c: bv16, n: nat) {
    Shr(c as bv64, n) == 0
  }

  lemma DrainsStart(c: bv16)
    requires c >> 8 == 0
    ensures Drains(c, 8)
  {
    WidenFacts(c);
    Shr8(c as bv64);
  }

  lemma DrainsStep(c: bv16, n: nat)
    requires n > 0 && Drains(c, n)
    ensures Drains(c >> 1, n - 1)
  {
    WidenBit(c);
  }

  lemma Drained(c: bv16)
    requires Drains(c, 0)
    ensures c == 0
  {
    Narrow16(c, 0);
  }

  lemma SumWithZero(c: bv16)
    ensures 0 ^ c == c && c ^ 0 == c
  {
  }

  lemma IndexRange(x: bv16)
    ensures 0 <= (x & 0x00FF) as int < 256
  {
  }

  lemma IndexRoundTrip(x: bv16)
    ensures (x as int) as bv16 == x
  {
  }

  lemma EntryFrom(poly: bv16, i: nat, entry: bv16)
    requires i < 256 && Clocked(poly, i as bv16, 8, entry)
    ensures EntryOf(poly, i, entry)
  {
  }

  lemma EntryAt(poly: bv16, tab: seq<bv16>, index: bv16)
    requires TableOf(poly, tab) && 0 <= index as int < 256
    ensures Clocked(poly, index, 8, tab[index as int])
  {
    hide Clocked;
    IndexRoundTrip(index);
    assert EntryOf(poly, index as int, tab[index as int]);
  }

  lemma LookupStep(poly: bv16, tab: seq<bv16>, crc: bv16, c: bv8, index: bv16)
    requires TableOf(poly, tab) && index == (crc ^ (c as bv16)) & 0x00FF && 0 <= index as int < 256
    ensures Low16((crc >> 8) ^ tab[index as int]) == Run(Low16(poly), Low16(crc), ByteBits(true, c))
  {
    hide Low16, Run, EntryOf, Clocked, ByteBits;
    EntryAt(poly, tab, index);
    ByteStep16(poly, crc, c, tab[index as int]);
  }

  // ---------------------------------------------------------------- the plain algorithm

  /** One byte, a bit at a time and without a table. */
  function Absorb(poly: bv16, crc: bv16, c: bv8): bv16 {
    Passes(poly, crc ^ (c as bv16), 8)
  }

  function Passes(poly: bv16, x: bv16, n: nat): bv16 {
    if n == 0 then x else BitPass(poly, Passes(poly, x, n - 1))
  }

  function FoldOf(poly: bv16, crc: bv16, msg: seq<bv8>): bv16 {
    if msg == [] then crc else Absorb(poly, FoldOf(poly, crc, msg[..|msg| - 1]), msg[|msg| - 1])
  }

  lemma {:induction false} PassesAreClocked(poly: bv16, x: bv16, n: nat)
    ensures Clocked(poly, x, n, Passes(poly, x, n))
  {
    hide Clocked, BitPass;
    if n == 0 {
      ClockedStart(poly, x);
    } else {
      PassesAreClocked(poly, x, n - 1);
      ClockedStep(poly, x, n - 1, Passes(poly, x, n - 1));
    }
  }

  lemma AbsorbBits(poly: bv16, crc: bv16, c: bv8)
    ensures Low16(Absorb(poly, crc, c)) == Run(Low16(poly), Low16(crc), ByteBits(true, c))
  {
    hide LowBits, Run, Passes;
    PassesAreClocked(poly, crc ^ (c as bv16), 8);
    ByteFacts(c, c);
    WidenByte(crc, c);
    LowFeed(Low16(poly), crc as bv64, c as bv64);
  }

  lemma WidenByte(crc: bv16, c: bv8)
    ensures (crc ^ (c as bv16)) as bv64 == Plus(crc as bv64, c as bv64)
  {
  }

  /** The word computed without a table is the register of the general theory. */
  lemma {:induction false} FoldBits(poly: bv16, crc: bv16, msg: seq<bv8>)
    ensures Low16(FoldOf(poly, crc, msg)) == Run(Low16(poly), Low16(crc), MessageBits(true, msg))
  {
    hide Low16, Absorb, ByteBits;
    if msg == [] {
    } else {
      var m, c := msg[..|msg| - 1], msg[|msg| - 1];
      FoldBits(poly, crc, m);
      AbsorbBits(poly, FoldOf(poly, crc, m), c);
      OneMoreByte(true, Low16(poly), Low16(crc), m, c);
      assert m + [c] == msg;
    }
  }

  lemma OneMoreAbsorbed(poly: bv16, crc: bv16, msg: seq<bv8>, c: bv8)
    ensures FoldOf(poly, crc, msg + [c]) == Absorb(poly, FoldOf(poly, crc, msg), c)
  {
    hide Absorb;
    assert (msg + [c])[..|msg|] == msg;
  }

  /** A polynomial with its lowest power (bit 15 here) present. */
  lemma PolyValid16(poly: bv16)
    ensures Low16(poly)[15] == (poly & 0x8000 != 0)
  {
    LowLast(poly as bv64, 16);
    Shr15(poly as bv64);
    TopOf16(poly);
  }

  lemma TopOf16(poly: bv16)
    ensures Odd((poly as bv64) >> 15) == (poly & 0x8000 != 0)
  {
  }

  function SwapBytes(x: bv16): bv16 {
    ((x & 0xFF00) >> 8) | ((x & 0x00FF) << 8)
  }

  /** The last lines of crc_kermit, crc_dnp and crc_sick. */
  method ExchangeBytes(crc: bv16) returns (r: bv16)
    ensures r == SwapBytes(crc)
  {
    var lowByte := (crc & 0xFF00) >> 8;
    var highByte := (crc & 0x00FF) << 8;
    r := lowByte | highByte;
  }

  lemma SwapTwice(x: bv16)
    ensures SwapBytes(SwapBytes(x)) == x
  {
  }

  class LazyTable {
    const poly: bv16
    var tab: array<bv16>
    var init: bool

    ghost predicate Valid()
      reads this, tab
    {
      tab.Length == 256 && (init ==> TableOf(poly, tab[..]))
    }

    /** The program starts with the table unbuilt. */
    constructor (poly: bv16)
      ensures Valid() && this.poly == poly && !init && fresh(tab)
    {
      this.poly := poly;
      tab := new bv16[256];
      init := false;
    }

    method InitTab()
      requires Valid()
      modifies this`init, tab
      ensures Valid() && init
    {
      hide Clocked, EntryOf;
      for i := 0 to 256
        invariant forall k | 0 <= k < i :: EntryOf(poly, k, tab[k])
      {
        SmallIndex(i);
        var entry := Entry(poly, i as bv16);
        EntryFrom(poly, i, entry);
        tab[i] := entry;
      }
      init := true;
    }

    /** The inner loop of the table builder. */
    static method Entry(poly: bv16, i: bv16) returns (crc: bv16)
      requires i >> 8 == 0
      ensures Clocked(poly, i, 8, crc)
    {
      hide Clocked, Drains, BitPass;
      var c := i;
      crc := 0;
      DrainsStart(c);
      SumWithZero(c);
      ClockedStart(poly, i);
      for j := 0 to 8
        invariant Clocked(poly, i, j, crc ^ c)
        invariant Drains(c, 8 - j)
      {
        ClockedStep(poly, i, j, crc ^ c);
        InnerLoopStep(poly, crc, c);
        DrainsStep(c, 8 - j);
        if (crc ^ c) & 0x0001 != 0 {
          crc := (crc >> 1) ^ poly;
        } else {
          crc := crc >> 1;
        }
        c := c >> 1;
      }
      Drained(c);
      SumWithZero(crc);
    }

    /** update_crc_*: the table is built on first use, the result never depends on when. */
    method Update(crc: bv16, c: bv8) returns (r: bv16)
      requires Valid()
      modifies this`init, tab
      ensures Valid() && init
      ensures r == Absorb(poly, crc, c)
      ensures Low16(r) == Run(Low16(poly), Low16(crc), ByteBits(true, c))
    {
      hide Low16, Run, Absorb, ByteBits;
      if !init {
        InitTab();
      }
      r := Lookup(crc, c);
      AbsorbBits(poly, crc, c);
    }

    method Lookup(crc: bv16, c: bv8) returns (r: bv16)
      requires Valid() && init
      ensures r == Absorb(poly, crc, c)
    {
      hide Low16, Run, EntryOf, Absorb, ByteBits;
      var index := (crc ^ (c as bv16)) & 0x00FF;
      IndexRange(crc ^ (c as bv16));
      LookupStep(poly, tab[..], crc, c, index);
      r := (crc >> 8) ^ tab[index as int];
      AbsorbBits(poly, crc, c);
      Low16Injective(r, Absorb(poly, crc, c));
    }

    /** The loop of the one-shot functions; a null input leaves the start value. */
    method Fold(start: bv16, input: array?<bv8>, numBytes: nat) returns (crc: bv16)
      requires Valid() && (input != null ==> numBytes <= input.Length)
      modifies this`init, tab
      ensures Valid() && init
      ensures crc == FoldOf(poly, start, Bytes(input, numBytes))
      ensures Low16(crc) == Run(Low16(poly), Low16(start), MessageBits(true, Bytes(input, numBytes)))
    {
      FoldBits(poly, start, Bytes(input, numBytes));
      hide Low16, Run, MessageBits, TableOf, FoldOf;
      if !init {
        InitTab();
      }
      crc := Loop(start, input, numBytes);
    }

    method Loop(start: bv16, input: array?<bv8>, numBytes: nat) returns (crc: bv16)
      requires Valid() && init && (input != null ==> numBytes <= input.Length)
      ensures crc == FoldOf(poly, start, Bytes(input, numBytes))
    {
      hide TableOf, Absorb;
      crc := start;
      if input != null {
        for a := 0 to numBytes
          invariant crc == FoldOf(poly, start, input[..a])
        {
          assert input[..a + 1] == input[..a] + [input[a]];
          OneMoreAbsorbed(poly, start, input[..a], input[a]);
          crc := Lookup(crc, input[a]);
        }
      }
    }
  }
}

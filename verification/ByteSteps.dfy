/**
 Why a lookup table works: eight clock ticks of the register depend on the register only
 through one byte, and everything else is shifted along.
 */
module ByteSteps {
  import opened Bits
  import opened Lfsr
  import opened Words

  /** Eight ticks of a register whose first eight bits are split off as "index". */
  lemma TableStep(g: seq<bool>, index: seq<bool>, rest: seq<bool>)
    requires |g| == |index| == 8 + |rest|
    ensures Run(g, Xor(index, Zeros(8) + rest), Zeros(8)) == Xor(rest + Zeros(8), Run(g, index, Zeros(8)))
  {
    RunLinear(g, index, Zeros(8) + rest, Zeros(8), Zeros(8));
    assert Xor(Zeros(8), Zeros(8)) == Zeros(8);
    ShiftOnly(g, 8, rest);
    var a, b := Run(g, index, Zeros(8)), rest + Zeros(8);
    assert Xor(a, b) == Xor(b, a);
  }

  // ---------------------------------------------------------------- shift right

  lemma LowParts(y: bv64)
    ensures Plus(y & 0xFF, y & 0xFFFF_FFFF_FFFF_FF00) == y
    ensures (y & 0xFFFF_FFFF_FFFF_FF00) & 0xFF == 0 && (y & 0xFFFF_FFFF_FFFF_FF00) >> 8 == y >> 8
  {
  }

  lemma LowShiftOfXor(x: bv64, y: bv64)
    ensures (x ^ y) >> 8 == (x >> 8) ^ (y >> 8)
  {
  }

  lemma LowShiftOfSum(crc: bv64, c: bv64)
    requires c >> 8 == 0
    ensures Plus(crc, c) >> 8 == crc >> 8
  {
    LowShiftOfXor(crc, c);
    assert (crc >> 8) ^ 0 == crc >> 8;
  }

  lemma LowRemainder(crc: bv64, c: bv64, index: bv64) returns (rest: bv64)
    requires c >> 8 == 0 && index == Plus(crc, c) & 0xFF
    ensures Plus(crc, c) == Plus(index, rest) && rest & 0xFF == 0 && rest >> 8 == crc >> 8
  {
    rest := Plus(crc, c) & 0xFFFF_FFFF_FFFF_FF00;
    LowParts(Plus(crc, c));
    LowShiftOfSum(crc, c);
  }

  lemma LowFeed(g: seq<bool>, crc: bv64, c: bv64)
    requires |g| >= 8 && c >> 8 == 0
    ensures Run(g, LowBits(crc, |g|), LowBits(c, 8)) == Run(g, LowBits(Plus(crc, c), |g|), Zeros(8))
  {
    LowPadded(c, |g|);
    FeedAhead(g, LowBits(crc, |g|), LowBits(c, 8));
    LowXor(crc, c, |g|);
  }

  lemma LowClock(g: seq<bool>, index: bv64, rest: bv64, shifted: bv64, entry: bv64)
    requires |g| >= 8
    requires LowBits(rest, |g|) == Zeros(8) + LowBits(shifted, |g| - 8)
    requires LowBits(shifted, |g|) == LowBits(shifted, |g| - 8) + Zeros(8)
    requires LowBits(entry, |g|) == Run(g, LowBits(index, |g|), Zeros(8))
    ensures LowBits(Plus(shifted, entry), |g|) == Run(g, LowBits(Plus(index, rest), |g|), Zeros(8))
  {
    LowXor(index, rest, |g|);
    TableStep(g, LowBits(index, |g|), LowBits(shifted, |g| - 8));
    LowXor(shifted, entry, |g|);
  }

  /** One table lookup of a shift-right CRC is eight message bits, low bit first. */
  lemma LowByteStep(g: seq<bool>, crc: bv64, c: bv64, index: bv64, entry: bv64)
    requires |g| >= 8 && FitsLow(crc, |g|) && c >> 8 == 0
    requires index == Plus(crc, c) & 0xFF
    requires LowBits(entry, |g|) == Run(g, LowBits(index, |g|), Zeros(8))
    ensures LowBits(Plus(crc >> 8, entry), |g|) == Run(g, LowBits(crc, |g|), LowBits(c, 8))
  {
    var rest := LowRemainder(crc, c, index);
    LowFeed(g, crc, c);
    LowHighPart(rest, crc, |g|);
    LowByteSplit(crc, |g|);
    LowClock(g, index, rest, crc >> 8, entry);
  }

  lemma LowPadded(c: bv64, w: nat)
    requires c >> 8 == 0 && w >= 8
    ensures LowBits(c, w) == LowBits(c, 8) + Zeros(w - 8)
  {
    LowSplit(c, 8, w - 8);
    Shr8(c);
    LowOfZero(w - 8);
  }

  lemma LowHighPart(high: bv64, crc: bv64, w: nat)
    requires w >= 8 && high & 0xFF == 0 && high >> 8 == crc >> 8
    ensures LowBits(high, w) == Zeros(8) + LowBits(crc >> 8, w - 8)
  {
    LowSplit(high, 8, w - 8);
    Shr8(high);
    Low8OfClear(high);
  }

  /** One pass of the inner loop that builds a shift-right table. */
  lemma LowBitStep(g: seq<bool>, poly: bv64, x: bv64)
    requires |g| > 0 && FitsLow(x, |g|) && LowBits(poly, |g|) == g
    ensures LowBits(if Odd(x) then Plus(Half(x), poly) else Half(x), |g|) == Step(g, LowBits(x, |g|), false)
  {
    LowShift1(x, |g|);
    LowXor(Half(x), poly, |g|);
  }

  // ---------------------------------------------------------------- shift left

  lemma HighParts(y: bv64)
    ensures Plus(y & 0xFF00_0000_0000_0000, y & 0x00FF_FFFF_FFFF_FFFF) == y
    ensures (y & 0x00FF_FFFF_FFFF_FFFF) & 0xFF00_0000_0000_0000 == 0 && (y & 0x00FF_FFFF_FFFF_FFFF) << 8 == y << 8
  {
  }

  lemma HighShiftOfXor(x: bv64, y: bv64)
    ensures (x ^ y) << 8 == (x << 8) ^ (y << 8)
  {
  }

  lemma HighShiftOfSum(crc: bv64, c: bv64)
    requires c << 8 == 0
    ensures Plus(crc, c) << 8 == crc << 8
  {
    HighShiftOfXor(crc, c);
    assert (crc << 8) ^ 0 == crc << 8;
  }

  lemma HighRemainder(crc: bv64, c: bv64, index: bv64) returns (rest: bv64)
    requires c << 8 == 0 && index == Plus(crc, c) & 0xFF00_0000_0000_0000
    ensures Plus(crc, c) == Plus(index, rest) && rest & 0xFF00_0000_0000_0000 == 0 && rest << 8 == crc << 8
  {
    rest := Plus(crc, c) & 0x00FF_FFFF_FFFF_FFFF;
    HighParts(Plus(crc, c));
    HighShiftOfSum(crc, c);
  }

  lemma HighFeed(g: seq<bool>, crc: bv64, c: bv64)
    requires |g| >= 8 && c << 8 == 0
    ensures Run(g, HighBits(crc, |g|), HighBits(c, 8)) == Run(g, HighBits(Plus(crc, c), |g|), Zeros(8))
  {
    HighPadded(c, |g|);
    FeedAhead(g, HighBits(crc, |g|), HighBits(c, 8));
    HighXor(crc, c, |g|);
  }

  lemma HighClock(g: seq<bool>, index: bv64, rest: bv64, shifted: bv64, entry: bv64)
    requires |g| >= 8
    requires HighBits(rest, |g|) == Zeros(8) + HighBits(shifted, |g| - 8)
    requires HighBits(shifted, |g|) == HighBits(shifted, |g| - 8) + Zeros(8)
    requires HighBits(entry, |g|) == Run(g, HighBits(index, |g|), Zeros(8))
    ensures HighBits(Plus(shifted, entry), |g|) == Run(g, HighBits(Plus(index, rest), |g|), Zeros(8))
  {
    HighXor(index, rest, |g|);
    TableStep(g, HighBits(index, |g|), HighBits(shifted, |g| - 8));
    HighXor(shifted, entry, |g|);
  }

  /** One table lookup of a shift-left CRC is eight message bits, high bit first. */
  lemma HighByteStep(g: seq<bool>, crc: bv64, c: bv64, index: bv64, entry: bv64)
    requires |g| >= 8 && FitsHigh(crc, |g|) && c << 8 == 0
    requires index == Plus(crc, c) & 0xFF00_0000_0000_0000
    requires HighBits(entry, |g|) == Run(g, HighBits(index, |g|), Zeros(8))
    ensures HighBits(Plus(crc << 8, entry), |g|) == Run(g, HighBits(crc, |g|), HighBits(c, 8))
  {
    hide HighBits, Run, Plus;
    var rest := HighRemainder(crc, c, index);
    HighFeed(g, crc, c);
    HighLowPart(rest, crc, |g|);
    HighByteSplit(crc, |g|);
    HighClock(g, index, rest, crc << 8, entry);
  }

  lemma HighPadded(c: bv64, w: nat)
    requires c << 8 == 0 && w >= 8
    ensures HighBits(c, w) == HighBits(c, 8) + Zeros(w - 8)
  {
    HighSplit(c, 8, w - 8);
    Shl8(c);
    HighOfZero(w - 8);
  }

  lemma HighLowPart(low: bv64, crc: bv64, w: nat)
    requires w >= 8 && low & 0xFF00_0000_0000_0000 == 0 && low << 8 == crc << 8
    ensures HighBits(low, w) == Zeros(8) + HighBits(crc << 8, w - 8)
  {
    HighSplit(low, 8, w - 8);
    Shl8(low);
    High8OfClear(low);
  }

  /** One pass of the inner loop that builds a shift-left table. */
  lemma HighBitStep(g: seq<bool>, poly: bv64, x: bv64)
    requires |g| > 0 && FitsHigh(x, |g|) && HighBits(poly, |g|) == g
    ensures HighBits(if Top(x) then Plus(Double(x), poly) else Double(x), |g|) == Step(g, HighBits(x, |g|), false)
  {
    HighShift1(x, |g|);
    HighXor(Double(x), poly, |g|);
  }
}

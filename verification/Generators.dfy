/** Which polynomials the constants of the source files stand for, by their exponents. */
module Generators {
  import opened Words
  import ReflectedCrc16
  import Crc16
  import CrcKermit
  import CrcDnp
  import CrcCcitt
  import Crc32
  import Crc64
  import Crc8
  import CrcSick

  /** The polynomial with these exponents below its leading power width, highest power first. */
  function Polynomial(width: nat, exponents: set<nat>): (s: seq<bool>)
    ensures |s| == width && forall i | 0 <= i < width :: s[i] == (width - 1 - i in exponents)
  {
    seq(width, i requires 0 <= i < width => width - 1 - i in exponents)
  }

  lemma FourInOrder(s: seq<bool>, a: bool, b: bool, c: bool, d: bool, none: seq<bool>)
    requires s == [a] + ([b] + ([c] + ([d] + none))) && |none| == 0
    ensures s == [a, b, c, d]
  {
  }

  lemma LowMask0(x: bv64)
    ensures Odd(x) == (x & 1 != 0)
  {
  }

  lemma LowMask1(x: bv64)
    ensures Odd(Half(x)) == (x & 2 != 0)
  {
  }

  lemma LowMask2(x: bv64)
    ensures Odd(Half(Half(x))) == (x & 4 != 0)
  {
  }

  lemma LowMask3(x: bv64)
    ensures Odd(Half(Half(Half(x)))) == (x & 8 != 0)
  {
  }

  lemma LowShift4(x: bv64)
    ensures Half(Half(Half(Half(x)))) == x >> 4
  {
  }

  lemma LowOne(x: bv64, n: nat)
    ensures LowBits(x, n + 1) == [Odd(x)] + LowBits(Half(x), n)
  {
  }

  lemma LowFourBits(x: bv64)
    ensures LowBits(x, 4) == [Odd(x), Odd(Half(x)), Odd(Half(Half(x))), Odd(Half(Half(Half(x))))]
  {
    hide LowBits, Odd, Half;
    var y, z, w := Half(x), Half(Half(x)), Half(Half(Half(x)));
    LowOne(x, 3);
    LowOne(y, 2);
    LowOne(z, 1);
    LowOne(w, 0);
    FourInOrder(LowBits(x, 4), Odd(x), Odd(y), Odd(z), Odd(w), LowBits(Half(w), 0));
  }

  lemma LowFour(x: bv64)
    ensures LowBits(x, 4) == [x & 1 != 0, x & 2 != 0,
                              x & 4 != 0, x & 8 != 0]
  {
    hide LowBits, Odd, Half;
    LowFourBits(x);
    LowMask0(x);
    LowMask1(x);
    LowMask2(x);
    LowMask3(x);
  }

  lemma LowNibble(x: bv64)
    ensures (x >> 4) & 1 == 0 <==> x & 0x10 == 0
    ensures (x >> 4) & 2 == 0 <==> x & 0x20 == 0
    ensures (x >> 4) & 4 == 0 <==> x & 0x40 == 0
    ensures (x >> 4) & 8 == 0 <==> x & 0x80 == 0
  {
  }

  /** The eight lowest bits, lowest first. */
  lemma LowEight(x: bv64)
    ensures LowBits(x, 8) == [x & 0x01 != 0, x & 0x02 != 0, x & 0x04 != 0, x & 0x08 != 0,
                              x & 0x10 != 0, x & 0x20 != 0, x & 0x40 != 0, x & 0x80 != 0]
  {
    hide LowBits, Odd, Half, Shr;
    LowSplit(x, 4, 4);
    Shr4(x);
    LowShift4(x);
    LowFour(x);
    LowFour(x >> 4);
    LowNibble(x);
  }

  lemma HighMask0(x: bv64)
    ensures Top(x) == (x & 0x8000_0000_0000_0000 != 0)
  {
  }

  lemma HighMask1(x: bv64)
    ensures Top(Double(x)) == (x & 0x4000_0000_0000_0000 != 0)
  {
  }

  lemma HighMask2(x: bv64)
    ensures Top(Double(Double(x))) == (x & 0x2000_0000_0000_0000 != 0)
  {
  }

  lemma HighMask3(x: bv64)
    ensures Top(Double(Double(Double(x)))) == (x & 0x1000_0000_0000_0000 != 0)
  {
  }

  lemma HighShift4(x: bv64)
    ensures Double(Double(Double(Double(x)))) == x << 4
  {
  }

  lemma HighOne(x: bv64, n: nat)
    ensures HighBits(x, n + 1) == [Top(x)] + HighBits(Double(x), n)
  {
  }

  lemma HighFourBits(x: bv64)
    ensures HighBits(x, 4) == [Top(x), Top(Double(x)), Top(Double(Double(x))), Top(Double(Double(Double(x))))]
  {
    hide HighBits, Top, Double;
    var y, z, w := Double(x), Double(Double(x)), Double(Double(Double(x)));
    HighOne(x, 3);
    HighOne(y, 2);
    HighOne(z, 1);
    HighOne(w, 0);
    FourInOrder(HighBits(x, 4), Top(x), Top(y), Top(z), Top(w), HighBits(Double(w), 0));
  }

  lemma HighFour(x: bv64)
    ensures HighBits(x, 4) == [x & 0x8000_0000_0000_0000 != 0, x & 0x4000_0000_0000_0000 != 0,
                               x & 0x2000_0000_0000_0000 != 0, x & 0x1000_0000_0000_0000 != 0]
  {
    hide HighBits, Top, Double;
    HighFourBits(x);
    HighMask0(x);
    HighMask1(x);
    HighMask2(x);
    HighMask3(x);
  }

  lemma HighNibble(x: bv64)
    ensures (x << 4) & 0x8000_0000_0000_0000 == 0 <==> x & 0x0800_0000_0000_0000 == 0
    ensures (x << 4) & 0x4000_0000_0000_0000 == 0 <==> x & 0x0400_0000_0000_0000 == 0
    ensures (x << 4) & 0x2000_0000_0000_0000 == 0 <==> x & 0x0200_0000_0000_0000 == 0
    ensures (x << 4) & 0x1000_0000_0000_0000 == 0 <==> x & 0x0100_0000_0000_0000 == 0
  {
  }

  /** The eight highest bits, highest first. */
  lemma HighEight(x: bv64)
    ensures HighBits(x, 8) == [x & 0x8000_0000_0000_0000 != 0, x & 0x4000_0000_0000_0000 != 0,
                               x & 0x2000_0000_0000_0000 != 0, x & 0x1000_0000_0000_0000 != 0,
                               x & 0x0800_0000_0000_0000 != 0, x & 0x0400_0000_0000_0000 != 0,
                               x & 0x0200_0000_0000_0000 != 0, x & 0x0100_0000_0000_0000 != 0]
  {
    hide HighBits, Top, Double, Shl;
    HighSplit(x, 4, 4);
    Shl4(x);
    HighShift4(x);
    HighFour(x);
    HighFour(x << 4);
    HighNibble(x);
  }

  lemma Crc16Bytes()
    ensures LowBits(0x0000_0000_0000_A001, 8) == [true, false, false, false, false, false, false, false]
    ensures LowBits(0x0000_0000_0000_00A0, 8) == [false, false, false, false, false, true, false, true]
  {
    hide LowBits;
    LowEight(0x0000_0000_0000_A001);
    LowEight(0x0000_0000_0000_00A0);
  }

  /** CRC-16 and Modbus. */
  lemma Crc16Generator()
    ensures ReflectedCrc16.Low16(Crc16.CRC_POLY_16) == Polynomial(16, {0, 2, 15})
  {
    Crc16Bytes();
    Crc16Wide();
    hide LowBits;
    LowSplit(0x0000_0000_0000_A001, 8, 8);
    Shr8(0x0000_0000_0000_A001);
  }

  lemma Crc16Wide()
    ensures ReflectedCrc16.Low16(Crc16.CRC_POLY_16) == LowBits(0x0000_0000_0000_A001, 16)
    ensures (0x0000_0000_0000_A001 as bv64) >> 8 == 0x0000_0000_0000_00A0
  {
    hide LowBits;
  }

  lemma KermitBytes()
    ensures LowBits(0x0000_0000_0000_8408, 8) == [false, false, false, true, false, false, false, false]
    ensures LowBits(0x0000_0000_0000_0084, 8) == [false, false, true, false, false, false, false, true]
  {
    hide LowBits;
    LowEight(0x0000_0000_0000_8408);
    LowEight(0x0000_0000_0000_0084);
  }

  /** Kermit. */
  lemma KermitGenerator()
    ensures ReflectedCrc16.Low16(CrcKermit.CRC_POLY_KERMIT) == Polynomial(16, {0, 5, 12})
  {
    KermitBytes();
    KermitWide();
    hide LowBits;
    LowSplit(0x0000_0000_0000_8408, 8, 8);
    Shr8(0x0000_0000_0000_8408);
  }

  lemma KermitWide()
    ensures ReflectedCrc16.Low16(CrcKermit.CRC_POLY_KERMIT) == LowBits(0x0000_0000_0000_8408, 16)
    ensures (0x0000_0000_0000_8408 as bv64) >> 8 == 0x0000_0000_0000_0084
  {
    hide LowBits;
  }

  lemma DnpBytes()
    ensures LowBits(0x0000_0000_0000_A6BC, 8) == [false, false, true, true, true, true, false, true]
    ensures LowBits(0x0000_0000_0000_00A6, 8) == [false, true, true, false, false, true, false, true]
  {
    hide LowBits;
    LowEight(0x0000_0000_0000_A6BC);
    LowEight(0x0000_0000_0000_00A6);
  }

  /** DNP. */
  lemma DnpGenerator()
    ensures ReflectedCrc16.Low16(CrcDnp.CRC_POLY_DNP) == Polynomial(16, {0, 2, 5, 6, 8, 10, 11, 12, 13})
  {
    DnpBytes();
    DnpWide();
    hide LowBits;
    LowSplit(0x0000_0000_0000_A6BC, 8, 8);
    Shr8(0x0000_0000_0000_A6BC);
  }

  lemma DnpWide()
    ensures ReflectedCrc16.Low16(CrcDnp.CRC_POLY_DNP) == LowBits(0x0000_0000_0000_A6BC, 16)
    ensures (0x0000_0000_0000_A6BC as bv64) >> 8 == 0x0000_0000_0000_00A6
  {
    hide LowBits;
  }

  lemma CcittBytes()
    ensures HighBits(0x1021_0000_0000_0000, 8) == [false, false, false, true, false, false, false, false]
    ensures HighBits(0x2100_0000_0000_0000, 8) == [false, false, true, false, false, false, false, true]
  {
    hide HighBits;
    HighEight(0x1021_0000_0000_0000);
    HighEight(0x2100_0000_0000_0000);
  }

  /** The CCITT forms. */
  lemma CcittGenerator()
    ensures CrcCcitt.High16(CrcCcitt.CRC_POLY_CCITT) == Polynomial(16, {0, 5, 12})
  {
    CcittBytes();
    CcittWide();
    hide HighBits;
    HighSplit(0x1021_0000_0000_0000, 8, 8);
    Shl8(0x1021_0000_0000_0000);
  }

  lemma CcittWide()
    ensures CrcCcitt.High16(CrcCcitt.CRC_POLY_CCITT) == HighBits(0x1021_0000_0000_0000, 16)
    ensures (0x1021_0000_0000_0000 as bv64) << 8 == 0x2100_0000_0000_0000
  {
    hide HighBits;
  }

  lemma SickBytes()
    ensures HighBits(0x8005_0000_0000_0000, 8) == [true, false, false, false, false, false, false, false]
    ensures HighBits(0x0500_0000_0000_0000, 8) == [false, false, false, false, false, true, false, true]
  {
    hide HighBits;
    HighEight(0x8005_0000_0000_0000);
    HighEight(0x0500_0000_0000_0000);
  }

  /** SICK. */
  lemma SickGenerator()
    ensures CrcCcitt.High16(CrcSick.CRC_POLY_SICK) == Polynomial(16, {0, 2, 15})
  {
    SickBytes();
    SickWide();
    hide HighBits;
    HighSplit(0x8005_0000_0000_0000, 8, 8);
    Shl8(0x8005_0000_0000_0000);
  }

  lemma SickWide()
    ensures CrcCcitt.High16(CrcSick.CRC_POLY_SICK) == HighBits(0x8005_0000_0000_0000, 16)
    ensures (0x8005_0000_0000_0000 as bv64) << 8 == 0x0500_0000_0000_0000
  {
    hide HighBits;
  }

  /** CRC-8 of the SHT75 sensor. */
  lemma Crc8Generator()
    ensures Crc8.High8(Crc8.CRC_POLY_8) == Polynomial(8, {0, 4, 5})
  {
    hide HighBits;
    HighEight(0x3100_0000_0000_0000);
    Crc8Wide();
  }

  lemma Crc8Wide()
    ensures Crc8.High8(Crc8.CRC_POLY_8) == HighBits(0x3100_0000_0000_0000, 8)
  {
    hide HighBits;
  }

  lemma Crc32Bytes()
    ensures LowBits(0x0000_0000_EDB8_8320, 8) == [false, false, false, false, false, true, false, false]
    ensures LowBits(0x0000_0000_00ED_B883, 8) == [true, true, false, false, false, false, false, true]
    ensures LowBits(0x0000_0000_0000_EDB8, 8) == [false, false, false, true, true, true, false, true]
    ensures LowBits(0x0000_0000_0000_00ED, 8) == [true, false, true, true, false, true, true, true]
  {
    hide LowBits;
    LowEight(0x0000_0000_EDB8_8320);
    LowEight(0x0000_0000_00ED_B883);
    LowEight(0x0000_0000_0000_EDB8);
    LowEight(0x0000_0000_0000_00ED);
  }

  /** CRC-32, section 8 of RFC 1952. */
  lemma Crc32Generator()
    ensures Crc32.Low32(Crc32.CRC_POLY_32) == Polynomial(32, {0, 1, 2, 4, 5, 7, 8, 10, 11, 12, 16, 22, 23, 26})
  {
    Crc32Bytes();
    Crc32Wide();
    hide LowBits;
    LowSplit(0x0000_0000_EDB8_8320, 8, 24);
    Shr8(0x0000_0000_EDB8_8320);
    LowSplit(0x0000_0000_00ED_B883, 8, 16);
    Shr8(0x0000_0000_00ED_B883);
    LowSplit(0x0000_0000_0000_EDB8, 8, 8);
    Shr8(0x0000_0000_0000_EDB8);
  }

  lemma Crc32Wide()
    ensures Crc32.Low32(Crc32.CRC_POLY_32) == LowBits(0x0000_0000_EDB8_8320, 32)
    ensures (0x0000_0000_EDB8_8320 as bv64) >> 8 == 0x0000_0000_00ED_B883
    ensures (0x0000_0000_00ED_B883 as bv64) >> 8 == 0x0000_0000_0000_EDB8
    ensures (0x0000_0000_0000_EDB8 as bv64) >> 8 == 0x0000_0000_0000_00ED
  {
    hide LowBits;
  }

  /** The exponents Annex B of ECMA-182 lists, below x^64. */
  const ECMA_182: set<nat> :=
    {0, 1, 4, 7, 9, 10, 12, 13, 17, 19, 21, 22, 23, 24, 27, 29, 31, 32, 33, 35, 37, 38, 39, 40,
     45, 46, 47, 52, 53, 54, 55, 57, 62}

  lemma ByteIs(s: seq<bool>, i: nat, b: seq<bool>)
    requires i + 8 <= |s| && |b| == 8
    requires s[i] == b[0] && s[i + 1] == b[1] && s[i + 2] == b[2] && s[i + 3] == b[3]
    requires s[i + 4] == b[4] && s[i + 5] == b[5] && s[i + 6] == b[6] && s[i + 7] == b[7]
    ensures s[i..i + 8] == b
  {
  }

  lemma Crc64BytesFrom0()
    ensures HighBits(0x42F0_E1EB_A9EA_3693, 8) == [false, true, false, false, false, false, true, false]
  {
    hide HighBits;
    HighEight(0x42F0_E1EB_A9EA_3693);
  }

  lemma Ecma182ExponentsFrom0()
    ensures 62 in ECMA_182 && 57 in ECMA_182
    ensures 63 !in ECMA_182 && 61 !in ECMA_182 && 60 !in ECMA_182 && 59 !in ECMA_182 && 58 !in ECMA_182
    ensures 56 !in ECMA_182
  {
  }

  lemma Ecma182BytesFrom0(p: seq<bool>)
    requires p == Polynomial(64, ECMA_182)
    ensures p[0..8] == [false, true, false, false, false, false, true, false]
  {
    hide Polynomial, ECMA_182;
    Ecma182ExponentsFrom0();
    ByteIs(p, 0, [false, true, false, false, false, false, true, false]);
  }

  lemma Crc64BytesFrom1()
    ensures HighBits(0xF0E1_EBA9_EA36_9300, 8) == [true, true, true, true, false, false, false, false]
  {
    hide HighBits;
    HighEight(0xF0E1_EBA9_EA36_9300);
  }

  lemma Ecma182ExponentsFrom1()
    ensures 55 in ECMA_182 && 54 in ECMA_182 && 53 in ECMA_182 && 52 in ECMA_182
    ensures 51 !in ECMA_182 && 50 !in ECMA_182 && 49 !in ECMA_182 && 48 !in ECMA_182
  {
  }

  lemma Ecma182BytesFrom1(p: seq<bool>)
    requires p == Polynomial(64, ECMA_182)
    ensures p[8..16] == [true, true, true, true, false, false, false, false]
  {
    hide Polynomial, ECMA_182;
    Ecma182ExponentsFrom1();
    ByteIs(p, 8, [true, true, true, true, false, false, false, false]);
  }

  lemma Crc64BytesFrom2()
    ensures HighBits(0xE1EB_A9EA_3693_0000, 8) == [true, true, true, false, false, false, false, true]
    ensures HighBits(0xEBA9_EA36_9300_0000, 8) == [true, true, true, false, true, false, true, true]
  {
    hide HighBits;
    HighEight(0xE1EB_A9EA_3693_0000);
    HighEight(0xEBA9_EA36_9300_0000);
  }

  lemma Ecma182ExponentsFrom2()
    ensures 47 in ECMA_182 && 46 in ECMA_182 && 45 in ECMA_182 && 40 in ECMA_182 && 39 in ECMA_182
    ensures 38 in ECMA_182 && 37 in ECMA_182 && 35 in ECMA_182 && 33 in ECMA_182 && 32 in ECMA_182
    ensures 44 !in ECMA_182 && 43 !in ECMA_182 && 42 !in ECMA_182 && 41 !in ECMA_182 && 36 !in ECMA_182
    ensures 34 !in ECMA_182
  {
  }

  lemma Ecma182BytesFrom2(p: seq<bool>)
    requires p == Polynomial(64, ECMA_182)
    ensures p[16..24] == [true, true, true, false, false, false, false, true]
    ensures p[24..32] == [true, true, true, false, true, false, true, true]
  {
    hide Polynomial, ECMA_182;
    Ecma182ExponentsFrom2();
    ByteIs(p, 16, [true, true, true, false, false, false, false, true]);
    ByteIs(p, 24, [true, true, true, false, true, false, true, true]);
  }

  lemma Crc64BytesFrom4()
    ensures HighBits(0xA9EA_3693_0000_0000, 8) == [true, false, true, false, true, false, false, true]
    ensures HighBits(0xEA36_9300_0000_0000, 8) == [true, true, true, false, true, false, true, false]
  {
    hide HighBits;
    HighEight(0xA9EA_3693_0000_0000);
    HighEight(0xEA36_9300_0000_0000);
  }

  lemma Ecma182ExponentsFrom4()
    ensures 31 in ECMA_182 && 29 in ECMA_182 && 27 in ECMA_182 && 24 in ECMA_182 && 23 in ECMA_182
    ensures 22 in ECMA_182 && 21 in ECMA_182 && 19 in ECMA_182 && 17 in ECMA_182
    ensures 30 !in ECMA_182 && 28 !in ECMA_182 && 26 !in ECMA_182 && 25 !in ECMA_182 && 20 !in ECMA_182
    ensures 18 !in ECMA_182 && 16 !in ECMA_182
  {
  }

  lemma Ecma182BytesFrom4(p: seq<bool>)
    requires p == Polynomial(64, ECMA_182)
    ensures p[32..40] == [true, false, true, false, true, false, false, true]
    ensures p[40..48] == [true, true, true, false, true, false, true, false]
  {
    hide Polynomial, ECMA_182;
    Ecma182ExponentsFrom4();
    ByteIs(p, 32, [true, false, true, false, true, false, false, true]);
    ByteIs(p, 40, [true, true, true, false, true, false, true, false]);
  }

  lemma Crc64BytesFrom6()
    ensures HighBits(0x3693_0000_0000_0000, 8) == [false, false, true, true, false, true, true, false]
    ensures HighBits(0x9300_0000_0000_0000, 8) == [true, false, false, true, false, false, true, true]
  {
    hide HighBits;
    HighEight(0x3693_0000_0000_0000);
    HighEight(0x9300_0000_0000_0000);
  }

  lemma Ecma182ExponentsFrom6()
    ensures 13 in ECMA_182 && 12 in ECMA_182 && 10 in ECMA_182 && 9 in ECMA_182 && 7 in ECMA_182
    ensures 4 in ECMA_182 && 1 in ECMA_182 && 0 in ECMA_182
    ensures 15 !in ECMA_182 && 14 !in ECMA_182 && 11 !in ECMA_182 && 8 !in ECMA_182 && 6 !in ECMA_182
    ensures 5 !in ECMA_182 && 3 !in ECMA_182 && 2 !in ECMA_182
  {
  }

  lemma Ecma182BytesFrom6(p: seq<bool>)
    requires p == Polynomial(64, ECMA_182)
    ensures p[48..56] == [false, false, true, true, false, true, true, false]
    ensures p[56..64] == [true, false, false, true, false, false, true, true]
  {
    hide Polynomial, ECMA_182;
    Ecma182ExponentsFrom6();
    ByteIs(p, 48, [false, false, true, true, false, true, true, false]);
    ByteIs(p, 56, [true, false, false, true, false, false, true, true]);
  }

  lemma Crc64Shifts()
    ensures Crc64.High64(Crc64.CRC_POLY_64) == HighBits(0x42F0_E1EB_A9EA_3693, 64)
    ensures (0x42F0_E1EB_A9EA_3693 as bv64) << 8 == 0xF0E1_EBA9_EA36_9300
    ensures (0xF0E1_EBA9_EA36_9300 as bv64) << 8 == 0xE1EB_A9EA_3693_0000
    ensures (0xE1EB_A9EA_3693_0000 as bv64) << 8 == 0xEBA9_EA36_9300_0000
    ensures (0xEBA9_EA36_9300_0000 as bv64) << 8 == 0xA9EA_3693_0000_0000
    ensures (0xA9EA_3693_0000_0000 as bv64) << 8 == 0xEA36_9300_0000_0000
    ensures (0xEA36_9300_0000_0000 as bv64) << 8 == 0x3693_0000_0000_0000
    ensures (0x3693_0000_0000_0000 as bv64) << 8 == 0x9300_0000_0000_0000
  {
    hide HighBits;
  }

  lemma EightPieces(s: seq<bool>)
    requires |s| == 64
    ensures s == s[0..8] + (s[8..16] + (s[16..24] + (s[24..32] + (s[32..40] + (s[40..48] + (s[48..56] + s[56..64]))))))
  {
    assert s[48..64] == s[48..56] + s[56..64];
    assert s[40..64] == s[40..48] + s[48..64];
    assert s[32..64] == s[32..40] + s[40..64];
    assert s[24..64] == s[24..32] + s[32..64];
    assert s[16..64] == s[16..24] + s[24..64];
    assert s[8..64] == s[8..16] + s[16..64];
    assert s == s[0..8] + s[8..64];
  }

  /** CRC-64, Annex B of ECMA-182. */
  lemma Crc64Generator()
    ensures Crc64.High64(Crc64.CRC_POLY_64) == Polynomial(64, ECMA_182)
  {
    var p := Polynomial(64, ECMA_182);
    Crc64BytesFrom0();
    Ecma182BytesFrom0(p);
    Crc64BytesFrom1();
    Ecma182BytesFrom1(p);
    Crc64BytesFrom2();
    Ecma182BytesFrom2(p);
    Crc64BytesFrom4();
    Ecma182BytesFrom4(p);
    Crc64BytesFrom6();
    Ecma182BytesFrom6(p);
    Crc64Shifts();
    EightPieces(p);
    hide HighBits, Polynomial, ECMA_182, Crc64.High64, Shl;
    HighSplit(0x42F0_E1EB_A9EA_3693, 8, 56);
    Shl8(0x42F0_E1EB_A9EA_3693);
    HighSplit(0xF0E1_EBA9_EA36_9300, 8, 48);
    Shl8(0xF0E1_EBA9_EA36_9300);
    HighSplit(0xE1EB_A9EA_3693_0000, 8, 40);
    Shl8(0xE1EB_A9EA_3693_0000);
    HighSplit(0xEBA9_EA36_9300_0000, 8, 32);
    Shl8(0xEBA9_EA36_9300_0000);
    HighSplit(0xA9EA_3693_0000_0000, 8, 24);
    Shl8(0xA9EA_3693_0000_0000);
    HighSplit(0xEA36_9300_0000_0000, 8, 16);
    Shl8(0xEA36_9300_0000_0000);
    HighSplit(0x3693_0000_0000_0000, 8, 8);
    Shl8(0x3693_0000_0000_0000);
  }
}

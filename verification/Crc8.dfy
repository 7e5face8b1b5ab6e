/** Chat/libcrc/src/crc8.c: the SHT75 CRC, over a table written out in full. */
module Crc8 {
  import opened Bits
  import opened Lfsr
  import opened Words
  import opened Messages
  import opened ByteSteps
  import opened CrcLaws

  const CRC_START_8: bv8 := 0x00

  /** The generator the table was computed from; the source does not name it. */
  const CRC_POLY_8: bv8 := 0x31

  // sht75_crc_table, in the sixteen rows the source lays it out in
  const ROW_0: seq<bv8> := [0, 49, 98, 83, 196, 245, 166, 151, 185, 136, 219, 234, 125, 76, 31, 46]
  const ROW_1: seq<bv8> := [67, 114, 33, 16, 135, 182, 229, 212, 250, 203, 152, 169, 62, 15, 92, 109]
  const ROW_2: seq<bv8> := [134, 183, 228, 213, 66, 115, 32, 17, 63, 14, 93, 108, 251, 202, 153, 168]
  const ROW_3: seq<bv8> := [197, 244, 167, 150, 1, 48, 99, 82, 124, 77, 30, 47, 184, 137, 218, 235]
  const ROW_4: seq<bv8> := [61, 12, 95, 110, 249, 200, 155, 170, 132, 181, 230, 215, 64, 113, 34, 19]
  const ROW_5: seq<bv8> := [126, 79, 28, 45, 186, 139, 216, 233, 199, 246, 165, 148, 3, 50, 97, 80]
  const ROW_6: seq<bv8> := [187, 138, 217, 232, 127, 78, 29, 44, 2, 51, 96, 81, 198, 247, 164, 149]
  const ROW_7: seq<bv8> := [248, 201, 154, 171, 60, 13, 94, 111, 65, 112, 35, 18, 133, 180, 231, 214]
  const ROW_8: seq<bv8> := [122, 75, 24, 41, 190, 143, 220, 237, 195, 242, 161, 144, 7, 54, 101, 84]
  const ROW_9: seq<bv8> := [57, 8, 91, 106, 253, 204, 159, 174, 128, 177, 226, 211, 68, 117, 38, 23]
  const ROW_A: seq<bv8> := [252, 205, 158, 175, 56, 9, 90, 107, 69, 116, 39, 22, 129, 176, 227, 210]
  const ROW_B: seq<bv8> := [191, 142, 221, 236, 123, 74, 25, 40, 6, 55, 100, 85, 194, 243, 160, 145]
  const ROW_C: seq<bv8> := [71, 118, 37, 20, 131, 178, 225, 208, 254, 207, 156, 173, 58, 11, 88, 105]
  const ROW_D: seq<bv8> := [4, 53, 102, 87, 192, 241, 162, 147, 189, 140, 223, 238, 121, 72, 27, 42]
  const ROW_E: seq<bv8> := [193, 240, 163, 146, 5, 52, 103, 86, 120, 73, 26, 43, 188, 141, 222, 239]
  const ROW_F: seq<bv8> := [130, 179, 224, 209, 70, 119, 36, 21, 59, 10, 89, 104, 255, 206, 157, 172]

  function BitPass(x: bv8): bv8 {
    if x & 0x80 != 0 then (x << 1) ^ CRC_POLY_8 else x << 1
  }

  function Eight(x: bv8): bv8 {
    BitPass(BitPass(BitPass(BitPass(BitPass(BitPass(BitPass(BitPass(x))))))))
  }

  ghost predicate RowOf(row: seq<bv8>, b: bv8) {
    |row| == 16
    && row[0] == Eight(b) && row[1] == Eight(b + 1) && row[2] == Eight(b + 2) && row[3] == Eight(b + 3)
    && row[4] == Eight(b + 4) && row[5] == Eight(b + 5) && row[6] == Eight(b + 6) && row[7] == Eight(b + 7)
    && row[8] == Eight(b + 8) && row[9] == Eight(b + 9) && row[10] == Eight(b + 10) && row[11] == Eight(b + 11)
    && row[12] == Eight(b + 12) && row[13] == Eight(b + 13) && row[14] == Eight(b + 14) && row[15] == Eight(b + 15)
  }

  lemma Row0()
    ensures RowOf(ROW_0, 0x00)
  {
  }

  lemma Row1()
    ensures RowOf(ROW_1, 0x10)
  {
  }

  lemma Row2()
    ensures RowOf(ROW_2, 0x20)
  {
  }

  lemma Row3()
    ensures RowOf(ROW_3, 0x30)
  {
  }

  lemma Row4()
    ensures RowOf(ROW_4, 0x40)
  {
  }

  lemma Row5()
    ensures RowOf(ROW_5, 0x50)
  {
  }

  lemma Row6()
    ensures RowOf(ROW_6, 0x60)
  {
  }

  lemma Row7()
    ensures RowOf(ROW_7, 0x70)
  {
  }

  lemma Row8()
    ensures RowOf(ROW_8, 0x80)
  {
  }

  lemma Row9()
    ensures RowOf(ROW_9, 0x90)
  {
  }

  lemma RowA()
    ensures RowOf(ROW_A, 0xA0)
  {
  }

  lemma RowB()
    ensures RowOf(ROW_B, 0xB0)
  {
  }

  lemma RowC()
    ensures RowOf(ROW_C, 0xC0)
  {
  }

  lemma RowD()
    ensures RowOf(ROW_D, 0xD0)
  {
  }

  lemma RowE()
    ensures RowOf(ROW_E, 0xE0)
  {
  }

  lemma RowF()
    ensures RowOf(ROW_F, 0xF0)
  {
  }

  function Row(h: bv8): seq<bv8> {
    if h == 0 then ROW_0
    else if h == 1 then ROW_1
    else if h == 2 then ROW_2
    else if h == 3 then ROW_3
    else if h == 4 then ROW_4
    else if h == 5 then ROW_5
    else if h == 6 then ROW_6
    else if h == 7 then ROW_7
    else if h == 8 then ROW_8
    else if h == 9 then ROW_9
    else if h == 10 then ROW_A
    else if h == 11 then ROW_B
    else if h == 12 then ROW_C
    else if h == 13 then ROW_D
    else if h == 14 then ROW_E
    else ROW_F
  }

  lemma RowAt(h: bv8)
    requires h < 16
    ensures RowOf(Row(h), h << 4)
  {
    hide RowOf;
    if h == 0 { Row0(); }
    if h == 1 { Row1(); }
    if h == 2 { Row2(); }
    if h == 3 { Row3(); }
    if h == 4 { Row4(); }
    if h == 5 { Row5(); }
    if h == 6 { Row6(); }
    if h == 7 { Row7(); }
    if h == 8 { Row8(); }
    if h == 9 { Row9(); }
    if h == 10 { RowA(); }
    if h == 11 { RowB(); }
    if h == 12 { RowC(); }
    if h == 13 { RowD(); }
    if h == 14 { RowE(); }
    if h == 15 { RowF(); }
  }

  lemma InRow(row: seq<bv8>, b: bv8, l: bv8)
    requires RowOf(row, b) && l < 16
    ensures 0 <= l as int < 16 && row[l as int] == Eight(b + l)
  {
    hide Eight;
    if l == 0 { }
    else if l == 1 { }
    else if l == 2 { }
    else if l == 3 { }
    else if l == 4 { }
    else if l == 5 { }
    else if l == 6 { }
    else if l == 7 { }
    else if l == 8 { }
    else if l == 9 { }
    else if l == 10 { }
    else if l == 11 { }
    else if l == 12 { }
    else if l == 13 { }
    else if l == 14 { }
    else if l == 15 { }
  }

  function Table(x: bv8): bv8
    requires 0 <= (x & 0x0F) as int < |Row(x >> 4)|
  {
    Row(x >> 4)[(x & 0x0F) as int]
  }

  lemma Nibbles(x: bv8)
    ensures x >> 4 < 16 && x & 0x0F < 16 && ((x >> 4) << 4) + (x & 0x0F) == x
  {
  }

  /** All 256 literals of the table are their index clocked eight times. */
  lemma TableIsEight(x: bv8)
    ensures 0 <= (x & 0x0F) as int < |Row(x >> 4)| && Table(x) == Eight(x)
  {
    hide Row, Eight;
    Nibbles(x);
    RowAt(x >> 4);
    InRow(Row(x >> 4), (x >> 4) << 4, x & 0x0F);
  }

  /** An 8-bit register is read like a message byte, high bit first. */
  function High8(x: bv8): (s: seq<bool>)
    ensures |s| == 8
  {
    ByteBits(false, x)
  }

  lemma PassTop(x: bv8)
    requires x & 0x80 != 0
    ensures Top(AtTop(x)) && AtTop(BitPass(x)) == Plus(Double(AtTop(x)), AtTop(CRC_POLY_8))
  {
  }

  lemma PassClear(x: bv8)
    requires x & 0x80 == 0
    ensures !Top(AtTop(x)) && AtTop(BitPass(x)) == Double(AtTop(x))
  {
  }

  lemma BitStep8(x: bv8)
    ensures High8(BitPass(x)) == Step(High8(CRC_POLY_8), High8(x), false)
  {
    hide HighBits, BitPass;
    ByteFits(x);
    HighBitStep(High8(CRC_POLY_8), AtTop(CRC_POLY_8), AtTop(x));
    if x & 0x80 != 0 {
      PassTop(x);
    } else {
      PassClear(x);
    }
  }

  function Passes(x: bv8, n: nat): bv8 {
    if n == 0 then x else BitPass(Passes(x, n - 1))
  }

  lemma {:induction false} PassesBits(x: bv8, n: nat)
    ensures High8(Passes(x, n)) == Run(High8(CRC_POLY_8), High8(x), Zeros(n))
  {
    hide ByteBits, BitPass;
    if n == 0 {
    } else {
      PassesBits(x, n - 1);
      BitStep8(Passes(x, n - 1));
      OneMoreZero(High8(CRC_POLY_8), High8(x), n - 1);
    }
  }

  lemma EightIsPasses(x: bv8)
    ensures Eight(x) == Passes(x, 8)
  {
    assert Passes(x, 1) == BitPass(Passes(x, 0));
    assert Passes(x, 2) == BitPass(BitPass(x));
    assert Passes(x, 4) == BitPass(BitPass(Passes(x, 2)));
    assert Passes(x, 6) == BitPass(BitPass(Passes(x, 4)));
    assert Passes(x, 8) == BitPass(BitPass(Passes(x, 6)));
  }

  /** With a register of one byte, a table lookup replaces the register altogether. */
  lemma ByteStep8(crc: bv8, c: bv8)
    ensures High8(Eight(c ^ crc)) == Run(High8(CRC_POLY_8), High8(crc), ByteBits(false, c))
  {
    hide HighBits, Eight, Passes;
    EightIsPasses(c ^ crc);
    PassesBits(c ^ crc, 8);
    ByteFacts(crc, c);
    SumCommutes(crc, c);
    HighFeed(High8(CRC_POLY_8), AtTop(crc), AtTop(c));
  }

  lemma SumCommutes(crc: bv8, c: bv8)
    ensures c ^ crc == crc ^ c
  {
  }

  method UpdateCrc8(crc: bv8, val: bv8) returns (r: bv8)
    ensures r == Eight(val ^ crc)
    ensures High8(r) == Run(High8(CRC_POLY_8), High8(crc), ByteBits(false, val))
  {
    hide ByteBits, Eight, Row;
    TableIsEight(val ^ crc);
    ByteStep8(crc, val);
    r := Table(val ^ crc);
  }

  /** The plain algorithm, without a table. */
  function FoldOf(crc: bv8, msg: seq<bv8>): bv8 {
    if msg == [] then crc else Eight(msg[|msg| - 1] ^ FoldOf(crc, msg[..|msg| - 1]))
  }

  lemma {:induction false} FoldBits(crc: bv8, msg: seq<bv8>)
    ensures High8(FoldOf(crc, msg)) == Run(High8(CRC_POLY_8), High8(crc), MessageBits(false, msg))
  {
    hide High8, Eight, ByteBits;
    if msg == [] {
    } else {
      var m, c := msg[..|msg| - 1], msg[|msg| - 1];
      FoldBits(crc, m);
      ByteStep8(FoldOf(crc, m), c);
      OneMoreByte(false, High8(CRC_POLY_8), High8(crc), m, c);
      assert m + [c] == msg;
    }
  }

  method Crc8(input: array?<bv8>, numBytes: nat) returns (crc: bv8)
    requires input != null ==> numBytes <= input.Length
    ensures crc == FoldOf(CRC_START_8, Bytes(input, numBytes))
    ensures CRC_8.Valid() && High8(crc) == Crc(CRC_8, Bytes(input, numBytes))
  {
    hide High8, Eight, Crc;
    crc := CRC_START_8;
    if input != null {
      for a := 0 to numBytes
        invariant crc == FoldOf(CRC_START_8, input[..a])
      {
        assert input[..a + 1][..a] == input[..a];
        crc := UpdateCrc8(crc, input[a]);
      }
    }
    FoldIsCrc(Bytes(input, numBytes), crc);
  }

  lemma FoldIsCrc(msg: seq<bv8>, crc: bv8)
    requires crc == FoldOf(CRC_START_8, msg)
    ensures CRC_8.Valid() && High8(crc) == Crc(CRC_8, msg)
  {
    hide HighBits, Run, FoldOf;
    Crc8Valid();
    FoldBits(CRC_START_8, msg);
    XorNothing(High8(crc));
  }

  const CRC_8: Variant := Variant(false, High8(CRC_POLY_8), High8(CRC_START_8), Zeros(8))

  lemma Crc8Valid()
    ensures CRC_8.Valid()
  {
    HighLast(AtTop(CRC_POLY_8), 8);
    Shl7(AtTop(CRC_POLY_8));
    assert Top(AtTop(CRC_POLY_8) << 7);
  }
}

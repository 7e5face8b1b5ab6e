/** Chat/libcrc/src/crc16.c: CRC-16 and Modbus over one lazily built table. */
module Crc16 {
  import opened Bits
  import opened Messages
  import opened CrcLaws
  import opened ReflectedCrc16

  const CRC_POLY_16: bv16 := 0xA001
  const CRC_START_16: bv16 := 0x0000
  const CRC_START_MODBUS: bv16 := 0xFFFF

  const CRC_16: Variant := Variant(true, Low16(CRC_POLY_16), Low16(CRC_START_16), Zeros(16))
  const MODBUS: Variant := CRC_16.(start := Low16(CRC_START_MODBUS))

  lemma Crc16Valid()
    ensures CRC_16.Valid() && MODBUS.Valid()
  {
    PolyValid16(CRC_POLY_16);
  }

  method Crc16(tab16: LazyTable, input: array?<bv8>, numBytes: nat) returns (crc: bv16)
    requires tab16.Valid() && tab16.poly == CRC_POLY_16
    requires input != null ==> numBytes <= input.Length
    modifies tab16`init, tab16.tab
    ensures tab16.Valid() && CRC_16.Valid()
    ensures Low16(crc) == Crc(CRC_16, Bytes(input, numBytes))
    ensures crc == FoldOf(CRC_POLY_16, CRC_START_16, Bytes(input, numBytes))
  {
    Crc16Valid();
    crc := tab16.Fold(CRC_START_16, input, numBytes);
    XorNothing(Low16(crc));
  }

  method CrcModbus(tab16: LazyTable, input: array?<bv8>, numBytes: nat) returns (crc: bv16)
    requires tab16.Valid() && tab16.poly == CRC_POLY_16
    requires input != null ==> numBytes <= input.Length
    modifies tab16`init, tab16.tab
    ensures tab16.Valid() && MODBUS.Valid()
    ensures Low16(crc) == Crc(MODBUS, Bytes(input, numBytes))
    ensures crc == FoldOf(CRC_POLY_16, CRC_START_MODBUS, Bytes(input, numBytes))
  {
    Crc16Valid();
    crc := tab16.Fold(CRC_START_MODBUS, input, numBytes);
    XorNothing(Low16(crc));
  }
}

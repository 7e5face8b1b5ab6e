/** Chat/libcrc/src/crcdnp.c: the DNP CRC, complemented and then byte-swapped. */
module CrcDnp {
  import opened Bits
  import opened Messages
  import opened CrcLaws
  import opened ReflectedCrc16

  const CRC_POLY_DNP: bv16 := 0xA6BC
  const CRC_START_DNP: bv16 := 0x0000

  const DNP: Variant := Variant(true, Low16(CRC_POLY_DNP), Low16(CRC_START_DNP), Low16(0xFFFF))

  lemma DnpValid()
    ensures DNP.Valid()
  {
    PolyValid16(CRC_POLY_DNP);
  }

  method CrcDnp(tab: LazyTable, input: array?<bv8>, numBytes: nat) returns (crc: bv16)
    requires tab.Valid() && tab.poly == CRC_POLY_DNP
    requires input != null ==> numBytes <= input.Length
    modifies tab`init, tab.tab
    ensures tab.Valid() && DNP.Valid()
    ensures Low16(SwapBytes(crc)) == Crc(DNP, Bytes(input, numBytes))
    ensures crc == SwapBytes(!FoldOf(CRC_POLY_DNP, CRC_START_DNP, Bytes(input, numBytes)))
  {
    hide SwapBytes, Low16, FoldOf;
    DnpValid();
    crc := tab.Fold(CRC_START_DNP, input, numBytes);
    Finish(crc);
    crc := !crc;
    crc := ExchangeBytes(crc);
  }

  lemma Finish(register: bv16)
    ensures Low16(SwapBytes(SwapBytes(!register))) == Xor(Low16(register), Low16(0xFFFF))
  {
    hide SwapBytes, Low16;
    SwapTwice(!register);
    Complement(register);
    Low16Xor(register, 0xFFFF);
  }

  lemma Complement(x: bv16)
    ensures !x == x ^ 0xFFFF
  {
  }
}

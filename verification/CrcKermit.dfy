/** Chat/libcrc/src/crckrmit.c: Kermit, whose result has its two bytes exchanged. */
module CrcKermit {
  import opened Bits
  import opened Messages
  import opened CrcLaws
  import opened ReflectedCrc16

  const CRC_POLY_KERMIT: bv16 := 0x8408
  const CRC_START_KERMIT: bv16 := 0x0000

  const KERMIT: Variant := Variant(true, Low16(CRC_POLY_KERMIT), Low16(CRC_START_KERMIT), Zeros(16))

  lemma KermitValid()
    ensures KERMIT.Valid()
  {
    PolyValid16(CRC_POLY_KERMIT);
  }

  /** USAGE.md also asks for a complement here; the code takes none. */
  method CrcKermit(tab: LazyTable, input: array?<bv8>, numBytes: nat) returns (crc: bv16)
    requires tab.Valid() && tab.poly == CRC_POLY_KERMIT
    requires input != null ==> numBytes <= input.Length
    modifies tab`init, tab.tab
    ensures tab.Valid() && KERMIT.Valid()
    ensures Low16(SwapBytes(crc)) == Crc(KERMIT, Bytes(input, numBytes))
    ensures crc == SwapBytes(FoldOf(CRC_POLY_KERMIT, CRC_START_KERMIT, Bytes(input, numBytes)))
  {
    hide SwapBytes, Low16, FoldOf;
    KermitValid();
    crc := tab.Fold(CRC_START_KERMIT, input, numBytes);
    XorNothing(Low16(crc));
    SwapTwice(crc);
    crc := ExchangeBytes(crc);
  }
}

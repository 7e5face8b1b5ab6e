/** The values the library lists (Chat/libcrc/test/testcrc.c:62-68) for the nine
    digits. They tie the constants of each source file to the CRC it is named after. */
module CheckValues {
  import ReflectedCrc16
  import Crc16
  import CrcKermit
  import CrcDnp
  import CrcCcitt
  import Crc32
  import Crc64
  import Crc8
  import CrcSick

  /** "123456789" */
  const DIGITS: seq<bv8> := [0x31, 0x32, 0x33, 0x34, 0x35, 0x36, 0x37, 0x38, 0x39]

  lemma Prefixes(k: nat)
    requires k < 9
    ensures DIGITS[..k + 1] == DIGITS[..k] + [DIGITS[k]] && DIGITS[..0] == [] && DIGITS[..9] == DIGITS
  {
  }

  // ---------------------------------------------------------------- 16 bits, low bit first

  lemma ReflectedStep(poly: bv16, start: bv16, k: nat, before: bv16, x: bv16, after: bv16)
    requires k < 9 && ReflectedCrc16.FoldOf(poly, start, DIGITS[..k]) == before
    requires x == before ^ (DIGITS[k] as bv16) && ReflectedCrc16.Passes(poly, x, 8) == after
    ensures ReflectedCrc16.FoldOf(poly, start, DIGITS[..k + 1]) == after
  {
    hide ReflectedCrc16.FoldOf, ReflectedCrc16.Passes;
    Prefixes(k);
    ReflectedCrc16.OneMoreAbsorbed(poly, start, DIGITS[..k], DIGITS[k]);
  }

  lemma Crc16Passes()
    ensures ReflectedCrc16.Passes(Crc16.CRC_POLY_16, 0x0031, 8) == 0xD4C1
    ensures ReflectedCrc16.Passes(Crc16.CRC_POLY_16, 0xD4F3, 8) == 0x4594
    ensures ReflectedCrc16.Passes(Crc16.CRC_POLY_16, 0x45A7, 8) == 0xBA04
    ensures ReflectedCrc16.Passes(Crc16.CRC_POLY_16, 0xBA30, 8) == 0x14BA
    ensures ReflectedCrc16.Passes(Crc16.CRC_POLY_16, 0x148F, 8) == 0xA455
    ensures ReflectedCrc16.Passes(Crc16.CRC_POLY_16, 0xA463, 8) == 0x29E4
    ensures ReflectedCrc16.Passes(Crc16.CRC_POLY_16, 0x29D3, 8) == 0x9D68
    ensures ReflectedCrc16.Passes(Crc16.CRC_POLY_16, 0x9D50, 8) == 0x3C9D
    ensures ReflectedCrc16.Passes(Crc16.CRC_POLY_16, 0x3CA4, 8) == 0xBB3D
  {
  }

  lemma Crc16Check()
    ensures ReflectedCrc16.FoldOf(Crc16.CRC_POLY_16, Crc16.CRC_START_16, DIGITS) == 0xBB3D
  {
    ReflectedStart(Crc16.CRC_POLY_16, Crc16.CRC_START_16);
    hide ReflectedCrc16.FoldOf, ReflectedCrc16.Passes;
    Crc16Passes();
    ReflectedStep(Crc16.CRC_POLY_16, Crc16.CRC_START_16, 0, 0x0000, 0x0031, 0xD4C1);
    ReflectedStep(Crc16.CRC_POLY_16, Crc16.CRC_START_16, 1, 0xD4C1, 0xD4F3, 0x4594);
    ReflectedStep(Crc16.CRC_POLY_16, Crc16.CRC_START_16, 2, 0x4594, 0x45A7, 0xBA04);
    ReflectedStep(Crc16.CRC_POLY_16, Crc16.CRC_START_16, 3, 0xBA04, 0xBA30, 0x14BA);
    ReflectedStep(Crc16.CRC_POLY_16, Crc16.CRC_START_16, 4, 0x14BA, 0x148F, 0xA455);
    ReflectedStep(Crc16.CRC_POLY_16, Crc16.CRC_START_16, 5, 0xA455, 0xA463, 0x29E4);
    ReflectedStep(Crc16.CRC_POLY_16, Crc16.CRC_START_16, 6, 0x29E4, 0x29D3, 0x9D68);
    ReflectedStep(Crc16.CRC_POLY_16, Crc16.CRC_START_16, 7, 0x9D68, 0x9D50, 0x3C9D);
    ReflectedStep(Crc16.CRC_POLY_16, Crc16.CRC_START_16, 8, 0x3C9D, 0x3CA4, 0xBB3D);
    Prefixes(8);
  }

  lemma ModbusPasses()
    ensures ReflectedCrc16.Passes(Crc16.CRC_POLY_16, 0xFFCE, 8) == 0x947E
    ensures ReflectedCrc16.Passes(Crc16.CRC_POLY_16, 0x944C, 8) == 0xF595
    ensures ReflectedCrc16.Passes(Crc16.CRC_POLY_16, 0xF5A6, 8) == 0x7A75
    ensures ReflectedCrc16.Passes(Crc16.CRC_POLY_16, 0x7A41, 8) == 0x30BA
    ensures ReflectedCrc16.Passes(Crc16.CRC_POLY_16, 0x308F, 8) == 0xA471
    ensures ReflectedCrc16.Passes(Crc16.CRC_POLY_16, 0xA447, 8) == 0x32E4
    ensures ReflectedCrc16.Passes(Crc16.CRC_POLY_16, 0x32D3, 8) == 0x9D73
    ensures ReflectedCrc16.Passes(Crc16.CRC_POLY_16, 0x9D4B, 8) == 0x37DD
    ensures ReflectedCrc16.Passes(Crc16.CRC_POLY_16, 0x37E4, 8) == 0x4B37
  {
  }

  lemma ModbusCheck()
    ensures ReflectedCrc16.FoldOf(Crc16.CRC_POLY_16, Crc16.CRC_START_MODBUS, DIGITS) == 0x4B37
  {
    ReflectedStart(Crc16.CRC_POLY_16, Crc16.CRC_START_MODBUS);
    hide ReflectedCrc16.FoldOf, ReflectedCrc16.Passes;
    ModbusPasses();
    ReflectedStep(Crc16.CRC_POLY_16, Crc16.CRC_START_MODBUS, 0, 0xFFFF, 0xFFCE, 0x947E);
    ReflectedStep(Crc16.CRC_POLY_16, Crc16.CRC_START_MODBUS, 1, 0x947E, 0x944C, 0xF595);
    ReflectedStep(Crc16.CRC_POLY_16, Crc16.CRC_START_MODBUS, 2, 0xF595, 0xF5A6, 0x7A75);
    ReflectedStep(Crc16.CRC_POLY_16, Crc16.CRC_START_MODBUS, 3, 0x7A75, 0x7A41, 0x30BA);
    ReflectedStep(Crc16.CRC_POLY_16, Crc16.CRC_START_MODBUS, 4, 0x30BA, 0x308F, 0xA471);
    ReflectedStep(Crc16.CRC_POLY_16, Crc16.CRC_START_MODBUS, 5, 0xA471, 0xA447, 0x32E4);
    ReflectedStep(Crc16.CRC_POLY_16, Crc16.CRC_START_MODBUS, 6, 0x32E4, 0x32D3, 0x9D73);
    ReflectedStep(Crc16.CRC_POLY_16, Crc16.CRC_START_MODBUS, 7, 0x9D73, 0x9D4B, 0x37DD);
    ReflectedStep(Crc16.CRC_POLY_16, Crc16.CRC_START_MODBUS, 8, 0x37DD, 0x37E4, 0x4B37);
    Prefixes(8);
  }

  lemma KermitPasses()
    ensures ReflectedCrc16.Passes(CrcKermit.CRC_POLY_KERMIT, 0x0031, 8) == 0x200A
    ensures ReflectedCrc16.Passes(CrcKermit.CRC_POLY_KERMIT, 0x2038, 8) == 0xBDEB
    ensures ReflectedCrc16.Passes(CrcKermit.CRC_POLY_KERMIT, 0xBDD8, 8) == 0x5A78
    ensures ReflectedCrc16.Passes(CrcKermit.CRC_POLY_KERMIT, 0x5A4C, 8) == 0x8832
    ensures ReflectedCrc16.Passes(CrcKermit.CRC_POLY_KERMIT, 0x8807, 8) == 0x7437
    ensures ReflectedCrc16.Passes(CrcKermit.CRC_POLY_KERMIT, 0x7401, 8) == 0x11FD
    ensures ReflectedCrc16.Passes(CrcKermit.CRC_POLY_KERMIT, 0x11CA, 8) == 0x6947
    ensures ReflectedCrc16.Passes(CrcKermit.CRC_POLY_KERMIT, 0x697F, 8) == 0x8B19
    ensures ReflectedCrc16.Passes(CrcKermit.CRC_POLY_KERMIT, 0x8B20, 8) == 0x2189
  {
  }

  lemma KermitCheck()
    ensures ReflectedCrc16.SwapBytes(
              ReflectedCrc16.FoldOf(CrcKermit.CRC_POLY_KERMIT, CrcKermit.CRC_START_KERMIT, DIGITS)) == 0x8921
  {
    ReflectedStart(CrcKermit.CRC_POLY_KERMIT, CrcKermit.CRC_START_KERMIT);
    hide ReflectedCrc16.FoldOf, ReflectedCrc16.Passes;
    KermitPasses();
    ReflectedStep(CrcKermit.CRC_POLY_KERMIT, CrcKermit.CRC_START_KERMIT, 0, 0x0000, 0x0031, 0x200A);
    ReflectedStep(CrcKermit.CRC_POLY_KERMIT, CrcKermit.CRC_START_KERMIT, 1, 0x200A, 0x2038, 0xBDEB);
    ReflectedStep(CrcKermit.CRC_POLY_KERMIT, CrcKermit.CRC_START_KERMIT, 2, 0xBDEB, 0xBDD8, 0x5A78);
    ReflectedStep(CrcKermit.CRC_POLY_KERMIT, CrcKermit.CRC_START_KERMIT, 3, 0x5A78, 0x5A4C, 0x8832);
    ReflectedStep(CrcKermit.CRC_POLY_KERMIT, CrcKermit.CRC_START_KERMIT, 4, 0x8832, 0x8807, 0x7437);
    ReflectedStep(CrcKermit.CRC_POLY_KERMIT, CrcKermit.CRC_START_KERMIT, 5, 0x7437, 0x7401, 0x11FD);
    ReflectedStep(CrcKermit.CRC_POLY_KERMIT, CrcKermit.CRC_START_KERMIT, 6, 0x11FD, 0x11CA, 0x6947);
    ReflectedStep(CrcKermit.CRC_POLY_KERMIT, CrcKermit.CRC_START_KERMIT, 7, 0x6947, 0x697F, 0x8B19);
    ReflectedStep(CrcKermit.CRC_POLY_KERMIT, CrcKermit.CRC_START_KERMIT, 8, 0x8B19, 0x8B20, 0x2189);
    Prefixes(8);
  }

  lemma DnpPasses()
    ensures ReflectedCrc16.Passes(CrcDnp.CRC_POLY_DNP, 0x0031, 8) == 0xAD9A
    ensures ReflectedCrc16.Passes(CrcDnp.CRC_POLY_DNP, 0xADA8, 8) == 0x7037
    ensures ReflectedCrc16.Passes(CrcDnp.CRC_POLY_DNP, 0x7004, 8) == 0xD908
    ensures ReflectedCrc16.Passes(CrcDnp.CRC_POLY_DNP, 0xD93C, 8) == 0xBDEC
    ensures ReflectedCrc16.Passes(CrcDnp.CRC_POLY_DNP, 0xBDD9, 8) == 0x8EE3
    ensures ReflectedCrc16.Passes(CrcDnp.CRC_POLY_DNP, 0x8ED5, 8) == 0xA821
    ensures ReflectedCrc16.Passes(CrcDnp.CRC_POLY_DNP, 0xA816, 8) == 0x0707
    ensures ReflectedCrc16.Passes(CrcDnp.CRC_POLY_DNP, 0x073F, 8) == 0xE7D0
    ensures ReflectedCrc16.Passes(CrcDnp.CRC_POLY_DNP, 0xE7E9, 8) == 0x157D
  {
  }

  lemma DnpCheck()
    ensures ReflectedCrc16.SwapBytes(
              !ReflectedCrc16.FoldOf(CrcDnp.CRC_POLY_DNP, CrcDnp.CRC_START_DNP, DIGITS)) == 0x82EA
  {
    ReflectedStart(CrcDnp.CRC_POLY_DNP, CrcDnp.CRC_START_DNP);
    hide ReflectedCrc16.FoldOf, ReflectedCrc16.Passes;
    DnpPasses();
    ReflectedStep(CrcDnp.CRC_POLY_DNP, CrcDnp.CRC_START_DNP, 0, 0x0000, 0x0031, 0xAD9A);
    ReflectedStep(CrcDnp.CRC_POLY_DNP, CrcDnp.CRC_START_DNP, 1, 0xAD9A, 0xADA8, 0x7037);
    ReflectedStep(CrcDnp.CRC_POLY_DNP, CrcDnp.CRC_START_DNP, 2, 0x7037, 0x7004, 0xD908);
    ReflectedStep(CrcDnp.CRC_POLY_DNP, CrcDnp.CRC_START_DNP, 3, 0xD908, 0xD93C, 0xBDEC);
    ReflectedStep(CrcDnp.CRC_POLY_DNP, CrcDnp.CRC_START_DNP, 4, 0xBDEC, 0xBDD9, 0x8EE3);
    ReflectedStep(CrcDnp.CRC_POLY_DNP, CrcDnp.CRC_START_DNP, 5, 0x8EE3, 0x8ED5, 0xA821);
    ReflectedStep(CrcDnp.CRC_POLY_DNP, CrcDnp.CRC_START_DNP, 6, 0xA821, 0xA816, 0x0707);
    ReflectedStep(CrcDnp.CRC_POLY_DNP, CrcDnp.CRC_START_DNP, 7, 0x0707, 0x073F, 0xE7D0);
    ReflectedStep(CrcDnp.CRC_POLY_DNP, CrcDnp.CRC_START_DNP, 8, 0xE7D0, 0xE7E9, 0x157D);
    Prefixes(8);
  }

  lemma ReflectedStart(poly: bv16, start: bv16)
    ensures ReflectedCrc16.FoldOf(poly, start, DIGITS[..0]) == start
  {
  }

  // ---------------------------------------------------------------- 16 bits, high bit first

  lemma CcittStep(start: bv16, k: nat, before: bv16, x: bv16, after: bv16)
    requires k < 9 && CrcCcitt.FoldOf(start, DIGITS[..k]) == before
    requires x == before ^ ((DIGITS[k] as bv16) << 8) && CrcCcitt.Passes(x, 8) == after
    ensures CrcCcitt.FoldOf(start, DIGITS[..k + 1]) == after
  {
    hide CrcCcitt.FoldOf, CrcCcitt.Passes;
    Prefixes(k);
    CrcCcitt.OneMoreAbsorbed(start, DIGITS[..k], DIGITS[k]);
  }

  lemma CcittStart(start: bv16)
    ensures CrcCcitt.FoldOf(start, DIGITS[..0]) == start
  {
  }

  lemma XmodemPasses()
    ensures CrcCcitt.Passes(0x3100, 8) == 0x2672
    ensures CrcCcitt.Passes(0x1472, 8) == 0x20B5
    ensures CrcCcitt.Passes(0x13B5, 8) == 0x9752
    ensures CrcCcitt.Passes(0xA352, 8) == 0xD789
    ensures CrcCcitt.Passes(0xE289, 8) == 0x546C
    ensures CrcCcitt.Passes(0x626C, 8) == 0x20E4
    ensures CrcCcitt.Passes(0x17E4, 8) == 0x86D6
    ensures CrcCcitt.Passes(0xBED6, 8) == 0x9015
    ensures CrcCcitt.Passes(0xA915, 8) == 0x31C3
  {
  }

  lemma XmodemCheck()
    ensures CrcCcitt.FoldOf(CrcCcitt.CRC_START_XMODEM, DIGITS) == 0x31C3
  {
    CcittStart(CrcCcitt.CRC_START_XMODEM);
    hide CrcCcitt.FoldOf, CrcCcitt.Passes;
    XmodemPasses();
    CcittStep(CrcCcitt.CRC_START_XMODEM, 0, 0x0000, 0x3100, 0x2672);
    CcittStep(CrcCcitt.CRC_START_XMODEM, 1, 0x2672, 0x1472, 0x20B5);
    CcittStep(CrcCcitt.CRC_START_XMODEM, 2, 0x20B5, 0x13B5, 0x9752);
    CcittStep(CrcCcitt.CRC_START_XMODEM, 3, 0x9752, 0xA352, 0xD789);
    CcittStep(CrcCcitt.CRC_START_XMODEM, 4, 0xD789, 0xE289, 0x546C);
    CcittStep(CrcCcitt.CRC_START_XMODEM, 5, 0x546C, 0x626C, 0x20E4);
    CcittStep(CrcCcitt.CRC_START_XMODEM, 6, 0x20E4, 0x17E4, 0x86D6);
    CcittStep(CrcCcitt.CRC_START_XMODEM, 7, 0x86D6, 0xBED6, 0x9015);
    CcittStep(CrcCcitt.CRC_START_XMODEM, 8, 0x9015, 0xA915, 0x31C3);
    Prefixes(8);
  }

  lemma Ccitt1D0FPasses()
    ensures CrcCcitt.Passes(0x2C0F, 8) == 0xEAEE
    ensures CrcCcitt.Passes(0xD8EE, 8) == 0xA475
    ensures CrcCcitt.Passes(0x9775, 8) == 0x865E
    ensures CrcCcitt.Passes(0xB25E, 8) == 0xD999
    ensures CrcCcitt.Passes(0xEC99, 8) == 0xA5A2
    ensures CrcCcitt.Passes(0x93A2, 8) == 0x11DA
    ensures CrcCcitt.Passes(0x26DA, 8) == 0x9EA4
    ensures CrcCcitt.Passes(0xA6A4, 8) == 0x712C
    ensures CrcCcitt.Passes(0x482C, 8) == 0xE5CC
  {
  }

  lemma Ccitt1D0FCheck()
    ensures CrcCcitt.FoldOf(CrcCcitt.CRC_START_CCITT_1D0F, DIGITS) == 0xE5CC
  {
    CcittStart(CrcCcitt.CRC_START_CCITT_1D0F);
    hide CrcCcitt.FoldOf, CrcCcitt.Passes;
    Ccitt1D0FPasses();
    CcittStep(CrcCcitt.CRC_START_CCITT_1D0F, 0, 0x1D0F, 0x2C0F, 0xEAEE);
    CcittStep(CrcCcitt.CRC_START_CCITT_1D0F, 1, 0xEAEE, 0xD8EE, 0xA475);
    CcittStep(CrcCcitt.CRC_START_CCITT_1D0F, 2, 0xA475, 0x9775, 0x865E);
    CcittStep(CrcCcitt.CRC_START_CCITT_1D0F, 3, 0x865E, 0xB25E, 0xD999);
    CcittStep(CrcCcitt.CRC_START_CCITT_1D0F, 4, 0xD999, 0xEC99, 0xA5A2);
    CcittStep(CrcCcitt.CRC_START_CCITT_1D0F, 5, 0xA5A2, 0x93A2, 0x11DA);
    CcittStep(CrcCcitt.CRC_START_CCITT_1D0F, 6, 0x11DA, 0x26DA, 0x9EA4);
    CcittStep(CrcCcitt.CRC_START_CCITT_1D0F, 7, 0x9EA4, 0xA6A4, 0x712C);
    CcittStep(CrcCcitt.CRC_START_CCITT_1D0F, 8, 0x712C, 0x482C, 0xE5CC);
    Prefixes(8);
  }

  lemma CcittFFFFPasses()
    ensures CrcCcitt.Passes(0xCEFF, 8) == 0xC782
    ensures CrcCcitt.Passes(0xF582, 8) == 0x3DBA
    ensures CrcCcitt.Passes(0x0EBA, 8) == 0x5BCE
    ensures CrcCcitt.Passes(0x6FCE, 8) == 0x5349
    ensures CrcCcitt.Passes(0x6649, 8) == 0x4560
    ensures CrcCcitt.Passes(0x7360, 8) == 0x2EF4
    ensures CrcCcitt.Passes(0x19F4, 8) == 0x7718
    ensures CrcCcitt.Passes(0x4F18, 8) == 0xA12B
    ensures CrcCcitt.Passes(0x982B, 8) == 0x29B1
  {
  }

  lemma CcittFFFFCheck()
    ensures CrcCcitt.FoldOf(CrcCcitt.CRC_START_CCITT_FFFF, DIGITS) == 0x29B1
  {
    CcittStart(CrcCcitt.CRC_START_CCITT_FFFF);
    hide CrcCcitt.FoldOf, CrcCcitt.Passes;
    CcittFFFFPasses();
    CcittStep(CrcCcitt.CRC_START_CCITT_FFFF, 0, 0xFFFF, 0xCEFF, 0xC782);
    CcittStep(CrcCcitt.CRC_START_CCITT_FFFF, 1, 0xC782, 0xF582, 0x3DBA);
    CcittStep(CrcCcitt.CRC_START_CCITT_FFFF, 2, 0x3DBA, 0x0EBA, 0x5BCE);
    CcittStep(CrcCcitt.CRC_START_CCITT_FFFF, 3, 0x5BCE, 0x6FCE, 0x5349);
    CcittStep(CrcCcitt.CRC_START_CCITT_FFFF, 4, 0x5349, 0x6649, 0x4560);
    CcittStep(CrcCcitt.CRC_START_CCITT_FFFF, 5, 0x4560, 0x7360, 0x2EF4);
    CcittStep(CrcCcitt.CRC_START_CCITT_FFFF, 6, 0x2EF4, 0x19F4, 0x7718);
    CcittStep(CrcCcitt.CRC_START_CCITT_FFFF, 7, 0x7718, 0x4F18, 0xA12B);
    CcittStep(CrcCcitt.CRC_START_CCITT_FFFF, 8, 0xA12B, 0x982B, 0x29B1);
    Prefixes(8);
  }

  // ---------------------------------------------------------------- 32 bits

  lemma Crc32Step(k: nat, before: bv32, x: bv32, after: bv32)
    requires k < 9 && Crc32.Fold(Crc32.CRC_START_32, DIGITS[..k]) == before
    requires x == before ^ (DIGITS[k] as bv32) && Crc32.Passes(x, 8) == after
    ensures Crc32.Fold(Crc32.CRC_START_32, DIGITS[..k + 1]) == after
  {
    hide Crc32.Passes;
    Prefixes(k);
    assert DIGITS[..k + 1][..k] == DIGITS[..k];
  }

  lemma Crc32Start()
    ensures Crc32.Fold(Crc32.CRC_START_32, DIGITS[..0]) == Crc32.CRC_START_32
  {
  }

  lemma Crc32Passes()
    ensures Crc32.Passes(0xFFFF_FFCE, 8) == 0x7C23_1048
    ensures Crc32.Passes(0x7C23_107A, 8) == 0xB0AC_BB32
    ensures Crc32.Passes(0xB0AC_BB01, 8) == 0x77B7_9C2D
    ensures Crc32.Passes(0x77B7_9C19, 8) == 0x641C_1F5C
    ensures Crc32.Passes(0x641C_1F69, 8) == 0x340A_C5E3
    ensures Crc32.Passes(0x340A_C5D5, 8) == 0xF68D_2C9E
    ensures Crc32.Passes(0xF68D_2CA9, 8) == 0xAFFC_9660
    ensures Crc32.Passes(0xAFFC_9658, 8) == 0x651F_2550
    ensures Crc32.Passes(0x651F_2569, 8) == 0x340B_C6D9
  {
  }

  lemma Crc32Check()
    ensures Crc32.Crc32Of(DIGITS) == 0xCBF4_3926
  {
    Crc32Start();
    hide Crc32.Fold, Crc32.Passes;
    Crc32Passes();
    Crc32Step(0, 0xFFFF_FFFF, 0xFFFF_FFCE, 0x7C23_1048);
    Crc32Step(1, 0x7C23_1048, 0x7C23_107A, 0xB0AC_BB32);
    Crc32Step(2, 0xB0AC_BB32, 0xB0AC_BB01, 0x77B7_9C2D);
    Crc32Step(3, 0x77B7_9C2D, 0x77B7_9C19, 0x641C_1F5C);
    Crc32Step(4, 0x641C_1F5C, 0x641C_1F69, 0x340A_C5E3);
    Crc32Step(5, 0x340A_C5E3, 0x340A_C5D5, 0xF68D_2C9E);
    Crc32Step(6, 0xF68D_2C9E, 0xF68D_2CA9, 0xAFFC_9660);
    Crc32Step(7, 0xAFFC_9660, 0xAFFC_9658, 0x651F_2550);
    Crc32Step(8, 0x651F_2550, 0x651F_2569, 0x340B_C6D9);
    Prefixes(8);
  }

  // ---------------------------------------------------------------- 64 bits

  lemma Crc64Step(start: bv64, k: nat, before: bv64, x: bv64, after: bv64)
    requires k < 9 && Crc64.FoldOf(start, DIGITS[..k]) == before
    requires x == before ^ ((DIGITS[k] as bv64) << 56) && Crc64.Passes(x, 8) == after
    ensures Crc64.FoldOf(start, DIGITS[..k + 1]) == after
  {
    hide Crc64.FoldOf, Crc64.Passes;
    Prefixes(k);
    Crc64.OneMoreAbsorbed(start, DIGITS[..k], DIGITS[k]);
  }

  lemma Crc64Start(start: bv64)
    ensures Crc64.FoldOf(start, DIGITS[..0]) == start
  {
  }

  lemma EcmaPasses()
    ensures Crc64.Passes(0x3100_0000_0000_0000, 8) == 0xE8B7_68EB_18C8_B8A2
    ensures Crc64.Passes(0xDAB7_68EB_18C8_B8A2, 8) == 0xEA2D_7B6F_8056_C695
    ensures Crc64.Passes(0xD92D_7B6F_8056_C695, 8) == 0xB72F_DDCB_E416_AA20
    ensures Crc64.Passes(0x832F_DDCB_E416_AA20, 8) == 0x1E36_0C18_91A6_0F78
    ensures Crc64.Passes(0x2B36_0C18_91A6_0F78, 8) == 0xAF01_07D8_6177_F1D5
    ensures Crc64.Passes(0x9901_07D8_6177_F1D5, 8) == 0x4156_683F_2F4D_CB0F
    ensures Crc64.Passes(0x7656_683F_2F4D_CB0F, 8) == 0xEAF8_11A8_4B13_21E7
    ensures Crc64.Passes(0xD2F8_11A8_4B13_21E7, 8) == 0x3732_F4B6_474A_5A2B
    ensures Crc64.Passes(0x0E32_F4B6_474A_5A2B, 8) == 0x6C40_DF5F_0B49_7347
  {
  }

  lemma EcmaCheck()
    ensures Crc64.FoldOf(Crc64.CRC_START_64_ECMA, DIGITS) == 0x6C40_DF5F_0B49_7347
  {
    Crc64Start(Crc64.CRC_START_64_ECMA);
    hide Crc64.FoldOf, Crc64.Passes;
    EcmaPasses();
    Crc64Step(Crc64.CRC_START_64_ECMA, 0, 0x0000_0000_0000_0000, 0x3100_0000_0000_0000, 0xE8B7_68EB_18C8_B8A2);
    Crc64Step(Crc64.CRC_START_64_ECMA, 1, 0xE8B7_68EB_18C8_B8A2, 0xDAB7_68EB_18C8_B8A2, 0xEA2D_7B6F_8056_C695);
    Crc64Step(Crc64.CRC_START_64_ECMA, 2, 0xEA2D_7B6F_8056_C695, 0xD92D_7B6F_8056_C695, 0xB72F_DDCB_E416_AA20);
    Crc64Step(Crc64.CRC_START_64_ECMA, 3, 0xB72F_DDCB_E416_AA20, 0x832F_DDCB_E416_AA20, 0x1E36_0C18_91A6_0F78);
    Crc64Step(Crc64.CRC_START_64_ECMA, 4, 0x1E36_0C18_91A6_0F78, 0x2B36_0C18_91A6_0F78, 0xAF01_07D8_6177_F1D5);
    Crc64Step(Crc64.CRC_START_64_ECMA, 5, 0xAF01_07D8_6177_F1D5, 0x9901_07D8_6177_F1D5, 0x4156_683F_2F4D_CB0F);
    Crc64Step(Crc64.CRC_START_64_ECMA, 6, 0x4156_683F_2F4D_CB0F, 0x7656_683F_2F4D_CB0F, 0xEAF8_11A8_4B13_21E7);
    Crc64Step(Crc64.CRC_START_64_ECMA, 7, 0xEAF8_11A8_4B13_21E7, 0xD2F8_11A8_4B13_21E7, 0x3732_F4B6_474A_5A2B);
    Crc64Step(Crc64.CRC_START_64_ECMA, 8, 0x3732_F4B6_474A_5A2B, 0x0E32_F4B6_474A_5A2B, 0x6C40_DF5F_0B49_7347);
    Prefixes(8);
  }

  lemma WePasses()
    ensures Crc64.Passes(0xCEFF_FFFF_FFFF_FFFF, 8) == 0x8DB4_7132_29B2_F2A5
    ensures Crc64.Passes(0xBFB4_7132_29B2_F2A5, 8) == 0xF488_D61A_961B_3128
    ensures Crc64.Passes(0xC788_D61A_961B_3128, 8) == 0x2A0B_B93A_7813_CA88
    ensures Crc64.Passes(0x1E0B_B93A_7813_CA88, 8) == 0x3330_2B9F_C238_55A8
    ensures Crc64.Passes(0x0630_2B9F_C238_55A8, 8) == 0xFCF9_3A50_65C3_29F9
    ensures Crc64.Passes(0xCAF9_3A50_65C3_29F9, 8) == 0xC242_B8ED_1B26_187A
    ensures Crc64.Passes(0xF542_B8ED_1B26_187A, 8) == 0xCFC3_0460_A7CC_7B9F
    ensures Crc64.Passes(0xF7C3_0460_A7CC_7B9F, 8) == 0xCB9E_4A0B_1E7B_F3B9
    ensures Crc64.Passes(0xF29E_4A0B_1E7B_F3B9, 8) == 0x9D13_A61C_0E5B_0FF5
  {
  }

  lemma WeCheck()
    ensures Crc64.Complement(Crc64.FoldOf(Crc64.CRC_START_64_WE, DIGITS)) == 0x62EC_59E3_F1A4_F00A
  {
    Crc64Start(Crc64.CRC_START_64_WE);
    hide Crc64.FoldOf, Crc64.Passes;
    WePasses();
    Crc64Step(Crc64.CRC_START_64_WE, 0, 0xFFFF_FFFF_FFFF_FFFF, 0xCEFF_FFFF_FFFF_FFFF, 0x8DB4_7132_29B2_F2A5);
    Crc64Step(Crc64.CRC_START_64_WE, 1, 0x8DB4_7132_29B2_F2A5, 0xBFB4_7132_29B2_F2A5, 0xF488_D61A_961B_3128);
    Crc64Step(Crc64.CRC_START_64_WE, 2, 0xF488_D61A_961B_3128, 0xC788_D61A_961B_3128, 0x2A0B_B93A_7813_CA88);
    Crc64Step(Crc64.CRC_START_64_WE, 3, 0x2A0B_B93A_7813_CA88, 0x1E0B_B93A_7813_CA88, 0x3330_2B9F_C238_55A8);
    Crc64Step(Crc64.CRC_START_64_WE, 4, 0x3330_2B9F_C238_55A8, 0x0630_2B9F_C238_55A8, 0xFCF9_3A50_65C3_29F9);
    Crc64Step(Crc64.CRC_START_64_WE, 5, 0xFCF9_3A50_65C3_29F9, 0xCAF9_3A50_65C3_29F9, 0xC242_B8ED_1B26_187A);
    Crc64Step(Crc64.CRC_START_64_WE, 6, 0xC242_B8ED_1B26_187A, 0xF542_B8ED_1B26_187A, 0xCFC3_0460_A7CC_7B9F);
    Crc64Step(Crc64.CRC_START_64_WE, 7, 0xCFC3_0460_A7CC_7B9F, 0xF7C3_0460_A7CC_7B9F, 0xCB9E_4A0B_1E7B_F3B9);
    Crc64Step(Crc64.CRC_START_64_WE, 8, 0xCB9E_4A0B_1E7B_F3B9, 0xF29E_4A0B_1E7B_F3B9, 0x9D13_A61C_0E5B_0FF5);
    Prefixes(8);
  }

  // ---------------------------------------------------------------- 8 bits, and SICK

  lemma Crc8Step(k: nat, before: bv8, x: bv8, after: bv8)
    requires k < 9 && Crc8.FoldOf(Crc8.CRC_START_8, DIGITS[..k]) == before
    requires x == DIGITS[k] ^ before && Crc8.Eight(x) == after
    ensures Crc8.FoldOf(Crc8.CRC_START_8, DIGITS[..k + 1]) == after
  {
    hide Crc8.Eight;
    assert DIGITS[..k + 1][..k] == DIGITS[..k];
  }

  lemma Crc8Start()
    ensures Crc8.FoldOf(Crc8.CRC_START_8, DIGITS[..0]) == Crc8.CRC_START_8
  {
  }

  lemma Crc8Passes()
    ensures Crc8.Eight(0x31) == 0xF4
    ensures Crc8.Eight(0xC6) == 0xE1
    ensures Crc8.Eight(0xD2) == 0x66
    ensures Crc8.Eight(0x52) == 0x1C
    ensures Crc8.Eight(0x29) == 0x0E
    ensures Crc8.Eight(0x38) == 0x7C
    ensures Crc8.Eight(0x4B) == 0xD7
    ensures Crc8.Eight(0xEF) == 0xEF
    ensures Crc8.Eight(0xD6) == 0xA2
  {
  }

  lemma Crc8Check()
    ensures Crc8.FoldOf(Crc8.CRC_START_8, DIGITS) == 0xA2
  {
    Crc8Start();
    hide Crc8.FoldOf, Crc8.Eight;
    Crc8Passes();
    Crc8Step(0, 0x00, 0x31, 0xF4);
    Crc8Step(1, 0xF4, 0xC6, 0xE1);
    Crc8Step(2, 0xE1, 0xD2, 0x66);
    Crc8Step(3, 0x66, 0x52, 0x1C);
    Crc8Step(4, 0x1C, 0x29, 0x0E);
    Crc8Step(5, 0x0E, 0x38, 0x7C);
    Crc8Step(6, 0x7C, 0x4B, 0xD7);
    Crc8Step(7, 0xD7, 0xEF, 0xEF);
    Crc8Step(8, 0xEF, 0xD6, 0xA2);
    Prefixes(8);
  }

  lemma SickStep(k: nat, before: bv16, prev: bv8, after: bv16)
    requires k < 9 && CrcSick.FoldOf(DIGITS[..k]) == before && CrcSick.Last(DIGITS[..k]) == prev
    requires CrcSick.Turn(before, prev, DIGITS[k]) == after
    ensures CrcSick.FoldOf(DIGITS[..k + 1]) == after && CrcSick.Last(DIGITS[..k + 1]) == DIGITS[k]
  {
    hide CrcSick.FoldOf, CrcSick.Turn;
    Prefixes(k);
    CrcSick.OneMoreTurn(DIGITS[..k], DIGITS[k]);
  }

  lemma SickStart()
    ensures CrcSick.FoldOf(DIGITS[..0]) == CrcSick.CRC_START_SICK && CrcSick.Last(DIGITS[..0]) == 0
  {
  }

  lemma SickTurns()
    ensures CrcSick.Turn(0x0000, 0x00, 0x31) == 0x0031
    ensures CrcSick.Turn(0x0031, 0x31, 0x32) == 0x3150
    ensures CrcSick.Turn(0x3150, 0x32, 0x33) == 0x5093
    ensures CrcSick.Turn(0x5093, 0x33, 0x34) == 0x9212
    ensures CrcSick.Turn(0x9212, 0x34, 0x35) == 0x9014
    ensures CrcSick.Turn(0x9014, 0x35, 0x36) == 0x951B
    ensures CrcSick.Turn(0x951B, 0x36, 0x37) == 0x9C04
    ensures CrcSick.Turn(0x9C04, 0x37, 0x38) == 0x8F35
    ensures CrcSick.Turn(0x8F35, 0x38, 0x39) == 0xA656
  {
  }

  lemma SickCheck()
    ensures ReflectedCrc16.SwapBytes(CrcSick.FoldOf(DIGITS)) == 0x56A6
  {
    SickStart();
    hide CrcSick.FoldOf, CrcSick.Turn;
    SickTurns();
    SickStep(0, 0x0000, 0x00, 0x0031);
    SickStep(1, 0x0031, 0x31, 0x3150);
    SickStep(2, 0x3150, 0x32, 0x5093);
    SickStep(3, 0x5093, 0x33, 0x9212);
    SickStep(4, 0x9212, 0x34, 0x9014);
    SickStep(5, 0x9014, 0x35, 0x951B);
    SickStep(6, 0x951B, 0x36, 0x9C04);
    SickStep(7, 0x9C04, 0x37, 0x8F35);
    SickStep(8, 0x8F35, 0x38, 0xA656);
    Prefixes(8);
  }
}

/** The general laws, for the eleven polynomial CRCs the library offers. */
module CrcTheorems {
  import opened Bits
  import opened Lfsr
  import opened Words
  import opened Messages
  import opened CrcLaws
  import ReflectedCrc16
  import Crc16
  import CrcKermit
  import CrcDnp
  import Crc32
  import CrcCcitt
  import Crc64
  import Crc8

  predicate InLibrary(v: Variant) {
    v == Crc32.CRC_32 || HasParity(v)
  }

  /** The variants whose generator is divisible by x + 1: all but CRC-32. */
  predicate HasParity(v: Variant) {
    || v == Crc16.CRC_16 || v == Crc16.MODBUS || v == CrcKermit.KERMIT || v == CrcDnp.DNP
    || v == CrcCcitt.XMODEM || v == CrcCcitt.CCITT_1D0F || v == CrcCcitt.CCITT_FFFF
    || v == Crc64.ECMA || v == Crc64.WE || v == Crc8.CRC_8
  }

  lemma LibraryValid(v: Variant)
    requires InLibrary(v)
    ensures v.Valid()
  {
    hide LowBits, HighBits;
    Crc32.Crc32Valid();
    Crc16.Crc16Valid();
    CrcKermit.KermitValid();
    CrcDnp.DnpValid();
    CrcCcitt.CcittValid(CrcCcitt.CRC_START_XMODEM);
    CrcCcitt.CcittValid(CrcCcitt.CRC_START_CCITT_1D0F);
    CrcCcitt.CcittValid(CrcCcitt.CRC_START_CCITT_FFFF);
    Crc64.Crc64Valid();
    Crc8.Crc8Valid();
  }

  // ---------------------------------------------------------------- bursts

  /** Every library CRC detects every change confined to as many consecutive bits as it is wide. */
  lemma LibraryBurst(v: Variant, m: seq<bv8>, n: seq<bv8>, first: nat)
    requires InLibrary(v) && |m| == |n|
    requires DifferOnlyWithin(MessageBits(v.lowFirst, m), MessageBits(v.lowFirst, n), first, |v.gen|)
    ensures v.Valid() && (Crc(v, m) == Crc(v, n) <==> m == n)
  {
    hide InLibrary, Run;
    LibraryValid(v);
    BurstLaw(v, m, n, first);
  }

  /** In particular any damage inside one byte. */
  lemma LibraryOneByte(v: Variant, before: seq<bv8>, c: bv8, d: bv8, after: seq<bv8>)
    requires InLibrary(v) && c != d
    ensures v.Valid() && Crc(v, before + [c] + after) != Crc(v, before + [d] + after)
  {
    LibraryValid(v);
    LibraryWidth(v);
    OneByteLaw(v, before, c, d, after);
  }

  lemma LibraryWidth(v: Variant)
    requires InLibrary(v)
    ensures |v.gen| in [8, 16, 32, 64]
  {
    hide LowBits, HighBits;
  }

  // ---------------------------------------------------------------- parity

  lemma ParityOf16(x: bv16)
    ensures Parity(ReflectedCrc16.Low16(x)) == LowFold8(Plus(x as bv64, (x as bv64) >> 8))
    ensures Parity(CrcCcitt.High16(x)) == HighFold8(Plus(CrcCcitt.Up16(x), CrcCcitt.Up16(x) << 8))
  {
    hide LowBits, HighBits, LowFold8, HighFold8;
    LowParity16(x as bv64);
    HighParity16(CrcCcitt.Up16(x));
  }

  function Onto32(x: bv64): bv64 { Plus(x, x << 32) }
  function Onto16(x: bv64): bv64 { Plus(x, x << 16) }
  function Onto8(x: bv64): bv64 { Plus(x, x << 8) }

  lemma Fold32(x: bv64)
    ensures Parity(HighBits(x, 64)) == Parity(HighBits(Onto32(x), 32))
  {
    hide HighBits, Parity;
    HighParity64(x);
  }

  lemma Fold16(x: bv64)
    ensures Parity(HighBits(x, 32)) == Parity(HighBits(Onto16(x), 16))
  {
    hide HighBits, Parity;
    HighParity32(x);
  }

  lemma Fold8(x: bv64)
    ensures Parity(HighBits(x, 16)) == HighFold8(Onto8(x))
  {
    hide HighBits, Parity, HighFold8;
    HighParity16(x);
  }

  lemma ParityOf64(x: bv64)
    ensures Parity(Crc64.High64(x)) == HighFold8(Onto8(Onto16(Onto32(x))))
  {
    hide HighBits, HighFold8, Onto8, Onto16, Onto32;
    Fold32(x);
    Fold16(Onto32(x));
    Fold8(Onto16(Onto32(x)));
  }

  lemma ReflectedGenerators()
    ensures Parity(ReflectedCrc16.Low16(0xA001)) && Parity(ReflectedCrc16.Low16(0x8408))
    ensures Parity(ReflectedCrc16.Low16(0xA6BC))
    ensures !Parity(ReflectedCrc16.Low16(0xFFFF)) && !Parity(ReflectedCrc16.Low16(0))
  {
    hide ReflectedCrc16.Low16;
    ParityOf16(0xA001);
    ParityOf16(0x8408);
    ParityOf16(0xA6BC);
    ParityOf16(0xFFFF);
    ParityOf16(0);
  }

  lemma ForwardGenerators()
    ensures Parity(CrcCcitt.High16(0x1021))
    ensures !Parity(CrcCcitt.High16(0x0000)) && !Parity(CrcCcitt.High16(0x1D0F)) && !Parity(CrcCcitt.High16(0xFFFF))
  {
    hide CrcCcitt.High16;
    ParityOf16(0x1021);
    ParityOf16(0x0000);
    ParityOf16(0x1D0F);
    ParityOf16(0xFFFF);
  }

  lemma LongGenerators()
    ensures Parity(Crc64.High64(Crc64.CRC_POLY_64))
    ensures !Parity(Crc64.High64(0)) && !Parity(Crc64.High64(0xFFFF_FFFF_FFFF_FFFF))
  {
    hide Crc64.High64;
    ParityOf64(Crc64.CRC_POLY_64);
    ParityOf64(0);
    ParityOf64(0xFFFF_FFFF_FFFF_FFFF);
  }

  lemma ByteGenerators()
    ensures Parity(Crc8.High8(0x31)) && !Parity(Crc8.High8(0))
  {
    HighParity8(AtTop(0x31));
    HighParity8(AtTop(0));
    Shl4(AtTop(0x31));
    Shl4(AtTop(0));
    assert HighFold8(AtTop(0x31)) && !HighFold8(AtTop(0));
  }

  predicate EvenConstants(v: Variant) {
    Parity(v.gen) && !Parity(v.start) && !Parity(v.xorOut)
  }

  lemma ReflectedPremises(v: Variant)
    requires v == Crc16.CRC_16 || v == Crc16.MODBUS || v == CrcKermit.KERMIT || v == CrcDnp.DNP
    ensures EvenConstants(v)
  {
    hide ReflectedCrc16.Low16, Parity;
    ReflectedGenerators();
    ParityOfConstants(16);
  }

  lemma ForwardPremises(v: Variant)
    requires v == CrcCcitt.XMODEM || v == CrcCcitt.CCITT_1D0F || v == CrcCcitt.CCITT_FFFF
    ensures EvenConstants(v)
  {
    hide CrcCcitt.High16, Parity;
    ForwardGenerators();
    ParityOfConstants(16);
  }

  lemma OtherPremises(v: Variant)
    requires v == Crc64.ECMA || v == Crc64.WE || v == Crc8.CRC_8
    ensures EvenConstants(v)
  {
    hide Crc64.High64, Crc8.High8, Parity;
    LongGenerators();
    ByteGenerators();
    ParityOfConstants(8);
    ParityOfConstants(64);
  }

  lemma ParityPremises(v: Variant)
    requires HasParity(v)
    ensures v.Valid() && EvenConstants(v)
  {
    LibraryValid(v);
    Premises(v);
  }

  lemma Premises(v: Variant)
    requires HasParity(v)
    ensures EvenConstants(v)
  {
    hide EvenConstants, ReflectedCrc16.Low16, CrcCcitt.High16, Crc64.High64, Crc8.High8;
    if v == Crc64.ECMA || v == Crc64.WE || v == Crc8.CRC_8 {
      OtherPremises(v);
    } else if v == CrcCcitt.XMODEM || v == CrcCcitt.CCITT_1D0F || v == CrcCcitt.CCITT_FFFF {
      ForwardPremises(v);
    } else {
      ReflectedPremises(v);
    }
  }

  /** The CRC has the parity of the message it protects. */
  lemma LibraryParity(v: Variant, msg: seq<bv8>)
    requires HasParity(v)
    ensures v.Valid() && Parity(Crc(v, msg)) == Parity(MessageBits(v.lowFirst, msg))
  {
    hide HasParity, Parity, Run;
    ParityPremises(v);
    ParityLaw(v, msg);
  }

  /** So any odd number of wrong bits is noticed, wherever they are. */
  lemma OddDamageDetected(v: Variant, m: seq<bv8>, n: seq<bv8>)
    requires HasParity(v) && |m| == |n|
    requires Parity(Xor(MessageBits(v.lowFirst, m), MessageBits(v.lowFirst, n)))
    ensures v.Valid() && Crc(v, m) != Crc(v, n)
  {
    hide HasParity, Parity, Run;
    LibraryParity(v, m);
    LibraryParity(v, n);
    ParityXor(MessageBits(v.lowFirst, m), MessageBits(v.lowFirst, n));
  }

  // ---------------------------------------------------------------- residues

  /** The k low bytes of a word, lowest first, and the k bytes below bit 63, highest first. */
  function LowBytes(x: bv64, k: nat): (s: seq<bv8>)
    ensures |s| == k
    decreases k
  {
    if k == 0 then [] else [(x & 0xFF) as bv8] + LowBytes(x >> 8, k - 1)
  }

  function HighBytes(x: bv64, k: nat): (s: seq<bv8>)
    ensures |s| == k
    decreases k
  {
    if k == 0 then [] else [((x >> 56) & 0xFF) as bv8] + HighBytes(x << 8, k - 1)
  }

  lemma LowByteIs(x: bv64)
    ensures ((x & 0xFF) as bv8) as bv64 == x & 0xFF
    ensures x == Plus(x & 0xFF, x & 0xFFFF_FFFF_FFFF_FF00)
    ensures (x & 0xFFFF_FFFF_FFFF_FF00) & 0xFF == 0
  {
  }

  lemma FirstLowByte(x: bv64)
    ensures LowBits(x, 8) == ByteBits(true, (x & 0xFF) as bv8)
  {
    hide LowBits, Plus;
    LowByteIs(x);
    LowXor(x & 0xFF, x & 0xFFFF_FFFF_FFFF_FF00, 8);
    Low8OfClear(x & 0xFFFF_FFFF_FFFF_FF00);
    XorNothing(LowBits(x & 0xFF, 8));
  }

  lemma {:induction false} LowBytesBits(x: bv64, k: nat)
    ensures MessageBits(true, LowBytes(x, k)) == LowBits(x, 8 * k)
    decreases k
  {
    hide LowBits, ByteBits;
    if k > 0 {
      LowBytesBits(x >> 8, k - 1);
      FirstLowByte(x);
      LowSplit(x, 8, 8 * (k - 1));
      Shr8(x);
      assert LowBytes(x, k)[1..] == LowBytes(x >> 8, k - 1);
    } else {
      LowOfZero(0);
      NoLowBits(x);
    }
  }

  lemma NoLowBits(x: bv64)
    ensures LowBits(x, 0) == [] && HighBits(x, 0) == []
  {
  }

  lemma HighByteIs(x: bv64)
    ensures AtTop(((x >> 56) & 0xFF) as bv8) == x & 0xFF00_0000_0000_0000
    ensures x == Plus(x & 0xFF00_0000_0000_0000, x & 0x00FF_FFFF_FFFF_FFFF)
    ensures (x & 0x00FF_FFFF_FFFF_FFFF) & 0xFF00_0000_0000_0000 == 0
  {
  }

  lemma FirstHighByte(x: bv64)
    ensures HighBits(x, 8) == ByteBits(false, ((x >> 56) & 0xFF) as bv8)
  {
    hide HighBits, Plus, AtTop;
    HighByteIs(x);
    HighXor(x & 0xFF00_0000_0000_0000, x & 0x00FF_FFFF_FFFF_FFFF, 8);
    High8OfClear(x & 0x00FF_FFFF_FFFF_FFFF);
    XorNothing(HighBits(x & 0xFF00_0000_0000_0000, 8));
  }

  lemma {:induction false} HighBytesBits(x: bv64, k: nat)
    ensures MessageBits(false, HighBytes(x, k)) == HighBits(x, 8 * k)
    decreases k
  {
    hide HighBits, ByteBits;
    if k > 0 {
      HighBytesBits(x << 8, k - 1);
      FirstHighByte(x);
      HighSplit(x, 8, 8 * (k - 1));
      Shl8(x);
      assert HighBytes(x, k)[1..] == HighBytes(x << 8, k - 1);
    } else {
      NoLowBits(x);
    }
  }

  /** Appending a 16-bit reflected result low byte first leaves the residue, and no other two bytes do. */
  lemma LowFirstResidue16(v: Variant, msg: seq<bv8>, crc: bv16, trailer: seq<bv8>)
    requires v.Valid() && v.lowFirst && |v.gen| == 16 && |trailer| == 2
    requires ReflectedCrc16.Low16(crc) == Crc(v, msg)
    ensures Register(v, msg + trailer) == Residue(v) <==> trailer == LowBytes(crc as bv64, 2)
  {
    hide LowBits, LowBytes;
    LowBytesBits(crc as bv64, 2);
    ResidueLaw(v, msg, trailer);
    MessageBitsInjective(true, trailer, LowBytes(crc as bv64, 2));
  }

  lemma LowFirstResidue32(msg: seq<bv8>, trailer: seq<bv8>)
    requires |trailer| == 4
    ensures Crc32.CRC_32.Valid()
    ensures Register(Crc32.CRC_32, msg + trailer) == Residue(Crc32.CRC_32)
       <==> trailer == LowBytes(Crc32.Crc32Of(msg) as bv64, 4)
  {
    hide LowBits, LowBytes, Crc32.Fold;
    Crc32.Crc32Bits(msg);
    LowBytesBits(Crc32.Crc32Of(msg) as bv64, 4);
    ResidueLaw(Crc32.CRC_32, msg, trailer);
    MessageBitsInjective(true, trailer, LowBytes(Crc32.Crc32Of(msg) as bv64, 4));
  }

  /** Kermit and DNP return the swapped word, so appending what they return high byte first leaves the
      residue, and no other two bytes do. */
  lemma SwappedResidue16(v: Variant, msg: seq<bv8>, word: bv16, trailer: seq<bv8>)
    requires v.Valid() && v.lowFirst && |v.gen| == 16 && |trailer| == 2
    requires ReflectedCrc16.Low16(ReflectedCrc16.SwapBytes(word)) == Crc(v, msg)
    ensures Register(v, msg + trailer) == Residue(v) <==> trailer == [HighByte(word), LowByte(word)]
  {
    hide Register, Crc, Residue, ReflectedCrc16.Low16, ReflectedCrc16.SwapBytes, LowByte, HighByte;
    SwappedBytes(word);
    LowFirstPair(v, msg, ReflectedCrc16.SwapBytes(word), trailer, LowByte(word), HighByte(word));
  }

  lemma LowFirstPair(v: Variant, msg: seq<bv8>, crc: bv16, trailer: seq<bv8>, high: bv8, low: bv8)
    requires v.Valid() && v.lowFirst && |v.gen| == 16 && |trailer| == 2
    requires ReflectedCrc16.Low16(crc) == Crc(v, msg) && LowByte(crc) == low && HighByte(crc) == high
    ensures Register(v, msg + trailer) == Residue(v) <==> trailer == [low, high]
  {
    hide LowBits, LowByte, HighByte, LowBytes;
    LowFirstResidue16(v, msg, crc, trailer);
    LowTwoBytes(crc);
  }

  lemma SwappedBytes(word: bv16)
    ensures LowByte(ReflectedCrc16.SwapBytes(word)) == HighByte(word)
    ensures HighByte(ReflectedCrc16.SwapBytes(word)) == LowByte(word)
  {
  }

  lemma LowTwoBytes(x: bv16)
    ensures LowBytes(x as bv64, 2) == [LowByte(x), HighByte(x)]
  {
    hide LowByte, HighByte;
    TwoBytes(x);
    assert LowBytes(((x as bv64) >> 8) >> 8, 0) == [];
  }

  /** Appending a 16-bit shift-left result high byte first. */
  lemma HighFirstResidue16(v: Variant, msg: seq<bv8>, crc: bv16, trailer: seq<bv8>)
    requires v.Valid() && !v.lowFirst && |v.gen| == 16 && |trailer| == 2
    requires CrcCcitt.High16(crc) == Crc(v, msg)
    ensures Register(v, msg + trailer) == Residue(v) <==> trailer == HighBytes(CrcCcitt.Up16(crc), 2)
  {
    hide HighBits, HighBytes, CrcCcitt.Up16;
    HighBytesBits(CrcCcitt.Up16(crc), 2);
    ResidueLaw(v, msg, trailer);
    MessageBitsInjective(false, trailer, HighBytes(CrcCcitt.Up16(crc), 2));
  }

  lemma HighFirstResidue64(v: Variant, msg: seq<bv8>, crc: bv64, trailer: seq<bv8>)
    requires v == Crc64.ECMA || v == Crc64.WE
    requires |trailer| == 8 && v.Valid() && Crc64.High64(crc) == Crc(v, msg)
    ensures Register(v, msg + trailer) == Residue(v) <==> trailer == HighBytes(crc, 8)
  {
    hide HighBits, HighBytes;
    HighBytesBits(crc, 8);
    ResidueLaw(v, msg, trailer);
    MessageBitsInjective(false, trailer, HighBytes(crc, 8));
  }

  // ---------------------------------------------------------------- start values

  /** Within each family the variants differ by an amount that only the length decides. */
  lemma FamiliesDifferByLength(m: seq<bv8>, n: seq<bv8>)
    requires |m| == |n|
    ensures Crc16.CRC_16.Valid() && Crc16.MODBUS.Valid() && Crc64.ECMA.Valid() && Crc64.WE.Valid()
    ensures CrcCcitt.XMODEM.Valid() && CrcCcitt.CCITT_FFFF.Valid() && CrcCcitt.CCITT_1D0F.Valid()
    ensures Xor(Crc(Crc16.CRC_16, m), Crc(Crc16.MODBUS, m)) == Xor(Crc(Crc16.CRC_16, n), Crc(Crc16.MODBUS, n))
    ensures Xor(Crc(Crc64.ECMA, m), Crc(Crc64.WE, m)) == Xor(Crc(Crc64.ECMA, n), Crc(Crc64.WE, n))
    ensures Xor(Crc(CrcCcitt.XMODEM, m), Crc(CrcCcitt.CCITT_FFFF, m))
         == Xor(Crc(CrcCcitt.XMODEM, n), Crc(CrcCcitt.CCITT_FFFF, n))
    ensures Xor(Crc(CrcCcitt.XMODEM, m), Crc(CrcCcitt.CCITT_1D0F, m))
         == Xor(Crc(CrcCcitt.XMODEM, n), Crc(CrcCcitt.CCITT_1D0F, n))
  {
    hide LowBits, HighBits, Crc;
    LibraryValid(Crc16.CRC_16);
    LibraryValid(Crc16.MODBUS);
    LibraryValid(Crc64.ECMA);
    LibraryValid(Crc64.WE);
    LibraryValid(CrcCcitt.XMODEM);
    LibraryValid(CrcCcitt.CCITT_FFFF);
    LibraryValid(CrcCcitt.CCITT_1D0F);
    StartValueLaw(Crc16.CRC_16, Crc16.MODBUS, m, n);
    StartValueLaw(Crc64.ECMA, Crc64.WE, m, n);
    StartValueLaw(CrcCcitt.XMODEM, CrcCcitt.CCITT_FFFF, m, n);
    StartValueLaw(CrcCcitt.XMODEM, CrcCcitt.CCITT_1D0F, m, n);
  }

  // ---------------------------------------------------------------- Kermit and XModem

  /** A byte with its bits in the opposite order. */
  function Rev8(c: bv8): bv8 {
    ((c & 0x01) << 7) | ((c & 0x02) << 5) | ((c & 0x04) << 3) | ((c & 0x08) << 1)
    | ((c & 0x10) >> 1) | ((c & 0x20) >> 3) | ((c & 0x40) >> 5) | ((c & 0x80) >> 7)
  }

  function RevMessage(msg: seq<bv8>): (s: seq<bv8>)
    ensures |s| == |msg| && forall i | 0 <= i < |msg| :: s[i] == Rev8(msg[i])
  {
    seq(|msg|, i requires 0 <= i < |msg| => Rev8(msg[i]))
  }

  lemma RevLow(c: bv8)
    ensures var x, y := c as bv64, AtTop(Rev8(c));
      && Odd(x) == Top(y)
      && Odd(Half(x)) == Top(Double(y))
      && Odd(Half(Half(x))) == Top(Double(Double(y)))
      && Odd(Half(Half(Half(x)))) == Top(Double(Double(Double(y))))
      && Odd(Half(Half(Half(Half(x))))) == Top(Double(Double(Double(Double(y)))))
      && Odd(Half(Half(Half(Half(Half(x)))))) == Top(Double(Double(Double(Double(Double(y))))))
      && Odd(Half(Half(Half(Half(Half(Half(x))))))) == Top(Double(Double(Double(Double(Double(Double(y)))))))
      && Odd(Half(Half(Half(Half(Half(Half(Half(x))))))))
         == Top(Double(Double(Double(Double(Double(Double(Double(y))))))))
  {
  }

  lemma FourAgree(x: bv64, y: bv64)
    requires Odd(x) == Top(y) && Odd(Half(x)) == Top(Double(y))
    requires Odd(Half(Half(x))) == Top(Double(Double(y)))
    requires Odd(Half(Half(Half(x)))) == Top(Double(Double(Double(y))))
    ensures LowBits(x, 4) == HighBits(y, 4)
  {
    hide Odd, Half, Top, Double;
    assert LowBits(Half(Half(Half(x))), 1) == HighBits(Double(Double(Double(y))), 1);
    assert LowBits(Half(Half(x)), 2) == HighBits(Double(Double(y)), 2);
    assert LowBits(Half(x), 3) == HighBits(Double(y), 3);
  }

  lemma EightAgree(x: bv64, y: bv64)
    requires LowBits(x, 4) == HighBits(y, 4) && LowBits(Shr(x, 4), 4) == HighBits(Shl(y, 4), 4)
    ensures LowBits(x, 8) == HighBits(y, 8)
  {
    LowSplit(x, 4, 4);
    HighSplit(y, 4, 4);
  }

  lemma FourRev(c: bv8)
    ensures LowBits(c as bv64, 4) == HighBits(AtTop(Rev8(c)), 4)
    ensures LowBits(Half(Half(Half(Half(c as bv64)))), 4) == HighBits(Double(Double(Double(Double(AtTop(Rev8(c)))))), 4)
  {
    hide Odd, Half, Top, Double, Rev8, AtTop, LowBits, HighBits;
    var x, y := c as bv64, AtTop(Rev8(c));
    RevLow(c);
    FourAgree(x, y);
    FourAgree(Half(Half(Half(Half(x)))), Double(Double(Double(Double(y)))));
  }

  /** Reading a byte low bit first is reading its reversal high bit first. */
  lemma RevByteBits(c: bv8)
    ensures ByteBits(true, c) == ByteBits(false, Rev8(c))
  {
    hide Odd, Half, Top, Double, Rev8, AtTop, LowBits, HighBits, Shr, Shl;
    var x, y := c as bv64, AtTop(Rev8(c));
    FourRev(c);
    Shr4(x);
    Shl4(y);
    EightAgree(x, y);
  }

  lemma {:induction false} RevMessageBits(msg: seq<bv8>)
    ensures MessageBits(true, msg) == MessageBits(false, RevMessage(msg))
  {
    hide ByteBits, Rev8;
    if msg == [] {
    } else {
      RevByteBits(msg[0]);
      RevMessageBits(msg[1..]);
      assert RevMessage(msg)[1..] == RevMessage(msg[1..]);
    }
  }

  lemma TwoLowBytes(x: bv16)
    ensures ReflectedCrc16.Low16(x) == ByteBits(true, LowByte(x)) + ByteBits(true, HighByte(x))
  {
    hide LowBits;
    var y := x as bv64;
    LowSplit(y, 8, 8);
    Shr8(y);
    FirstLowByte(y);
    FirstLowByte(y >> 8);
    TwoBytes(x);
  }

  lemma TwoBytes(x: bv16)
    ensures ((x as bv64) & 0xFF) as bv8 == LowByte(x)
    ensures (((x as bv64) >> 8) & 0xFF) as bv8 == HighByte(x)
  {
  }

  lemma TwoHighBytes(a: bv8, b: bv8)
    ensures CrcCcitt.High16(Join(a, b)) == ByteBits(false, a) + ByteBits(false, b)
  {
    hide HighBits;
    var y := CrcCcitt.Up16(Join(a, b));
    HighSplit(y, 8, 8);
    Shl8(y);
    FirstHighByte(y);
    FirstHighByte(y << 8);
    TwoUpBytes(a, b, y);
  }

  lemma TwoUpBytes(a: bv8, b: bv8, y: bv64)
    requires y == CrcCcitt.Up16(Join(a, b))
    ensures ((y >> 56) & 0xFF) as bv8 == a && (((y << 8) >> 56) & 0xFF) as bv8 == b
  {
  }

  function Join(a: bv8, b: bv8): bv16 {
    ((a as bv16) << 8) | (b as bv16)
  }

  function LowByte(x: bv16): bv8 { (x & 0x00FF) as bv8 }

  function HighByte(x: bv16): bv8 { (x >> 8) as bv8 }

  /** A word with its sixteen bits in the opposite order. */
  function Rev16(x: bv16): bv16 {
    Join(Rev8(LowByte(x)), Rev8(HighByte(x)))
  }

  lemma Rev16Bits(x: bv16)
    ensures ReflectedCrc16.Low16(x) == CrcCcitt.High16(Rev16(x))
  {
    hide ByteBits, Rev8, ReflectedCrc16.Low16, CrcCcitt.High16, Join, LowByte, HighByte;
    TwoLowBytes(x);
    RevByteBits(LowByte(x));
    RevByteBits(HighByte(x));
    TwoHighBytes(Rev8(LowByte(x)), Rev8(HighByte(x)));
  }

  /** The Kermit polynomial is the CCITT polynomial read from the other end. */
  lemma SameGenerator()
    ensures CrcKermit.KERMIT.gen == CrcCcitt.XMODEM.gen && CrcKermit.KERMIT.start == CrcCcitt.XMODEM.start
  {
    hide ReflectedCrc16.Low16, CrcCcitt.High16;
    Rev16Bits(0x8408);
    Rev16Bits(0);
    assert Rev16(0x8408) == 0x1021 && Rev16(0) == 0;
  }

  /** Kermit of a message, with its bytes put back in order, is the reversal of XModem of the
      message with every byte reversed. */
  lemma KermitIsReversedXmodem(msg: seq<bv8>, kermit: bv16, xmodem: bv16)
    ensures CrcKermit.KERMIT.Valid() && CrcCcitt.XMODEM.Valid()
    ensures ReflectedCrc16.Low16(ReflectedCrc16.SwapBytes(kermit)) == Crc(CrcKermit.KERMIT, msg) ==>
              (CrcCcitt.High16(xmodem) == Crc(CrcCcitt.XMODEM, RevMessage(msg))
               <==> Rev16(ReflectedCrc16.SwapBytes(kermit)) == xmodem)
  {
    CrcKermit.KermitValid();
    CrcCcitt.CcittValid(CrcCcitt.CRC_START_XMODEM);
    hide ReflectedCrc16.Low16, CrcCcitt.High16, Run, Rev16, ReflectedCrc16.SwapBytes;
    SameGenerator();
    RevMessageBits(msg);
    Rev16Bits(ReflectedCrc16.SwapBytes(kermit));
    CrcCcitt.High16Injective(Rev16(ReflectedCrc16.SwapBytes(kermit)), xmodem);
  }

  /** So for the registers themselves: one C loop computes the reversal of the other. */
  lemma KermitLoopIsReversedXmodemLoop(msg: seq<bv8>)
    ensures Rev16(ReflectedCrc16.FoldOf(CrcKermit.CRC_POLY_KERMIT, CrcKermit.CRC_START_KERMIT, msg))
         == CrcCcitt.FoldOf(CrcCcitt.CRC_START_XMODEM, RevMessage(msg))
  {
    var k := ReflectedCrc16.FoldOf(CrcKermit.CRC_POLY_KERMIT, CrcKermit.CRC_START_KERMIT, msg);
    var x := CrcCcitt.FoldOf(CrcCcitt.CRC_START_XMODEM, RevMessage(msg));
    hide ReflectedCrc16.Low16, CrcCcitt.High16, Run, Rev16, ReflectedCrc16.FoldOf, CrcCcitt.FoldOf;
    SameGenerator();
    RevMessageBits(msg);
    ReflectedCrc16.FoldBits(CrcKermit.CRC_POLY_KERMIT, CrcKermit.CRC_START_KERMIT, msg);
    CrcCcitt.FoldBits(CrcCcitt.CRC_START_XMODEM, RevMessage(msg));
    Rev16Bits(k);
    CrcCcitt.High16Injective(Rev16(k), x);
  }
}

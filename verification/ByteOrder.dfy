/** Byte order: what htonl, shifts and masks of Chat/src/task.c do to an address or a header field. */
module ByteOrder {

  function Swap32(x: bv32): bv32 {
    (x << 24) | ((x & 0x0000_FF00) << 8) | ((x & 0x00FF_0000) >> 8) | (x >> 24)
  }

  /** htonl and ntohl, on a little-endian or a big-endian host. */
  function Htonl(x: bv32, little: bool): bv32 {
    if little then Swap32(x) else x
  }

  /** The four bytes the encoding loops write, most significant first. */
  function Byte0(x: bv32): bv8 { ((x & 0xFF00_0000) >> 24) as bv8 }
  function Byte1(x: bv32): bv8 { ((x & 0x00FF_0000) >> 16) as bv8 }
  function Byte2(x: bv32): bv8 { ((x & 0x0000_FF00) >> 8) as bv8 }
  function Byte3(x: bv32): bv8 { (x & 0x0000_00FF) as bv8 }

  /** The four bytes put together again by the decoding loops. */
  function FromBytes(a: bv8, b: bv8, c: bv8, d: bv8): bv32 {
    ((a as bv32) << 24) | ((b as bv32) << 16) | ((c as bv32) << 8) | (d as bv32)
  }

  /** The bytes of a word as they lie in memory, lowest address first. */
  function InMemory(x: bv32, little: bool): (s: seq<bv8>)
    ensures |s| == 4
  {
    if little then [Byte3(x), Byte2(x), Byte1(x), Byte0(x)]
    else [Byte0(x), Byte1(x), Byte2(x), Byte3(x)]
  }

  function Load(s: seq<bv8>, little: bool): bv32
    requires |s| == 4
  {
    if little then FromBytes(s[3], s[2], s[1], s[0]) else FromBytes(s[0], s[1], s[2], s[3])
  }

  lemma BytesOfWord(a: bv8, b: bv8, c: bv8, d: bv8)
    ensures var x := FromBytes(a, b, c, d);
            Byte0(x) == a && Byte1(x) == b && Byte2(x) == c && Byte3(x) == d
  {
  }

  lemma WordOfBytes(x: bv32)
    ensures FromBytes(Byte0(x), Byte1(x), Byte2(x), Byte3(x)) == x
  {
  }

  lemma SwappedBytes(x: bv32)
    ensures Byte0(Swap32(x)) == Byte3(x) && Byte1(Swap32(x)) == Byte2(x)
    ensures Byte2(Swap32(x)) == Byte1(x) && Byte3(Swap32(x)) == Byte0(x)
  {
  }

  lemma SwapFromBytes(a: bv8, b: bv8, c: bv8, d: bv8)
    ensures Swap32(FromBytes(a, b, c, d)) == FromBytes(d, c, b, a)
  {
  }

  /** The bytes written for htonl(x), most significant first, are the bytes of x in the sender's memory. */
  lemma EncodedIsMemory(x: bv32, little: bool)
    ensures var y := Htonl(x, little);
            [Byte0(y), Byte1(y), Byte2(y), Byte3(y)] == InMemory(x, little)
  {
    hide Byte0, Byte1, Byte2, Byte3, Swap32;
    SwappedBytes(x);
  }

  /** ntohl of the bytes put together loads them as the receiver's memory holds them. */
  lemma DecodedIsLoad(a: bv8, b: bv8, c: bv8, d: bv8, little: bool)
    ensures Htonl(FromBytes(a, b, c, d), little) == Load([a, b, c, d], little)
  {
    hide FromBytes, Swap32;
    SwapFromBytes(a, b, c, d);
  }

  /** Loading and storing on one host are inverse, so the bytes an address has in memory are
      the same on both hosts, whatever their byte orders. */
  lemma LoadStores(s: seq<bv8>, little: bool)
    requires |s| == 4
    ensures InMemory(Load(s, little), little) == s
  {
    hide Byte0, Byte1, Byte2, Byte3, FromBytes;
    BytesOfWord(s[0], s[1], s[2], s[3]);
    BytesOfWord(s[3], s[2], s[1], s[0]);
  }

  lemma StoreLoads(x: bv32, little: bool)
    ensures Load(InMemory(x, little), little) == x
  {
    hide Byte0, Byte1, Byte2, Byte3, FromBytes;
    WordOfBytes(x);
  }

  /** A header word converted by the sender, carried as bytes and converted back by the receiver. */
  lemma HeaderWord(x: bv32, sender: bool, receiver: bool)
    ensures Htonl(Load(InMemory(Htonl(x, sender), sender), receiver), receiver) == x
  {
    hide Byte0, Byte1, Byte2, Byte3, FromBytes, Swap32;
    SwappedBytes(x);
    WordOfBytes(x);
    SwapFromBytes(Byte3(x), Byte2(x), Byte1(x), Byte0(x));
  }

  // ---------------------------------------------------------------- the 16-bit header field

  newtype uint8 = x: int | 0 <= x < 0x100
  newtype uint16 = x: int | 0 <= x < 0x1_0000

  function HighHalf(x: uint16): uint8 { (x / 0x100) as uint8 }
  function LowHalf(x: uint16): uint8 { (x % 0x100) as uint8 }
  function FromHalves(a: uint8, b: uint8): uint16 { (a as uint16) * 0x100 + b as uint16 }

  /** htons and ntohs. */
  function Htons(x: uint16, little: bool): uint16 {
    if little then FromHalves(LowHalf(x), HighHalf(x)) else x
  }

  function InMemory16(x: uint16, little: bool): (s: seq<uint8>)
    ensures |s| == 2
  {
    if little then [LowHalf(x), HighHalf(x)] else [HighHalf(x), LowHalf(x)]
  }

  function Load16(s: seq<uint8>, little: bool): uint16
    requires |s| == 2
  {
    if little then FromHalves(s[1], s[0]) else FromHalves(s[0], s[1])
  }

  lemma HeaderHalf(x: uint16, sender: bool, receiver: bool)
    ensures Htons(Load16(InMemory16(Htons(x, sender), sender), receiver), receiver) == x
  {
    hide HighHalf, LowHalf, FromHalves;
    Halves(x);
    HalvesOf(LowHalf(x), HighHalf(x));
    HalvesOf(HighHalf(x), LowHalf(x));
  }

  lemma Halves(x: uint16)
    ensures FromHalves(HighHalf(x), LowHalf(x)) == x
  {
  }

  lemma HalvesOf(a: uint8, b: uint8)
    ensures HighHalf(FromHalves(a, b)) == a && LowHalf(FromHalves(a, b)) == b
  {
  }

  // ---------------------------------------------------------------- what is on the wire

  /** Which byte is which. */
  lemma MostSignificantFirst(x: bv32)
    ensures Byte0(x) as bv32 == x >> 24 && Byte1(x) as bv32 == (x >> 16) & 0xFF
    ensures Byte2(x) as bv32 == (x >> 8) & 0xFF && Byte3(x) as bv32 == x & 0xFF
  {
  }

  /** The lowest address holds the least significant byte on a little-endian host only. */
  lemma MemoryOrder(x: bv32, y: uint16)
    ensures InMemory(x, true)[0] as bv32 == x & 0xFF && InMemory(x, false)[0] as bv32 == x >> 24
    ensures InMemory16(y, true)[0] as int == y as int % 0x100 && InMemory16(y, false)[0] as int == y as int / 0x100
  {
    hide Byte0, Byte1, Byte2, Byte3;
    MostSignificantFirst(x);
  }

  /** A converted header word goes out most significant byte first, from either kind of host. */
  lemma WordOnTheWire(x: bv32, little: bool)
    ensures InMemory(Htonl(x, little), little) == [Byte0(x), Byte1(x), Byte2(x), Byte3(x)]
  {
    hide Byte0, Byte1, Byte2, Byte3, Swap32;
    SwappedBytes(x);
  }

  /** And so does the converted length. */
  lemma HalfOnTheWire(x: uint16, little: bool)
    ensures InMemory16(Htons(x, little), little) == [(x / 0x100) as uint8, (x % 0x100) as uint8]
  {
    HalvesOf(LowHalf(x), HighHalf(x));
  }
}

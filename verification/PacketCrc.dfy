/** The packet header of Chat/src/packet.h and the check recv_from_client makes of it. */
module PacketCrc {
  import opened ByteOrder
  import opened Packets
  import opened Messages
  import opened Crc32
  import CrcTheorems
  import Lfsr

  /** A packet as the bytes on the wire; the two integers of the header in their memory order. */
  datatype Packet = Packet(version: bv8, typ: bv8, length: seq<uint8>, crc: seq<bv8>, payload: seq<bv8>)

  /** The header is right for the first size bytes of the payload. */
  ghost predicate Sealed(p: Packet, size: uint16, little: bool) {
    && p.version == VERSION && |p.payload| == PAYLOAD_SIZE && size as nat <= PAYLOAD_SIZE
    && p.length == InMemory16(Htons(size, little), little)
    && p.crc == InMemory(Htonl(Crc32Of(p.payload[..size as nat]), little), little)
  }

  /** The same header byte by byte: most significant byte first, whatever the host. */
  ghost predicate OnTheWire(p: Packet, size: uint16) {
    && p.version == 1
    && p.length == [(size / 0x100) as uint8, (size % 0x100) as uint8]
    && |p.crc| == 4 && size as nat <= |p.payload|
    && var crc := Crc32Of(p.payload[..size as nat]);
       && p.crc[0] as bv32 == crc >> 24 && p.crc[1] as bv32 == (crc >> 16) & 0xFF
       && p.crc[2] as bv32 == (crc >> 8) & 0xFF && p.crc[3] as bv32 == crc & 0xFF
  }

  /** The length a receiver reads, and the check value. */
  function LengthRead(p: Packet, little: bool): (n: uint16)
    requires |p.length| == 2
  {
    Htons(Load16(p.length, little), little)
  }

  function CrcRead(p: Packet, little: bool): bv32
    requires |p.crc| == 4
  {
    Htonl(Load(p.crc, little), little)
  }

  /** Building the header, as every sender but send_error does. */
  method Seal(table: Crc32Table, typ: bv8, payload: array<bv8>, size: uint16, little: bool) returns (p: Packet)
    requires table.Valid() && payload.Length == PAYLOAD_SIZE && size as nat <= PAYLOAD_SIZE
    ensures Sealed(p, size, little) && p.typ == typ && p.payload == payload[..]
    ensures OnTheWire(p, size)
  {
    hide InMemory, InMemory16, Htonl, Htons, Crc32Of, Byte0, Byte1, Byte2, Byte3;
    HalfOnTheWire(size, little);
    var crc := table.Crc32(payload, size as nat);
    assert payload[..][..size as nat] == payload[..size as nat];
    WordOnTheWire(crc, little);
    MostSignificantFirst(crc);
    p := Packet(VERSION, typ, InMemory16(Htons(size, little), little), InMemory(Htonl(crc, little), little),
                payload[..]);
  }

  method CrcIsEqual(table: Crc32Table, strToCheck: array<bv8>, strLength: nat, crcToCheck: bv32) returns (equal: bool)
    requires table.Valid() && strLength <= strToCheck.Length
    ensures equal <==> Crc32Of(strToCheck[..strLength]) == crcToCheck
  {
    var crc := table.Crc32(strToCheck, strLength);
    equal := crc == crcToCheck;
  }

  /** What a receiver's check comes to. */
  ghost predicate PassesCheck(p: Packet, little: bool)
    requires |p.length| == 2 && |p.crc| == 4 && LengthRead(p, little) as nat <= |p.payload|
  {
    Crc32Of(p.payload[..LengthRead(p, little) as nat]) == CrcRead(p, little)
  }

  lemma HeaderRead(p: Packet, size: uint16, sender: bool, receiver: bool)
    requires Sealed(p, size, sender)
    ensures LengthRead(p, receiver) == size && CrcRead(p, receiver) == Crc32Of(p.payload[..size as nat])
  {
    hide InMemory, InMemory16, Htonl, Htons, Load, Load16, Crc32Of;
    HeaderHalf(size, sender, receiver);
    HeaderWord(Crc32Of(p.payload[..size as nat]), sender, receiver);
  }

  /** An undamaged packet passes, whatever the byte orders of the two hosts. */
  lemma UndamagedPasses(p: Packet, size: uint16, sender: bool, receiver: bool)
    requires Sealed(p, size, sender)
    ensures LengthRead(p, receiver) == size && PassesCheck(p, receiver)
  {
    HeaderRead(p, size, sender, receiver);
  }

  lemma Crc32Burst(m: seq<bv8>, n: seq<bv8>, first: nat)
    requires |m| == |n| && Lfsr.DifferOnlyWithin(MessageBits(true, m), MessageBits(true, n), first, 32)
    ensures Crc32Of(m) == Crc32Of(n) <==> m == n
  {
    hide *;
    Crc32IsVariant();
    CrcTheorems.LibraryBurst(CRC_32, m, n, first);
    Crc32Bits(m);
    Crc32Bits(n);
    Low32Injective(Crc32Of(m), Crc32Of(n));
  }

  lemma Crc32IsVariant()
    ensures CrcTheorems.InLibrary(CRC_32) && CRC_32.lowFirst && |CRC_32.gen| == 32
  {
    hide Low32;
    hide CrcTheorems.HasParity;
  }

  /** Damage to the covered bytes that stays within 32 consecutive bits, lowest bit of each byte
      first, passes exactly when it is no damage. Bytes beyond size are not covered at all. */
  lemma BurstIsCaught(p: Packet, damaged: seq<bv8>, size: uint16, first: nat, sender: bool, receiver: bool)
    requires Sealed(p, size, sender) && |damaged| == PAYLOAD_SIZE
    requires Lfsr.DifferOnlyWithin(MessageBits(true, p.payload[..size as nat]),
                                   MessageBits(true, damaged[..size as nat]), first, 32)
    ensures var q := p.(payload := damaged);
            && LengthRead(q, receiver) == size
            && (PassesCheck(q, receiver) <==> damaged[..size as nat] == p.payload[..size as nat])
  {
    hide Crc32Of, MessageBits, Lfsr.DifferOnlyWithin;
    HeaderRead(p, size, sender, receiver);
    Crc32Burst(p.payload[..size as nat], damaged[..size as nat], first);
  }
}

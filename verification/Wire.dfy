/** What a payload says, apart from the byte orders of the two hosts and the padding of the names. */
module Wire {
  import opened ByteOrder
  import opened Members
  import opened Packets

  /** A member as every host can name it: the address in network order, the name without padding. */
  function Global(m: Member, little: bool): Member {
    Member(Htonl(m.ip, little), CString(m.id))
  }

  function Globals(s: seq<Member>, little: bool): (t: seq<Member>)
    ensures |t| == |s| && forall i | 0 <= i < |s| :: t[i] == Global(s[i], little)
  {
    seq(|s|, i requires 0 <= i < |s| => Global(s[i], little))
  }

  /** The members a payload lists, as every host can name them. */
  ghost function Meaning(bytes: seq<bv8>): (s: seq<Member>)
    requires Readable(bytes)
    ensures |s| == bytes[0] as int <= MAX_MEMBERS
  {
    Globals(Decode(bytes, bytes[0] as int, false), false)
  }

  // ---------------------------------------------------------------- byte orders

  lemma SwapTwice(x: bv32)
    ensures Swap32(Swap32(x)) == x
  {
  }

  lemma HtonlInjective(x: bv32, y: bv32, little: bool)
    ensures Htonl(x, little) == Htonl(y, little) <==> x == y
  {
    hide Swap32;
    SwapTwice(x);
    SwapTwice(y);
  }

  /** Whatever host loads four bytes, its network-order view of them is the same. */
  lemma LoadIsGlobal(s: seq<bv8>, little: bool)
    requires |s| == 4
    ensures Htonl(Load(s, little), little) == Load(s, false)
  {
    hide FromBytes, Swap32;
    SwapFromBytes(s[3], s[2], s[1], s[0]);
  }

  lemma StoreIsGlobal(x: bv32, little: bool)
    ensures Load(InMemory(x, little), false) == Htonl(x, little)
  {
    LoadIsGlobal(InMemory(x, little), little);
    StoreLoads(x, little);
  }

  // ---------------------------------------------------------------- lists seen globally

  lemma {:induction false} CStringTwice(id: seq<bv8>)
    ensures CString(CString(id)) == CString(id)
  {
    if id != [] && id[0] != 0 {
      CStringTwice(id[1..]);
      assert ([id[0]] + CString(id[1..]))[1..] == CString(id[1..]);
    }
  }

  lemma GlobalClashes(m: Member, n: Member, little: bool)
    ensures Clashes(Global(m, little), Global(n, little)) == Clashes(m, n)
  {
    hide Htonl;
    CStringTwice(m.id);
    CStringTwice(n.id);
    HtonlInjective(m.ip, n.ip, little);
  }

  lemma GlobalDistinct(s: seq<Member>, little: bool)
    ensures Distinct(Globals(s, little)) == Distinct(s)
  {
    hide Clashes, Global;
    forall i, j | 0 <= i < j < |s|
      ensures Clashes(Globals(s, little)[i], Globals(s, little)[j]) == Clashes(s[i], s[j])
    {
      GlobalClashes(s[i], s[j], little);
    }
  }

  lemma GlobalAdd(s: seq<Member>, m: Member, little: bool)
    ensures Globals(Add(s, m), little) == Add(Globals(s, little), Global(m, little))
  {
    hide Clashes, Global;
    forall i | 0 <= i < |s|
      ensures Clashes(Globals(s, little)[i], Global(m, little)) == Clashes(s[i], m)
    {
      GlobalClashes(s[i], m, little);
    }
    if Free(s, m) {
      assert Free(Globals(s, little), Global(m, little));
      assert Globals(s + [m], little) == Globals(s, little) + [Global(m, little)];
    } else {
      var i :| 0 <= i < |s| && Clashes(s[i], m);
      assert Clashes(Globals(s, little)[i], Global(m, little));
    }
  }

  /** Neither byte order nor what a buffer holds after its NUL matters to merging. */
  lemma {:induction false} GlobalMerge(s: seq<Member>, batch: seq<Member>, little: bool)
    ensures Globals(Merge(s, batch), little) == Merge(Globals(s, little), Globals(batch, little))
    decreases |batch|
  {
    if batch == [] {
    } else {
      hide Add, Global, Globals, Distinct;
      GlobalAdd(s, batch[0], little);
      GlobalMerge(Add(s, batch[0]), batch[1..], little);
      GlobalTail(batch, little);
    }
  }

  lemma GlobalTail(batch: seq<Member>, little: bool)
    requires batch != []
    ensures Globals(batch, little) != [] && Globals(batch, little)[0] == Global(batch[0], little)
    ensures Globals(batch, little)[1..] == Globals(batch[1..], little)
  {
    hide Global;
  }

  // ---------------------------------------------------------------- payloads seen globally

  lemma GlobalDecode(bytes: seq<bv8>, little: bool)
    requires Readable(bytes)
    ensures Globals(Decode(bytes, bytes[0] as int, little), little) == Meaning(bytes)
  {
    hide Load, IsId, CString;
    forall i | 0 <= i < bytes[0] as int
      ensures Global(DecodeAt(bytes, i, little), little) == Global(DecodeAt(bytes, i, false), false)
    {
      LoadIsGlobal(IpBytes(bytes, Slot(i)), little);
    }
  }

  /** An encoded list can be read back, and says exactly the sender's members in order. */
  lemma EncodedMeaning(bytes: seq<bv8>, s: seq<Member>, little: bool)
    requires Encoded(bytes, s, little) && |bytes| == PAYLOAD_SIZE && |s| <= MAX_MEMBERS
    ensures Readable(bytes) && Meaning(bytes) == Globals(s, little)
  {
    hide Load, IsId, CString, InMemory;
    forall i | 0 <= i < |s|
      ensures IsId(IdBytes(bytes, Slot(i)))
      ensures Global(DecodeAt(bytes, i, false), false) == Global(s[i], little)
    {
      assert Carries(bytes, Slot(i), s[i], little);
      StoreIsGlobal(s[i].ip, little);
    }
  }

  /** What the receiver's list becomes depends on nothing but what the payload says. */
  lemma ReceivedMeaning(s: seq<Member>, bytes: seq<bv8>, little: bool)
    requires Readable(bytes)
    ensures Globals(Merge(s, Decode(bytes, bytes[0] as int, little)), little)
         == Merge(Globals(s, little), Meaning(bytes))
  {
    GlobalMerge(s, Decode(bytes, bytes[0] as int, little), little);
    GlobalDecode(bytes, little);
  }

  /** The wire round trip. A receiver that knows none of the sender's entries ends with its own
      list followed by the sender's, in order; every address has the same four bytes in both
      memories, and every name is the same C string. */
  lemma RoundTrip(mine: seq<Member>, bytes: seq<bv8>, theirs: seq<Member>, sender: bool, receiver: bool)
    requires Encoded(bytes, theirs, sender) && |bytes| == PAYLOAD_SIZE && |theirs| <= MAX_MEMBERS
    requires Distinct(theirs)
    requires forall i | 0 <= i < |theirs| :: Free(Globals(mine, receiver), Global(theirs[i], sender))
    ensures Readable(bytes)
    ensures var t := Merge(mine, Decode(bytes, |theirs|, receiver));
            && |t| == |mine| + |theirs| && mine <= t
            && forall i | 0 <= i < |theirs| ::
                 && InMemory(t[|mine| + i].ip, receiver) == InMemory(theirs[i].ip, sender)
                 && SameId(t[|mine| + i].id, theirs[i].id)
  {
    hide IsId, Global, Carries, Distinct, Clashes, Free, CString, InMemory, Decode, DecodeAt;
    EncodedMeaning(bytes, theirs, sender);
    var t := Merge(mine, Decode(bytes, |theirs|, receiver));
    ReceivedMeaning(mine, bytes, receiver);
    GlobalDistinct(theirs, sender);
    MergeOfStrangers(Globals(mine, receiver), Globals(theirs, sender));
    assert Globals(t, receiver) == Globals(mine, receiver) + Globals(theirs, sender);
    forall i | 0 <= i < |theirs|
      ensures InMemory(t[|mine| + i].ip, receiver) == InMemory(theirs[i].ip, sender)
      ensures SameId(t[|mine| + i].id, theirs[i].id)
    {
      assert Globals(t, receiver)[|mine| + i] == Globals(theirs, sender)[i];
      SameGlobal(t[|mine| + i], receiver, theirs[i], sender);
    }
  }

  lemma SameGlobal(m: Member, a: bool, n: Member, b: bool)
    requires Global(m, a) == Global(n, b)
    ensures InMemory(m.ip, a) == InMemory(n.ip, b) && SameId(m.id, n.id)
  {
    hide Byte0, Byte1, Byte2, Byte3, Swap32, CString;
    EncodedIsMemory(m.ip, a);
    EncodedIsMemory(n.ip, b);
  }

  // ---------------------------------------------------------------- one payload, byte by byte

  /** A list of one: "ann" at 127.0.0.1. */
  const ANN: seq<bv8> :=
    [1, 127, 0, 0, 1, 0x61, 0x6E, 0x6E, 0, 0, 0, 0, 0, 0, 0, 0, 0, 0, 0, 0, 0]

  lemma ReadsAnn(rest: seq<bv8>)
    requires |rest| == 379
    ensures Readable(ANN + rest)
    ensures Meaning(ANN + rest) == [Member(0x7F00_0001, [0x61, 0x6E, 0x6E])]
  {
    assert (ANN + rest)[..21] == ANN;
    AnnsRecord(ANN + rest);
    AnnsName();
    AnnsAddress();
    hide Load, CString, IsId, ANN, IpBytes, IdBytes;
    var m := Meaning(ANN + rest);
    assert m[0] == Global(DecodeAt(ANN + rest, 0, false), false);
  }

  lemma AnnsRecord(bytes: seq<bv8>)
    requires |bytes| == PAYLOAD_SIZE && bytes[..21] == ANN
    ensures Readable(bytes) && bytes[0] == 1
    ensures IpBytes(bytes, Slot(0)) == [127, 0, 0, 1] && IdBytes(bytes, Slot(0)) == ANN[5..21]
  {
    assert bytes[0] == ANN[0] == 1;
    assert bytes[1..5] == bytes[..21][1..5] == ANN[1..5];
    assert bytes[5..21] == bytes[..21][5..21];
    assert ANN[5..21][3] == 0;
  }

  lemma AnnsName()
    ensures CString(ANN[5..21]) == [0x61, 0x6E, 0x6E]
  {
    var id := ANN[5..21];
    assert CString(id[3..]) == [];
    assert CString(id[2..]) == [0x6E] + CString(id[2..][1..]) && id[2..][1..] == id[3..];
    assert CString(id[1..]) == [0x6E] + CString(id[1..][1..]) && id[1..][1..] == id[2..];
  }

  lemma AnnsAddress()
    ensures Load([127, 0, 0, 1], false) == 0x7F00_0001
  {
  }

  /** The numbers of Chat/src/task.h and Chat/src/packet.h. */
  lemma Numbers()
    ensures SIGN_IN == 1 && SIGN_OUT == 2 && MEMBER_LIST == 3 && MESSAGE == 4 && VERSION == 1
    ensures SIZE_OF_MEMBER_IN_BYTES == ID_LENGTH + 4 == 20 && PAYLOAD_SIZE == 20 * 20
    ensures Slot(MAX_MEMBERS) <= PAYLOAD_SIZE < Slot(MAX_MEMBERS + 1)
  {
  }
}

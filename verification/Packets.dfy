/** Chat/src/packet.h and the packet building and reading loops of Chat/src/task.c. */
module Packets {
  import opened ByteOrder
  import opened Members
  import opened MemberList

  const VERSION: bv8 := 1
  const SIGN_IN: bv8 := 1
  const SIGN_OUT: bv8 := 2
  const MEMBER_LIST: bv8 := 3
  const MESSAGE: bv8 := 4

  const SIZE_OF_MEMBER_IN_BYTES := 20
  const PAYLOAD_SIZE := 400
  const MAX_MEMBERS := 19

  /** Where entry i starts: after the count and i records. */
  function Slot(i: nat): nat {
    1 + SIZE_OF_MEMBER_IN_BYTES * i
  }

  /** The sixteen bytes of a name, after the four of the address. */
  function IdBytes(bytes: seq<bv8>, offset: nat): (s: seq<bv8>)
    requires offset + SIZE_OF_MEMBER_IN_BYTES <= |bytes|
    ensures |s| == ID_LENGTH
  {
    bytes[offset + 4..offset + SIZE_OF_MEMBER_IN_BYTES]
  }

  function IpBytes(bytes: seq<bv8>, offset: nat): (s: seq<bv8>)
    requires offset + SIZE_OF_MEMBER_IN_BYTES <= |bytes|
    ensures |s| == 4
  {
    bytes[offset..offset + 4]
  }

  /** The record at offset is m, as far as anyone can tell: the address bytes of the sender's
      memory, and a buffer with the same name in it. */
  ghost predicate Carries(bytes: seq<bv8>, offset: nat, m: Member, little: bool) {
    && offset + SIZE_OF_MEMBER_IN_BYTES <= |bytes|
    && IpBytes(bytes, offset) == InMemory(m.ip, little)
    && IsId(IdBytes(bytes, offset)) && SameId(IdBytes(bytes, offset), m.id)
  }

  ghost predicate CarriesAll(bytes: seq<bv8>, s: seq<Member>, little: bool) {
    forall i {:trigger Slot(i)} | 0 <= i < |s| :: Carries(bytes, Slot(i), s[i], little)
  }

  /** What a receiver reads out of a payload. */
  function Decode(bytes: seq<bv8>, n: nat, little: bool): (s: seq<Member>)
    requires Slot(n) <= |bytes|
    ensures |s| == n
  {
    seq(n, i requires 0 <= i < n => DecodeAt(bytes, i, little))
  }

  function DecodeAt(bytes: seq<bv8>, i: nat, little: bool): Member
    requires Slot(i + 1) <= |bytes|
  {
    Member(Load(IpBytes(bytes, Slot(i)), little), IdBytes(bytes, Slot(i)))
  }

  // ---------------------------------------------------------------- names in buffers

  /** Equal up to and including the NUL means the same name. */
  lemma {:induction false} SamePrefixSameName(a: seq<bv8>, b: seq<bv8>, k: nat)
    requires k < |a| && k < |b| && a[..k + 1] == b[..k + 1] && b[k] == 0 && 0 !in b[..k]
    ensures SameId(a, b) && 0 in a
    decreases k
  {
    assert a[k] == a[..k + 1][k] == 0;
    assert a[0] == a[..k + 1][0] == b[..k + 1][0] == b[0];
    if k == 0 {
    } else {
      assert b[0] == b[..k][0];
      assert a[1..][..k] == a[..k + 1][1..] == b[..k + 1][1..] == b[1..][..k];
      assert b[1..][..k - 1] == b[..k][1..];
      SamePrefixSameName(a[1..], b[1..], k - 1);
    }
  }

  // ---------------------------------------------------------------- encoding

  /** The address part of both encoding loops. */
  method PutIp(payload: array<bv8>, offset: nat, ip: bv32, little: bool)
    requires offset + SIZE_OF_MEMBER_IN_BYTES <= payload.Length
    modifies payload
    ensures payload[..] == old(payload[..offset]) + InMemory(ip, little) + old(payload[offset + 4..])
  {
    hide Byte0, Byte1, Byte2, Byte3, InMemory;
    var ipT := Htonl(ip, little);
    EncodedIsMemory(ip, little);
    payload[0 + offset] := Byte0(ipT);
    payload[1 + offset] := Byte1(ipT);
    payload[2 + offset] := Byte2(ipT);
    payload[3 + offset] := Byte3(ipT);
  }

  lemma OutsideUnchanged(before: seq<bv8>, after: seq<bv8>, low: nat, high: nat)
    requires low <= high <= |before| == |after|
    requires forall k | 0 <= k < |before| && !(low <= k < high) :: after[k] == before[k]
    ensures after[..low] == before[..low] && after[high..] == before[high..]
  {
  }

  /** The name part of send_sign_in, which stops after the NUL and leaves the rest as it was. */
  method PutIdString(payload: array<bv8>, offset: nat, id: seq<bv8>)
    requires offset + ID_LENGTH <= payload.Length && IsId(id)
    modifies payload
    ensures payload[..offset] == old(payload[..offset])
    ensures payload[offset + ID_LENGTH..] == old(payload[offset + ID_LENGTH..])
    ensures IsId(payload[offset..offset + ID_LENGTH]) && SameId(payload[offset..offset + ID_LENGTH], id)
  {
    hide SameId;
    assert id[..ID_LENGTH] == id;
    ghost var before := payload[..];
    var j := 0;
    while j < ID_LENGTH
      invariant 0 <= j < ID_LENGTH
      invariant 0 !in id[..j]
      invariant payload[offset..offset + j] == id[..j]
      invariant forall k | 0 <= k < payload.Length && !(offset <= k < offset + ID_LENGTH) :: payload[..][k] == before[k]
    {
      payload[offset + j] := id[j];
      assert payload[offset..offset + j + 1] == id[..j + 1] by {
        assert id[..j + 1] == id[..j] + [id[j]];
      }
      if id[j] == 0 {
        break;
      }
      j := j + 1;
    }
    OutsideUnchanged(before, payload[..], offset, offset + ID_LENGTH);
    ghost var buffer := payload[offset..offset + ID_LENGTH];
    assert buffer[..j + 1] == payload[offset..offset + j + 1];
    SamePrefixSameName(buffer, id, j);
  }

  /** The name part of send_member_list, which copies the whole buffer. */
  method PutIdBuffer(payload: array<bv8>, offset: nat, id: seq<bv8>)
    requires offset + ID_LENGTH <= payload.Length && IsId(id)
    modifies payload
    ensures payload[..offset] == old(payload[..offset])
    ensures payload[offset + ID_LENGTH..] == old(payload[offset + ID_LENGTH..])
    ensures payload[offset..offset + ID_LENGTH] == id
  {
    ghost var before := payload[..];
    for j := 0 to ID_LENGTH
      invariant payload[offset..offset + j] == id[..j]
      invariant forall k | 0 <= k < payload.Length && !(offset <= k < offset + ID_LENGTH) :: payload[..][k] == before[k]
    {
      payload[offset + j] := id[j];
      assert id[..j + 1] == id[..j] + [id[j]];
    }
    OutsideUnchanged(before, payload[..], offset, offset + ID_LENGTH);
  }

  /** A record written over a stretch that does not reach into another leaves the other alone. */
  lemma CarriesElsewhere(before: seq<bv8>, after: seq<bv8>, i: nat, m: Member, little: bool, offset: nat)
    requires |before| == |after| && Slot(i + 1) <= offset <= |before|
    requires before[..offset] == after[..offset]
    requires Carries(before, Slot(i), m, little)
    ensures Carries(after, Slot(i), m, little)
  {
    hide IsId, SameId;
    var p := before[..offset];
    assert IpBytes(before, Slot(i)) == p[Slot(i)..Slot(i) + 4] == IpBytes(after, Slot(i));
    assert IdBytes(before, Slot(i)) == p[Slot(i) + 4..Slot(i + 1)] == IdBytes(after, Slot(i));
  }

  /** One pass of the outer loop of send_sign_in. */
  method PutForSignIn(payload: array<bv8>, offset: nat, p: Node, little: bool)
    requires offset + SIZE_OF_MEMBER_IN_BYTES <= payload.Length && IsId(p.id)
    modifies payload
    ensures payload[..offset] == old(payload[..offset])
    ensures payload[offset + SIZE_OF_MEMBER_IN_BYTES..] == old(payload[offset + SIZE_OF_MEMBER_IN_BYTES..])
    ensures Carries(payload[..], offset, p.Entry(), little)
  {
    hide IsId, SameId, InMemory;
    PutIp(payload, offset, p.ip, little);
    ghost var mid := payload[..];
    assert mid[..offset] == old(payload[..offset]);
    assert mid[offset..offset + 4] == InMemory(p.ip, little);
    PutIdString(payload, 4 + offset, p.id);
    assert payload[..offset] == payload[..4 + offset][..offset] == mid[..offset];
    assert IpBytes(payload[..], offset) == payload[..4 + offset][offset..] == mid[offset..offset + 4];
    assert IdBytes(payload[..], offset) == payload[4 + offset..4 + offset + ID_LENGTH];
  }

  /** One pass of the outer loop of send_member_list. */
  method PutForMemberList(payload: array<bv8>, offset: nat, p: Node, little: bool)
    requires offset + SIZE_OF_MEMBER_IN_BYTES <= payload.Length && IsId(p.id)
    modifies payload
    ensures payload[..offset] == old(payload[..offset])
    ensures payload[offset + SIZE_OF_MEMBER_IN_BYTES..] == old(payload[offset + SIZE_OF_MEMBER_IN_BYTES..])
    ensures Carries(payload[..], offset, p.Entry(), little)
  {
    hide IsId, InMemory, CString;
    PutIp(payload, offset, p.ip, little);
    ghost var mid := payload[..];
    assert mid[..offset] == old(payload[..offset]);
    assert mid[offset..offset + 4] == InMemory(p.ip, little);
    PutIdBuffer(payload, 4 + offset, p.id);
    assert payload[..offset] == payload[..4 + offset][..offset] == mid[..offset];
    assert IpBytes(payload[..], offset) == payload[..4 + offset][offset..] == mid[offset..offset + 4];
    assert IdBytes(payload[..], offset) == payload[4 + offset..4 + offset + ID_LENGTH];
  }

  /** The payload both senders build: the count, then every entry in list order. Bytes after the
      last entry keep whatever the stack held. */
  ghost predicate Encoded(bytes: seq<bv8>, s: seq<Member>, little: bool) {
    && Slot(|s|) <= |bytes| && |s| < 256
    && bytes[0] as int == |s|
    && CarriesAll(bytes, s, little)
  }

  lemma OneMoreCarried(before: seq<bv8>, after: seq<bv8>, s: seq<Member>, i: nat, little: bool)
    requires i < |s| && |before| == |after| && Slot(i) <= |before| && before[..Slot(i)] == after[..Slot(i)]
    requires CarriesAll(before, s[..i], little) && Carries(after, Slot(i), s[i], little)
    ensures CarriesAll(after, s[..i + 1], little)
  {
    hide Carries;
    forall j | 0 <= j < i + 1 ensures Carries(after, Slot(j), s[..i + 1][j], little) {
      if j < i {
        assert Carries(before, Slot(j), s[..i][j], little);
        CarriesElsewhere(before, after, j, s[j], little, Slot(i));
      }
    }
  }

  /** bufsize and size of the senders that list members. */
  function SizeField(n: nat): (size: uint16)
    requires n <= MAX_MEMBERS
    ensures size as nat == Slot(n) <= PAYLOAD_SIZE
  {
    (n * SIZE_OF_MEMBER_IN_BYTES + 1) as uint16
  }

  lemma NoneCarried(bytes: seq<bv8>, s: seq<Member>, little: bool)
    ensures CarriesAll(bytes, s[..0], little)
  {
  }

  /** The count is the only byte before the first entry. */
  lemma CountByte(n: nat)
    requires n <= MAX_MEMBERS
    ensures (n as bv8) as int == n
  {
    // one literal at a time, which the solver can compute
    match n
    case 0 | 1 | 2 | 3 | 4 | 5 | 6 | 7 | 8 | 9 | 10 | 11 | 12 | 13 | 14 | 15 | 16 | 17 | 18 =>
    case _ =>
  }

  method SignInPass(payload: array<bv8>, i: nat, p: Node, ghost s: seq<Member>, little: bool)
    requires Slot(i + 1) <= payload.Length && i < |s|
    requires IsId(p.id) && p.Entry() == s[i] && CarriesAll(payload[..], s[..i], little)
    modifies payload
    ensures CarriesAll(payload[..], s[..i + 1], little)
    ensures payload[0] == old(payload[0])
    ensures forall k | Slot(i + 1) <= k < payload.Length :: payload[k] == old(payload[k])
  {
    hide Carries, IsId;
    ghost var before := payload[..];
    PutForSignIn(payload, Slot(i), p, little);
    assert payload[..Slot(i)][0] == before[..Slot(i)][0];
    OneMoreCarried(before, payload[..], s, i, little);
    forall k | Slot(i + 1) <= k < payload.Length ensures payload[k] == before[k] {
      assert payload[Slot(i + 1)..][k - Slot(i + 1)] == before[Slot(i + 1)..][k - Slot(i + 1)];
    }
  }

  /** The payload send_sign_in builds from the list. */
  method EncodeSignIn(list: MemberList, payload: array<bv8>, little: bool)
    requires list.Valid() && list.list != null && |list.members| <= MAX_MEMBERS
    requires payload.Length == PAYLOAD_SIZE
    modifies payload
    ensures list.Valid() && list.members == old(list.members)
    ensures Encoded(payload[..], list.members, little)
    ensures forall k | Slot(|list.members|) <= k < PAYLOAD_SIZE :: payload[k] == old(payload[k])
  {
    hide CarriesAll, Distinct, IsId;
    ghost var s := list.members;
    var p := list.list;
    var n := list.counter;
    var count := n as bv8;
    CountByte(n);
    payload[0] := count;
    NoneCarried(payload[..], s, little);
    for i := 0 to n
      invariant list.Valid()
      invariant p == if i < |s| then list.spine[i] else null
      invariant payload[0] == count
      invariant CarriesAll(payload[..], s[..i], little)
      invariant forall k | Slot(i) <= k < PAYLOAD_SIZE :: payload[k] == old(payload[k])
    {
      SignInPass(payload, i, p, s, little);
      assert p.next == After(list.spine, i);
      p := p.next;
    }
    assert s[..n] == s;
  }

  method MemberListPass(payload: array<bv8>, i: nat, p: Node, ghost s: seq<Member>, little: bool)
    requires Slot(i + 1) <= payload.Length && i < |s|
    requires IsId(p.id) && p.Entry() == s[i] && CarriesAll(payload[..], s[..i], little)
    modifies payload
    ensures CarriesAll(payload[..], s[..i + 1], little)
    ensures payload[0] == old(payload[0])
    ensures forall k | Slot(i + 1) <= k < payload.Length :: payload[k] == old(payload[k])
  {
    hide Carries, IsId;
    ghost var before := payload[..];
    PutForMemberList(payload, Slot(i), p, little);
    assert payload[..Slot(i)][0] == before[..Slot(i)][0];
    OneMoreCarried(before, payload[..], s, i, little);
    forall k | Slot(i + 1) <= k < payload.Length ensures payload[k] == before[k] {
      assert payload[Slot(i + 1)..][k - Slot(i + 1)] == before[Slot(i + 1)..][k - Slot(i + 1)];
    }
  }

  /** The payload send_member_list builds from the list. */
  method EncodeMemberList(list: MemberList, payload: array<bv8>, little: bool)
    requires list.Valid() && list.list != null && |list.members| <= MAX_MEMBERS
    requires payload.Length == PAYLOAD_SIZE
    modifies payload
    ensures list.Valid() && list.members == old(list.members)
    ensures Encoded(payload[..], list.members, little)
    ensures forall k | Slot(|list.members|) <= k < PAYLOAD_SIZE :: payload[k] == old(payload[k])
  {
    hide CarriesAll, Distinct, IsId;
    ghost var s := list.members;
    var p := list.list;
    var n := list.counter;
    var count := n as bv8;
    CountByte(n);
    payload[0] := count;
    NoneCarried(payload[..], s, little);
    for i := 0 to n
      invariant list.Valid()
      invariant p == if i < |s| then list.spine[i] else null
      invariant payload[0] == count
      invariant CarriesAll(payload[..], s[..i], little)
      invariant forall k | Slot(i) <= k < PAYLOAD_SIZE :: payload[k] == old(payload[k])
    {
      MemberListPass(payload, i, p, s, little);
      assert p.next == After(list.spine, i);
      p := p.next;
    }
    assert s[..n] == s;
  }

  // ---------------------------------------------------------------- decoding

  /** A payload the decoding loops can walk: its entries fit and their names end. */
  ghost predicate Readable(bytes: seq<bv8>) {
    && |bytes| == PAYLOAD_SIZE && bytes[0] as int <= MAX_MEMBERS
    && forall i {:trigger Slot(i)} | 0 <= i < bytes[0] as int :: IsId(IdBytes(bytes, Slot(i)))
  }

  lemma OneMoreMerged(s: seq<Member>, batch: seq<Member>, i: nat)
    requires i < |batch|
    ensures Merge(s, batch[..i + 1]) == Add(Merge(s, batch[..i]), batch[i])
  {
    assert batch[..i + 1] == batch[..i] + [batch[i]];
    MergeConcat(s, batch[..i], [batch[i]]);
    assert Merge(Merge(s, batch[..i]), [batch[i]]) == Merge(Add(Merge(s, batch[..i]), batch[i]), []);
  }

  /** The address read at one offset by the loops of recv_sign_in and recv_member_list. */
  method ReadIp(payload: array<bv8>, offset: nat, little: bool) returns (ip: bv32)
    requires offset + SIZE_OF_MEMBER_IN_BYTES <= payload.Length
    ensures ip == Load(IpBytes(payload[..], offset), little)
  {
    hide FromBytes, Load;
    ip := FromBytes(payload[offset], payload[1 + offset], payload[2 + offset], payload[3 + offset]);
    ip := Htonl(ip, little);
    DecodedIsLoad(payload[offset], payload[1 + offset], payload[2 + offset], payload[3 + offset], little);
    assert IpBytes(payload[..], offset)
        == [payload[offset], payload[1 + offset], payload[2 + offset], payload[3 + offset]];
  }

  /** One pass of either decoding loop. */
  method MergeOne(list: MemberList, payload: array<bv8>, i: nat, ghost bytes: seq<bv8>,
                  ghost s: seq<Member>, little: bool)
    requires list.Valid() && list.list != null
    requires bytes == payload[..] && Readable(bytes) && i < bytes[0] as int
    requires list.members == Merge(s, Decode(bytes, bytes[0] as int, little)[..i])
    modifies list, list.spine
    ensures list.Valid() && list.list == old(list.list) && payload[..] == bytes
    ensures old(list.spine) <= list.spine
    ensures forall k | |old(list.spine)| <= k < |list.spine| :: fresh(list.spine[k])
    ensures list.members == Merge(s, Decode(bytes, bytes[0] as int, little)[..i + 1])
  {
    hide Free, Distinct, IsId, Load, Merge;
    var offset := SIZE_OF_MEMBER_IN_BYTES * i;
    var ip := ReadIp(payload, 1 + offset, little);
    var id := payload[5 + offset..1 + offset + SIZE_OF_MEMBER_IN_BYTES];
    assert id == IdBytes(bytes, Slot(i));
    ghost var before := list.members;
    var r := list.ListNewMember(id, ip, true);
    NotFreeUnchanged(before, Member(ip, id));
    OneMoreMerged(s, Decode(bytes, bytes[0] as int, little), i);
  }

  lemma NotFreeUnchanged(s: seq<Member>, m: Member)
    ensures !Free(s, m) ==> Add(s, m) == s
  {
  }

  /** The loop of recv_member_list, and what recv_sign_in does to the list. */
  method MergePayload(list: MemberList, payload: array<bv8>, little: bool)
    requires list.Valid() && list.list != null && Readable(payload[..])
    modifies list, list.spine
    ensures list.Valid() && list.list == old(list.list)
    ensures old(list.spine) <= list.spine
    ensures forall i | |old(list.spine)| <= i < |list.spine| :: fresh(list.spine[i])
    ensures payload[..] == old(payload[..])
    ensures list.members == Merge(old(list.members), Decode(payload[..], payload[0] as int, little))
  {
    var n := payload[0] as int;
    ghost var s, bytes := list.members, payload[..];
    ghost var batch := Decode(bytes, n, little);
    assert Merge(s, []) == s && batch[..0] == [] && batch[..n] == batch;
    hide *;
    for i := 0 to n
      invariant list.Valid() && list.list == old(list.list) && payload[..] == bytes
      invariant old(list.spine) <= list.spine
      invariant forall k | |old(list.spine)| <= k < |list.spine| :: fresh(list.spine[k])
      invariant list.members == Merge(s, batch[..i])
    {
      MergeOne(list, payload, i, bytes, s, little);
    }
  }
}

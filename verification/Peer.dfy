/** One running program: the senders and receivers of Chat/src/task.c, each proved to do to the
    list, the flag and the wire what one step of the protocol says. */
module Peer {
  import opened ByteOrder
  import opened Sequences
  import opened Members
  import opened MemberList
  import opened Packets
  import opened PacketCrc
  import opened Wire
  import opened Crc32
  import Gossip

  /** A packet and the address it was sent to. */
  datatype Outgoing = Outgoing(dest: bv32, packet: Packet)

  /** A whole packet with these entries in it. */
  ghost predicate Carried(p: Packet, entries: seq<Member>, little: bool) {
    && |entries| <= MAX_MEMBERS && Sealed(p, SizeField(|entries|), little)
    && Readable(p.payload) && Meaning(p.payload) == entries
  }

  /** A whole packet with this C string in it, and nothing beyond its NUL covered by the check. */
  ghost predicate Spells(p: Packet, text: seq<bv8>, little: bool) {
    CString(p.payload) == text && exists size :: size as nat == |text| + 1 && Sealed(p, size, little)
  }

  /** The same for a name, which fits a name buffer. */
  ghost predicate Named(p: Packet, id: seq<bv8>, little: bool) {
    |id| < ID_LENGTH && Spells(p, id, little)
  }

  /** What a receiver can rely on when somebody quits. */
  lemma NamedPasses(p: Packet, id: seq<bv8>, sender: bool, receiver: bool)
    requires Named(p, id, sender)
    ensures IsId(p.payload[..ID_LENGTH]) && CString(p.payload[..ID_LENGTH]) == id
    ensures LengthRead(p, receiver) as nat == |id| + 1 && PassesCheck(p, receiver)
  {
    var size :| size as nat == |id| + 1 && Sealed(p, size, sender);
    UndamagedPasses(p, size, sender, receiver);
    ShortName(p.payload);
  }

  lemma ShortName(payload: seq<bv8>)
    requires |CString(payload)| < ID_LENGTH <= |payload|
    ensures IsId(payload[..ID_LENGTH]) && CString(payload[..ID_LENGTH]) == CString(payload)
  {
    var n, id := |CString(payload)|, payload[..ID_LENGTH];
    assert id[n] == 0;
    assert id[..n + 1] == payload[..n + 1];
    SamePrefixSameName(id, payload, n);
  }

  /** The check a receiver makes of a packet with members in it covers exactly those. */
  lemma CarriedPasses(p: Packet, entries: seq<Member>, sender: bool, receiver: bool)
    requires Carried(p, entries, sender)
    ensures LengthRead(p, receiver) as nat == Slot(|entries|) && PassesCheck(p, receiver)
  {
    hide Sealed, Meaning, SizeField;
    UndamagedPasses(p, SizeField(|entries|), sender, receiver);
  }

  function To(ip: bv32, little: bool): Gossip.Address {
    Gossip.Address(Htonl(ip, little))
  }

  /** What is sent, as a message of the protocol. */
  ghost predicate Says(o: Outgoing, m: Gossip.Message, little: bool) {
    && To(o.dest, little) == m.dest
    && match m
       case SignIn(_, _, entries) => o.packet.typ == SIGN_IN && Carried(o.packet, entries, little)
       case Listing(_, entries) => o.packet.typ == MEMBER_LIST && Carried(o.packet, entries, little)
       case SignOut(_, id) => o.packet.typ == SIGN_OUT && Named(o.packet, id, little)
  }

  ghost predicate SaysAll(sent: seq<Outgoing>, ms: seq<Gossip.Message>, little: bool) {
    |sent| == |ms| && forall i | 0 <= i < |sent| :: Says(sent[i], ms[i], little)
  }

  lemma SaysNothing(little: bool)
    ensures SaysAll([], [], little)
  {
  }

  lemma SaysOne(o: Outgoing, m: Gossip.Message, little: bool)
    requires Says(o, m, little)
    ensures SaysAll([o], [m], little)
  {
  }

  lemma SaysBoth(a: seq<Outgoing>, x: seq<Gossip.Message>, b: seq<Outgoing>, y: seq<Gossip.Message>, little: bool)
    requires SaysAll(a, x, little) && SaysAll(b, y, little)
    ensures SaysAll(a + b, x + y, little)
  {
    hide Says;
  }

  /** A copy of the bytes that count says the same. */
  lemma CopySaysTheSame(a: seq<bv8>, b: seq<bv8>)
    requires Readable(a) && |b| == PAYLOAD_SIZE && a[..Slot(a[0] as int)] == b[..Slot(a[0] as int)]
    ensures Readable(b) && Meaning(b) == Meaning(a)
  {
    hide IsId, Load, Global;
    var n := a[0] as int;
    SameSlice(a, b, Slot(n), 0, 1);
    assert a[0..1][0] == b[0..1][0];
    forall i | 0 <= i < n
      ensures IdBytes(b, Slot(i)) == IdBytes(a, Slot(i)) && IpBytes(b, Slot(i)) == IpBytes(a, Slot(i))
    {
      SameSlice(a, b, Slot(n), Slot(i), Slot(i) + 4);
      SameSlice(a, b, Slot(n), Slot(i) + 4, Slot(i) + SIZE_OF_MEMBER_IN_BYTES);
    }
    assert forall i | 0 <= i < n :: DecodeAt(a, i, false) == DecodeAt(b, i, false);
  }

  lemma SameSlice(a: seq<bv8>, b: seq<bv8>, n: nat, x: nat, y: nat)
    requires x <= y <= n <= |a| && n <= |b| && a[..n] == b[..n]
    ensures a[x..y] == b[x..y]
  {
    forall k | x <= k < y ensures a[k] == b[k] {
      assert a[..n][k] == b[..n][k];
    }
  }

  /** One packet to everyone after the head who can be reached. */
  function Broadcast(list: seq<Member>, packet: Packet, up: set<Gossip.Address>, little: bool): seq<Outgoing> {
    if |list| <= 1 then []
    else
      var last := list[|list| - 1];
      Broadcast(list[..|list| - 1], packet, up, little)
        + if To(last.ip, little) in up then [Outgoing(last.ip, packet)] else []
  }

  /** sent is what goes to those of the first i members who are not the head. */
  ghost predicate SentTo(sent: seq<Outgoing>, list: seq<Member>, i: nat, packet: Packet,
                         up: set<Gossip.Address>, little: bool) {
    i <= |list| && sent == Broadcast(list[..i], packet, up, little)
  }

  lemma SentToNobody(list: seq<Member>, packet: Packet, up: set<Gossip.Address>, little: bool)
    requires list != []
    ensures SentTo([], list, 1, packet, up, little)
  {
  }

  /** The same, in the order the loops take. */
  lemma OneMoreSent(sent: seq<Outgoing>, list: seq<Member>, i: nat, packet: Packet,
                    up: set<Gossip.Address>, little: bool)
    requires 0 < i < |list| && SentTo(sent, list, i, packet, up, little)
    ensures SentTo(if To(list[i].ip, little) in up then sent + [Outgoing(list[i].ip, packet)] else sent,
                   list, i + 1, packet, up, little)
  {
    assert list[..i + 1][..i] == list[..i];
  }

  lemma SentToAll(sent: seq<Outgoing>, list: seq<Member>, packet: Packet, up: set<Gossip.Address>, little: bool)
    requires SentTo(sent, list, |list|, packet, up, little)
    ensures sent == Broadcast(list, packet, up, little)
  {
    assert list[..|list|] == list;
  }

  lemma SaysListing(o: Outgoing, m: Gossip.Message, little: bool)
    requires m.Listing? && To(o.dest, little) == m.dest
    requires o.packet.typ == MEMBER_LIST && Carried(o.packet, m.entries, little)
    ensures Says(o, m, little)
  {
  }

  lemma SaysSignOut(o: Outgoing, m: Gossip.Message, little: bool)
    requires m.SignOut? && To(o.dest, little) == m.dest
    requires o.packet.typ == SIGN_OUT && Named(o.packet, m.id, little)
    ensures Says(o, m, little)
  {
  }

  lemma SaysMore(sent: seq<Outgoing>, ms: seq<Gossip.Message>, o: Outgoing, m: Gossip.Message,
                 reached: bool, little: bool)
    requires SaysAll(sent, ms, little) && Says(o, m, little)
    ensures SaysAll(sent + if reached then [o] else [], ms + if reached then [m] else [], little)
  {
    hide SaysAll, Says;
    if reached {
      SaysOne(o, m, little);
      SaysBoth(sent, ms, [o], [m], little);
    } else {
      assert sent + [] == sent && ms + [] == ms;
    }
  }

  lemma GlobalsPrefix(list: seq<Member>, k: nat, little: bool)
    requires k <= |list|
    ensures Globals(list, little)[..k] == Globals(list[..k], little)
  {
    hide Global;
  }

  lemma GlobalAddress(list: seq<Member>, k: nat, little: bool)
    requires k < |list|
    ensures Gossip.At(Globals(list, little)[k]) == To(list[k].ip, little)
  {
  }

  /** Sending a whole list of members to the others is what the protocol calls forwarding. */
  lemma {:induction false} BroadcastForwards(list: seq<Member>, packet: Packet, entries: seq<Member>,
                                             up: set<Gossip.Address>, little: bool)
    requires packet.typ == MEMBER_LIST && Carried(packet, entries, little)
    ensures SaysAll(Broadcast(list, packet, up, little), Gossip.Forward(Globals(list, little), entries, up), little)
  {
    hide SaysAll, Says, Carried, To, Globals;
    if |list| <= 1 {
      SaysNothing(little);
    } else {
      var k := |list| - 1;
      var o := Outgoing(list[k].ip, packet);
      var m := Gossip.Listing(To(list[k].ip, little), entries);
      BroadcastForwards(list[..k], packet, entries, up, little);
      GlobalsPrefix(list, k, little);
      GlobalAddress(list, k, little);
      SaysListing(o, m, little);
      SaysMore(Broadcast(list[..k], packet, up, little), Gossip.Forward(Globals(list[..k], little), entries, up),
               o, m, To(list[k].ip, little) in up, little);
    }
  }

  lemma {:induction false} BroadcastSignsOut(list: seq<Member>, packet: Packet, id: seq<bv8>,
                                             up: set<Gossip.Address>, little: bool)
    requires packet.typ == SIGN_OUT && Named(packet, id, little)
    ensures SaysAll(Broadcast(list, packet, up, little), Gossip.SignOuts(Globals(list, little), id, up), little)
  {
    hide SaysAll, Says, Named, To, Globals;
    if |list| <= 1 {
      SaysNothing(little);
    } else {
      var k := |list| - 1;
      var o := Outgoing(list[k].ip, packet);
      var m := Gossip.SignOut(To(list[k].ip, little), id);
      BroadcastSignsOut(list[..k], packet, id, up, little);
      GlobalsPrefix(list, k, little);
      GlobalAddress(list, k, little);
      SaysSignOut(o, m, little);
      SaysMore(Broadcast(list[..k], packet, up, little), Gossip.SignOuts(Globals(list[..k], little), id, up),
               o, m, To(list[k].ip, little) in up, little);
    }
  }

  class Peer {
    const list: MemberList
    const table: Crc32Table
    const little: bool
    var sign: bool
    var jammed: bool  // the mutex of task.c was left locked

    ghost predicate Valid()
      reads this, list, list.spine, table, table.tab
    {
      list.Valid() && list.list != null && table.Valid()
    }

    constructor (list: MemberList, table: Crc32Table, little: bool)
      requires list.Valid() && list.list != null && table.Valid()
      ensures Valid() && this.list == list && !sign && !jammed
    {
      this.list, this.table, this.little, sign, jammed := list, table, little, false, false;
    }

    /** What the rest of the network can make of this program. */
    ghost function View(): Gossip.Node
      reads this, list
    {
      Gossip.Node(Globals(list.members, little), sign, jammed)
    }

    /** memcpy and header of send_update. */
    method PackUpdate(payload: array<bv8>) returns (packet: Packet)
      requires Valid() && Readable(payload[..])
      ensures packet.typ == MEMBER_LIST && Carried(packet, Meaning(payload[..]), little)
    {
      hide IsId, Meaning, Sealed, Distinct, Crc32Table.Valid, MemberList.Valid;
      var n := payload[0] as int;
      var size := SizeField(n);
      var copy := new bv8[PAYLOAD_SIZE];
      for k := 0 to size as int
        invariant copy[..k] == payload[..k]
      {
        copy[k] := payload[k];
      }
      assert copy[..][..Slot(n)] == payload[..][..Slot(n)];
      CopySaysTheSame(payload[..], copy[..]);
      packet := Seal(table, MEMBER_LIST, copy, size, little);
    }

    method SendUpdate(payload: array<bv8>, reachable: set<Gossip.Address>) returns (sent: seq<Outgoing>)
      requires Valid() && !jammed && Readable(payload[..])
      ensures SaysAll(sent, Gossip.Forward(View().list, Meaning(payload[..]), reachable), little)
    {
      hide IsId, Meaning, Carried, Distinct, Gossip.Forward, Broadcast, SaysAll;
      var packet := PackUpdate(payload);
      sent := ToOthers(packet, reachable);
      BroadcastForwards(list.members, packet, Meaning(payload[..]), reachable, little);
    }

    /** The loop of send_update and of send_quit over everyone after the head. */
    method ToOthers(packet: Packet, reachable: set<Gossip.Address>) returns (sent: seq<Outgoing>)
      requires Valid()
      ensures sent == Broadcast(list.members, packet, reachable, little)
    {
      hide MemberList.Valid, Crc32Table.Valid, Broadcast, SentTo, To;
      ghost var i := 1;
      list.Started();
      list.Walk(0);
      SentToNobody(list.members, packet, reachable, little);
      var p := list.list.next;
      sent := [];
      while p != null
        invariant 0 < i <= |list.spine| && p == if i < |list.spine| then list.spine[i] else null
        invariant SentTo(sent, list.members, i, packet, reachable, little)
        decreases |list.spine| - i
      {
        list.Walk(i);
        OneMoreSent(sent, list.members, i, packet, reachable, little);
        if To(p.ip, little) in reachable {
          sent := sent + [Outgoing(p.ip, packet)];
        }
        p, i := p.next, i + 1;
      }
      SentToAll(sent, list.members, packet, reachable, little);
    }

    /** send_quit: only the name, up to and including its NUL, is written and covered by the check. */
    method SendQuit(reachable: set<Gossip.Address>) returns (sent: seq<Outgoing>)
      requires Valid() && !jammed
      ensures SaysAll(sent, Gossip.SignOuts(View().list, View().list[0].id, reachable), little)
    {
      hide Distinct, Broadcast, SaysAll, Crc32Table.Valid;
      assert list.members[0] == list.spine[0].Entry();
      ShortEnough(list.list.id);
      var packet := PackString(SIGN_OUT, list.list.id);
      sent := ToOthers(packet, reachable);
      BroadcastSignsOut(list.members, packet, CString(list.members[0].id), reachable, little);
    }

    /** strlen, and one more for the NUL as the header holds it. */
    static method StrLen(s: seq<bv8>) returns (n: nat, size: uint16)
      requires 0 in s && |CString(s)| < PAYLOAD_SIZE
      ensures n == |CString(s)| < |s| && size as nat == n + 1
      ensures s[n] == 0 && 0 !in s[..n]
    {
      hide SameId;
      StringEnds(s);
      n := 0;
      while s[n] != 0
        invariant 0 <= n <= |CString(s)| < PAYLOAD_SIZE && 0 !in s[..n]
        decreases |CString(s)| - n
      {
        assert s[..n + 1] == s[..n] + [s[n]];
        n := n + 1;
      }
      size := (n + 1) as uint16;
    }

    /** A packet that covers a string and its NUL, as send_quit and send_msg build it. */
    method PackString(typ: bv8, s: seq<bv8>) returns (packet: Packet)
      requires Valid() && 0 in s && |CString(s)| < PAYLOAD_SIZE
      ensures Valid() && packet.typ == typ && Spells(packet, CString(s), little)
    {
      hide MemberList.Valid, Crc32Table.Valid, CString, Sealed;
      var n, size := StrLen(s);
      var payload := new bv8[PAYLOAD_SIZE];
      for k := 0 to n + 1
        invariant payload[..k] == s[..k]
      {
        payload[k] := s[k];
      }
      assert payload[..][..n + 1] == payload[..n + 1];
      SamePrefixSameName(payload[..], s, n);
      packet := Seal(table, typ, payload, size, little);
    }

    /** recv_quit, which keeps the mutex when the name is not there. */
    method RecvQuit(payload: array<bv8>) returns (r: int)
      requires Valid() && !jammed && payload.Length == PAYLOAD_SIZE && IsId(payload[..ID_LENGTH])
      modifies this`jammed, list, list.spine
      ensures Valid() && (r == 0 <==> !jammed)
      ensures View() == Gossip.OnSignOut(old(View()), old(CString(payload[..])))
      ensures r == 0 <==> old(Listed(list.members, payload[..ID_LENGTH]))
      ensures r == 0 ==> exists k ::
                && FoundAt(old(list.members), old(payload[..ID_LENGTH]), k)
                && list.members == Without(old(list.members), k)
      ensures r != 0 ==> list.members == old(list.members)
    {
      hide Distinct, Crc32Table.Valid, MemberList.Valid, CString;
      var id := payload[..ID_LENGTH];
      ghost var before := list.members;
      NameInBuffer(payload[..]);
      GlobalListed(before, id, little);
      ghost var k;
      r, k := list.ListDeleteMember(id);
      if r != 0 {
        jammed := true;
        return -1;
      }
      GlobalDelete(before, id, k, little);
    }

    /** The packet send_member_list builds. */
    method PackMemberList() returns (packet: Packet)
      requires Valid() && |list.members| <= MAX_MEMBERS
      ensures Valid() && packet.typ == MEMBER_LIST && Carried(packet, View().list, little)
    {
      hide Distinct, IsId, Encoded, Meaning, SizeField, Sealed, Crc32Table.Valid, MemberList.Valid;
      var n := list.ListNoOfMembers();
      var size := SizeField(n);
      var payload := new bv8[PAYLOAD_SIZE];
      EncodeMemberList(list, payload, little);
      EncodedMeaning(payload[..], list.members, little);
      packet := Seal(table, MEMBER_LIST, payload, size, little);
    }

    /** send_member_list. */
    method SendMemberList(dest: bv32, reachable: set<Gossip.Address>) returns (sent: seq<Outgoing>)
      requires Valid() && !jammed && |list.members| <= MAX_MEMBERS
      ensures SaysAll(sent, if To(dest, little) in reachable then
                  [Gossip.Listing(To(dest, little), View().list)] else [], little)
    {
      hide Carried, SaysAll, Htonl;
      SaysNothing(little);
      if To(dest, little) !in reachable {
        return [];
      }
      var packet := PackMemberList();
      SaysOne(Outgoing(dest, packet), Gossip.Listing(To(dest, little), View().list), little);
      sent := [Outgoing(dest, packet)];
    }

    /** The packet send_sign_in builds. */
    method PackSignIn() returns (packet: Packet)
      requires Valid() && |list.members| <= MAX_MEMBERS
      ensures Valid() && packet.typ == SIGN_IN && Carried(packet, View().list, little)
    {
      hide Distinct, IsId, Encoded, Meaning, SizeField, Sealed, Crc32Table.Valid, MemberList.Valid;
      var n := list.ListNoOfMembers();
      var size := SizeField(n);
      var payload := new bv8[PAYLOAD_SIZE];
      EncodeSignIn(list, payload, little);
      EncodedMeaning(payload[..], list.members, little);
      packet := Seal(table, SIGN_IN, payload, size, little);
    }

    /** send_sign_in: the flag is set only when the packet went out. */
    method SendSignIn(dest: bv32, reachable: set<Gossip.Address>) returns (sent: seq<Outgoing>)
      requires Valid() && !jammed && |list.members| <= MAX_MEMBERS
      modifies this`sign
      ensures Valid()
      ensures View() == old(View()).(sign := if To(dest, little) in reachable then true else old(sign))
      ensures SaysAll(sent, if To(dest, little) in reachable then
                  [Gossip.SignIn(Gossip.At(old(View()).list[0]), To(dest, little), old(View()).list)] else [], little)
    {
      hide Carried, SaysAll, Htonl;
      SaysNothing(little);
      if To(dest, little) !in reachable {
        return [];
      }
      var packet := PackSignIn();
      SaysOne(Outgoing(dest, packet), Gossip.SignIn(Gossip.At(View().list[0]), To(dest, little), View().list), little);
      sent := [Outgoing(dest, packet)];
      sign := true;
    }

    /** recv_member_list. */
    method RecvMemberList(payload: array<bv8>, reachable: set<Gossip.Address>) returns (sent: seq<Outgoing>)
      requires Valid() && !jammed && Readable(payload[..])
      modifies this`sign, list, list.spine
      ensures Valid()
      ensures View() == Gossip.OnListing(old(View()), old(Meaning(payload[..])))
      ensures SaysAll(sent, Gossip.SentOnListing(old(View()), old(Meaning(payload[..])), reachable), little)
    {
      hide Distinct, IsId, Meaning, Merge, Gossip.Forward, SaysAll, Crc32Table.Valid, MemberList.Valid;
      SaysNothing(little);
      sent := [];
      var known := list.ListNoOfMembers();
      if known > 1 && sign {
        sent := SendUpdate(payload, reachable);
      }
      ghost var members := list.members;
      MergePayload(list, payload, little);
      ReceivedMeaning(members, payload[..], little);
      sign := false;
    }

    /** recv_sign_in. What its loop does at i == 0 comes before anything is merged. */
    method RecvSignIn(payload: array<bv8>, reachable: set<Gossip.Address>) returns (sent: seq<Outgoing>)
      requires Valid() && !jammed && Readable(payload[..]) && |list.members| <= MAX_MEMBERS
      modifies list, list.spine
      ensures Valid()
      ensures View() == Gossip.OnSignIn(old(View()), old(Meaning(payload[..])))
      ensures SaysAll(sent, Gossip.SentOnSignIn(old(View()), old(Meaning(payload[..])), reachable), little)
    {
      hide MemberList.Valid, Crc32Table.Valid, Meaning, Merge, SaysAll, IsId, Gossip.SentOnSignIn;
      ghost var members := list.members;
      sent := AnswerSignIn(payload, reachable);
      MergePayload(list, payload, little);
      ReceivedMeaning(members, payload[..], little);
    }

    /** recv_from_client. A check that fails is reported and changes nothing else. */
    method Receive(p: Packet, payload: array<bv8>, reachable: set<Gossip.Address>)
      returns (sent: seq<Outgoing>, falseCrc: bool)
      requires Valid() && !jammed && payload.Length == PAYLOAD_SIZE && p.payload == payload[..]
      requires |p.length| == 2 && |p.crc| == 4 && LengthRead(p, little) as nat <= PAYLOAD_SIZE
      requires p.typ == SIGN_IN || p.typ == MEMBER_LIST ==> Readable(p.payload)
      requires p.typ == SIGN_IN ==> |list.members| <= MAX_MEMBERS
      requires p.typ == SIGN_OUT ==> IsId(payload[..ID_LENGTH])
      modifies this, list, list.spine
      ensures Valid() && (falseCrc <==> !PassesCheck(p, little))
      ensures p.typ == SIGN_IN ==>
                && View() == Gossip.OnSignIn(old(View()), Meaning(p.payload))
                && SaysAll(sent, Gossip.SentOnSignIn(old(View()), Meaning(p.payload), reachable), little)
      ensures p.typ == MEMBER_LIST ==>
                && View() == Gossip.OnListing(old(View()), Meaning(p.payload))
                && SaysAll(sent, Gossip.SentOnListing(old(View()), Meaning(p.payload), reachable), little)
      ensures p.typ == SIGN_OUT ==> View() == Gossip.OnSignOut(old(View()), CString(p.payload)) && sent == []
      ensures p.typ !in {SIGN_IN, MEMBER_LIST, SIGN_OUT} ==> View() == old(View()) && sent == []
    {
      hide MemberList.Valid, Crc32Table.Valid, Meaning, Readable, SaysAll, IsId, CString;
      hide Htonl, Htons, Load, Load16, Crc32Of;
      hide Gossip.OnSignIn, Gossip.OnListing, Gossip.OnSignOut, Gossip.SentOnSignIn, Gossip.SentOnListing;
      var equal := CrcIsEqual(table, payload, LengthRead(p, little) as nat, CrcRead(p, little));
      assert payload[..LengthRead(p, little) as nat] == p.payload[..LengthRead(p, little) as nat];
      falseCrc := !equal;
      sent := [];
      if p.typ == SIGN_IN {
        sent := RecvSignIn(payload, reachable);
      } else if p.typ == SIGN_OUT {
        var r := RecvQuit(payload);
      } else if p.typ == MEMBER_LIST {
        sent := RecvMemberList(payload, reachable);
      }
    }

    /** Sender and receiver together: what one program sent as m, another receives as m. The check
        never fails, and list, flag and answers are what the protocol says, whatever the byte orders. */
    method ReceiveSaid(o: Outgoing, ghost m: Gossip.Message, ghost sender: bool, payload: array<bv8>,
                       reachable: set<Gossip.Address>)
      returns (sent: seq<Outgoing>, falseCrc: bool)
      requires Valid() && !jammed && Says(o, m, sender)
      requires payload.Length == PAYLOAD_SIZE && o.packet.payload == payload[..]
      requires m.SignIn? ==> |list.members| <= MAX_MEMBERS
      modifies this, list, list.spine
      ensures Valid() && !falseCrc
      ensures View() == Gossip.After(old(View()), m)
      ensures SaysAll(sent, Gossip.Sent(old(View()), m, reachable), little)
    {
      hide MemberList.Valid, Crc32Table.Valid, SaysAll, IsId, CString, PassesCheck;
      hide Gossip.OnSignIn, Gossip.OnListing, Gossip.OnSignOut, Gossip.SentOnSignIn, Gossip.SentOnListing;
      SaidIsReadable(o, m, sender, little);
      SaysNothing(little);
      sent, falseCrc := Receive(o.packet, payload, reachable);
    }

    /** send_msg, once the typed line has been taken apart: an entry with address 0 counts as not found. */
    method SendMsg(id: seq<bv8>, msg: seq<bv8>, reachable: set<Gossip.Address>) returns (sent: seq<Outgoing>)
      requires Valid() && !jammed && 0 in msg && |CString(msg)| < PAYLOAD_SIZE
      ensures forall m | m in list.members && SameId(m.id, id) ::
                && |sent| == (if m.ip != 0 && To(m.ip, little) in reachable then 1 else 0)
                && forall o | o in sent :: o.dest == m.ip
      ensures (forall m | m in list.members :: !SameId(m.id, id)) ==> sent == []
      ensures forall o | o in sent :: o.packet.typ == MESSAGE && Spells(o.packet, CString(msg), little)
    {
      hide Crc32Table.Valid, SameId, Htonl, Spells, CString;
      var messeger := list.ListSearchMemberId(id);
      OneOfEachName(list.members, id);
      if messeger.ip == 0 || To(messeger.ip, little) !in reachable {
        return [];
      }
      var packet := PackString(MESSAGE, msg);
      sent := [Outgoing(messeger.ip, packet)];
    }

    /** The packets recv_sign_in sends. */
    method AnswerSignIn(payload: array<bv8>, reachable: set<Gossip.Address>) returns (sent: seq<Outgoing>)
      requires Valid() && !jammed && Readable(payload[..]) && |list.members| <= MAX_MEMBERS
      ensures SaysAll(sent, Gossip.SentOnSignIn(View(), Meaning(payload[..]), reachable), little)
    {
      ghost var entries, known := Meaning(payload[..]), View().list;
      hide Crc32Table.Valid, MemberList.Valid, Meaning, Gossip.Forward, SaysAll, IsId;
      ghost var forwards := if |known| > 1 then Gossip.Forward(known, entries, reachable) else [];
      SaysNothing(little);
      var update, reply := [], [];
      var n := list.ListNoOfMembers();
      if n > 1 {
        update := SendUpdate(payload, reachable);
      }
      if payload[0] > 0 {
        reply := ReplyToFirst(payload, reachable);
      }
      SaysBoth(update, forwards, reply, Gossip.Reply(known, entries, reachable), little);
      sent := update + reply;
    }

    /** What happens at i == 0. */
    method ReplyToFirst(payload: array<bv8>, reachable: set<Gossip.Address>) returns (reply: seq<Outgoing>)
      requires Valid() && !jammed && Readable(payload[..]) && payload[0] > 0 && |list.members| <= MAX_MEMBERS
      ensures Valid()
      ensures SaysAll(reply, Gossip.Reply(View().list, Meaning(payload[..]), reachable), little)
    {
      hide MemberList.Valid, Crc32Table.Valid, SaysAll, Load, IsId, Globals;
      var ip := ReadIp(payload, 1, little);
      FirstEntry(payload[..], ip, little);
      reply := SendMemberList(ip, reachable);
    }
  }

  lemma OneOfEachName(s: seq<Member>, id: seq<bv8>)
    requires Distinct(s)
    ensures forall m, n | m in s && n in s && SameId(m.id, id) && SameId(n.id, id) :: m == n
  {
    hide CString;
    forall m, n | m in s && n in s && SameId(m.id, id) && SameId(n.id, id) ensures m == n {
      var i :| 0 <= i < |s| && s[i] == m;
      var j :| 0 <= j < |s| && s[j] == n;
      assert Clashes(m, n) && Clashes(n, m);
    }
  }

  lemma StringEnds(s: seq<bv8>)
    requires 0 in s
    ensures var n := |CString(s)|; n < |s| && s[n] == 0 && 0 !in s[..n]
  {
    assert |CString(s)| == |s| ==> CString(s) == s;
  }

  lemma ShortEnough(id: seq<bv8>)
    requires IsId(id)
    ensures 0 in id && |CString(id)| < ID_LENGTH
  {
    StringEnds(id);
  }

  /** What was said can be read, and passes the check. */
  lemma SaidIsReadable(o: Outgoing, m: Gossip.Message, sender: bool, receiver: bool)
    requires Says(o, m, sender)
    ensures |o.packet.length| == 2 && |o.packet.crc| == 4 && |o.packet.payload| == PAYLOAD_SIZE
    ensures LengthRead(o.packet, receiver) as nat <= PAYLOAD_SIZE && PassesCheck(o.packet, receiver)
    ensures match m
            case SignIn(_, _, entries) =>
              o.packet.typ == SIGN_IN && Readable(o.packet.payload) && Meaning(o.packet.payload) == entries
            case Listing(_, entries) =>
              o.packet.typ == MEMBER_LIST && Readable(o.packet.payload) && Meaning(o.packet.payload) == entries
            case SignOut(_, id) =>
              o.packet.typ == SIGN_OUT && IsId(o.packet.payload[..ID_LENGTH]) && CString(o.packet.payload) == id
  {
    hide Meaning, IsId, CString, PassesCheck;
    match m
    case SignIn(_, _, entries) => CarriedPasses(o.packet, entries, sender, receiver);
    case Listing(_, entries) => CarriedPasses(o.packet, entries, sender, receiver);
    case SignOut(_, id) => NamedPasses(o.packet, id, sender, receiver);
  }

  /** A name is in the list exactly when it is in the list as the network sees it. */
  lemma GlobalListed(s: seq<Member>, id: seq<bv8>, little: bool)
    ensures Listed(Globals(s, little), CString(id)) == Listed(s, id)
  {
    hide CString, Htonl;
    CStringTwice(id);
    var t := Globals(s, little);
    forall i | 0 <= i < |s| ensures SameId(t[i].id, CString(id)) == SameId(s[i].id, id) {
      CStringTwice(s[i].id);
    }
    if Listed(s, id) {
      var k :| 0 < k < |s| && SameId(s[k].id, id);
      assert SameId(t[k].id, CString(id));
    }
  }

  lemma NameInBuffer(payload: seq<bv8>)
    requires |payload| == PAYLOAD_SIZE && IsId(payload[..ID_LENGTH])
    ensures CString(payload) == CString(payload[..ID_LENGTH])
  {
    var id := payload[..ID_LENGTH];
    StringEnds(id);
    var n := |CString(id)|;
    assert payload[..n + 1] == id[..n + 1];
    SamePrefixSameName(payload, id, n);
  }

  lemma FoundOnce(s: seq<Member>, id: seq<bv8>, j: nat, k: nat)
    requires FoundAt(s, id, j) && FoundAt(s, id, k)
    ensures j == k
  {
  }

  /** Deleting by name is the same seen globally. */
  lemma GlobalDelete(s: seq<Member>, id: seq<bv8>, k: nat, little: bool)
    requires FoundAt(s, id, k)
    ensures Listed(Globals(s, little), CString(id))
    ensures Gossip.FirstListed(Globals(s, little), CString(id), 1) == k
    ensures Globals(Without(s, k), little) == Without(Globals(s, little), k)
  {
    hide CString, Htonl;
    CStringTwice(id);
    var t := Globals(s, little);
    forall i | 0 <= i < |s| ensures SameId(t[i].id, CString(id)) == SameId(s[i].id, id) {
      CStringTwice(s[i].id);
    }
    assert FoundAt(t, CString(id), k);
    FoundOnce(t, CString(id), k, Gossip.FirstListed(t, CString(id), 1));
  }

  /** The address read at offset 1 is that of the first entry. */
  lemma FirstEntry(bytes: seq<bv8>, ip: bv32, little: bool)
    requires Readable(bytes) && bytes[0] > 0 && ip == Load(IpBytes(bytes, 1), little)
    ensures Meaning(bytes) != [] && To(ip, little) == Gossip.At(Meaning(bytes)[0])
  {
    hide Load, IsId;
    LoadIsGlobal(IpBytes(bytes, 1), little);
    assert Slot(0) == 1;
  }
}

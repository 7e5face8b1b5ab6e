/** Chat/src/list.c: the linked list behind the globals list and counter. */
module MemberList {
  import opened Members
  import opened Sequences

  class Node {
    var ip: bv32
    var id: seq<bv8>
    var next: Node?

    constructor (ip: bv32, id: seq<bv8>)
      ensures this.ip == ip && this.id == id && next == null
    {
      this.ip, this.id, this.next := ip, id, null;
    }

    function Entry(): Member
      reads this
    {
      Member(ip, id)
    }
  }

  class MemberList {
    var list: Node?
    var counter: int
    ghost var spine: seq<Node>  // the nodes in the order the next pointers visit them
    ghost var members: seq<Member>  // what those nodes hold

    /** The chain from list visits the spine, no node twice, and counter is its length. */
    ghost predicate Linked()
      reads this, spine
    {
      && counter == |spine|
      && (list == if spine == [] then null else spine[0])
      && NoRepeats(spine)
      && (forall i {:trigger After(spine, i)} | 0 <= i < |spine| :: spine[i].next == After(spine, i))
      && |members| == |spine|
      && (forall i | 0 <= i < |spine| :: members[i] == spine[i].Entry())
    }

    ghost predicate Valid()
      reads this, spine
    {
      Linked() && Distinct(members) && forall i | 0 <= i < |members| :: IsId(members[i].id)
    }

    /** What a walk along the list needs to know. */
    lemma Walk(i: nat)
      requires Valid() && i < |spine|
      ensures |members| == |spine| && members[i] == spine[i].Entry()
      ensures list == spine[0] && spine[i].next == if i + 1 < |spine| then spine[i + 1] else null
    {
      assert spine[i].next == After(spine, i);
    }

    lemma Started()
      requires Valid()
      ensures list != null <==> spine != []
    {
    }

    /** Before List_init there is no list. */
    constructor ()
      ensures Valid() && members == []
    {
      list, counter, spine, members := null, 0, [], [];
    }

    method ListInit(id: seq<bv8>, ip: bv32, mallocOk: bool) returns (r: int)
      requires Valid() && list == null && IsId(id)
      modifies this
      ensures Valid() && (r == 0 <==> mallocOk)
      ensures members == if r == 0 then [Member(ip, id)] else []
    {
      if !mallocOk {
        return -1;
      }
      list := new Node(ip, id);
      spine, members := [list], [Member(ip, id)];
      counter := counter + 1;
      r := 0;
    }

    method ListNewMember(id: seq<bv8>, ip: bv32, mallocOk: bool) returns (r: int)
      requires Valid() && IsId(id)
      modifies this, spine
      ensures Valid() && old(spine) <= spine
      ensures forall i | |old(spine)| <= i < |spine| :: fresh(spine[i])
      ensures list == old(list)
      ensures r == 0 <==> old(list) != null && mallocOk && Free(old(members), Member(ip, id))
      ensures members == if r == 0 then Add(old(members), Member(ip, id)) else old(members)
    {
      if list == null {
        return -1;
      }
      hide Distinct, IsId;
      ghost var m := Member(ip, id);
      var clash, i := FindClash(id, ip);
      if clash {
        assert Clashes(members[i], m);
        return -1;
      }
      var p := LastNode();
      if !mallocOk {
        return -1;
      }
      var newMember := new Node(ip, id);
      LinkLast(p, newMember);
      r := 0;
    }

    /** The first loop of List_new_member: is the name or the address taken? */
    method FindClash(id: seq<bv8>, ip: bv32) returns (clash: bool, ghost i: nat)
      requires Valid()
      ensures clash ==> i < |members| && Clashes(members[i], Member(ip, id))
      ensures !clash ==> Free(members, Member(ip, id))
    {
      hide Distinct, IsId, Clashes;
      var p := list;
      i := 0;
      while p != null
        invariant 0 <= i <= |spine| && p == if i < |spine| then spine[i] else null
        invariant forall j | 0 <= j < i :: !Clashes(members[j], Member(ip, id))
        decreases |spine| - i
      {
        ClashTest(members[i], Member(ip, id));
        if SameId(id, p.id) || p.ip == ip {
          return true, i;
        }
        assert p.next == After(spine, i);
        p, i := p.next, i + 1;
      }
      clash := false;
    }

    /** The second loop: the node whose next pointer is null. */
    method LastNode() returns (p: Node)
      requires Valid() && list != null
      ensures spine != [] && p == spine[|spine| - 1]
    {
      hide Distinct, IsId;
      p := list;
      ghost var i := 0;
      while p.next != null
        invariant 0 <= i < |spine| && p == spine[i]
        decreases |spine| - i
      {
        assert p.next == After(spine, i);
        p, i := p.next, i + 1;
      }
      assert p.next == After(spine, i);
    }

    /** The last three assignments of a successful addition. */
    method LinkLast(p: Node, newMember: Node)
      requires Valid() && spine != [] && p == spine[|spine| - 1]
      requires newMember !in spine && newMember.next == null && IsId(newMember.id)
      requires Free(members, newMember.Entry())
      modifies this, p
      ensures Valid() && list == old(list) && spine == old(spine) + [newMember]
      ensures members == old(members) + [old(newMember.Entry())]
    {
      hide Clashes, IsId;
      ghost var before := spine;
      assert p.next == After(spine, |spine| - 1);
      members := members + [newMember.Entry()];
      p.next := newMember;
      spine := spine + [newMember];
      counter := counter + 1;
      forall i | 0 <= i < |spine| ensures spine[i].next == After(spine, i) {
        assert i < |before| - 1 ==> before[i].next == After(before, i);
      }
    }

    /** The first entry with this name, or the zeroed record. */
    method ListSearchMemberId(id: seq<bv8>) returns (m: Member)
      requires Valid()
      ensures (forall i | 0 <= i < |members| :: !SameId(members[i].id, id)) ==> m == Nobody()
      ensures (exists i | 0 <= i < |members| :: SameId(members[i].id, id))
          ==> m in members && SameId(m.id, id)
    {
      var p := list;
      ghost var i := 0;
      while p != null
        invariant 0 <= i <= |spine| && p == if i < |spine| then spine[i] else null
        invariant forall j | 0 <= j < i :: !SameId(members[j].id, id)
        decreases |spine| - i
      {
        if SameId(id, p.id) {
          assert members[i] == p.Entry();
          return p.Entry();
        }
        assert p.next == After(spine, i);
        p, i := p.next, i + 1;
      }
      m := Nobody();
    }

    method ListSearchMemberIp(ip: bv32) returns (m: Member)
      requires Valid()
      ensures (forall i | 0 <= i < |members| :: members[i].ip != ip) ==> m == Nobody()
      ensures (exists i | 0 <= i < |members| :: members[i].ip == ip) ==> m in members && m.ip == ip
    {
      var p := list;
      ghost var i := 0;
      while p != null
        invariant 0 <= i <= |spine| && p == if i < |spine| then spine[i] else null
        invariant forall j | 0 <= j < i :: members[j].ip != ip
        decreases |spine| - i
      {
        if p.ip == ip {
          assert members[i] == p.Entry();
          return p.Entry();
        }
        assert p.next == After(spine, i);
        p, i := p.next, i + 1;
      }
      m := Nobody();
    }

    /** Unlinks the first entry with this name after the head. */
    method ListDeleteMember(id: seq<bv8>) returns (r: int, ghost k: nat)
      requires Valid()
      modifies this, spine
      ensures Valid() && list == old(list)
      ensures r == 0 <==> Listed(old(members), id)
      ensures r == 0 ==> FoundAt(old(members), id, k)
      ensures r == 0 ==> members == Without(old(members), k)
      ensures r == 0 ==> spine == old(spine[..k] + spine[k + 1..])
      ensures r != 0 ==> members == old(members) && spine == old(spine)
    {
      k := 0;
      if list == null {
        return -1, 0;
      }
      hide Distinct, IsId, CString;
      var p, found, i := FindBefore(id);
      if !found {
        return -1, 0;
      }
      k := i + 1;
      DeleteDistinct(members, k);
      DropKeepsIds(members, k);
      UnlinkAfter(p, p.next, k);
      r := 0;
    }

    /** The loop of List_delete_member, which looks one node ahead. */
    method FindBefore(id: seq<bv8>) returns (p: Node, found: bool, ghost i: nat)
      requires Valid() && list != null
      ensures i < |spine| && p == spine[i]
      ensures found ==> i + 1 < |spine| && p.next == spine[i + 1] && FoundAt(members, id, i + 1)
      ensures !found ==> !Listed(members, id)
    {
      hide Distinct, IsId, CString;
      p, found, i := list, false, 0;
      while p.next != null
        invariant 0 <= i < |spine| && p == spine[i]
        invariant forall j | 0 < j <= i :: !SameId(members[j].id, id)
        decreases |spine| - i
      {
        assert p.next == After(spine, i);
        if SameId(p.next.id, id) {
          return p, true, i;
        }
        p, i := p.next, i + 1;
      }
      assert p.next == After(spine, i);
    }

    method UnlinkAfter(p: Node, delMember: Node, ghost k: nat)
      requires Linked() && 0 < k < |spine| && p == spine[k - 1] && delMember == spine[k]
      modifies this, p
      ensures Linked() && list == old(list) && spine == old(spine[..k] + spine[k + 1..])
      ensures members == Without(old(members), k)
    {
      ghost var before, entries := spine, members;
      DropKeepsNoRepeats(before, k);
      DropKeepsIds(entries, k);
      OnlyHere(before, k - 1);
      assert delMember.next == After(spine, k);
      hide Without, NoRepeats, After;
      p.next := delMember.next;
      spine, members := before[..k] + before[k + 1..], Without(entries, k);
      counter := counter - 1;
      forall i | 0 <= i < |spine| ensures spine[i].next == After(spine, i) {
        AfterDrop(before, k, i);
        assert i != k - 1 ==> before[Back(k, i)].next == After(before, Back(k, i));
      }
    }

    /** Frees every node once, first to last, and zeroes the counter. The list pointer is left
        as it was, so nothing but the counter may be used afterwards. */
    method ListDelete() returns (r: int, ghost freed: seq<Node>)
      requires Linked()
      modifies this`counter
      ensures r == 0 <==> list != null
      ensures r == 0 ==> freed == spine && counter == 0
    {
      freed := [];
      if list == null {
        return -1, [];
      }
      var p := list;
      ghost var i := 0;
      while p != null
        invariant 0 <= i <= |spine| && p == (if i < |spine| then spine[i] else null) && freed == spine[..i]
        decreases |spine| - i
      {
        var previous := p;
        assert p.next == After(spine, i);
        p := p.next;
        freed, i := freed + [previous], i + 1;
      }
      counter := 0;
      r := 0;
    }

    method ListNoOfMembers() returns (n: int)
      requires Valid()
      ensures n == |members|
    {
      n := counter;
    }
  }

  /** The next node of a chain that visits s. */
  ghost function After(s: seq<Node>, i: nat): Node?
    requires i < |s|
  {
    if i + 1 < |s| then s[i + 1] else null
  }

  lemma AfterDrop(s: seq<Node>, k: nat, i: nat)
    requires 0 < k < |s| && i < |s| - 1
    ensures After(s[..k] + s[k + 1..], i) == if i == k - 1 then After(s, k) else After(s, Back(k, i))
  {
  }

  lemma DropKeepsNoRepeats(s: seq<Node>, k: nat)
    requires k < |s| && NoRepeats(s)
    ensures NoRepeats(s[..k] + s[k + 1..])
    ensures s[k] !in s[..k] && s[k] !in s[k + 1..]
    ensures forall i | 0 <= i < |s| - 1 :: (s[..k] + s[k + 1..])[i] == s[Back(k, i)]
  {
  }

  lemma OnlyHere(s: seq<Node>, k: nat)
    requires k < |s| && NoRepeats(s)
    ensures forall i | 0 <= i < |s| && i != k :: s[i] != s[k]
  {
  }

  lemma DropKeepsIds(s: seq<Member>, k: nat)
    requires k < |s|
    ensures (forall i | 0 <= i < |s| :: IsId(s[i].id)) ==> forall i | 0 <= i < |s| - 1 :: IsId(Without(s, k)[i].id)
    ensures forall i | 0 <= i < |s| - 1 :: Without(s, k)[i] == s[Back(k, i)]
  {
  }

  lemma ClashTest(n: Member, m: Member)
    ensures Clashes(n, m) <==> SameId(m.id, n.id) || n.ip == m.ip
  {
  }

  /** The record a failed search returns. */
  function Nobody(): Member {
    Member(0, seq(ID_LENGTH, _ => 0))
  }
}

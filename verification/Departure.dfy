/** Somebody quits: who loses the entry, who keeps everything else, and who gets stuck. */
module Departure {
  import opened Sequences
  import opened Members
  import opened Gossip
  import Convergence

  /** The one who quits, as the directory knows it. */
  ghost function Own(s: State, a: Address): Member
    requires a in s.nodes && s.nodes[a].list != []
  {
    s.nodes[a].list[0]
  }

  /** The programs a quit of a is announced to. */
  ghost predicate Told(s: State, a: Address, c: Address)
    requires a in s.nodes
  {
    c in s.nodes && exists i :: 0 < i < |s.nodes[a].list| && At(s.nodes[a].list[i]) == c
  }

  function Bye(s: State, a: Address, c: Address): Message
    requires a in s.nodes && s.nodes[a].list != []
  {
    SignOut(c, s.nodes[a].list[0].id)
  }

  /** Nobody is about to hear of the one who quits: no sign-in is on its way, no other sign-out, and no
      list with its entry. */
  ghost predicate Quiet(d: set<Member>, s: State, a: Address) {
    && Directory(d) && Provenance(d, s) && a in s.nodes && !s.nodes[a].jammed
    && s.nodes[a].list != []
    && forall m | m in s.net :: m.Listing? && Own(s, a) !in m.entries
  }

  // ---------------------------------------------------------------- whom send_quit tells

  lemma {:induction false} SignOutsReach(list: seq<Member>, id: seq<bv8>, up: set<Address>, i: nat)
    requires 0 < i < |list| && At(list[i]) in up
    ensures SignOut(At(list[i]), id) in SignOuts(list, id, up)
  {
    var shorter := list[..|list| - 1];
    if i == |list| - 1 {
    } else {
      assert shorter[i] == list[i];
      SignOutsReach(shorter, id, up, i);
    }
  }

  lemma {:induction false} SignOutsOnlyTo(list: seq<Member>, id: seq<bv8>, up: set<Address>, x: Message)
    requires x in SignOuts(list, id, up)
    ensures exists i :: 0 < i < |list| && At(list[i]) in up && x == SignOut(At(list[i]), id)
  {
    var k := |list| - 1;
    if At(list[k]) in up && x == SignOut(At(list[k]), id) {
    } else {
      SignOutsOnlyTo(list[..k], id, up, x);
      var i :| 0 < i < k && At(list[..k][i]) in up && x == SignOut(At(list[..k][i]), id);
      assert list[..k][i] == list[i];
    }
  }

  /** Nobody is told twice. */
  lemma {:induction false} SignOutsOnce(list: seq<Member>, id: seq<bv8>, up: set<Address>)
    requires Distinct(list)
    ensures NoRepeats(SignOuts(list, id, up))
  {
    if |list| <= 1 {
    } else {
      var k := |list| - 1;
      SignOutsOnce(list[..k], id, up);
      var sent := SignOuts(list[..k], id, up);
      forall j | 0 <= j < |sent| ensures sent[j] != SignOut(At(list[k]), id) {
        assert sent[j] in sent;
        SignOutsOnlyTo(list[..k], id, up, sent[j]);
        var i :| 0 < i < k && sent[j] == SignOut(At(list[..k][i]), id);
        assert !Clashes(list[i], list[k]);
      }
    }
  }

  lemma TellsExactly(s: State, a: Address, c: Address)
    requires a in s.nodes && s.nodes[a].list != []
    ensures Bye(s, a, c) in SignOuts(s.nodes[a].list, Own(s, a).id, s.nodes.Keys) <==> Told(s, a, c)
  {
    var l, id, up := s.nodes[a].list, Own(s, a).id, s.nodes.Keys;
    if Told(s, a, c) {
      var i :| 0 < i < |l| && At(l[i]) == c;
      SignOutsReach(l, id, up, i);
    }
    if Bye(s, a, c) in SignOuts(l, id, up) {
      SignOutsOnlyTo(l, id, up, Bye(s, a, c));
    }
  }

  // ---------------------------------------------------------------- what every delivery keeps

  /** c has still to be told. */
  ghost predicate Pending(s: State, a: Address, t: State, c: Address)
    requires a in s.nodes && s.nodes[a].list != []
  {
    Bye(s, a, c) in t.net
  }

  ghost predicate LetterOk(s: State, a: Address, m: Message)
    requires a in s.nodes && s.nodes[a].list != []
  {
    || (m.Listing? && s.net != [] && Own(s, a) !in m.entries)
    || (Told(s, a, m.dest) && m == Bye(s, a, m.dest))
  }

  /** What c holds in t, against what it held when a quit in s. */
  ghost predicate NodeOk(s: State, a: Address, c: Address, pending: bool, n: Node)
    requires a in s.nodes && s.nodes[a].list != [] && c in s.nodes
  {
    var x, before := Own(s, a), s.nodes[c];
    && (forall y | y in before.list && y != x :: y in n.list)
    && (s.net == [] ==> forall y | y in n.list :: y in before.list)
    && (if Told(s, a, c) && !pending then x !in n.list else x in n.list <==> x in before.list)
    && (n.jammed <==> before.jammed || (Told(s, a, c) && !pending && x !in before.list))
  }

  ghost predicate ByesOnce(net: seq<Message>) {
    forall i, j | 0 <= i < j < |net| :: net[i].SignOut? ==> net[i] != net[j]
  }

  ghost predicate NetOk(s: State, a: Address, net: seq<Message>)
    requires a in s.nodes && s.nodes[a].list != []
  {
    && (forall m | m in net :: LetterOk(s, a, m))
    && ByesOnce(net)
  }

  ghost predicate Leaving(d: set<Member>, s: State, a: Address, t: State) {
    && Quiet(d, s, a) && Provenance(d, t)
    && t.nodes.Keys == s.nodes.Keys - {a}
    && NetOk(s, a, t.net)
    && forall c | c in t.nodes :: NodeOk(s, a, c, Pending(s, a, t, c), t.nodes[c])
  }

  lemma QuitStarts(d: set<Member>, s: State, a: Address)
    requires Quiet(d, s, a)
    ensures Leaving(d, s, a, Quitting(s, a))
  {
    hide Distinct, Directory;
    var t := Quitting(s, a);
    var l := s.nodes[a].list;
    var sent := SignOuts(l, l[0].id, s.nodes.Keys);
    QuittingKeeps(d, s, a);
    assert Home(d, a, l);
    SignOutsOnce(l, l[0].id, s.nodes.Keys);
    forall m | m in t.net ensures LetterOk(s, a, m) {
      if m !in s.net {
        SignOutsOnlyTo(l, l[0].id, s.nodes.Keys, m);
        TellsExactly(s, a, m.dest);
      }
    }
    OnceInAll(s.net, sent);
    forall c | c in t.nodes ensures NodeOk(s, a, c, Pending(s, a, t, c), t.nodes[c]) {
      TellsExactly(s, a, c);
      assert t.nodes[c] == s.nodes[c];
    }
  }

  lemma OnceInAll(net: seq<Message>, sent: seq<Message>)
    requires forall m | m in net :: m.Listing?
    requires NoRepeats(sent) && forall m | m in sent :: m.SignOut?
    ensures ByesOnce(net + sent)
  {
    var all := net + sent;
    forall k | 0 <= k < |net| ensures all[k].Listing? {
      assert all[k] in net;
    }
    forall i, j | 0 <= i < j < |all| && all[i].SignOut? ensures all[i] != all[j] {
      assert all[i] == sent[i - |net|] && all[j] == sent[j - |net|];
    }
  }

  /** Only the entry of the one who quit answers to its name. */
  lemma NameIsOwn(d: set<Member>, s: State, a: Address, c: Address, n: Node)
    requires Quiet(d, s, a) && c != a && Home(d, c, n.list)
    ensures forall i | 0 <= i < |n.list| :: SameId(n.list[i].id, Own(s, a).id) <==> n.list[i] == Own(s, a)
    ensures n.list[0] != Own(s, a)
  {
    var x := Own(s, a);
    assert Home(d, a, s.nodes[a].list);
    forall i | 0 <= i < |n.list| ensures SameId(n.list[i].id, x.id) <==> n.list[i] == x {
      assert SameId(n.list[i].id, x.id) ==> Clashes(n.list[i], x);
    }
  }

  lemma LettersAfter(s: State, a: Address, net: seq<Message>, i: nat, sent: seq<Message>)
    requires a in s.nodes && s.nodes[a].list != [] && i < |net|
    requires forall m | m in net :: LetterOk(s, a, m)
    requires forall m | m in sent :: m.Listing? && s.net != [] && Own(s, a) !in m.entries
    ensures forall m | m in Without(net, i) + sent :: LetterOk(s, a, m)
  {
    hide Told, Own;
    forall m | m in Without(net, i) + sent ensures LetterOk(s, a, m) {
      WithoutKeeps(net, i, m);
    }
  }

  lemma OnceAfter(net: seq<Message>, i: nat, sent: seq<Message>)
    requires ByesOnce(net) && i < |net| && forall m | m in sent :: m.Listing?
    ensures ByesOnce(Without(net, i) + sent)
  {
    var rest := Without(net, i);
    var all := rest + sent;
    forall j, k | 0 <= j < k < |all| && all[j].SignOut? ensures all[j] != all[k] {
      if k < |rest| {
        assert all[j] == net[Back(i, j)] && all[k] == net[Back(i, k)];
      } else {
        assert all[k] == sent[k - |rest|] && all[k] in sent;
      }
    }
  }

  /** Once it is handled, a sign-out is gone. */
  lemma ByeIsGone(net: seq<Message>, i: nat, x: Message)
    requires ByesOnce(net) && i < |net| && x.SignOut?
    ensures x in Without(net, i) <==> x in net && x != net[i]
  {
    WithoutKeeps(net, i, x);
    var rest := Without(net, i);
    if x in rest {
      var k :| 0 <= k < |rest| && rest[k] == x;
      assert net[Back(i, k)] == x;
    }
  }

  lemma NetAfter(s: State, a: Address, net: seq<Message>, i: nat, sent: seq<Message>)
    requires a in s.nodes && s.nodes[a].list != []
    requires NetOk(s, a, net) && i < |net|
    requires forall m | m in sent :: m.Listing? && s.net != [] && Own(s, a) !in m.entries
    ensures NetOk(s, a, Without(net, i) + sent)
    ensures forall c :: Bye(s, a, c) in Without(net, i) + sent <==> Bye(s, a, c) in net && Bye(s, a, c) != net[i]
  {
    LettersAfter(s, a, net, i, sent);
    OnceAfter(net, i, sent);
    hide LetterOk, Own, ByesOnce, Without;
    forall c ensures Bye(s, a, c) in Without(net, i) + sent <==> Bye(s, a, c) in net && Bye(s, a, c) != net[i] {
      ByeIsGone(net, i, Bye(s, a, c));
    }
  }

  lemma ByeHandled(d: set<Member>, s: State, a: Address, c: Address, n: Node)
    requires Quiet(d, s, a) && c in s.nodes && c != a && Home(d, c, n.list) && !n.jammed
    requires Told(s, a, c) && NodeOk(s, a, c, true, n)
    ensures NodeOk(s, a, c, false, After(n, Bye(s, a, c)))
  {
    var x, t := Own(s, a), After(n, Bye(s, a, c));
    NameIsOwn(d, s, a, c, n);
    SignOutRemoves(n, c, x.id);
    hide SameId, Distinct, Directory, After, Told, Quiet;
    forall y | y in n.list && y != x ensures y in t.list {
      var i :| 0 <= i < |n.list| && n.list[i] == y;
      assert i > 0 ==> !SameId(n.list[i].id, x.id);
    }
    if x in n.list {
      var i :| 0 <= i < |n.list| && n.list[i] == x;
      assert SameId(n.list[i].id, x.id);
    }
  }

  lemma ListingHandled(d: set<Member>, s: State, a: Address, c: Address, pending: bool, n: Node, m: Message)
    requires Quiet(d, s, a) && c in s.nodes && Home(d, c, n.list) && Honest(d, m)
    requires m.Listing? && s.net != [] && Own(s, a) !in m.entries && NodeOk(s, a, c, pending, n)
    ensures NodeOk(s, a, c, pending, After(n, m))
  {
    hide Distinct, Told;
    var x := Own(s, a);
    MergeIsUnion(n.list, m.entries, d);
    assert x in Set(Merge(n.list, m.entries)) <==> x in Set(n.list) || x in Set(m.entries);
  }

  lemma OthersStay(s: State, a: Address, t: State, i: nat, c: Address)
    requires a in s.nodes && s.nodes[a].list != [] && c in s.nodes && c in t.nodes
    requires Deliverable(t, i) && c != t.net[i].dest && NetOk(s, a, t.net)
    requires NodeOk(s, a, c, Pending(s, a, t, c), t.nodes[c])
    requires forall x :: Bye(s, a, x) in Delivered(t, i).net <==> Bye(s, a, x) in t.net && Bye(s, a, x) != t.net[i]
    ensures NodeOk(s, a, c, Pending(s, a, Delivered(t, i), c), Delivered(t, i).nodes[c])
  {
    hide NodeOk, NetOk;
    assert Bye(s, a, c) != t.net[i];
    assert Delivered(t, i).nodes[c] == t.nodes[c];
  }

  lemma SentQuietly(s: State, a: Address, n: Node, m: Message, up: set<Address>)
    requires a in s.nodes && s.nodes[a].list != [] && LetterOk(s, a, m)
    ensures forall x | x in Sent(n, m, up) :: x.Listing? && s.net != [] && Own(s, a) !in x.entries
  {
  }

  lemma DeliveryKeepsLeaving(d: set<Member>, s: State, a: Address, t: State, i: nat)
    requires Leaving(d, s, a, t) && Deliverable(t, i)
    ensures Leaving(d, s, a, Delivered(t, i))
  {
    var m, u := t.net[i], Delivered(t, i);
    var n := t.nodes[m.dest];
    assert m in t.net && LetterOk(s, a, m) && Honest(d, m);
    assert Home(d, m.dest, n.list);
    DeliveryKeeps(d, t, i);
    hide Quiet, Provenance, Home, Honest, Told, Own, NodeOk, NetOk, After, Sent, LetterOk;
    SentQuietly(s, a, n, m, t.nodes.Keys);
    NetAfter(s, a, t.net, i, Sent(n, m, t.nodes.Keys));
    assert u.nodes.Keys == t.nodes.Keys;
    DestKeeps(d, s, a, t, i);
    forall c | c in u.nodes ensures NodeOk(s, a, c, Pending(s, a, u, c), u.nodes[c]) {
      if c != m.dest {
        OthersStay(s, a, t, i, c);
      }
    }
  }

  lemma DestKeeps(d: set<Member>, s: State, a: Address, t: State, i: nat)
    requires Leaving(d, s, a, t) && Deliverable(t, i)
    requires forall x :: Bye(s, a, x) in Delivered(t, i).net <==> Bye(s, a, x) in t.net && Bye(s, a, x) != t.net[i]
    ensures var c, u := t.net[i].dest, Delivered(t, i);
            NodeOk(s, a, c, Pending(s, a, u, c), u.nodes[c])
  {
    var m := t.net[i];
    var n := t.nodes[m.dest];
    assert m in t.net && LetterOk(s, a, m) && Honest(d, m);
    assert Home(d, m.dest, n.list);
    hide Quiet, Provenance, Home, Honest, Told, NodeOk, NetOk, After, Sent;
    if m.Listing? {
      ListingHandled(d, s, a, m.dest, Pending(s, a, t, m.dest), n, m);
    } else {
      ByeHandled(d, s, a, m.dest, n);
    }
  }

  // ---------------------------------------------------------------- whole runs

  /** a quits in s, and after that packets are only delivered, in any order. */
  ghost predicate QuitRun(d: set<Member>, s: State, a: Address, run: seq<State>) {
    && Quiet(d, s, a) && run != [] && run[0] == Quitting(s, a)
    && forall i | 0 < i < |run| :: Deliver(run[i - 1], run[i])
  }

  lemma {:induction false} RunLeaving(d: set<Member>, s: State, a: Address, run: seq<State>, i: nat)
    requires QuitRun(d, s, a, run) && i < |run|
    ensures Leaving(d, s, a, run[i])
  {
    hide Quiet, Leaving, Deliverable, Delivered, Quitting;
    if i == 0 {
      QuitStarts(d, s, a);
    } else {
      RunLeaving(d, s, a, run, i - 1);
      assert Deliver(run[i - 1], run[i]);
      var k :| Deliverable(run[i - 1], k) && run[i] == Delivered(run[i - 1], k);
      DeliveryKeepsLeaving(d, s, a, run[i - 1], k);
    }
  }

  /** Departure. Once its sign-out has been handled, no program that was told still lists the one who
      quit. Nobody loses anybody else, nor gains anybody if nothing else was on its way; whoever was not
      told knows what it knew; and a program gets stuck exactly when it was told of somebody it did not
      know. */
  lemma Departs(d: set<Member>, s: State, a: Address, run: seq<State>, c: Address)
    requires QuitRun(d, s, a, run) && c in s.nodes && c != a
    ensures c in run[|run| - 1].nodes
    ensures var x, before, t := Own(s, a), s.nodes[c], run[|run| - 1];
            var after, pending := t.nodes[c], Bye(s, a, c) in t.net;
            && (Told(s, a, c) && !pending ==> x !in after.list)
            && (pending || !Told(s, a, c) ==> (x in after.list <==> x in before.list))
            && (forall y | y in before.list && y != x :: y in after.list)
            && (s.net == [] ==> forall y | y in after.list :: y in before.list)
            && (after.jammed <==> before.jammed || (Told(s, a, c) && !pending && x !in before.list))
  {
    RunLeaving(d, s, a, run, |run| - 1);
    hide Quiet, Provenance, NetOk, Told, Own;
    assert c in run[|run| - 1].nodes;
  }

  /** In the group that Convergence leaves behind, where everybody lists everybody, nobody gets stuck, and
      when nothing is on its way any more everybody else still lists everybody else, once, and a no more. */
  lemma GroupShrinks(d: set<Member>, s: State, a: Address, run: seq<State>, c: Address)
    requires QuitRun(d, s, a, run) && c in s.nodes && c != a && !s.nodes[c].jammed
    requires Told(s, a, c) && Set(s.nodes[a].list) == Set(s.nodes[c].list)
    requires run[|run| - 1].net == [] && s.net == []
    ensures c in run[|run| - 1].nodes && !run[|run| - 1].nodes[c].jammed
    ensures Distinct(run[|run| - 1].nodes[c].list)
    ensures Set(run[|run| - 1].nodes[c].list) == Set(s.nodes[c].list) - {Own(s, a)}
  {
    Departs(d, s, a, run, c);
    RunLeaving(d, s, a, run, |run| - 1);
    hide Quiet, Told;
    var t := run[|run| - 1];
    assert Home(d, c, t.nodes[c].list);
    assert Own(s, a) in Set(s.nodes[a].list) by { OwnListed(d, s, a); }
  }

  lemma OwnListed(d: set<Member>, s: State, a: Address)
    requires Quiet(d, s, a)
    ensures Own(s, a) in Set(s.nodes[a].list)
  {
  }

  /** So two groups can meet and anyone can part from them again: what a meeting ends with is quiet, and a
      quit is announced to everybody else. */
  lemma MeetThenPart(c: Convergence.Meeting, start: State, run: seq<State>, m: Member, n: Member)
    requires Convergence.MeetingRun(c, start, run) && run[|run| - 1].net == []
    requires m in c.All() && n in c.All() && m != n
    ensures var s := run[|run| - 1];
            && Quiet(c.All(), s, At(m)) && Own(s, At(m)) == m
            && Told(s, At(m), At(n)) && !s.nodes[At(n)].jammed
            && Set(s.nodes[At(m)].list) == Set(s.nodes[At(n)].list) == c.All()
  {
    var s := run[|run| - 1];
    Convergence.Converges(c, start, run);
    Convergence.RunUnderway(c, start, run, |run| - 1);
    NobodyJammed(c, s, m);
    NobodyJammed(c, s, n);
    hide Convergence.MeetingRun, Convergence.Underway, Distinct, Directory;
    assert Convergence.Lists(s.nodes[At(m)].list, m, c.All()) && Convergence.Lists(s.nodes[At(n)].list, n, c.All());
    EndIsHonest(c, s);
    ToldInGroup(c, s, m, n);
  }

  lemma NobodyJammed(c: Convergence.Meeting, s: State, m: Member)
    requires Convergence.Underway(c, s) && m in c.All()
    ensures At(m) in s.nodes && !s.nodes[At(m)].jammed && Directory(c.All())
  {
    hide Distinct, Directory;
    assert Convergence.NodeOk(c, m, s.nodes[At(m)]);
  }

  lemma EndIsHonest(c: Convergence.Meeting, s: State)
    requires Convergence.EveryoneIn(c, s) && s.net == []
    requires forall k | k in c.All() :: Convergence.Lists(s.nodes[At(k)].list, k, c.All())
    ensures Provenance(c.All(), s)
  {
    hide Convergence.Lists, Home;
    forall a | a in s.nodes ensures Home(c.All(), a, s.nodes[a].list) {
      var k :| k in c.All() && At(k) == a;
      ListedIsHome(c, k, s.nodes[a].list);
    }
  }

  lemma ToldInGroup(c: Convergence.Meeting, s: State, m: Member, n: Member)
    requires m in c.All() && n in c.All() && m != n && At(m) in s.nodes && At(n) in s.nodes
    requires Convergence.Lists(s.nodes[At(m)].list, m, c.All())
    ensures Told(s, At(m), At(n))
  {
    hide Distinct;
    var l := s.nodes[At(m)].list;
    Convergence.InSet(l, n);
    var i :| 0 <= i < |l| && l[i] == n;
    assert i > 0 && At(l[i]) == At(n);
  }

  lemma ListedIsHome(c: Convergence.Meeting, k: Member, list: seq<Member>)
    requires Convergence.Lists(list, k, c.All())
    ensures Home(c.All(), At(k), list)
  {
    hide Distinct;
    forall i | 0 <= i < |list| ensures list[i] in c.All() {
      assert list[i] in Set(list);
    }
  }
}

/** Two groups meet: one sign-in across, and everyone ends up knowing everyone. */
module Convergence {
  import opened Members
  import opened Sequences
  import opened Gossip

  /** a, one of ga, signs in to b, one of gb; la and lb are the lists the two hold at that moment. */
  datatype Meeting = Meeting(ga: set<Member>, gb: set<Member>, a: Member, b: Member, la: seq<Member>, lb: seq<Member>)
  {
    /** No name and no address is in both groups. */
    ghost predicate Valid() {
      && ga !! gb && Directory(ga + gb) && a in ga && b in gb
      && Lists(la, a, ga) && Lists(lb, b, gb)
    }

    function All(): set<Member> { ga + gb }

    function Own(m: Member): set<Member> { if m in gb then gb else ga }

    /** What m has to be told. */
    function News(m: Member): seq<Member> { if m in gb then la else lb }

    function Request(): Message { SignIn(At(a), At(b), la) }

    function Tell(m: Member): Message { Listing(At(m), News(m)) }
  }

  /** list has exactly the members of group, each once, m first. */
  ghost predicate Lists(list: seq<Member>, m: Member, group: set<Member>) {
    list != [] && list[0] == m && Distinct(list) && Set(list) == group
  }

  /** m knows exactly its own group and is not signing in. */
  ghost predicate Fresh(c: Meeting, m: Member, n: Node) {
    Lists(n.list, m, c.Own(m)) && !n.sign && !n.jammed
  }

  /** Everybody knows exactly the own group, nobody is signing in, nothing is on its way. */
  ghost predicate Before(c: Meeting, s: State) {
    && c.Valid() && s.net == []
    && s.nodes.Keys == (set m | m in c.All() :: At(m))
    && (forall m | m in c.All() :: Fresh(c, m, s.nodes[At(m)]))
    && s.nodes[At(c.a)].list == c.la && s.nodes[At(c.b)].list == c.lb
  }

  /** Two programs that have only just started and are not the same can meet like this. */
  lemma StrangersCanMeet(a: Member, b: Member)
    requires !Clashes(a, b) && !Clashes(b, a)
    ensures Before(Meeting({a}, {b}, a, b, [a], [b]), Starting(Starting(State(map[], []), a), b))
  {
    var c := Meeting({a}, {b}, a, b, [a], [b]);
    assert Set([a]) == {a} && Set([b]) == {b};
    assert c.All() == {a, b};
    var s := Starting(Starting(State(map[], []), a), b);
    assert s.nodes[At(a)] == Node([a], false, false) && s.nodes[At(b)] == Node([b], false, false);
  }

  // ---------------------------------------------------------------- what every delivery keeps

  ghost predicate NodeOk(c: Meeting, m: Member, n: Node) {
    && n.list != [] && n.list[0] == m && Distinct(n.list) && !n.jammed
    && c.Own(m) <= Set(n.list) <= c.All()
    && (n.sign ==> m == c.a && n.list == c.la)
  }

  ghost predicate Knowing(c: Meeting, m: Member, n: Node) {
    Lists(n.list, m, c.All())
  }

  ghost predicate LetterOk(c: Meeting, x: Message) {
    x == c.Request() || exists m :: m in c.All() && x == c.Tell(m)
  }

  /** The packet that will tell m is on its way, or is still going to be sent. */
  ghost predicate Expecting(c: Meeting, s: State, m: Member)
    requires At(c.a) in s.nodes
  {
    || c.Tell(m) in s.net
    || c.Request() in s.net
    || (m in c.ga && m != c.a && s.nodes[At(c.a)].sign)
  }

  ghost predicate EveryoneIn(c: Meeting, s: State) {
    s.nodes.Keys == set m | m in c.All() :: At(m)
  }

  ghost predicate NodesOk(c: Meeting, s: State)
    requires EveryoneIn(c, s)
  {
    forall m | m in c.All() :: NodeOk(c, m, s.nodes[At(m)])
  }

  ghost predicate Underway(c: Meeting, s: State) {
    && c.Valid() && EveryoneIn(c, s) && NodesOk(c, s)
    && (forall x | x in s.net :: LetterOk(c, x))
    && (c.Request() in s.net ==>
          s.net == [c.Request()] && s.nodes[At(c.a)].sign && s.nodes[At(c.b)].list == c.lb)
    && (forall m | m in c.All() :: Knowing(c, m, s.nodes[At(m)]) || Expecting(c, s, m))
  }

  /** How many packets are still going to be handled. */
  function Remaining(c: Meeting, s: State): int
    requires At(c.a) in s.nodes
  {
    NetWeight(s.net, |c.gb|) + if s.nodes[At(c.a)].sign then |c.ga| - 1 else 0
  }

  lemma OneAddressEach(c: Meeting, m: Member, n: Member)
    requires c.Valid() && m in c.All() && n in c.All() && At(m) == At(n)
    ensures m == n
  {
    assert Clashes(m, n);
  }

  lemma InSet(s: seq<Member>, m: Member)
    requires m in Set(s)
    ensures exists i :: 0 <= i < |s| && s[i] == m
  {
  }

  lemma {:induction false} ForwardReaches(list: seq<Member>, entries: seq<Member>, up: set<Address>, i: nat)
    requires 0 < i < |list| && At(list[i]) in up
    ensures Listing(At(list[i]), entries) in Forward(list, entries, up)
  {
    var shorter := list[..|list| - 1];
    if i < |list| - 1 {
      assert shorter[i] == list[i];
      ForwardReaches(shorter, entries, up, i);
    }
  }

  lemma {:induction false} ForwardOnlyTo(list: seq<Member>, entries: seq<Member>, up: set<Address>, x: Message)
    requires x in Forward(list, entries, up)
    ensures exists i :: 0 < i < |list| && x == Listing(At(list[i]), entries)
  {
    var last := |list| - 1;
    if x == Listing(At(list[last]), entries) {
    } else {
      ForwardOnlyTo(list[..last], entries, up, x);
      var i :| 0 < i < last && x == Listing(At(list[..last][i]), entries);
      assert list[..last][i] == list[i];
    }
  }

  /** What a node forwards from its first list tells each of its group, and nobody else. */
  lemma ForwardTells(c: Meeting, s: State, m: Member, list: seq<Member>, entries: seq<Member>)
    requires c.Valid() && EveryoneIn(c, s) && m in c.All() && Lists(list, m, c.Own(m))
    requires entries == c.News(m)
    ensures forall n | n in c.Own(m) && n != m :: c.Tell(n) in Forward(list, entries, s.nodes.Keys)
    ensures forall x | x in Forward(list, entries, s.nodes.Keys) :: LetterOk(c, x) && x.Listing?
    ensures |Forward(list, entries, s.nodes.Keys)| == |c.Own(m)| - 1
  {
    hide Distinct, Directory, Forward;
    var up := s.nodes.Keys;
    forall i | 0 <= i < |list| ensures list[i] in c.Own(m) && At(list[i]) in up {
      assert list[i] in Set(list);
    }
    forall n | n in c.Own(m) && n != m ensures c.Tell(n) in Forward(list, entries, up) {
      InSet(list, n);
      var i :| 0 <= i < |list| && list[i] == n;
      ForwardReaches(list, entries, up, i);
    }
    forall x | x in Forward(list, entries, up) ensures LetterOk(c, x) && x.Listing? {
      ForwardOnlyTo(list, entries, up, x);
      var i :| 0 < i < |list| && x == Listing(At(list[i]), entries);
      assert x == c.Tell(list[i]);
    }
    ForwardLength(list, entries, up);
    SetSize(list);
  }

  /** Being told the other group's list is enough. */
  lemma Learns(c: Meeting, m: Member, n: Node, entries: seq<Member>)
    requires c.Valid() && m in c.All() && NodeOk(c, m, n) && Set(entries) == c.All() - c.Own(m)
    ensures Knowing(c, m, n.(list := Merge(n.list, entries), sign := false))
    ensures NodeOk(c, m, n.(list := Merge(n.list, entries), sign := false))
  {
    hide Distinct, Directory, Clashes, Merge;
    forall i | 0 <= i < |n.list| ensures n.list[i] in c.All() {
      assert n.list[i] in Set(n.list);
    }
    forall i | 0 <= i < |entries| ensures entries[i] in c.All() {
      assert entries[i] in Set(entries);
    }
    MergeIsUnion(n.list, entries, c.All());
  }

  lemma SameAddress(c: Meeting, m: Member, n: Member)
    requires c.Valid() && m in c.All() && n in c.All()
    ensures At(m) == At(n) <==> m == n
  {
    if At(m) == At(n) {
      OneAddressEach(c, m, n);
    }
  }

  /** The news for m is the members m does not start with. */
  lemma NewsIsTheRest(c: Meeting, m: Member)
    requires c.Valid() && m in c.All()
    ensures Set(c.News(m)) == c.All() - c.Own(m)
  {
  }

  lemma NotYetKnown(c: Meeting, n: Node)
    requires c.Valid() && n.list == c.la
    ensures !Knowing(c, c.a, n)
  {
    assert c.b in c.All() && c.b !in c.ga;
  }

  // ---------------------------------------------------------------- the sign-in arrives

  lemma RequestSends(c: Meeting, up: set<Address>, n: Node)
    requires c.Valid() && n.list == c.lb && At(c.a) in up
    ensures Sent(n, c.Request(), up) == Forward(c.lb, c.la, up) + [c.Tell(c.a)]
  {
    hide Distinct, Directory;
  }

  lemma RequestWeighs(c: Meeting, s: State)
    requires Underway(c, s) && c.Request() in s.net
    ensures NetWeight(s.net, |c.gb|) == |c.gb| + 1
    ensures NetWeight(Sent(s.nodes[At(c.b)], c.Request(), s.nodes.Keys), |c.gb|) == |c.gb|
  {
    hide Distinct, Directory, Forward, NodeOk;
    var up := s.nodes.Keys;
    var f := Forward(c.lb, c.la, up);
    RequestSends(c, up, s.nodes[At(c.b)]);
    ForwardTells(c, s, c.b, c.lb, c.la);
    WeightConcat(f, [c.Tell(c.a)], |c.gb|);
    WeightOfListings(f, |c.gb|);
    WeightOfListings([c.Tell(c.a)], |c.gb|);
    assert s.net == [] + [c.Request()];
  }

  lemma RequestKeepsNodes(c: Meeting, s: State, i: nat)
    requires Underway(c, s) && Deliverable(s, i) && s.net[i] == c.Request()
    ensures var t := Delivered(s, i);
            && EveryoneIn(c, t) && NodesOk(c, t) && Knowing(c, c.b, t.nodes[At(c.b)])
            && t.nodes[At(c.a)] == s.nodes[At(c.a)]
  {
    hide Distinct, Directory, Set, Merge, NodeOk, Knowing, Sent;
    var t, n := Delivered(s, i), s.nodes[At(c.b)];
    assert NodeOk(c, c.b, n);
    SignOnlyAtA(c, c.b, n);
    NewsIsTheRest(c, c.b);
    Learns(c, c.b, n, c.la);
    SameAddress(c, c.a, c.b);
    assert t.nodes.Keys == s.nodes.Keys;
    forall m | m in c.All() ensures NodeOk(c, m, t.nodes[At(m)]) {
      SameAddress(c, m, c.b);
      assert m != c.b ==> t.nodes[At(m)] == s.nodes[At(m)];
    }
  }

  lemma SignOnlyAtA(c: Meeting, m: Member, n: Node)
    requires c.Valid() && m in c.All() && NodeOk(c, m, n)
    ensures n.sign ==> m == c.a
  {
  }

  lemma RequestArrives(c: Meeting, s: State, i: nat)
    requires Underway(c, s) && Deliverable(s, i) && s.net[i] == c.Request()
    ensures Underway(c, Delivered(s, i)) && Remaining(c, Delivered(s, i)) == Remaining(c, s) - 1
  {
    hide Distinct, Directory, Forward, Set, NetWeight, Merge, NodeOk, Knowing, Sent, After;
    var t, up := Delivered(s, i), s.nodes.Keys;
    assert c.Request() in s.net;
    RequestKeepsNodes(c, s, i);
    RequestSends(c, up, s.nodes[At(c.b)]);
    ForwardTells(c, s, c.b, c.lb, c.la);
    assert Without(s.net, i) == [];
    assert t.net == Forward(c.lb, c.la, up) + [c.Tell(c.a)];
    assert c.Tell(c.a) in t.net;
    assert LetterOk(c, c.Tell(c.a));
    forall m | m in c.All()
      ensures Knowing(c, m, t.nodes[At(m)]) || Expecting(c, t, m)
    {
      assert m in c.gb && m != c.b ==> c.Tell(m) in t.net;
    }
    RequestWeighs(c, s);
    assert t.net == Sent(s.nodes[At(c.b)], c.Request(), up);
  }

  // ---------------------------------------------------------------- a list arrives

  lemma TellKeepsNodes(c: Meeting, s: State, i: nat, m: Member)
    requires Underway(c, s) && Deliverable(s, i) && m in c.All() && s.net[i] == c.Tell(m)
    ensures var t := Delivered(s, i);
            && EveryoneIn(c, t) && NodesOk(c, t) && Knowing(c, m, t.nodes[At(m)])
            && !t.nodes[At(m)].sign
            && forall x | x in c.All() && x != m :: t.nodes[At(x)] == s.nodes[At(x)]
  {
    hide Distinct, Directory, Set, Merge, NodeOk, Knowing, Sent;
    var t, n := Delivered(s, i), s.nodes[At(m)];
    assert NodeOk(c, m, n);
    NewsIsTheRest(c, m);
    Learns(c, m, n, c.News(m));
    assert t.nodes.Keys == s.nodes.Keys;
    forall x | x in c.All()
      ensures NodeOk(c, x, t.nodes[At(x)])
      ensures x != m ==> t.nodes[At(x)] == s.nodes[At(x)]
    {
      SameAddress(c, x, m);
      assert x != m ==> t.nodes[At(x)] == s.nodes[At(x)];
    }
  }

  /** A list is passed on by nobody but the node that signed in. */
  lemma TellSends(c: Meeting, s: State, m: Member)
    requires Underway(c, s) && m in c.All()
    ensures var n := s.nodes[At(m)];
            var sent := Sent(n, c.Tell(m), s.nodes.Keys);
            && (n.sign ==> m == c.a)
            && (forall x | x in sent :: LetterOk(c, x) && x.Listing?)
            && |sent| == (if n.sign then |c.ga| - 1 else 0)
            && (n.sign ==> forall x | x in c.ga && x != c.a :: c.Tell(x) in sent)
  {
    hide Distinct, Directory, Forward, Set, LetterOk;
    var n := s.nodes[At(m)];
    assert NodeOk(c, m, n);
    if n.sign {
      ForwardTells(c, s, c.a, c.la, c.lb);
      FirstAlone(n.list, c.lb, s.nodes.Keys);
    }
  }

  lemma FirstAlone(list: seq<Member>, entries: seq<Member>, up: set<Address>)
    ensures |list| <= 1 ==> Forward(list, entries, up) == []
  {
  }

  lemma TellLettersOk(c: Meeting, s: State, i: nat, m: Member)
    requires Underway(c, s) && Deliverable(s, i) && m in c.All() && s.net[i] == c.Tell(m)
    ensures c.Request() !in s.net && c.Request() !in Delivered(s, i).net
    ensures forall x | x in Delivered(s, i).net :: LetterOk(c, x)
  {
    hide Distinct, Directory, NodeOk, Knowing, Sent, After, LetterOk, Without, NodesOk, EveryoneIn;
    var sent := Sent(s.nodes[At(m)], c.Tell(m), s.nodes.Keys);
    TellSends(c, s, m);
    assert c.Tell(m) in s.net;
    forall x | x in Delivered(s, i).net ensures LetterOk(c, x) && x in s.net + sent {
      WithoutKeeps(s.net, i, x);
    }
  }

  lemma TellExpecting(c: Meeting, s: State, i: nat, m: Member, x: Member)
    requires Underway(c, s) && Deliverable(s, i) && m in c.All() && s.net[i] == c.Tell(m)
    requires EveryoneIn(c, Delivered(s, i))
    requires x in c.All() && x != m && Expecting(c, s, x)
    ensures Expecting(c, Delivered(s, i), x)
  {
    hide Distinct, Directory, NodeOk, Knowing, Sent, After, LetterOk, Without;
    TellLettersOk(c, s, i, m);
    TellSends(c, s, m);
    SameAddress(c, x, m);
    SameAddress(c, c.a, m);
    WithoutKeeps(s.net, i, c.Tell(x));
    var t := Delivered(s, i);
    assert c.a != m ==> t.nodes[At(c.a)] == s.nodes[At(c.a)];
  }

  lemma TellWeighs(c: Meeting, s: State, i: nat, m: Member)
    requires Underway(c, s) && Deliverable(s, i) && m in c.All() && s.net[i] == c.Tell(m)
    requires EveryoneIn(c, Delivered(s, i))
    ensures Remaining(c, Delivered(s, i)) == Remaining(c, s) - 1
  {
    hide Distinct, Directory, Forward, Set, NetWeight, Merge, NodeOk, Knowing, Sent, Without, LetterOk;
    TellSends(c, s, m);
    SameAddress(c, c.a, m);
    var t := Delivered(s, i);
    var sent := Sent(s.nodes[At(m)], c.Tell(m), s.nodes.Keys);
    WeightRemoved(s.net, i, |c.gb|);
    WeightConcat(Without(s.net, i), sent, |c.gb|);
    WeightOfListings(sent, |c.gb|);
    assert c.a != m ==> t.nodes[At(c.a)] == s.nodes[At(c.a)];
  }

  lemma TellArrives(c: Meeting, s: State, i: nat, m: Member)
    requires Underway(c, s) && Deliverable(s, i) && m in c.All() && s.net[i] == c.Tell(m)
    ensures Underway(c, Delivered(s, i)) && Remaining(c, Delivered(s, i)) == Remaining(c, s) - 1
  {
    hide Distinct, Directory, NodeOk, Knowing, Sent, After, LetterOk, Without, Remaining;
    var t := Delivered(s, i);
    TellKeepsNodes(c, s, i, m);
    TellLettersOk(c, s, i, m);
    TellWeighs(c, s, i, m);
    forall x | x in c.All() ensures Knowing(c, x, t.nodes[At(x)]) || Expecting(c, t, x) {
      if x != m && !Knowing(c, x, s.nodes[At(x)]) {
        TellExpecting(c, s, i, m, x);
      }
    }
  }

  lemma DeliveryConverges(c: Meeting, s: State, i: nat)
    requires Underway(c, s) && Deliverable(s, i)
    ensures Underway(c, Delivered(s, i)) && Remaining(c, Delivered(s, i)) == Remaining(c, s) - 1
  {
    assert s.net[i] in s.net;
    hide Underway, Deliverable, Delivered, Remaining;
    UnderwayLetter(c, s, i);
    if s.net[i] == c.Request() {
      RequestArrives(c, s, i);
    } else {
      var m :| m in c.All() && s.net[i] == c.Tell(m);
      TellArrives(c, s, i, m);
    }
  }

  lemma UnderwayLetter(c: Meeting, s: State, i: nat)
    requires Underway(c, s) && i < |s.net|
    ensures s.net[i] == c.Request() || exists m :: m in c.All() && s.net[i] == c.Tell(m)
  {
    assert s.net[i] in s.net && LetterOk(c, s.net[i]);
  }

  // ---------------------------------------------------------------- whole runs

  lemma BeginsWithNodesOk(c: Meeting, s: State)
    requires Before(c, s)
    ensures At(c.a) in s.nodes && At(c.b) in s.nodes
    ensures var t := SigningIn(s, At(c.a), At(c.b));
            && EveryoneIn(c, t) && NodesOk(c, t)
            && t.nodes[At(c.a)].sign && t.nodes[At(c.b)].list == c.lb
  {
    hide Distinct, Directory;
    assert c.a in c.All() && c.b in c.All();
    var t := SigningIn(s, At(c.a), At(c.b));
    assert t.nodes.Keys == s.nodes.Keys;
    SameAddress(c, c.a, c.b);
    forall m | m in c.All() ensures NodeOk(c, m, t.nodes[At(m)]) {
      SameAddress(c, m, c.a);
      assert m != c.a ==> t.nodes[At(m)] == s.nodes[At(m)];
    }
  }

  lemma Begins(c: Meeting, s: State)
    requires Before(c, s)
    ensures At(c.a) in s.nodes && At(c.b) in s.nodes
    ensures var t := SigningIn(s, At(c.a), At(c.b));
            Underway(c, t) && Remaining(c, t) == |c.ga| + |c.gb|
  {
    hide Distinct, Directory, Set, NodesOk, Lists, EveryoneIn;
    BeginsWithNodesOk(c, s);
    var t := SigningIn(s, At(c.a), At(c.b));
    assert t.net == [c.Request()];
    assert c.Request() in t.net;
    assert NetWeight(t.net, |c.gb|) == |c.gb| + 1;
  }

  /** A packet on its way can always be handled. */
  lemma NeverStuck(c: Meeting, s: State)
    requires Underway(c, s) && s.net != []
    ensures Deliverable(s, 0)
  {
    UnderwayLetter(c, s, 0);
    hide NodesOk, Directory, Distinct;
  }

  lemma NothingRemains(c: Meeting, s: State)
    requires Underway(c, s)
    ensures s.net == [] <==> Remaining(c, s) == 0
    ensures s.net == [] ==> forall m | m in c.All() :: Knowing(c, m, s.nodes[At(m)]) && !s.nodes[At(m)].sign
  {
    hide Distinct, Directory, Forward;
    assert c.a in c.All();
    assert NodeOk(c, c.a, s.nodes[At(c.a)]);
    if s.nodes[At(c.a)].sign {
      NotYetKnown(c, s.nodes[At(c.a)]);
      assert Expecting(c, s, c.a);
    }
    HasMember(c.ga, c.a);
    WeightPositive(s.net, |c.gb|);
    if s.net == [] {
      forall m | m in c.All() ensures Knowing(c, m, s.nodes[At(m)]) && !s.nodes[At(m)].sign {
        assert NodeOk(c, m, s.nodes[At(m)]);
      }
    }
  }

  lemma HasMember<T>(s: set<T>, x: T)
    requires x in s
    ensures |s| > 0
  {
  }

  lemma {:induction false} WeightPositive(net: seq<Message>, n: nat)
    ensures NetWeight(net, n) >= |net|
  {
    if net == [] {
    } else {
      WeightPositive(net[1..], n);
    }
  }

  /** A run of reliable deliveries, in any order, after the sign-in. */
  ghost predicate MeetingRun(c: Meeting, start: State, run: seq<State>) {
    && Before(c, start) && run != []
    && At(c.a) in start.nodes && run[0] == SigningIn(start, At(c.a), At(c.b))
    && forall i | 0 < i < |run| :: Deliver(run[i - 1], run[i])
  }

  lemma {:induction false} RunUnderway(c: Meeting, start: State, run: seq<State>, i: nat)
    requires MeetingRun(c, start, run) && i < |run|
    ensures Underway(c, run[i]) && Remaining(c, run[i]) == |c.ga| + |c.gb| - i
  {
    hide Before, Underway, Deliverable, Delivered, Remaining, SigningIn;
    if i == 0 {
      Begins(c, start);
    } else {
      RunUnderway(c, start, run, i - 1);
      assert Deliver(run[i - 1], run[i]);
      var k :| Deliverable(run[i - 1], k) && run[i] == Delivered(run[i - 1], k);
      DeliveryConverges(c, run[i - 1], k);
    }
  }

  /** Convergence. However the packets are ordered, exactly as many are handled as there are members;
      until then another one can be; and then every list holds every member once, its owner first. */
  lemma Converges(c: Meeting, start: State, run: seq<State>)
    requires MeetingRun(c, start, run)
    ensures var s := run[|run| - 1];
            && |run| - 1 <= |c.ga| + |c.gb|
            && (s.net == [] <==> |run| - 1 == |c.ga| + |c.gb|)
            && (s.net != [] ==> exists t :: Deliver(s, t))
            && (s.net == [] ==> EveryoneIn(c, s) && forall m | m in c.All() ::
                  Lists(s.nodes[At(m)].list, m, c.All()) && !s.nodes[At(m)].sign)
  {
    hide Distinct, Directory, Remaining, Delivered, Deliverable, NodesOk, Before;
    var s := run[|run| - 1];
    RunUnderway(c, start, run, |run| - 1);
    NothingRemains(c, s);
    RemainingNotNegative(c, s);
    if s.net != [] {
      NeverStuck(c, s);
      assert Deliver(s, Delivered(s, 0));
    }
  }

  lemma RemainingNotNegative(c: Meeting, s: State)
    requires At(c.a) in s.nodes && c.a in c.ga
    ensures Remaining(c, s) >= 0
  {
    HasMember(c.ga, c.a);
  }

  /** No packet on the way lists more members than one of the groups has. */
  lemma PacketsStaySmall(c: Meeting, start: State, run: seq<State>, i: nat, x: Message)
    requires MeetingRun(c, start, run) && i < |run| && x in run[i].net
    ensures x.SignIn? || x.Listing?
    ensures |x.entries| == |c.ga| || |x.entries| == |c.gb|
  {
    hide Distinct, Directory, Remaining, NodesOk, Before, Deliver, Knowing, Expecting, EveryoneIn, Set;
    RunUnderway(c, start, run, i);
    assert LetterOk(c, x);
    SetSize(c.la);
    SetSize(c.lb);
  }
}

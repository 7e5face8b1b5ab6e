/** The membership protocol of Chat/src/task.c: nodes that handle one packet at a time, in any
    order, over a network that may lose packets but delivers what it delivers whole. */
module Gossip {
  import opened Members
  import opened Sequences

  /** What a program holds: its list, itself first, the flag that a sign-in is under way, and whether
      it has left its own mutex locked, after which it handles nothing any more. */
  datatype Node = Node(list: seq<Member>, sign: bool, jammed: bool)

  /** Where a packet goes. */
  datatype Address = Address(ip: bv32)

  function At(m: Member): Address {
    Address(m.ip)
  }

  datatype Message =
    | SignIn(from: Address, dest: Address, entries: seq<Member>)
    | Listing(dest: Address, entries: seq<Member>)  // a MEMBER_LIST packet
    | SignOut(dest: Address, id: seq<bv8>)

  // ---------------------------------------------------------------- what one node does

  /** send_update: the same entries to everyone after the head who can be reached. */
  function Forward(list: seq<Member>, entries: seq<Member>, up: set<Address>): (sent: seq<Message>)
    ensures forall m | m in sent :: m.Listing? && m.entries == entries && m.dest in up
  {
    if |list| <= 1 then []
    else
      var last := list[|list| - 1];
      Forward(list[..|list| - 1], entries, up) + (if At(last) in up then [Listing(At(last), entries)] else [])
  }

  /** The reply to a sign-in goes to the address in its first entry, and is the list as it was. */
  function Reply(list: seq<Member>, entries: seq<Member>, up: set<Address>): (sent: seq<Message>)
  {
    if entries != [] && At(entries[0]) in up then [Listing(At(entries[0]), list)] else []
  }

  /** recv_sign_in: forward, reply, merge. */
  ghost function OnSignIn(n: Node, entries: seq<Member>): Node {
    n.(list := Merge(n.list, entries))
  }

  function SentOnSignIn(n: Node, entries: seq<Member>, up: set<Address>): seq<Message> {
    (if |n.list| > 1 then Forward(n.list, entries, up) else []) + Reply(n.list, entries, up)
  }

  /** recv_member_list: forward only while signing in, merge, and the sign-in is over. */
  ghost function OnListing(n: Node, entries: seq<Member>): Node {
    n.(list := Merge(n.list, entries), sign := false)
  }

  function SentOnListing(n: Node, entries: seq<Member>, up: set<Address>): seq<Message> {
    if |n.list| > 1 && n.sign then Forward(n.list, entries, up) else []
  }

  /** recv_quit, which returns without unlocking when the name is not there. */
  ghost function OnSignOut(n: Node, id: seq<bv8>): Node {
    if Listed(n.list, id) then n.(list := Without(n.list, FirstListed(n.list, id, 1))) else n.(jammed := true)
  }

  ghost function FirstListed(s: seq<Member>, id: seq<bv8>, from: nat): (k: nat)
    requires Listed(s, id) && 0 < from <= |s|
    requires forall j | 0 < j < from :: !SameId(s[j].id, id)
    ensures FoundAt(s, id, k)
    decreases |s| - from
  {
    if from < |s| && !SameId(s[from].id, id) then FirstListed(s, id, from + 1) else from
  }

  function SignOuts(list: seq<Member>, id: seq<bv8>, up: set<Address>): (sent: seq<Message>)
    ensures forall m | m in sent :: m.SignOut?
  {
    if |list| <= 1 then []
    else
      var last := list[|list| - 1];
      SignOuts(list[..|list| - 1], id, up) + (if At(last) in up then [SignOut(At(last), id)] else [])
  }

  // ---------------------------------------------------------------- the whole network

  /** The programs that are running, by address, and the packets on their way. */
  datatype State = State(nodes: map<Address, Node>, net: seq<Message>)

  ghost predicate Deliverable(s: State, i: nat) {
    i < |s.net| && s.net[i].dest in s.nodes && !s.nodes[s.net[i].dest].jammed
  }

  ghost function After(n: Node, m: Message): Node {
    match m
    case SignIn(_, _, entries) => OnSignIn(n, entries)
    case Listing(_, entries) => OnListing(n, entries)
    case SignOut(_, id) => OnSignOut(n, id)
  }

  function Sent(n: Node, m: Message, up: set<Address>): seq<Message> {
    match m
    case SignIn(_, _, entries) => SentOnSignIn(n, entries, up)
    case Listing(_, entries) => SentOnListing(n, entries, up)
    case SignOut(_, _) => []
  }

  /** One node takes packet i off the network and handles it. */
  ghost function Delivered(s: State, i: nat): State
    requires Deliverable(s, i)
  {
    var m := s.net[i];
    var n := s.nodes[m.dest];
    State(s.nodes[m.dest := After(n, m)], Without(s.net, i) + Sent(n, m, s.nodes.Keys))
  }

  ghost predicate Deliver(s: State, t: State) {
    exists i :: Deliverable(s, i) && t == Delivered(s, i)
  }

  ghost predicate Lose(s: State, t: State) {
    exists i :: 0 <= i < |s.net| && t == s.(net := Without(s.net, i))
  }

  /** What happens without any new command from a user. */
  ghost predicate Settling(s: State, t: State) {
    Deliver(s, t) || Lose(s, t)
  }

  /** send_sign_in, when the other side can be reached. */
  function SigningIn(s: State, a: Address, b: Address): State
    requires a in s.nodes
  {
    if b in s.nodes then
      State(s.nodes[a := s.nodes[a].(sign := true)], s.net + [SignIn(a, b, s.nodes[a].list)])
    else s
  }

  /** send_quit, after which the program is gone. */
  function Quitting(s: State, a: Address): State
    requires a in s.nodes && s.nodes[a].list != []
  {
    var l := s.nodes[a].list;
    State(s.nodes - {a}, s.net + SignOuts(l, l[0].id, s.nodes.Keys))
  }

  /** A program starts, with nobody but itself in its list. */
  function Starting(s: State, m: Member): State {
    s.(nodes := s.nodes[At(m) := Node([m], false, false)])
  }

  /** Every step there is. */
  ghost predicate Step(d: set<Member>, s: State, t: State) {
    || Settling(s, t)
    || (exists a, b {:trigger SigningIn(s, a, b)} :: a in s.nodes && !s.nodes[a].jammed && t == SigningIn(s, a, b))
    || (exists a :: a in s.nodes && !s.nodes[a].jammed && s.nodes[a].list != [] && t == Quitting(s, a))
    || (exists m :: m in d && At(m) !in s.nodes && t == Starting(s, m))
  }

  /** A run from a world in which nothing is running yet. */
  ghost predicate Run(d: set<Member>, run: seq<State>) {
    run != [] && run[0] == State(map[], []) && forall i | 0 < i < |run| :: Step(d, run[i - 1], run[i])
  }

  // ---------------------------------------------------------------- what a sign-out does

  /** A sign-out takes out of a list exactly the members after the head that bear the name, and nothing
      else changes; if there is no such member the list stays as it is and the program is jammed. */
  lemma SignOutRemoves(n: Node, dest: Address, id: seq<bv8>)
    requires Distinct(n.list) && n.list != []
    ensures var t := After(n, SignOut(dest, id));
            && t.list != [] && t.list[0] == n.list[0] && t.sign == n.sign
            && (forall i | 0 < i < |n.list| :: n.list[i] in t.list <==> !SameId(n.list[i].id, id))
            && (forall m | m in t.list :: m in n.list)
            && (t.jammed <==> n.jammed || forall i | 0 < i < |n.list| :: !SameId(n.list[i].id, id))
  {
    hide SameId, Distinct;
    if Listed(n.list, id) {
      var k := FirstListed(n.list, id, 1);
      forall i | 0 < i < |n.list| ensures n.list[i] in Without(n.list, k) <==> !SameId(n.list[i].id, id) {
        DeleteMembers(n.list, k, n.list[i]);
        OneOfAName(n.list, i, k, id);
      }
      forall m | m in Without(n.list, k) ensures m in n.list {
        DeleteMembers(n.list, k, m);
      }
    }
  }

  lemma OneOfAName(s: seq<Member>, i: nat, k: nat, id: seq<bv8>)
    requires Distinct(s) && i < |s| && k < |s| && SameId(s[k].id, id)
    ensures s[i] != s[k] <==> i != k
    ensures i != k ==> !SameId(s[i].id, id)
  {
    assert i < k ==> !Clashes(s[i], s[k]);
    assert k < i ==> !Clashes(s[k], s[i]);
  }

  // ---------------------------------------------------------------- provenance

  /** A list of real, different members with the one at address a in front. */
  ghost predicate Home(d: set<Member>, a: Address, list: seq<Member>) {
    list != [] && At(list[0]) == a && Within(list, d) && Distinct(list)
  }

  ghost predicate Honest(d: set<Member>, m: Message) {
    match m
    case SignIn(from, _, entries) => Home(d, from, entries)
    case Listing(_, entries) => entries != [] && Within(entries, d) && Distinct(entries)
    case SignOut(_, id) => exists m :: m in d && m.id == id
  }

  ghost predicate Provenance(d: set<Member>, s: State) {
    && (forall a | a in s.nodes :: Home(d, a, s.nodes[a].list))
    && (forall m | m in s.net :: Honest(d, m))
  }

  lemma MergeKeepsHome(d: set<Member>, a: Address, list: seq<Member>, entries: seq<Member>)
    requires Directory(d) && Home(d, a, list) && Within(entries, d)
    ensures Home(d, a, Merge(list, entries))
  {
    hide Distinct, Directory;
    MergeIsUnion(list, entries, d);
  }

  lemma SignOutKeepsHome(d: set<Member>, a: Address, n: Node, id: seq<bv8>)
    requires Home(d, a, n.list)
    ensures Home(d, a, OnSignOut(n, id).list)
  {
    if Listed(n.list, id) {
      DeleteKeeps(n.list, FirstListed(n.list, id, 1));
    }
  }

  lemma AfterKeepsHome(d: set<Member>, a: Address, n: Node, m: Message)
    requires Directory(d) && Home(d, a, n.list) && Honest(d, m)
    ensures Home(d, a, After(n, m).list)
  {
    hide Distinct, Directory;
    match m
    case SignIn(_, _, entries) => MergeKeepsHome(d, a, n.list, entries);
    case Listing(_, entries) => MergeKeepsHome(d, a, n.list, entries);
    case SignOut(_, id) =>
      SignOutKeepsHome(d, a, n, id);
  }

  lemma SentIsHonest(d: set<Member>, a: Address, n: Node, m: Message, up: set<Address>)
    requires Home(d, a, n.list) && Honest(d, m)
    ensures forall x | x in Sent(n, m, up) :: Honest(d, x)
  {
    hide Distinct, Within;
  }

  lemma DeliveryKeeps(d: set<Member>, s: State, i: nat)
    requires Directory(d) && Provenance(d, s) && Deliverable(s, i)
    ensures Provenance(d, Delivered(s, i))
  {
    hide Home, Honest, After, Sent, Directory;
    var m := s.net[i];
    assert m in s.net && Honest(d, m);
    AfterKeepsHome(d, m.dest, s.nodes[m.dest], m);
    SentIsHonest(d, m.dest, s.nodes[m.dest], m, s.nodes.Keys);
    var t := Delivered(s, i);
    forall a | a in t.nodes ensures Home(d, a, t.nodes[a].list) {
      assert a == m.dest || t.nodes[a] == s.nodes[a];
    }
    forall x | x in t.net ensures Honest(d, x) {
      assert x in s.net || x in Sent(s.nodes[m.dest], m, s.nodes.Keys);
    }
  }

  lemma SignOutsHonest(d: set<Member>, list: seq<Member>, id: seq<bv8>, up: set<Address>)
    requires exists m :: m in d && m.id == id
    ensures forall x | x in SignOuts(list, id, up) :: Honest(d, x)
  {
  }

  lemma OneIsHome(d: set<Member>, m: Member)
    requires m in d
    ensures Home(d, At(m), [m])
  {
  }

  lemma LossKeeps(d: set<Member>, s: State, i: nat)
    requires Provenance(d, s) && i < |s.net|
    ensures Provenance(d, s.(net := Without(s.net, i)))
  {
    hide Home, Honest;
  }

  lemma SigningInKeeps(d: set<Member>, s: State, a: Address, b: Address)
    requires Provenance(d, s) && a in s.nodes
    ensures Provenance(d, SigningIn(s, a, b))
  {
    hide Home;
    var t := SigningIn(s, a, b);
    forall c | c in t.nodes ensures Home(d, c, t.nodes[c].list) {
      assert t.nodes[c].list == s.nodes[c].list;
    }
  }

  lemma QuittingKeeps(d: set<Member>, s: State, a: Address)
    requires Provenance(d, s) && a in s.nodes && s.nodes[a].list != []
    ensures Provenance(d, Quitting(s, a))
  {
    hide Honest, Distinct;
    var l, t := s.nodes[a].list, Quitting(s, a);
    assert l[0] in d;
    SignOutsHonest(d, l, l[0].id, s.nodes.Keys);
    forall c | c in t.nodes ensures Home(d, c, t.nodes[c].list) {
      assert t.nodes[c] == s.nodes[c];
    }
  }

  lemma StartingKeeps(d: set<Member>, s: State, m: Member)
    requires Provenance(d, s) && m in d
    ensures Provenance(d, Starting(s, m))
  {
    hide Home, Honest;
    OneIsHome(d, m);
    var t := Starting(s, m);
    forall c | c in t.nodes ensures Home(d, c, t.nodes[c].list) {
      assert c == At(m) || t.nodes[c] == s.nodes[c];
    }
  }

  lemma StepKeeps(d: set<Member>, s: State, t: State)
    requires Directory(d) && Provenance(d, s) && Step(d, s, t)
    ensures Provenance(d, t)
  {
    hide Provenance, Directory, Deliverable, Delivered, SigningIn, Quitting, Starting;
    if Deliver(s, t) {
      var i :| Deliverable(s, i) && t == Delivered(s, i);
      DeliveryKeeps(d, s, i);
    } else if Lose(s, t) {
      var i :| 0 <= i < |s.net| && t == s.(net := Without(s.net, i));
      LossKeeps(d, s, i);
    } else if exists a, b {:trigger SigningIn(s, a, b)} ::
                a in s.nodes && !s.nodes[a].jammed && t == SigningIn(s, a, b) {
      var a, b :| a in s.nodes && !s.nodes[a].jammed && t == SigningIn(s, a, b);
      SigningInKeeps(d, s, a, b);
    } else if exists a :: a in s.nodes && !s.nodes[a].jammed && s.nodes[a].list != [] && t == Quitting(s, a) {
      var a :| a in s.nodes && !s.nodes[a].jammed && s.nodes[a].list != [] && t == Quitting(s, a);
      QuittingKeeps(d, s, a);
    } else {
      var m :| m in d && At(m) !in s.nodes && t == Starting(s, m);
      StartingKeeps(d, s, m);
    }
  }

  /** In every state of every run, every entry anywhere belongs to a real member, every list starts
      with its owner, and every sign-in on its way starts with its sender. */
  lemma {:induction false} RunKeeps(d: set<Member>, run: seq<State>, i: nat)
    requires Directory(d) && Run(d, run) && i < |run|
    ensures Provenance(d, run[i])
  {
    if i == 0 {
    } else {
      RunKeeps(d, run, i - 1);
      StepKeeps(d, run[i - 1], run[i]);
    }
  }

  /** So the reply to a sign-in goes to the one who signed in, and the sign-in leaves its
      sender's entry in the list it reaches. */
  lemma ReplyGoesToSigner(d: set<Member>, run: seq<State>, i: nat, k: nat)
    requires Directory(d) && Run(d, run) && i < |run| && Deliverable(run[i], k) && run[i].net[k].SignIn?
    ensures var s, m := run[i], run[i].net[k];
            && Reply(s.nodes[m.dest].list, m.entries, s.nodes.Keys)
                 == (if m.from in s.nodes then [Listing(m.from, s.nodes[m.dest].list)] else [])
            && m.entries != [] && m.entries[0] in Delivered(s, k).nodes[m.dest].list
  {
    hide Distinct, Directory;
    RunKeeps(d, run, i);
    var s, m := run[i], run[i].net[k];
    assert m in s.net && Honest(d, m);
    MergeIsUnion(s.nodes[m.dest].list, m.entries, d);
    assert m.entries[0] in Set(m.entries);
    assert m.entries[0] in Set(Merge(s.nodes[m.dest].list, m.entries));
  }

  // ---------------------------------------------------------------- the gossip ends

  /** Replies and forwards a packet can still cause, itself included, among n members. */
  function Weight(m: Message, n: nat): nat {
    if m.SignIn? then n + 1 else 1
  }

  function NetWeight(net: seq<Message>, n: nat): nat {
    if net == [] then 0 else Weight(net[0], n) + NetWeight(net[1..], n)
  }

  function Signing(nodes: map<Address, Node>): set<Address> {
    set a | a in nodes && nodes[a].sign
  }

  /** A bound on the packets still to be handled. */
  function Potential(s: State, n: nat): nat {
    NetWeight(s.net, n) + n * |Signing(s.nodes)|
  }

  lemma {:induction false} WeightConcat(a: seq<Message>, b: seq<Message>, n: nat)
    ensures NetWeight(a + b, n) == NetWeight(a, n) + NetWeight(b, n)
  {
    if a == [] {
      assert a + b == b;
    } else {
      assert (a + b)[1..] == a[1..] + b;
      WeightConcat(a[1..], b, n);
    }
  }

  lemma WeightRemoved(net: seq<Message>, i: nat, n: nat)
    requires i < |net|
    ensures NetWeight(net, n) == Weight(net[i], n) + NetWeight(Without(net, i), n)
  {
    assert net == net[..i] + ([net[i]] + net[i + 1..]);
    WeightConcat(net[..i], [net[i]] + net[i + 1..], n);
    WeightConcat(net[..i], net[i + 1..], n);
    assert ([net[i]] + net[i + 1..])[1..] == net[i + 1..];
  }

  lemma {:induction false} WeightOfListings(net: seq<Message>, n: nat)
    requires forall m | m in net :: m.Listing?
    ensures NetWeight(net, n) == |net|
  {
    if net == [] {
    } else {
      assert net[0] in net;
      WeightOfListings(net[1..], n);
    }
  }

  lemma {:induction false} ForwardLength(list: seq<Member>, entries: seq<Member>, up: set<Address>)
    requires list != []
    ensures |Forward(list, entries, up)| < |list|
    ensures (forall i | 0 < i < |list| :: At(list[i]) in up) ==> |Forward(list, entries, up)| == |list| - 1
  {
    if |list| <= 1 {
    } else {
      ForwardLength(list[..|list| - 1], entries, up);
    }
  }

  /** No list of real members is longer than the directory. */
  lemma HomeIsSmall(d: set<Member>, a: Address, list: seq<Member>)
    requires Home(d, a, list)
    ensures |list| <= |d|
  {
    SetSize(list);
    assert Set(list) <= d;
    SubsetSize(Set(list), d);
  }

  lemma {:induction false} SubsetSize<T>(a: set<T>, b: set<T>)
    requires a <= b
    ensures |a| <= |b|
  {
    if a == {} {
    } else {
      var x :| x in a;
      SubsetSize(a - {x}, b - {x});
    }
  }

  lemma ForwardWeight(d: set<Member>, n: Node, a: Address, entries: seq<Member>, up: set<Address>)
    requires Home(d, a, n.list)
    ensures NetWeight(Forward(n.list, entries, up), |d|) <= |d| - 1
  {
    hide Home, Forward, NetWeight;
    HomeIsSmall(d, a, n.list);
    assert n.list != [] by { HomeNotEmpty(d, a, n.list); }
    ForwardLength(n.list, entries, up);
    WeightOfListings(Forward(n.list, entries, up), |d|);
  }

  lemma HomeNotEmpty(d: set<Member>, a: Address, list: seq<Member>)
    requires Home(d, a, list)
    ensures list != []
  {
  }

  lemma SignInWeight(d: set<Member>, n: Node, a: Address, entries: seq<Member>, up: set<Address>)
    requires Home(d, a, n.list)
    ensures NetWeight(SentOnSignIn(n, entries, up), |d|) <= |d|
  {
    hide Home, Forward;
    ForwardWeight(d, n, a, entries, up);
    var f := if |n.list| > 1 then Forward(n.list, entries, up) else [];
    WeightConcat(f, Reply(n.list, entries, up), |d|);
    WeightOfListings(Reply(n.list, entries, up), |d|);
    assert NetWeight([], |d|) == 0;
  }

  lemma SigningUpdate(nodes: map<Address, Node>, a: Address, n: Node)
    requires a in nodes
    ensures n.sign == nodes[a].sign ==> Signing(nodes[a := n]) == Signing(nodes)
    ensures !n.sign && nodes[a].sign ==> |Signing(nodes[a := n])| == |Signing(nodes)| - 1
  {
    var t := nodes[a := n];
    assert forall c | c != a :: c in Signing(t) <==> c in Signing(nodes);
    if n.sign == nodes[a].sign {
      assert Signing(t) == Signing(nodes);
    } else if nodes[a].sign {
      assert Signing(t) == Signing(nodes) - {a};
    }
  }

  /** What one delivery sends weighs less than the packet and the flag it uses up. */
  lemma DeliveryWeighs(d: set<Member>, s: State, i: nat)
    requires Provenance(d, s) && Deliverable(s, i)
    ensures Potential(Delivered(s, i), |d|) < Potential(s, |d|)
  {
    hide Home, Honest, Forward, NetWeight, Signing, SentOnSignIn, Merge, Without;
    var m, up := s.net[i], s.nodes.Keys;
    var n := s.nodes[m.dest];
    var sent := Sent(n, m, up);
    WeightRemoved(s.net, i, |d|);
    WeightConcat(Without(s.net, i), sent, |d|);
    SigningUpdate(s.nodes, m.dest, After(n, m));
    assert NetWeight([], |d|) == 0 by { WeightOfListings([], |d|); }
    match m
    case SignIn(_, _, entries) => SignInWeight(d, n, m.dest, entries, up);
    case Listing(_, entries) =>
      ForwardWeight(d, n, m.dest, entries, up);
      if n.sign {
        FlagWeighs(|d|, |Signing(s.nodes)|);
      }
    case SignOut(_, _) =>
  }

  lemma FlagWeighs(n: nat, k: nat)
    requires k > 0
    ensures n * (k - 1) == n * k - n
  {
  }

  lemma LossWeighs(s: State, i: nat, n: nat)
    requires i < |s.net|
    ensures Potential(s.(net := Without(s.net, i)), n) < Potential(s, n)
  {
    WeightRemoved(s.net, i, n);
  }

  /** A run in which no user gives a command any more. */
  ghost predicate SettlingRun(run: seq<State>) {
    run != [] && forall i | 0 < i < |run| :: Settling(run[i - 1], run[i])
  }

  lemma SettlingKeeps(d: set<Member>, s: State, t: State)
    requires Directory(d) && Provenance(d, s) && Settling(s, t)
    ensures Provenance(d, t) && Potential(t, |d|) < Potential(s, |d|)
  {
    hide Provenance, Directory, Deliverable, Delivered, Potential;
    StepKeeps(d, s, t);
    if Deliver(s, t) {
      var i :| Deliverable(s, i) && t == Delivered(s, i);
      DeliveryWeighs(d, s, i);
    } else {
      var i :| 0 <= i < |s.net| && t == s.(net := Without(s.net, i));
      LossWeighs(s, i, |d|);
    }
  }

  /** Without new commands the packets die out: from any state a run can reach, no more packets are
      handled or lost than the potential says. */
  lemma {:induction false} GossipEnds(d: set<Member>, run: seq<State>)
    requires Directory(d) && SettlingRun(run) && Provenance(d, run[0])
    ensures Provenance(d, run[|run| - 1])
    ensures |run| - 1 + Potential(run[|run| - 1], |d|) <= Potential(run[0], |d|)
  {
    hide Provenance, Directory, Settling, Potential;
    if |run| <= 1 {
    } else {
      var shorter := run[..|run| - 1];
      GossipEnds(d, shorter);
      SettlingKeeps(d, run[|run| - 2], run[|run| - 1]);
    }
  }
}

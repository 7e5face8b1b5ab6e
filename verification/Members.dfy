/** The member list of Chat/src/list.c as a sequence, head first. */
module Members {
  import opened Sequences

  /** An address as the program holds it, and the sixteen bytes of a name. */
  datatype Member = Member(ip: bv32, id: seq<bv8>)

  const ID_LENGTH := 16

  /** The C string at the start of a buffer: the bytes before the first NUL. */
  function CString(id: seq<bv8>): (s: seq<bv8>)
    ensures |s| <= |id| && s == id[..|s|] && 0 !in s
    ensures |s| < |id| ==> id[|s|] == 0
  {
    if id == [] || id[0] == 0 then [] else [id[0]] + CString(id[1..])
  }

  /** strcmp and strncmp with 16 agree on these: sixteen bytes with a NUL among them. */
  predicate IsId(id: seq<bv8>) {
    |id| == ID_LENGTH && 0 in id
  }

  predicate SameId(a: seq<bv8>, b: seq<bv8>) {
    CString(a) == CString(b)
  }

  /** An entry that keeps a newcomer out: same name or same address. */
  predicate Clashes(m: Member, n: Member) {
    SameId(m.id, n.id) || m.ip == n.ip
  }

  ghost predicate Free(s: seq<Member>, m: Member) {
    forall i | 0 <= i < |s| :: !Clashes(s[i], m)
  }

  /** Pairwise distinct names and pairwise distinct addresses. */
  ghost predicate Distinct(s: seq<Member>) {
    forall i, j | 0 <= i < j < |s| :: !Clashes(s[i], s[j])
  }

  /** List_new_member, when memory is not short. */
  ghost function Add(s: seq<Member>, m: Member): (t: seq<Member>)
    ensures s <= t
    ensures Distinct(s) ==> Distinct(t)
  {
    if Free(s, m) then s + [m] else s
  }

  /** The loop over a received list. */
  ghost function Merge(s: seq<Member>, batch: seq<Member>): (t: seq<Member>)
    ensures s <= t
    ensures Distinct(s) ==> Distinct(t)
    decreases |batch|
  {
    if batch == [] then s else Merge(Add(s, batch[0]), batch[1..])
  }

  /** Where List_delete_member finds a name; it never looks at the head. */
  ghost predicate FoundAt(s: seq<Member>, id: seq<bv8>, k: nat) {
    0 < k < |s| && SameId(s[k].id, id) && forall j | 0 < j < k :: !SameId(s[j].id, id)
  }

  ghost predicate Listed(s: seq<Member>, id: seq<bv8>) {
    exists k | 0 < k < |s| :: SameId(s[k].id, id)
  }

  /** A successful addition undone by deleting the same name gives the very same list back. */
  lemma AddThenDelete(s: seq<Member>, m: Member, k: nat)
    requires s != [] && Free(s, m) && FoundAt(Add(s, m), m.id, k)
    ensures Without(Add(s, m), k) == s
  {
    if k < |s| {
      assert Clashes(s[k], m);
    }
  }

  /** ... and the deletion does find it. */
  lemma AddedIsFound(s: seq<Member>, m: Member)
    requires s != [] && Free(s, m)
    ensures FoundAt(Add(s, m), m.id, |s|)
  {
    forall j | 0 < j < |s| ensures !SameId(Add(s, m)[j].id, m.id) {
      assert !Clashes(s[j], m);
    }
  }

  function Back(k: nat, i: nat): nat {
    if i < k then i else i + 1
  }

  lemma WithoutAt(s: seq<Member>, k: nat, i: nat)
    requires k < |s| && i < |s| - 1
    ensures Without(s, k)[i] == s[Back(k, i)]
  {
  }

  lemma DeleteDistinct(s: seq<Member>, k: nat)
    requires k < |s| && Distinct(s)
    ensures Distinct(Without(s, k))
  {
    hide Clashes, Without;
    var t := Without(s, k);
    forall i, j | 0 <= i < j < |t| ensures !Clashes(t[i], t[j]) {
      WithoutAt(s, k, i);
      WithoutAt(s, k, j);
    }
  }

  lemma DeleteMembers(s: seq<Member>, k: nat, m: Member)
    requires k < |s| && Distinct(s)
    ensures m in Without(s, k) <==> m in s && m != s[k]
  {
    hide Distinct, Clashes;
    assert s == s[..k] + [s[k]] + s[k + 1..];
    NotTwice(s, k);
  }

  lemma NotTwice(s: seq<Member>, k: nat)
    requires k < |s| && Distinct(s)
    ensures s[k] !in s[..k] && s[k] !in s[k + 1..]
  {
    forall i | 0 <= i < |s| && i != k ensures s[i] != s[k] {
      assert if i < k then !Clashes(s[i], s[k]) else !Clashes(s[k], s[i]);
    }
  }

  /** Deleting keeps the order, the head, and the distinctness. */
  lemma DeleteKeeps(s: seq<Member>, k: nat)
    requires 0 < k < |s| && Distinct(s)
    ensures Distinct(Without(s, k)) && Without(s, k)[0] == s[0]
    ensures forall m :: m in Without(s, k) <==> m in s && m != s[k]
  {
    DeleteDistinct(s, k);
    forall m ensures m in Without(s, k) <==> m in s && m != s[k] {
      DeleteMembers(s, k, m);
    }
  }

  lemma {:induction false} MergeConcat(s: seq<Member>, a: seq<Member>, b: seq<Member>)
    ensures Merge(s, a + b) == Merge(Merge(s, a), b)
    decreases |a|
  {
    if a == [] {
      assert a + b == b;
    } else {
      assert (a + b)[1..] == a[1..] + b;
      MergeConcat(Add(s, a[0]), a[1..], b);
    }
  }

  /** Someone already in a list keeps everyone in that list out of it a second time. */
  ghost predicate Settled(s: seq<Member>, m: Member) {
    !Free(s, m)
  }

  lemma SettledStays(s: seq<Member>, t: seq<Member>, m: Member)
    requires s <= t && Settled(s, m)
    ensures Settled(t, m)
  {
    var i :| 0 <= i < |s| && Clashes(s[i], m);
    assert t[i] == s[i];
  }

  lemma AddSettles(s: seq<Member>, m: Member)
    ensures Settled(Add(s, m), m)
  {
    if Free(s, m) {
      assert Clashes(Add(s, m)[|s|], m);
    }
  }

  lemma {:induction false} MergeSettles(s: seq<Member>, batch: seq<Member>, i: nat)
    requires i < |batch|
    ensures Settled(Merge(s, batch), batch[i])
    decreases |batch|
  {
    if i == 0 {
      AddSettles(s, batch[0]);
      SettledStays(Add(s, batch[0]), Merge(s, batch), batch[0]);
    } else {
      MergeSettles(Add(s, batch[0]), batch[1..], i - 1);
    }
  }

  lemma {:induction false} MergeOfSettled(s: seq<Member>, batch: seq<Member>)
    requires forall i | 0 <= i < |batch| :: Settled(s, batch[i])
    ensures Merge(s, batch) == s
    decreases |batch|
  {
    if batch == [] {
    } else {
      assert Add(s, batch[0]) == s;
      MergeOfSettled(s, batch[1..]);
    }
  }

  /** A second copy of the same payload changes nothing, whatever the payload. */
  lemma MergeIdempotent(s: seq<Member>, batch: seq<Member>)
    ensures Merge(Merge(s, batch), batch) == Merge(s, batch)
  {
    forall i | 0 <= i < |batch| ensures Settled(Merge(s, batch), batch[i]) {
      MergeSettles(s, batch, i);
    }
    MergeOfSettled(Merge(s, batch), batch);
  }

  /** Lists drawn from one directory in which a name, or an address, identifies its entry. */
  ghost predicate Directory(d: set<Member>) {
    forall m, n | m in d && n in d && Clashes(m, n) :: m == n
  }

  ghost predicate Within(s: seq<Member>, d: set<Member>) {
    forall i | 0 <= i < |s| :: s[i] in d
  }

  function Set(s: seq<Member>): set<Member> {
    set m | m in s
  }

  /** Inside one directory, merging is union. */
  lemma {:induction false} MergeIsUnion(s: seq<Member>, batch: seq<Member>, d: set<Member>)
    requires Directory(d) && Within(s, d) && Within(batch, d)
    ensures Within(Merge(s, batch), d) && Set(Merge(s, batch)) == Set(s) + Set(batch)
    decreases |batch|
  {
    if batch == [] {
    } else {
      var m := batch[0];
      AddIsInsert(s, m, d);
      assert batch == [m] + batch[1..];
      MergeIsUnion(Add(s, m), batch[1..], d);
      assert Set(batch) == {m} + Set(batch[1..]);
    }
  }

  lemma AddIsInsert(s: seq<Member>, m: Member, d: set<Member>)
    requires Directory(d) && Within(s, d) && m in d
    ensures Within(Add(s, m), d) && Set(Add(s, m)) == Set(s) + {m}
  {
    if !Free(s, m) {
      var i :| 0 <= i < |s| && Clashes(s[i], m);
      assert s[i] in d && s[i] == m;
    }
  }

  /** So the order in which two lists arrive does not matter for who is known. */
  lemma MergeCommutes(s: seq<Member>, a: seq<Member>, b: seq<Member>, d: set<Member>)
    requires Directory(d) && Within(s, d) && Within(a, d) && Within(b, d)
    ensures Set(Merge(Merge(s, a), b)) == Set(Merge(Merge(s, b), a))
  {
    MergeIsUnion(s, a, d);
    MergeIsUnion(Merge(s, a), b, d);
    MergeIsUnion(s, b, d);
    MergeIsUnion(Merge(s, b), a, d);
  }

  /** Merging a list nobody of which is known yet appends it as it stands. */
  lemma {:induction false} MergeOfStrangers(s: seq<Member>, batch: seq<Member>)
    requires Distinct(batch)
    requires forall i | 0 <= i < |batch| :: Free(s, batch[i])
    ensures Merge(s, batch) == s + batch
    decreases |batch|
  {
    if batch != [] {
      hide Clashes, Distinct, Free;
      var t, rest := s + [batch[0]], batch[1..];
      StillStrangers(s, batch);
      FreeIsAdded(s, batch[0]);
      MergeOfStrangers(t, rest);
      MoveFirst(s, batch);
    } else {
      assert s + batch == s;
    }
  }

  lemma MoveFirst(s: seq<Member>, batch: seq<Member>)
    requires batch != []
    ensures (s + [batch[0]]) + batch[1..] == s + batch
  {
  }

  lemma FreeIsAdded(s: seq<Member>, m: Member)
    requires Free(s, m)
    ensures Add(s, m) == s + [m]
  {
  }

  lemma StillStrangers(s: seq<Member>, batch: seq<Member>)
    requires batch != [] && Distinct(batch)
    requires forall i | 0 <= i < |batch| :: Free(s, batch[i])
    ensures Distinct(batch[1..])
    ensures forall i | 0 <= i < |batch[1..]| :: Free(s + [batch[0]], batch[1..][i])
  {
    forall i | 0 <= i < |batch[1..]| ensures Free(s + [batch[0]], batch[1..][i]) {
      assert batch[1..][i] == batch[i + 1];
      assert !Clashes(batch[0], batch[i + 1]) && Free(s, batch[i + 1]);
    }
  }

  lemma {:induction false} SetSize(s: seq<Member>)
    requires Distinct(s)
    ensures |Set(s)| == |s|
  {
    if s == [] {
    } else {
      var k := |s| - 1;
      SetSize(s[..k]);
      assert s == s[..k] + [s[k]];
      assert Set(s) == Set(s[..k]) + {s[k]};
      forall i | 0 <= i < k ensures s[i] != s[k] {
        assert !Clashes(s[i], s[k]);
      }
    }
  }
}

/** What the linked lists and the histories have in common. */
module Sequences {

  ghost predicate NoRepeats<T>(s: seq<T>) {
    forall i, j | 0 <= i < j < |s| :: s[i] != s[j]
  }

  /** s without its element i. */
  function Without<T>(s: seq<T>, i: nat): (t: seq<T>)
    requires i < |s|
    ensures |t| == |s| - 1
  {
    s[..i] + s[i + 1..]
  }

  lemma WithoutKeeps<T>(s: seq<T>, i: nat, x: T)
    requires i < |s|
    ensures x in Without(s, i) ==> x in s
    ensures x in s && x != s[i] ==> x in Without(s, i)
  {
    assert s == s[..i] + [s[i]] + s[i + 1..];
  }
}

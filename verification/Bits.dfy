/**
 Bit strings: vectors over GF(2), the arithmetic that every CRC in Chat/libcrc works in.
 Addition and subtraction are both exclusive-or; there are no carries.
 */
module Bits {

  function Zeros(n: nat): (z: seq<bool>)
    ensures |z| == n && forall i | 0 <= i < n :: !z[i]
  {
    seq(n, _ => false)
  }

  function Ones(n: nat): (z: seq<bool>)
    ensures |z| == n && forall i | 0 <= i < n :: z[i]
  {
    seq(n, _ => true)
  }

  function Xor(a: seq<bool>, b: seq<bool>): (c: seq<bool>)
    requires |a| == |b|
    ensures |c| == |a| && forall i | 0 <= i < |a| :: c[i] == (a[i] != b[i])
  {
    seq(|a|, i requires 0 <= i < |a| => a[i] != b[i])
  }

  /** True when the number of set bits is odd. */
  function Parity(a: seq<bool>): bool {
    if a == [] then false else a[0] != Parity(a[1..])
  }

  lemma XorConcat(a: seq<bool>, b: seq<bool>, c: seq<bool>, d: seq<bool>)
    requires |a| == |c| && |b| == |d|
    ensures Xor(a + b, c + d) == Xor(a, c) + Xor(b, d)
  {
  }

  lemma XorSelf(a: seq<bool>, b: seq<bool>)
    requires |a| == |b|
    ensures Xor(a, b) == Zeros(|a|) <==> a == b
  {
    if Xor(a, b) == Zeros(|a|) {
      forall i | 0 <= i < |a| ensures a[i] == b[i] {
        assert !Zeros(|a|)[i];
      }
    }
  }

  lemma {:induction false} ParityXor(a: seq<bool>, b: seq<bool>)
    requires |a| == |b|
    ensures Parity(Xor(a, b)) == (Parity(a) != Parity(b))
  {
    if a == [] {
    } else {
      assert Xor(a, b)[1..] == Xor(a[1..], b[1..]);
      ParityXor(a[1..], b[1..]);
    }
  }

  lemma {:induction false} ParityConcat(a: seq<bool>, b: seq<bool>)
    ensures Parity(a + b) == (Parity(a) != Parity(b))
  {
    if a == [] {
      assert a + b == b;
    } else {
      assert (a + b)[1..] == a[1..] + b;
      ParityConcat(a[1..], b);
    }
  }

  lemma ParitySingle(b: bool)
    ensures Parity([b]) == b
  {
    assert [b][1..] == [];
  }

  lemma {:induction false} ParityOfConstants(n: nat)
    ensures !Parity(Zeros(n))
    ensures Parity(Ones(n)) == (n % 2 == 1)
  {
    if n == 0 {
    } else {
      assert Zeros(n)[1..] == Zeros(n - 1) && Ones(n)[1..] == Ones(n - 1);
      ParityOfConstants(n - 1);
    }
  }

  lemma XorPairs(a: seq<bool>, b: seq<bool>, c: seq<bool>, d: seq<bool>)
    requires |a| == |b| == |c| == |d|
    ensures Xor(Xor(a, b), Xor(c, d)) == Xor(Xor(a, c), Xor(b, d))
  {
  }
}

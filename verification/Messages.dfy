/** Byte strings as bit strings, in either bit order. */
module Messages {
  import opened Bits
  import opened Words

  /** The bytes a call looks at: none when it is handed a null pointer. */
  function Bytes(input: array?<bv8>, numBytes: nat): (s: seq<bv8>)
    requires input != null ==> numBytes <= input.Length
    reads input
  {
    if input == null then [] else input[..numBytes]
  }

  /** A byte moved up against bit 63. */
  function AtTop(c: bv8): bv64 { (c as bv64) << 56 }

  function ByteBits(lowFirst: bool, c: bv8): (s: seq<bool>)
    ensures |s| == 8
  {
    if lowFirst then LowBits(c as bv64, 8) else HighBits(AtTop(c), 8)
  }

  function MessageBits(lowFirst: bool, msg: seq<bv8>): (s: seq<bool>)
    ensures |s| == 8 * |msg|
  {
    if msg == [] then [] else ByteBits(lowFirst, msg[0]) + MessageBits(lowFirst, msg[1..])
  }

  lemma OneByte(lowFirst: bool, c: bv8)
    ensures MessageBits(lowFirst, [c]) == ByteBits(lowFirst, c)
  {
    assert [c][1..] == [];
  }

  lemma {:induction false} MessageBitsConcat(lowFirst: bool, m: seq<bv8>, n: seq<bv8>)
    ensures MessageBits(lowFirst, m + n) == MessageBits(lowFirst, m) + MessageBits(lowFirst, n)
  {
    if m == [] {
      assert m + n == n;
    } else {
      assert (m + n)[1..] == m[1..] + n;
      MessageBitsConcat(lowFirst, m[1..], n);
    }
  }

  lemma ByteFacts(c: bv8, d: bv8)
    ensures (c as bv64) >> 8 == 0 && AtTop(c) << 8 == 0
    ensures c as bv64 == d as bv64 ==> c == d
    ensures AtTop(c) == AtTop(d) ==> c == d
    ensures (c ^ d) as bv64 == Plus(c as bv64, d as bv64)
    ensures AtTop(c ^ d) == Plus(AtTop(c), AtTop(d))
  {
  }

  lemma ByteFits(c: bv8)
    ensures FitsLow(c as bv64, 8) && FitsHigh(AtTop(c), 8)
  {
    ByteFacts(c, c);
    Shr8(c as bv64);
    Shl8(AtTop(c));
  }

  lemma ByteBitsInjective(lowFirst: bool, c: bv8, d: bv8)
    ensures ByteBits(lowFirst, c) == ByteBits(lowFirst, d) <==> c == d
  {
    ByteFacts(c, d);
    ByteFits(c);
    ByteFits(d);
    if ByteBits(lowFirst, c) == ByteBits(lowFirst, d) {
      if lowFirst {
        LowInjective(c as bv64, d as bv64, 8);
      } else {
        HighInjective(AtTop(c), AtTop(d), 8);
      }
    }
  }

  /** Two messages of one length have the same bits only when they are the same message. */
  lemma {:induction false} MessageBitsInjective(lowFirst: bool, m: seq<bv8>, n: seq<bv8>)
    requires |m| == |n|
    ensures MessageBits(lowFirst, m) == MessageBits(lowFirst, n) <==> m == n
  {
    if m == [] {
    } else {
      var a, b := MessageBits(lowFirst, m), MessageBits(lowFirst, n);
      assert a[..8] == ByteBits(lowFirst, m[0]) && b[..8] == ByteBits(lowFirst, n[0]);
      assert a[8..] == MessageBits(lowFirst, m[1..]) && b[8..] == MessageBits(lowFirst, n[1..]);
      ByteBitsInjective(lowFirst, m[0], n[0]);
      MessageBitsInjective(lowFirst, m[1..], n[1..]);
      assert m == [m[0]] + m[1..] && n == [n[0]] + n[1..];
    }
  }

  /** Bytewise exclusive-or of two messages. */
  function XorBytes(m: seq<bv8>, n: seq<bv8>): (d: seq<bv8>)
    requires |m| == |n|
    ensures |d| == |m| && forall i | 0 <= i < |m| :: d[i] == m[i] ^ n[i]
  {
    seq(|m|, i requires 0 <= i < |m| => m[i] ^ n[i])
  }

  lemma ByteBitsXor(lowFirst: bool, c: bv8, d: bv8)
    ensures ByteBits(lowFirst, c ^ d) == Xor(ByteBits(lowFirst, c), ByteBits(lowFirst, d))
  {
    ByteFacts(c, d);
    if lowFirst {
      LowXor(c as bv64, d as bv64, 8);
    } else {
      HighXor(AtTop(c), AtTop(d), 8);
    }
  }

  lemma {:induction false} MessageBitsXor(lowFirst: bool, m: seq<bv8>, n: seq<bv8>)
    requires |m| == |n|
    ensures MessageBits(lowFirst, XorBytes(m, n)) == Xor(MessageBits(lowFirst, m), MessageBits(lowFirst, n))
  {
    if m == [] {
    } else {
      assert XorBytes(m, n)[1..] == XorBytes(m[1..], n[1..]);
      MessageBitsXor(lowFirst, m[1..], n[1..]);
      ByteBitsXor(lowFirst, m[0], n[0]);
      XorConcat(ByteBits(lowFirst, m[0]), MessageBits(lowFirst, m[1..]),
                ByteBits(lowFirst, n[0]), MessageBits(lowFirst, n[1..]));
    }
  }
}

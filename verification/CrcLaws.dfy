/**
 What every polynomial CRC of Chat/libcrc is, up to its parameters, and the laws that hold for
 all of them: the remainder law, burst detection, parity, residue, additivity and streaming.
 */
module CrcLaws {
  import opened Bits
  import opened Lfsr
  import opened Messages

  /** The parameters a source file fixes: bit order of the bytes, generator below its leading
      coefficient, start value, and the value added at the end (all ones for a complement). */
  datatype Variant = Variant(lowFirst: bool, gen: seq<bool>, start: seq<bool>, xorOut: seq<bool>) {
    /** Every generator of the library has a constant term. */
    predicate Valid() {
      |gen| == |start| == |xorOut| > 0 && gen[|gen| - 1]
    }
  }

  function Register(v: Variant, msg: seq<bv8>): (r: seq<bool>)
    requires v.Valid()
    ensures |r| == |v.gen|
  {
    Run(v.gen, v.start, MessageBits(v.lowFirst, msg))
  }

  function Crc(v: Variant, msg: seq<bv8>): (r: seq<bool>)
    requires v.Valid()
    ensures |r| == |v.gen|
  {
    Xor(Register(v, msg), v.xorOut)
  }

  /** The register is the remainder of the message, shifted up by the register width and with
      the start value added in front, modulo the generator, and no other string is. */
  lemma RegisterIsRemainder(v: Variant, msg: seq<bv8>, rem: seq<bool>)
    requires v.Valid() && |rem| == |v.gen|
    ensures IsRemainder(v.gen, Dividend(v.start, MessageBits(v.lowFirst, msg)), rem) <==> rem == Register(v, msg)
  {
    RunIsTheRemainder(v.gen, v.start, MessageBits(v.lowFirst, msg), rem);
  }

  lemma CrcEqualIff(v: Variant, m: seq<bv8>, n: seq<bv8>)
    requires v.Valid()
    ensures Crc(v, m) == Crc(v, n) <==> Register(v, m) == Register(v, n)
  {
    XorTwice(Register(v, m), v.xorOut);
    XorTwice(Register(v, n), v.xorOut);
  }

  lemma XorTwice(a: seq<bool>, b: seq<bool>)
    requires |a| == |b|
    ensures Xor(Xor(a, b), b) == a
  {
  }

  /** Two messages of one length whose differing bits lie within one register width of each
      other have the same CRC only if they are the same message. */
  lemma BurstLaw(v: Variant, m: seq<bv8>, n: seq<bv8>, first: nat)
    requires v.Valid() && |m| == |n|
    requires DifferOnlyWithin(MessageBits(v.lowFirst, m), MessageBits(v.lowFirst, n), first, |v.gen|)
    ensures Crc(v, m) == Crc(v, n) <==> m == n
  {
    CrcEqualIff(v, m, n);
    BurstDetected(v.gen, v.start, MessageBits(v.lowFirst, m), MessageBits(v.lowFirst, n), first);
    MessageBitsInjective(v.lowFirst, m, n);
  }

  lemma WindowOf(p: seq<bool>, x: seq<bool>, y: seq<bool>, s: seq<bool>, width: nat)
    requires |x| == |y| <= width
    ensures DifferOnlyWithin(p + x + s, p + y + s, |p|, width)
  {
  }

  /** So any damage to a single byte is detected. */
  lemma OneByteLaw(v: Variant, before: seq<bv8>, c: bv8, d: bv8, after: seq<bv8>)
    requires v.Valid() && |v.gen| >= 8 && c != d
    ensures Crc(v, before + [c] + after) != Crc(v, before + [d] + after)
  {
    hide ByteBits;
    SplitAtByte(v.lowFirst, before, c, after);
    SplitAtByte(v.lowFirst, before, d, after);
    WindowOf(MessageBits(v.lowFirst, before), ByteBits(v.lowFirst, c), ByteBits(v.lowFirst, d),
             MessageBits(v.lowFirst, after), |v.gen|);
    BurstLaw(v, before + [c] + after, before + [d] + after, |MessageBits(v.lowFirst, before)|);
    assert (before + [c] + after)[|before|] == c && (before + [d] + after)[|before|] == d;
  }

  lemma SplitAtByte(lowFirst: bool, before: seq<bv8>, c: bv8, after: seq<bv8>)
    ensures MessageBits(lowFirst, before + [c] + after)
         == MessageBits(lowFirst, before) + ByteBits(lowFirst, c) + MessageBits(lowFirst, after)
  {
    hide ByteBits;
    MessageBitsConcat(lowFirst, before + [c], after);
    MessageBitsConcat(lowFirst, before, [c]);
    OneByte(lowFirst, c);
  }

  /** With x + 1 dividing the generator and even constants, the CRC has the parity of the message. */
  lemma ParityLaw(v: Variant, msg: seq<bv8>)
    requires v.Valid() && Parity(v.gen) && !Parity(v.start) && !Parity(v.xorOut)
    ensures Parity(Crc(v, msg)) == Parity(MessageBits(v.lowFirst, msg))
  {
    RunParity(v.gen, v.start, MessageBits(v.lowFirst, msg));
    ParityXor(Register(v, msg), v.xorOut);
  }

  /** Three messages of one length: the CRC of their sum is the sum of their CRCs. */
  lemma AffineLaw(v: Variant, k: seq<bv8>, m: seq<bv8>, n: seq<bv8>)
    requires v.Valid() && |k| == |m| == |n|
    ensures Crc(v, XorBytes(XorBytes(k, m), n)) == Xor(Xor(Crc(v, k), Crc(v, m)), Crc(v, n))
  {
    var bk, bm, bn := MessageBits(v.lowFirst, k), MessageBits(v.lowFirst, m), MessageBits(v.lowFirst, n);
    MessageBitsXor(v.lowFirst, k, m);
    MessageBitsXor(v.lowFirst, XorBytes(k, m), n);
    RunLinear(v.gen, v.start, v.start, bk, bm);
    RunLinear(v.gen, Xor(v.start, v.start), v.start, Xor(bk, bm), bn);
    XorSelfLeft(v.start);
    XorOutThrice(Register(v, k), Register(v, m), Register(v, n), v.xorOut);
  }

  lemma XorNothing(a: seq<bool>)
    ensures Xor(a, Zeros(|a|)) == a
  {
  }

  lemma XorSelfLeft(s: seq<bool>)
    ensures Xor(Xor(s, s), s) == s
  {
  }

  lemma XorOutThrice(a: seq<bool>, b: seq<bool>, c: seq<bool>, x: seq<bool>)
    requires |a| == |b| == |c| == |x|
    ensures Xor(Xor(Xor(a, b), c), x) == Xor(Xor(Xor(a, x), Xor(b, x)), Xor(c, x))
  {
  }

  /** Variants that differ only in start value and final value differ by an amount that the
      length of the message alone decides. */
  lemma StartValueLaw(u: Variant, v: Variant, m: seq<bv8>, n: seq<bv8>)
    requires u.Valid() && v.Valid() && u.gen == v.gen && u.lowFirst == v.lowFirst
    requires |m| == |n|
    ensures Xor(Crc(u, m), Crc(v, m)) == Xor(Crc(u, n), Crc(v, n))
  {
    StartValueEffect(u, v, m);
    StartValueEffect(u, v, n);
  }

  lemma StartValueEffect(u: Variant, v: Variant, m: seq<bv8>)
    requires u.Valid() && v.Valid() && u.gen == v.gen && u.lowFirst == v.lowFirst
    ensures Xor(Crc(u, m), Crc(v, m))
         == Xor(Run(u.gen, Xor(u.start, v.start), Zeros(8 * |m|)), Xor(u.xorOut, v.xorOut))
  {
    var b := MessageBits(u.lowFirst, m);
    RunLinear(u.gen, u.start, v.start, b, b);
    XorSelf(b, b);
    XorPairs(Register(u, m), u.xorOut, Register(v, m), v.xorOut);
  }

  /** What the register holds after a message followed by its own CRC: a constant of the
      variant, zero when nothing is added at the end. */
  function Residue(v: Variant): (r: seq<bool>)
    requires v.Valid()
    ensures |r| == |v.gen|
  {
    Run(v.gen, Zeros(|v.gen|), v.xorOut)
  }

  /** A trailer of one register width leaves the residue exactly when it is the message's CRC. */
  lemma ResidueLaw(v: Variant, msg: seq<bv8>, trailer: seq<bv8>)
    requires v.Valid() && 8 * |trailer| == |v.gen|
    ensures Register(v, msg + trailer) == Residue(v) <==> MessageBits(v.lowFirst, trailer) == Crc(v, msg)
  {
    MessageBitsConcat(v.lowFirst, msg, trailer);
    RunConcat(v.gen, v.start, MessageBits(v.lowFirst, msg), MessageBits(v.lowFirst, trailer));
    TrailerToResidue(v.gen, Register(v, msg), MessageBits(v.lowFirst, trailer), v.xorOut);
  }

  lemma ZeroResidue(v: Variant)
    requires v.Valid()
    ensures Residue(v) == Zeros(|v.gen|) <==> v.xorOut == Zeros(|v.gen|)
  {
    RunToZero(v.gen, Zeros(|v.gen|), v.xorOut);
    assert v.xorOut + Zeros(0) == v.xorOut;
  }

  /** A message may be fed in pieces: the second piece starts from the register of the first. */
  lemma StreamingLaw(v: Variant, m: seq<bv8>, n: seq<bv8>)
    requires v.Valid()
    ensures Register(v, m + n) == Register(v.(start := Register(v, m)), n)
  {
    MessageBitsConcat(v.lowFirst, m, n);
    RunConcat(v.gen, v.start, MessageBits(v.lowFirst, m), MessageBits(v.lowFirst, n));
  }

  /** One more byte: the form every loop of the library maintains. */
  lemma OneMoreByte(lowFirst: bool, g: seq<bool>, r: seq<bool>, m: seq<bv8>, c: bv8)
    requires |g| == |r| > 0
    ensures Run(g, r, MessageBits(lowFirst, m + [c]))
         == Run(g, Run(g, r, MessageBits(lowFirst, m)), ByteBits(lowFirst, c))
  {
    MessageBitsConcat(lowFirst, m, [c]);
    OneByte(lowFirst, c);
    RunConcat(g, r, MessageBits(lowFirst, m), ByteBits(lowFirst, c));
  }
}

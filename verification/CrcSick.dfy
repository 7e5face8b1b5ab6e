/**
 Chat/libcrc/src/crcsick.c: a register that moves by one bit per byte and takes each byte in
 twice, once at the low end and once, with the next byte, at the high end.
 */
module CrcSick {
  import opened Bits
  import opened Lfsr
  import opened Words
  import opened Messages
  import opened ByteSteps
  import opened CrcCcitt
  import opened ReflectedCrc16

  const CRC_POLY_SICK: bv16 := 0x8005
  const CRC_START_SICK: bv16 := 0x0000

  /** The register after a message, as bits; the byte before the first counts as zero. */
  function Sick(msg: seq<bv8>): (r: seq<bool>)
    ensures |r| == 16
  {
    if msg == [] then Zeros(16)
    else
      var before := msg[..|msg| - 1];
      Xor(Step(High16(CRC_POLY_SICK), Sick(before), false), Pair(Last(before), Last(msg)))
  }

  function Last(msg: seq<bv8>): bv8 {
    if msg == [] then 0 else msg[|msg| - 1]
  }

  function Pair(prev: bv8, c: bv8): (r: seq<bool>)
    ensures |r| == 16
  {
    ByteBits(false, prev) + ByteBits(false, c)
  }

  method UpdateCrcSick(crc: bv16, c: bv8, prevByte: bv8) returns (r: bv16)
    ensures r == Turn(crc, prevByte, c)
    ensures High16(r) == Xor(Step(High16(CRC_POLY_SICK), High16(crc), false), Pair(prevByte, c))
  {
    hide High16, Pair, Step, Turn;
    var shortC := 0x00FF & (c as bv16);
    var shortP := (0x00FF & (prevByte as bv16)) << 8;
    LoopBody(crc, prevByte, c, shortC, shortP);
    TurnBits(crc, prevByte, c);
    if crc & 0x8000 != 0 {
      r := ((crc << 1) ^ CRC_POLY_SICK) ^ (shortC | shortP);
    } else {
      r := (crc << 1) ^ (shortC | shortP);
    }
  }

  /** The word short_c | short_p. */
  function PairWord(prev: bv8, c: bv8): bv16 {
    (0x00FF & (c as bv16)) | ((0x00FF & (prev as bv16)) << 8)
  }

  function Raised(c: bv8): bv16 { (0x00FF & (c as bv16)) << 8 }

  function Turn(x: bv16, prev: bv8, c: bv8): bv16 {
    CrcCcitt.BitPass(CRC_POLY_SICK, x) ^ PairWord(prev, c)
  }

  lemma TurnBits(x: bv16, prev: bv8, c: bv8)
    ensures High16(Turn(x, prev, c)) == Xor(Step(High16(CRC_POLY_SICK), High16(x), false), Pair(prev, c))
  {
    hide High16, Pair, Step, CrcCcitt.BitPass, PairWord;
    CrcCcitt.BitStep16(CRC_POLY_SICK, x);
    PairBits(prev, c);
    BitsOfSum(Turn(x, prev, c), CrcCcitt.BitPass(CRC_POLY_SICK, x), PairWord(prev, c));
  }

  lemma BitsOfSum(sum: bv16, a: bv16, b: bv16)
    requires sum == a ^ b
    ensures High16(sum) == Xor(High16(a), High16(b))
  {
    hide High16;
    High16Xor(a, b);
  }

  /** What the loop body computes, under the name used for the proofs. */
  lemma LoopBody(x: bv16, prev: bv8, c: bv8, shortC: bv16, shortP: bv16)
    requires shortC == 0x00FF & (c as bv16) && shortP == Raised(prev)
    ensures x & 0x8000 != 0 ==> ((x << 1) ^ CRC_POLY_SICK) ^ (shortC | shortP) == Turn(x, prev, c)
    ensures x & 0x8000 == 0 ==> (x << 1) ^ (shortC | shortP) == Turn(x, prev, c)
  {
  }

  lemma PairFacts(prev: bv8, c: bv8)
    ensures Up16(PairWord(prev, c)) == Plus(AtTop(prev), AtTop(c) >> 8)
    ensures (AtTop(c) >> 8) & 0xFF00_0000_0000_0000 == 0 && (AtTop(c) >> 8) << 8 == AtTop(c)
    ensures AtTop(prev) << 8 == 0
  {
  }

  lemma PairBits(prev: bv8, c: bv8)
    ensures High16(PairWord(prev, c)) == Pair(prev, c)
  {
    hide HighBits, PairWord, Up16, AtTop;
    PairFacts(prev, c);
    SumOfHalves(AtTop(prev), AtTop(c) >> 8, AtTop(c));
  }

  lemma SumOfHalves(high: bv64, low: bv64, raised: bv64)
    requires low & 0xFF00_0000_0000_0000 == 0 && low << 8 == raised && high << 8 == 0
    ensures HighBits(Plus(high, low), 16) == HighBits(high, 8) + HighBits(raised, 8)
  {
    hide HighBits, Shl, Plus;
    HighXor(high, low, 16);
    HighPadded(high, 16);
    HighSplit(low, 8, 8);
    Shl8(low);
    High8OfClear(low);
    SideBySide(HighBits(high, 8), HighBits(raised, 8));
  }

  lemma SideBySide(a: seq<bool>, b: seq<bool>)
    requires |a| == |b| == 8
    ensures Xor(a + Zeros(8), Zeros(8) + b) == a + b
  {
  }

  /** The register as a word: the fold of update_crc_sick, the byte before the first being zero. */
  function FoldOf(msg: seq<bv8>): bv16 {
    if msg == [] then CRC_START_SICK
    else
      var before := msg[..|msg| - 1];
      Turn(FoldOf(before), Last(before), Last(msg))
  }

  lemma {:induction false} FoldBits(msg: seq<bv8>)
    ensures High16(FoldOf(msg)) == Sick(msg)
  {
    hide High16, ByteBits, Turn, Step;
    if msg == [] {
      SickStart();
    } else {
      var before := msg[..|msg| - 1];
      FoldBits(before);
      TurnBits(FoldOf(before), Last(before), Last(msg));
    }
  }

  lemma OneMoreTurn(m: seq<bv8>, c: bv8)
    ensures FoldOf(m + [c]) == Turn(FoldOf(m), Last(m), c)
  {
    hide Turn;
    assert (m + [c])[..|m|] == m;
  }

  /** USAGE.md also asks for a complement here; the code takes none. */
  method CrcSick(input: array?<bv8>, numBytes: nat) returns (crc: bv16)
    requires input != null ==> numBytes <= input.Length
    ensures crc == SwapBytes(FoldOf(Bytes(input, numBytes)))
    ensures High16(SwapBytes(crc)) == Sick(Bytes(input, numBytes))
  {
    hide High16, Sick, FoldOf, SwapBytes;
    FoldBits(Bytes(input, numBytes));
    crc := Loop(input, numBytes);
    SwapTwice(crc);
    crc := ExchangeBytes(crc);
  }

  method Loop(input: array?<bv8>, numBytes: nat) returns (crc: bv16)
    requires input != null ==> numBytes <= input.Length
    ensures crc == FoldOf(Bytes(input, numBytes))
  {
    FoldStart();
    hide FoldOf, Last, Turn, Raised;
    crc := CRC_START_SICK;
    var shortP: bv16 := 0;
    if input != null {
      for a := 0 to numBytes
        invariant crc == FoldOf(input[..a])
        invariant shortP == Raised(Last(input[..a]))
      {
        ghost var m, before := input[..a], crc;
        var shortC := 0x00FF & (input[a] as bv16);
        if crc & 0x8000 != 0 {
          crc := ((crc << 1) ^ CRC_POLY_SICK) ^ (shortC | shortP);
        } else {
          crc := (crc << 1) ^ (shortC | shortP);
        }
        LoopBody(before, Last(m), input[a], shortC, shortP);
        OneMoreTurn(m, input[a]);
        assert input[..a + 1] == m + [input[a]];
        LastOf(m, input[a]);
        RaisedIs(input[a]);
        shortP := shortC << 8;
      }
    }
  }

  lemma FoldStart()
    ensures FoldOf([]) == CRC_START_SICK && Raised(Last([])) == 0
  {
  }

  lemma RaisedIs(c: bv8)
    ensures (0x00FF & (c as bv16)) << 8 == Raised(c)
  {
  }

  lemma LastOf(m: seq<bv8>, c: bv8)
    ensures Last(m + [c]) == c
  {
  }

  lemma SickStart()
    ensures High16(CRC_START_SICK) == Sick([])
  {
    HighOfZero(16);
    assert Up16(0) == 0;
  }

  lemma SickParityOdd()
    ensures Parity(High16(CRC_POLY_SICK))
  {
    HighParity16(Up16(CRC_POLY_SICK));
    assert HighFold8(Plus(Up16(CRC_POLY_SICK), Up16(CRC_POLY_SICK) << 8));
  }

  /** Both appearances of a byte cancel in the parity, except that the last has only one. */
  lemma {:induction false} SickParity(msg: seq<bv8>)
    ensures Parity(Sick(msg)) == Parity(ByteBits(false, Last(msg)))
  {
    hide High16, ByteBits;
    if msg == [] {
      ParityOfConstants(16);
      ParityOfConstants(8);
      ZeroByte();
    } else {
      var before := msg[..|msg| - 1];
      SickParity(before);
      SickParityOdd();
      var r := Sick(before);
      RunParity(High16(CRC_POLY_SICK), r, [false]);
      ParitySingle(false);
      assert Run(High16(CRC_POLY_SICK), r, [false]) == Step(High16(CRC_POLY_SICK), r, false);
      ParityXor(Step(High16(CRC_POLY_SICK), r, false), Pair(Last(before), Last(msg)));
      ParityConcat(ByteBits(false, Last(before)), ByteBits(false, Last(msg)));
    }
  }

  lemma ZeroByte()
    ensures ByteBits(false, 0) == Zeros(8)
  {
    HighOfZero(8);
    assert AtTop(0) == 0;
  }

  lemma SickLast()
    ensures High16(CRC_POLY_SICK)[15]
  {
    HighLast(Up16(CRC_POLY_SICK), 16);
    Shl15(Up16(CRC_POLY_SICK));
    assert Top(Up16(CRC_POLY_SICK) << 15);
  }

  /** One message's worth of differences in the register. */
  function Difference(m: seq<bv8>, n: seq<bv8>): (d: seq<bool>)
    requires |m| == |n|
    ensures |d| == 16
  {
    Xor(Sick(m), Sick(n))
  }

  lemma DifferenceStep(m: seq<bv8>, n: seq<bv8>)
    requires |m| == |n| > 0
    ensures var k := |m| - 1;
            Difference(m, n) == Xor(Step(High16(CRC_POLY_SICK), Difference(m[..k], n[..k]), false),
              Xor(Pair(Last(m[..k]), Last(m)), Pair(Last(n[..k]), Last(n))))
  {
    hide High16, ByteBits, Step;
    var k := |m| - 1;
    StepLinear(High16(CRC_POLY_SICK), Sick(m[..k]), Sick(n[..k]), false, false);
    XorPairs(Step(High16(CRC_POLY_SICK), Sick(m[..k]), false), Pair(Last(m[..k]), Last(m)),
             Step(High16(CRC_POLY_SICK), Sick(n[..k]), false), Pair(Last(n[..k]), Last(n)));
  }

  /** Two messages of one length that differ in exactly one byte never collide, although the
      register moves by a single bit between bytes. */
  lemma {:induction false} SingleByteDetected(m: seq<bv8>, n: seq<bv8>, i: nat)
    requires |m| == |n| && i < |m| && m[i] != n[i]
    requires forall k | 0 <= k < |m| && k != i :: m[k] == n[k]
    ensures Sick(m) != Sick(n)
    decreases |m|
  {
    var k := |m| - 1;
    DifferenceAfter(m, n, i);
    if Sick(m) == Sick(n) {
      XorSelf(Sick(m), Sick(n));
    }
  }

  lemma {:induction false} DifferenceAfter(m: seq<bv8>, n: seq<bv8>, i: nat)
    requires |m| == |n| && i < |m| && m[i] != n[i]
    requires forall k | 0 <= k < |m| && k != i :: m[k] == n[k]
    ensures Difference(m, n) != Zeros(16)
    ensures i == |m| - 1 ==> Difference(m, n) == Zeros(8) + Xor(ByteBits(false, m[i]), ByteBits(false, n[i]))
    decreases |m|
  {
    hide High16, ByteBits, Sick;
    var g, k := High16(CRC_POLY_SICK), |m| - 1;
    var d := Xor(ByteBits(false, m[i]), ByteBits(false, n[i]));
    ByteBitsInjective(false, m[i], n[i]);
    XorSelf(ByteBits(false, m[i]), ByteBits(false, n[i]));
    DifferenceStep(m, n);
    if i == k {
      assert m[..k] == n[..k];
      SameSoFar(g, Sick(m[..k]), ByteBits(false, Last(m[..k])), ByteBits(false, m[k]), ByteBits(false, n[k]));
    } else {
      DifferenceAfter(m[..k], n[..k], i);
      var before := Difference(m[..k], n[..k]);
      if i == k - 1 {
        NextByte(g, before, ByteBits(false, m[i]), ByteBits(false, n[i]), ByteBits(false, m[k]));
      } else {
        LaterByte(g, before, Pair(m[k - 1], m[k]));
      }
    }
  }

  lemma SameSoFar(g: seq<bool>, r: seq<bool>, p: seq<bool>, b: seq<bool>, c: seq<bool>)
    requires |g| == |r| == 16 && |p| == |b| == |c| == 8 && Xor(b, c) != Zeros(8)
    ensures Xor(Step(g, Xor(r, r), false), Xor(p + b, p + c)) == Zeros(8) + Xor(b, c)
    ensures Zeros(8) + Xor(b, c) != Zeros(16)
  {
    assert Xor(r, r) == Zeros(16);
    assert Step(g, Zeros(16), false) == Zeros(16);
    XorConcat(p, b, p, c);
    assert Xor(p, p) == Zeros(8);
    var d := Zeros(8) + Xor(b, c);
    assert Xor(Zeros(16), d) == d;
    assert d[8..] == Xor(b, c) && Zeros(16)[8..] == Zeros(8);
  }

  lemma FirstSet(d: seq<bool>) returns (p: nat)
    requires d != Zeros(|d|)
    ensures p < |d| && d[p] && forall q | 0 <= q < p :: !d[q]
  {
    var z := Zeros(|d|);
    p := 0;
    while p < |d| && !d[p]
      invariant p <= |d| && forall q | 0 <= q < p :: !d[q]
    {
      p := p + 1;
    }
    assert p == |d| ==> d == z;
  }

  /** The second appearance of the wrong byte cannot undo the first. */
  lemma NextByte(g: seq<bool>, before: seq<bool>, b: seq<bool>, c: seq<bool>, next: seq<bool>)
    requires |g| == 16 && |b| == |c| == |next| == 8
    requires before == Zeros(8) + Xor(b, c) && Xor(b, c) != Zeros(8)
    ensures Xor(Step(g, before, false), Xor(b + next, c + next)) != Zeros(16)
  {
    var d := Xor(b, c);
    var p := FirstSet(d);
    XorConcat(b, next, c, next);
    var again := d + Xor(next, next);
    var s := Step(g, before, false);
    assert s == before[1..] + [false];
    assert !s[p] && again[p];
    assert Xor(s, again)[p];
  }

  lemma LaterByte(g: seq<bool>, before: seq<bool>, pair: seq<bool>)
    requires g == High16(CRC_POLY_SICK) && |before| == |pair| == 16 && before != Zeros(16)
    ensures Xor(Step(g, before, false), Xor(pair, pair)) != Zeros(16)
  {
    hide High16;
    SickLast();
    ZeroRunKeepsNonzero(g, before, 1);
    assert Run(g, before, Zeros(1)) == Step(g, before, false) by {
      assert Zeros(1) == [false];
      assert Run(g, Step(g, before, false), []) == Step(g, before, false);
    }
    var s := Step(g, before, false);
    assert Xor(s, Xor(pair, pair)) == s;
  }
}

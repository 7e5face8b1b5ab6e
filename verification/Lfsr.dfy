/**
 Bit-at-a-time division over GF(2): the plain algorithm that the lookup tables of
 Chat/libcrc speed up.

 A register is written with the coefficient of the highest power first, whichever end of the
 machine word that coefficient occupies, so the shift-right ("reflected") and shift-left CRCs
 of the library are the same machine here. A generator of degree w is given by its w
 coefficients below the leading one.
 */
module Lfsr {
  import opened Bits

  /** One bit of message. The bit shifted out, corrected by the message bit, selects the generator. */
  function Step(g: seq<bool>, r: seq<bool>, b: bool): (s: seq<bool>)
    requires |g| == |r| > 0
    ensures |s| == |r|
  {
    var shifted := r[1..] + [false];
    if r[0] != b then Xor(shifted, g) else shifted
  }

  function Run(g: seq<bool>, r: seq<bool>, m: seq<bool>): (s: seq<bool>)
    requires |g| == |r| > 0
    ensures |s| == |r|
    decreases |m|
  {
    if m == [] then r else Run(g, Step(g, r, m[0]), m[1..])
  }

  lemma {:induction false} RunConcat(g: seq<bool>, r: seq<bool>, m: seq<bool>, n: seq<bool>)
    requires |g| == |r| > 0
    ensures Run(g, r, m + n) == Run(g, Run(g, r, m), n)
    decreases |m|
  {
    if m == [] {
      assert m + n == n;
    } else {
      assert (m + n)[1..] == m[1..] + n;
      RunConcat(g, Step(g, r, m[0]), m[1..], n);
    }
  }

  lemma StepLinear(g: seq<bool>, r: seq<bool>, s: seq<bool>, a: bool, b: bool)
    requires |g| == |r| == |s| > 0
    ensures Step(g, Xor(r, s), a != b) == Xor(Step(g, r, a), Step(g, s, b))
  {
    var lhs, rhs := Step(g, Xor(r, s), a != b), Xor(Step(g, r, a), Step(g, s, b));
    forall i | 0 <= i < |g| ensures lhs[i] == rhs[i] {
    }
  }

  /** Superposition: the register is additive in start value and message together. */
  lemma {:induction false} RunLinear(g: seq<bool>, r: seq<bool>, s: seq<bool>, m: seq<bool>, n: seq<bool>)
    requires |g| == |r| == |s| > 0 && |m| == |n|
    ensures Run(g, Xor(r, s), Xor(m, n)) == Xor(Run(g, r, m), Run(g, s, n))
    decreases |m|
  {
    if m == [] {
    } else {
      StepLinear(g, r, s, m[0], n[0]);
      assert Xor(m, n)[1..] == Xor(m[1..], n[1..]);
      RunLinear(g, Step(g, r, m[0]), Step(g, s, n[0]), m[1..], n[1..]);
    }
  }

  /** At most one register's width of message drives the register to zero exactly when the
      register already held that message: the key to burst detection and to the residue. */
  lemma {:induction false} RunToZero(g: seq<bool>, r: seq<bool>, m: seq<bool>)
    requires |g| == |r| > 0 && |m| <= |r|
    requires g[|g| - 1]
    ensures Run(g, r, m) == Zeros(|r|) <==> r == m + Zeros(|r| - |m|)
    decreases |m|
  {
    var w := |r|;
    if m == [] {
      assert m + Zeros(w) == Zeros(w);
    } else {
      var s, t := Step(g, r, m[0]), m[1..] + Zeros(w - |m| + 1);
      RunToZero(g, s, m[1..]);
      if s == t {
        assert !t[w - 1] && s[w - 1] == (r[0] != m[0]);
        assert r[1..] + [false] == t;
        forall i | 0 <= i < w ensures r[i] == (m + Zeros(w - |m|))[i] {
          if i > 0 {
            assert r[i] == (r[1..] + [false])[i - 1] == t[i - 1];
          }
        }
      }
      if r == m + Zeros(w - |m|) {
        assert s == r[1..] + [false] == t;
      }
    }
  }

  /** The converse half of RunToZero needs nothing of the generator. */
  lemma {:induction false} RunOnItself(g: seq<bool>, r: seq<bool>, m: seq<bool>)
    requires |g| == |r| > 0 && |m| <= |r|
    requires r == m + Zeros(|r| - |m|)
    ensures Run(g, r, m) == Zeros(|r|)
    decreases |m|
  {
    if m == [] {
      assert m + Zeros(|r|) == Zeros(|r|);
    } else {
      var s := Step(g, r, m[0]);
      assert s == r[1..] + [false] == m[1..] + Zeros(|r| - |m| + 1);
      RunOnItself(g, s, m[1..]);
    }
  }

  /** Message bits may be added to the register all at once and then clocked through. */
  lemma FeedAhead(g: seq<bool>, r: seq<bool>, m: seq<bool>)
    requires |g| == |r| > 0 && |m| <= |r|
    ensures Run(g, r, m) == Run(g, Xor(r, m + Zeros(|r| - |m|)), Zeros(|m|))
  {
    var p := m + Zeros(|r| - |m|);
    RunOnItself(g, p, m);
    RunLinear(g, Xor(r, p), p, Zeros(|m|), m);
    assert Xor(Xor(r, p), p) == r;
    assert Xor(Zeros(|m|), m) == m;
    var s := Run(g, Xor(r, p), Zeros(|m|));
    assert Xor(s, Zeros(|r|)) == s;
  }

  /** While only zeros leave the register, clocking it is a plain shift. */
  lemma {:induction false} ShiftOnly(g: seq<bool>, k: nat, t: seq<bool>)
    requires |g| == k + |t| > 0
    ensures Run(g, Zeros(k) + t, Zeros(k)) == t + Zeros(k)
    decreases k
  {
    ShiftOnlyFrom(g, k, t, 0);
    assert t + Zeros(0) == t;
    assert Zeros(k) + (t + Zeros(0)) == Zeros(k) + t;
  }

  lemma {:induction false} ShiftOnlyFrom(g: seq<bool>, k: nat, t: seq<bool>, j: nat)
    requires |g| == k + |t| + j > 0
    ensures Run(g, Zeros(k) + (t + Zeros(j)), Zeros(k)) == t + Zeros(k + j)
    decreases k
  {
    var r := Zeros(k) + (t + Zeros(j));
    if k == 0 {
      assert r == t + Zeros(j);
    } else {
      assert Zeros(k)[1..] == Zeros(k - 1);
      assert Step(g, r, false) == Zeros(k - 1) + (t + Zeros(j + 1));
      ShiftOnlyFrom(g, k - 1, t, j + 1);
    }
  }

  lemma OneMoreZero(g: seq<bool>, r: seq<bool>, j: nat)
    requires |g| == |r| > 0
    ensures Run(g, r, Zeros(j + 1)) == Step(g, Run(g, r, Zeros(j)), false)
  {
    assert Zeros(j + 1) == Zeros(j) + [false];
    RunConcat(g, r, Zeros(j), [false]);
    var s := Run(g, r, Zeros(j));
    assert Run(g, s, [false]) == Run(g, Step(g, s, false), []);
  }

  /** Clocking in zeros never turns a non-zero register into zero. */
  lemma {:induction false} ZeroRunKeepsNonzero(g: seq<bool>, r: seq<bool>, n: nat)
    requires |g| == |r| > 0 && g[|g| - 1]
    ensures Run(g, r, Zeros(n)) == Zeros(|r|) <==> r == Zeros(|r|)
    decreases n
  {
    if n == 0 {
    } else {
      var z := Zeros(n);
      assert z[1..] == Zeros(n - 1);
      ZeroRunKeepsNonzero(g, Step(g, r, false), n - 1);
      RunToZero(g, r, [false]);
      assert Run(g, r, [false]) == Step(g, r, false);
      assert [false] + Zeros(|r| - 1) == Zeros(|r|);
    }
  }

  /** For a fixed message, distinct start values give distinct results. */
  lemma RunInjective(g: seq<bool>, r: seq<bool>, s: seq<bool>, m: seq<bool>)
    requires |g| == |r| == |s| > 0 && g[|g| - 1]
    ensures Run(g, r, m) == Run(g, s, m) <==> r == s
  {
    RunLinear(g, r, s, m, m);
    assert Xor(m, m) == Zeros(|m|);
    ZeroRunKeepsNonzero(g, Xor(r, s), |m|);
    XorSelf(r, s);
    XorSelf(Run(g, r, m), Run(g, s, m));
  }

  /** A register's width of message takes the register to where x alone would have taken zero
      exactly when it is the register itself plus x. */
  lemma TrailerToResidue(g: seq<bool>, r: seq<bool>, t: seq<bool>, x: seq<bool>)
    requires |g| == |r| == |t| == |x| > 0 && g[|g| - 1]
    ensures Run(g, r, t) == Run(g, Zeros(|g|), x) <==> t == Xor(r, x)
  {
    RunLinear(g, r, Zeros(|g|), t, x);
    assert Xor(r, Zeros(|g|)) == r;
    RunToZero(g, r, Xor(t, x));
    XorSelf(Run(g, r, t), Run(g, Zeros(|g|), x));
    SumMatches(r, t, x);
  }

  lemma SumMatches(r: seq<bool>, t: seq<bool>, x: seq<bool>)
    requires |r| == |t| == |x|
    ensures r == Xor(t, x) + Zeros(0) <==> t == Xor(r, x)
  {
    assert Xor(t, x) + Zeros(0) == Xor(t, x);
    assert Xor(Xor(t, x), x) == t && Xor(Xor(r, x), x) == r;
  }

  /** All differing bits lie in the window of the given width that starts at a. */
  ghost predicate DifferOnlyWithin(m: seq<bool>, n: seq<bool>, a: nat, width: nat)
    requires |m| == |n|
  {
    forall i | 0 <= i < |m| && !(a <= i < a + width) :: m[i] == n[i]
  }

  lemma ShortBurstLeavesTrace(g: seq<bool>, burst: seq<bool>)
    requires |g| > 0 && g[|g| - 1]
    requires |burst| <= |g| && burst != Zeros(|burst|)
    ensures Run(g, Zeros(|g|), burst) != Zeros(|g|)
  {
    RunToZero(g, Zeros(|g|), burst);
    if Zeros(|g|) == burst + Zeros(|g| - |burst|) {
      forall i | 0 <= i < |burst| ensures !burst[i] {
        assert burst[i] == (burst + Zeros(|g| - |burst|))[i];
      }
    }
  }

  lemma BurstLeavesTrace(g: seq<bool>, lead: nat, burst: seq<bool>, trail: nat)
    requires |g| > 0 && g[|g| - 1]
    requires |burst| <= |g| && burst != Zeros(|burst|)
    ensures Run(g, Zeros(|g|), Zeros(lead) + (burst + Zeros(trail))) != Zeros(|g|)
  {
    var zero := Zeros(|g|);
    RunConcat(g, zero, Zeros(lead), burst + Zeros(trail));
    ZeroRunKeepsNonzero(g, zero, lead);
    RunConcat(g, zero, burst, Zeros(trail));
    ShortBurstLeavesTrace(g, burst);
    ZeroRunKeepsNonzero(g, Run(g, zero, burst), trail);
  }

  lemma DifferenceIsABurst(m: seq<bool>, n: seq<bool>, a: nat, width: nat)
    returns (lead: nat, burst: seq<bool>, trail: nat)
    requires |m| == |n| && DifferOnlyWithin(m, n, a, width) && m != n
    ensures |burst| <= width && burst != Zeros(|burst|)
    ensures Xor(m, n) == Zeros(lead) + (burst + Zeros(trail))
  {
    var d := Xor(m, n);
    var i :| 0 <= i < |m| && m[i] != n[i];
    var hi := if a + width < |m| then a + width else |m|;
    lead, trail, burst := a, |m| - hi, d[a..hi];
    assert d == Zeros(lead) + (burst + Zeros(trail));
    assert burst[i - a] && !Zeros(|burst|)[i - a];
  }

  /** A burst no longer than the register is always detected. */
  lemma BurstDetected(g: seq<bool>, r: seq<bool>, m: seq<bool>, n: seq<bool>, a: nat)
    requires |g| == |r| > 0 && g[|g| - 1]
    requires |m| == |n| && DifferOnlyWithin(m, n, a, |g|)
    ensures Run(g, r, m) == Run(g, r, n) <==> m == n
  {
    if m != n {
      var lead, burst, trail := DifferenceIsABurst(m, n, a, |g|);
      BurstLeavesTrace(g, lead, burst, trail);
      RunLinear(g, r, r, m, n);
      XorSelf(r, r);
      XorSelf(Run(g, r, m), Run(g, r, n));
    }
  }

  /** A generator divisible by x + 1 (an odd number of coefficients below the leading one)
      makes the register carry the parity of everything fed to it. */
  lemma {:induction false} RunParity(g: seq<bool>, r: seq<bool>, m: seq<bool>)
    requires |g| == |r| > 0 && Parity(g)
    ensures Parity(Run(g, r, m)) == (Parity(r) != Parity(m))
    decreases |m|
  {
    if m == [] {
    } else {
      var shifted := r[1..] + [false];
      ParityConcat(r[1..], [false]);
      ParitySingle(false);
      ParityXor(shifted, g);
      RunParity(g, Step(g, r, m[0]), m[1..]);
    }
  }

  // ------------------------------------------------------------------------
  // Polynomials. A polynomial is its coefficients, highest power first.
  // ------------------------------------------------------------------------

  /** One term of the product below: b times the generator, times x^k. */
  function Term(g: seq<bool>, b: bool, k: nat): (t: seq<bool>)
    ensures |t| == 1 + |g| + k && t[0] == b
    ensures forall i | 0 <= i < |g| :: t[i + 1] == (b && g[i])
    ensures forall i | |g| < i < |t| :: !t[i]
  {
    if b then [true] + g + Zeros(k) else Zeros(1 + |g| + k)
  }

  /** The product of q and the generator x^w + g. */
  function Mul(g: seq<bool>, q: seq<bool>): (p: seq<bool>)
    ensures |p| == |q| + |g|
    decreases |q|
  {
    if q == [] then Zeros(|g|)
    else Xor(Term(g, q[0], |q| - 1), [false] + Mul(g, q[1..]))
  }

  /** rem is what is left of the dividend after subtracting some multiple of the generator. */
  ghost predicate IsRemainder(g: seq<bool>, dividend: seq<bool>, rem: seq<bool>)
    requires |rem| == |g| <= |dividend|
  {
    exists q | |q| == |dividend| - |g| :: dividend == Xor(Mul(g, q), Zeros(|q|) + rem)
  }

  /** The message times x^w, with the start value added to its highest powers. */
  function Dividend(r: seq<bool>, m: seq<bool>): (d: seq<bool>)
    ensures |d| == |m| + |r|
  {
    Xor(m + Zeros(|r|), r + Zeros(|m|))
  }

  function Quotient(g: seq<bool>, r: seq<bool>, m: seq<bool>): (q: seq<bool>)
    requires |g| == |r| > 0
    ensures |q| == |m|
    decreases |m|
  {
    if m == [] then [] else [r[0] != m[0]] + Quotient(g, Step(g, r, m[0]), m[1..])
  }

  lemma DividendAt(r: seq<bool>, m: seq<bool>, i: nat)
    requires i < |m| + |r|
    ensures Dividend(r, m)[i] == ((i < |m| && m[i]) != (i < |r| && r[i]))
  {
    assert (m + Zeros(|r|))[i] == (i < |m| && m[i]);
    assert (r + Zeros(|m|))[i] == (i < |r| && r[i]);
  }

  lemma StepAt(g: seq<bool>, r: seq<bool>, b: bool, i: nat)
    requires |g| == |r| > 0 && i < |r|
    ensures Step(g, r, b)[i] == ((i + 1 < |r| && r[i + 1]) != ((r[0] != b) && g[i]))
  {
  }

  lemma DividendStep(g: seq<bool>, r: seq<bool>, m: seq<bool>)
    requires |g| == |r| > 0 && m != []
    ensures Dividend(r, m) == Xor(Term(g, r[0] != m[0], |m| - 1), [false] + Dividend(Step(g, r, m[0]), m[1..]))
  {
    var t, d' := Term(g, r[0] != m[0], |m| - 1), Dividend(Step(g, r, m[0]), m[1..]);
    DividendAt(r, m, 0);
    forall i | 0 <= i < |d'| ensures Dividend(r, m)[i + 1] == (t[i + 1] != d'[i]) {
      DividendAt(r, m, i + 1);
      DividendAt(Step(g, r, m[0]), m[1..], i);
      if i < |g| { StepAt(g, r, m[0], i); }
    }
    assert Dividend(r, m)[1..] == Xor(t[1..], d');
    XorUnder(t, d', Dividend(r, m));
  }

  lemma XorUnder(t: seq<bool>, d: seq<bool>, e: seq<bool>)
    requires |t| == |d| + 1 == |e| && e[0] == t[0]
    requires e[1..] == Xor(t[1..], d)
    ensures e == Xor(t, [false] + d)
  {
    assert e == [e[0]] + e[1..] && t == [t[0]] + t[1..];
    XorConcat([t[0]], t[1..], [false], d);
  }

  lemma XorUnderTerm(t: seq<bool>, p: seq<bool>, e: seq<bool>)
    requires |t| == |p| + 1 == |e| + 1
    ensures Xor(Xor(t, [false] + p), [false] + e) == Xor(t, [false] + Xor(p, e))
  {
  }

  lemma {:induction false} Division(g: seq<bool>, r: seq<bool>, m: seq<bool>)
    requires |g| == |r| > 0
    ensures Dividend(r, m) == Xor(Mul(g, Quotient(g, r, m)), Zeros(|m|) + Run(g, r, m))
    decreases |m|
  {
    if m == [] {
      DivisionOfNothing(g, r);
    } else {
      var q, s, rest := Quotient(g, r, m), Step(g, r, m[0]), m[1..];
      Division(g, s, rest);
      DividendStep(g, r, m);
      PrependZero(|rest|, Run(g, s, rest));
      assert q[1..] == Quotient(g, s, rest);
      XorUnderTerm(Term(g, q[0], |rest|), Mul(g, q[1..]), Zeros(|rest|) + Run(g, s, rest));
    }
  }

  lemma PrependZero(n: nat, r: seq<bool>)
    ensures Zeros(n + 1) + r == [false] + (Zeros(n) + r)
  {
  }

  lemma DivisionOfNothing(g: seq<bool>, r: seq<bool>)
    requires |g| == |r| > 0
    ensures Dividend(r, []) == Xor(Zeros(|g|), Zeros(0) + r)
  {
    forall i | 0 <= i < |r| ensures Dividend(r, [])[i] == Xor(Zeros(|g|), Zeros(0) + r)[i] {
      DividendAt(r, [], i);
    }
  }

  lemma UnfoldMul(g: seq<bool>, q: seq<bool>, r: seq<bool>)
    requires q != [] && |r| == |g|
    ensures Xor(Mul(g, q), Zeros(|q|) + r)
         == Xor(Term(g, q[0], |q| - 1), [false] + Xor(Mul(g, q[1..]), Zeros(|q| - 1) + r))
  {
    PrependZero(|q| - 1, r);
    XorUnderTerm(Term(g, q[0], |q| - 1), Mul(g, q[1..]), Zeros(|q| - 1) + r);
  }

  lemma {:induction false} RemainderUnique(g: seq<bool>, q: seq<bool>, p: seq<bool>, r: seq<bool>, s: seq<bool>)
    requires |q| == |p| && |r| == |s| == |g| > 0
    requires Xor(Mul(g, q), Zeros(|q|) + r) == Xor(Mul(g, p), Zeros(|p|) + s)
    ensures q == p && r == s
    decreases |q|
  {
    if q == [] {
      XorZeros(r);
      XorZeros(s);
    } else {
      UnfoldMul(g, q, r);
      UnfoldMul(g, p, s);
      CancelTerm(Term(g, q[0], |q| - 1), Term(g, p[0], |p| - 1),
        Xor(Mul(g, q[1..]), Zeros(|q| - 1) + r), Xor(Mul(g, p[1..]), Zeros(|p| - 1) + s));
      RemainderUnique(g, q[1..], p[1..], r, s);
      assert q == [q[0]] + q[1..] && p == [p[0]] + p[1..];
    }
  }

  lemma XorZeros(r: seq<bool>)
    ensures Xor(Zeros(|r|), Zeros(0) + r) == r
  {
    assert Zeros(0) + r == r;
  }

  lemma CancelTerm(t: seq<bool>, u: seq<bool>, x: seq<bool>, y: seq<bool>)
    requires |t| == |u| == |x| + 1 == |y| + 1
    requires t[0] == u[0] ==> t == u
    requires Xor(t, [false] + x) == Xor(u, [false] + y)
    ensures t[0] == u[0] && x == y
  {
    assert Xor(t, [false] + x)[0] == t[0] && Xor(u, [false] + y)[0] == u[0];
    TailOfXor(t, x);
    TailOfXor(t, y);
    assert Xor(t[1..], Xor(t[1..], x)) == x && Xor(t[1..], Xor(t[1..], y)) == y;
  }

  lemma TailOfXor(t: seq<bool>, x: seq<bool>)
    requires |t| == |x| + 1
    ensures Xor(t, [false] + x)[1..] == Xor(t[1..], x)
  {
    XorConcat([t[0]], t[1..], [false], x);
    assert t == [t[0]] + t[1..];
  }

  /** The register is the remainder of the message polynomial, and nothing else is. */
  lemma RunIsTheRemainder(g: seq<bool>, r: seq<bool>, m: seq<bool>, rem: seq<bool>)
    requires |g| == |r| == |rem| > 0
    ensures IsRemainder(g, Dividend(r, m), rem) <==> rem == Run(g, r, m)
  {
    Division(g, r, m);
    assert IsRemainder(g, Dividend(r, m), Run(g, r, m));
    if IsRemainder(g, Dividend(r, m), rem) {
      var q :| |q| == |m| && Dividend(r, m) == Xor(Mul(g, q), Zeros(|q|) + rem);
      RemainderUnique(g, q, Quotient(g, r, m), rem, Run(g, r, m));
    }
  }
}

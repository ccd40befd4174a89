/** The bit-serial register behind every CRC: it is fed one message bit at a time, and the
    generator polynomial is one followed by the bits of `g`. */
module ShiftRegister {

  import opened Gf2

  /** One step: shift out the highest bit and subtract the generator if it and the message
      bit differ. */
  function Step(g: Bits, reg: Bits, bit: bool): (r: Bits)
    requires |reg| == |g| > 0
    ensures |r| == |g|
  {
    var shifted := reg[1..] + [false];
    if reg[0] != bit then Xor(shifted, g) else shifted
  }

  function Run(g: Bits, reg: Bits, m: Bits): (r: Bits)
    requires |reg| == |g| > 0
    ensures |r| == |g|
    decreases |m|
  {
    if m == [] then reg else Run(g, Step(g, reg, m[0]), m[1..])
  }

  // -------------------------------------------------------------- remainder of a division

  /** reg·x^|m| + m·x^w for a register of w bits. */
  function Dividend(reg: Bits, m: Bits): (p: Bits)
    ensures |p| == |reg| + |m|
  {
    Xor(reg + Zeros(|m|), m + Zeros(|reg|))
  }

  lemma DividendStep(g: Bits, reg: Bits, m: Bits)
    requires |reg| == |g| > 0 && m != []
    ensures
      var h := reg[0] != m[0];
      var G := [true] + g;
      Dividend(reg, m) == Xor((if h then G else Zeros(|G|)) + Zeros(|m| - 1), [false] + Dividend(Step(g, reg, m[0]), m[1..]))
  {
    var h, G := reg[0] != m[0], [true] + g;
    var p, p' := Dividend(reg, m), Dividend(Step(g, reg, m[0]), m[1..]);
    var s := (if h then G else Zeros(|G|)) + Zeros(|m| - 1);
    var sum := Xor(s, [false] + p');
    forall i | 0 <= i < |p| ensures p[i] == sum[i] {
      if i > 0 {
        assert p'[i - 1] == ((Step(g, reg, m[0]) + Zeros(|m| - 1))[i - 1] != (m[1..] + Zeros(|reg|))[i - 1]);
      }
    }
  }

  /** Every step of the register is a step of the division, and the bits shifted out are the
      quotient. */
  lemma {:induction false} RunDivides(g: Bits, reg: Bits, m: Bits) returns (q: Bits)
    requires |reg| == |g| > 0
    ensures |q| == |m| && Dividend(reg, m) == Xor(Mul(q, [true] + g), Zeros(|q|) + Run(g, reg, m))
    decreases |m|
  {
    hide Dividend, Step, Mul, Zeros, Xor;
    if m == [] {
      q := [];
      NothingDivides(g, reg);
    } else {
      var h, G := reg[0] != m[0], [true] + g;
      var q' := RunDivides(g, Step(g, reg, m[0]), m[1..]);
      q := [h] + q';
      DividendStep(g, reg, m);
      MulCons(h, q', G);
      Carry(if h then G else Zeros(|G|), q', G, Run(g, reg, m));
    }
  }

  lemma NothingDivides(g: Bits, reg: Bits)
    requires |reg| == |g| > 0
    ensures Dividend(reg, []) == Xor(Mul([], [true] + g), Zeros(0) + reg)
  {
    assert Zeros(0) + reg == reg && [] + Zeros(|reg|) == Zeros(|reg|) && reg + Zeros(0) == reg;
  }

  /** The register holds the remainder of the dividend on division by the generator. */
  lemma RunIsRemainder(g: Bits, reg: Bits, m: Bits)
    requires |reg| == |g| > 0
    ensures IsRemainder(Run(g, reg, m), Dividend(reg, m), [true] + g)
    ensures forall r | IsRemainder(r, Dividend(reg, m), [true] + g) :: r == Run(g, reg, m)
  {
    hide Dividend, Mul, Zeros, Xor, Run;
    var q := RunDivides(g, reg, m);
    forall r | IsRemainder(r, Dividend(reg, m), [true] + g) ensures r == Run(g, reg, m) {
      RemainderUnique(r, Run(g, reg, m), Dividend(reg, m), [true] + g);
    }
  }

  lemma Carry(top: Bits, q: Bits, G: Bits, r: Bits)
    requires |top| == |G| > 0 && |r| == |G| - 1
    ensures
      Xor(top + Zeros(|q|), [false] + Xor(Mul(q, G), Zeros(|q|) + r))
      == Xor(Xor(top + Zeros(|q|), [false] + Mul(q, G)), Zeros(|q| + 1) + r)
  {
    hide Mul;
    var m, t := Mul(q, G), top + Zeros(|q|);
    XorCons(m, Zeros(|q|) + r);
    assert [false] + (Zeros(|q|) + r) == Zeros(|q| + 1) + r;
    hide Xor, Zeros;
    XorAssociates(t, [false] + m, Zeros(|q| + 1) + r);
  }

  lemma XorCons(a: Bits, b: Bits)
    requires |a| == |b|
    ensures [false] + Xor(a, b) == Xor([false] + a, [false] + b)
  {}

  lemma XorAssociates(a: Bits, b: Bits, c: Bits)
    requires |a| == |b| == |c|
    ensures Xor(a, Xor(b, c)) == Xor(Xor(a, b), c)
  {}

  // --------------------------------------------------------------------- linear structure

  lemma StepXor(g: Bits, a: Bits, b: Bits, x: bool, y: bool)
    requires |a| == |b| == |g| > 0
    ensures Step(g, Xor(a, b), x != y) == Xor(Step(g, a, x), Step(g, b, y))
  {}

  /** Runs add up: over registers and over messages of the same length at once. */
  lemma {:induction false} RunXor(g: Bits, a: Bits, b: Bits, m: Bits, n: Bits)
    requires |a| == |b| == |g| > 0 && |m| == |n|
    ensures Run(g, Xor(a, b), Xor(m, n)) == Xor(Run(g, a, m), Run(g, b, n))
    decreases |m|
  {
    hide Step;
    if m != [] {
      StepXor(g, a, b, m[0], n[0]);
      assert Xor(m, n)[1..] == Xor(m[1..], n[1..]);
      RunXor(g, Step(g, a, m[0]), Step(g, b, n[0]), m[1..], n[1..]);
    }
  }

  /** A message may be fed in pieces. */
  lemma {:induction false} RunConcat(g: Bits, reg: Bits, a: Bits, b: Bits)
    requires |reg| == |g| > 0
    ensures Run(g, reg, a + b) == Run(g, Run(g, reg, a), b)
    decreases |a|
  {
    hide Step;
    if a == [] {
      assert a + b == b;
    } else {
      assert (a + b)[1..] == a[1..] + b;
      RunConcat(g, Step(g, reg, a[0]), a[1..], b);
    }
  }

  /** The bits to be fed, standing at the top of a register, leave it one by one. */
  lemma BitLeaves(g: Bits, m: Bits)
    requires 0 < |m| <= |g|
    ensures Step(g, m + Zeros(|g| - |m|), m[0]) == m[1..] + Zeros(|g| - |m| + 1)
  {}

  lemma RunZeros(g: Bits, reg: Bits, n: nat)
    requires |reg| == |g| > 0 && n > 0
    ensures Run(g, reg, Zeros(n)) == Run(g, Step(g, reg, false), Zeros(n - 1))
  {
    hide Step;
    assert Zeros(n)[1..] == Zeros(n - 1);
  }

  /** Feeding up to w bits is adding them to the top of the register and feeding zeros. */
  lemma {:induction false} RunPreloaded(g: Bits, reg: Bits, m: Bits)
    requires |reg| == |g| > 0 && |m| <= |g|
    ensures Run(g, reg, m) == Run(g, Xor(reg, m + Zeros(|g| - |m|)), Zeros(|m|))
    decreases |m|
  {
    hide Step, Zeros, Xor;
    var x := m + Zeros(|g| - |m|);
    if m == [] {
      assert x == Zeros(|g|);
      XorSelf(reg);
      assert Zeros(0) == [];
    } else {
      RunPreloaded(g, Step(g, reg, m[0]), m[1..]);
      BitLeaves(g, m);
      StepXor(g, reg, x, m[0], m[0]);
      RunZeros(g, Xor(reg, x), |m|);
    }
  }

  // ---------------------------------------------------------------------- error detection

  /** The generator has the constant term one. */
  predicate Odd(g: Bits) {
    g != [] && g[|g| - 1]
  }

  /** With such a generator no step loses information. */
  lemma StepInjective(g: Bits, a: Bits, b: Bits, bit: bool)
    requires Odd(g) && |a| == |b| == |g|
    requires Step(g, a, bit) == Step(g, b, bit)
    ensures a == b
  {
    var s, t, w := Step(g, a, bit), Step(g, b, bit), |g|;
    assert s[w - 1] == (a[0] != bit) && t[w - 1] == (b[0] != bit);
    forall i | 1 <= i < w ensures a[i] == b[i] {
      assert s[i - 1] == (a[i] != (a[0] != bit && g[i - 1]));
      assert t[i - 1] == (b[i] != (b[0] != bit && g[i - 1]));
    }
  }

  lemma {:induction false} RunInjective(g: Bits, a: Bits, b: Bits, m: Bits)
    requires Odd(g) && |a| == |b| == |g|
    requires Run(g, a, m) == Run(g, b, m)
    ensures a == b
    decreases |m|
  {
    hide Step;
    if m != [] {
      RunInjective(g, Step(g, a, m[0]), Step(g, b, m[0]), m[1..]);
      StepInjective(g, a, b, m[0]);
    }
  }

  /** Two messages collide from one seed exactly when their difference leaves an empty
      register empty. */
  lemma CollisionIffDifference(g: Bits, reg: Bits, a: Bits, b: Bits)
    requires |reg| == |g| > 0 && |a| == |b|
    ensures Run(g, reg, a) == Run(g, reg, b) <==> Run(g, Zeros(|g|), Xor(a, b)) == Zeros(|g|)
  {
    hide Run, Zeros, Xor;
    RunXor(g, reg, reg, a, b);
    XorSelf(reg);
    XorZeroIffEqual(Run(g, reg, a), Run(g, reg, b));
  }

  lemma {:induction false} ZerosStayZero(g: Bits, n: nat)
    requires g != []
    ensures Run(g, Zeros(|g|), Zeros(n)) == Zeros(|g|)
  {
    if n > 0 {
      assert Zeros(n)[1..] == Zeros(n - 1);
      assert Step(g, Zeros(|g|), false) == Zeros(|g|);
      ZerosStayZero(g, n - 1);
    }
  }

  /** The zeros in front of a difference and behind it do not matter. */
  lemma TrimZeros(g: Bits, i: nat, e: Bits, j: nat)
    requires Odd(g)
    ensures Run(g, Zeros(|g|), Zeros(i) + e + Zeros(j)) == Zeros(|g|) <==> Run(g, Zeros(|g|), e) == Zeros(|g|)
  {
    hide Run, Zeros;
    var z := Zeros(|g|);
    ZerosStayZero(g, i);
    ZerosStayZero(g, j);
    RunConcat(g, z, Zeros(i) + e, Zeros(j));
    RunConcat(g, z, Zeros(i), e);
    if Run(g, Run(g, z, e), Zeros(j)) == z {
      RunInjective(g, Run(g, z, e), z, Zeros(j));
    }
  }

  lemma ZeroXor(x: Bits)
    ensures Xor(Zeros(|x|), x) == x
  {}

  lemma PaddedIsZero(e: Bits, n: nat)
    ensures e + Zeros(n) == Zeros(|e| + n) <==> e == Zeros(|e|)
  {
    if e + Zeros(n) == Zeros(|e| + n) {
      assert e == (e + Zeros(n))[..|e|];
    }
  }

  /** An empty register stays empty over at most w bits only if all of them are zero. */
  lemma ShortBurst(g: Bits, e: Bits)
    requires Odd(g) && |e| <= |g|
    ensures Run(g, Zeros(|g|), e) == Zeros(|g|) <==> e == Zeros(|e|)
  {
    hide Run, Zeros, Xor;
    var z := Zeros(|g|);
    var x := e + Zeros(|g| - |e|);
    RunPreloaded(g, z, e);
    ZeroXor(x);
    ZerosStayZero(g, |e|);
    PaddedIsZero(e, |g| - |e|);
    if Run(g, x, Zeros(|e|)) == z {
      RunInjective(g, x, z, Zeros(|e|));
    }
  }

  /** One bit more, and the generator itself is the one difference that is missed. */
  lemma LongBurst(g: Bits, e: Bits)
    requires Odd(g) && |e| == |g| + 1
    ensures Run(g, Zeros(|g|), e) == Zeros(|g|) <==> e == Zeros(|e|) || e == [true] + g
  {
    hide Run;
    var z := Zeros(|g|);
    var top := if e[0] then g else z;
    assert Step(g, z, e[0]) == top;
    RunStep(g, z, e);
    TrailerBits(g, top, e[1..]);
    assert e == [e[0]] + e[1..];
    assert Zeros(|e|) == [false] + z;
  }

  lemma RunStep(g: Bits, reg: Bits, m: Bits)
    requires |reg| == |g| > 0 && m != []
    ensures Run(g, reg, m) == Run(g, Step(g, reg, m[0]), m[1..])
  {}

  /** Feeding w bits to a register empties it exactly when they equal its content. */
  lemma TrailerBits(g: Bits, reg: Bits, t: Bits)
    requires Odd(g) && |reg| == |t| == |g|
    ensures Run(g, reg, t) == Zeros(|g|) <==> t == reg
  {
    hide Run;
    var z := Zeros(|g|);
    RunPreloaded(g, reg, t);
    assert t + Zeros(0) == t;
    ZerosStayZero(g, |g|);
    if Run(g, Xor(reg, t), Zeros(|g|)) == z {
      RunInjective(g, Xor(reg, t), z, Zeros(|g|));
    }
    XorZeroIffEqual(reg, t);
  }

  /** All differing positions of two messages lie in a window of `n` bits from bit `i` on. */
  predicate DifferInWindow(a: Bits, b: Bits, i: nat, n: nat) {
    |a| == |b| && forall k | 0 <= k < |a| && a[k] != b[k] :: i <= k < i + n
  }

  /** Two different messages whose differences lie in any window of w bits get different
      checksums from every seed. */
  lemma BurstDetected(g: Bits, reg: Bits, a: Bits, b: Bits, i: nat)
    requires Odd(g) && |reg| == |g|
    requires DifferInWindow(a, b, i, |g|) && a != b
    ensures Run(g, reg, a) != Run(g, reg, b)
  {
    hide Run, Zeros;
    var d := Xor(a, b);
    var lo, e, after := Window(d, i, |g|);
    CollisionIffDifference(g, reg, a, b);
    TrimZeros(g, lo, e, after);
    ShortBurst(g, e);
    XorZeroIffEqual(a, b);
  }

  /** In a window of w+1 bits exactly the generator itself is missed. */
  lemma GeneratorMissed(g: Bits, reg: Bits, a: Bits, b: Bits, i: nat)
    requires Odd(g) && |reg| == |g|
    requires DifferInWindow(a, b, i, |g| + 1) && a != b && i + |g| + 1 <= |a|
    ensures Run(g, reg, a) == Run(g, reg, b) <==> Xor(a, b)[i..i + |g| + 1] == [true] + g
  {
    hide Run, Zeros;
    var d := Xor(a, b);
    var lo, e, after := Window(d, i, |g| + 1);
    assert e == d[i..i + |g| + 1];
    CollisionIffDifference(g, reg, a, b);
    TrimZeros(g, lo, e, after);
    LongBurst(g, e);
    XorZeroIffEqual(a, b);
  }

  lemma Window(d: Bits, i: nat, n: nat) returns (lo: nat, e: Bits, after: nat)
    requires forall k | 0 <= k < |d| && d[k] :: i <= k < i + n
    ensures d == Zeros(lo) + e + Zeros(after) && |e| <= n
    ensures i + n <= |d| ==> e == d[i..i + n]
    ensures e == Zeros(|e|) ==> d == Zeros(|d|)
  {
    lo := if i < |d| then i else |d|;
    var hi := if lo + n < |d| then lo + n else |d|;
    e, after := d[lo..hi], |d| - hi;
    assert d == Zeros(lo) + e + Zeros(after);
    if e == Zeros(|e|) {
      assert d == Zeros(|d|);
    }
  }

  // -------------------------------------------------------------------------------- parity

  lemma StepParity(g: Bits, reg: Bits, bit: bool)
    requires |reg| == |g| > 0 && Parity(g)
    ensures Parity(Step(g, reg, bit)) == (Parity(reg) != bit)
  {
    var shifted := reg[1..] + [false];
    ParityConcat(reg[1..], [false]);
    ParityXor(shifted, g);
  }

  lemma {:induction false} RunParity(g: Bits, reg: Bits, m: Bits)
    requires |reg| == |g| > 0 && Parity(g)
    ensures Parity(Run(g, reg, m)) == (Parity(reg) != Parity(m))
    decreases |m|
  {
    hide Step;
    if m != [] {
      StepParity(g, reg, m[0]);
      RunParity(g, Step(g, reg, m[0]), m[1..]);
    }
  }

  lemma {:induction false} ZerosParity(n: nat)
    ensures !Parity(Zeros(n))
  {
    if n > 0 {
      assert Zeros(n)[1..] == Zeros(n - 1);
      ZerosParity(n - 1);
    }
  }
}

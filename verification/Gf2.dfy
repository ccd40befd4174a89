/** Polynomials over the field with two elements, written as bit strings with the highest
    power first. */
module Gf2 {

  type Bits = seq<bool>

  function Zeros(n: nat): (z: Bits)
    ensures |z| == n && forall i | 0 <= i < n :: !z[i]
  {
    seq(n, _ => false)
  }

  /** Addition and subtraction of polynomials. */
  function Xor(a: Bits, b: Bits): (r: Bits)
    requires |a| == |b|
    ensures |r| == |a|
    ensures forall i | 0 <= i < |r| :: r[i] == (a[i] != b[i])
  {
    seq(|a|, i requires 0 <= i < |a| => a[i] != b[i])
  }

  /** The product of a polynomial of degree below |q| and one of degree below |g|. */
  function Mul(q: Bits, g: Bits): (r: Bits)
    requires g != []
    ensures |r| == |q| + |g| - 1
  {
    if q == [] then Zeros(|g| - 1)
    else Xor((if q[0] then g else Zeros(|g|)) + Zeros(|q| - 1), [false] + Mul(q[1..], g))
  }

  /** `r` is what is left of `p` after dividing by `g`. */
  ghost predicate IsRemainder(r: Bits, p: Bits, g: Bits) {
    && g != [] && |r| == |g| - 1 && |p| >= |r|
    && exists q: Bits :: |q| == |p| - |r| && p == Xor(Mul(q, g), Zeros(|q|) + r)
  }

  function Parity(a: Bits): bool {
    a != [] && (a[0] != Parity(a[1..]))
  }

  lemma XorSelf(a: Bits)
    ensures Xor(a, a) == Zeros(|a|)
    ensures Xor(a, Zeros(|a|)) == a
  {}

  lemma XorZeroIffEqual(a: Bits, b: Bits)
    requires |a| == |b|
    ensures Xor(a, b) == Zeros(|a|) <==> a == b
  {
    if Xor(a, b) == Zeros(|a|) {
      forall i | 0 <= i < |a| ensures a[i] == b[i] {
        assert !Xor(a, b)[i];
      }
    }
  }

  lemma {:induction false} ParityXor(a: Bits, b: Bits)
    requires |a| == |b|
    ensures Parity(Xor(a, b)) == (Parity(a) != Parity(b))
  {
    if a != [] {
      ParityXor(a[1..], b[1..]);
      assert Xor(a, b)[1..] == Xor(a[1..], b[1..]);
    }
  }

  lemma {:induction false} ParityConcat(a: Bits, b: Bits)
    ensures Parity(a + b) == (Parity(a) != Parity(b))
  {
    if a == [] {
      assert a + b == b;
    } else {
      ParityConcat(a[1..], b);
      assert (a + b)[1..] == a[1..] + b;
    }
  }

  lemma MulCons(b: bool, q: Bits, g: Bits)
    requires g != []
    ensures Mul([b] + q, g) == Xor((if b then g else Zeros(|g|)) + Zeros(|q|), [false] + Mul(q, g))
  {
    assert ([b] + q)[1..] == q;
  }

  /** The product is additive in its first factor. */
  lemma {:induction false} MulXor(p: Bits, q: Bits, g: Bits)
    requires |p| == |q| && g != []
    ensures Mul(Xor(p, q), g) == Xor(Mul(p, g), Mul(q, g))
  {
    if p != [] {
      MulXor(p[1..], q[1..], g);
      assert Xor(p, q)[1..] == Xor(p[1..], q[1..]);
    }
  }

  /** A multiple of a polynomial with leading coefficient one has degree at least that of the
      polynomial, or is zero. */
  lemma {:induction false} MultipleTooSmall(q: Bits, g: Bits, r: Bits)
    requires g != [] && g[0] && |r| == |g| - 1
    requires Mul(q, g) == Zeros(|q|) + r
    ensures q == Zeros(|q|) && r == Zeros(|r|)
  {
    if q != [] {
      var m := Mul(q, g);
      assert !m[0];
      assert m[0] == q[0];
      var t := Mul(q[1..], g);
      assert t == Zeros(|q| - 1) + r by {
        forall i | 0 <= i < |t| ensures t[i] == (Zeros(|q| - 1) + r)[i] {
          assert m[i + 1] == t[i];
        }
      }
      MultipleTooSmall(q[1..], g, r);
      assert q == [q[0]] + q[1..];
    } else {
      assert Zeros(0) + r == r;
    }
  }

  /** Division with remainder has one remainder. */
  lemma RemainderUnique(r: Bits, r': Bits, p: Bits, g: Bits)
    requires g != [] && g[0] && IsRemainder(r, p, g) && IsRemainder(r', p, g)
    ensures r == r'
  {
    hide Mul, Zeros, Xor;
    var q: Bits :| |q| == |p| - |r| && p == Xor(Mul(q, g), Zeros(|q|) + r);
    var q': Bits :| |q'| == |p| - |r'| && p == Xor(Mul(q', g), Zeros(|q'|) + r');
    var d, e := Xor(q, q'), Xor(r, r');
    MulXor(q, q', g);
    XorMove(Mul(q, g), Mul(q', g), Zeros(|q|) + r, Zeros(|q|) + r');
    XorPadded(|q|, r, r');
    MultipleTooSmall(d, g, e);
    XorZeroIffEqual(r, r');
  }

  lemma XorPadded(n: nat, r: Bits, r': Bits)
    requires |r| == |r'|
    ensures Xor(Zeros(n) + r, Zeros(n) + r') == Zeros(n) + Xor(r, r')
  {}

  lemma XorMove(x: Bits, y: Bits, u: Bits, v: Bits)
    requires |x| == |y| == |u| == |v| && Xor(x, u) == Xor(y, v)
    ensures Xor(x, y) == Xor(u, v)
  {
    forall i | 0 <= i < |x| ensures Xor(x, y)[i] == Xor(u, v)[i] {
      assert Xor(x, u)[i] == Xor(y, v)[i];
    }
  }
}

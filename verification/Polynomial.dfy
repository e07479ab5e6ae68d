/** Polynomials over GF(256) as coefficient lists, highest degree first. */
module Polynomial {
  import opened Binary
  import opened GaloisField
  import opened GaloisAlgebra

  type Poly = seq<Byte>

  /** Horner evaluation. */
  function Eval(p: Poly, x: Byte): Byte {
    if p == [] then 0 else Plus(Mul(Eval(p[..|p| - 1], x), x), p[|p| - 1])
  }

  function Zeros(n: nat): Poly {
    seq(n, _ => 0)
  }

  function Scale(p: Poly, c: Byte): Poly {
    seq(|p|, i requires 0 <= i < |p| => Mul(p[i], c))
  }

  function PlusPoly(p: Poly, q: Poly): (r: Poly)
    requires |p| == |q|
    ensures |r| == |p| && forall i :: 0 <= i < |p| ==> r[i] == Plus(p[i], q[i])
  {
    seq(|p|, i requires 0 <= i < |p| => Plus(p[i], q[i]))
  }

  /** The product of two polynomials, long multiplication by the digits of q. */
  function PolyMul(q: Poly, g: Poly): (r: Poly)
    requires |g| > 0
    ensures |r| == |q| + |g| - 1
  {
    if q == [] then Zeros(|g| - 1)
    else PlusPoly(PolyMul(q[..|q| - 1], g) + [0], Zeros(|q| - 1) + Scale(g, q[|q| - 1]))
  }

  // ----- addition laws in the form the proofs below use

  lemma PlusAssoc(a: Byte, b: Byte, c: Byte)
    ensures Plus(Plus(a, b), c) == Plus(a, Plus(b, c))
  {
    XorAssoc(a, b, c);
  }

  lemma PlusComm(a: Byte, b: Byte)
    ensures Plus(a, b) == Plus(b, a)
  {
    XorComm(a, b);
  }

  lemma PlusSwap(a: Byte, b: Byte, c: Byte, d: Byte)
    ensures Plus(Plus(a, b), Plus(c, d)) == Plus(Plus(a, c), Plus(b, d))
  {
    XorSwap(a, b, c, d);
  }

  lemma PlusSelf(a: Byte, b: Byte)
    ensures Plus(a, a) == 0
    ensures Plus(a, Plus(a, b)) == b
    ensures Plus(Plus(b, a), a) == b
  {
    XorSelf(a);
    XorCancel(a, b);
  }

  lemma PlusZero(a: Byte)
    ensures Plus(a, 0) == a && Plus(0, a) == a
  {}

  lemma PlusZeroIff(a: Byte, b: Byte)
    ensures Plus(a, b) == 0 <==> a == b
  {
    XorSelf(a);
    if a != b { XorNonzero(a, b); }
  }

  // ----- evaluation is a ring homomorphism

  lemma EvalSnoc(p: Poly, c: Byte, x: Byte)
    ensures Eval(p + [c], x) == Plus(Mul(Eval(p, x), x), c)
  {
    assert (p + [c])[..|p|] == p;
  }

  lemma {:induction false} EvalZeros(n: nat, p: Poly, x: Byte)
    ensures Eval(Zeros(n) + p, x) == Eval(p, x)
    decreases |p|, n
  {
    hide Plus, Mul;
    if p != [] {
      var init, last := p[..|p| - 1], p[|p| - 1];
      EvalZeros(n, init, x);
      assert Zeros(n) + p == (Zeros(n) + init) + [last];
      EvalSnoc(Zeros(n) + init, last, x);
    } else if n > 0 {
      assert Zeros(n) + [] == Zeros(n - 1) + [] + [0];
      EvalZeros(n - 1, [], x);
      EvalSnoc(Zeros(n - 1) + [], 0, x);
      ZeroMul(x);
      PlusZero(0);
    }
  }

  lemma {:induction false} EvalPlus(p: Poly, q: Poly, x: Byte)
    requires |p| == |q|
    ensures Eval(PlusPoly(p, q), x) == Plus(Eval(p, x), Eval(q, x))
  {
    hide Plus, Mul;
    if p == [] {
      PlusZero(0);
    } else {
      var p', q', a, b := p[..|p| - 1], q[..|q| - 1], p[|p| - 1], q[|q| - 1];
      EvalPlus(p', q', x);
      assert PlusPoly(p, q) == PlusPoly(p', q') + [Plus(a, b)];
      EvalSnoc(PlusPoly(p', q'), Plus(a, b), x);
      PlusMul(Eval(p', x), Eval(q', x), x);
      PlusSwap(Mul(Eval(p', x), x), Mul(Eval(q', x), x), a, b);
    }
  }

  lemma {:induction false} EvalScale(p: Poly, c: Byte, x: Byte)
    ensures Eval(Scale(p, c), x) == Mul(Eval(p, x), c)
  {
    hide Plus, Mul;
    if p == [] {
      ZeroMul(c);
    } else {
      var p', a := p[..|p| - 1], p[|p| - 1];
      EvalScale(p', c, x);
      assert Scale(p, c) == Scale(p', c) + [Mul(a, c)];
      EvalSnoc(Scale(p', c), Mul(a, c), x);
      var e := Eval(p', x);
      MulAssoc(e, c, x); MulComm(c, x); MulAssoc(e, x, c);
      PlusMul(Mul(e, x), a, c);
    }
  }

  lemma {:induction false} EvalMul(q: Poly, g: Poly, x: Byte)
    requires |g| > 0
    ensures Eval(PolyMul(q, g), x) == Mul(Eval(q, x), Eval(g, x))
  {
    hide Plus, Mul;
    if q == [] {
      assert Zeros(|g| - 1) == Zeros(|g| - 1) + [];
      EvalZeros(|g| - 1, [], x);
      ZeroMul(Eval(g, x));
    } else {
      var q', f := q[..|q| - 1], q[|q| - 1];
      EvalMul(q', g, x);
      EvalPlus(PolyMul(q', g) + [0], Zeros(|q'|) + Scale(g, f), x);
      EvalSnoc(PolyMul(q', g), 0, x);
      EvalZeros(|q'|, Scale(g, f), x);
      EvalScale(g, f, x);
      var e, v := Eval(q', x), Eval(g, x);
      calc {
        Eval(PolyMul(q, g), x);
        Plus(Plus(Mul(Mul(e, v), x), 0), Mul(v, f));
        { PlusZero(Mul(Mul(e, v), x)); }
        Plus(Mul(Mul(e, v), x), Mul(v, f));
        { MulAssoc(e, v, x); MulComm(v, x); MulAssoc(e, x, v); MulComm(v, f); }
        Plus(Mul(Mul(e, x), v), Mul(f, v));
        { PlusMul(Mul(e, x), f, v); }
        Mul(Plus(Mul(e, x), f), v);
      }
    }
  }
}

module Binary {

  function Pow2(n: nat): (p: nat)
    ensures p > 0
  {
    if n == 0 then 1 else 2 * Pow2(n - 1)
  }

  predicate Bit(a: nat, k: nat)
    decreases k
  {
    if k == 0 then a % 2 == 1 else Bit(a / 2, k - 1)
  }

  lemma {:induction false} BitIs(a: nat, k: nat)
    ensures Bit(a, k) <==> (a / Pow2(k)) % 2 == 1
    decreases k
  {
    if k > 0 {
      BitIs(a / 2, k - 1);
      DivTwice(a, Pow2(k - 1));
    }
  }

  lemma DivTwice(a: nat, m: nat)
    requires m > 0
    ensures a / 2 / m == a / (2 * m)
  {
    var q, r := a / (2 * m), a % (2 * m);
    assert a == 2 * m * q + r;
    assert a / 2 == m * q + r / 2;
    assert r / 2 < m;
    QuotientIs(a / 2, m, q, r / 2);
  }

  lemma QuotientIs(a: nat, m: nat, q: nat, r: nat)
    requires a == m * q + r && r < m
    ensures a / m == q
  {
    assert m * (a / m) + a % m == a;
    Between(m, a / m, q, a % m, r);
  }

  lemma Between(m: nat, p: nat, q: nat, s: nat, r: nat)
    requires m * p + s == m * q + r && s < m && r < m
    ensures p == q
  {
    Gap(m, p, q);
    Gap(m, q, p);
  }

  lemma {:induction false} Gap(m: nat, p: nat, q: nat)
    ensures p < q ==> m * p + m <= m * q
    decreases q
  {
    if p + 1 < q {
      Gap(m, p, q - 1);
      assert m * (q - 1) == m * q - m;
    } else if p + 1 == q {
      assert m * (p + 1) == m * p + m;
    }
  }

  function Xor(a: nat, b: nat): nat {
    if a == 0 then b
    else if b == 0 then a
    else (if a % 2 == b % 2 then 0 else 1) + 2 * Xor(a / 2, b / 2)
  }

  lemma XorHalves(a: nat, b: nat)
    ensures Xor(a, b) / 2 == Xor(a / 2, b / 2)
    ensures Xor(a, b) % 2 == if a % 2 == b % 2 then 0 else 1
  {}

  lemma XorDouble(a: nat, b: nat)
    ensures Xor(2 * a, 2 * b) == 2 * Xor(a, b)
  {
    XorHalves(2 * a, 2 * b);
  }

  lemma {:induction false} XorComm(a: nat, b: nat)
    ensures Xor(a, b) == Xor(b, a)
  {
    if a != 0 && b != 0 {
      XorComm(a / 2, b / 2);
    }
  }

  lemma {:induction false} XorAssoc(a: nat, b: nat, c: nat)
    ensures Xor(Xor(a, b), c) == Xor(a, Xor(b, c))
  {
    if a != 0 && b != 0 && c != 0 {
      var l, r := Xor(Xor(a, b), c), Xor(a, Xor(b, c));
      assert l / 2 == r / 2 by {
        XorHalves(a, b); XorHalves(Xor(a, b), c);
        XorHalves(b, c); XorHalves(a, Xor(b, c));
        XorAssoc(a / 2, b / 2, c / 2);
      }
      assert l % 2 == r % 2 by {
        XorHalves(a, b); XorHalves(Xor(a, b), c);
        XorHalves(b, c); XorHalves(a, Xor(b, c));
      }
    }
  }

  lemma {:induction false} XorSelf(a: nat)
    ensures Xor(a, a) == 0
  {
    if a != 0 {
      XorSelf(a / 2);
    }
  }

  lemma {:induction false} XorBound(a: nat, b: nat, n: nat)
    requires a < Pow2(n) && b < Pow2(n)
    ensures Xor(a, b) < Pow2(n)
  {
    if n > 0 && a != 0 && b != 0 {
      XorBound(a / 2, b / 2, n - 1);
    }
  }

  lemma {:induction false} BitXor(a: nat, b: nat, k: nat)
    ensures Bit(Xor(a, b), k) == (Bit(a, k) != Bit(b, k))
    decreases k
  {
    XorHalves(a, b);
    if k > 0 {
      BitXor(a / 2, b / 2, k - 1);
    }
  }

  function Shl(a: nat, n: nat): nat
    decreases n
  {
    if n == 0 then a else 2 * Shl(a, n - 1)
  }

  lemma {:induction false} ShlXor(a: nat, b: nat, n: nat)
    ensures Shl(Xor(a, b), n) == Xor(Shl(a, n), Shl(b, n))
  {
    if n > 0 {
      ShlXor(a, b, n - 1);
      XorDouble(Shl(a, n - 1), Shl(b, n - 1));
    }
  }

  lemma ShlPowers(a: nat)
    ensures Shl(a, 1) == 2 * a && Shl(a, 2) == 4 * a && Shl(a, 3) == 8 * a && Shl(a, 4) == 16 * a
    ensures Shl(a, 5) == 32 * a && Shl(a, 6) == 64 * a && Shl(a, 7) == 128 * a && Shl(a, 8) == 256 * a
  {}

  lemma {:induction false} XorLow(a: nat, r: nat, n: nat)
    requires r < Pow2(n)
    ensures Xor(Shl(a, n), r) == Shl(a, n) + r
  {
    if n > 0 {
      XorLow(a, r / 2, n - 1);
      XorHalves(Shl(a, n), r);
    }
  }

  function Shr(a: nat, n: nat): nat
    decreases n
  {
    if n == 0 then a else Shr(a / 2, n - 1)
  }

  lemma {:induction false} ShrJoin(a: nat, r: nat, n: nat)
    requires r < Pow2(n)
    ensures Shr(Shl(a, n) + r, n) == a
  {
    if n > 0 {
      ShrJoin(a, r / 2, n - 1);
    }
  }

  /** Bitwise or. */
  function Or(a: nat, b: nat): nat {
    if a == 0 then b
    else if b == 0 then a
    else (if a % 2 == 0 && b % 2 == 0 then 0 else 1) + 2 * Or(a / 2, b / 2)
  }

  lemma {:induction false} OrLow(a: nat, r: nat, n: nat)
    requires r < Pow2(n)
    ensures Or(Shl(a, n), r) == Shl(a, n) + r == Xor(Shl(a, n), r)
    ensures Shr(Or(Shl(a, n), r), n) == a
  {
    XorLow(a, r, n);
    OrSum(a, r, n);
    ShrJoin(a, r, n);
  }

  lemma {:induction false} OrSum(a: nat, r: nat, n: nat)
    requires r < Pow2(n)
    ensures Or(Shl(a, n), r) == Shl(a, n) + r
  {
    if n > 0 {
      OrSum(a, r / 2, n - 1);
    }
  }

  lemma {:induction false} TopBit(a: nat, n: nat)
    requires a < Pow2(n + 1)
    ensures Bit(a, n) == (a >= Pow2(n))
    decreases n
  {
    if n > 0 {
      TopBit(a / 2, n - 1);
    }
  }

  lemma {:induction false} ShlRange(g: nat, n: nat, i: nat)
    requires Pow2(n) <= g < Pow2(n + 1)
    ensures Pow2(n + i) <= Shl(g, i) < Pow2(n + i + 1)
  {
    if i > 0 {
      ShlRange(g, n, i - 1);
    }
  }

  lemma {:induction false} ShlBound(a: nat, w: nat, n: nat)
    requires a < Pow2(w)
    ensures Shl(a, n) < Pow2(w + n)
  {
    if n > 0 {
      ShlBound(a, w, n - 1);
    }
  }

  /** Equal leading bits cancel. */
  lemma {:induction false} XorTop(x: nat, y: nat, m: nat)
    requires Pow2(m) <= x < Pow2(m + 1) && Pow2(m) <= y < Pow2(m + 1)
    ensures Xor(x, y) < Pow2(m)
  {
    XorHalves(x, y);
    if m > 0 {
      XorTop(x / 2, y / 2, m - 1);
    }
  }

  /** A leading bit nothing cancels stays. */
  lemma XorKeepsTop(x: nat, y: nat, m: nat)
    requires y < Pow2(m) <= x
    ensures Xor(y, x) >= Pow2(m)
  {
    XorCancel(y, x);
    if Xor(y, x) < Pow2(m) {
      XorBound(y, Xor(y, x), m);
    }
  }

  lemma XorCancel(a: nat, b: nat)
    ensures Xor(a, Xor(a, b)) == b && Xor(Xor(b, a), a) == b
  {
    XorAssoc(a, a, b);
    XorAssoc(b, a, a);
    XorSelf(a);
  }

  lemma XorSwap(a: nat, b: nat, c: nat, d: nat)
    ensures Xor(Xor(a, b), Xor(c, d)) == Xor(Xor(a, c), Xor(b, d))
  {
    hide Xor;
    XorAssoc(a, b, Xor(c, d));
    XorAssoc(b, c, d);
    XorComm(b, c);
    XorAssoc(c, b, d);
    XorAssoc(a, c, Xor(b, d));
  }

  function Pick(a: nat, b: nat): nat {
    if a % 2 == 1 then b else 0
  }

  // Carry-less product
  function Times(a: nat, b: nat): nat {
    if a == 0 then 0
    else Xor(Pick(a, b), 2 * Times(a / 2, b))
  }

  lemma {:induction false} TimesDouble(a: nat, b: nat)
    ensures Times(a, 2 * b) == 2 * Times(a, b)
  {
    if a != 0 {
      TimesDouble(a / 2, b);
      XorDouble(Pick(a, b), 2 * Times(a / 2, b));
    }
  }
  lemma {:induction false} TimesXor(a: nat, b: nat, c: nat)
    ensures Times(a, Xor(b, c)) == Xor(Times(a, b), Times(a, c))
  {
    if a != 0 {
      TimesXor(a / 2, b, c);
      XorDouble(Times(a / 2, b), Times(a / 2, c));
      XorSwap(Pick(a, b), 2 * Times(a / 2, b), Pick(a, c), 2 * Times(a / 2, c));
    }
  }
  lemma PickXor(a: nat, b: nat, c: nat)
    ensures Pick(Xor(a, b), c) == Xor(Pick(a, c), Pick(b, c))
  {
    XorHalves(a, b);
    XorSelf(c);
  }

  lemma {:induction false} XorTimes(a: nat, b: nat, c: nat)
    ensures Times(Xor(a, b), c) == Xor(Times(a, c), Times(b, c))
  {
    if a != 0 && b != 0 {
      var p, q := 2 * Times(a / 2, c), 2 * Times(b / 2, c);
      assert Times(Xor(a, b), c) == Xor(Pick(Xor(a, b), c), Xor(p, q)) by {
        XorHalves(a, b);
        XorTimes(a / 2, b / 2, c);
        XorDouble(Times(a / 2, c), Times(b / 2, c));
      }
      PickXor(a, b, c);
      XorSwap(Pick(a, c), p, Pick(b, c), q);
    }
  }

  lemma {:induction false} TimesZero(a: nat)
    ensures Times(a, 0) == 0
  {
    if a != 0 {
      TimesZero(a / 2);
    }
  }

  /** A multiple of a divisor of degree n has degree at least n. */
  lemma {:induction false} TimesLarge(q: nat, g: nat, n: nat)
    requires q > 0 && Pow2(n) <= g < Pow2(n + 1)
    ensures Times(q, g) >= Pow2(n) && (q > 1 ==> Times(q, g) >= Pow2(n + 1))
  {
    if q > 1 {
      TimesLarge(q / 2, g, n);
      if q % 2 == 1 {
        XorKeepsTop(2 * Times(q / 2, g), g, n + 1);
      }
    }
  }

  lemma {:induction false} TimesShl(i: nat, g: nat)
    ensures Times(Pow2(i), g) == Shl(g, i)
  {
    if i > 0 {
      TimesShl(i - 1, g);
    }
  }
}

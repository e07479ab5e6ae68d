/**
  Alpha generates every non-zero byte, so each has a discrete logarithm below
  255, and the 512-entry antilog and 256-entry log tables multiply correctly.
*/
module GaloisTables {
  import opened Binary
  import opened GaloisField

  // ----- Xtime in plain arithmetic, to evaluate a few concrete powers

  lemma XorBit(a: nat, b: nat, i: nat, j: nat)
    requires i < 2 && j < 2
    ensures Xor(2 * a + i, 2 * b + j) == 2 * Xor(a, b) + (if i == j then 0 else 1)
  {
    hide Xor;
    XorHalves(2 * a + i, 2 * b + j);
  }

  /** Xtime for bytes without bit operations: 0x1D has bits 0, 2, 3 and 4, and the doubled byte is even. */
  function Step(a: nat): nat {
    if a < 128 then 2 * a
    else var u := 2 * a - 256; u + 29 - 2 * (u % 32) + 2 * (u % 4)
  }

  /** Exclusive or with n ones complements n bits. */
  lemma XorOnes(m: nat, n: nat)
    requires m < Pow2(n)
    ensures Xor(m, Pow2(n) - 1) == Pow2(n) - 1 - m
  {
    if n > 0 {
      XorOnes(m / 2, n - 1);
      XorHalves(m, Pow2(n) - 1);
    }
  }

  /** Exclusive or works on high and low parts separately. */
  lemma XorJoin(a: nat, b: nat, i: nat, j: nat, n: nat)
    requires i < Pow2(n) && j < Pow2(n)
    ensures Xor(Shl(a, n) + i, Shl(b, n) + j) == Shl(Xor(a, b), n) + Xor(i, j)
  {
    hide Xor, Shl, Pow2;
    XorLow(a, i, n);
    XorLow(b, j, n);
    XorSwap(Shl(a, n), i, Shl(b, n), j);
    ShlXor(a, b, n);
    XorBound(i, j, n);
    XorLow(Xor(a, b), Xor(i, j), n);
  }

  lemma TwoPlaces(a: nat)
    ensures Shl(a, 2) == 4 * a && Pow2(2) == 4
  {}

  lemma JoinBase(m: nat, c: nat, i: nat, j: nat)
    requires i < 4 && j < 4
    ensures Xor(4 * m + i, 4 * c + j) == 4 * Xor(m, c) + Xor(i, j)
  {
    hide *;
    TwoPlaces(m);
    TwoPlaces(c);
    TwoPlaces(Xor(m, c));
    XorJoin(m, c, i, j, 2);
  }

  lemma JoinHigh(h: nat, l: nat, c: nat)
    requires l < 32 && c < 32
    ensures Xor(32 * h + l, c) == 32 * h + Xor(l, c)
  {
    assert Pow2(5) == 32;
    ShlPowers(h);
    XorJoin(h, 0, l, c, 5);
  }

  lemma Ones3(m: nat)
    requires m < 8
    ensures Xor(m, 7) == 7 - m
  {
    assert Pow2(3) == 8;
    XorOnes(m, 3);
  }

  /** The overflow constant added to a value cut at bits 2 and 5. */
  lemma StepLow(h: nat, m: nat, i: nat)
    requires m < 8 && (i == 0 || i == 2)
    ensures Xor(32 * h + 4 * m + i, 0x1D) == 32 * h + 29 - 4 * m + i
  {
    assert Xor(0, 1) == 1 && Xor(2, 1) == 3;
    hide Xor;
    JoinHigh(h, 4 * m + i, 29);
    JoinBase(m, 7, i, 1);
    Ones3(m);
  }

  lemma High(u: nat)
    requires u < 256
    ensures Xor(256 + u, PRIMITIVE) == Xor(u, 0x1D)
  {
    assert Pow2(8) == 256;
    XorJoin(1, 1, u, 0x1D, 8);
    ShlPowers(1);
  }

  /** An even number cut at bits 2 and 5. */
  lemma Decompose(u: nat)
    requires u % 2 == 0
    ensures var h, m, i := u / 32, (u / 4) % 8, u % 4;
      u == 32 * h + 4 * m + i && u % 32 == 4 * m + i && (i == 0 || i == 2)
  {}

  /** The two forms of multiplication by x agree. */
  lemma XtimeStep(a: Byte)
    ensures Xtime(a) == Step(a)
  {
    assert Pow2(8) == 256 && Pow2(9) == 512;
    TopBit(2 * a, 8);
    if 2 * a >= 256 {
      var u := 2 * a - 256;
      High(u);
      Decompose(u);
      StepLow(u / 32, (u / 4) % 8, u % 4);
    }
  }

  function Walk(k: nat): nat {
    if k == 0 then 1 else Step(Walk(k - 1))
  }

  lemma {:induction false} ExpWalk(k: nat)
    ensures Exp(k) == Walk(k)
  {
    if k > 0 {
      ExpWalk(k - 1);
      XtimeStep(Exp(k - 1));
    }
  }

  lemma Next(k: nat, a: nat, b: nat)
    requires Walk(k) == a && Step(a) == b
    ensures Walk(k + 1) == b
  {}

  lemma Walk13()
    ensures Walk(1) == 2 && Walk(3) == 8 && Walk(5) == 0x20 && Walk(7) == 0x80
    ensures Walk(10) == 0x74 && Walk(11) == 0xE8 && Walk(12) == 0xCD && Walk(13) == 0x87
  {
    assert Walk(0) == 1;
    hide Walk;
    Next(0, 1, 2); Next(1, 2, 4); Next(2, 4, 8); Next(3, 8, 16); Next(4, 16, 32);
    Next(5, 32, 64); Next(6, 64, 128); Next(7, 128, 29); Next(8, 29, 58); Next(9, 58, 116);
    Next(10, 116, 232); Next(11, 232, 205); Next(12, 205, 135);
  }

  lemma Walk25()
    ensures Walk(15) == 0x26 && Walk(25) == 3
  {
    hide Walk;
    Walk13();
    Next(13, 135, 19); Next(14, 19, 38); Next(15, 38, 76); Next(16, 76, 152); Next(17, 152, 45); Next(18, 45, 90);
    Next(19, 90, 180); Next(20, 180, 117); Next(21, 117, 234); Next(22, 234, 201); Next(23, 201, 143); Next(24, 143, 3);
  }

  lemma Times3(b: Byte)
    ensures Mul(3, b) == Plus(b, Xtime(b))
  {
    assert Mul(1, Xtime(b)) == Xtime(b);
  }

  lemma Exp25(m: nat)
    ensures Exp(m + 25) == Plus(Exp(m), Exp(m + 1))
  {
    Walk13();
    Walk25();
    ExpWalk(25);
    ExpAdd(25, m);
    Times3(Exp(m));
  }

  lemma Collapse(a: nat, b: nat, c: nat)
    ensures Xor(Xor(a, b), Xor(b, c)) == Xor(a, c)
  {
    XorAssoc(a, b, Xor(b, c));
    XorCancel(b, c);
  }

  lemma Exp50(m: nat)
    ensures Exp(m + 50) == Plus(Exp(m), Exp(m + 2))
  {
    Exp25(m);
    Exp25(m + 1);
    Exp25(m + 25);
    Collapse(Exp(m), Exp(m + 1), Exp(m + 2));
  }

  lemma Exp100(m: nat)
    ensures Exp(m + 100) == Plus(Exp(m), Exp(m + 4))
  {
    Exp50(m);
    Exp50(m + 2);
    Exp50(m + 50);
    Collapse(Exp(m), Exp(m + 2), Exp(m + 4));
  }

  lemma Exp200(m: nat)
    ensures Exp(m + 200) == Plus(Exp(m), Exp(m + 8))
  {
    Exp100(m);
    Exp100(m + 4);
    Exp100(m + 100);
    Collapse(Exp(m), Exp(m + 4), Exp(m + 8));
  }

  lemma Xor2080()
    ensures Xor(0x20, 0x80) == 0xA0
  {
    XorBit(0, 0, 0, 1); XorBit(0, 1, 0, 0); XorBit(0, 2, 1, 0); XorBit(1, 4, 0, 0);
    XorBit(2, 8, 0, 0); XorBit(4, 16, 0, 0); XorBit(8, 32, 0, 0); XorBit(16, 64, 0, 0);
  }

  lemma Xor8726()
    ensures Xor(0x87, 0x26) == 0xA1
  {
    XorBit(0, 0, 1, 0); XorBit(1, 0, 0, 0); XorBit(2, 0, 0, 1); XorBit(4, 1, 0, 0);
    XorBit(8, 2, 0, 0); XorBit(16, 4, 1, 1); XorBit(33, 9, 1, 1); XorBit(67, 19, 1, 0);
  }

  lemma XorA0A1()
    ensures Xor(0xA0, 0xA1) == 0x01
  {
    XorBit(0, 0, 1, 1); XorBit(1, 1, 0, 0); XorBit(2, 2, 1, 1); XorBit(5, 5, 0, 0);
    XorBit(10, 10, 0, 0); XorBit(20, 20, 0, 0); XorBit(40, 40, 0, 0); XorBit(80, 80, 0, 1);
  }

  lemma Xor74E8()
    ensures Xor(0x74, 0xE8) == 0x9C
  {
    XorBit(0, 0, 0, 1); XorBit(0, 1, 1, 1); XorBit(1, 3, 1, 1); XorBit(3, 7, 1, 0);
    XorBit(7, 14, 0, 1); XorBit(14, 29, 1, 0); XorBit(29, 58, 0, 0); XorBit(58, 116, 0, 0);
  }

  lemma XorCD87()
    ensures Xor(0xCD, 0x87) == 0x4A
  {
    XorBit(0, 0, 1, 1); XorBit(1, 1, 1, 0); XorBit(3, 2, 0, 0); XorBit(6, 4, 0, 0);
    XorBit(12, 8, 1, 0); XorBit(25, 16, 1, 1); XorBit(51, 33, 0, 1); XorBit(102, 67, 1, 1);
  }

  lemma Xor9C4A()
    ensures Xor(0x9C, 0x4A) == 0xD6
  {
    XorBit(0, 0, 1, 0); XorBit(1, 0, 0, 1); XorBit(2, 1, 0, 0); XorBit(4, 2, 1, 0);
    XorBit(9, 4, 1, 1); XorBit(19, 9, 1, 0); XorBit(39, 18, 0, 1); XorBit(78, 37, 0, 0);
  }

  lemma Exp63()
    ensures Exp(63) == 0xA1
  {
    Walk13();
    Walk25(); ExpWalk(13); ExpWalk(15);
    Exp50(13); Xor8726();
  }

  lemma Exp55()
    ensures Exp(55) == 0xA0
  {
    Walk13();
    Walk25(); ExpWalk(5); ExpWalk(7);
    Exp50(5); Xor2080();
  }

  lemma Exp255()
    ensures Exp(255) == 1
  {
    Exp63(); Exp55();
    Exp200(55); XorA0A1();
  }

  lemma Exp51()
    ensures Exp(51) == 0x0A
  {
    Walk13();
    Walk25(); ExpWalk(1); ExpWalk(3);
    Exp50(1);
  }

  lemma Exp35()
    ensures Exp(35) == 0x9C
  {
    Walk13();
    Walk25(); ExpWalk(10); ExpWalk(11);
    Exp25(10); Xor74E8();
  }

  lemma Exp37()
    ensures Exp(37) == 0x4A
  {
    Walk13();
    Walk25(); ExpWalk(12); ExpWalk(13);
    Exp25(12); XorCD87();
  }

  lemma Exp85()
    ensures Exp(85) == 0xD6
  {
    Exp35(); Exp37();
    Exp50(35); Xor9C4A();
  }

  lemma Exp15()
    ensures Exp(15) == 0x26
  {
    Walk13();
    Walk25(); ExpWalk(15);
  }

  // ----- the order of alpha is 255

  lemma MulByOne(b: Byte)
    ensures Mul(1, b) == b
  {}

  lemma ExpSkip(d: nat, m: nat)
    requires Exp(d) == 1
    ensures Exp(d + m) == Exp(m)
  {
    hide *;
    ExpAdd(d, m);
    MulByOne(Exp(m));
  }

  lemma Less(d: nat, q: nat, m: nat)
    requires m == d * q && q > 0
    ensures m >= d && m - d == d * (q - 1)
  {}

  lemma {:induction false} ExpSkips(d: nat, q: nat, m: nat, r: nat)
    requires Exp(d) == 1 && m == d * q
    ensures Exp(m + r) == Exp(r)
    decreases q
  {
    hide *;
    if q > 0 {
      Less(d, q, m);
      ExpSkips(d, q - 1, m - d, r);
      ExpSkip(d, m - d + r);
    }
  }

  lemma SmallFactor(s: nat, t: nat)
    requires s < 16 && s * t == 255
    ensures s == 1 || s == 3 || s == 5 || s == 15
  {
    assert t == 255 / s;
  }

  lemma LargeProduct(s: nat, t: nat)
    requires s >= 16 && t >= 16
    ensures s * t >= 256
  {
    assert s * t >= 16 * t;
  }

  lemma DivisorOf255(d: nat, q: nat)
    requires d * q == 255 && d < 255
    ensures d * (q / 3) == 85 || d * (q / 5) == 51 || d * (q / 17) == 15
  {
    if d >= 16 && q >= 16 {
      LargeProduct(d, q);
    } else if d < 16 {
      SmallFactor(d, q);
      assert d == 1 ==> q == 255;
      assert d == 3 ==> q == 85;
      assert d == 5 ==> q == 51;
      assert d == 15 ==> q == 17;
    } else {
      SmallFactor(q, d);
      assert q == 3 ==> d == 85;
      assert q == 5 ==> d == 51;
      assert q == 15 ==> d == 17;
    }
  }

  lemma ProperDivisor(d: nat, q: nat)
    requires d * q == 255 && d < 255
    ensures Exp(d) != 1
  {
    DivisorOf255(d, q);
    if Exp(d) == 1 {
      if d * (q / 3) == 85 {
        ExpSkips(d, q / 3, 85, 0);
        Exp85();
      } else if d * (q / 5) == 51 {
        ExpSkips(d, q / 5, 51, 0);
        Exp51();
      } else {
        ExpSkips(d, q / 17, 15, 0);
        Exp15();
      }
    }
  }

  /** No smaller positive power of alpha is one. */
  lemma {:induction false} NoShorterPeriod(d: nat)
    requires 0 < d < 255
    ensures Exp(d) != 1
    decreases d
  {
    hide *;
    if Exp(d) == 1 {
      var q, r := 255 / d, 255 % d;
      var m := d * q;
      assert m + r == 255;
      Exp255();
      ExpSkips(d, q, m, r);
      if r > 0 {
        NoShorterPeriod(r);
      } else {
        ProperDivisor(d, q);
      }
    }
  }

}

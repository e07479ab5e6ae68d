/**
  The field GF(256) of the Reed-Solomon code: bytes under exclusive or and
  multiplication modulo x^8 + x^4 + x^3 + x^2 + 1 (0x11D), and the two lookup
  tables that turn a product into an addition of exponents.
*/
module GaloisField {
  import opened Binary

  const PRIMITIVE: nat := 0x11D

  type Byte = x: int | 0 <= x < 256

  lemma ByteClosed(a: Byte, b: Byte)
    ensures Xor(a, b) < 256
  {
    assert Pow2(8) == 256;
    XorBound(a, b, 8);
  }

  /** Addition of the field. */
  function Plus(a: Byte, b: Byte): Byte {
    ByteClosed(a, b);
    Xor(a, b)
  }

  function Overflow(d: nat): nat {
    if Bit(d, 8) then PRIMITIVE else 0
  }

  lemma OverflowXor(x: nat, y: nat)
    ensures Overflow(Xor(x, y)) == Xor(Overflow(x), Overflow(y))
  {
    BitXor(x, y, 8);
    XorSelf(PRIMITIVE);
  }

  lemma DoubleFits(a: Byte)
    ensures Xor(2 * a, Overflow(2 * a)) < 256
  {
    assert Pow2(8) == 256 && Pow2(9) == 512;
    TopBit(2 * a, 8);
    if 2 * a >= 256 {
      XorLow(1, 2 * a - 256, 8);
      XorLow(1, 0x1D, 8);
      XorSwap(Shl(1, 8), 2 * a - 256, Shl(1, 8), 0x1D);
      XorSelf(Shl(1, 8));
      XorBound(2 * a - 256, 0x1D, 8);
    }
  }

  /** Multiplication by x: one turn of the table-filling loop. */
  function Xtime(a: Byte): Byte {
    DoubleFits(a);
    Xor(2 * a, Overflow(2 * a))
  }

  /** The powers of x, the generator written alpha in ISO/IEC 18004. */
  function Exp(k: nat): Byte {
    if k == 0 then 1 else Xtime(Exp(k - 1))
  }

  /** The field product, by shifting and adding: the sum of b * x^i over the bits i of a. */
  function Mul(a: nat, b: Byte): Byte
    decreases a
  {
    if a == 0 then 0 else Plus(Pick(a, b), Mul(a / 2, Xtime(b)))
  }

  // ----- the product is linear and commutes with multiplication by x

  lemma XtimePlus(a: Byte, b: Byte)
    ensures Xtime(Plus(a, b)) == Plus(Xtime(a), Xtime(b))
  {
    XorDouble(a, b);
    OverflowXor(2 * a, 2 * b);
    XorSwap(2 * a, 2 * b, Overflow(2 * a), Overflow(2 * b));
  }

  lemma {:induction false} MulXtime(a: nat, b: Byte)
    ensures Mul(a, Xtime(b)) == Xtime(Mul(a, b))
    decreases a
  {
    assert Xtime(0) == 0;
    if a != 0 {
      MulXtime(a / 2, Xtime(b));
      XtimePlus(Pick(a, b), Mul(a / 2, Xtime(b)));
    }
  }

  lemma {:induction false} MulOne(a: Byte)
    ensures Mul(a, 1) == a
    decreases a
  {
    assert Xtime(1) == 2;
    if a != 0 {
      var h: Byte := a / 2;
      MulOne(h);
      MulXtime(h, 1);
      assert Pow2(8) == 256;
      TopBit(2 * h, 8);
      XorLow(h, a % 2, 1);
      assert Shl(h, 1) == 2 * h;
      XorComm(Pick(a, 1), 2 * h);
    }
  }

  lemma {:induction false} MulPlus(a: nat, b: Byte, c: Byte)
    ensures Mul(a, Plus(b, c)) == Plus(Mul(a, b), Mul(a, c))
    decreases a
  {
    if a != 0 {
      XtimePlus(b, c);
      MulPlus(a / 2, Xtime(b), Xtime(c));
      XorSwap(Pick(a, b), Mul(a / 2, Xtime(b)), Pick(a, c), Mul(a / 2, Xtime(c)));
    }
  }

  lemma {:induction false} MulZero(a: nat)
    ensures Mul(a, 0) == 0
    decreases a
  {
    if a != 0 {
      assert Xtime(0) == 0;
      MulZero(a / 2);
    }
  }

  function XtimeN(a: Byte, j: nat): Byte {
    if j == 0 then a else Xtime(XtimeN(a, j - 1))
  }

  lemma {:induction false} MulExp(a: Byte, j: nat)
    ensures Mul(a, Exp(j)) == XtimeN(a, j)
  {
    hide Mul, Xtime;
    if j == 0 {
      MulOne(a);
    } else {
      MulExp(a, j - 1);
      MulXtime(a, Exp(j - 1));
    }
  }

  lemma {:induction false} XtimeNExp(i: nat, j: nat)
    ensures XtimeN(Exp(i), j) == Exp(i + j)
  {
    hide Xtime;
    if j > 0 {
      XtimeNExp(i, j - 1);
    }
  }

  /** Exponents add: the law the log and antilog tables rest on. */
  lemma ExpAdd(i: nat, j: nat)
    ensures Mul(Exp(i), Exp(j)) == Exp(i + j)
  {
    MulExp(Exp(i), j);
    XtimeNExp(i, j);
  }

  /** Shift-and-add is the carry-less product reduced modulo 0x11D: the two differ by a multiple of 0x11D. */
  lemma {:induction false} MulReduces(a: nat, b: Byte) returns (q: nat)
    ensures Xor(Times(a, b), Mul(a, b)) == Times(q, 0x11D)
    decreases a
  {
    if a == 0 {
      q := 0;
    } else {
      var q' := MulReduces(a / 2, Xtime(b));
      var carry := Overflow(2 * b);
      // 2b = x * b + carry
      assert Xor(Xtime(b), carry) == 2 * b by { XorCancel(carry, 2 * b); }
      TimesXor(a / 2, Xtime(b), carry);
      TimesDouble(a / 2, b);
      var low, high := Times(a / 2, Xtime(b)), Times(a / 2, carry);
      assert 2 * Times(a / 2, b) == Xor(low, high);
      var rest := Mul(a / 2, Xtime(b));
      calc {
        Xor(Times(a, b), Mul(a, b));
        Xor(Xor(Pick(a, b), Xor(low, high)), Xor(Pick(a, b), rest));
        { XorSwap(Pick(a, b), Xor(low, high), Pick(a, b), rest); XorSelf(Pick(a, b)); }
        Xor(Xor(low, high), rest);
        { XorAssoc(low, high, rest); XorComm(high, rest); XorAssoc(low, rest, high); }
        Xor(Xor(low, rest), high);
        Xor(Times(q', PRIMITIVE), high);
      }
      if carry == 0 {
        TimesZero(a / 2);
        q := q';
      } else {
        XorTimes(q', a / 2, PRIMITIVE);
        q := Xor(q', a / 2);
      }
    }
  }
}

/** Field laws of the byte product, by way of discrete logarithms, and the lookup tables. */
module GaloisAlgebra {
  import opened Wrappers
  import opened Binary
  import opened GaloisField
  import opened GaloisTables

  lemma XorNonzero(x: nat, y: nat)
    requires x != y
    ensures Xor(x, y) != 0
  {
    XorCancel(x, y);
  }

  lemma XtimeNonzero(a: Byte)
    requires a != 0
    ensures Xtime(a) != 0
  {
    XorNonzero(2 * a, Overflow(2 * a));
  }

  lemma {:induction false} ExpNonzero(k: nat)
    ensures Exp(k) != 0
  {
    if k > 0 {
      ExpNonzero(k - 1);
      XtimeNonzero(Exp(k - 1));
    }
  }

  lemma ExpPeriod(k: nat)
    ensures Exp(k + 255) == Exp(k)
  {
    Exp255();
    ExpSkip(255, k);
  }

  lemma ExpInjective(i: nat, j: nat)
    requires i < j < 255
    ensures Exp(i) != Exp(j)
  {
    hide *;
    if Exp(i) == Exp(j) {
      ExpAdd(255 - i, i);
      ExpAdd(255 - i, j);
      Exp255();
      ExpPeriod(j - i);
      NoShorterPeriod(j - i);
    }
  }

  // ----- every non-zero byte is a power of alpha: 255 distinct values among 255 candidates

  ghost function Powers(n: nat): set<nat> {
    if n == 0 then {} else Powers(n - 1) + {Exp(n - 1)}
  }

  lemma {:induction false} PowersMember(n: nat, p: nat)
    requires p in Powers(n)
    ensures exists k: nat :: k < n && Exp(k) == p
  {
    if p == Exp(n - 1) {
    } else {
      PowersMember(n - 1, p);
    }
  }

  lemma {:induction false} PowersCount(n: nat)
    requires n <= 255
    ensures |Powers(n)| == n
  {
    if n > 0 {
      PowersCount(n - 1);
      if Exp(n - 1) in Powers(n - 1) {
        PowersMember(n - 1, Exp(n - 1));
        var k: nat :| k < n - 1 && Exp(k) == Exp(n - 1);
        ExpInjective(k, n - 1);
      }
    }
  }

  ghost function UpTo(n: nat): set<nat> {
    if n == 0 then {} else UpTo(n - 1) + {n}
  }

  lemma {:induction false} UpToMember(n: nat)
    ensures forall b: nat :: b in UpTo(n) <==> 0 < b <= n
    ensures |UpTo(n)| == n
  {
    if n > 0 {
      UpToMember(n - 1);
    }
  }

  lemma HasLog(a: Byte)
    requires a != 0
    ensures exists k: nat :: k < 255 && Exp(k) == a
  {
    hide *;
    PowersCount(255);
    UpToMember(255);
    forall p | p in Powers(255) ensures p in UpTo(255) {
      PowersMember(255, p);
      var k: nat :| k < 255 && Exp(k) == p;
      ExpNonzero(k);
    }
    SubsetOfEqualSize(Powers(255), UpTo(255));
    PowersMember(255, a);
  }

  /** The discrete logarithm. */
  ghost function Log(a: Byte): (k: nat)
    requires a != 0
    ensures k < 255 && Exp(k) == a
  {
    HasLog(a);
    var k: nat :| k < 255 && Exp(k) == a;
    k
  }

  lemma LogUnique(k: nat)
    requires k < 255
    ensures Exp(k) != 0 && Log(Exp(k)) == k
  {
    ExpNonzero(k);
    var l := Log(Exp(k));
    if l < k { ExpInjective(l, k); }
    if k < l { ExpInjective(k, l); }
  }

  // ----- field laws

  lemma MulByLogs(a: Byte, b: Byte)
    requires a != 0 && b != 0
    ensures Mul(a, b) == Exp(Log(a) + Log(b))
  {
    ExpAdd(Log(a), Log(b));
  }

  lemma MulComm(a: Byte, b: Byte)
    ensures Mul(a, b) == Mul(b, a)
  {
    hide *;
    MulZero(a); MulZero(b); ZeroMul(a); ZeroMul(b);
    if a != 0 && b != 0 {
      MulByLogs(a, b);
      MulByLogs(b, a);
      assert Log(a) + Log(b) == Log(b) + Log(a);
    }
  }

  lemma ZeroMul(b: Byte)
    ensures Mul(0, b) == 0
  {}

  lemma MulAssoc(a: Byte, b: Byte, c: Byte)
    ensures Mul(Mul(a, b), c) == Mul(a, Mul(b, c))
  {
    hide *;
    if a == 0 {
      ZeroMul(b); ZeroMul(c); ZeroMul(Mul(b, c));
    } else if b == 0 {
      MulZero(a); ZeroMul(c);
    } else if c == 0 {
      MulZero(b); MulZero(a); MulZero(Mul(a, b));
    } else {
      var i, j, k := Log(a), Log(b), Log(c);
      ExpAdd(i, j);
      ExpAdd(j, k);
      ExpAdd(i + j, k);
      ExpAdd(i, j + k);
      assert i + j + k == i + (j + k);
    }
  }

  lemma PlusMul(a: Byte, b: Byte, c: Byte)
    ensures Mul(Plus(a, b), c) == Plus(Mul(a, c), Mul(b, c))
  {
    hide *;
    MulComm(Plus(a, b), c); MulComm(a, c); MulComm(b, c);
    MulPlus(c, a, b);
  }

  lemma NoZeroDivisors(a: Byte, b: Byte)
    ensures Mul(a, b) == 0 <==> a == 0 || b == 0
  {
    hide *;
    MulZero(a); ZeroMul(b);
    if a != 0 && b != 0 {
      MulByLogs(a, b);
      ExpNonzero(Log(a) + Log(b));
    }
  }

  lemma Inverse(a: Byte)
    requires a != 0
    ensures exists b: Byte :: Mul(a, b) == 1
  {
    hide *;
    ExpAdd(Log(a), 255 - Log(a));
    Exp255();
    assert Mul(a, Exp(255 - Log(a))) == 1;
  }

  // ----- the tables

  lemma NextPower(v: Byte, i: nat)
    requires v == Exp(i)
    ensures Exp(i + 1) == if Bit(2 * v, 8) then Xor(2 * v, PRIMITIVE) else 2 * v
  {}

  lemma FirstPower()
    ensures Exp(0) == 1
  {}

  /** The module-level antilog and log tables and the product they serve. */
  class Tables {
    const exp: array<Byte>
    const log: array<nat>

    ghost predicate Valid()
      reads exp, log
    {
      && exp.Length == 512 && log.Length == 256
      && (forall k: nat :: k < 512 ==> exp[k] == Exp(k))
      && (forall a: Byte :: a != 0 ==> log[a] == Log(a))
    }

    constructor ()
      ensures Valid()
      ensures fresh(exp) && fresh(log)
    {
      hide Exp, Xor, Bit, Log;
      exp := new Byte[512](_ => 0);
      log := new nat[256](_ => 0);
      new;
      var v: nat := 1;
      FirstPower();
      for i := 0 to 255
        invariant v == Exp(i)
        invariant forall k: nat :: k < i ==> exp[k] == Exp(k)
        invariant forall k: nat :: k < i ==> log[Exp(k)] == k
      {
        exp[i] := v;
        forall k: nat | k < i ensures Exp(k) != Exp(i) { ExpInjective(k, i); }
        log[v] := i;
        NextPower(v, i);
        v := 2 * v;
        if Bit(v, 8) {
          v := Xor(v, PRIMITIVE);
        }
      }
      forall a: Byte | a != 0 ensures log[a] == Log(a) { LogUnique(Log(a)); }
      for i := 255 to 512
        invariant forall a: Byte :: a != 0 ==> log[a] == Log(a)
        invariant forall k: nat :: k < i ==> exp[k] == Exp(k)
      {
        ExpPeriod(i - 255);
        exp[i] := exp[i - 255];
      }
    }

    /** The product read from the tables; every index is in range. */
    method Product(a: Byte, b: Byte) returns (p: Byte)
      requires Valid()
      ensures p == Mul(a, b)
    {
      if a == 0 || b == 0 {
        NoZeroDivisors(a, b);
        return 0;
      }
      MulByLogs(a, b);
      p := exp[log[a] + log[b]];
    }
  }
}

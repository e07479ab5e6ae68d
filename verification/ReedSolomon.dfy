/**
  The Reed-Solomon encoder: the generator polynomial, the shift-register
  division by it, and the error-correcting power of the code words it makes.
*/
module ReedSolomon {
  import opened GaloisField
  import opened GaloisAlgebra
  import opened Polynomial

  // ----- the generator polynomial

  /** p times (x - root). */
  function TimesRoot(p: Poly, root: Byte): (r: Poly)
    ensures |r| == |p| + 1
  {
    PlusPoly(p + [0], [0] + Scale(p, root))
  }

  function Generator(degree: nat): (g: Poly)
    ensures |g| == degree + 1
  {
    if degree == 0 then [1] else TimesRoot(Generator(degree - 1), Exp(degree - 1))
  }

  /** The product of (x - alpha^i) for i below degree, evaluated at x. */
  function RootProduct(degree: nat, x: Byte): Byte {
    if degree == 0 then 1 else Mul(RootProduct(degree - 1, x), Plus(x, Exp(degree - 1)))
  }

  lemma {:induction false} GeneratorMonic(degree: nat)
    ensures Generator(degree)[0] == 1
  {
    if degree > 0 {
      GeneratorMonic(degree - 1);
      PlusZero(1);
    }
  }

  lemma EvalTimesRoot(p: Poly, root: Byte, x: Byte)
    ensures Eval(TimesRoot(p, root), x) == Mul(Eval(p, x), Plus(x, root))
  {
    hide Plus, Mul, Eval;
    EvalPlus(p + [0], [0] + Scale(p, root), x);
    EvalSnoc(p, 0, x);
    PlusZero(Mul(Eval(p, x), x));
    assert [0] == Zeros(1);
    EvalZeros(1, Scale(p, root), x);
    EvalScale(p, root, x);
    MulPlus(Eval(p, x), x, root);
  }

  /** The generator is the product of its linear factors. */
  lemma {:induction false} GeneratorIsProduct(degree: nat, x: Byte)
    ensures Eval(Generator(degree), x) == RootProduct(degree, x)
  {
    hide Plus, Mul, TimesRoot;
    if degree == 0 {
      EvalSnoc([], 1, x);
      ZeroMul(x);
      PlusZero(1);
      assert [] + [1] == Generator(0);
    } else {
      GeneratorIsProduct(degree - 1, x);
      EvalTimesRoot(Generator(degree - 1), Exp(degree - 1), x);
    }
  }

  /** One of the first n powers of alpha. */
  ghost predicate LocatedBelow(loc: Byte, n: nat) {
    exists e: nat :: e < n && loc == Exp(e)
  }

  lemma LocatedNext(x: Byte, n: nat)
    ensures LocatedBelow(x, n + 1) <==> LocatedBelow(x, n) || x == Exp(n)
  {
    if LocatedBelow(x, n + 1) && x != Exp(n) {
      var e: nat :| e < n + 1 && x == Exp(e);
      assert e < n;
    }
    if LocatedBelow(x, n) {
      var e: nat :| e < n && x == Exp(e);
      assert e < n + 1;
    }
  }

  lemma NoRoots(x: Byte)
    ensures Eval(Generator(0), x) == 1 && RootProduct(0, x) == 1 && !LocatedBelow(x, 0)
  {
    GeneratorIsProduct(0, x);
  }

  /** Its roots are exactly alpha^0 .. alpha^(degree-1). */
  lemma {:induction false} GeneratorRoots(degree: nat, x: Byte)
    ensures Eval(Generator(degree), x) == 0 <==> LocatedBelow(x, degree)
  {
    hide Plus, Mul, Exp, Eval, Generator, LocatedBelow;
    if degree == 0 {
      NoRoots(x);
    } else {
      var last: nat := degree - 1;
      GeneratorRoots(last, x);
      GeneratorIsProduct(degree, x);
      GeneratorIsProduct(last, x);
      NoZeroDivisors(RootProduct(last, x), Plus(x, Exp(last)));
      PlusZeroIff(x, Exp(last));
      LocatedNext(x, last);
    }
  }

  // ----- division by the generator

  /** One turn of the register: the digit b enters, factor times the generator is taken off. */
  function Shift(gen: Poly, rem: Poly, b: Byte): (r: Poly)
    requires |gen| == |rem| + 1 && |rem| > 0
    ensures |r| == |rem|
  {
    PlusPoly(rem[1..] + [0], Scale(gen[1..], Plus(b, rem[0])))
  }

  function Remainder(gen: Poly, data: Poly): (r: Poly)
    requires |gen| > 1
    ensures |r| == |gen| - 1
  {
    if data == [] then Zeros(|gen| - 1)
    else Shift(gen, Remainder(gen, data[..|data| - 1]), data[|data| - 1])
  }

  /** The factors the register takes off, one per digit. */
  function Quotient(gen: Poly, data: Poly): (q: Poly)
    requires |gen| > 1
    ensures |q| == |data|
  {
    if data == [] then []
    else Quotient(gen, data[..|data| - 1])
         + [Plus(data[|data| - 1], Remainder(gen, data[..|data| - 1])[0])]
  }

  function CheckBytes(data: Poly, ecLen: nat): (r: Poly)
    requires ecLen > 0
    ensures |r| == ecLen
  {
    Remainder(Generator(ecLen), data)
  }

  lemma StepIdentity(gen: Poly, d: Poly, rem: Poly, b: Byte)
    requires |gen| == |rem| + 1 && |rem| > 0 && gen[0] == 1
    ensures PlusPoly(d + rem + [0], Zeros(|d|) + Scale(gen, Plus(b, rem[0]))) == d + [b] + Shift(gen, rem, b)
  {
    hide Plus, Mul;
    var f := Plus(b, rem[0]);
    var x, y := d + rem + [0], Zeros(|d|) + Scale(gen, f);
    forall i | 0 <= i < |x| ensures Plus(x[i], y[i]) == (d + [b] + Shift(gen, rem, b))[i] {
      if i < |d| {
        PlusZero(d[i]);
      } else if i == |d| {
        LeadingDigit(b, rem[0]);
      } else {
        ShiftAt(gen, rem, b, i - |d| - 1);
      }
    }
  }

  lemma LeadingDigit(b: Byte, r: Byte)
    ensures Plus(r, Mul(1, Plus(b, r))) == b
  {
    hide *;
    OneMul(Plus(b, r));
    PlusComm(b, r);
    PlusSelf(r, b);
  }

  lemma ShiftAt(gen: Poly, rem: Poly, b: Byte, k: nat)
    requires |gen| == |rem| + 1 && k < |rem|
    ensures Shift(gen, rem, b)[k] == Plus((rem + [0])[k + 1], Scale(gen, Plus(b, rem[0]))[k + 1])
  {
    hide Plus, Mul;
    assert (rem[1..] + [0])[k] == (rem + [0])[k + 1];
  }

  lemma OneMul(b: Byte)
    ensures Mul(1, b) == b
  {}

  /** Data followed by its remainder is exactly quotient times generator, coefficient by coefficient. */
  lemma {:induction false} DivisionIdentity(gen: Poly, data: Poly)
    requires |gen| > 1 && gen[0] == 1
    ensures data + Remainder(gen, data) == PolyMul(Quotient(gen, data), gen)
  {
    hide Plus, Mul;
    if data == [] {
    } else {
      var d, b := data[..|data| - 1], data[|data| - 1];
      DivisionIdentity(gen, d);
      StepIdentity(gen, d, Remainder(gen, d), b);
      assert Quotient(gen, data)[..|d|] == Quotient(gen, d);
      assert data == d + [b];
    }
  }

  predicate IsCodeword(word: Poly, ecLen: nat) {
    forall i: nat :: i < ecLen ==> Eval(word, Exp(i)) == 0
  }

  /** Every encoded block is a multiple of the generator and vanishes at its roots. */
  lemma EncodedIsCodeword(data: Poly, ecLen: nat)
    requires ecLen > 0
    ensures data + CheckBytes(data, ecLen) == PolyMul(Quotient(Generator(ecLen), data), Generator(ecLen))
    ensures IsCodeword(data + CheckBytes(data, ecLen), ecLen)
  {
    hide Plus, Mul, Exp, Eval, PolyMul, Quotient, Generator;
    var gen := Generator(ecLen);
    GeneratorMonic(ecLen);
    DivisionIdentity(gen, data);
    forall i: nat | i < ecLen ensures Eval(data + CheckBytes(data, ecLen), Exp(i)) == 0 {
      EvalMul(Quotient(gen, data), gen, Exp(i));
      GeneratorRoots(ecLen, Exp(i));
      assert LocatedBelow(Exp(i), ecLen);
      MulZero(Eval(Quotient(gen, data), Exp(i)));
    }
  }

  // ----- how many wrong bytes a code word survives

  function Pow(x: Byte, n: nat): Byte {
    if n == 0 then 1 else Mul(Pow(x, n - 1), x)
  }

  lemma {:induction false} PowExp(k: nat, n: nat, m: nat)
    requires m == k * n
    ensures Pow(Exp(k), n) == Exp(m)
  {
    hide Mul, Exp;
    if n == 0 {
      FirstPower();
    } else {
      assert m - k == k * (n - 1);
      PowExp(k, n - 1, m - k);
      ExpAdd(m - k, k);
    }
  }

  /** A non-zero coefficient and the power of alpha that locates it. */
  datatype Term = Term(coef: Byte, loc: Byte)

  function PowerSum(ts: seq<Term>, n: nat): Byte {
    if ts == [] then 0 else Plus(Mul(ts[0].coef, Pow(ts[0].loc, n)), PowerSum(ts[1..], n))
  }

  function Drop(ts: seq<Term>, loc: Byte): (r: seq<Term>)
    ensures |r| == |ts|
  {
    seq(|ts|, i requires 0 <= i < |ts| => Term(Mul(ts[i].coef, Plus(ts[i].loc, loc)), ts[i].loc))
  }

  lemma {:induction false} PowerSumDrop(ts: seq<Term>, loc: Byte, n: nat)
    ensures PowerSum(Drop(ts, loc), n) == Plus(PowerSum(ts, n + 1), Mul(PowerSum(ts, n), loc))
  {
    hide Plus, Mul, Pow;
    if ts == [] {
      ZeroMul(loc); PlusZero(0);
    } else {
      var c, x, rest := ts[0].coef, ts[0].loc, ts[1..];
      PowerSumDrop(rest, loc, n);
      assert Drop(ts, loc)[1..] == Drop(rest, loc);
      var p := Pow(x, n);
      var a, b := PowerSum(rest, n + 1), Mul(PowerSum(rest, n), loc);
      calc {
        PowerSum(Drop(ts, loc), n);
        Plus(Mul(Mul(c, Plus(x, loc)), p), Plus(a, b));
        { FirstTerm(c, x, loc, p); }
        Plus(Plus(Mul(c, Mul(p, x)), Mul(Mul(c, p), loc)), Plus(a, b));
        { PlusSwap(Mul(c, Mul(p, x)), Mul(Mul(c, p), loc), a, b); }
        Plus(Plus(Mul(c, Mul(p, x)), a), Plus(Mul(Mul(c, p), loc), b));
        { PlusMul(Mul(c, p), PowerSum(rest, n), loc); PowStep(x, n); }
        Plus(PowerSum(ts, n + 1), Mul(PowerSum(ts, n), loc));
      }
    }
  }

  lemma PowStep(x: Byte, n: nat)
    ensures Pow(x, n + 1) == Mul(Pow(x, n), x) && Pow(x, 0) == 1
  {}

  lemma FirstTerm(c: Byte, x: Byte, y: Byte, p: Byte)
    ensures Mul(Mul(c, Plus(x, y)), p) == Plus(Mul(c, Mul(p, x)), Mul(Mul(c, p), y))
  {
    hide *;
    MulAssoc(c, Plus(x, y), p);
    MulComm(Plus(x, y), p);
    MulPlus(p, x, y);
    MulPlus(c, Mul(p, x), Mul(p, y));
    MulAssoc(c, p, y);
  }

  ghost predicate DistinctLocs(ts: seq<Term>) {
    forall i, j :: 0 <= i < j < |ts| ==> ts[i].loc != ts[j].loc
  }

  /** At most n terms whose first n power sums vanish are all zero (a Vandermonde system). */
  lemma {:induction false} Vandermonde(ts: seq<Term>, n: nat)
    requires DistinctLocs(ts) && |ts| <= n
    requires forall i: nat :: i < n ==> PowerSum(ts, i) == 0
    ensures forall i :: 0 <= i < |ts| ==> ts[i].coef == 0
    decreases |ts|
  {
    hide Plus, Mul, Pow, PowerSum;
    if ts != [] {
      var t, rest := ts[0], ts[1..];
      var small := Drop(rest, t.loc);
      forall i: nat | i < n - 1 ensures PowerSum(small, i) == 0 {
        PowerSumDrop(ts, t.loc, i);
        ZeroMul(t.loc); PlusZero(0);
        DropHead(ts, i);
      }
      Vandermonde(small, n - 1);
      forall i | 0 <= i < |rest| ensures rest[i].coef == 0 {
        assert small[i].coef == 0;
        NoZeroDivisors(rest[i].coef, Plus(rest[i].loc, t.loc));
        assert ts[0].loc != ts[i + 1].loc;
        PlusZeroIff(rest[i].loc, t.loc);
      }
      ZeroTerms(rest, 0);
      HeadAlone(ts);
    }
  }

  lemma DropHead(ts: seq<Term>, n: nat)
    requires ts != []
    ensures PowerSum(Drop(ts, ts[0].loc), n) == PowerSum(Drop(ts[1..], ts[0].loc), n)
  {
    hide Plus, Mul, Pow;
    var t := ts[0];
    PlusSelf(t.loc, 0);
    MulZero(t.coef);
    ZeroMul(Pow(t.loc, n));
    assert Drop(ts, t.loc)[1..] == Drop(ts[1..], t.loc);
    PlusZero(PowerSum(Drop(ts[1..], t.loc), n));
  }

  lemma {:induction false} ZeroTerms(ts: seq<Term>, n: nat)
    requires forall i :: 0 <= i < |ts| ==> ts[i].coef == 0
    ensures PowerSum(ts, n) == 0
  {
    hide Plus, Mul, Pow;
    if ts != [] {
      ZeroTerms(ts[1..], n);
      ZeroMul(Pow(ts[0].loc, n));
      PlusZero(0);
    }
  }

  lemma HeadAlone(ts: seq<Term>)
    requires ts != [] && PowerSum(ts[1..], 0) == 0 && PowerSum(ts, 0) == 0
    ensures ts[0].coef == 0
  {
    hide Plus, Mul, Pow;
    PowStep(ts[0].loc, 0);
    MulOne(ts[0].coef);
    PlusZero(ts[0].coef);
  }

  /** The non-zero coefficients of a word with their locators. */
  function Terms(word: Poly): (ts: seq<Term>)
    ensures |ts| == Weight(word)
  {
    if word == [] then []
    else if word[0] == 0 then Terms(word[1..])
    else [Term(word[0], Exp(|word| - 1))] + Terms(word[1..])
  }

  /** The number of non-zero coefficients. */
  function Weight(word: Poly): nat {
    if word == [] then 0 else (if word[0] == 0 then 0 else 1) + Weight(word[1..])
  }

  lemma LocatedWiden(loc: Byte, n: nat)
    requires LocatedBelow(loc, n) && n < 255
    ensures LocatedBelow(loc, n + 1) && loc != Exp(n)
  {
    hide Exp;
    var e: nat :| e < n && loc == Exp(e);
    ExpInjective(e, n);
    assert e < n + 1 && loc == Exp(e);
  }

  lemma {:induction false} TermsLocated(word: Poly)
    requires |word| <= 255
    ensures DistinctLocs(Terms(word))
    ensures forall t :: t in Terms(word) ==> LocatedBelow(t.loc, |word|)
  {
    hide Exp, LocatedBelow;
    if word != [] {
      var rest := Terms(word[1..]);
      TermsLocated(word[1..]);
      forall t | t in rest ensures LocatedBelow(t.loc, |word|) && t.loc != Exp(|word| - 1) {
        LocatedWiden(t.loc, |word| - 1);
      }
      LocatedNext(Exp(|word| - 1), |word| - 1);
      if word[0] != 0 {
        assert Terms(word) == [Term(word[0], Exp(|word| - 1))] + rest;
        forall j | 0 <= j < |rest| ensures rest[j].loc != Exp(|word| - 1) { assert rest[j] in rest; }
      }
    }
  }

  lemma {:induction false} EvalCons(b: Byte, p: Poly, x: Byte)
    ensures Eval([b] + p, x) == Plus(Mul(b, Pow(x, |p|)), Eval(p, x))
  {
    hide Plus, Mul;
    if p == [] {
      assert [b] + p == [] + [b];
      EvalSnoc([], b, x);
      ZeroMul(x); PlusZero(b); MulOne(b);
    } else {
      var p', a := p[..|p| - 1], p[|p| - 1];
      EvalCons(b, p', x);
      assert [b] + p == ([b] + p') + [a];
      EvalSnoc([b] + p', a, x);
      PlusMul(Mul(b, Pow(x, |p'|)), Eval(p', x), x);
      MulAssoc(b, Pow(x, |p'|), x);
      PlusAssoc(Mul(b, Pow(x, |p|)), Mul(Eval(p', x), x), a);
    }
  }

  /** Evaluating at alpha^n is the n-th power sum of the terms. */
  lemma {:induction false} EvalIsPowerSum(word: Poly, n: nat)
    ensures Eval(word, Exp(n)) == PowerSum(Terms(word), n)
  {
    hide Plus, Mul, Exp, Pow;
    if word != [] {
      var b, rest := word[0], word[1..];
      assert word == [b] + rest;
      EvalCons(b, rest, Exp(n));
      EvalIsPowerSum(rest, n);
      if b == 0 {
        ZeroMul(Pow(Exp(n), |rest|));
        PlusZero(Eval(rest, Exp(n)));
      } else {
        PowExp(n, |rest|, n * |rest|);
        PowExp(|rest|, n, n * |rest|);
        assert Terms(word)[1..] == Terms(rest);
      }
    }
  }

  /** A non-zero code word of at most 255 bytes has more than ecLen non-zero bytes. */
  lemma CodewordWeight(word: Poly, ecLen: nat)
    requires IsCodeword(word, ecLen) && |word| <= 255
    ensures Weight(word) == 0 || Weight(word) > ecLen
  {
    hide Plus, Mul, Exp, Pow, Eval, PowerSum, Terms;
    if Weight(word) <= ecLen {
      var ts := Terms(word);
      forall i: nat | i < ecLen ensures PowerSum(ts, i) == 0 { EvalIsPowerSum(word, i); }
      TermsLocated(word);
      Vandermonde(ts, ecLen);
      TermsNonzero(word);
    }
  }

  lemma {:induction false} TermsNonzero(word: Poly)
    ensures Terms(word) == [] || Terms(word)[0].coef != 0
  {
    if word != [] {
      TermsNonzero(word[1..]);
    }
  }

  /** The number of positions where two words of the same length differ. */
  function Distance(u: Poly, v: Poly): nat
    requires |u| == |v|
  {
    if u == [] then 0 else (if u[0] == v[0] then 0 else 1) + Distance(u[1..], v[1..])
  }

  lemma {:induction false} DistanceIsWeight(u: Poly, v: Poly)
    requires |u| == |v|
    ensures Distance(u, v) == Weight(PlusPoly(u, v))
  {
    hide Plus;
    if u != [] {
      DistanceIsWeight(u[1..], v[1..]);
      PlusZeroIff(u[0], v[0]);
      assert PlusPoly(u, v)[1..] == PlusPoly(u[1..], v[1..]);
    }
  }

  lemma {:induction false} DistanceZero(u: Poly, v: Poly)
    requires |u| == |v|
    ensures Distance(u, v) == 0 <==> u == v
  {
    if u != [] {
      DistanceZero(u[1..], v[1..]);
      assert u == [u[0]] + u[1..] && v == [v[0]] + v[1..];
    }
  }

  lemma {:induction false} Triangle(u: Poly, v: Poly, w: Poly)
    requires |u| == |v| == |w|
    ensures Distance(u, v) <= Distance(u, w) + Distance(v, w)
  {
    if u != [] {
      Triangle(u[1..], v[1..], w[1..]);
    }
  }

  /** Two different code words differ in more than ecLen bytes. */
  lemma MinimumDistance(u: Poly, v: Poly, ecLen: nat)
    requires |u| == |v| <= 255
    requires IsCodeword(u, ecLen) && IsCodeword(v, ecLen)
    ensures u == v || Distance(u, v) > ecLen
  {
    hide Plus, Mul, Exp, Eval, Distance, Weight;
    var w := PlusPoly(u, v);
    forall i: nat | i < ecLen ensures Eval(w, Exp(i)) == 0 {
      EvalPlus(u, v, Exp(i));
      PlusZero(0);
    }
    CodewordWeight(w, ecLen);
    DistanceIsWeight(u, v);
    DistanceZero(u, v);
  }

  /** A received word with at most ecLen / 2 wrong bytes has one nearest code word, the one sent. */
  lemma UniqueCorrection(sent: Poly, other: Poly, received: Poly, ecLen: nat)
    requires |sent| == |other| == |received| <= 255
    requires IsCodeword(sent, ecLen) && IsCodeword(other, ecLen)
    requires 2 * Distance(sent, received) <= ecLen && 2 * Distance(other, received) <= ecLen
    ensures sent == other
  {
    hide Distance, IsCodeword;
    Triangle(sent, other, received);
    MinimumDistance(sent, other, ecLen);
  }

  lemma {:induction false} SharedPrefixDistance(d: Poly, p: Poly, q: Poly)
    requires |p| == |q|
    ensures Distance(d + p, d + q) <= |p|
  {
    if d == [] {
      assert d + p == p && d + q == q;
      DistanceBound(p, q);
    } else {
      SharedPrefixDistance(d[1..], p, q);
      assert (d + p)[1..] == d[1..] + p && (d + q)[1..] == d[1..] + q;
    }
  }

  lemma {:induction false} DistanceBound(p: Poly, q: Poly)
    requires |p| == |q|
    ensures Distance(p, q) <= |p|
  {
    if p != [] {
      DistanceBound(p[1..], q[1..]);
    }
  }

  /** The check bytes are the only ones that complete the data to a code word. */
  lemma CheckBytesUnique(data: Poly, check: Poly, ecLen: nat)
    requires ecLen > 0 && |check| == ecLen && |data| + ecLen <= 255
    ensures IsCodeword(data + check, ecLen) <==> check == CheckBytes(data, ecLen)
  {
    hide IsCodeword, Distance, CheckBytes;
    EncodedIsCodeword(data, ecLen);
    if IsCodeword(data + check, ecLen) {
      MinimumDistance(data + check, data + CheckBytes(data, ecLen), ecLen);
      SharedPrefixDistance(data, check, CheckBytes(data, ecLen));
      assert (data + check)[|data|..] == check;
      assert (data + CheckBytes(data, ecLen))[|data|..] == CheckBytes(data, ecLen);
    }
  }

  // ----- the methods

  method GeneratorPoly(t: Tables, degree: nat) returns (poly: Poly)
    requires t.Valid() && degree <= 512
    ensures poly == Generator(degree)
  {
    hide Plus, Mul, Exp;
    poly := [1];
    for i := 0 to degree
      invariant poly == Generator(i)
    {
      var next := Zeros(|poly| + 1);
      var root := t.exp[i];
      for j := 0 to |poly|
        invariant |next| == |poly| + 1
        invariant forall k :: 0 <= k < j ==> next[k] == TimesRoot(poly, root)[k]
        invariant next[j] == if j == 0 then 0 else Mul(poly[j - 1], root)
        invariant forall k :: j < k < |next| ==> next[k] == 0
      {
        next := next[j := Plus(next[j], poly[j])];
        PlusComm(next[j], poly[j]);
        var product := t.Product(poly[j], root);
        PlusZero(product);
        PlusComm(if j == 0 then 0 else Mul(poly[j - 1], root), poly[j]);
        next := next[j + 1 := Plus(next[j + 1], product)];
      }
      PlusZero(next[|poly|]);
      assert next == TimesRoot(poly, root);
      poly := next;
    }
  }

  method Encode(t: Tables, data: Poly, ecLen: nat) returns (rem: Poly)
    requires t.Valid() && 0 < ecLen <= 512
    ensures rem == CheckBytes(data, ecLen)
  {
    hide Plus, Mul, Exp, Generator;
    var gen := GeneratorPoly(t, ecLen);
    rem := Zeros(ecLen);
    for n := 0 to |data|
      invariant |rem| == ecLen
      invariant rem == Remainder(gen, data[..n])
    {
      assert data[..n + 1][..n] == data[..n];
      var factor := Plus(data[n], rem[0]);
      var shifted := rem[1..] + [0];
      ghost var target := Shift(gen, rem, data[n]);
      rem := shifted;
      if factor != 0 {
        for i := 0 to ecLen
          invariant |rem| == ecLen
          invariant forall k :: 0 <= k < i ==> rem[k] == target[k]
          invariant forall k :: i <= k < ecLen ==> rem[k] == shifted[k]
        {
          var product := t.Product(gen[i + 1], factor);
          rem := rem[i := Plus(rem[i], product)];
        }
      } else {
        forall k | 0 <= k < ecLen ensures shifted[k] == target[k] {
          MulZero(gen[k + 1]);
          PlusZero(shifted[k]);
        }
      }
      assert rem == target;
    }
    assert data[..|data|] == data;
  }
}

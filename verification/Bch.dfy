/** The shift-and-xor division behind the format and version words. */
module Bch {
  import opened Binary
  import opened GaloisTables

  const FORMAT_GENERATOR: nat := 0x537
  const FORMAT_MASK: nat := 0x5412
  const VERSION_GENERATOR: nat := 0x1F25

  /** One turn: clear the bit i places above the generator's degree n. */
  function Clear(g: nat, n: nat, rem: nat, i: nat): nat {
    if Bit(rem, i + n) then Xor(rem, Shl(g, i)) else rem
  }

  /** The turns i-1, ..., 0. */
  function Divide(g: nat, n: nat, rem: nat, i: nat): nat
    decreases i
  {
    if i == 0 then rem else Divide(g, n, Clear(g, n, rem, i - 1), i - 1)
  }

  method ShiftXor(g: nat, n: nat, data: nat, width: nat) returns (rem: nat)
    ensures rem == Divide(g, n, Shl(data, n), width)
  {
    rem := Shl(data, n);
    for i := width downto 0
      invariant Divide(g, n, Shl(data, n), width) == Divide(g, n, rem, i)
    {
      if Bit(rem, i + n) {
        rem := Xor(rem, Shl(g, i));
      }
    }
  }

  /** The division leaves a remainder below the divisor's degree, off by a multiple of the divisor. */
  lemma {:induction false} DivideReduces(g: nat, n: nat, rem: nat, i: nat) returns (q: nat)
    requires Pow2(n) <= g < Pow2(n + 1) && rem < Pow2(i + n)
    ensures Divide(g, n, rem, i) < Pow2(n)
    ensures Xor(rem, Divide(g, n, rem, i)) == Times(q, g)
    decreases i
  {
    hide Xor, Times, Shl, Bit;
    if i == 0 {
      q := 0;
      XorSelf(rem);
      TimesNone(g);
    } else {
      var next := Clear(g, n, rem, i - 1);
      TopBit(rem, i - 1 + n);
      if Bit(rem, i - 1 + n) {
        ShlRange(g, n, i - 1);
        XorTop(rem, Shl(g, i - 1), i - 1 + n);
        var q' := DivideReduces(g, n, next, i - 1);
        q := Xor(Pow2(i - 1), q');
        XorTimes(Pow2(i - 1), q', g);
        TimesShl(i - 1, g);
        var d := Divide(g, n, next, i - 1);
        // rem + d = (rem + next) + (next + d)
        XorCancel(rem, Shl(g, i - 1));
        XorAssoc(Shl(g, i - 1), next, d);
        XorCancel(Shl(g, i - 1), rem);
        XorComm(rem, Shl(g, i - 1));
      } else {
        q := DivideReduces(g, n, rem, i - 1);
      }
    }
  }

  lemma TimesNone(g: nat)
    ensures Times(0, g) == 0
  {}

  /** No other word below the divisor's degree completes the data to a multiple of the divisor. */
  lemma RemainderUnique(g: nat, n: nat, data: nat, r: nat, r': nat, q: nat, q': nat)
    requires Pow2(n) <= g < Pow2(n + 1) && r < Pow2(n) && r' < Pow2(n)
    requires Xor(data, r) == Times(q, g) && Xor(data, r') == Times(q', g)
    ensures r == r'
  {
    hide Xor, Times;
    XorTimes(q, q', g);
    XorSwap(data, r, data, r');
    XorSelf(data);
    ZeroXor(Xor(r, r'));
    XorBound(r, r', n);
    if Xor(q, q') > 0 {
      TimesLarge(Xor(q, q'), g, n);
    }
    TimesNone(g);
    XorCancel(r, r');
    XorComm(r, 0);
    ZeroXor(r);
  }

  lemma ZeroXor(a: nat)
    ensures Xor(0, a) == a && Xor(a, 0) == a
  {}

  ghost predicate IsMultiple(w: nat, g: nat) {
    exists q: nat :: w == Times(q, g)
  }

  /** Data of the given width, shifted up, with its remainder below it. */
  function Append(g: nat, n: nat, data: nat, width: nat): nat {
    Or(Shl(data, n), Divide(g, n, Shl(data, n), width))
  }

  /**
    For any divisor of degree n and data of any width: data followed by the
    remainder is a multiple of the divisor, the data is its high part, and no
    other low part makes a multiple.
  */
  lemma AppendIsCodeword(g: nat, n: nat, data: nat, width: nat)
    requires Pow2(n) <= g < Pow2(n + 1) && data < Pow2(width)
    ensures IsMultiple(Append(g, n, data, width), g)
    ensures Shr(Append(g, n, data, width), n) == data
    ensures forall r: nat :: r < Pow2(n) && IsMultiple(Or(Shl(data, n), r), g)
                             ==> Or(Shl(data, n), r) == Append(g, n, data, width)
  {
    hide Xor, Times, Shl, Divide, Or;
    ShlBound(data, width, n);
    var q := DivideReduces(g, n, Shl(data, n), width);
    var rem := Divide(g, n, Shl(data, n), width);
    OrLow(data, rem, n);
    forall r: nat | r < Pow2(n) && IsMultiple(Or(Shl(data, n), r), g) ensures r == rem {
      OrLow(data, r, n);
      var q': nat :| Or(Shl(data, n), r) == Times(q', g);
      RemainderUnique(g, n, Shl(data, n), rem, r, q, q');
    }
  }

  // ----- the two words

  function FormatData(ecLevel: nat, mask: nat): nat {
    Or(Shl(ecLevel % 4, 3), mask % 8)
  }

  function FormatBits(ecLevel: nat, mask: nat): nat {
    Xor(Append(FORMAT_GENERATOR, 10, FormatData(ecLevel, mask), 5), FORMAT_MASK)
  }

  function VersionBits(version: nat): nat {
    Append(VERSION_GENERATOR, 12, version, 6)
  }

  method BchFormatBits(ecLevel: nat, mask: nat) returns (w: nat)
    ensures w == FormatBits(ecLevel, mask)
  {
    var data := Or(Shl(ecLevel % 4, 3), mask % 8);
    var rem := ShiftXor(FORMAT_GENERATOR, 10, data, 5);
    w := Xor(Or(Shl(data, 10), rem), FORMAT_MASK);
  }

  method BchVersionBits(version: nat) returns (w: nat)
    ensures w == VersionBits(version)
  {
    var rem := ShiftXor(VERSION_GENERATOR, 12, version, 6);
    w := Or(Shl(version, 12), rem);
  }

  /** A format word unmasks to a multiple of 0x537 whose high part is the error level and the mask number. */
  lemma FormatReadable(ecLevel: nat, mask: nat)
    ensures var w := Xor(FormatBits(ecLevel, mask), 0x5412);
      IsMultiple(w, 0x537) && Shr(w, 10) / 8 == ecLevel % 4 && Shr(w, 10) % 8 == mask % 8
  {
    hide Append, Xor, Or;
    assert Pow2(3) == 8;
    OrLow(ecLevel % 4, mask % 8, 3);
    assert Pow2(10) == 1024 && Pow2(11) == 2048 && Pow2(5) == 32;
    ShlPowers(ecLevel % 4);
    AppendIsCodeword(FORMAT_GENERATOR, 10, FormatData(ecLevel, mask), 5);
    XorCancel(FORMAT_MASK, Append(FORMAT_GENERATOR, 10, FormatData(ecLevel, mask), 5));
  }

  /** A version word is a multiple of 0x1F25 whose high part is the version. */
  lemma VersionReadable(version: nat)
    requires version < 64
    ensures IsMultiple(VersionBits(version), 0x1F25) && Shr(VersionBits(version), 12) == version
  {
    hide Append, Xor;
    assert Pow2(12) == 4096 && Pow2(13) == 8192 && Pow2(6) == 64;
    AppendIsCodeword(VERSION_GENERATOR, 12, version, 6);
  }

  // ----- the one format word the generator writes: level L, mask 0

  lemma Xor200029B8()
    ensures Xor(0x2000, 0x29B8) == 0x09B8
  {
    XorBit(0, 0, 1, 1); XorBit(1, 1, 0, 0); XorBit(2, 2, 0, 1); XorBit(4, 5, 0, 0);
    XorBit(8, 10, 0, 0); XorBit(16, 20, 0, 1); XorBit(32, 41, 0, 1); XorBit(64, 83, 0, 0);
    XorBit(128, 166, 0, 1); XorBit(256, 333, 0, 1); XorBit(512, 667, 0, 1); XorBit(1024, 1335, 0, 0);
    XorBit(2048, 2670, 0, 0); XorBit(4096, 5340, 0, 0);
  }

  lemma Xor09B80A6E()
    ensures Xor(0x09B8, 0x0A6E) == 0x03D6
  {
    XorBit(0, 0, 1, 1); XorBit(1, 1, 0, 0); XorBit(2, 2, 0, 1); XorBit(4, 5, 1, 0);
    XorBit(9, 10, 1, 0); XorBit(19, 20, 0, 1); XorBit(38, 41, 1, 1); XorBit(77, 83, 1, 0);
    XorBit(155, 166, 1, 1); XorBit(311, 333, 0, 1); XorBit(622, 667, 0, 1); XorBit(1244, 1335, 0, 0);
  }

  lemma Xor23D65412()
    ensures Xor(0x23D6, 0x5412) == 0x77C4
  {
    XorBit(0, 0, 0, 1); XorBit(0, 1, 1, 0); XorBit(1, 2, 0, 1); XorBit(2, 5, 0, 0);
    XorBit(4, 10, 0, 1); XorBit(8, 21, 1, 0); XorBit(17, 42, 1, 0); XorBit(35, 84, 1, 0);
    XorBit(71, 168, 1, 0); XorBit(143, 336, 0, 0); XorBit(286, 672, 1, 1); XorBit(573, 1345, 0, 0);
    XorBit(1146, 2690, 1, 0); XorBit(2293, 5380, 1, 1); XorBit(4587, 10761, 0, 0);
  }

  lemma DivideFormat()
    ensures Divide(FORMAT_GENERATOR, 10, 0x2000, 5) == 0x3D6
  {
    hide Xor, Bit, Shl;
    ShlPowers(FORMAT_GENERATOR);
    Xor200029B8(); Xor09B80A6E();
    LeadingBit(0x2000, 14, 0x4000); LeadingBit(0x2000, 13, 0x2000);
    LeadingBit(0x09B8, 12, 0x1000); LeadingBit(0x09B8, 11, 0x0800);
    LeadingBit(0x03D6, 10, 0x0400);
    assert Divide(FORMAT_GENERATOR, 10, 0x03D6, 1) == 0x03D6;
    assert Divide(FORMAT_GENERATOR, 10, 0x09B8, 3) == 0x03D6;
  }

  lemma LeadingBit(x: nat, k: nat, p: nat)
    requires p == Pow2(k) && x < 2 * p
    ensures Bit(x, k) == (x >= p)
  {
    TopBit(x, k);
  }

  lemma Shl10(a: nat)
    ensures Shl(a, 10) == 1024 * a
  {}

  /** Level L with mask 0 gives the word 111011111000100 of Annex C of ISO/IEC 18004. */
  lemma FormatWord()
    ensures FormatBits(1, 0) == 0x77C4
  {
    hide Xor, Or, Divide, Shl;
    assert Pow2(3) == 8 && Pow2(10) == 1024;
    ShlPowers(1);
    OrLow(1, 0, 3);
    Shl10(8);
    DivideFormat();
    OrLow(8, 0x3D6, 10);
    Xor23D65412();
  }
}

/**
  What a finished symbol looks like, module by module: finders, timing,
  alignment, format and version words, and the data in the order of the walk.
  The pictures are spelled out and name none of the drawing functions.
*/
module QrPicture {
  import opened Binary
  import opened Wrappers
  import opened OrderedDict
  import opened Codewords
  import opened Zigzag
  import opened QrLayout
  import opened QrPattern
  import opened QrMatrix
  import opened QrCode
  import Bch

  lemma ShownIs(g: Bitmap, v: Version, bits: seq<bool>, r: int, c: int, x: bool)
    requires Shows(g, v, bits) && 0 <= r < 17 + 4 * v && 0 <= c < 17 + 4 * v
    requires OrElse(FormatAt(v, r, c), PatternAt(v, r, c)) == Some(x)
    ensures r < |g| && c < |g[r]| && |g| == 17 + 4 * v && g[r][c] == x
  {
    hide FormatAt, PatternAt, IsFunction, DataModule, Slots;
    if FormatAt(v, r, c).Some? {
      FormatOnReserved(v, r, c);
    } else {
      DrawnIffFunction(v, r, c);
    }
  }

  ghost predicate InSquare(g: Bitmap, n: nat) {
    |g| == n && forall r :: 0 <= r < n ==> |g[r]| == n
  }

  lemma ShownSquare(g: Bitmap, v: Version, bits: seq<bool>)
    requires Shows(g, v, bits)
    ensures InSquare(g, 17 + 4 * v)
  {}

  /** The symbol stands inside a light quiet zone of the given width on every side. */
  lemma QuietZone(matrix: Bitmap, border: nat, g: Bitmap, v: Version, r: nat, c: nat)
    requires Bordered(matrix, border, g, v)
    ensures InSquare(matrix, 17 + 4 * v + 2 * border) && InSquare(g, 17 + 4 * v)
    ensures r < 17 + 4 * v && c < 17 + 4 * v ==> matrix[r + border][c + border] == g[r][c]
    ensures r < border && c < |matrix| ==>
      !matrix[r][c] && !matrix[|matrix| - 1 - r][c] && !matrix[c][r] && !matrix[c][|matrix| - 1 - r]
  {}

  // ----- finders

  lemma FinderValue(v: Version, r: int, c: int, dr: int, dc: int)
    requires -1 <= dr <= 7 && -1 <= dc <= 7 && 0 <= r < 17 + 4 * v && 0 <= c < 17 + 4 * v
    requires || (r == dr && c == dc)
             || (r == dr && c == 10 + 4 * v + dc)
             || (r == 10 + 4 * v + dr && c == dc)
    ensures OrElse(FormatAt(v, r, c), PatternAt(v, r, c)) ==
      Some(0 <= dr <= 6 && 0 <= dc <= 6
           && (dr == 0 || dr == 6 || dc == 0 || dc == 6 || (2 <= dr <= 4 && 2 <= dc <= 4)))
  {
    hide AlignAt;
    AlignDrawn(v, r, c);
  }

  /** The three finders: seven by seven modules, a dark frame, a light ring, a dark core, and light around. */
  lemma FinderPicture(g: Bitmap, v: Version, bits: seq<bool>, dr: int, dc: int)
    requires Shows(g, v, bits) && 0 <= dr <= 7 && 0 <= dc <= 7
    ensures InSquare(g, 17 + 4 * v)
    ensures var n := 17 + 4 * v;
      var dark := dr < 7 && dc < 7
        && (dr == 0 || dr == 6 || dc == 0 || dc == 6 || (2 <= dr <= 4 && 2 <= dc <= 4));
      && g[dr][dc] == dark
      && g[dr][n - 1 - dc] == dark
      && g[n - 1 - dr][dc] == dark
  {
    hide Shows, FormatAt, PatternAt;
    ShownSquare(g, v, bits);
    var n := 17 + 4 * v;
    var dark := dr < 7 && dc < 7
      && (dr == 0 || dr == 6 || dc == 0 || dc == 6 || (2 <= dr <= 4 && 2 <= dc <= 4));
    FinderValue(v, dr, dc, dr, dc);
    ShownIs(g, v, bits, dr, dc, dark);
    FinderValue(v, dr, n - 1 - dc, dr, 6 - dc);
    ShownIs(g, v, bits, dr, n - 1 - dc, dark);
    FinderValue(v, n - 1 - dr, dc, 6 - dr, dc);
    ShownIs(g, v, bits, n - 1 - dr, dc, dark);
  }

  // ----- alignment patterns

  /** The centres: one from version 2, six from version 7. */
  predicate HasCentre(v: Version, r: int, c: int) {
    var m, x := 2 * v + 8, 4 * v + 10;
    || (v > 1 && r == x && c == x)
    || (v >= 7 && ((r == 6 && c == m) || (r == m && c == 6) || (r == m && c == m) || (r == m && c == x)
         || (r == x && c == m)))
  }

  lemma {:induction false} AlignOverOne(centres: seq<Cell>, i: nat, r: int, c: int)
    requires i < |centres| && forall j :: 0 <= j < |centres| && j != i ==> AlignAround(centres[j], r, c).None?
    ensures AlignOver(centres, r, c) == AlignAround(centres[i], r, c)
  {
    hide AlignAround;
    var init := centres[..|centres| - 1];
    if i < |init| {
      AlignOverOne(init, i, r, c);
    } else {
      AlignOverNothing(init, r, c);
    }
  }

  lemma {:induction false} AlignOverNothing(centres: seq<Cell>, r: int, c: int)
    requires forall j :: 0 <= j < |centres| ==> AlignAround(centres[j], r, c).None?
    ensures AlignOver(centres, r, c).None?
  {
    hide AlignAround;
    if centres != [] {
      AlignOverNothing(centres[..|centres| - 1], r, c);
    }
  }

  lemma AlignAroundIs(centre: Cell, r: int, c: int)
    ensures AlignAround(centre, r, c) ==
      if centre.r - 2 <= r <= centre.r + 2 && centre.c - 2 <= c <= centre.c + 2
      then Some(r == centre.r - 2 || r == centre.r + 2 || c == centre.c - 2 || c == centre.c + 2
                || (r == centre.r && c == centre.c))
      else None
  {}

  lemma OtherCentres(v: Version, i: nat, j: nat, r: int, c: int)
    requires i < |CentreList(v)| && j < |CentreList(v)| && i != j
    requires AlignAround(CentreList(v)[i], r, c).Some?
    ensures AlignAround(CentreList(v)[j], r, c).None?
  {
    hide AlignAround;
    AlignAroundIs(CentreList(v)[i], r, c);
    AlignAroundIs(CentreList(v)[j], r, c);
  }

  lemma CentreListed(v: Version, cr: int, cc: int) returns (i: nat)
    requires HasCentre(v, cr, cc)
    ensures i < |CentreList(v)| && CentreList(v)[i] == Cell(cr, cc)
  {
    var m := 2 * v + 8;
    if v < 7 {
      i := 0;
    } else {
      i := if cr == 6 then 0 else if cc == 6 then 1 else if cr == m && cc == m then 2
           else if cr == m then 3 else if cc == m then 4 else 5;
    }
  }

  lemma AlignValue(v: Version, cr: int, cc: int, dr: int, dc: int)
    requires HasCentre(v, cr, cc) && -2 <= dr <= 2 && -2 <= dc <= 2
    ensures AlignAt(v, cr + dr, cc + dc)
      == Some(dr == -2 || dr == 2 || dc == -2 || dc == 2 || (dr == 0 && dc == 0))
  {
    hide Centres, AlignOver, AlignAround, CentreList, HasCentre;
    CentresForm(v);
    var i := CentreListed(v, cr, cc);
    var s := CentreList(v);
    AlignAroundIs(s[i], cr + dr, cc + dc);
    forall j | 0 <= j < |s| && j != i ensures AlignAround(s[j], cr + dr, cc + dc).None? {
      OtherCentres(v, i, j, cr + dr, cc + dc);
    }
    AlignOverOne(s, i, cr + dr, cc + dc);
  }

  lemma AlignShown(v: Version, cr: int, cc: int, dr: int, dc: int)
    requires HasCentre(v, cr, cc) && -2 <= dr <= 2 && -2 <= dc <= 2
    ensures FormatAt(v, cr + dr, cc + dc) == None && VersionAt(v, cr + dr, cc + dc) == None
      && !IsDark(v, cr + dr, cc + dc)
  {}

  /** Every alignment pattern: five by five modules, a dark frame and a dark centre. */
  lemma AlignmentPicture(g: Bitmap, v: Version, bits: seq<bool>, cr: int, cc: int, dr: int, dc: int)
    requires Shows(g, v, bits) && -2 <= dr <= 2 && -2 <= dc <= 2
    requires var m, x := 2 * v + 8, 4 * v + 10;
      || (v > 1 && cr == x && cc == x)
      || (v >= 7 && ((cr == 6 && cc == m) || (cr == m && cc == 6) || (cr == m && cc == m)
                     || (cr == m && cc == x) || (cr == x && cc == m)))
    ensures InSquare(g, 17 + 4 * v)
    ensures g[cr + dr][cc + dc] == (dr == -2 || dr == 2 || dc == -2 || dc == 2 || (dr == 0 && dc == 0))
  {
    hide Shows, FormatAt, AlignAt, VersionAt, IsDark;
    ShownSquare(g, v, bits);
    AlignValue(v, cr, cc, dr, dc);
    AlignShown(v, cr, cc, dr, dc);
    ShownIs(g, v, bits, cr + dr, cc + dc, dr == -2 || dr == 2 || dc == -2 || dc == 2 || (dr == 0 && dc == 0));
  }

  // ----- timing

  lemma TimingValue(v: Version, k: int, across: bool)
    requires 8 <= k < 9 + 4 * v
    ensures var r, c := if across then 6 else k, if across then k else 6;
      && FormatAt(v, r, c) == None && VersionAt(v, r, c) == None && !IsDark(v, r, c)
      && TimingAt(v, r, c) == Some(k % 2 == 0)
      && (AlignAt(v, r, c).Some? ==> AlignAt(v, r, c) == Some(k % 2 == 0))
  {
    hide AlignAt;
    var r, c := if across then 6 else k, if across then k else 6;
    AlignDrawn(v, r, c);
    if AlignAt(v, r, c).Some? {
      var m := 2 * v + 8;
      AlignValue(v, if across then 6 else m, if across then m else 6, if across then 0
        else k - m, if across then k - m else 0);
    }
  }

  /** The timing patterns: dark on even positions between the finders, through the alignment patterns too. */
  lemma TimingPicture(g: Bitmap, v: Version, bits: seq<bool>, k: int)
    requires Shows(g, v, bits) && 8 <= k < 9 + 4 * v
    ensures InSquare(g, 17 + 4 * v)
    ensures g[6][k] == (k % 2 == 0) && g[k][6] == (k % 2 == 0)
  {
    hide Shows, FormatAt, AlignAt, VersionAt, TimingAt, IsDark;
    ShownSquare(g, v, bits);
    TimingValue(v, k, true);
    ShownIs(g, v, bits, 6, k, k % 2 == 0);
    TimingValue(v, k, false);
    ShownIs(g, v, bits, k, 6, k % 2 == 0);
  }

  // ----- format word

  /** The fifteen bits of the format word for level L and mask 0, the lowest first. */
  const FORMAT_MODULES: seq<bool> :=
    [false, false, true, false, false, false, true, true, true, true, true, false, true, true, true]

  lemma FormatBitsAre(i: nat)
    requires i < 15
    ensures Bit(0x77C4, i) == FORMAT_MODULES[i]
  {
    BitIs(0x77C4, i);
    assert Pow2(0) == 1 && Pow2(1) == 2 && Pow2(2) == 4 && Pow2(3) == 8 && Pow2(4) == 16 && Pow2(5) == 32;
    assert Pow2(6) == 64 && Pow2(7) == 128 && Pow2(8) == 256 && Pow2(9) == 512 && Pow2(10) == 1024;
    assert Pow2(11) == 2048 && Pow2(12) == 4096 && Pow2(13) == 8192 && Pow2(14) == 16384;
  }

  lemma FirstCopyShown(v: Version, r: int, c: int, i: nat)
    requires i < 15 && 0 <= r < 9 && 0 <= c < 9
    requires FirstCopy(r, c) == Some(i)
    ensures FormatAt(v, r, c) == Some(Bit(0x77C4, i))
  {
    hide Bit;
  }

  lemma SecondCopyShown(v: Version, r: int, c: int, i: nat)
    requires i < 15 && SecondCopy(v, r, c) == Some(i)
    ensures FormatAt(v, r, c) == Some(Bit(0x77C4, i))
  {
    hide Bit;
  }

  /** Both copies of the format word, at the coordinates the generator writes. */
  lemma FormatPicture(g: Bitmap, v: Version, bits: seq<bool>, i: nat)
    requires Shows(g, v, bits) && i < 15
    ensures InSquare(g, 17 + 4 * v)
    ensures i < 6 ==> g[8][i] == FORMAT_MODULES[i]
    ensures i == 6 ==> g[8][7] == FORMAT_MODULES[i]
    ensures i == 7 ==> g[8][8] == FORMAT_MODULES[i]
    ensures i == 8 ==> g[7][8] == FORMAT_MODULES[i]
    ensures i > 8 ==> g[14 - i][8] == FORMAT_MODULES[i]
    ensures i < 8 ==> g[16 + 4 * v - i][8] == FORMAT_MODULES[i]
    ensures i >= 8 ==> g[8][2 + 4 * v + i] == FORMAT_MODULES[i]
  {
    hide Shows, FormatAt, PatternAt, Bit;
    ShownSquare(g, v, bits);
    FormatBitsAre(i);
    var r, c := if i < 8 then 8 else if i == 8 then 7 else 14 - i, if i < 6 then i else if i < 8 then i + 1 else 8;
    FirstCopyShown(v, r, c, i);
    ShownIs(g, v, bits, r, c, FORMAT_MODULES[i]);
    var p, q := if i < 8 then 16 + 4 * v - i else 8, if i < 8 then 8 else 2 + 4 * v + i;
    SecondCopyShown(v, p, q, i);
    ShownIs(g, v, bits, p, q, FORMAT_MODULES[i]);
  }

  // ----- version word

  lemma VersionShown(v: Version, r: int, c: int, i: nat)
    requires v >= 7 && i < 18
    requires (r == i / 3 && c == 6 + 4 * v + i % 3) || (c == i / 3 && r == 6 + 4 * v + i % 3)
    ensures FormatAt(v, r, c) == None && VersionAt(v, r, c) == Some(Bit(Bch.VersionBits(v), i))
  {
    hide Bit, Bch.VersionBits, VersionIndex, FormatAt;
    VersionCell(v, i, r, c);
    NoFormat(v, r, c);
  }

  lemma NoFormat(v: Version, r: int, c: int)
    requires (0 <= r < 6 && c > 8) || (0 <= c < 6 && r > 8)
    ensures FormatAt(v, r, c) == None
  {
    hide Bit;
  }

  /** Both blocks of the version word, from version 7 on. */
  lemma VersionPicture(g: Bitmap, v: Version, bits: seq<bool>, i: nat)
    requires Shows(g, v, bits) && v >= 7 && i < 18
    ensures InSquare(g, 17 + 4 * v)
    ensures var word := Bch.VersionBits(v);
      && g[i / 3][6 + 4 * v + i % 3] == ((word / Pow2(i)) % 2 == 1)
      && g[6 + 4 * v + i % 3][i / 3] == ((word / Pow2(i)) % 2 == 1)
  {
    hide Shows, FormatAt, VersionAt, Bit, Pow2, Bch.VersionBits, AlignAt, TimingAt, FinderAt;
    ShownSquare(g, v, bits);
    BitIs(Bch.VersionBits(v), i);
    VersionShown(v, i / 3, 6 + 4 * v + i % 3, i);
    ShownIs(g, v, bits, i / 3, 6 + 4 * v + i % 3, Bit(Bch.VersionBits(v), i));
    VersionShown(v, 6 + 4 * v + i % 3, i / 3, i);
    ShownIs(g, v, bits, 6 + 4 * v + i % 3, i / 3, Bit(Bch.VersionBits(v), i));
  }

  // ----- data

  /** Data module k shows bit k, flipped on even diagonals; modules past the bits show a light bit. */
  lemma DataPicture(g: Bitmap, v: Version, bits: seq<bool>, k: nat)
    requires Shows(g, v, bits) && k < |Slots(v)|
    ensures InSquare(g, 17 + 4 * v)
    ensures var cell := Slots(v)[k];
      && 0 <= cell.r < 17 + 4 * v && 0 <= cell.c < 17 + 4 * v
      && g[cell.r][cell.c] == ((k < |bits| && bits[k]) != ((cell.r + cell.c) % 2 == 0))
  {
    hide Slots, IsFunction;
  }

  // ----- the order of the data

  /**
    Where the walk meets a module: column pairs from the right, the timing
    column 6 left out, up and down by turns, the right module of a row first.
  */
  function Position(n: nat, cell: Cell): int {
    var p := if cell.c > 6 then (n - 1 - cell.c) / 2 else (n - 2 - cell.c) / 2;
    var row := if p % 2 == 0 then n - 1 - cell.r else cell.r;
    var left := if cell.c > 6 then cell.c % 2 else 1 - cell.c % 2;
    2 * n * p + 2 * row + left
  }

  lemma {:induction false} PairAt(size: nat, col: int, upward: bool, k: nat, j: nat)
    requires j < 2 * k
    ensures Pair(size, col, upward, k)[j] == Cell(if upward then size - 1 - j / 2 else j / 2, col - j % 2)
  {
    if j < 2 * (k - 1) {
      PairAt(size, col, upward, k - 1, j);
    }
  }

  lemma WalkStep(size: nat, col: int, upward: bool, i: nat)
    requires col > 0 && i < |Walk(size, col, upward)|
    ensures i < 2 * size ==> Walk(size, col, upward)[i] == Pair(size, PairColumn(col), upward, size)[i]
    ensures i >= 2 * size ==> i - 2 * size < |Walk(size, PairColumn(col) - 2, !upward)|
    ensures i >= 2 * size ==>
      Walk(size, col, upward)[i] == Walk(size, PairColumn(col) - 2, !upward)[i - 2 * size]
  {}

  /** Counting the pairs from column `col`, the p-th of the whole walk. */
  lemma {:induction false} WalkPosition(n: nat, col: int, p: nat, i: nat)
    requires n >= 9 && n % 2 == 1 && PairStart(col)
    requires col == if n - 1 - 2 * p >= 6 then n - 1 - 2 * p else n - 2 - 2 * p
    requires i < |Walk(n, col, p % 2 == 0)|
    ensures Position(n, Walk(n, col, p % 2 == 0)[i]) == 2 * n * p + i
    decreases i
  {
    hide Walk, Pair;
    NoWalk(n, col, p % 2 == 0);
    var c := PairColumn(col);
    WalkStep(n, col, p % 2 == 0, i);
    if i < 2 * n {
      PairAt(n, c, p % 2 == 0, n, i);
      PositionOfPair(n, c, p, i);
    } else {
      NextPair(n, p, i);
      WalkPosition(n, c - 2, p + 1, i - 2 * n);
    }
  }

  lemma NoWalk(n: nat, col: int, upward: bool)
    ensures col <= 0 ==> Walk(n, col, upward) == []
  {}

  lemma NextPair(n: nat, p: nat, i: nat)
    ensures 2 * n * (p + 1) + (i - 2 * n) == 2 * n * p + i
    ensures (p + 1) % 2 == 0 <==> p % 2 != 0
  {}

  lemma PositionOfPair(n: nat, c: int, p: nat, j: nat)
    requires n % 2 == 1 && j < 2 * n && c >= 1
    requires c == if n - 1 - 2 * p > 6 then n - 1 - 2 * p else n - 2 - 2 * p
    ensures Position(n, Cell(if p % 2 == 0 then n - 1 - j / 2 else j / 2, c - j % 2)) == 2 * n * p + j
  {
    PairParts(n, c, p, j % 2);
    assert j == 2 * (j / 2) + j % 2;
  }

  /** The pair of a column and which of its two columns it is. */
  lemma PairParts(n: nat, c: int, p: nat, e: nat)
    requires n % 2 == 1 && e < 2 && c >= 1
    requires c == if n - 1 - 2 * p > 6 then n - 1 - 2 * p else n - 2 - 2 * p
    ensures (if c - e > 6 then (n - 1 - (c - e)) / 2 else (n - 2 - (c - e)) / 2) == p
    ensures (if c - e > 6 then (c - e) % 2 else 1 - (c - e) % 2) == e
  {}

  lemma {:induction false} FilterOrder<T>(s: seq<T>, p: T -> bool, a: nat, b: nat) returns (i: nat, j: nat)
    requires a < b < |Filter(s, p)|
    ensures i < j < |s| && s[i] == Filter(s, p)[a] && s[j] == Filter(s, p)[b]
  {
    var init, f := s[..|s| - 1], Filter(s, p);
    if b < |Filter(init, p)| {
      i, j := FilterOrder(init, p, a, b);
    } else {
      FilterMember(init, p, f[a]);
      assert f[a] in Filter(init, p);
      i :| 0 <= i < |init| && init[i] == f[a];
      j := |s| - 1;
    }
  }

  /** Data modules stand in the order of their positions, which with the set of them fixes the sequence. */
  lemma DataOrder(v: Version, a: nat, b: nat)
    requires a < b < |Slots(v)|
    ensures Position(17 + 4 * v, Slots(v)[a]) < Position(17 + 4 * v, Slots(v)[b])
  {
    hide Walk, Filter, IsFunction, Position;
    var n: nat := 17 + 4 * v;
    var i, j := FilterOrder(Walk(n, n - 1, true), cell => !IsFunction(v, cell), a, b);
    WalkPosition(n, n - 1, 0, i);
    WalkPosition(n, n - 1, 0, j);
  }
}

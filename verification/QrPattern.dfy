/** What each function module shows before the format word is written. */
module QrPattern {
  import opened Binary
  import opened Codewords
  import opened Wrappers
  import opened Zigzag
  import opened QrLayout
  import Bch

  function Abs(x: int): nat {
    if x < 0 then -x else x
  }

  /** Ring number around a centre. */
  function Ring(dr: int, dc: int): nat {
    if Abs(dr) > Abs(dc) then Abs(dr) else Abs(dc)
  }

  /** A finder: dark core, light ring 2, dark ring 3, light separator. */
  function FinderAround(cr: int, cc: int, r: int, c: int): Option<bool> {
    var d := Ring(r - cr, c - cc);
    if d <= 4 then Some(d <= 1 || d == 3) else None
  }

  function FinderAt(v: Version, r: int, c: int): Option<bool> {
    OrElse(FinderAround(Size(v) - 4, 3, r, c),
           OrElse(FinderAround(3, Size(v) - 4, r, c), FinderAround(3, 3, r, c)))
  }

  function TimingAt(v: Version, r: int, c: int): Option<bool> {
    if c == 6 && 8 <= r < Size(v) - 8 then Some(r % 2 == 0)
    else if r == 6 && 8 <= c < Size(v) - 8 then Some(c % 2 == 0)
    else None
  }

  /** The centres in drawing order: row coordinate ar with the first k column coordinates. */
  function RowCentres(v: Version, ar: int, k: nat): seq<Cell>
    requires k <= |AlignCoords(v)|
  {
    if k == 0 then []
    else
      var ac := AlignCoords(v)[k - 1];
      RowCentres(v, ar, k - 1) + (if IsCorner(v, ar, ac) then [] else [Cell(ar, ac)])
  }

  function Centres(v: Version, k: nat): seq<Cell>
    requires k <= |AlignCoords(v)|
  {
    if k == 0 then []
    else Centres(v, k - 1) + RowCentres(v, AlignCoords(v)[k - 1], |AlignCoords(v)|)
  }

  /** An alignment pattern: dark centre, light ring 1, dark ring 2. */
  function AlignAround(centre: Cell, r: int, c: int): Option<bool> {
    var d := Ring(r - centre.r, c - centre.c);
    if d <= 2 then Some(d != 1) else None
  }

  function AlignOver(centres: seq<Cell>, r: int, c: int): Option<bool> {
    if centres == [] then None
    else OrElse(AlignAround(centres[|centres| - 1], r, c), AlignOver(centres[..|centres| - 1], r, c))
  }

  function AlignAt(v: Version, r: int, c: int): Option<bool> {
    AlignOver(Centres(v, |AlignCoords(v)|), r, c)
  }

  predicate IsDark(v: Version, r: int, c: int) {
    r == 4 * v + 9 && c == 8
  }

  /** The row and column set aside for the format word, next to the finders. */
  predicate IsReserved(v: Version, r: int, c: int) {
    || (r == 8 && (c < 9 || c >= Size(v) - 8) && c != 6)
    || (c == 8 && (r < 9 || r >= Size(v) - 8) && r != 6)
  }

  /** The version word, bit i at row i / 3 of the block left of the top right finder, and transposed. */
  function VersionIndex(v: Version, r: int, c: int): Option<nat> {
    var left := Size(v) - 11;
    if v < 7 then None
    else if 0 <= c < 6 && left <= r < left + 3 then Some(3 * c + (r - left))
    else if 0 <= r < 6 && left <= c < left + 3 then Some(3 * r + (c - left))
    else None
  }

  function VersionAt(v: Version, r: int, c: int): Option<bool> {
    var i := VersionIndex(v, r, c);
    if i.Some? then Some(Bit(Bch.VersionBits(v), i.value)) else None
  }

  /** Later drawing wins, except that a reserved module never overwrites. */
  function PatternAt(v: Version, r: int, c: int): Option<bool> {
    var drawn := OrElse(AlignAt(v, r, c), OrElse(TimingAt(v, r, c), FinderAt(v, r, c)));
    OrElse(VersionAt(v, r, c),
      if IsDark(v, r, c) then Some(true)
      else OrElse(drawn, if IsReserved(v, r, c) then Some(false) else None))
  }

  // ----- the drawn area is the function area of the layout

  function Kept(v: Version, ar: int, ac: int): seq<Cell> {
    if IsCorner(v, ar, ac) then [] else [Cell(ar, ac)]
  }

  lemma RowCentres2(v: Version, ar: int)
    requires |AlignCoords(v)| == 2
    ensures RowCentres(v, ar, 2) == Kept(v, ar, AlignCoords(v)[0]) + Kept(v, ar, AlignCoords(v)[1])
  {
    assert RowCentres(v, ar, 1) == Kept(v, ar, AlignCoords(v)[0]);
  }

  lemma RowCentres3(v: Version, ar: int)
    requires |AlignCoords(v)| == 3
    ensures RowCentres(v, ar, 3)
         == Kept(v, ar, AlignCoords(v)[0]) + Kept(v, ar, AlignCoords(v)[1]) + Kept(v, ar, AlignCoords(v)[2])
  {
    assert RowCentres(v, ar, 1) == Kept(v, ar, AlignCoords(v)[0]);
    assert RowCentres(v, ar, 2) == Kept(v, ar, AlignCoords(v)[0]) + Kept(v, ar, AlignCoords(v)[1]);
  }

  /** The centres, one by one. */
  function CentreList(v: Version): seq<Cell> {
    var x, m := 4 * v + 10, 2 * v + 8;
    if v == 1 then []
    else if v < 7 then [Cell(x, x)]
    else [Cell(6, m), Cell(m, 6), Cell(m, m), Cell(m, x), Cell(x, m), Cell(x, x)]
  }

  lemma CentresForm(v: Version)
    ensures Centres(v, |AlignCoords(v)|) == CentreList(v)
  {
    hide RowCentres;
    AlignCoordsForm(v);
    if v == 1 {
    } else if v < 7 {
      CentresForm2(v);
    } else {
      CentresForm3(v);
    }
  }

  lemma CentresForm2(v: Version)
    requires 1 < v < 7
    ensures Centres(v, 2) == CentreList(v)
  {
    hide RowCentres;
    AlignCoordsForm(v);
    RowCentres2(v, 6); RowCentres2(v, 4 * v + 10);
    assert Centres(v, 1) == RowCentres(v, 6, 2);
  }

  lemma CentresForm3(v: Version)
    requires v >= 7
    ensures Centres(v, 3) == CentreList(v)
  {
    hide RowCentres, Centres;
    AlignCoordsForm(v);
    var x, m := 4 * v + 10, 2 * v + 8;
    CentresUnfold3(v);
    RowCentres3(v, 6); RowCentres3(v, m); RowCentres3(v, x);
    assert RowCentres(v, 6, 3) == [Cell(6, m)];
    assert RowCentres(v, m, 3) == [Cell(m, 6), Cell(m, m), Cell(m, x)];
    assert RowCentres(v, x, 3) == [Cell(x, m), Cell(x, x)];
  }

  lemma CentresUnfold3(v: Version)
    requires v >= 7
    ensures |AlignCoords(v)| == 3
    ensures Centres(v, 3) == RowCentres(v, AlignCoords(v)[0], 3) + RowCentres(v, AlignCoords(v)[1], 3)
                             + RowCentres(v, AlignCoords(v)[2], 3)
  {
    hide RowCentres;
    AlignCoordsForm(v);
    assert Centres(v, 1) == RowCentres(v, AlignCoords(v)[0], 3);
    assert Centres(v, 2) == RowCentres(v, AlignCoords(v)[0], 3) + RowCentres(v, AlignCoords(v)[1], 3);
  }

  predicate Near(a: int, b: int) {
    a - 2 <= b <= a + 2
  }

  predicate InCorners(v: Version, r: int, c: int) {
    || (r < 9 && c < 9) || (r < 9 && c >= Size(v) - 8) || (r >= Size(v) - 8 && c < 9)
    || r == 6 || c == 6
  }

  predicate InAlign(v: Version, r: int, c: int) {
    var x, m := 4 * v + 10, 2 * v + 8;
    || (v > 1 && Near(x, r) && Near(x, c))
    || (v >= 7 && ((Near(6, r) && Near(m, c)) || (Near(m, r) && Near(6, c)) || (Near(m, r) && Near(m, c))
                   || (Near(m, r) && Near(x, c)) || (Near(x, r) && Near(m, c))))
  }

  predicate InVersion(v: Version, r: int, c: int) {
    var left := Size(v) - 11;
    v >= 7 && ((c < 6 && left <= r < left + 3) || (r < 6 && left <= c < left + 3))
  }

  lemma CornersDrawn(v: Version, r: int, c: int)
    requires 0 <= r < Size(v) && 0 <= c < Size(v)
    ensures InCorners(v, r, c) <==>
      FinderAt(v, r, c).Some? || TimingAt(v, r, c).Some? || IsDark(v, r, c) || IsReserved(v, r, c)
  {}

  lemma AlignDrawn(v: Version, r: int, c: int)
    ensures AlignAt(v, r, c).Some? <==> InAlign(v, r, c)
  {
    hide AlignOver, Centres;
    CentresForm(v);
    var s := CentreList(v);
    AlignOverMember(s, r, c);
    NearRing(v, r, c);
  }

  lemma NearRing(v: Version, r: int, c: int)
    ensures InAlign(v, r, c) <==> exists i :: 0 <= i < |CentreList(v)| && AlignAround(CentreList(v)[i], r, c).Some?
  {
    var x, m := 4 * v + 10, 2 * v + 8;
    var s := CentreList(v);
    if v == 1 {
    } else if v < 7 {
      assert s[0] == Cell(x, x);
    } else {
      assert s[0] == Cell(6, m) && s[1] == Cell(m, 6) && s[2] == Cell(m, m);
      assert s[3] == Cell(m, x) && s[4] == Cell(x, m) && s[5] == Cell(x, x);
    }
  }

  lemma RectsForm(v: Version, r: int, c: int)
    requires 0 <= r < Size(v) && 0 <= c < Size(v)
    ensures IsFunction(v, Cell(r, c)) <==> InCorners(v, r, c) || InAlign(v, r, c) || InVersion(v, r, c)
  {
    var qs := FunctionRects(v);
    var n, x, m := Size(v), 4 * v + 10, 2 * v + 8;
    assert qs[0] == Rect(0, 9, 0, 9) && qs[1] == Rect(0, 9, n - 8, 8) && qs[2] == Rect(n - 8, 8, 0, 9);
    assert qs[3] == Rect(6, 1, 9, n - 17) && qs[4] == Rect(9, n - 17, 6, 1);
    if v > 1 {
      assert qs[5] == Rect(x - 2, 5, x - 2, 5);
    }
    if v >= 7 {
      assert qs[6] == Rect(m - 2, 5, m - 2, 5) && qs[7] == Rect(m - 2, 5, x - 2, 5)
        && qs[8] == Rect(x - 2, 5, m - 2, 5);
      assert qs[9] == Rect(4, 2, m - 2, 5) && qs[10] == Rect(7, 2, m - 2, 5);
      assert qs[11] == Rect(m - 2, 5, 4, 2) && qs[12] == Rect(m - 2, 5, 7, 2);
      assert qs[13] == Rect(0, 6, n - 11, 3) && qs[14] == Rect(n - 11, 3, 0, 6);
    }
  }

  lemma {:induction false} AlignOverMember(centres: seq<Cell>, r: int, c: int)
    ensures AlignOver(centres, r, c).Some? <==>
      exists i :: 0 <= i < |centres| && AlignAround(centres[i], r, c).Some?
  {
    if centres != [] {
      AlignOverMember(centres[..|centres| - 1], r, c);
    }
  }

  /** Every module is drawn exactly when it lies in the function area. */
  lemma DrawnIffFunction(v: Version, r: int, c: int)
    requires 0 <= r < Size(v) && 0 <= c < Size(v)
    ensures PatternAt(v, r, c).Some? <==> IsFunction(v, Cell(r, c))
  {
    hide IsFunction, FinderAt, TimingAt, AlignAt, InCorners, InAlign, IsReserved, IsDark, Bit;
    CornersDrawn(v, r, c);
    AlignDrawn(v, r, c);
    RectsForm(v, r, c);
  }
}

/** Where the function patterns lie in a symbol of each version, and how many modules they leave for data. */
module QrLayout {
  import opened Codewords
  import opened OrderedDict
  import opened Zigzag

  function Size(v: Version): nat {
    17 + 4 * v
  }

  /** Row and column coordinates of the alignment patterns. */
  function AlignCoords(v: Version): seq<nat> {
    match v
    case 1 => []
    case 2 => [6, 18]
    case 3 => [6, 22]
    case 4 => [6, 26]
    case 5 => [6, 30]
    case 6 => [6, 34]
    case 7 => [6, 22, 38]
    case 8 => [6, 24, 42]
    case 9 => [6, 26, 46]
    case _ => [6, 28, 50]
  }

  /** Coordinates follow the version: the last one is Size - 7, a middle one 2v + 8. */
  lemma AlignCoordsForm(v: Version)
    ensures AlignCoords(v) == if v == 1 then [] else if v < 7 then [6, 4 * v + 10] else [6, 2 * v + 8, 4 * v + 10]
  {}

  /** Coordinate pairs where a finder stands instead of an alignment pattern. */
  predicate IsCorner(v: Version, ar: int, ac: int) {
    (ar == 6 && ac == 6) || (ar == 6 && ac == Size(v) - 7) || (ar == Size(v) - 7 && ac == 6)
  }

  // ----- the function area as disjoint rectangles

  /** Rows r .. r+h-1, columns c .. c+w-1. */
  datatype Rect = Rect(r: int, h: nat, c: int, w: nat) {
    predicate Has(cell: Cell) {
      r <= cell.r < r + h && c <= cell.c < c + w
    }

    predicate Apart(other: Rect) {
      r + h <= other.r || other.r + other.h <= r || c + w <= other.c || other.c + other.w <= c
    }

    function Area(): nat {
      h * w
    }

    ghost function Cells(): set<Cell> {
      set i, j | r <= i < r + h && c <= j < c + w :: Cell(i, j)
    }
  }

  lemma {:induction false} RowCount(i: int, c: int, w: nat)
    ensures |Rect(i, 1, c, w).Cells()| == w
  {
    var s := Rect(i, 1, c, w).Cells();
    if w == 0 {
      assert s == {};
    } else {
      RowCount(i, c, w - 1);
      assert s == Rect(i, 1, c, w - 1).Cells() + {Cell(i, c + w - 1)};
    }
  }

  lemma RowsSplit(q: Rect)
    requires q.h > 0
    ensures q.Cells() == Rect(q.r, q.h - 1, q.c, q.w).Cells() + Rect(q.r + q.h - 1, 1, q.c, q.w).Cells()
    ensures Rect(q.r, q.h - 1, q.c, q.w).Cells() !! Rect(q.r + q.h - 1, 1, q.c, q.w).Cells()
  {}

  lemma {:induction false} RectCount(q: Rect)
    ensures |q.Cells()| == q.Area()
    decreases q.h
  {
    if q.h == 0 {
      assert q.Cells() == {};
    } else {
      var rest := Rect(q.r, q.h - 1, q.c, q.w);
      var row := Rect(q.r + q.h - 1, 1, q.c, q.w);
      RectCount(rest);
      RowCount(q.r + q.h - 1, q.c, q.w);
      RowsSplit(q);
      AreaStep(q.h, q.w);
    }
  }

  lemma AreaStep(h: nat, w: nat)
    requires h > 0
    ensures h * w == (h - 1) * w + w
  {}

  ghost function Union(qs: seq<Rect>): set<Cell> {
    if qs == [] then {} else Union(qs[..|qs| - 1]) + qs[|qs| - 1].Cells()
  }

  function TotalArea(qs: seq<Rect>): nat {
    if qs == [] then 0 else TotalArea(qs[..|qs| - 1]) + qs[|qs| - 1].Area()
  }

  ghost predicate PairwiseApart(qs: seq<Rect>) {
    forall i, j :: 0 <= i < j < |qs| ==> qs[i].Apart(qs[j])
  }

  lemma {:induction false} UnionMember(qs: seq<Rect>, cell: Cell)
    ensures cell in Union(qs) <==> exists i :: 0 <= i < |qs| && qs[i].Has(cell)
  {
    if qs != [] {
      UnionMember(qs[..|qs| - 1], cell);
    }
  }

  lemma {:induction false} UnionCount(qs: seq<Rect>)
    requires PairwiseApart(qs)
    ensures |Union(qs)| == TotalArea(qs)
  {
    if qs != [] {
      var init, last := qs[..|qs| - 1], qs[|qs| - 1];
      UnionCount(init);
      RectCount(last);
      forall cell | cell in Union(init) ensures cell !in last.Cells() {
        UnionMember(init, cell);
      }
    }
  }

  function Corners(v: Version): seq<Rect> {
    var n := Size(v);
    [Rect(0, 9, 0, 9), Rect(0, 9, n - 8, 8), Rect(n - 8, 8, 0, 9), Rect(6, 1, 9, n - 17), Rect(9, n - 17, 6, 1)]
  }

  function Squares(v: Version): seq<Rect> {
    var x, m := 4 * v + 10, 2 * v + 8;
    [Rect(x - 2, 5, x - 2, 5), Rect(m - 2, 5, m - 2, 5), Rect(m - 2, 5, x - 2, 5), Rect(x - 2, 5, m - 2, 5)]
  }

  /** The alignment patterns astride the timing lines, then the version words. */
  function Edges(v: Version): seq<Rect> {
    var n, m := Size(v), 2 * v + 8;
    [Rect(4, 2, m - 2, 5), Rect(7, 2, m - 2, 5), Rect(m - 2, 5, 4, 2), Rect(m - 2, 5, 7, 2),
     Rect(0, 6, n - 11, 3), Rect(n - 11, 3, 0, 6)]
  }

  /** Finders, separators, format areas and timing; alignment; version words. */
  function FunctionRects(v: Version): seq<Rect> {
    if v == 1 then Corners(v)
    else if v < 7 then Corners(v) + [Rect(4 * v + 8, 5, 4 * v + 8, 5)]
    else Corners(v) + Squares(v) + Edges(v)
  }

  ghost predicate AllApart(ps: seq<Rect>, qs: seq<Rect>) {
    forall i, j :: 0 <= i < |ps| && 0 <= j < |qs| ==> ps[i].Apart(qs[j])
  }

  lemma ApartConcat(ps: seq<Rect>, qs: seq<Rect>)
    requires PairwiseApart(ps) && PairwiseApart(qs) && AllApart(ps, qs)
    ensures PairwiseApart(ps + qs)
  {}

  lemma ConcatApart(ps: seq<Rect>, ps': seq<Rect>, qs: seq<Rect>)
    requires AllApart(ps, qs) && AllApart(ps', qs)
    ensures AllApart(ps + ps', qs)
  {}

  lemma CornersApart(v: Version)
    ensures PairwiseApart(Corners(v))
    ensures v > 1 ==> PairwiseApart(Corners(v) + [Rect(4 * v + 8, 5, 4 * v + 8, 5)])
  {}

  lemma SquaresApart(v: Version)
    requires v >= 7
    ensures PairwiseApart(Squares(v)) && AllApart(Corners(v), Squares(v))
  {}

  lemma EdgesApart(v: Version)
    requires v >= 7
    ensures PairwiseApart(Edges(v)) && AllApart(Corners(v), Edges(v)) && AllApart(Squares(v), Edges(v))
  {}

  lemma RectsApart(v: Version)
    ensures PairwiseApart(FunctionRects(v))
  {
    hide Corners, Squares, Edges;
    CornersApart(v);
    if v >= 7 {
      SquaresApart(v);
      EdgesApart(v);
      ApartConcat(Corners(v), Squares(v));
      ConcatApart(Corners(v), Squares(v), Edges(v));
      ApartConcat(Corners(v) + Squares(v), Edges(v));
    }
  }

  predicate IsFunction(v: Version, cell: Cell) {
    exists i :: 0 <= i < |FunctionRects(v)| && FunctionRects(v)[i].Has(cell)
  }

  function Grid(v: Version): Rect {
    Rect(0, Size(v), 0, Size(v))
  }

  lemma RectsInGrid(v: Version, cell: Cell)
    ensures IsFunction(v, cell) ==> Grid(v).Has(cell)
  {}

  /** The modules left for data. */
  ghost function DataCells(v: Version): set<Cell> {
    set cell | cell in Grid(v).Cells() && !IsFunction(v, cell)
  }

  lemma DataCount(v: Version)
    ensures |DataCells(v)| == Size(v) * Size(v) - TotalArea(FunctionRects(v))
  {
    hide FunctionRects, Size, TotalArea;
    var qs, all := FunctionRects(v), Grid(v).Cells();
    RectsApart(v);
    UnionCount(qs);
    RectCount(Grid(v));
    forall cell ensures cell in Union(qs) <==> IsFunction(v, cell) { UnionMember(qs, cell); }
    forall cell | cell in Union(qs) ensures cell in all { RectsInGrid(v, cell); }
    assert all == DataCells(v) + Union(qs);
    assert DataCells(v) !! Union(qs);
  }

  lemma TotalAreaSnoc(qs: seq<Rect>, q: Rect)
    ensures TotalArea(qs + [q]) == TotalArea(qs) + q.Area()
  {
    assert (qs + [q])[..|qs|] == qs;
  }

  lemma {:induction false} TotalAreaConcat(ps: seq<Rect>, qs: seq<Rect>)
    ensures TotalArea(ps + qs) == TotalArea(ps) + TotalArea(qs)
  {
    if qs == [] {
      assert ps + qs == ps;
    } else {
      assert ps + qs == (ps + qs[..|qs| - 1]) + [qs[|qs| - 1]];
      TotalAreaConcat(ps, qs[..|qs| - 1]);
      TotalAreaSnoc(ps + qs[..|qs| - 1], qs[|qs| - 1]);
    }
  }

  lemma Area2(p: Rect, q: Rect)
    ensures TotalArea([p, q]) == p.Area() + q.Area()
  {
    assert [p, q] == [p] + [q];
    TotalAreaSnoc([p], q);
    TotalAreaSnoc([], p);
    assert [] + [p] == [p];
  }

  lemma Area4(a: Rect, b: Rect, c: Rect, d: Rect)
    ensures TotalArea([a, b, c, d]) == a.Area() + b.Area() + c.Area() + d.Area()
  {
    assert [a, b, c, d] == [a, b] + [c, d];
    TotalAreaConcat([a, b], [c, d]);
    Area2(a, b);
    Area2(c, d);
  }

  lemma FunctionArea(v: Version)
    ensures TotalArea(FunctionRects(v)) == 225 + 8 * v + (if v == 1 then 0 else if v < 7 then 25 else 176)
  {
    hide TotalArea;
    var c, s, e := Corners(v), Squares(v), Edges(v);
    assert c == [c[0], c[1], c[2], c[3]] + [c[4]];
    TotalAreaSnoc([c[0], c[1], c[2], c[3]], c[4]);
    Area4(c[0], c[1], c[2], c[3]);
    assert TotalArea(c) == 225 + 8 * v;
    if 1 < v < 7 {
      TotalAreaSnoc(c, Rect(4 * v + 8, 5, 4 * v + 8, 5));
    } else if v >= 7 {
      assert e == [e[0], e[1], e[2], e[3]] + [e[4], e[5]];
      Area4(s[0], s[1], s[2], s[3]);
      Area4(e[0], e[1], e[2], e[3]);
      Area2(e[4], e[5]);
      TotalAreaConcat([e[0], e[1], e[2], e[3]], [e[4], e[5]]);
      TotalAreaConcat(c + s, e);
      TotalAreaConcat(c, s);
    }
  }

  /** Modules that carry no codeword bit. */
  function RemainderBits(v: Version): nat {
    if 2 <= v < 7 then 7 else 0
  }

  /** The data modules hold every codeword bit, with 0 or 7 to spare. */
  lemma DataModules(v: Version)
    ensures |DataCells(v)| == 8 * Info(v).total + RemainderBits(v)
  {
    hide FunctionRects, TotalArea, DataCells;
    DataCount(v);
    FunctionArea(v);
  }

  // ----- the data modules in visiting order

  function Slots(v: Version): seq<Cell> {
    Filter(Walk(Size(v), Size(v) - 1, true), cell => !IsFunction(v, cell))
  }

  lemma TimingColumn(v: Version, r: int)
    requires 0 <= r < Size(v)
    ensures IsFunction(v, Cell(r, 6))
  {
    var n := Size(v);
    assert FunctionRects(v)[0] == Rect(0, 9, 0, 9);
    assert FunctionRects(v)[2] == Rect(n - 8, 8, 0, 9);
    assert FunctionRects(v)[4] == Rect(9, n - 17, 6, 1);
  }

  /** The zig-zag visits every data module exactly once and no other, so every codeword bit has its module. */
  lemma PlacementIsBijection(v: Version)
    ensures NoDup(Slots(v))
    ensures forall cell :: cell in Slots(v) <==> Grid(v).Has(cell) && !IsFunction(v, cell)
    ensures |Slots(v)| == 8 * Info(v).total + RemainderBits(v)
  {
    hide IsFunction, Walk, Filter;
    var n := Size(v);
    var free := (cell: Cell) => !IsFunction(v, cell);
    WalkNoDup(n, n - 1, true);
    FilterNoDup(Walk(n, n - 1, true), free);
    forall cell ensures cell in Slots(v) <==> Grid(v).Has(cell) && !IsFunction(v, cell) {
      FilterMember(Walk(n, n - 1, true), free, cell);
      WalkMember(n, n - 1, true, cell);
      if cell.c == 6 && 0 <= cell.r < n { TimingColumn(v, cell.r); }
    }
    NoDupCount(Slots(v));
    assert (set x | x in Slots(v)) == DataCells(v);
    DataModules(v);
  }
}

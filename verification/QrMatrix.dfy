/** The module matrix, drawn in place: function patterns, data in zig-zag order under mask 0, format word. */
module QrMatrix {
  import opened Binary
  import opened Codewords
  import opened Wrappers
  import opened OrderedDict
  import opened Zigzag
  import opened QrLayout
  import opened QrPattern

  type Bitmap = seq<seq<bool>>

  ghost predicate Square(g: Bitmap, n: nat) {
    |g| == n && forall r :: 0 <= r < n ==> |g[r]| == n
  }

  /** A module: whether it belongs to a function pattern, and whether it is dark. */
  datatype Module = Module(func: bool, dark: bool)

  function Overlay(p: Option<bool>, m: Module): Module {
    if p.Some? then Module(true, p.value) else m
  }

  // ----- the format word, at the coordinates the generator uses

  const FORMAT_WORD: nat := 0x77C4

  /** The copy around the top left finder: which bit a module shows. */
  function FirstCopy(r: int, c: int): Option<nat> {
    if r == 8 && 0 <= c < 6 then Some(c)
    else if r == 8 && c == 7 then Some(6)
    else if r == 8 && c == 8 then Some(7)
    else if r == 7 && c == 8 then Some(8)
    else if c == 8 && 0 <= r < 6 then Some(14 - r)
    else None
  }

  /** The copy split between the other two finders. */
  function SecondCopy(v: Version, r: int, c: int): Option<nat> {
    var n := Size(v);
    if c == 8 && n - 8 <= r < n then Some(n - 1 - r)
    else if r == 8 && n - 7 <= c < n then Some(c + 15 - n)
    else None
  }

  function FormatBit(i: Option<nat>): Option<bool> {
    if i.Some? then Some(Bit(FORMAT_WORD, i.value)) else None
  }

  function FormatAt(v: Version, r: int, c: int): Option<bool> {
    OrElse(FormatBit(SecondCopy(v, r, c)), FormatBit(FirstCopy(r, c)))
  }

  /** The format word is written on reserved modules only. */
  lemma FormatOnReserved(v: Version, r: int, c: int)
    requires 0 <= r < Size(v) && 0 <= c < Size(v) && FormatAt(v, r, c).Some?
    ensures IsReserved(v, r, c) && IsFunction(v, Cell(r, c))
  {
    RectsForm(v, r, c);
  }

  /** Bit 7 of the second copy falls on the dark module and leaves it dark. */
  lemma DarkModuleStaysDark(v: Version)
    ensures FormatAt(v, 4 * v + 9, 8) == Some(true)
  {
    Bit7();
  }

  lemma Bit7()
    ensures Bit(FORMAT_WORD, 7)
  {}

  /** Both copies hold all fifteen bits. */
  lemma FormatTwice(v: Version, i: nat)
    requires i < 15
    ensures exists r, c ::
      0 <= r < Size(v) && 0 <= c < Size(v) && FirstCopy(r, c) == Some(i) && SecondCopy(v, r, c) == None
    ensures exists r, c ::
      0 <= r < Size(v) && 0 <= c < Size(v) && SecondCopy(v, r, c) == Some(i) && FirstCopy(r, c) == None
  {
    var n := Size(v);
    var r1, c1 := if i < 8 then 8 else if i == 8 then 7 else 14 - i, if i < 6 then i else if i < 8 then i + 1 else 8;
    var r2, c2 := if i < 8 then n - 1 - i else 8, if i < 8 then 8 else n - 15 + i;
    assert FirstCopy(r1, c1) == Some(i) && SecondCopy(v, r1, c1) == None;
    assert SecondCopy(v, r2, c2) == Some(i) && FirstCopy(r2, c2) == None;
  }

  // ----- data bits

  /** The module shown for bit k: missing bits are light, and mask 0 flips even diagonals. */
  function DataModule(bits: seq<bool>, k: nat, cell: Cell): bool {
    (k < |bits| && bits[k]) != ((cell.r + cell.c) % 2 == 0)
  }

  class Matrix {
    const version: Version
    const size: nat
    var modules: Bitmap
    var isFunc: Bitmap

    ghost predicate Valid()
      reads this
    {
      size == Size(version) && Square(modules, size) && Square(isFunc, size)
    }

    ghost predicate In(r: int, c: int) {
      0 <= r < size && 0 <= c < size
    }

    ghost function At(r: int, c: int): Module
      requires Valid() && In(r, c)
      reads this
    {
      Module(isFunc[r][c], modules[r][c])
    }

    constructor (version: Version)
      ensures Valid() && this.version == version
      ensures forall r, c :: In(r, c) ==> At(r, c) == Module(false, false)
    {
      this.version := version;
      size := Size(version);
      var row: seq<bool> := seq(Size(version), _ => false);
      modules := seq(Size(version), _ => row);
      isFunc := seq(Size(version), _ => row);
    }

    method SetFunc(r: int, c: int, val: bool)
      requires Valid()
      modifies this
      ensures Valid()
      ensures forall i, j :: In(i, j) ==> At(i, j) == if i == r && j == c then Module(true, val) else old(At(i, j))
    {
      if 0 <= r < size && 0 <= c < size {
        modules := modules[r := modules[r][c := val]];
        isFunc := isFunc[r := isFunc[r][c := true]];
      }
    }

    method DrawFinder(fr: int, fc: int)
      requires Valid()
      modifies this
      ensures Valid()
      ensures forall i, j :: In(i, j) ==> At(i, j) == Overlay(FinderAround(fr + 3, fc + 3, i, j), old(At(i, j)))
    {
      for dr := -1 to 8
        invariant Valid()
        invariant forall i, j :: In(i, j) ==>
          At(i, j) == if i < fr + dr then Overlay(FinderAround(fr + 3, fc + 3, i, j), old(At(i, j))) else old(At(i, j))
      {
        for dc := -1 to 8
          invariant Valid()
          invariant forall i, j :: In(i, j) ==>
            At(i, j) == if i < fr + dr || (i == fr + dr && j < fc + dc)
                        then Overlay(FinderAround(fr + 3, fc + 3, i, j), old(At(i, j))) else old(At(i, j))
        {
          var r, c := fr + dr, fc + dc;
          if 0 <= r < size && 0 <= c < size {
            var inSquare := 0 <= dr <= 6 && 0 <= dc <= 6;
            var val := inSquare && (dr == 0 || dr == 6 || dc == 0 || dc == 6 || (2 <= dr <= 4 && 2 <= dc <= 4));
            SetFunc(r, c, val);
          }
        }
      }
    }

    method DrawFinders()
      requires Valid()
      modifies this
      ensures Valid()
      ensures forall i, j :: In(i, j) ==> At(i, j) == Overlay(FinderAt(version, i, j), old(At(i, j)))
    {
      DrawFinder(0, 0);
      DrawFinder(0, size - 7);
      DrawFinder(size - 7, 0);
    }

    method DrawTiming()
      requires Valid()
      modifies this
      ensures Valid()
      ensures forall i, j :: In(i, j) ==> At(i, j) == Overlay(TimingAt(version, i, j), old(At(i, j)))
    {
      for k := 8 to size - 8
        invariant Valid()
        invariant forall i, j :: In(i, j) ==>
          At(i, j) == if (i == 6 && j < k)
            || (j == 6 && i < k) then Overlay(TimingAt(version, i, j), old(At(i, j))) else old(At(i, j))
      {
        SetFunc(6, k, k % 2 == 0);
        SetFunc(k, 6, k % 2 == 0);
      }
    }

    method DrawAlignment(centre: Cell)
      requires Valid()
      modifies this
      ensures Valid()
      ensures forall i, j :: In(i, j) ==> At(i, j) == Overlay(AlignAround(centre, i, j), old(At(i, j)))
    {
      for dr := -2 to 3
        invariant Valid()
        invariant forall i, j :: In(i, j) ==>
          At(i, j) == if i < centre.r + dr then Overlay(AlignAround(centre, i, j), old(At(i, j))) else old(At(i, j))
      {
        for dc := -2 to 3
          invariant Valid()
          invariant forall i, j :: In(i, j) ==>
            At(i, j) == if i < centre.r + dr || (i == centre.r + dr && j < centre.c + dc)
                        then Overlay(AlignAround(centre, i, j), old(At(i, j))) else old(At(i, j))
        {
          var m := if Abs(dr) > Abs(dc) then Abs(dr) else Abs(dc);
          SetFunc(centre.r + dr, centre.c + dc, m == 0 || m == 2);
        }
      }
    }

    method DrawAlignmentRow(ar: int)
      requires Valid()
      modifies this
      ensures Valid()
      ensures forall i, j :: In(i, j) ==>
        At(i, j) == Overlay(AlignOver(RowCentres(version, ar, |AlignCoords(version)|), i, j), old(At(i, j)))
    {
      hide AlignAround, AlignOver, RowCentres, AlignCoords;
      var coords := AlignCoords(version);
      AlignOverNone();
      RowCentresNone(version, ar);
      for b := 0 to |coords|
        invariant Valid()
        invariant forall i, j :: In(i, j) ==>
          At(i, j) == Overlay(AlignOver(RowCentres(version, ar, b), i, j), old(At(i, j)))
      {
        var ac := coords[b];
        RowCentresNext(version, ar, b);
        if (ar == 6 && ac == 6) || (ar == 6 && ac == size - 7) || (ar == size - 7 && ac == 6) {
          continue;
        }
        DrawAlignment(Cell(ar, ac));
        AlignOverSnoc(RowCentres(version, ar, b), Cell(ar, ac));
      }
    }

    method DrawAlignments()
      requires Valid()
      modifies this
      ensures Valid()
      ensures forall i, j :: In(i, j) ==> At(i, j) == Overlay(AlignAt(version, i, j), old(At(i, j)))
    {
      hide AlignOver, RowCentres;
      var coords := AlignCoords(version);
      AlignOverNone();
      for a := 0 to |coords|
        invariant Valid()
        invariant forall i, j :: In(i, j) ==> At(i, j) == Overlay(AlignOver(Centres(version, a), i, j), old(At(i, j)))
      {
        DrawAlignmentRow(coords[a]);
        AlignOverConcat(Centres(version, a), RowCentres(version, coords[a], |coords|));
      }
    }

    /** The dark module, then the modules kept light for the format word. */
    method ReserveFormat()
      requires Valid()
      modifies this
      ensures Valid()
      ensures forall i, j :: In(i, j) ==>
        At(i, j) == if IsDark(version, i, j) then Module(true, true)
        else if old(At(i, j)).func || !IsReserved(version, i, j) then old(At(i, j))
        else Module(true, false)
    {
      SetFunc(4 * version + 9, 8, true);
      label dark:
      for k := 0 to 9
        invariant Valid()
        invariant forall i, j :: In(i, j) ==>
          At(i, j) == if ((i == 8 && j < k && j != 6) || (j == 8 && i < k && i != 6)) && !old@dark(At(i, j)).func
          then Module(true, false) else old@dark(At(i, j))
      {
        if k != 6 {
          if !isFunc[8][k] {
            SetFunc(8, k, false);
          }
          if !isFunc[k][8] {
            SetFunc(k, 8, false);
          }
        }
      }
      label near:
      for k := 0 to 8
        invariant Valid()
        invariant forall i, j :: In(i, j) ==>
          At(i, j) == if ((i == 8 && j >= size - k) || (j == 8 && i >= size - k)) && !old@near(At(i, j)).func
          then Module(true, false) else old@near(At(i, j))
      {
        if !isFunc[8][size - 1 - k] {
          SetFunc(8, size - 1 - k, false);
        }
        if !isFunc[size - 1 - k][8] {
          SetFunc(size - 1 - k, 8, false);
        }
      }
    }

    method SetVersionBit(k: nat, val: bool)
      requires Valid() && version >= 7 && k < 18
      modifies this
      ensures Valid()
      ensures forall i, j :: In(i, j) ==>
        At(i, j) == if VersionIndex(version, i, j) == Some(k) then Module(true, val) else old(At(i, j))
    {
      hide VersionIndex;
      var r, c := k / 3, size - 11 + k % 3;
      forall i, j | In(i, j)
        ensures VersionIndex(version, i, j) == Some(k) <==> (i == r && j == c) || (i == c && j == r)
      {
        VersionCell(version, k, i, j);
      }
      SetFunc(r, c, val);
      SetFunc(c, r, val);
    }

    method DrawVersion()
      requires Valid()
      modifies this
      ensures Valid()
      ensures forall i, j :: In(i, j) ==> At(i, j) == Overlay(VersionAt(version, i, j), old(At(i, j)))
    {
      hide Bit, VersionIndex, VersionAt, VersionBelow, Overlay;
      VersionFrom(version);
      if version >= 7 {
        var vbits := Bch.BchVersionBits(version);
        for k := 0 to 18
          invariant Valid()
          invariant forall i, j :: In(i, j) ==> At(i, j) == Overlay(VersionBelow(version, i, j, k), old(At(i, j)))
        {
          SetVersionBit(k, Bit(vbits, k));
          forall i, j | In(i, j) ensures At(i, j) == Overlay(VersionBelow(version, i, j, k + 1), old(At(i, j))) {
            VersionNext(version, k, i, j, old(At(i, j)));
          }
        }
      }
    }

    /** All function patterns. */
    method DrawPatterns()
      requires Valid() && forall r, c :: In(r, c) ==> At(r, c) == Module(false, false)
      modifies this
      ensures Valid()
      ensures forall i, j :: In(i, j) ==> At(i, j) == Overlay(PatternAt(version, i, j), Module(false, false))
    {
      hide FinderAt, TimingAt, AlignAt, VersionAt, IsReserved, IsDark;
      DrawFinders();
      DrawTiming();
      DrawAlignments();
      ReserveFormat();
      DrawVersion();
    }

    /** Mask 0 and the zig-zag: data bit k on the k-th data module. */
    method PlaceBit(bits: seq<bool>, k: nat, r: int, c: int)
      requires Valid() && In(r, c) && !At(r, c).func
      modifies this`modules
      ensures Valid()
      ensures forall i, j :: In(i, j) ==>
        At(i, j) == if i == r && j == c then Module(false, DataModule(bits, k, Cell(r, c))) else old(At(i, j))
    {
      var val := if k < |bits| then bits[k] else false;
      if (r + c) % 2 == 0 {
        val := !val;
      }
      modules := modules[r := modules[r][c := val]];
    }

    /** Function modules as drawn; the data modules among `done` hold their bits. */
    ghost predicate Placed(bits: seq<bool>, done: seq<Cell>)
      requires Valid()
      reads this
    {
      && (forall i, j :: In(i, j) ==> (At(i, j).func <==> IsFunction(version, Cell(i, j))))
      && (forall k :: 0 <= k < |Data(done)| ==>
            In(Data(done)[k].r, Data(done)[k].c)
            && At(Data(done)[k].r, Data(done)[k].c) == Module(false, DataModule(bits, k, Data(done)[k])))
    }

    function Data(done: seq<Cell>): seq<Cell> {
      Filter(done, cell => !IsFunction(version, cell))
    }

    method PlaceRow(bits: seq<bool>, bitIdx: nat, r: int, col: int, ghost done: seq<Cell>) returns (next: nat)
      requires Valid() && Placed(bits, done) && bitIdx == |Data(done)|
      requires In(r, col) && In(r, col - 1)
      requires NoDup(done + [Cell(r, col), Cell(r, col - 1)])
      modifies this`modules
      ensures Valid() && Placed(bits, done + [Cell(r, col), Cell(r, col - 1)])
      ensures next == |Data(done + [Cell(r, col), Cell(r, col - 1)])|
      ensures forall i, j :: In(i, j) && At(i, j).func ==> At(i, j) == old(At(i, j))
    {
      hide IsFunction, Filter;
      next := bitIdx;
      ghost var all := done + [Cell(r, col), Cell(r, col - 1)];
      ghost var visited := done;
      for d := 0 to 2
        invariant Valid() && Placed(bits, visited) && next == |Data(visited)|
        invariant visited == all[..|done| + d]
        invariant forall i, j :: In(i, j) && At(i, j).func ==> At(i, j) == old(At(i, j))
      {
        var c := col - d;
        ghost var cell := Cell(r, c);
        assert all[|done| + d] == cell && cell !in visited;
        FilterSnoc(visited, cell, x => !IsFunction(version, x));
        FilterMember(visited, x => !IsFunction(version, x), cell);
        if !isFunc[r][c] {
          assert !At(r, c).func;
          PlaceBit(bits, next, r, c);
          next := next + 1;
        } else {
          assert At(r, c).func;
        }
        visited := visited + [cell];
      }
      assert all[..|done| + 2] == all;
    }

    /** One column pair; `whole` starts with what has been placed and the pair. */
    method PlacePair(bits: seq<bool>, bitIdx: nat, col: int, upward: bool, ghost start: seq<Cell>,
        ghost whole: seq<Cell>)
      returns (next: nat)
      requires Valid() && Placed(bits, start) && bitIdx == |Data(start)|
      requires 0 < col < size
      requires NoDup(whole) && start + Pair(size, col, upward, size) <= whole
      modifies this`modules
      ensures Valid() && Placed(bits, start + Pair(size, col, upward, size))
      ensures next == |Data(start + Pair(size, col, upward, size))|
      ensures forall i, j :: In(i, j) && At(i, j).func ==> At(i, j) == old(At(i, j))
    {
      hide IsFunction, Pair, Filter;
      next := bitIdx;
      PairNone(size, col, upward);
      ghost var done := start;
      for k := 0 to size
        invariant Valid()
        invariant done == start + Pair(size, col, upward, k)
        invariant Placed(bits, done) && next == |Data(done)|
        invariant forall i, j :: In(i, j) && At(i, j).func ==> At(i, j) == old(At(i, j))
      {
        var r := if upward then size - 1 - k else k;
        ghost var more := done + [Cell(r, col), Cell(r, col - 1)];
        assert more == start + Pair(size, col, upward, k + 1) <= whole by {
          PairNext(size, col, upward, k);
          PairPrefix(size, col, upward, k + 1, size);
        }
        NoDupPrefix(more, whole);
        next := PlaceRow(bits, next, r, col, done);
        done := more;
      }
    }

    /** The whole zig-zag. */
    method PlaceData(bits: seq<bool>)
      requires Valid()
      requires forall i, j :: In(i, j) ==> (At(i, j).func <==> IsFunction(version, Cell(i, j)))
      modifies this`modules
      ensures Valid() && Placed(bits, Walk(size, size - 1, true))
      ensures forall i, j :: In(i, j) && At(i, j).func ==> At(i, j) == old(At(i, j))
    {
      hide IsFunction, Walk, Pair, Filter, Placed, Data, NoDup;
      var bitIdx := 0;
      var col := size - 1;
      var upward := true;
      ghost var whole := Walk(size, size - 1, true);
      WalkNoDup(size, size - 1, true);
      ghost var done: seq<Cell> := [];
      NonePlaced(bits);
      WalkEnds(size);
      while col > 0
        invariant Valid() && PairStart(col) && col < size
        invariant done + Walk(size, col, upward) == whole
        invariant Placed(bits, done) && bitIdx == |Data(done)|
        invariant forall i, j :: In(i, j) && At(i, j).func ==> At(i, j) == old(At(i, j))
        decreases col
      {
        WalkUnfold(size, col, upward);
        if col == 6 {
          col := col - 1;
        }
        ghost var pair := Pair(size, col, upward, size);
        Regroup(done, pair, Walk(size, col - 2, !upward));
        bitIdx := PlacePair(bits, bitIdx, col, upward, done, whole);
        done := done + pair;
        upward := !upward;
        col := col - 2;
      }
      assert done == whole;
    }

    lemma NonePlaced(bits: seq<bool>)
      requires Valid()
      requires forall i, j :: In(i, j) ==> (At(i, j).func <==> IsFunction(version, Cell(i, j)))
      ensures Data([]) == [] && Placed(bits, [])
    {
      hide IsFunction;
    }

    method WriteFirstCopy(fbits: nat)
      requires Valid() && fbits == FORMAT_WORD
      modifies this
      ensures Valid()
      ensures forall i, j :: In(i, j) ==> At(i, j) == Overlay(FormatBit(FirstCopy(i, j)), old(At(i, j)))
    {
      hide Bit;
      for k := 0 to 6
        invariant Valid()
        invariant forall i, j :: In(i, j) ==>
          At(i, j) == if i == 8 && j < k then Overlay(FormatBit(FirstCopy(i, j)), old(At(i, j))) else old(At(i, j))
      {
        SetFunc(8, k, Bit(fbits, k));
      }
      SetFunc(8, 7, Bit(fbits, 6));
      SetFunc(8, 8, Bit(fbits, 7));
      SetFunc(7, 8, Bit(fbits, 8));
      for k := 9 to 15
        invariant Valid()
        invariant forall i, j :: In(i, j) ==>
          At(i, j) == if (i == 8 && j <= 8) || (j == 8 && 14 - k < i <= 8)
                      then Overlay(FormatBit(FirstCopy(i, j)), old(At(i, j))) else old(At(i, j))
      {
        SetFunc(14 - k, 8, Bit(fbits, k));
      }
    }

    method WriteSecondCopy(fbits: nat)
      requires Valid() && fbits == FORMAT_WORD
      modifies this
      ensures Valid()
      ensures forall i, j :: In(i, j) ==> At(i, j) == Overlay(FormatBit(SecondCopy(version, i, j)), old(At(i, j)))
    {
      hide Bit;
      for k := 0 to 8
        invariant Valid()
        invariant forall i, j :: In(i, j) ==>
          At(i, j) == if j == 8 && i >= size - k
                      then Overlay(FormatBit(SecondCopy(version, i, j)), old(At(i, j))) else old(At(i, j))
      {
        SetFunc(size - 1 - k, 8, Bit(fbits, k));
      }
      for k := 8 to 15
        invariant Valid()
        invariant forall i, j :: In(i, j) ==>
          At(i, j) == if (i == 8 && size - 7 <= j < size - 15 + k) || (j == 8 && i >= size - 8)
                      then Overlay(FormatBit(SecondCopy(version, i, j)), old(At(i, j))) else old(At(i, j))
      {
        SetFunc(8, size - 15 + k, Bit(fbits, k));
      }
    }

    method WriteFormat()
      requires Valid()
      modifies this
      ensures Valid()
      ensures forall i, j :: In(i, j) ==> At(i, j) == Overlay(FormatAt(version, i, j), old(At(i, j)))
    {
      hide FirstCopy, SecondCopy, Bit;
      var fbits := Bch.BchFormatBits(1, 0);
      Bch.FormatWord();
      WriteFirstCopy(fbits);
      WriteSecondCopy(fbits);
    }

    /** The finished symbol without its quiet zone. */
    method Draw(bits: seq<bool>)
      requires Valid() && forall r, c :: In(r, c) ==> At(r, c) == Module(false, false)
      modifies this
      ensures Valid()
      ensures Shows(modules, version, bits)
    {
      hide PatternAt, FormatAt, IsFunction, Walk, Filter;
      DrawPatterns();
      forall i, j | In(i, j) ensures PatternAt(version, i, j).Some? <==> IsFunction(version, Cell(i, j)) {
        DrawnIffFunction(version, i, j);
      }
      PlaceData(bits);
      ghost var slots := Slots(version);
      assert slots == Data(Walk(size, size - 1, true));
      PlacementIsBijection(version);
      label placed:
      WriteFormat();
      forall i, j | In(i, j) && FormatAt(version, i, j).Some? ensures IsFunction(version, Cell(i, j)) {
        FormatOnReserved(version, i, j);
      }
      forall k | 0 <= k < |slots|
        ensures modules[slots[k].r][slots[k].c] == DataModule(bits, k, slots[k])
      {
        assert slots[k] in slots;
        assert old@placed(At(slots[k].r, slots[k].c)) == Module(false, DataModule(bits, k, slots[k]));
        assert FormatAt(version, slots[k].r, slots[k].c).None?;
        assert At(slots[k].r, slots[k].c) == Module(false, DataModule(bits, k, slots[k]));
      }
      forall r, c | In(r, c) && IsFunction(version, Cell(r, c))
        ensures modules[r][c] == OrElse(FormatAt(version, r, c), PatternAt(version, r, c)).value
      {
        assert At(r, c).dark == OrElse(FormatAt(version, r, c), PatternAt(version, r, c)).value;
      }
    }
  }

  /** Every module of a finished symbol: format word over patterns on function modules, data on the others. */
  ghost predicate Shows(g: Bitmap, v: Version, bits: seq<bool>) {
    && Square(g, Size(v))
    && (forall r, c :: 0 <= r < Size(v) && 0 <= c < Size(v) && IsFunction(v, Cell(r, c)) ==>
          OrElse(FormatAt(v, r, c), PatternAt(v, r, c)) == Some(g[r][c]))
    && (forall k :: 0 <= k < |Slots(v)| ==>
          Grid(v).Has(Slots(v)[k]) && g[Slots(v)[k].r][Slots(v)[k].c] == DataModule(bits, k, Slots(v)[k]))
  }

  lemma WalkEnds(size: nat)
    ensures size > 0 ==> forall col, upward :: col <= 0 ==> Walk(size, col, upward) == []
  {}

  lemma PairNone(size: nat, col: int, upward: bool)
    ensures Pair(size, col, upward, 0) == []
  {}

  lemma PairNext(size: nat, col: int, upward: bool, k: nat)
    ensures var r := if upward then size - 1 - k else k;
      Pair(size, col, upward, k + 1) == Pair(size, col, upward, k) + [Cell(r, col), Cell(r, col - 1)]
  {}

  lemma WalkUnfold(size: nat, col: int, upward: bool)
    requires col > 0
    ensures Walk(size, col, upward)
      == Pair(size, PairColumn(col), upward, size) + Walk(size, PairColumn(col) - 2, !upward)
  {}

  lemma VersionCell(v: Version, k: nat, i: int, j: int)
    requires v >= 7 && k < 18
    ensures var r, c := k / 3, Size(v) - 11 + k % 3;
      VersionIndex(v, i, j) == Some(k) <==> (i == r && j == c) || (i == c && j == r)
  {}

  /** The version bits below k as drawn so far. */
  function VersionBelow(v: Version, r: int, c: int, k: nat): Option<bool> {
    var i := VersionIndex(v, r, c);
    if i.Some? && i.value < k then VersionAt(v, r, c) else None
  }

  lemma VersionFrom(v: Version)
    ensures forall i, j, m :: Overlay(VersionBelow(v, i, j, 0), m) == m
    ensures forall i, j :: VersionBelow(v, i, j, 18) == VersionAt(v, i, j)
    ensures v < 7 ==> forall i, j, m :: Overlay(VersionAt(v, i, j), m) == m
  {}

  lemma VersionNext(v: Version, k: nat, r: int, c: int, m: Module)
    ensures Overlay(VersionBelow(v, r, c, k + 1), m) ==
      if VersionIndex(v, r, c) == Some(k) then Module(true, Bit(Bch.VersionBits(v), k))
        else Overlay(VersionBelow(v, r, c, k), m)
  {
    hide Bit;
  }

  lemma RowCentresNone(v: Version, ar: int)
    ensures RowCentres(v, ar, 0) == []
  {}

  lemma RowCentresNext(v: Version, ar: int, b: nat)
    requires b < |AlignCoords(v)|
    ensures RowCentres(v, ar, b + 1) ==
      if IsCorner(v, ar, AlignCoords(v)[b]) then RowCentres(v, ar, b)
        else RowCentres(v, ar, b) + [Cell(ar, AlignCoords(v)[b])]
  {}

  lemma Regroup(done: seq<Cell>, pair: seq<Cell>, rest: seq<Cell>)
    ensures done + (pair + rest) == (done + pair) + rest
    ensures done + pair <= done + (pair + rest)
  {}

  lemma AlignOverNone()
    ensures forall i, j :: AlignOver([], i, j) == None
  {}

  lemma {:induction false} AlignOverConcat(p: seq<Cell>, q: seq<Cell>)
    ensures forall i, j :: AlignOver(p + q, i, j) == OrElse(AlignOver(q, i, j), AlignOver(p, i, j))
  {
    if q == [] {
      assert p + q == p;
    } else {
      AlignOverConcat(p, q[..|q| - 1]);
      assert p + q == (p + q[..|q| - 1]) + [q[|q| - 1]];
      AlignOverSnoc(p + q[..|q| - 1], q[|q| - 1]);
    }
  }

  lemma AlignOverSnoc(centres: seq<Cell>, centre: Cell)
    ensures forall i, j ::
      AlignOver(centres + [centre], i, j) == OrElse(AlignAround(centre, i, j), AlignOver(centres, i, j))
  {
    assert (centres + [centre])[..|centres|] == centres;
  }
}

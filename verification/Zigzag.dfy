/** The order in which the data bits visit the modules: column pairs from the right, alternately upward and downward. */
module Zigzag {
  import opened OrderedDict

  datatype Cell = Cell(r: int, c: int)

  /** Column pair `col`, `col - 1`: its first k rows in the direction of travel. */
  function Pair(size: nat, col: int, upward: bool, k: nat): (cells: seq<Cell>)
    ensures |cells| == 2 * k
  {
    if k == 0 then []
    else
      var r := RowAt(size, upward, k - 1);
      Pair(size, col, upward, k - 1) + [Cell(r, col), Cell(r, col - 1)]
  }

  function RowAt(size: nat, upward: bool, k: nat): int {
    if upward then size - 1 - k else k
  }

  /** The column skipped by the vertical timing pattern shifts the pairs left of it. */
  function PairColumn(col: int): int {
    if col == 6 then 5 else col
  }

  /** The walk from column `col` leftwards. */
  function Walk(size: nat, col: int, upward: bool): seq<Cell>
    decreases if col > 0 then col else 0
  {
    if col <= 0 then []
    else Pair(size, PairColumn(col), upward, size) + Walk(size, PairColumn(col) - 2, !upward)
  }

  // ----- the walk visits every module outside column 6 exactly once

  /** Left of column 6 the pairs start at odd columns, elsewhere at even ones. */
  predicate PairStart(col: int) {
    if col >= 6 then col % 2 == 0 else col % 2 == 1 && col >= -1
  }

  lemma {:induction false} PairMember(size: nat, col: int, upward: bool, k: nat, cell: Cell)
    requires k <= size
    ensures cell in Pair(size, col, upward, k) <==>
      (cell.c == col || cell.c == col - 1) && 0 <= cell.r < size
      && (if upward then size - k <= cell.r else cell.r < k)
  {
    if k > 0 {
      PairMember(size, col, upward, k - 1, cell);
    }
  }

  lemma {:induction false} PairNoDup(size: nat, col: int, upward: bool, k: nat)
    requires k <= size
    ensures NoDup(Pair(size, col, upward, k))
  {
    if k > 0 {
      PairNoDup(size, col, upward, k - 1);
      var r := RowAt(size, upward, k - 1);
      PairMember(size, col, upward, k - 1, Cell(r, col));
      PairMember(size, col, upward, k - 1, Cell(r, col - 1));
      NoDupAppend(Pair(size, col, upward, k - 1), [Cell(r, col), Cell(r, col - 1)]);
    }
  }

  lemma NoDupAppend<T>(s: seq<T>, t: seq<T>)
    requires NoDup(s) && NoDup(t)
    requires forall x :: x in s ==> x !in t
    ensures NoDup(s + t)
  {
    var u := s + t;
    forall i, j | 0 <= i < j < |u| ensures u[i] != u[j] {
      if i < |s| <= j { assert s[i] in s && t[j - |s|] in t; }
    }
  }

  /** The walk reaches exactly the modules from `col` leftwards, except column 6. */
  lemma {:induction false} WalkMember(size: nat, col: int, upward: bool, cell: Cell)
    requires PairStart(col) && col < size
    ensures cell in Walk(size, col, upward) <==> 0 <= cell.r < size && 0 <= cell.c <= col && cell.c != 6
    decreases if col > 0 then col else 0
  {
    if col > 0 {
      var c := PairColumn(col);
      PairMember(size, c, upward, size, cell);
      WalkMember(size, c - 2, !upward, cell);
    }
  }

  lemma {:induction false} WalkNoDup(size: nat, col: int, upward: bool)
    requires PairStart(col) && col < size
    ensures NoDup(Walk(size, col, upward))
    decreases if col > 0 then col else 0
  {
    hide Pair;
    if col > 0 {
      var c := PairColumn(col);
      PairNoDup(size, c, upward, size);
      WalkNoDup(size, c - 2, !upward);
      forall cell | cell in Pair(size, c, upward, size) ensures cell !in Walk(size, c - 2, !upward) {
        PairMember(size, c, upward, size, cell);
        WalkMember(size, c - 2, !upward, cell);
      }
      NoDupAppend(Pair(size, c, upward, size), Walk(size, c - 2, !upward));
    }
  }

  lemma {:induction false} PairPrefix(size: nat, col: int, upward: bool, k: nat, n: nat)
    requires k <= n
    ensures Pair(size, col, upward, k) <= Pair(size, col, upward, n)
    decreases n
  {
    if k < n {
      PairPrefix(size, col, upward, k, n - 1);
    }
  }

  lemma NoDupPrefix<T>(s: seq<T>, t: seq<T>)
    requires NoDup(t) && s <= t
    ensures NoDup(s)
  {}

  // ----- filtering keeps order and distinctness

  function Filter<T>(s: seq<T>, p: T -> bool): seq<T> {
    if s == [] then []
    else Filter(s[..|s| - 1], p) + (if p(s[|s| - 1]) then [s[|s| - 1]] else [])
  }

  lemma {:induction false} FilterMember<T>(s: seq<T>, p: T -> bool, x: T)
    ensures x in Filter(s, p) <==> x in s && p(x)
  {
    if s != [] {
      FilterMember(s[..|s| - 1], p, x);
      assert s == s[..|s| - 1] + [s[|s| - 1]];
    }
  }

  lemma {:induction false} FilterNoDup<T>(s: seq<T>, p: T -> bool)
    requires NoDup(s)
    ensures NoDup(Filter(s, p))
  {
    if s != [] {
      var init, last := s[..|s| - 1], s[|s| - 1];
      FilterNoDup(init, p);
      FilterMember(init, p, last);
      if p(last) {
        NoDupAppend(Filter(init, p), [last]);
      }
    }
  }

  lemma FilterSnoc<T>(s: seq<T>, x: T, p: T -> bool)
    ensures Filter(s + [x], p) == Filter(s, p) + (if p(x) then [x] else [])
  {
    assert (s + [x])[..|s|] == s;
  }
}

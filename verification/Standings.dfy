/** The session tables read from the database: standings with gaps, and the session-best list. */
module Standings {
  import opened Wrappers
  import opened OrderedDict
  import opened Leaderboard

  /** A selected row: one rig of a session, its time and its lap count. */
  datatype Row = Row(rid: Id, timeMs: Option<int>, number: int)

  datatype Standing = Standing(position: nat, rid: Id, bestMs: int, gapMs: int, totalLaps: int)

  // ----- what the queries select

  /** The highest lap number among the counting laps of a key. */
  function LastLap(laps: seq<Lap>, k: Key): Option<int> {
    if laps == [] then None
    else
      var before, l := LastLap(laps[..|laps| - 1], k), laps[|laps| - 1];
      if Counts(l, k) && (before.None? || l.number > before.value) then Some(l.number) else before
  }

  lemma {:induction false} LastLapIs(laps: seq<Lap>, k: Key)
    ensures forall i :: 0 <= i < |laps| && Counts(laps[i], k) ==>
      LastLap(laps, k).Some? && laps[i].number <= LastLap(laps, k).value
    ensures LastLap(laps, k).Some? ==>
      exists i :: 0 <= i < |laps| && Counts(laps[i], k) && laps[i].number == LastLap(laps, k).value
  {
    if laps != [] {
      var init, l := laps[..|laps| - 1], laps[|laps| - 1];
      LastLapIs(init, k);
      assert laps == init + [l];
      if LastLap(laps, k) == LastLap(init, k) && LastLap(init, k).Some? {
        var i :| 0 <= i < |init| && Counts(init[i], k) && init[i].number == LastLap(init, k).value;
        assert laps[i] == init[i];
      }
    }
  }

  function GroupRow(laps: seq<Lap>, rid: Id, sid: Id): Row {
    var f, n := Fastest(laps, (rid, sid)), LastLap(laps, (rid, sid));
    Row(rid, if f.Some? then f.value.timeMs else None, if n.Some? then n.value else 0)
  }

  /** Counting laps of the session grouped by rig. */
  function LapRows(laps: seq<Lap>, sid: Id): set<Row> {
    set l | l in laps && Counts(l, (l.rid, sid)) :: GroupRow(laps, l.rid, sid)
  }

  function BestRows(best: map<Key, Best>, sid: Id): set<Row> {
    set k | k in best && k.1 == sid :: Row(k.0, best[k].timeMs, best[k].number)
  }

  function Timed(rows: set<Row>): set<Row> {
    set r | r in rows && Positive(r.timeMs)
  }

  /** Rows come from laps when the session has any, else from the index. */
  function Source(t: Tables, sid: Id): set<Row> {
    if LapRows(t.laps, sid) != {} then LapRows(t.laps, sid) else Timed(BestRows(t.best, sid))
  }

  // ----- ordering

  /** Null times go last. */
  predicate NotAfter(p: Row, q: Row) {
    q.timeMs.None? || (p.timeMs.Some? && p.timeMs.value <= q.timeMs.value)
  }

  ghost predicate Sorted(rows: seq<Row>) {
    forall i, j :: 0 <= i < j < |rows| ==> NotAfter(rows[i], rows[j])
  }

  ghost predicate Lists(rows: seq<Row>, from: set<Row>) {
    && |rows| == |from|
    && (forall r :: r in rows <==> r in from)
    && (forall i, j :: 0 <= i < j < |rows| ==> rows[i] != rows[j])
  }

  method FindPlace(rows: seq<Row>, r: Row) returns (at: nat)
    ensures at <= |rows| && (forall j :: at <= j < |rows| ==> !NotAfter(rows[j], r))
    ensures at > 0 ==> NotAfter(rows[at - 1], r)
  {
    at := |rows|;
    while at > 0 && !NotAfter(rows[at - 1], r)
      invariant 0 <= at <= |rows|
      invariant forall j :: at <= j < |rows| ==> !NotAfter(rows[j], r)
    {
      at := at - 1;
    }
  }

  lemma EmptyLists()
    ensures Sorted([]) && Lists([], {})
  {}

  /** Rows sorted by time; ties come in any order. */
  method OrderByTime(from: set<Row>) returns (rows: seq<Row>)
    ensures Sorted(rows) && Lists(rows, from)
  {
    hide Sorted, Placed, NotAfter, Lists;
    rows := [];
    var left := from;
    EmptyLists();
    assert from - left == {};
    while left != {}
      invariant left <= from
      invariant Sorted(rows) && Lists(rows, from - left)
    {
      var r :| r in left;
      var at := FindPlace(rows, r);
      PlaceKeeps(rows, from - left, r, at);
      rows := Placed(rows, r, at);
      assert from - left + {r} == from - (left - {r});
      left := left - {r};
    }
    assert from - left == from;
  }

  function Placed(rows: seq<Row>, r: Row, at: nat): (p: seq<Row>)
    requires at <= |rows|
    ensures |p| == |rows| + 1
    ensures forall j :: 0 <= j < |p| ==> p[j] == if j < at then rows[j] else if j == at then r else rows[j - 1]
  {
    rows[..at] + [r] + rows[at..]
  }

  lemma PlacedMembers(rows: seq<Row>, r: Row, at: nat)
    requires at <= |rows|
    ensures forall x :: x in Placed(rows, r, at) <==> x in rows || x == r
  {
    assert rows == rows[..at] + rows[at..];
  }

  lemma PlacedSorted(rows: seq<Row>, r: Row, at: nat)
    requires Sorted(rows) && at <= |rows|
    requires forall j :: at <= j < |rows| ==> !NotAfter(rows[j], r)
    requires at > 0 ==> NotAfter(rows[at - 1], r)
    ensures Sorted(Placed(rows, r, at))
  {
    var p := Placed(rows, r, at);
    assert forall j :: 0 <= j < at ==> NotAfter(rows[j], r);
    forall i, j | 0 <= i < j < |p| ensures NotAfter(p[i], p[j]) {}
  }

  lemma PlacedDistinct(rows: seq<Row>, r: Row, at: nat)
    requires at <= |rows| && r !in rows
    requires forall i, j :: 0 <= i < j < |rows| ==> rows[i] != rows[j]
    ensures forall i, j :: 0 <= i < j <= |rows| ==> Placed(rows, r, at)[i] != Placed(rows, r, at)[j]
  {}

  lemma PlaceKeeps(rows: seq<Row>, from: set<Row>, r: Row, at: nat)
    requires Sorted(rows) && Lists(rows, from) && r !in from && at <= |rows|
    requires forall j :: at <= j < |rows| ==> !NotAfter(rows[j], r)
    requires at > 0 ==> NotAfter(rows[at - 1], r)
    ensures Sorted(Placed(rows, r, at)) && Lists(Placed(rows, r, at), from + {r})
  {
    hide Sorted, NotAfter;
    PlacedSorted(rows, r, at);
    PlacedMembers(rows, r, at);
    PlacedDistinct(rows, r, at);
  }

  // ----- the two tables

  /** A line of the table shows a row. */
  predicate Shows(line: Standing, r: Row) {
    line.rid == r.rid && Some(line.bestMs) == r.timeMs && line.totalLaps == r.number
  }

  /** Positions 1..n over the source rows, best first, gaps to the leader. */
  ghost predicate IsTable(table: seq<Standing>, from: set<Row>) {
    && |table| == |from|
    && (forall r :: r in from ==>
         exists i :: 0 <= i < |table| && Shows(table[i], r))
    && (forall i :: 0 <= i < |table| ==> Row(table[i].rid, Some(table[i].bestMs), table[i].totalLaps) in from)
    && (forall i :: 0 <= i < |table| ==>
         table[i].position == i + 1 && table[i].gapMs == table[i].bestMs - table[0].bestMs)
    && (forall i, j :: 0 <= i < j < |table| ==> table[i].bestMs <= table[j].bestMs && table[i].rid != table[j].rid)
  }

  /** The standings of a session, absent when it has no timed rig. */
  method GetSessionStandings(t: Tables, sid: Id) returns (r: Option<seq<Standing>>)
    ensures r.None? <==> sid == "" || Source(t, sid) == {}
    ensures r.Some? ==> IsTable(r.value, Source(t, sid))
  {
    hide LapRows, BestRows;
    if sid == "" {
      return None;
    }
    var from := LapRows(t.laps, sid);
    if from == {} {
      from := Timed(BestRows(t.best, sid));
    }
    var rows := OrderByTime(from);
    SourceRows(t, sid);
    if rows == [] {
      return None;
    }
    var first := rows[0].timeMs.value;
    var drivers: seq<Standing> := [];
    for i := 0 to |rows|
      invariant |drivers| == i
      invariant forall j :: 0 <= j < i ==>
        drivers[j] == Standing(j + 1, rows[j].rid, rows[j].timeMs.value, rows[j].timeMs.value - first, rows[j].number)
    {
      var best := rows[i].timeMs.value;
      var gap := if best != 0 && first != 0 then best - first else 0;
      drivers := drivers + [Standing(i + 1, rows[i].rid, best, gap, rows[i].number)];
    }
    TableFromRows(rows, drivers, from);
    return Some(drivers);
  }

  /** Every selected row is timed, and no rig has two. */
  lemma SourceRows(t: Tables, sid: Id)
    ensures forall r :: r in Source(t, sid) ==> Positive(r.timeMs)
    ensures forall p, q :: p in Source(t, sid) && q in Source(t, sid) && p.rid == q.rid ==> p == q
  {
    LapRowsAre(t.laps, sid);
  }

  lemma LapRowsAre(laps: seq<Lap>, sid: Id)
    ensures forall r :: r in LapRows(laps, sid) ==>
      r == GroupRow(laps, r.rid, sid) && Positive(r.timeMs) && IsMinimum(laps, (r.rid, sid), r.timeMs.value)
    ensures forall l :: l in laps && Counts(l, (l.rid, sid)) ==> GroupRow(laps, l.rid, sid) in LapRows(laps, sid)
  {
    hide LastLap;
    forall r | r in LapRows(laps, sid)
      ensures r == GroupRow(laps, r.rid, sid) && Positive(r.timeMs) && IsMinimum(laps, (r.rid, sid), r.timeMs.value)
    {
      var l :| l in laps && Counts(l, (l.rid, sid)) && r == GroupRow(laps, l.rid, sid);
      GroupRowMinimum(laps, l, sid);
    }
  }

  lemma GroupRowMinimum(laps: seq<Lap>, l: Lap, sid: Id)
    requires l in laps && Counts(l, (l.rid, sid))
    ensures var r := GroupRow(laps, l.rid, sid);
      Positive(r.timeMs) && IsMinimum(laps, (l.rid, sid), r.timeMs.value)
  {
    hide LastLap;
    FastestIs(laps, (l.rid, sid));
    var i :| 0 <= i < |laps| && laps[i] == l;
    var f := Fastest(laps, (l.rid, sid)).value;
    var j :| 0 <= j < |laps| && laps[j] == f;
    assert KeyOf(laps[j]) == (l.rid, sid) && laps[j].timeMs == Some(f.timeMs.value);
  }

  lemma TableFromRows(rows: seq<Row>, table: seq<Standing>, from: set<Row>)
    requires Sorted(rows) && Lists(rows, from) && |table| == |rows| > 0
    requires forall r :: r in from ==> Positive(r.timeMs)
    requires forall p, q :: p in from && q in from && p.rid == q.rid ==> p == q
    requires forall j :: 0 <= j < |rows| ==>
      rows[j].timeMs.Some? && table[j]
        == Standing(j + 1, rows[j].rid, rows[j].timeMs.value, rows[j].timeMs.value - rows[0].timeMs.value,
          rows[j].number)
    ensures IsTable(table, from)
  {
    forall r | r in from
      ensures exists i :: 0 <= i < |table| && Shows(table[i], r)
    {
      var i :| 0 <= i < |rows| && rows[i] == r;
      assert table[i].rid == r.rid;
    }
    forall i | 0 <= i < |table| ensures Row(table[i].rid, Some(table[i].bestMs), table[i].totalLaps) in from {
      assert rows[i] in from;
    }
    forall i, j | 0 <= i < j < |table| ensures table[i].bestMs <= table[j].bestMs && table[i].rid != table[j].rid {
      assert NotAfter(rows[i], rows[j]) && rows[i] in from && rows[j] in from && rows[i] != rows[j];
    }
  }

  /** What the table says of the laps: one line per rig with a timed lap, its minimum and its lap count. */
  lemma StandingsMeaning(t: Tables, sid: Id, table: seq<Standing>, rid: Id)
    requires IsTable(table, Source(t, sid)) && LapRows(t.laps, sid) != {}
    ensures (exists i :: 0 <= i < |table| && table[i].rid == rid) <==> exists l :: l in t.laps && Counts(l, (rid, sid))
    ensures forall i :: 0 <= i < |table| && table[i].rid == rid ==>
      IsMinimum(t.laps, (rid, sid), table[i].bestMs) && LastLap(t.laps, (rid, sid)) == Some(table[i].totalLaps)
    ensures table != [] && table[0].gapMs == 0 && forall i, j :: 0 <= i < j < |table| ==>
      table[i].gapMs <= table[j].gapMs
  {
    hide Fastest, LastLap, GroupRow, LapRows;
    LapRowsAre(t.laps, sid);
    if l :| l in t.laps && Counts(l, (rid, sid)) {
      GroupRowRid(t.laps, l.rid, sid);
    }
    forall i | 0 <= i < |table| && table[i].rid == rid
      ensures (exists l :: l in t.laps && Counts(l, (rid, sid)))
      ensures IsMinimum(t.laps, (rid, sid), table[i].bestMs) && LastLap(t.laps, (rid, sid)) == Some(table[i].totalLaps)
    {
      RowLastLap(t.laps, sid, Row(rid, Some(table[i].bestMs), table[i].totalLaps));
    }
    NonEmptySource(t, sid, table);
  }

  lemma NonEmptySource(t: Tables, sid: Id, table: seq<Standing>)
    requires IsTable(table, Source(t, sid)) && LapRows(t.laps, sid) != {}
    ensures table != []
  {
    hide LapRows;
    var r :| r in Source(t, sid);
  }

  lemma GroupRowRid(laps: seq<Lap>, rid: Id, sid: Id)
    ensures GroupRow(laps, rid, sid).rid == rid
  {}

  lemma RowLastLap(laps: seq<Lap>, sid: Id, r: Row)
    requires r in LapRows(laps, sid)
    ensures LastLap(laps, (r.rid, sid)) == Some(r.number)
    ensures exists l :: l in laps && Counts(l, (r.rid, sid))
  {
    hide Fastest;
    var l :| l in laps && Counts(l, (l.rid, sid)) && r == GroupRow(laps, l.rid, sid);
    LastLapIs(laps, (l.rid, sid));
    var i :| 0 <= i < |laps| && laps[i] == l;
  }

  /** Positions count from 1, the best time comes first, gaps are to the first line, and no rig has two lines. */
  lemma TableLines(table: seq<Standing>, from: set<Row>, i: nat, j: nat)
    requires IsTable(table, from) && i < |table| && j < |table|
    ensures table[i].position == i + 1 && table[i].gapMs == table[i].bestMs - table[0].bestMs
    ensures i < j ==> table[i].bestMs <= table[j].bestMs
    ensures table[i].rid == table[j].rid ==> i == j
  {}

  /**
    From the laps, when the session has a timed one: a line for each rig with a timed
    lap in it, with the fastest time and the highest number among those, valid or not.
  */
  lemma StandingsFromLaps(t: Tables, sid: Id, table: seq<Standing>, timed: Lap, rid: Id)
    requires IsTable(table, Source(t, sid))
    requires timed in t.laps && timed.sid == sid && timed.timeMs.Some? && timed.timeMs.value > 0
    ensures (exists i :: 0 <= i < |table| && table[i].rid == rid)
      <==> exists l :: l in t.laps && l.rid == rid && l.sid == sid && l.timeMs.Some? && l.timeMs.value > 0
    ensures forall i :: 0 <= i < |table| && table[i].rid == rid ==>
      && (exists l :: l in t.laps && l.rid == rid && l.sid == sid && l.timeMs == Some(table[i].bestMs))
      && (exists l :: l in t.laps && l.rid == rid && l.sid == sid && l.timeMs.Some? && l.timeMs.value > 0
            && l.number == table[i].totalLaps)
      && forall l :: l in t.laps && l.rid == rid && l.sid == sid && l.timeMs.Some? && l.timeMs.value > 0 ==>
           table[i].bestMs <= l.timeMs.value && l.number <= table[i].totalLaps
  {
    hide LastLap, Fastest, LapRows, IsTable, Source;
    HasLapRow(t.laps, sid, timed);
    StandingsMeaning(t, sid, table, rid);
    LastLapIs(t.laps, (rid, sid));
    if l :| l in t.laps && Counts(l, (rid, sid)) {
      assert l.rid == rid && l.sid == sid;
    }
    forall i | 0 <= i < |table| && table[i].rid == rid
      ensures exists l :: l in t.laps && l.rid == rid && l.sid == sid && l.timeMs == Some(table[i].bestMs)
      ensures forall l :: l in t.laps && l.rid == rid && l.sid == sid && l.timeMs.Some? && l.timeMs.value > 0 ==>
        table[i].bestMs <= l.timeMs.value && l.number <= table[i].totalLaps
    {
      var j :| 0 <= j < |t.laps| && KeyOf(t.laps[j]) == (rid, sid) && t.laps[j].timeMs == Some(table[i].bestMs);
      assert t.laps[j] in t.laps;
      forall l | l in t.laps && l.rid == rid && l.sid == sid && l.timeMs.Some? && l.timeMs.value > 0
        ensures table[i].bestMs <= l.timeMs.value && l.number <= table[i].totalLaps
      {
        var m :| 0 <= m < |t.laps| && t.laps[m] == l;
        assert Counts(t.laps[m], (rid, sid));
      }
    }
  }

  lemma HasLapRow(laps: seq<Lap>, sid: Id, l: Lap)
    requires l in laps && l.sid == sid && l.timeMs.Some? && l.timeMs.value > 0
    ensures LapRows(laps, sid) != {}
  {
    hide GroupRow;
    assert Counts(l, (l.rid, sid));
    assert GroupRow(laps, l.rid, sid) in LapRows(laps, sid);
  }

  lemma IndexSource(t: Tables, sid: Id, r: Row)
    requires forall l :: l in t.laps && l.sid == sid ==> l.timeMs.None? || l.timeMs.value <= 0
    ensures r in Source(t, sid) <==>
      && (r.rid, sid) in t.best && r.timeMs == t.best[(r.rid, sid)].timeMs && r.number == t.best[(r.rid, sid)].number
      && r.timeMs.Some? && r.timeMs.value > 0
  {
    hide GroupRow;
    assert LapRows(t.laps, sid) == {};
    if (r.rid, sid) in t.best {
      var row := t.best[(r.rid, sid)];
      assert Row((r.rid, sid).0, row.timeMs, row.number) in BestRows(t.best, sid);
    }
  }

  /** Otherwise from the index: a line for each row of the session with a positive time, and what the row says. */
  lemma StandingsFromIndex(t: Tables, sid: Id, table: seq<Standing>, rid: Id)
    requires IsTable(table, Source(t, sid))
    requires forall l :: l in t.laps && l.sid == sid ==> l.timeMs.None? || l.timeMs.value <= 0
    ensures (exists i :: 0 <= i < |table| && table[i].rid == rid)
      <==> (rid, sid) in t.best && t.best[(rid, sid)].timeMs.Some? && t.best[(rid, sid)].timeMs.value > 0
    ensures forall i :: 0 <= i < |table| && table[i].rid == rid ==>
      && (rid, sid) in t.best && t.best[(rid, sid)].timeMs == Some(table[i].bestMs)
      && t.best[(rid, sid)].number == table[i].totalLaps
  {
    hide Source;
    if (rid, sid) in t.best && t.best[(rid, sid)].timeMs.Some? && t.best[(rid, sid)].timeMs.value > 0 {
      var r := Row(rid, t.best[(rid, sid)].timeMs, t.best[(rid, sid)].number);
      IndexSource(t, sid, r);
      var i :| 0 <= i < |table| && Shows(table[i], r);
    }
    forall i | 0 <= i < |table| && table[i].rid == rid
      ensures (rid, sid) in t.best && t.best[(rid, sid)].timeMs == Some(table[i].bestMs)
      ensures t.best[(rid, sid)].number == table[i].totalLaps && table[i].bestMs > 0
    {
      IndexSource(t, sid, Row(rid, Some(table[i].bestMs), table[i].totalLaps));
    }
  }

  /** A session has no standings exactly when neither a lap nor a row of it has a positive time. */
  lemma NoStandingsIff(t: Tables, sid: Id)
    ensures Source(t, sid) == {} <==>
      && (forall l :: l in t.laps && l.sid == sid ==> l.timeMs.None? || l.timeMs.value <= 0)
      && (forall rid :: (rid, sid) in t.best ==>
            t.best[(rid, sid)].timeMs.None? || t.best[(rid, sid)].timeMs.value <= 0)
  {
    hide Source, LapRows;
    if l :| l in t.laps && l.sid == sid && l.timeMs.Some? && l.timeMs.value > 0 {
      HasLapRow(t.laps, sid, l);
      LapRowsSource(t, sid);
    } else {
      forall r: Row ensures r in Source(t, sid) <==>
        && (r.rid, sid) in t.best && r.timeMs == t.best[(r.rid, sid)].timeMs
        && r.number == t.best[(r.rid, sid)].number && r.timeMs.Some? && r.timeMs.value > 0
      {
        IndexSource(t, sid, r);
      }
      if rid :| (rid, sid) in t.best && t.best[(rid, sid)].timeMs.Some? && t.best[(rid, sid)].timeMs.value > 0 {
        assert Row(rid, t.best[(rid, sid)].timeMs, t.best[(rid, sid)].number) in Source(t, sid);
      }
    }
  }

  lemma LapRowsSource(t: Tables, sid: Id)
    requires LapRows(t.laps, sid) != {}
    ensures Source(t, sid) != {}
  {}

  /** At most `limit` rows of the index, fastest first; a negative limit is no limit. */
  ghost predicate IsBestList(list: seq<Row>, from: set<Row>, limit: int) {
    && Sorted(list)
    && |list| == (if 0 <= limit < |from| then limit else |from|)
    && (forall r :: r in list ==> r in from)
    && (forall i, j :: 0 <= i < j < |list| ==> list[i] != list[j])
    && (forall r, p :: r in from && r !in list && p in list ==> NotAfter(p, r))
  }

  /** The latest lap that holds the time of an index row; a null time matches none. */
  function BestLap(laps: seq<Lap>, k: Key, time: Option<int>): Option<nat> {
    var i := Find(laps, (l: Lap) => time.Some? && KeyOf(l) == k && l.timeMs == time);
    if i.Some? then Some(laps[i.value].id) else None
  }

  /** The list, the session it is of, and the lap behind each row. */
  method GetSessionBest(t: Tables, sid: Id, limit: int) returns (list: seq<Row>, chosen: Id, lapIds: seq<Option<nat>>)
    ensures sid == "" && t.best == map[] ==> list == []
    ensures sid != "" || t.best != map[] ==> IsBestList(list, BestRows(t.best, chosen), limit)
    ensures sid != "" ==> chosen == sid
    ensures sid == "" && t.best != map[] ==>
      exists k :: k in t.best && k.1 == chosen && forall m :: m in t.best ==> t.best[m].timestamp <= t.best[k].timestamp
    ensures |lapIds| == |list| && forall i :: 0 <= i < |list| ==>
      lapIds[i] == BestLap(t.laps, (list[i].rid, chosen), list[i].timeMs)
  {
    hide BestRows, BestLap;
    chosen := sid;
    lapIds := [];
    if sid == "" {
      if t.best == map[] {
        return [], chosen, [];
      }
      chosen := Latest(t.best);
    }
    var rows := OrderByTime(BestRows(t.best, chosen));
    list := if 0 <= limit < |rows| then rows[..limit] else rows;
    CutIsBestList(rows, BestRows(t.best, chosen), limit);
    for i := 0 to |list|
      invariant |lapIds| == i && forall j :: 0 <= j < i ==>
        lapIds[j] == BestLap(t.laps, (list[j].rid, chosen), list[j].timeMs)
    {
      lapIds := lapIds + [BestLap(t.laps, (list[i].rid, chosen), list[i].timeMs)];
    }
  }

  /**
    The lines of the list: rows of the session's index with their time and number,
    fastest first and those without a time last, none twice; all of them unless
    there are more than the limit, and then none left out is faster.
  */
  lemma BestListLines(list: seq<Row>, best: map<Key, Best>, sid: Id, limit: int, rid: Id)
    requires IsBestList(list, BestRows(best, sid), limit)
    ensures forall i :: 0 <= i < |list| ==>
      && (list[i].rid, sid) in best && list[i].timeMs == best[(list[i].rid, sid)].timeMs
      && list[i].number == best[(list[i].rid, sid)].number
    ensures forall i, j :: 0 <= i < j < |list| ==>
      && list[i].rid != list[j].rid
      && (list[j].timeMs.Some? ==> list[i].timeMs.Some? && list[i].timeMs.value <= list[j].timeMs.value)
    ensures limit >= 0 ==> |list| <= limit
    ensures (rid, sid) in best ==>
      || (exists i :: 0 <= i < |list| && list[i].rid == rid)
      || (|list| == limit && (best[(rid, sid)].timeMs.Some? ==>
            forall i :: 0 <= i < |list| ==>
              list[i].timeMs.Some? && list[i].timeMs.value <= best[(rid, sid)].timeMs.value))
  {
    forall i | 0 <= i < |list|
      ensures (list[i].rid, sid) in best && list[i].timeMs == best[(list[i].rid, sid)].timeMs
      ensures list[i].number == best[(list[i].rid, sid)].number
    {
      assert list[i] in BestRows(best, sid);
    }
    if (rid, sid) in best {
      BestRowListed(list, best, sid, limit, Row((rid, sid).0, best[(rid, sid)].timeMs, best[(rid, sid)].number));
    }
  }

  lemma BestRowListed(list: seq<Row>, best: map<Key, Best>, sid: Id, limit: int, r: Row)
    requires IsBestList(list, BestRows(best, sid), limit)
    requires (r.rid, sid) in best && r == Row(r.rid, best[(r.rid, sid)].timeMs, best[(r.rid, sid)].number)
    ensures (exists i :: 0 <= i < |list| && list[i] == r)
      || (|list| == limit && forall i :: 0 <= i < |list| ==> NotAfter(list[i], r))
  {
    assert r == Row((r.rid, sid).0, best[(r.rid, sid)].timeMs, best[(r.rid, sid)].number);
    assert r in BestRows(best, sid);
    if |list| == |BestRows(best, sid)| {
      NoDupCount(list);
      var listed := set x | x in list;
      SubsetOfEqualSize(listed, BestRows(best, sid));
      assert r in listed;
    }
  }

  lemma {:induction false} OrderedAlways(ops: seq<Op>)
    ensures Ordered(Run(ops))
  {
    hide Ordered, Apply;
    if ops == [] {
      NoLaps();
    } else {
      OrderedAlways(ops[..|ops| - 1]);
      ApplyOrdered(Run(ops[..|ops| - 1]), ops[|ops| - 1]);
    }
  }

  lemma NoLaps()
    ensures Ordered(EMPTY)
  {}

  /** Over every run an index row has a lap behind it, the newest of those with its time. */
  lemma BestLapBehind(ops: seq<Op>, k: Key)
    requires Regular(ops) && k in Run(ops).best
    ensures var t := Run(ops);
      var id := BestLap(t.laps, k, t.best[k].timeMs);
      && id.Some?
      && (exists l :: l in t.laps && l.id == id.value && KeyOf(l) == k && l.timeMs == t.best[k].timeMs)
      && forall l :: l in t.laps && KeyOf(l) == k && l.timeMs == t.best[k].timeMs ==> l.id <= id.value
  {
    hide Run;
    var t := Run(ops);
    IndexedAlways(ops);
    OrderedAlways(ops);
    var row := t.best[k];
    var i :| 0 <= i < |t.laps| && KeyOf(t.laps[i]) == k && t.laps[i].timeMs == row.timeMs;
    LastMatch(t.laps, k, row.timeMs, i);
  }

  lemma LastMatch(laps: seq<Lap>, k: Key, time: Option<int>, i: nat)
    requires time.Some? && i < |laps| && KeyOf(laps[i]) == k && laps[i].timeMs == time
    requires forall a, b :: 0 <= a < b < |laps| ==> laps[a].id < laps[b].id
    ensures var id := BestLap(laps, k, time);
      && id.Some?
      && (exists l :: l in laps && l.id == id.value && KeyOf(l) == k && l.timeMs == time)
      && forall l :: l in laps && KeyOf(l) == k && l.timeMs == time ==> l.id <= id.value
  {
    var p := (l: Lap) => time.Some? && KeyOf(l) == k && l.timeMs == time;
    FindLast(laps, p);
    var at := Find(laps, p).value;
    forall l | l in laps && KeyOf(l) == k && l.timeMs == time ensures l.id <= laps[at].id {
      var j :| 0 <= j < |laps| && laps[j] == l;
      assert p(laps[j]);
    }
  }

  lemma CutIsBestList(rows: seq<Row>, from: set<Row>, limit: int)
    requires Sorted(rows) && Lists(rows, from)
    ensures IsBestList(if 0 <= limit < |rows| then rows[..limit] else rows, from, limit)
  {
    var list := if 0 <= limit < |rows| then rows[..limit] else rows;
    assert forall i :: 0 <= i < |list| ==> list[i] == rows[i];
    forall j | 0 <= j < |list| ensures rows[j] in list {
      assert rows[j] == list[j];
    }
    forall r, p | r in from && r !in list && p in list ensures NotAfter(p, r) {
      var i :| 0 <= i < |rows| && rows[i] == r;
      var j :| 0 <= j < |list| && list[j] == p;
    }
  }

  method Latest(best: map<Key, Best>) returns (sid: Id)
    requires best != map[]
    ensures exists k :: k in best && k.1 == sid && forall m :: m in best ==> best[m].timestamp <= best[k].timestamp
  {
    var k :| k in best;
    var left := best.Keys - {k};
    while left != {}
      invariant k in best && left <= best.Keys
      invariant forall m :: m in best && m !in left ==> best[m].timestamp <= best[k].timestamp
    {
      var m :| m in left;
      if best[m].timestamp > best[k].timestamp {
        k := m;
      }
      left := left - {m};
    }
    return k.1;
  }

  // ----- standings agree with the index

  ghost predicate InTable(table: seq<Standing>, rid: Id, time: int) {
    exists i :: 0 <= i < |table| && table[i].rid == rid && table[i].bestMs == time
  }

  ghost predicate InList(list: seq<Row>, rid: Id, time: int) {
    exists i :: 0 <= i < |list| && list[i].rid == rid && list[i].timeMs == Some(time)
  }

  /** Over every run of valid laps, with the limit not reached, both tables pair the same rigs with the same times. */
  lemma StandingsAgree(ops: seq<Op>, sid: Id, table: seq<Standing>, list: seq<Row>, limit: int, rid: Id, time: int)
    requires Regular(ops) && forall i :: 0 <= i < |ops| && ops[i].Recording? ==> ops[i].lap.valid
    requires IsTable(table, Source(Run(ops), sid))
    requires IsBestList(list, BestRows(Run(ops).best, sid), limit)
      && (limit < 0 || |BestRows(Run(ops).best, sid)| <= limit)
    ensures InTable(table, rid, time) <==> InList(list, rid, time)
  {
    hide Run, LapRows, BestRows, Source, IsMinimum;
    var t := Run(ops);
    IndexedAlways(ops);
    IndexExact(ops);
    FullList(list, BestRows(t.best, sid), limit);
    TimedPairs(table, Source(t, sid), rid, time);
    RowPairs(t, sid, rid, time);
  }

  lemma TimedPairs(table: seq<Standing>, from: set<Row>, rid: Id, time: int)
    requires IsTable(table, from)
    ensures InTable(table, rid, time) <==> exists n :: Row(rid, Some(time), n) in from
  {
    if n :| Row(rid, Some(time), n) in from {
      var i :| 0 <= i < |table| && Shows(table[i], Row(rid, Some(time), n));
    }
  }

  lemma FullList(list: seq<Row>, from: set<Row>, limit: int)
    requires IsBestList(list, from, limit) && (limit < 0 || |from| <= limit)
    ensures forall r :: r in list <==> r in from
  {
    NoDupCount(list);
    var listed := set r | r in list;
    SubsetOfEqualSize(listed, from);
  }

  lemma RowPairs(t: Tables, sid: Id, rid: Id, time: int)
    requires Indexed(t) && Exact(t)
    ensures (exists n :: Row(rid, Some(time), n) in Source(t, sid))
      <==> exists n :: Row(rid, Some(time), n) in BestRows(t.best, sid)
  {
    hide LapRows, BestRows, Indexed, Exact;
    if n :| Row(rid, Some(time), n) in BestRows(t.best, sid) {
      BestRowIsLapRow(t, sid, rid, time, n);
    }
    if n :| Row(rid, Some(time), n) in LapRows(t.laps, sid) {
      LapRowIsBestRow(t, sid, rid, time, n);
    }
  }

  lemma BestRowIsLapRow(t: Tables, sid: Id, rid: Id, time: int, n: int)
    requires Indexed(t) && Exact(t) && Row(rid, Some(time), n) in BestRows(t.best, sid)
    ensures exists m :: Row(rid, Some(time), m) in LapRows(t.laps, sid)
  {
    hide Fastest, LastLap, GroupRow, Witnessed;
    LapRowsAre(t.laps, sid);
    var k := (rid, sid);
    assert k in t.best && IsMinimum(t.laps, k, time);
    var i :| 0 <= i < |t.laps| && KeyOf(t.laps[i]) == k && t.laps[i].timeMs == Some(time);
    assert Counts(t.laps[i], (t.laps[i].rid, sid));
    GroupRowRid(t.laps, rid, sid);
    var row := GroupRow(t.laps, rid, sid);
    MinimumUnique(t.laps, k, time, row.timeMs.value);
    assert Row(rid, Some(time), row.number) == row;
  }

  lemma LapRowIsBestRow(t: Tables, sid: Id, rid: Id, time: int, n: int)
    requires Indexed(t) && Exact(t) && Row(rid, Some(time), n) in LapRows(t.laps, sid)
    ensures exists m :: Row(rid, Some(time), m) in BestRows(t.best, sid)
  {
    hide Fastest, LastLap, GroupRow, Witnessed;
    LapRowsAre(t.laps, sid);
    var k := (rid, sid);
    assert IsMinimum(t.laps, k, time);
    var i :| 0 <= i < |t.laps| && KeyOf(t.laps[i]) == k && t.laps[i].timeMs == Some(time);
    assert HasLap(t.laps, k) && k in t.best;
    MinimumUnique(t.laps, k, time, t.best[k].timeMs.value);
    assert Row(rid, Some(time), t.best[k].number) in BestRows(t.best, sid);
  }

  lemma MinimumUnique(laps: seq<Lap>, k: Key, a: int, b: int)
    requires IsMinimum(laps, k, a) && IsMinimum(laps, k, b) && a > 0 && b > 0
    ensures a == b
  {
    var i :| 0 <= i < |laps| && KeyOf(laps[i]) == k && laps[i].timeMs == Some(a);
    var j :| 0 <= j < |laps| && KeyOf(laps[j]) == k && laps[j].timeMs == Some(b);
    assert Counts(laps[i], k) && Counts(laps[j], k);
  }
}

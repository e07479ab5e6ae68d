/**
  What a row of the session-best index says beside its time: lap number,
  timestamp and driver, and what a deletion leaves.
*/
module IndexRows {
  import opened Wrappers
  import opened Leaderboard

  // ----- one operation

  /** Every lap is stored under the next id; only a valid one of a session touches the index, and only its own row. */
  lemma RecordEffect(t: Tables, l: Lap)
    ensures var u := Record(t, l);
      var k := (l.rid, l.sid);
      && u.laps == t.laps + [l.(id := t.nextId)] && u.nextId == t.nextId + 1
      && (!l.valid || l.sid == "" ==> u.best == t.best)
      && (l.valid && l.sid != "" ==>
            && u.best.Keys == t.best.Keys + {k}
            && (forall m :: m in t.best && m != k ==> u.best[m] == t.best[m])
            && (k !in t.best ==> u.best[k] == Best(l.timeMs, l.number, l.timestamp, l.driver)))
  {}

  /** A row keeps the fastest positive time and the highest number, and takes the newest timestamp and driver known. */
  lemma MergeEffect(t: Tables, l: Lap)
    requires l.valid && l.sid != "" && (l.rid, l.sid) in t.best
    ensures var k := (l.rid, l.sid);
      var was, row := t.best[k], Record(t, l).best[k];
      && (row.timeMs == was.timeMs || row.timeMs == l.timeMs)
      && (l.timeMs.Some? && l.timeMs.value > 0 ==>
            row.timeMs.Some? && 0 < row.timeMs.value <= l.timeMs.value)
      && (was.timeMs.Some? && was.timeMs.value > 0 ==>
            row.timeMs.Some? && 0 < row.timeMs.value <= was.timeMs.value)
      && row.number >= was.number && row.number >= l.number && (row.number == was.number || row.number == l.number)
      && row.timestamp == l.timestamp
      && row.driver == if l.driver.Some? then l.driver else was.driver
  {}

  /** A lap of the rig and session with a positive time. */
  predicate IsTimed(l: Lap, k: Key) {
    l.rid == k.0 && l.sid == k.1 && l.timeMs.Some? && l.timeMs.value > 0
  }

  /** The fastest of these, the first stored among equals. */
  ghost predicate FirstFastest(laps: seq<Lap>, k: Key, j: nat) {
    && j < |laps| && IsTimed(laps[j], k)
    && forall i :: 0 <= i < |laps| && IsTimed(laps[i], k) ==>
         laps[j].timeMs.value <= laps[i].timeMs.value && (i < j ==> laps[j].timeMs.value < laps[i].timeMs.value)
  }

  lemma {:induction false} FastestAt(laps: seq<Lap>, k: Key) returns (j: nat)
    ensures Fastest(laps, k).Some? ==> FirstFastest(laps, k, j) && laps[j] == Fastest(laps, k).value
    ensures Fastest(laps, k).None? ==>
      forall i :: 0 <= i < |laps| && (laps[i].rid, laps[i].sid) == k && laps[i].timeMs.Some? ==>
        laps[i].timeMs.value <= 0
  {
    j := 0;
    if laps != [] {
      var init, l := laps[..|laps| - 1], laps[|laps| - 1];
      j := FastestAt(init, k);
      assert forall i :: 0 <= i < |init| ==> init[i] == laps[i];
      if Counts(l, k) && (Fastest(init, k).None? || l.timeMs.value < Fastest(init, k).value.timeMs.value) {
        j := |init|;
      }
    }
  }

  /**
    A deletion takes one lap out, and its row is repaired from what is left, valid or
    not: dropped when nothing is, else given time, number and timestamp of the
    fastest lap. The driver stays, and so does every other row.
  */
  lemma DeleteEffect(t: Tables, at: nat) returns (j: nat)
    requires Ordered(t) && at < |t.laps| && t.laps[at].rid != "" && t.laps[at].sid != ""
    ensures var u := Delete(t, t.laps[at].id);
      var k := (t.laps[at].rid, t.laps[at].sid);
      && u.laps == t.laps[..at] + t.laps[at + 1..] && u.nextId == t.nextId
      && (forall m :: m != k ==> (m in u.best <==> m in t.best) && (m in t.best ==> u.best[m] == t.best[m]))
      && (k in u.best ==>
            && k in t.best && FirstFastest(u.laps, k, j)
            && u.best[k] == Best(u.laps[j].timeMs, u.laps[j].number, u.laps[j].timestamp, t.best[k].driver))
      && (k in t.best && k !in u.best ==> forall l :: l in u.laps ==> !IsTimed(l, k))
  {
    hide Fastest, FirstFastest;
    IdIndex(t, at);
    j := FastestAt(t.laps[..at] + t.laps[at + 1..], (t.laps[at].rid, t.laps[at].sid));
  }

  lemma IdIndex(t: Tables, at: nat)
    requires Ordered(t) && at < |t.laps|
    ensures LapIndex(t.laps, t.laps[at].id) == Some(at)
  {
    var i := LapIndex(t.laps, t.laps[at].id).value;
    assert !(i < at) && !(at < i);
  }

  // ----- a row over a run

  /** The operation records a valid lap of the rig and session. */
  predicate Hits(op: Op, k: Key) {
    op.Recording? && op.lap.valid && op.lap.rid == k.0 && op.lap.sid == k.1 && k.1 != ""
  }

  /** Between deletions only laps are recorded and marked. */
  ghost predicate Growing(ops: seq<Op>, m: nat) {
    m <= |ops| && forall i :: m <= i < |ops| ==> ops[i].Recording? || ops[i].Marking?
  }

  lemma RunLast(ops: seq<Op>, m: nat)
    requires m < |ops|
    ensures Run(ops) == Apply(Run(ops[..|ops| - 1]), ops[|ops| - 1]) && ops[..|ops| - 1][..m] == ops[..m]
  {
    hide Apply;
  }

  /** Since the last deletion: rows are those there were and those of rigs and sessions hit. */
  lemma {:induction false} RowExistsIff(ops: seq<Op>, m: nat, k: Key)
    requires Growing(ops, m)
    ensures k in Run(ops).best <==> k in Run(ops[..m]).best || exists i :: m <= i < |ops| && Hits(ops[i], k)
  {
    hide Run, Record;
    if m == |ops| {
      assert ops[..m] == ops;
    } else {
      var init, op := ops[..|ops| - 1], ops[|ops| - 1];
      RunLast(ops, m);
      RowExistsIff(init, m, k);
      if op.Recording? { RecordEffect(Run(init), op.lap); }
      assert forall i :: m <= i < |init| ==> init[i] == ops[i];
    }
  }

  /** Its number is the highest of those hits and the number there was. */
  lemma {:induction false} RowNumber(ops: seq<Op>, m: nat, k: Key)
    requires Growing(ops, m) && k in Run(ops).best
    ensures var b := Run(ops[..m]).best;
      var number := Run(ops).best[k].number;
      && (k in b ==> b[k].number <= number)
      && (forall i :: m <= i < |ops| && Hits(ops[i], k) ==> ops[i].lap.number <= number)
      && ((k in b && b[k].number == number)
           || exists i :: m <= i < |ops| && Hits(ops[i], k) && ops[i].lap.number == number)
  {
    hide Run, Record;
    if m == |ops| {
      assert ops[..m] == ops;
    } else {
      var init, op := ops[..|ops| - 1], ops[|ops| - 1];
      RunLast(ops, m);
      if k in Run(init).best { RowNumber(init, m, k); }
      RowExistsIff(init, m, k);
      if op.Recording? { RecordEffect(Run(init), op.lap); }
      if Hits(op, k) && k in Run(init).best { MergeEffect(Run(init), op.lap); }
      assert forall i :: m <= i < |init| ==> init[i] == ops[i];
    }
  }

  /** Its timestamp is that of the last hit. */
  lemma {:induction false} RowTimestamp(ops: seq<Op>, m: nat, k: Key, i: nat)
    requires Growing(ops, m) && m <= i < |ops| && Hits(ops[i], k)
    requires forall j :: i < j < |ops| ==> !Hits(ops[j], k)
    ensures k in Run(ops).best && Run(ops).best[k].timestamp == ops[i].lap.timestamp
  {
    hide Run, Record;
    var init, op := ops[..|ops| - 1], ops[|ops| - 1];
    RunLast(ops, m);
    if i < |init| { RowTimestamp(init, m, k, i); }
    if op.Recording? { RecordEffect(Run(init), op.lap); }
    if Hits(op, k) && k in Run(init).best { MergeEffect(Run(init), op.lap); }
  }

  /** Its driver is that of the last hit that named one. */
  lemma {:induction false} RowDriver(ops: seq<Op>, m: nat, k: Key, i: nat)
    requires Growing(ops, m) && m <= i < |ops| && Hits(ops[i], k) && ops[i].lap.driver.Some?
    requires forall j :: i < j < |ops| && Hits(ops[j], k) ==> ops[j].lap.driver.None?
    ensures k in Run(ops).best && Run(ops).best[k].driver == ops[i].lap.driver
  {
    hide Run, Record;
    var init, op := ops[..|ops| - 1], ops[|ops| - 1];
    RunLast(ops, m);
    if i < |init| { RowDriver(init, m, k, i); }
    if op.Recording? { RecordEffect(Run(init), op.lap); }
    if Hits(op, k) && k in Run(init).best { MergeEffect(Run(init), op.lap); }
  }

  /** Without a hit the row stays as it was. */
  lemma {:induction false} RowUntouched(ops: seq<Op>, m: nat, k: Key)
    requires Growing(ops, m) && k in Run(ops[..m]).best && forall j :: m <= j < |ops| ==> !Hits(ops[j], k)
    ensures k in Run(ops).best && Run(ops).best[k] == Run(ops[..m]).best[k]
  {
    hide Run, Record;
    if m == |ops| {
      assert ops[..m] == ops;
    } else {
      var init, op := ops[..|ops| - 1], ops[|ops| - 1];
      RunLast(ops, m);
      RowUntouched(init, m, k);
      if op.Recording? { RecordEffect(Run(init), op.lap); }
    }
  }
}

/** The laps table and the session-best table kept beside it. */
module Leaderboard {
  import opened OrderedDict
  import opened Wrappers

  type Id = string
  type Key = (Id, Id)

  /** A row of laps; the row id is assigned on insertion. */
  datatype Lap = Lap(id: nat, rid: Id, sid: Id, number: int, timeMs: Option<int>, valid: bool, synced: bool,
      source: string, timestamp: real, driver: Option<string>)

  /** A row of session_best, keyed by rig and session. */
  datatype Best = Best(timeMs: Option<int>, number: int, timestamp: real, driver: Option<string>)

  datatype Tables = Tables(laps: seq<Lap>, best: map<Key, Best>, nextId: nat)

  const EMPTY := Tables([], map[], 1)

  predicate Positive(t: Option<int>) {
    t.Some? && t.value > 0
  }

  function KeyOf(l: Lap): Key {
    (l.rid, l.sid)
  }

  predicate Counts(l: Lap, k: Key) {
    KeyOf(l) == k && Positive(l.timeMs)
  }

  // ----- inserting

  function Insert(t: Tables, l: Lap): Tables {
    t.(laps := t.laps + [l.(id := t.nextId)], nextId := t.nextId + 1)
  }

  /** The ON CONFLICT rule of the upsert. */
  function Merge(row: Best, l: Lap): Best {
    Best(if !Positive(row.timeMs) then l.timeMs
         else if Positive(l.timeMs) && l.timeMs.value < row.timeMs.value then l.timeMs
         else row.timeMs,
         if row.number >= l.number then row.number else l.number,
         l.timestamp,
         OrElse(l.driver, row.driver))
  }

  function Upsert(t: Tables, l: Lap): Tables {
    if l.sid == "" then t
    else t.(best := t.best[KeyOf(l) :=
      if KeyOf(l) in t.best then Merge(t.best[KeyOf(l)], l) else Best(l.timeMs, l.number, l.timestamp, l.driver)])
  }

  /** A valid lap is inserted and upserted, an invalid one only inserted. */
  function Record(t: Tables, l: Lap): Tables {
    if l.valid then Upsert(Insert(t, l), l) else Insert(t, l)
  }

  // ----- deleting

  function LapIndex(laps: seq<Lap>, id: nat): (k: Option<nat>)
    ensures k.Some? ==> k.value < |laps| && laps[k.value].id == id
    ensures k.None? ==> forall i :: 0 <= i < |laps| ==> laps[i].id != id
  {
    Find(laps, (l: Lap) => l.id == id)
  }

  /** The fastest counting lap of a key, the earliest row among equals. */
  function Fastest(laps: seq<Lap>, k: Key): (f: Option<Lap>)
    ensures f.Some? ==> f.value in laps && Counts(f.value, k)
  {
    if laps == [] then None
    else
      var before, l := Fastest(laps[..|laps| - 1], k), laps[|laps| - 1];
      if Counts(l, k) && (before.None? || l.timeMs.value < before.value.timeMs.value) then Some(l) else before
  }

  lemma {:induction false} FastestIs(laps: seq<Lap>, k: Key)
    ensures var f := Fastest(laps, k);
      forall i :: 0 <= i < |laps| && Counts(laps[i], k) ==> f.Some? && f.value.timeMs.value <= laps[i].timeMs.value
  {
    if laps != [] {
      FastestIs(laps[..|laps| - 1], k);
      assert laps == laps[..|laps| - 1] + [laps[|laps| - 1]];
    }
  }

  function Repair(laps: seq<Lap>, best: map<Key, Best>, k: Key): map<Key, Best> {
    var f := Fastest(laps, k);
    if f.None? then best - {k}
    else if k in best then
      best[k := best[k].(timeMs := f.value.timeMs, number := f.value.number, timestamp := f.value.timestamp)]
    else best
  }

  function Delete(t: Tables, id: nat): Tables {
    var i := LapIndex(t.laps, id);
    if i.None? then t
    else
      var gone := t.laps[i.value];
      var rest := t.laps[..i.value] + t.laps[i.value + 1..];
      t.(laps := rest, best := if gone.sid != "" && gone.rid != "" then Repair(rest, t.best, KeyOf(gone)) else t.best)
  }

  function Clear(t: Tables): Tables {
    t.(laps := [], best := map[])
  }

  // ----- the index over every run

  datatype Op = Recording(lap: Lap) | Deleting(id: nat) | Marking(ids: set<nat>) | Clearing

  function Apply(t: Tables, op: Op): Tables {
    match op
    case Recording(l) => Record(t, l)
    case Deleting(id) => Delete(t, id)
    case Marking(ids) => t.(laps := Mark(t.laps, ids))
    case Clearing => Clear(t)
  }

  function Run(ops: seq<Op>): Tables {
    if ops == [] then EMPTY else Apply(Run(ops[..|ops| - 1]), ops[|ops| - 1])
  }

  /** A lap as the heartbeat handler records it. */
  predicate Recordable(l: Lap) {
    l.rid != "" && l.sid != "" && Positive(l.timeMs)
  }

  ghost predicate Regular(ops: seq<Op>) {
    forall i :: 0 <= i < |ops| && ops[i].Recording? ==> Recordable(ops[i].lap)
  }

  ghost predicate Witnessed(laps: seq<Lap>, k: Key, row: Best) {
    exists i :: 0 <= i < |laps| && KeyOf(laps[i]) == k && laps[i].timeMs == row.timeMs
  }

  /**
    Every row carries the time of a stored lap of its rig and session, no valid
    lap is faster than its row, and every valid lap has a row.
  */
  ghost predicate Indexed(t: Tables) {
    && (forall i :: 0 <= i < |t.laps| ==> Recordable(t.laps[i]))
    && (forall k :: k in t.best ==> Positive(t.best[k].timeMs) && Witnessed(t.laps, k, t.best[k]))
    && (forall i :: 0 <= i < |t.laps| && t.laps[i].valid ==>
          KeyOf(t.laps[i]) in t.best && t.best[KeyOf(t.laps[i])].timeMs.value <= t.laps[i].timeMs.value)
  }

  lemma WitnessKept(laps: seq<Lap>, l: Lap, k: Key, row: Best)
    requires Witnessed(laps, k, row)
    ensures Witnessed(laps + [l], k, row)
  {
    var i :| 0 <= i < |laps| && KeyOf(laps[i]) == k && laps[i].timeMs == row.timeMs;
    assert (laps + [l])[i] == laps[i];
  }

  lemma RecordIndexed(t: Tables, l: Lap)
    requires Indexed(t) && Recordable(l)
    ensures Indexed(Record(t, l))
  {
    var u := Record(t, l);
    var stored := l.(id := t.nextId);
    assert u.laps == t.laps + [stored];
    assert u.laps[|t.laps|] == stored;
    forall k | k in u.best ensures Positive(u.best[k].timeMs) && Witnessed(u.laps, k, u.best[k]) {
      if k in t.best {
        WitnessKept(t.laps, stored, k, t.best[k]);
      }
    }
  }

  function Cut(laps: seq<Lap>, at: nat): seq<Lap>
    requires at < |laps|
  {
    laps[..at] + laps[at + 1..]
  }

  lemma CutLaps(laps: seq<Lap>, at: nat)
    requires at < |laps|
    ensures forall i :: 0 <= i < |laps| - 1 ==> Cut(laps, at)[i] == laps[if i < at then i else i + 1]
  {}

  /** Rows of other keys keep their witness when a lap is cut. */
  lemma CutWitness(laps: seq<Lap>, at: nat, k: Key, row: Best)
    requires at < |laps| && Witnessed(laps, k, row) && k != KeyOf(laps[at])
    ensures Witnessed(Cut(laps, at), k, row)
  {
    var i :| 0 <= i < |laps| && KeyOf(laps[i]) == k && laps[i].timeMs == row.timeMs;
    assert Cut(laps, at)[if i < at then i else i - 1] == laps[i];
  }

  lemma RepairedRow(laps: seq<Lap>, best: map<Key, Best>, k: Key)
    ensures k in Repair(laps, best, k) ==>
      Positive(Repair(laps, best, k)[k].timeMs) && Witnessed(laps, k, Repair(laps, best, k)[k])
      && (forall i :: 0 <= i < |laps| && Counts(laps[i], k) ==>
           Repair(laps, best, k)[k].timeMs.value <= laps[i].timeMs.value)
    ensures k in best && (exists i :: 0 <= i < |laps| && Counts(laps[i], k)) ==> k in Repair(laps, best, k)
    ensures forall m :: m != k ==>
      (m in Repair(laps, best, k) <==> m in best) && (m in best ==> Repair(laps, best, k)[m] == best[m])
  {
    FastestIs(laps, k);
    var f := Fastest(laps, k);
    if f.Some? {
      var i :| 0 <= i < |laps| && laps[i] == f.value;
      assert KeyOf(laps[i]) == k && laps[i].timeMs == f.value.timeMs;
    }
  }

  lemma DeleteIndexed(t: Tables, id: nat)
    requires Indexed(t)
    ensures Indexed(Delete(t, id))
  {
    hide Repair, Fastest, Cut, Witnessed;
    var at := LapIndex(t.laps, id);
    if at.Some? {
      var gone := t.laps[at.value];
      var k, rest := KeyOf(gone), Cut(t.laps, at.value);
      DeleteForm(t, id);
      CutLaps(t.laps, at.value);
      CutLength(t.laps, at.value);
      RepairedRow(rest, t.best, k);
      var best := Repair(rest, t.best, k);
      forall m | m in best ensures Positive(best[m].timeMs) && Witnessed(rest, m, best[m]) {
        if m != k { CutWitness(t.laps, at.value, m, t.best[m]); }
      }
      forall i | 0 <= i < |rest| && rest[i].valid
        ensures KeyOf(rest[i]) in best && best[KeyOf(rest[i])].timeMs.value <= rest[i].timeMs.value
      {
        assert rest[i] == t.laps[if i < at.value then i else i + 1];
        if KeyOf(rest[i]) == k { assert Counts(rest[i], k); }
      }
    }
  }

  lemma CutLength(laps: seq<Lap>, at: nat)
    requires at < |laps|
    ensures |Cut(laps, at)| == |laps| - 1
  {}

  lemma DeleteForm(t: Tables, id: nat)
    requires LapIndex(t.laps, id).Some? && Recordable(t.laps[LapIndex(t.laps, id).value])
    ensures var at := LapIndex(t.laps, id).value;
      var rest := Cut(t.laps, at);
      Delete(t, id) == t.(laps := rest, best := Repair(rest, t.best, KeyOf(t.laps[at])))
  {}

  lemma MarkIndexed(t: Tables, ids: set<nat>)
    requires Indexed(t)
    ensures Indexed(t.(laps := Mark(t.laps, ids)))
  {
    var marked := Mark(t.laps, ids);
    forall k | k in t.best ensures Witnessed(marked, k, t.best[k]) {
      var i :| 0 <= i < |t.laps| && KeyOf(t.laps[i]) == k && t.laps[i].timeMs == t.best[k].timeMs;
      assert KeyOf(marked[i]) == k && marked[i].timeMs == t.best[k].timeMs;
    }
  }

  /** Over every run of recorded laps, deletions, sync marks and clearing. */
  lemma {:induction false} IndexedAlways(ops: seq<Op>)
    requires Regular(ops)
    ensures Indexed(Run(ops))
  {
    if ops != [] {
      var init, op := ops[..|ops| - 1], ops[|ops| - 1];
      IndexedAlways(init);
      match op
      case Recording(l) => RecordIndexed(Run(init), l);
      case Deleting(id) => DeleteIndexed(Run(init), id);
      case Marking(ids) => MarkIndexed(Run(init), ids);
      case Clearing =>
    }
  }

  /** The fastest time of a key over the laps a filter admits. */
  ghost predicate IsMinimum(laps: seq<Lap>, k: Key, time: int) {
    && (exists i :: 0 <= i < |laps| && KeyOf(laps[i]) == k && laps[i].timeMs == Some(time))
    && (forall i :: 0 <= i < |laps| && Counts(laps[i], k) ==> time <= laps[i].timeMs.value)
  }

  ghost predicate AllValid(laps: seq<Lap>) {
    forall i :: 0 <= i < |laps| ==> laps[i].valid
  }

  ghost predicate HasLap(laps: seq<Lap>, k: Key) {
    exists i :: 0 <= i < |laps| && KeyOf(laps[i]) == k
  }

  /** With valid laps only, the index is exact: a row for a rig and session iff it has a lap, holding the minimum. */
  ghost predicate Exact(t: Tables) {
    forall k :: (k in t.best <==> HasLap(t.laps, k))
      && (k in t.best ==> t.best[k].timeMs.Some? && IsMinimum(t.laps, k, t.best[k].timeMs.value))
  }

  lemma ValidLapsExact(t: Tables)
    requires Indexed(t) && AllValid(t.laps)
    ensures Exact(t)
  {
    forall k | k in t.best ensures HasLap(t.laps, k) && IsMinimum(t.laps, k, t.best[k].timeMs.value) {
      var i :| 0 <= i < |t.laps| && KeyOf(t.laps[i]) == k && t.laps[i].timeMs == t.best[k].timeMs;
    }
  }

  lemma {:induction false} OnlyValidStored(ops: seq<Op>)
    requires forall i :: 0 <= i < |ops| && ops[i].Recording? ==> ops[i].lap.valid
    ensures AllValid(Run(ops).laps)
  {
    if ops != [] {
      OnlyValidStored(ops[..|ops| - 1]);
    }
  }

  /** Every run of valid laps, deletions, sync marks and clearing leaves the index exact. */
  lemma IndexExact(ops: seq<Op>)
    requires Regular(ops) && forall i :: 0 <= i < |ops| && ops[i].Recording? ==> ops[i].lap.valid
    ensures Exact(Run(ops))
  {
    IndexedAlways(ops);
    OnlyValidStored(ops);
    ValidLapsExact(Run(ops));
  }

  /** With invalid laps too, a row lies between the minimum over all laps and the minimum over valid laps. */
  lemma IndexBetween(ops: seq<Op>, k: Key, all: int)
    requires Regular(ops) && k in Run(ops).best && IsMinimum(Run(ops).laps, k, all)
    ensures var t := Run(ops);
      && Witnessed(t.laps, k, t.best[k]) && Positive(t.best[k].timeMs)
      && all <= t.best[k].timeMs.value
      && (forall i :: 0 <= i < |t.laps| && t.laps[i].valid && Counts(t.laps[i], k) ==>
           t.best[k].timeMs.value <= t.laps[i].timeMs.value)
  {
    IndexedAlways(ops);
  }

  // ----- the index of valid laps

  predicate IsValidOf(l: Lap, k: Key) {
    KeyOf(l) == k && l.valid
  }

  predicate HasValid(laps: seq<Lap>, k: Key) {
    exists i :: 0 <= i < |laps| && IsValidOf(laps[i], k)
  }

  predicate HasValidTime(laps: seq<Lap>, k: Key, time: Option<int>) {
    exists i :: 0 <= i < |laps| && IsValidOf(laps[i], k) && laps[i].timeMs == time
  }

  /** The key has a row iff it has a valid lap, and the row holds the time of one. */
  ghost predicate ValidAt(t: Tables, k: Key) {
    && (k in t.best <==> HasValid(t.laps, k))
    && (k in t.best ==> HasValidTime(t.laps, k, t.best[k].timeMs))
  }

  ghost predicate ValidIndex(t: Tables) {
    forall k :: ValidAt(t, k)
  }

  /** With that, the row of a sound index is the minimum over the valid laps of its key. */
  lemma ValidRowIsMinimum(t: Tables, k: Key)
    requires Indexed(t) && ValidIndex(t) && k in t.best
    ensures HasValidTime(t.laps, k, t.best[k].timeMs)
    ensures forall i :: 0 <= i < |t.laps| && IsValidOf(t.laps[i], k) ==>
      t.best[k].timeMs.value <= t.laps[i].timeMs.value
  {
    assert ValidAt(t, k);
  }

  /** The deletion of a lap whose key keeps a row, when no valid lap has the fastest time left. */
  predicate Misindexes(t: Tables, op: Op) {
    op.Deleting? && LapIndex(t.laps, op.id).Some? &&
    var at := LapIndex(t.laps, op.id).value;
    var k := KeyOf(t.laps[at]);
    var f := Fastest(Cut(t.laps, at), k);
    k in t.best && f.Some? && !HasValidTime(Cut(t.laps, at), k, f.value.timeMs)
  }

  lemma ValidTimeIsValid(laps: seq<Lap>, k: Key, time: Option<int>)
    ensures HasValidTime(laps, k, time) ==> HasValid(laps, k)
  {}

  lemma ValidSnoc(laps: seq<Lap>, l: Lap, k: Key)
    ensures HasValid(laps + [l], k) <==> HasValid(laps, k) || IsValidOf(l, k)
    ensures forall time ::
      HasValidTime(laps + [l], k, time) <==> HasValidTime(laps, k, time) || (IsValidOf(l, k) && l.timeMs == time)
  {
    var more := laps + [l];
    assert forall i :: 0 <= i < |laps| ==> more[i] == laps[i];
    assert more[|laps|] == l;
    forall time ensures HasValidTime(more, k, time)
      <==> HasValidTime(laps, k, time) || (IsValidOf(l, k) && l.timeMs == time) {
      if HasValidTime(laps, k, time) {
        var i :| 0 <= i < |laps| && IsValidOf(laps[i], k) && laps[i].timeMs == time;
        assert more[i] == laps[i];
      }
    }
    if HasValid(laps, k) {
      var i :| 0 <= i < |laps| && IsValidOf(laps[i], k);
      assert more[i] == laps[i];
    }
  }

  lemma RecordValidAt(t: Tables, l: Lap, k: Key)
    requires Indexed(t) && Recordable(l) && ValidAt(t, k)
    ensures ValidAt(Record(t, l), k)
  {
    hide HasValid, HasValidTime, Indexed;
    IndexedPositive(t);
    var stored := l.(id := t.nextId);
    var u := Record(t, l);
    assert u.laps == t.laps + [stored];
    ValidSnoc(t.laps, stored, k);
    assert IsValidOf(stored, k) <==> IsValidOf(l, k);
  }

  lemma IndexedPositive(t: Tables)
    requires Indexed(t)
    ensures forall k :: k in t.best ==> Positive(t.best[k].timeMs)
  {}

  lemma MarkValidAt(t: Tables, ids: set<nat>, k: Key)
    requires ValidAt(t, k)
    ensures ValidAt(t.(laps := Mark(t.laps, ids)), k)
  {
    var u := t.(laps := Mark(t.laps, ids));
    assert forall i :: 0 <= i < |t.laps| ==>
      IsValidOf(u.laps[i], k) == IsValidOf(t.laps[i], k) && u.laps[i].timeMs == t.laps[i].timeMs;
    MarkedValid(t.laps, u.laps, k);
  }

  lemma MarkedValid(p: seq<Lap>, q: seq<Lap>, k: Key)
    requires |p| == |q| && forall i :: 0 <= i < |p| ==>
      IsValidOf(p[i], k) == IsValidOf(q[i], k) && p[i].timeMs == q[i].timeMs
    ensures HasValid(p, k) == HasValid(q, k) && forall time :: HasValidTime(p, k, time) == HasValidTime(q, k, time)
  {
    hide IsValidOf;
    forall time ensures HasValidTime(p, k, time) == HasValidTime(q, k, time) {
      if i :| 0 <= i < |p| && IsValidOf(p[i], k) && p[i].timeMs == time { assert IsValidOf(q[i], k); }
      if i :| 0 <= i < |q| && IsValidOf(q[i], k) && q[i].timeMs == time { assert IsValidOf(p[i], k); }
    }
    if i :| 0 <= i < |p| && IsValidOf(p[i], k) { assert IsValidOf(q[i], k); }
    if i :| 0 <= i < |q| && IsValidOf(q[i], k) { assert IsValidOf(p[i], k); }
  }

  /** Cutting a lap of one key leaves the valid laps of the others. */
  lemma CutValid(laps: seq<Lap>, at: nat, k: Key)
    requires at < |laps|
    ensures HasValid(Cut(laps, at), k) ==> HasValid(laps, k)
    ensures KeyOf(laps[at]) != k ==> HasValid(laps, k) == HasValid(Cut(laps, at), k)
    ensures KeyOf(laps[at]) != k ==> forall time :: HasValidTime(laps, k, time) ==> HasValidTime(Cut(laps, at), k, time)
  {
    hide Cut;
    CutLaps(laps, at);
    CutLength(laps, at);
    var rest := Cut(laps, at);
    if i :| 0 <= i < |rest| && IsValidOf(rest[i], k) {
      assert IsValidOf(laps[if i < at then i else i + 1], k);
    }
    if KeyOf(laps[at]) != k {
      if i :| 0 <= i < |laps| && IsValidOf(laps[i], k) {
        assert IsValidOf(rest[if i < at then i else i - 1], k);
      }
      forall time | HasValidTime(laps, k, time) ensures HasValidTime(rest, k, time) {
        var i :| 0 <= i < |laps| && IsValidOf(laps[i], k) && laps[i].timeMs == time;
        assert rest[if i < at then i else i - 1] == laps[i];
      }
    }
  }

  lemma NoneLeftNoneValid(laps: seq<Lap>, k: Key)
    requires Fastest(laps, k).None? && forall i :: 0 <= i < |laps| ==> Recordable(laps[i])
    ensures !HasValid(laps, k)
  {
    FastestIs(laps, k);
    assert forall i :: 0 <= i < |laps| && IsValidOf(laps[i], k) ==> Counts(laps[i], k);
  }

  /** What a repair does to the rows. */
  lemma RepairRows(laps: seq<Lap>, best: map<Key, Best>, k: Key)
    ensures forall m :: m != k ==>
      (m in Repair(laps, best, k) <==> m in best) && (m in best ==> Repair(laps, best, k)[m] == best[m])
    ensures k in Repair(laps, best, k) <==> k in best && Fastest(laps, k).Some?
    ensures k in best && Fastest(laps, k).Some? ==> Repair(laps, best, k)[k].timeMs == Fastest(laps, k).value.timeMs
  {
    hide Fastest;
  }

  /**
    A deletion keeps the index one of valid laps exactly when its key has no row,
    no lap is left, or a valid lap has the fastest time left.
  */
  lemma DeleteValidIff(t: Tables, id: nat)
    requires Indexed(t) && ValidIndex(t)
    ensures ValidIndex(Delete(t, id)) <==> !Misindexes(t, Deleting(id))
  {
    hide Repair, Fastest, Cut, HasValid, HasValidTime, Delete, LapIndex;
    if LapIndex(t.laps, id).None? {
      UnknownDelete(t, id);
    } else {
      var at := LapIndex(t.laps, id).value;
      var k, rest := KeyOf(t.laps[at]), Cut(t.laps, at);
      assert Recordable(t.laps[at]);
      DeleteForm(t, id);
      var u := Delete(t, id);
      RepairRows(rest, t.best, k);
      forall m ensures m != k ==> ValidAt(u, m) {
        CutValid(t.laps, at, m);
        assert ValidAt(t, m);
      }
      CutRecordable(t.laps, at);
      CutValid(t.laps, at, k);
      assert ValidAt(t, k);
      if Fastest(rest, k).None? {
        NoneLeftNoneValid(rest, k);
      } else {
        ValidTimeIsValid(rest, k, Fastest(rest, k).value.timeMs);
      }
      assert ValidAt(u, k) <==> !Misindexes(t, Deleting(id));
    }
  }

  lemma UnknownDelete(t: Tables, id: nat)
    requires LapIndex(t.laps, id).None?
    ensures Delete(t, id) == t
  {}

  lemma CutRecordable(laps: seq<Lap>, at: nat)
    requires at < |laps| && forall i :: 0 <= i < |laps| ==> Recordable(laps[i])
    ensures forall i :: 0 <= i < |Cut(laps, at)| ==> Recordable(Cut(laps, at)[i])
  {
    CutLaps(laps, at);
    CutLength(laps, at);
  }

  /** Recording, marking and clearing always keep it. */
  lemma StepValidIff(t: Tables, op: Op)
    requires Indexed(t) && ValidIndex(t) && (op.Recording? ==> Recordable(op.lap))
    ensures ValidIndex(Apply(t, op)) <==> !Misindexes(t, op)
  {
    hide Record, Delete, Misindexes, Indexed, ValidAt;
    OnlyDeletes(t, op);
    match op
    case Recording(l) => forall k ensures ValidAt(Apply(t, op), k) { RecordValidAt(t, l, k); }
    case Deleting(id) => DeleteValidIff(t, id);
    case Marking(ids) => forall k ensures ValidAt(Apply(t, op), k) { MarkValidAt(t, ids, k); }
    case Clearing => forall k ensures ValidAt(Apply(t, op), k) { ClearedValidAt(t, k); }
  }

  lemma OnlyDeletes(t: Tables, op: Op)
    ensures Misindexes(t, op) ==> op.Deleting?
  {}

  lemma ClearedValidAt(t: Tables, k: Key)
    ensures ValidAt(Clear(t), k) && ValidAt(EMPTY, k)
  {}

  ghost predicate ValidUpTo(ops: seq<Op>, n: nat)
    requires n <= |ops|
  {
    ValidIndex(Run(ops[..n]))
  }

  predicate MisindexesAt(ops: seq<Op>, n: nat)
    requires n < |ops|
  {
    Misindexes(Run(ops[..n]), ops[n])
  }

  lemma ValidNext(ops: seq<Op>, n: nat)
    requires Regular(ops) && n < |ops| && ValidUpTo(ops, n)
    ensures ValidUpTo(ops, n + 1) <==> !MisindexesAt(ops, n)
  {
    hide Apply, ValidIndex, Misindexes, Indexed;
    assert Regular(ops[..n]);
    IndexedAlways(ops[..n]);
    assert ops[..n + 1][..n] == ops[..n];
    StepValidIff(Run(ops[..n]), ops[n]);
  }

  lemma {:induction false} ValidWhile(ops: seq<Op>, m: nat)
    requires Regular(ops) && m <= |ops| && forall n :: 0 <= n < m ==> !MisindexesAt(ops, n)
    ensures ValidUpTo(ops, m)
  {
    hide Apply, MisindexesAt, ValidAt;
    if m == 0 {
      forall k ensures ValidAt(EMPTY, k) { ClearedValidAt(EMPTY, k); }
      assert ops[..0] == [];
    } else {
      ValidWhile(ops, m - 1);
      ValidNext(ops, m - 1);
    }
  }

  /** Along a run the index is one of valid laps throughout exactly when no deletion misindexes. */
  lemma ValidThroughout(ops: seq<Op>)
    requires Regular(ops)
    ensures (forall n :: 0 <= n <= |ops| ==> ValidUpTo(ops, n))
      <==> forall n :: 0 <= n < |ops| ==> !MisindexesAt(ops, n)
  {
    hide ValidUpTo, MisindexesAt, Regular;
    if forall n :: 0 <= n < |ops| ==> !MisindexesAt(ops, n) {
      forall m | 0 <= m <= |ops| ensures ValidUpTo(ops, m) {
        ValidWhile(ops, m);
      }
    }
    if forall n :: 0 <= n <= |ops| ==> ValidUpTo(ops, n) {
      forall n | 0 <= n < |ops| ensures !MisindexesAt(ops, n) {
        ValidNext(ops, n);
      }
    }
  }

  /** A valid lap and a faster invalid one: when the valid lap goes, the invalid time moves into the row. */
  lemma DeletePromotesInvalid(l: Lap, m: Lap)
    requires Recordable(l) && Recordable(m) && KeyOf(l) == KeyOf(m) && l.valid && !m.valid
    ensures var t := Run([Recording(l), Recording(m)]);
      && Misindexes(t, Deleting(1))
      && var u := Delete(t, 1);
         KeyOf(m) in u.best && u.best[KeyOf(m)].timeMs == m.timeMs && !HasValid(u.laps, KeyOf(m))
  {
    hide Run, LapIndex, Fastest, Repair, Apply;
    RunTwo(Recording(l), Recording(m));
    var k := KeyOf(l);
    var first, second := l.(id := 1), m.(id := 2);
    var t := Run([Recording(l), Recording(m)]);
    TwoRecorded(l, m);
    FirstOfTwo(t.laps);
    assert Cut(t.laps, 0) == [second];
    FastestOnly(second, k);
    DeleteForm(t, 1);
    RepairRows([second], t.best, k);
  }

  lemma TwoRecorded(l: Lap, m: Lap)
    requires KeyOf(l) == KeyOf(m) && l.valid && !m.valid && l.sid != ""
    ensures var t := Apply(Apply(EMPTY, Recording(l)), Recording(m));
      t.laps == [l.(id := 1), m.(id := 2)] && KeyOf(l) in t.best
  {}

  lemma FirstOfTwo(laps: seq<Lap>)
    requires |laps| == 2 && laps[0].id == 1 && laps[1].id == 2
    ensures LapIndex(laps, 1) == Some(0)
  {}

  lemma FastestOnly(l: Lap, k: Key)
    requires Counts(l, k)
    ensures Fastest([l], k) == Some(l)
  {
    assert [l][..0] == [] && Fastest([], k) == None;
  }

  lemma RunTwo(a: Op, b: Op)
    ensures Run([a, b]) == Apply(Apply(EMPTY, a), b)
  {
    assert [a, b][..1] == [a] && [a][..0] == [];
    assert Run([]) == EMPTY;
    assert Run([a]) == Apply(EMPTY, a);
  }

  // ----- synchronised laps

  const DAY_MS := 86_400_000

  predicate Uploadable(l: Lap) {
    Positive(l.timeMs) && l.timeMs.value <= DAY_MS
  }

  /** The laps of a session no acknowledgement has covered, in id order. */
  function Unsynced(laps: seq<Lap>, sid: Id): (r: seq<Lap>)
    ensures forall l :: l in r <==> l in laps && l.sid == sid && !l.synced && Uploadable(l)
  {
    if laps == [] then []
    else
      var before, l := Unsynced(laps[..|laps| - 1], sid), laps[|laps| - 1];
      if l.sid == sid && !l.synced && Uploadable(l) then before + [l] else before
  }

  function Mark(laps: seq<Lap>, ids: set<nat>): (r: seq<Lap>)
    ensures |r| == |laps|
    ensures forall i :: 0 <= i < |r| ==> r[i] == if laps[i].id in ids then laps[i].(synced := true) else laps[i]
  {
    seq(|laps|, i requires 0 <= i < |laps| => if laps[i].id in ids then laps[i].(synced := true) else laps[i])
  }

  /** Row ids grow along the table and are never handed out again. */
  ghost predicate Ordered(t: Tables) {
    && (forall i, j :: 0 <= i < j < |t.laps| ==> t.laps[i].id < t.laps[j].id)
    && (forall i :: 0 <= i < |t.laps| ==> t.laps[i].id < t.nextId)
  }

  lemma ApplyOrdered(t: Tables, op: Op)
    requires Ordered(t)
    ensures Ordered(Apply(t, op)) && Apply(t, op).nextId >= t.nextId
  {
    hide Repair, Upsert;
    match op
    case Recording(l) =>
      var u := Insert(t, l);
      assert u.laps == t.laps + [l.(id := t.nextId)];
      UpsertLaps(u, l);
    case Deleting(id) =>
    case Marking(ids) =>
    case Clearing =>
  }

  lemma UpsertLaps(t: Tables, l: Lap)
    ensures Upsert(t, l).laps == t.laps && Upsert(t, l).nextId == t.nextId
  {}

  // ----- the database

  class LeaderboardDB {
    var laps: seq<Lap>
    var best: map<Key, Best>
    var nextId: nat

    ghost function View(): Tables
      reads this
    {
      Tables(laps, best, nextId)
    }

    constructor ()
      ensures View() == EMPTY
    {
      laps, best, nextId := [], map[], 1;
    }

    method InsertLap(l: Lap)
      modifies this
      ensures View() == Insert(old(View()), l)
    {
      laps := laps + [l.(id := nextId)];
      nextId := nextId + 1;
    }

    method UpsertSessionBest(l: Lap)
      modifies this
      ensures View() == Upsert(old(View()), l)
    {
      if l.sid == "" {
        return;
      }
      var k := (l.rid, l.sid);
      if k !in best {
        best := best[k := Best(l.timeMs, l.number, l.timestamp, l.driver)];
      } else {
        var row := best[k];
        var time := row.timeMs;
        if row.timeMs.None? || row.timeMs.value <= 0 {
          time := l.timeMs;
        } else if l.timeMs.Some? && l.timeMs.value > 0 && l.timeMs.value < row.timeMs.value {
          time := l.timeMs;
        }
        var number := if row.number >= l.number then row.number else l.number;
        best := best[k := Best(time, number, l.timestamp, OrElse(l.driver, row.driver))];
      }
    }

    /** Says whether the lap was there. */
    method DeleteRecord(id: nat) returns (found: bool)
      modifies this
      ensures View() == Delete(old(View()), id)
      ensures found <==> exists i :: 0 <= i < |old(laps)| && old(laps)[i].id == id
      ensures Ordered(old(View())) ==> forall l :: l in laps <==> l in old(laps) && l.id != id
    {
      var at := LapIndex(laps, id);
      if at.None? {
        return false;
      }
      ghost var was := laps;
      var gone := laps[at.value];
      assert was == was[..at.value] + [gone] + was[at.value + 1..];
      laps := laps[..at.value] + laps[at.value + 1..];
      if gone.sid != "" && gone.rid != "" {
        var k := (gone.rid, gone.sid);
        var remaining := Fastest(laps, k);
        if remaining.Some? {
          if k in best {
            best := best[k := best[k].(timeMs := remaining.value.timeMs, number := remaining.value.number,
              timestamp := remaining.value.timestamp)];
          }
        } else {
          best := best - {k};
        }
      }
      return true;
    }

    method ClearLeaderboard()
      modifies this
      ensures View() == Clear(old(View()))
    {
      laps := [];
      best := map[];
    }

    method MarkLapsSynced(ids: set<nat>)
      modifies this`laps
      ensures laps == Mark(old(laps), ids)
    {
      if ids != {} {
        laps := Mark(laps, ids);
      }
    }
  }
}

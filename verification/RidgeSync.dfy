/** At-least-once upload of session laps to the Ridge server, in acknowledged batches. */
module RidgeSync {
  import opened Wrappers
  import opened AppState
  import opened Registry
  import CheckIns
  import LB = Leaderboard

  type Id = string
  type Lap = LB.Lap

  const MAX_BATCH := 500

  /** What becomes of one request: an acknowledged batch was stored, an unacknowledged one may have been. */
  datatype Outcome = Acknowledged | LostReply | LostRequest | Refused

  predicate Stored(o: Outcome) {
    o.Acknowledged? || o.LostReply?
  }

  // ----- what a call selects

  predicate HasRows(rows: CheckIns.Table, sid: Id) {
    exists k :: k in rows && k.0 == sid
  }

  predicate IsClaimed(rows: CheckIns.Table, sid: Id, rid: Id) {
    (sid, rid) in rows && rows[(sid, rid)].status == Claimed
  }

  predicate Sendable(rows: CheckIns.Table, sid: Id, l: Lap) {
    HasRows(rows, sid) ==> IsClaimed(rows, sid, l.rid)
  }

  function ClaimedOnly(laps: seq<Lap>, rows: CheckIns.Table, sid: Id): (r: seq<Lap>)
    ensures forall l :: l in r <==> l in laps && Sendable(rows, sid, l)
  {
    if laps == [] then []
    else
      var before, l := ClaimedOnly(laps[..|laps| - 1], rows, sid), laps[|laps| - 1];
      if Sendable(rows, sid, l) then before + [l] else before
  }

  function Selected(laps: seq<Lap>, rows: CheckIns.Table, sid: Id): (r: seq<Lap>)
    ensures forall l :: l in r <==> l in laps && l.sid == sid && !l.synced && LB.Uploadable(l) && Sendable(rows, sid, l)
  {
    ClaimedOnly(LB.Unsynced(laps, sid), rows, sid)
  }

  function Ids(laps: seq<Lap>): (r: set<nat>)
    ensures forall l :: l in laps ==> l.id in r
    ensures forall n :: n in r ==> exists l :: l in laps && l.id == n
  {
    set l | l in laps :: l.id
  }

  // ----- the server

  /** The server files a lap under its source id, once. */
  function Deliver(server: seq<Lap>, batch: seq<Lap>): seq<Lap> {
    if batch == [] then server
    else
      var s, l := Deliver(server, batch[..|batch| - 1]), batch[|batch| - 1];
      if Holds(s, l.source) then s else s + [l]
  }

  predicate Holds(server: seq<Lap>, source: string) {
    exists i :: 0 <= i < |server| && server[i].source == source
  }

  ghost predicate HeldOnce(server: seq<Lap>) {
    forall i, j :: 0 <= i < j < |server| ==> server[i].source != server[j].source
  }

  lemma {:induction false} Delivered(server: seq<Lap>, batch: seq<Lap>)
    ensures HeldOnce(server) ==> HeldOnce(Deliver(server, batch))
    ensures forall source :: Holds(Deliver(server, batch), source) <==> Holds(server, source) || Holds(batch, source)
  {
    if batch != [] {
      var init, l := batch[..|batch| - 1], batch[|batch| - 1];
      Delivered(server, init);
      HoldsSnoc(init, l);
      HoldsSnoc(Deliver(server, init), l);
      assert batch == init + [l];
    }
  }

  lemma HoldsSnoc(laps: seq<Lap>, l: Lap)
    ensures forall source :: Holds(laps + [l], source) <==> Holds(laps, source) || source == l.source
  {
    forall source ensures Holds(laps + [l], source) <==> Holds(laps, source) || source == l.source {
      if i :| 0 <= i < |laps| && laps[i].source == source { assert (laps + [l])[i].source == source; }
      assert (laps + [l])[|laps|] == l;
    }
  }

  // ----- one request at a time

  /** What one call sees: database, server, the source ids acknowledged so far, and what it still has to send. */
  datatype World = World(tables: LB.Tables, server: seq<Lap>, acked: set<string>, todo: seq<Lap>)

  function Batch(todo: seq<Lap>): seq<Lap> {
    if |todo| <= MAX_BATCH then todo else todo[..MAX_BATCH]
  }

  function Sources(laps: seq<Lap>): (r: set<string>)
    ensures forall s :: s in r <==> Holds(laps, s)
  {
    set i | 0 <= i < |laps| :: laps[i].source
  }

  /** The next batch goes out; anything but an acknowledgement ends the call. */
  function Send(w: World, o: Outcome): World {
    if w.todo == [] then w
    else
      var batch := Batch(w.todo);
      var server := if Stored(o) then Deliver(w.server, batch) else w.server;
      if o.Acknowledged? then
        World(w.tables.(laps := LB.Mark(w.tables.laps, Ids(batch))), server, w.acked + Sources(batch),
          w.todo[|batch|..])
      else World(w.tables, server, w.acked, [])
  }

  // ----- the whole system: any number of calls under way at once

  /** `imported` are the source ids of laps stored as already synchronised, which come from the server. */
  datatype System = System(tables: LB.Tables, server: seq<Lap>, acked: set<string>, imported: set<string>,
      calls: seq<seq<Lap>>)

  /**
    Database operations fall anywhere; a call begins by reading its laps; a
    batch may reach the server long before its reply is handled, or more than
    once; a request ends with one of the four outcomes.
  */
  datatype Step =
    | Database(op: LB.Op)
    | Begin(sid: Id, rows: CheckIns.Table)
    | Arrive(call: nat)
    | Request(call: nat, outcome: Outcome)

  function Focus(s: System, call: nat): World
    requires call < |s.calls|
  {
    World(s.tables, s.server, s.acked, s.calls[call])
  }

  function With(s: System, call: nat, w: World): System
    requires call < |s.calls|
  {
    System(w.tables, w.server, w.acked, s.imported, s.calls[call := w.todo])
  }

  function Next(s: System, step: Step): System {
    match step
    case Database(op) =>
      s.(tables := LB.Apply(s.tables, op),
         imported := if op.Recording? && op.lap.synced then s.imported + {op.lap.source} else s.imported)
    case Begin(sid, rows) => s.(calls := s.calls + [Selected(s.tables.laps, rows, sid)])
    case Arrive(call) => if call < |s.calls| then s.(server := Deliver(s.server, Batch(s.calls[call]))) else s
    case Request(call, o) => if call < |s.calls| then With(s, call, Send(Focus(s, call), o)) else s
  }

  const START := System(LB.EMPTY, [], {}, {}, [])

  function Run(steps: seq<Step>): System {
    if steps == [] then START else Next(Run(steps[..|steps| - 1]), steps[|steps| - 1])
  }

  /** Only an acknowledgement marks stored laps. */
  ghost predicate Genuine(steps: seq<Step>) {
    forall i :: 0 <= i < |steps| && steps[i].Database? ==> !steps[i].op.Marking?
  }

  ghost predicate Safe(w: World, imported: set<string>) {
    && HeldOnce(w.server)
    && (forall i :: 0 <= i < |w.tables.laps| && w.tables.laps[i].synced ==>
         w.tables.laps[i].source in w.acked + imported)
    && (forall s :: s in w.acked ==> Holds(w.server, s))
  }

  ghost predicate SafeSystem(s: System) {
    && Safe(World(s.tables, s.server, s.acked, []), s.imported)
    && LB.Ordered(s.tables)
    && forall c :: 0 <= c < |s.calls| ==> Current(s.tables, s.calls[c])
  }

  /** What the call has read still names the same laps: ids are not handed out twice. */
  ghost predicate Current(t: LB.Tables, todo: seq<Lap>) {
    && (forall l :: l in todo ==> l.id < t.nextId)
    && (forall l, i :: l in todo && 0 <= i < |t.laps| && t.laps[i].id == l.id ==> t.laps[i].source == l.source)
  }

  lemma ApplyKeeps(t: LB.Tables, op: LB.Op, todo: seq<Lap>)
    requires LB.Ordered(t) && Current(t, todo) && !op.Marking?
    ensures Current(LB.Apply(t, op), todo)
  {
    hide LB.Ordered, LB.Repair, LB.Upsert;
    hide LB.Apply;
    LB.ApplyOrdered(t, op);
    ApplyLaps(t, op);
    var u := LB.Apply(t, op);
    forall l, i | l in todo && 0 <= i < |u.laps| && u.laps[i].id == l.id ensures u.laps[i].source == l.source {
      assert u.laps[i] in u.laps && u.laps[i].id != t.nextId;
      var j :| 0 <= j < |t.laps| && t.laps[j] == u.laps[i];
    }
  }

  /** What an operation leaves was there before or is the lap it records. */
  lemma ApplyLaps(t: LB.Tables, op: LB.Op)
    requires !op.Marking?
    ensures forall l :: l in LB.Apply(t, op).laps ==> l in t.laps || (op.Recording? && l == op.lap.(id := t.nextId))
  {
    hide LB.Repair, LB.Upsert;
    match op
    case Recording(l) =>
      var u := LB.Insert(t, l);
      LB.UpsertLaps(u, l);
      assert LB.Apply(t, op).laps == t.laps + [l.(id := t.nextId)];
    case Deleting(id) =>
    case Clearing =>
  }

  lemma SelectedCurrent(t: LB.Tables, rows: CheckIns.Table, sid: Id)
    requires LB.Ordered(t)
    ensures Current(t, Selected(t.laps, rows, sid))
  {
    hide Selected, Sendable;
    forall l | l in Selected(t.laps, rows, sid)
      ensures l.id < t.nextId && forall i :: 0 <= i < |t.laps| && t.laps[i].id == l.id ==> t.laps[i].source == l.source
    {
      SelectedMember(t.laps, rows, sid, l);
      var j :| 0 <= j < |t.laps| && t.laps[j] == l;
      assert forall i :: 0 <= i < |t.laps| && t.laps[i].id == t.laps[j].id ==> !(i < j) && !(j < i);
    }
  }

  lemma BatchPart(todo: seq<Lap>)
    ensures todo == Batch(todo) + todo[|Batch(todo)|..]
    ensures todo != [] ==> 0 < |Batch(todo)|
    ensures |Batch(todo)| <= MAX_BATCH
    ensures forall l :: l in Batch(todo) ==> l in todo
    ensures forall l :: l in todo[|Batch(todo)|..] ==> l in todo
  {}

  lemma MarkOrdered(t: LB.Tables, ids: set<nat>)
    requires LB.Ordered(t)
    ensures LB.Ordered(t.(laps := LB.Mark(t.laps, ids)))
  {}

  lemma MarkCurrent(t: LB.Tables, ids: set<nat>, todo: seq<Lap>)
    requires Current(t, todo)
    ensures Current(t.(laps := LB.Mark(t.laps, ids)), todo)
  {}

  lemma SendKeeps(w: World, o: Outcome, imported: set<string>)
    requires LB.Ordered(w.tables) && Current(w.tables, w.todo) && Safe(w, imported)
    ensures LB.Ordered(Send(w, o).tables) && Current(Send(w, o).tables, Send(w, o).todo) && Safe(Send(w, o), imported)
    ensures forall todo :: Current(w.tables, todo) ==> Current(Send(w, o).tables, todo)
  {
    hide Batch, Deliver, HeldOnce, Holds, LB.Ordered, Current;
    var batch := Batch(w.todo);
    BatchPart(w.todo);
    Delivered(w.server, batch);
    MarkOrdered(w.tables, Ids(batch));
    forall todo | Current(w.tables, todo) ensures Current(Send(w, o).tables, todo) {
      MarkCurrent(w.tables, Ids(batch), todo);
    }
    CurrentPart(w.tables, w.todo);
    MarkCurrent(w.tables, Ids(batch), w.todo[|batch|..]);
    NothingCurrent(w.tables);
    MarkedSources(w, batch);
  }

  lemma NothingCurrent(t: LB.Tables)
    ensures Current(t, [])
  {}

  lemma CurrentPart(t: LB.Tables, todo: seq<Lap>)
    requires Current(t, todo)
    ensures Current(t, todo[|Batch(todo)|..])
  {
    hide Batch;
    BatchPart(todo);
  }

  /** The laps a batch marks carry its source ids. */
  lemma MarkedSources(w: World, batch: seq<Lap>)
    requires Current(w.tables, w.todo) && forall l :: l in batch ==> l in w.todo
    ensures var marked := LB.Mark(w.tables.laps, Ids(batch));
      forall i :: 0 <= i < |marked| && marked[i].synced && !w.tables.laps[i].synced ==>
        marked[i].source in Sources(batch)
  {
    hide Holds;
    var marked := LB.Mark(w.tables.laps, Ids(batch));
    forall i | 0 <= i < |marked| && marked[i].synced && !w.tables.laps[i].synced
      ensures marked[i].source in Sources(batch)
    {
      var l :| l in batch && l.id == marked[i].id;
      SourceHeld(batch, l);
    }
  }

  lemma SourceHeld(laps: seq<Lap>, l: Lap)
    requires l in laps
    ensures Holds(laps, l.source)
  {
    var i :| 0 <= i < |laps| && laps[i] == l;
  }

  lemma DatabaseKeeps(s: System, op: LB.Op)
    requires SafeSystem(s) && !op.Marking?
    ensures SafeSystem(Next(s, Database(op)))
  {
    hide LB.Ordered, Current, LB.Apply, HeldOnce, Holds;
    LB.ApplyOrdered(s.tables, op);
    ApplyLaps(s.tables, op);
    var t := Next(s, Database(op));
    forall i | 0 <= i < |t.tables.laps| && t.tables.laps[i].synced
      ensures t.tables.laps[i].source in t.acked + t.imported {
      var l := t.tables.laps[i];
      assert l in t.tables.laps;
      if l in s.tables.laps {
        var j :| 0 <= j < |s.tables.laps| && s.tables.laps[j] == l;
      }
    }
    forall c | 0 <= c < |t.calls| ensures Current(t.tables, t.calls[c]) {
      ApplyKeeps(s.tables, op, s.calls[c]);
    }
  }

  lemma RequestKeeps(s: System, call: nat, o: Outcome)
    requires SafeSystem(s)
    ensures SafeSystem(Next(s, Request(call, o)))
  {
    hide LB.Ordered, Current, Send, HeldOnce, Holds;
    if call < |s.calls| {
      SendKeeps(Focus(s, call), o, s.imported);
    }
  }

  lemma ArriveKeeps(s: System, call: nat)
    requires SafeSystem(s)
    ensures SafeSystem(Next(s, Arrive(call)))
  {
    hide LB.Ordered, Current, HeldOnce, Holds, Deliver, Batch;
    if call < |s.calls| {
      Delivered(s.server, Batch(s.calls[call]));
    }
  }

  lemma {:induction false} SafeAlways(steps: seq<Step>)
    requires Genuine(steps)
    ensures SafeSystem(Run(steps))
  {
    hide SafeSystem, Next;
    if steps == [] {
      StartSafe();
    } else {
      var init, step := steps[..|steps| - 1], steps[|steps| - 1];
      SafeAlways(init);
      var s := Run(init);
      match step
      case Database(op) => DatabaseKeeps(s, op);
      case Begin(sid, rows) => BeginKeeps(s, sid, rows);
      case Arrive(call) => ArriveKeeps(s, call);
      case Request(call, o) => RequestKeeps(s, call, o);
    }
  }

  lemma BeginKeeps(s: System, sid: Id, rows: CheckIns.Table)
    requires SafeSystem(s)
    ensures SafeSystem(Next(s, Begin(sid, rows)))
  {
    hide LB.Ordered, Current, Selected;
    SelectedCurrent(s.tables, rows, sid);
  }

  lemma StartSafe()
    ensures SafeSystem(START)
  {}

  /**
    Over every run of overlapping calls, with requests and replies lost at will
    and the database changing in between: a synchronised lap was acknowledged
    or imported, what was acknowledged the server holds, and the server holds
    nothing twice.
  */
  lemma UploadSafety(steps: seq<Step>)
    requires Genuine(steps)
    ensures var s := Run(steps);
      && (forall l :: l in s.tables.laps && l.synced ==> l.source in s.acked || l.source in s.imported)
      && (forall source :: source in s.acked ==> Holds(s.server, source))
      && (forall i, j :: 0 <= i < j < |s.server| ==> s.server[i].source != s.server[j].source)
  {
    SafeAlways(steps);
  }

  /** The source id was in the batch of a request the server answered. */
  ghost predicate AnsweredAt(steps: seq<Step>, n: nat, source: string)
    requires n < |steps|
  {
    var s := Run(steps[..n]);
    steps[n].Request? && steps[n].outcome.Acknowledged? && steps[n].call < |s.calls|
      && Holds(Batch(s.calls[steps[n].call]), source)
  }

  lemma AckedStepIff(s: System, step: Step, source: string)
    ensures source in Next(s, step).acked <==>
      source in s.acked
      || (step.Request? && step.outcome.Acknowledged? && step.call < |s.calls|
           && Holds(Batch(s.calls[step.call]), source))
  {
    hide LB.Apply, Selected, Deliver;
  }

  /** Nothing else is acknowledged, and it is exactly that. */
  lemma {:induction false} AcknowledgedOnly(steps: seq<Step>, source: string)
    ensures source in Run(steps).acked <==> exists n :: 0 <= n < |steps| && AnsweredAt(steps, n, source)
  {
    hide Batch, Holds, Next;
    if steps != [] {
      var init, step := steps[..|steps| - 1], steps[|steps| - 1];
      AcknowledgedOnly(init, source);
      AckedStepIff(Run(init), step, source);
      assert forall n :: 0 <= n < |init| ==> steps[n] == init[n] && steps[..n] == init[..n];
      if n :| 0 <= n < |init| && AnsweredAt(init, n, source) { assert AnsweredAt(steps, n, source); }
      assert AnsweredAt(steps, |init|, source) <==>
        (step.Request? && step.outcome.Acknowledged? && step.call < |Run(init).calls|
          && Holds(Batch(Run(init).calls[step.call]), source));
      if n :| 0 <= n < |steps| && AnsweredAt(steps, n, source) {
        assert n < |init| ==> AnsweredAt(init, n, source);
      }
    }
  }

  /** The row was in the batch of an answered request, as a lap with the same source id. */
  ghost predicate RowAnsweredAt(steps: seq<Step>, n: nat, l: Lap)
    requires n < |steps|
  {
    var s := Run(steps[..n]);
    && steps[n].Request? && steps[n].outcome.Acknowledged? && steps[n].call < |s.calls|
    && exists e :: e in Batch(s.calls[steps[n].call]) && e.id == l.id && e.source == l.source
  }

  /** The row was recorded as synchronised already. */
  predicate RowImportedAt(steps: seq<Step>, n: nat, l: Lap)
    requires n < |steps|
  {
    && steps[n].Database? && steps[n].op.Recording? && steps[n].op.lap.synced
    && Run(steps[..n]).tables.nextId == l.id
  }

  ghost predicate RowExplained(steps: seq<Step>, l: Lap) {
    exists n :: 0 <= n < |steps| && (RowAnsweredAt(steps, n, l) || RowImportedAt(steps, n, l))
  }

  lemma ExplainedLater(steps: seq<Step>, step: Step, l: Lap)
    requires RowExplained(steps, l)
    ensures RowExplained(steps + [step], l)
  {
    hide Run, Batch;
    var more := steps + [step];
    var n :| 0 <= n < |steps| && (RowAnsweredAt(steps, n, l) || RowImportedAt(steps, n, l));
    assert more[n] == steps[n] && more[..n] == steps[..n];
    assert RowAnsweredAt(more, n, l) || RowImportedAt(more, n, l);
  }

  lemma LastExplains(steps: seq<Step>, step: Step, l: Lap)
    requires var s := Run(steps);
      || (step.Request? && step.outcome.Acknowledged? && step.call < |s.calls|
          && exists e :: e in Batch(s.calls[step.call]) && e.id == l.id && e.source == l.source)
      || (step.Database? && step.op.Recording? && step.op.lap.synced && s.tables.nextId == l.id)
    ensures RowExplained(steps + [step], l)
  {
    hide Run, Batch;
    var more := steps + [step];
    assert more[|steps|] == step && more[..|steps|] == steps;
    assert RowAnsweredAt(more, |steps|, l) || RowImportedAt(more, |steps|, l);
  }

  /** What a step leaves synchronised was so before, with the same ids, or the step explains it. */
  lemma SyncedStep(s: System, step: Step, i: nat)
    requires SafeSystem(s) && (step.Database? ==> !step.op.Marking?)
    requires i < |Next(s, step).tables.laps| && Next(s, step).tables.laps[i].synced
    ensures var l := Next(s, step).tables.laps[i];
      || (exists j :: 0 <= j < |s.tables.laps| && s.tables.laps[j].synced && s.tables.laps[j].id == l.id
                      && s.tables.laps[j].source == l.source)
      || (step.Request? && step.outcome.Acknowledged? && step.call < |s.calls|
          && exists e :: e in Batch(s.calls[step.call]) && e.id == l.id && e.source == l.source)
      || (step.Database? && step.op.Recording? && step.op.lap.synced && s.tables.nextId == l.id)
  {
    hide Batch, Deliver, Selected, HeldOnce, Holds, LB.Apply, LB.Ordered;
    var laps := Next(s, step).tables.laps;
    match step
    case Database(op) =>
      ApplyLaps(s.tables, op);
      assert laps[i] in laps;
      if laps[i] in s.tables.laps {
        var j :| 0 <= j < |s.tables.laps| && s.tables.laps[j] == laps[i];
      }
    case Request(call, o) =>
      if call < |s.calls| {
        var batch := Batch(s.calls[call]);
        BatchPart(s.calls[call]);
        assert Current(s.tables, s.calls[call]);
        if !s.tables.laps[i].synced {
          var e :| e in batch && e.id == laps[i].id;
          assert e.source == laps[i].source;
        }
      }
    case _ =>
  }

  /** Over every run, a row marked as synchronised was itself in an answered batch, or was imported. */
  lemma {:induction false} MarkedRowsAnswered(steps: seq<Step>, l: Lap)
    requires Genuine(steps) && l in Run(steps).tables.laps && l.synced
    ensures RowExplained(steps, l)
  {
    hide Next, SafeSystem, RowExplained, Batch;
    if steps != [] {
      var init, step := steps[..|steps| - 1], steps[|steps| - 1];
      var s := Run(init);
      assert steps == init + [step];
      SafeAlways(init);
      var i :| 0 <= i < |Run(steps).tables.laps| && Run(steps).tables.laps[i] == l;
      SyncedStep(s, step, i);
      if j :| 0 <= j < |s.tables.laps| && s.tables.laps[j].synced && s.tables.laps[j].id == l.id
              && s.tables.laps[j].source == l.source {
        MarkedRowsAnswered(init, s.tables.laps[j]);
        SameExplained(init, s.tables.laps[j], l);
        ExplainedLater(init, step, l);
      } else {
        LastExplains(init, step, l);
      }
    }
  }

  lemma SameExplained(steps: seq<Step>, l: Lap, m: Lap)
    requires RowExplained(steps, l) && l.id == m.id && l.source == m.source
    ensures RowExplained(steps, m)
  {
    hide Run, Batch;
    var n :| 0 <= n < |steps| && (RowAnsweredAt(steps, n, l) || RowImportedAt(steps, n, l));
    assert RowAnsweredAt(steps, n, m) || RowImportedAt(steps, n, m);
  }

  // ----- one call

  /** Sends until nothing is left; the n-th request of the call has outcome `o(n)`. */
  function SendAll(w: World, o: nat -> Outcome, n: nat): World
    decreases |w.todo|
  {
    if w.todo == [] then w
    else
      BatchPart(w.todo);
      SendAll(Send(w, o(n)), o, n + 1)
  }

  /** How many of the selected laps are acknowledged. */
  function Covered(count: nat, o: nat -> Outcome, n: nat): (m: nat)
    ensures m <= count
  {
    if count == 0 || !o(n).Acknowledged? then 0
    else if count <= MAX_BATCH then count
    else MAX_BATCH + Covered(count - MAX_BATCH, o, n + 1)
  }

  /** A whole number of batches up to the first that was not acknowledged. */
  lemma {:induction false} CoveredIsPrefix(count: nat, o: nat -> Outcome, n: nat)
    ensures var m := Covered(count, o, n);
      && (m < count ==> m % 500 == 0 && !o(n + m / 500).Acknowledged?)
      && (forall j :: 0 <= j && j * 500 < m ==> o(n + j).Acknowledged?)
  {
    if count != 0 && o(n).Acknowledged? && count > MAX_BATCH {
      CoveredIsPrefix(count - MAX_BATCH, o, n + 1);
      var m := Covered(count - MAX_BATCH, o, n + 1);
      assert (m + MAX_BATCH) / MAX_BATCH == m / MAX_BATCH + 1;
      forall j | 0 <= j && j * MAX_BATCH < m + MAX_BATCH ensures o(n + j).Acknowledged? {
        if j > 0 {
          assert (j - 1) * MAX_BATCH < m;
          assert o(n + 1 + (j - 1)).Acknowledged?;
        }
      }
    }
  }

  lemma MarkTwice(laps: seq<Lap>, a: set<nat>, b: set<nat>)
    ensures LB.Mark(LB.Mark(laps, a), b) == LB.Mark(laps, a + b)
  {}

  lemma MarkNone(laps: seq<Lap>)
    ensures LB.Mark(laps, Ids([])) == laps
  {}

  lemma IdsSplit(a: seq<Lap>, b: seq<Lap>)
    ensures Ids(a + b) == Ids(a) + Ids(b)
  {
    assert forall l :: l in a + b <==> l in a || l in b;
  }

  function Acked(w: World, o: nat -> Outcome, n: nat): seq<Lap> {
    w.todo[..Covered(|w.todo|, o, n)]
  }

  lemma AckedStep(w: World, o: nat -> Outcome, n: nat)
    requires w.todo != []
    ensures Acked(w, o, n) == if o(n).Acknowledged? then Batch(w.todo) + Acked(Send(w, o(n)), o, n + 1) else []
  {
    hide LB.Mark, Deliver, Ids, Sources;
  }

  /** One call marks exactly the covered prefix of its selection. */
  lemma {:induction false} SendAllMarks(w: World, o: nat -> Outcome, n: nat)
    ensures SendAll(w, o, n).todo == []
    ensures SendAll(w, o, n).tables == w.tables.(laps := LB.Mark(w.tables.laps, Ids(Acked(w, o, n))))
    decreases |w.todo|
  {
    hide LB.Mark, Ids, Deliver, Sources, Acked, Covered;
    MarkNone(w.tables.laps);
    if w.todo == [] {
      NoneAcked(w, o, n);
    } else {
      BatchPart(w.todo);
      AckedStep(w, o, n);
      var batch, next := Batch(w.todo), Send(w, o(n));
      SendAllMarks(next, o, n + 1);
      if o(n).Acknowledged? {
        IdsSplit(batch, Acked(next, o, n + 1));
        MarkTwice(w.tables.laps, Ids(batch), Ids(Acked(next, o, n + 1)));
      } else {
        NoneAcked(next, o, n + 1);
      }
    }
  }

  lemma NoneAcked(w: World, o: nat -> Outcome, n: nat)
    requires w.todo == []
    ensures Acked(w, o, n) == []
  {}

  // ----- repeating a call

  lemma SelectedSnoc(laps: seq<Lap>, l: Lap, rows: CheckIns.Table, sid: Id)
    ensures Selected(laps + [l], rows, sid) == Selected(laps, rows, sid)
      + if l.sid == sid && !l.synced && LB.Uploadable(l) && Sendable(rows, sid, l) then [l] else []
  {
    hide Sendable;
    assert (laps + [l])[..|laps|] == laps;
    var u := LB.Unsynced(laps, sid);
    assert (u + [l])[..|u|] == u;
  }

  function Without(laps: seq<Lap>, ids: set<nat>): seq<Lap> {
    if laps == [] then []
    else if laps[0].id in ids then Without(laps[1..], ids)
    else [laps[0]] + Without(laps[1..], ids)
  }

  lemma {:induction false} WithoutJoin(a: seq<Lap>, b: seq<Lap>, ids: set<nat>)
    ensures Without(a + b, ids) == Without(a, ids) + Without(b, ids)
  {
    if a == [] {
      assert a + b == b;
    } else {
      assert (a + b)[1..] == a[1..] + b;
      WithoutJoin(a[1..], b, ids);
    }
  }

  lemma {:induction false} WithoutAll(laps: seq<Lap>, ids: set<nat>)
    requires forall l :: l in laps ==> l.id in ids
    ensures Without(laps, ids) == []
  {
    if laps != [] { WithoutAll(laps[1..], ids); }
  }

  lemma {:induction false} WithoutNone(laps: seq<Lap>, ids: set<nat>)
    requires forall l :: l in laps ==> l.id !in ids
    ensures Without(laps, ids) == laps
  {
    if laps != [] {
      assert laps[0] in laps;
      WithoutNone(laps[1..], ids);
    }
  }

  /** The same claims for a session. */
  ghost predicate SameClaims(p: CheckIns.Table, q: CheckIns.Table, sid: Id) {
    (HasRows(p, sid) <==> HasRows(q, sid)) && forall rid :: IsClaimed(p, sid, rid) <==> IsClaimed(q, sid, rid)
  }

  /** Marking laps takes exactly those out of the next selection. */
  lemma {:induction false} MarkedSelection(laps: seq<Lap>, ids: set<nat>, p: CheckIns.Table, q: CheckIns.Table, sid: Id)
    requires SameClaims(p, q, sid)
    ensures Selected(LB.Mark(laps, ids), q, sid) == Without(Selected(laps, p, sid), ids)
  {
    hide Selected, HasRows, IsClaimed;
    if laps == [] {
      NoneSelected(p, sid);
      NoneSelected(q, sid);
      assert LB.Mark(laps, ids) == [];
    } else {
      var init, l := laps[..|laps| - 1], laps[|laps| - 1];
      var m := if l.id in ids then l.(synced := true) else l;
      assert laps == init + [l] && LB.Mark(laps, ids) == LB.Mark(init, ids) + [m];
      MarkedSelection(init, ids, p, q, sid);
      SelectedSnoc(init, l, p, sid);
      SelectedSnoc(LB.Mark(init, ids), m, q, sid);
      WithoutJoin(Selected(init, p, sid), [l], ids);
      WithoutJoin(Selected(init, p, sid), [], ids);
    }
  }

  lemma NoneSelected(rows: CheckIns.Table, sid: Id)
    ensures Selected([], rows, sid) == []
  {}

  ghost predicate Rising(laps: seq<Lap>) {
    forall i, j :: 0 <= i < j < |laps| ==> laps[i].id < laps[j].id
  }

  lemma SelectedMember(laps: seq<Lap>, rows: CheckIns.Table, sid: Id, l: Lap)
    ensures l in Selected(laps, rows, sid) ==> l in laps
  {}

  /** The selection is in id order. */
  lemma {:induction false} SelectedRising(laps: seq<Lap>, rows: CheckIns.Table, sid: Id)
    requires Rising(laps)
    ensures Rising(Selected(laps, rows, sid))
  {
    hide Selected, Sendable;
    if laps == [] {
      NoneSelected(rows, sid);
    } else {
      var init, l := laps[..|laps| - 1], laps[|laps| - 1];
      assert laps == init + [l];
      SelectedRising(init, rows, sid);
      SelectedSnoc(init, l, rows, sid);
      var s := Selected(init, rows, sid);
      forall i | 0 <= i < |s| ensures s[i].id < l.id {
        SelectedMember(init, rows, sid, s[i]);
        var j :| 0 <= j < |init| && init[j] == s[i];
        assert laps[j].id < laps[|init|].id;
      }
    }
  }

  lemma LaterId(laps: seq<Lap>, m: nat, l: Lap)
    requires Rising(laps) && m <= |laps| && l in laps[m..]
    ensures l.id !in Ids(laps[..m])
  {
    var i :| m <= i < |laps| && laps[i] == l;
    assert forall j :: 0 <= j < m ==> laps[j].id < laps[i].id;
  }

  lemma WithoutPrefix(laps: seq<Lap>, m: nat)
    requires Rising(laps) && m <= |laps|
    ensures Without(laps, Ids(laps[..m])) == laps[m..]
  {
    hide Without, Rising;
    var ids := Ids(laps[..m]);
    assert laps == laps[..m] + laps[m..];
    WithoutJoin(laps[..m], laps[m..], ids);
    WithoutAll(laps[..m], ids);
    forall l | l in laps[m..] ensures l.id !in ids {
      LaterId(laps, m, l);
    }
    WithoutNone(laps[m..], ids);
  }

  /** With the claims unchanged and no new laps, the next call selects exactly what this one left unacknowledged. */
  lemma RepeatSelectsRest(w: World, o: nat -> Outcome, p: CheckIns.Table, q: CheckIns.Table, sid: Id)
    requires LB.Ordered(w.tables) && w.todo == Selected(w.tables.laps, p, sid) && SameClaims(p, q, sid)
    ensures Selected(SendAll(w, o, 0).tables.laps, q, sid) == w.todo[Covered(|w.todo|, o, 0)..]
  {
    hide Covered, SendAll, Selected;
    SendAllMarks(w, o, 0);
    MarkedSelection(w.tables.laps, Ids(Acked(w, o, 0)), p, q, sid);
    SelectedRising(w.tables.laps, p, sid);
    WithoutPrefix(w.todo, Covered(|w.todo|, o, 0));
  }

  lemma {:induction false} AllCovered(count: nat, o: nat -> Outcome, n: nat)
    requires forall k :: k >= n ==> o(k).Acknowledged?
    ensures Covered(count, o, n) == count
  {
    if count > MAX_BATCH { AllCovered(count - MAX_BATCH, o, n + 1); }
  }

  /** A fault-free call leaves no sendable lap unsynchronised: its repeat has no batch to send. */
  lemma FaultFreeConverges(w: World, o: nat -> Outcome, p: CheckIns.Table, q: CheckIns.Table, sid: Id)
    requires LB.Ordered(w.tables) && w.todo == Selected(w.tables.laps, p, sid) && SameClaims(p, q, sid)
    requires forall k :: o(k).Acknowledged?
    ensures Selected(SendAll(w, o, 0).tables.laps, q, sid) == []
    ensures var after := SendAll(w, o, 0).tables.laps;
      forall l :: l in after ==>
        || l.synced || l.sid != sid || l.timeMs.None? || l.timeMs.value <= 0 || l.timeMs.value > 86_400_000
        || ((exists k :: k in q && k.0 == sid) && ((sid, l.rid) !in q || q[(sid, l.rid)].status != Claimed))
  {
    hide Covered, SendAll, Selected, SameClaims;
    AllCovered(|w.todo|, o, 0);
    RepeatSelectsRest(w, o, p, q, sid);
    var after := SendAll(w, o, 0).tables.laps;
    forall l | l in after
      ensures || l.synced || l.sid != sid || l.timeMs.None? || l.timeMs.value <= 0 || l.timeMs.value > 86_400_000
              || ((exists k :: k in q && k.0 == sid) && ((sid, l.rid) !in q || q[(sid, l.rid)].status != Claimed))
    {
      SelectedIff(after, q, sid, l);
    }
  }

  // ----- a call as steps of the system

  function CallSteps(w: World, call: nat, o: nat -> Outcome, n: nat): seq<Step>
    decreases |w.todo|
  {
    if w.todo == [] then []
    else
      BatchPart(w.todo);
      [Request(call, o(n))] + CallSteps(Send(w, o(n)), call, o, n + 1)
  }

  function RunFrom(s: System, steps: seq<Step>): System
    decreases |steps|
  {
    if steps == [] then s else RunFrom(Next(s, steps[0]), steps[1..])
  }

  /** A call sends its batches by requests of the system. */
  lemma {:induction false} CallIsRun(s: System, call: nat, o: nat -> Outcome, n: nat)
    requires call < |s.calls|
    ensures RunFrom(s, CallSteps(Focus(s, call), call, o, n)) == With(s, call, SendAll(Focus(s, call), o, n))
    decreases |s.calls[call]|
  {
    hide Send, Batch;
    var w := Focus(s, call);
    if w.todo == [] {
      assert s.calls[call := []] == s.calls;
    } else {
      BatchPart(w.todo);
      SendShrinks(w, o(n));
      var next := Next(s, Request(call, o(n)));
      assert Focus(next, call) == Send(w, o(n));
      CallIsRun(next, call, o, n + 1);
      var steps := CallSteps(w, call, o, n);
      assert steps[0] == Request(call, o(n)) && steps[1..] == CallSteps(Send(w, o(n)), call, o, n + 1);
    }
  }

  lemma SendShrinks(w: World, o: Outcome)
    requires w.todo != []
    ensures |Send(w, o).todo| < |w.todo|
  {}

  lemma {:induction false} RunJoin(steps: seq<Step>, more: seq<Step>)
    ensures Run(steps + more) == RunFrom(Run(steps), more)
    decreases |more|
  {
    hide Next;
    if more == [] {
      assert steps + more == steps;
    } else {
      var longer := steps + [more[0]];
      assert longer[..|steps|] == steps && longer + more[1..] == steps + more;
      RunJoin(longer, more[1..]);
    }
  }

  lemma {:induction false} CallStepsGenuine(w: World, call: nat, o: nat -> Outcome, n: nat)
    ensures Genuine(CallSteps(w, call, o, n))
    decreases |w.todo|
  {
    hide Send, Batch;
    if w.todo != [] {
      BatchPart(w.todo);
      SendShrinks(w, o(n));
      CallStepsGenuine(Send(w, o(n)), call, o, n + 1);
    }
  }

  /** So a call made after any run, with others under way, leaves the system safe. */
  lemma CallSafe(steps: seq<Step>, sid: Id, rows: CheckIns.Table, o: nat -> Outcome)
    requires Genuine(steps)
    ensures var s := Run(steps + [Begin(sid, rows)]);
      && |s.calls| == |Run(steps).calls| + 1
      && s.calls[|s.calls| - 1] == Selected(Run(steps).tables.laps, rows, sid)
      && Safe(SendAll(Focus(s, |s.calls| - 1), o, 0), s.imported)
  {
    hide Send, Batch, Selected, Genuine, SafeSystem, CallSteps, SendAll;
    var begun := steps + [Begin(sid, rows)];
    assert begun[..|steps|] == steps;
    var s := Run(begun);
    var call := |s.calls| - 1;
    var more := CallSteps(Focus(s, call), call, o, 0);
    CallStepsGenuine(Focus(s, call), call, o, 0);
    GenuineSnoc(steps, sid, rows);
    GenuineJoin(begun, more);
    SafeAlways(begun + more);
    SafeWorld(Run(begun + more));
    RunJoin(begun, more);
    CallIsRun(s, call, o, 0);
  }

  lemma GenuineSnoc(steps: seq<Step>, sid: Id, rows: CheckIns.Table)
    ensures Genuine(steps) ==> Genuine(steps + [Begin(sid, rows)])
  {}

  lemma SafeWorld(s: System)
    requires SafeSystem(s)
    ensures forall todo :: Safe(World(s.tables, s.server, s.acked, todo), s.imported)
  {
    hide HeldOnce, Holds, LB.Ordered, Current;
  }

  lemma GenuineJoin(a: seq<Step>, b: seq<Step>)
    requires Genuine(a) && Genuine(b)
    ensures Genuine(a + b)
  {}

  // ----- the service

  datatype Report = NoKey | Report(sent: seq<seq<Lap>>, failed: bool, finalSent: bool, skipped: nat)

  /** The final request may also find the session completed already. */
  datatype FinalOutcome = Finalized | AlreadyCompleted | FinalFailed

  function Requests(count: nat, o: nat -> Outcome): nat {
    var m := Covered(count, o, 0);
    if m == count then (count + MAX_BATCH - 1) / MAX_BATCH else m / MAX_BATCH + 1
  }

  class RidgeService {
    const db: LB.LeaderboardDB
    const desk: CheckIns.CheckInDesk
    const state: Registry
    // what the remote side holds and has answered for
    ghost var server: seq<Lap>
    ghost var acked: set<string>

    constructor (db: LB.LeaderboardDB, desk: CheckIns.CheckInDesk, state: Registry)
      ensures this.db == db && this.desk == desk && this.state == state && server == [] && acked == {}
    {
      this.db, this.desk, this.state, server, acked := db, desk, state, [], {};
    }

    ghost function View(todo: seq<Lap>): World
      reads this, db
    {
      World(db.View(), server, acked, todo)
    }

    /**
      Polls the check-ins, sends the selected laps in batches until one is not
      acknowledged, and finalizes only when all were.
    */
    method SyncSessionLaps(hasKey: bool, sid: Id, reply: Option<seq<CheckIns.Item>>, now: real, finalize: bool,
                           o: nat -> Outcome, final: FinalOutcome) returns (r: Report)
      modifies this`server, this`acked, db`laps, desk`rows, state`rigs
      ensures r.NoKey? <==> !hasKey
      ensures !hasKey ==> View([]) == old(View([])) && desk.View(state) == old(desk.View(state))
      ensures hasKey ==>
        desk.View(state) == if reply.Some? then
          CheckIns.Poll(old(desk.View(state)), sid, reply.value, old(desk.rows), now) else old(desk.View(state))
      ensures hasKey ==>
        var todo := Selected(old(db.laps), desk.rows, sid);
        && View([]) == SendAll(old(View([])).(todo := todo), o, 0)
        && InBatches(r.sent, todo) && |r.sent| == Requests(|todo|, o)
        && (r.finalSent <==> finalize && Covered(|todo|, o, 0) == |todo|)
        && (r.failed <==> Covered(|todo|, o, 0) < |todo| || (r.finalSent && final.FinalFailed?))
        && r.skipped == |LB.Unsynced(old(db.laps), sid)| - |todo|
    {
      hide LB.Unsynced, CheckIns.Poll, Requests, Covered, SendAll, ClaimedOnly, InBatches;
      if !hasKey {
        return NoKey;
      }
      if reply.Some? {
        var _ := desk.PollSessionCheckins(state, sid, reply.value, now);
      }
      var unsynced := LB.Unsynced(db.laps, sid);
      var todo := FilterClaimed(unsynced, desk.rows, sid);
      assert todo == Selected(db.laps, desk.rows, sid);
      SelectedUploadable(db.laps, desk.rows, sid);
      var sent, failed := SendBatches(todo, o);
      var finalSent := finalize && !failed;
      if finalSent && final.FinalFailed? {
        failed := true;
      }
      return Report(sent, failed, finalSent, |unsynced| - |todo|);
    }

    method SendBatches(todo: seq<Lap>, o: nat -> Outcome) returns (sent: seq<seq<Lap>>, failed: bool)
      requires forall l :: l in todo ==> LB.Uploadable(l)
      modifies this`server, this`acked, db`laps
      ensures View([]) == SendAll(old(View(todo)), o, 0)
      ensures InBatches(sent, todo) && |sent| == Requests(|todo|, o)
      ensures failed <==> Covered(|todo|, o, 0) < |todo|
    {
      hide LB.Uploadable, Batch, Covered, SendAll, Send, Midway, InBatches, Requests, From;
      sent, failed := [], false;
      var n := 0;
      ghost var start := View(todo);
      NothingSent(start, o);
      while n * MAX_BATCH < |todo|
        invariant n == |sent| && n * MAX_BATCH < |todo| + MAX_BATCH && !failed
        invariant InBatches(sent, todo)
        invariant Midway(start, View(From(todo, n * MAX_BATCH)), o, n)
        decreases |todo| - n * MAX_BATCH
      {
        FromMembers(todo, n * MAX_BATCH);
        ghost var w := View(From(todo, n * MAX_BATCH));
        var payload := SendBatch(From(todo, n * MAX_BATCH), o(n));
        MidwayStep(start, w, o, n);
        BatchSent(sent, todo);
        sent := sent + [payload];
        FromNext(todo, n * MAX_BATCH);
        if !o(n).Acknowledged? {
          failed := true;
          Stopped(w, o(n));
          RequestsFailed(|todo|, o, n);
          return;
        }
        AnsweredRest(w, o(n));
        n := n + 1;
      }
      FromMembers(todo, n * MAX_BATCH);
      NothingLeft(start, View(From(todo, n * MAX_BATCH)), o, n);
      RequestsDone(|todo|, o, n);
    }

    /** One request: its effect on the server, and here when acknowledged. */
    method SendBatch(rest: seq<Lap>, outcome: Outcome) returns (payload: seq<Lap>)
      requires rest != [] && forall l :: l in rest ==> LB.Uploadable(l)
      modifies this`server, this`acked, db`laps
      ensures payload == Batch(rest)
      ensures View(Send(old(View(rest)), outcome).todo) == Send(old(View(rest)), outcome)
    {
      hide LB.Uploadable, LB.Mark, Deliver, Batch, Sources, Ids;
      var ids;
      BatchPart(rest);
      payload, ids := Payload(Batch(rest));
      if Stored(outcome) {
        server := Deliver(server, payload);
      }
      if outcome.Acknowledged? {
        acked := acked + Sources(payload);
        db.MarkLapsSynced(ids);
      }
    }
  }

  lemma SelectedUploadable(laps: seq<Lap>, rows: CheckIns.Table, sid: Id)
    ensures forall l :: l in Selected(laps, rows, sid) ==> LB.Uploadable(l)
    ensures |Selected(laps, rows, sid)| <= |LB.Unsynced(laps, sid)|
  {
    ClaimedShorter(LB.Unsynced(laps, sid), rows, sid);
  }

  lemma {:induction false} ClaimedShorter(laps: seq<Lap>, rows: CheckIns.Table, sid: Id)
    ensures |ClaimedOnly(laps, rows, sid)| <= |laps|
  {
    if laps != [] { ClaimedShorter(laps[..|laps| - 1], rows, sid); }
  }

  function From(todo: seq<Lap>, at: nat): seq<Lap> {
    if at <= |todo| then todo[at..] else []
  }

  /** The requests carry consecutive batches of at most 500. */
  ghost predicate InBatches(sent: seq<seq<Lap>>, todo: seq<Lap>) {
    forall i :: 0 <= i < |sent| ==> i * MAX_BATCH < |todo| && sent[i] == Batch(todo[i * MAX_BATCH..])
  }

  /**
    Every request carries 1 to 500 laps of the session, none synchronised, with
    times up to a day; once the session has rows, every one of a rig whose row
    says that it is claimed.
  */
  lemma SentOnlyClaimed(sent: seq<seq<Lap>>, laps: seq<Lap>, rows: CheckIns.Table, sid: Id)
    requires InBatches(sent, Selected(laps, rows, sid))
    ensures forall i :: 0 <= i < |sent| ==> 0 < |sent[i]| <= 500
    ensures forall i, l :: 0 <= i < |sent| && l in sent[i] ==>
      && l in laps && l.sid == sid && !l.synced && l.timeMs.Some? && 0 < l.timeMs.value <= 86_400_000
      && ((exists k :: k in rows && k.0 == sid) ==>
            (sid, l.rid) in rows && rows[(sid, l.rid)].status == Claimed)
  {
    hide Batch, Selected;
    var todo := Selected(laps, rows, sid);
    forall i | 0 <= i < |sent|
      ensures 0 < |sent[i]| <= MAX_BATCH && forall l :: l in sent[i] ==> l in todo
    {
      BatchPart(todo[i * MAX_BATCH..]);
    }
    forall l | l in todo
      ensures l in laps && l.sid == sid && !l.synced && l.timeMs.Some? && 0 < l.timeMs.value <= 86_400_000
      ensures (exists k :: k in rows && k.0 == sid) ==>
        (sid, l.rid) in rows && rows[(sid, l.rid)].status == Claimed
    {
      SelectedIff(laps, rows, sid, l);
    }
  }

  /**
    A call selects exactly the unsynchronised laps of the session with times up to
    a day, of claimed rigs only once the session has rows.
  */
  lemma SelectedIff(laps: seq<Lap>, rows: CheckIns.Table, sid: Id, l: Lap)
    ensures l in Selected(laps, rows, sid) <==>
      && l in laps && l.sid == sid && !l.synced && l.timeMs.Some? && 0 < l.timeMs.value <= 86_400_000
      && ((exists k :: k in rows && k.0 == sid) ==>
            (sid, l.rid) in rows && rows[(sid, l.rid)].status == Claimed)
  {}

  /** Of the laps given those of claimed rigs stay, all of them while the session has no rows. */
  lemma ClaimedOnlyIs(laps: seq<Lap>, rows: CheckIns.Table, sid: Id)
    ensures (forall k :: k in rows ==> k.0 != sid) ==> ClaimedOnly(laps, rows, sid) == laps
    ensures (exists k :: k in rows && k.0 == sid) ==>
      forall l :: l in ClaimedOnly(laps, rows, sid) <==>
        l in laps && (sid, l.rid) in rows && rows[(sid, l.rid)].status == Claimed
  {
    hide ClaimedOnly;
    if !HasRows(rows, sid) {
      AllSendable(laps, rows, sid);
    }
    forall l ensures l in ClaimedOnly(laps, rows, sid) <==> l in laps && Sendable(rows, sid, l) {
      ClaimedOnlyMember(laps, rows, sid, l);
    }
  }

  lemma ClaimedOnlyMember(laps: seq<Lap>, rows: CheckIns.Table, sid: Id, l: Lap)
    ensures l in ClaimedOnly(laps, rows, sid) <==> l in laps && Sendable(rows, sid, l)
  {}

  /** Request i carries laps 500 i to 500 i + 499 of the selection, as far as there are any. */
  lemma BatchesAre(sent: seq<seq<Lap>>, todo: seq<Lap>, i: nat, j: nat)
    requires InBatches(sent, todo) && i < |sent|
    ensures j < |sent[i]| <==> j < 500 && i * 500 + j < |todo|
    ensures j < |sent[i]| ==> sent[i][j] == todo[i * 500 + j]
  {}

  /**
    Requests are made until all laps have been sent or one is not acknowledged: all
    before the last were, and the last was needed.
  */
  lemma RequestsAre(count: nat, o: nat -> Outcome)
    ensures var n := Requests(count, o);
      && (n == 0 <==> count == 0)
      && (forall j: nat :: j < n - 1 ==> o(j).Acknowledged?)
      && (n > 0 ==> (n - 1) * 500 < count && (n * 500 >= count || !o(n - 1).Acknowledged?))
      && (Covered(count, o, 0) == count <==> n == 0 || (n * 500 >= count && o(n - 1).Acknowledged?))
  {
    hide Covered;
    CoveredIsPrefix(count, o, 0);
    var m, n := Covered(count, o, 0), Requests(count, o);
    assert o(0 + m / MAX_BATCH) == o(m / MAX_BATCH);
    forall j: nat | j * MAX_BATCH < m ensures o(j).Acknowledged? {
      assert o(0 + j).Acknowledged?;
    }
  }

  ghost predicate Carries(laps: seq<Lap>, source: string) {
    exists l :: l in laps && l.source == source
  }

  /** What a request puts on the server: the batch if it got there, acknowledged or not, and otherwise nothing. */
  lemma RequestOnServer(w: World, o: Outcome, source: string)
    requires w.todo != []
    ensures var t := Send(w, o);
      var n := if |w.todo| < 500 then |w.todo| else 500;
      && w.server <= t.server
      && (Carries(t.server, source) <==>
            Carries(w.server, source) || ((o == Acknowledged || o == LostReply) && Carries(w.todo[..n], source)))
  {
    hide Deliver, Holds, Carries;
    var batch := Batch(w.todo);
    assert batch == w.todo[..if |w.todo| < 500 then |w.todo| else 500];
    Delivered(w.server, batch);
    DeliverExtends(w.server, batch);
    HoldsIff(batch, source);
    HoldsIff(w.server, source);
    HoldsIff(Deliver(w.server, batch), source);
  }

  /** Only an acknowledgement marks laps, those of the batch, and lets the call go on to the rest. */
  lemma RequestHere(w: World, o: Outcome)
    requires w.todo != []
    ensures var t := Send(w, o);
      var n := if |w.todo| < 500 then |w.todo| else 500;
      && (o != Acknowledged ==> t.tables == w.tables && t.acked == w.acked && t.todo == [])
      && (o == Acknowledged ==>
            && t.todo == w.todo[n..]
            && t.tables == w.tables.(laps := t.tables.laps) && |t.tables.laps| == |w.tables.laps|
            && (forall i :: 0 <= i < |t.tables.laps| ==>
                  t.tables.laps[i] == if exists l :: l in w.todo[..n] && l.id == w.tables.laps[i].id
                    then w.tables.laps[i].(synced := true) else w.tables.laps[i])
            && forall source :: source in t.acked <==> source in w.acked || Carries(w.todo[..n], source))
  {
    hide Deliver, Holds, Carries;
    var n := if |w.todo| < 500 then |w.todo| else 500;
    assert Batch(w.todo) == w.todo[..n];
    forall source ensures Holds(w.todo[..n], source) <==> Carries(w.todo[..n], source) {
      HoldsIff(w.todo[..n], source);
    }
  }

  lemma HoldsIff(laps: seq<Lap>, source: string)
    ensures Holds(laps, source) <==> Carries(laps, source)
  {
    if i :| 0 <= i < |laps| && laps[i].source == source {
      assert laps[i] in laps;
    }
    if l :| l in laps && l.source == source {
      SourceHeld(laps, l);
    }
  }

  lemma {:induction false} DeliverExtends(server: seq<Lap>, batch: seq<Lap>)
    ensures server <= Deliver(server, batch)
  {
    if batch != [] {
      DeliverExtends(server, batch[..|batch| - 1]);
    }
  }

  lemma BatchSent(sent: seq<seq<Lap>>, todo: seq<Lap>)
    requires InBatches(sent, todo) && |sent| * MAX_BATCH < |todo|
    ensures InBatches(sent + [Batch(From(todo, |sent| * MAX_BATCH))], todo)
  {
    hide Batch;
  }

  /** The call has sent n acknowledged batches and stands at `w`. */
  ghost predicate Midway(start: World, w: World, o: nat -> Outcome, n: nat) {
    && SendAll(w, o, n) == SendAll(start, o, 0)
    && Covered(|start.todo|, o, 0) == |start.todo| - |w.todo| + Covered(|w.todo|, o, n)
  }

  lemma NothingSent(start: World, o: nat -> Outcome)
    ensures Midway(start, start, o, 0) && InBatches([], start.todo) && From(start.todo, 0) == start.todo
  {}

  lemma MidwayStep(start: World, w: World, o: nat -> Outcome, n: nat)
    requires Midway(start, w, o, n) && w.todo != []
    ensures o(n).Acknowledged? ==> Midway(start, Send(w, o(n)), o, n + 1)
    ensures !o(n).Acknowledged? ==>
      Send(w, o(n)) == SendAll(start, o, 0) && Covered(|start.todo|, o, 0) == |start.todo| - |w.todo|
  {
    hide SendAll, Covered, Send;
    SendStep(w, o, n);
    CoveredStep(w, o, n);
  }

  lemma SendStep(w: World, o: nat -> Outcome, n: nat)
    requires w.todo != []
    ensures SendAll(w, o, n) == SendAll(Send(w, o(n)), o, n + 1)
    ensures !o(n).Acknowledged? ==> SendAll(w, o, n) == Send(w, o(n))
  {}

  lemma CoveredStep(w: World, o: nat -> Outcome, n: nat)
    requires w.todo != []
    ensures Covered(|w.todo|, o, n) ==
      if o(n).Acknowledged? then |w.todo| - |Send(w, o(n)).todo| + Covered(|Send(w, o(n)).todo|, o, n + 1) else 0
  {
    hide LB.Mark, Deliver, Sources, Ids;
  }

  lemma NothingLeft(start: World, w: World, o: nat -> Outcome, n: nat)
    requires Midway(start, w, o, n) && w.todo == []
    ensures w == SendAll(start, o, 0) && Covered(|start.todo|, o, 0) == |start.todo|
  {}

  lemma Stopped(w: World, o: Outcome)
    requires w.todo != [] && !o.Acknowledged?
    ensures Send(w, o).todo == []
  {}

  lemma AnsweredRest(w: World, o: Outcome)
    requires w.todo != [] && o.Acknowledged?
    ensures Send(w, o).todo == w.todo[|Batch(w.todo)|..]
  {}

  lemma FromMembers(todo: seq<Lap>, at: nat)
    ensures forall l :: l in From(todo, at) ==> l in todo
    ensures |From(todo, at)| == if at <= |todo| then |todo| - at else 0
  {}

  lemma FromNext(todo: seq<Lap>, at: nat)
    requires at < |todo|
    ensures From(todo, at)[|Batch(From(todo, at))|..] == From(todo, at + MAX_BATCH)
  {}

  lemma RequestsFailed(count: nat, o: nat -> Outcome, n: nat)
    requires Covered(count, o, 0) == n * MAX_BATCH < count
    ensures Requests(count, o) == n + 1
  {}

  lemma RequestsDone(count: nat, o: nat -> Outcome, n: nat)
    requires Covered(count, o, 0) == count && count <= n * MAX_BATCH < count + MAX_BATCH
    ensures Requests(count, o) == n
  {}

  /** The request body and the row ids of a batch. */
  method Payload(batch: seq<Lap>) returns (payload: seq<Lap>, ids: set<nat>)
    ensures (forall l :: l in batch ==> LB.Uploadable(l)) ==> payload == batch && ids == Ids(batch)
    ensures forall l :: l in payload <==> l in batch && LB.Uploadable(l)
  {
    payload, ids := [], {};
    for i := 0 to |batch|
      invariant forall l :: l in payload <==> l in batch[..i] && LB.Uploadable(l)
      invariant (forall l :: l in batch[..i] ==> LB.Uploadable(l)) ==> payload == batch[..i] && ids == Ids(batch[..i])
    {
      assert batch[..i + 1] == batch[..i] + [batch[i]];
      IdsSplit(batch[..i], [batch[i]]);
      if LB.Uploadable(batch[i]) {
        ids := ids + {batch[i].id};
        payload := payload + [batch[i]];
      }
    }
    assert batch[..|batch|] == batch;
  }

  /** With check-in rows for the session only claimed rigs' laps stay. */
  method FilterClaimed(laps: seq<Lap>, rows: CheckIns.Table, sid: Id) returns (r: seq<Lap>)
    ensures r == ClaimedOnly(laps, rows, sid)
  {
    hide IsClaimed, HasRows;
    if !HasRows(rows, sid) {
      AllSendable(laps, rows, sid);
      return laps;
    }
    r := [];
    for i := 0 to |laps|
      invariant r == ClaimedOnly(laps[..i], rows, sid)
    {
      assert laps[..i + 1][..i] == laps[..i];
      if IsClaimed(rows, sid, laps[i].rid) {
        r := r + [laps[i]];
      }
    }
    assert laps[..|laps|] == laps;
  }

  lemma {:induction false} AllSendable(laps: seq<Lap>, rows: CheckIns.Table, sid: Id)
    requires !HasRows(rows, sid)
    ensures ClaimedOnly(laps, rows, sid) == laps
  {
    hide HasRows, IsClaimed;
    if laps != [] {
      assert laps == laps[..|laps| - 1] + [laps[|laps| - 1]];
      AllSendable(laps[..|laps| - 1], rows, sid);
    }
  }
}

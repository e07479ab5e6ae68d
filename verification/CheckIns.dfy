/** Check-in rows, the poll that binds drivers to rigs, and the operator's unbind. */
module CheckIns {
  import opened Wrappers
  import opened AppState
  import opened Registry

  /** A row of the check-in table, keyed by session and rig. */
  datatype Row = Row(status: CheckStatus, driverId: Option<string>, driver: Option<string>)

  type Table = map<(Id, Id), Row>

  /** One entry of the server's reply. */
  datatype Item = Item(rid: Id, status: CheckStatus, driverId: Option<string>, driver: Option<string>)

  /** The rigs and the table. */
  datatype Desk = Desk(rigs: map<Id, Rig>, rows: Table)

  function UpdateRow(rows: Table, sid: Id, item: Item, status: CheckStatus): Table {
    if (sid, item.rid) in rows then
      var row := rows[(sid, item.rid)];
      rows[(sid, item.rid) := Row(status, OrElse(item.driverId, row.driverId), OrElse(item.driver, row.driver))]
    else rows
  }

  predicate Names(item: Item) {
    item.driverId.Some? || item.driver.Some?
  }

  /** What one entry does; `before` is the table as the poll found it. */
  function PollItem(d: Desk, sid: Id, item: Item, before: Table, now: real): Desk {
    if item.rid == "" then d
    else
      var rig := Upserted(d.rigs, item.rid, now);
      var wasUnbound := (sid, item.rid) in before && before[(sid, item.rid)].status == Unbound;
      if (rig.driverUnbound || wasUnbound) && item.status == Claimed then
        Desk(d.rigs[item.rid := rig], UpdateRow(d.rows, sid, item, Unbound))
      else
        Desk(d.rigs[item.rid :=
               if item.status == Claimed && Names(item) then
                 rig.(driverUnbound := false, checkin := Some(Claimed), driverId := item.driverId,
                      driver := OrElse(item.driver, item.driverId))
               else rig.(checkin := Some(item.status))],
             UpdateRow(d.rows, sid, item, item.status))
  }

  function Poll(d: Desk, sid: Id, items: seq<Item>, before: Table, now: real): Desk {
    if items == [] then d
    else PollItem(Poll(d, sid, items[..|items| - 1], before, now), sid, items[|items| - 1], before, now)
  }

  /** The operator clears the driver of a rig: its rows of every session are marked, its record flagged. */
  function Unbind(d: Desk, rid: Id, now: real): Desk {
    var rig := if rid in d.rigs then d.rigs[rid] else NewRig(Some(now));
    Desk(d.rigs[rid := rig.(driver := None, driverId := None, checkin := None, driverUnbound := true)],
         map k | k in d.rows :: if k.1 == rid then d.rows[k].(status := Unbound) else d.rows[k])
  }

  /** The operator names a driver for a rig. */
  function Assign(d: Desk, rid: Id, name: string, now: real): Desk {
    var rig := if rid in d.rigs then d.rigs[rid] else NewRig(Some(now));
    d.(rigs := d.rigs[rid := rig.(driver := Some(name), driverUnbound := false)])
  }

  function Registered(d: Desk, sid: Id, rid: Id, now: real): Desk {
    var row := if (sid, rid) in d.rows then d.rows[(sid, rid)].(status := Pending) else Row(Pending, None, None);
    Desk(d.rigs[rid := Upserted(d.rigs, rid, now).(sessionId := Some(sid), checkin := Some(Pending),
      driverUnbound := false)],
         d.rows[(sid, rid) := row])
  }

  /** New tokens for the first fifty rigs listed. */
  function Register(d: Desk, sid: Id, rids: seq<Id>, now: real): Desk {
    if rids == [] then d else Registered(Register(d, sid, rids[..|rids| - 1], now), sid, rids[|rids| - 1], now)
  }

  const MAX_TOKENS := 50

  // ----- a poll write by write: it runs in a thread of its own

  /** One write of a poll: to the row of its entry, or to a field of the rig. */
  datatype Write = RowIs(status: CheckStatus) | Unflag | CheckinIs(status: CheckStatus)
      | DriverIdIs(id: Option<string>) | DriverIs(name: Option<string>)

  /** What the poll decides for an entry when it looks at the flag. */
  function Writes(d: Desk, sid: Id, item: Item, before: Table, now: real): seq<Write> {
    var wasUnbound := (sid, item.rid) in before && before[(sid, item.rid)].status == Unbound;
    if (Upserted(d.rigs, item.rid, now).driverUnbound || wasUnbound) && item.status == Claimed then [RowIs(Unbound)]
    else if item.status == Claimed && Names(item) then
      [RowIs(Claimed), Unflag, CheckinIs(Claimed), DriverIdIs(item.driverId),
        DriverIs(OrElse(item.driver, item.driverId))]
    else [RowIs(item.status), CheckinIs(item.status)]
  }

  function SetRig(d: Desk, rid: Id, f: Rig -> Rig): Desk {
    if rid in d.rigs then d.(rigs := d.rigs[rid := f(d.rigs[rid])]) else d
  }

  function Written(d: Desk, sid: Id, item: Item, w: Write): Desk {
    match w
    case RowIs(status) => d.(rows := UpdateRow(d.rows, sid, item, status))
    case Unflag => SetRig(d, item.rid, (r: Rig) => r.(driverUnbound := false))
    case CheckinIs(status) => SetRig(d, item.rid, (r: Rig) => r.(checkin := Some(status)))
    case DriverIdIs(id) => SetRig(d, item.rid, (r: Rig) => r.(driverId := id))
    case DriverIs(name) => SetRig(d, item.rid, (r: Rig) => r.(driver := name))
  }

  /** An entry with the writes still to come. */
  datatype Underway = Underway(sid: Id, item: Item, writes: seq<Write>)

  /** The rigs and rows, and the entries under way in any number of polls. */
  datatype Office = Office(desk: Desk, pending: seq<Underway>)

  /**
    A poll looks at an entry, with the rows as read before its request went out,
    and later makes its writes one by one.
  */
  datatype Event =
    | Looking(sid: Id, item: Item, before: Table, now: real)
    | Writing(i: nat)
    | Unbinding(rid: Id, now: real)
    | Assigned(rid: Id, name: string, now: real)
    | Tokens(sid: Id, rids: seq<Id>, now: real)
    | Beat(rid: Id, rig: Rig, now: real)

  function Step(o: Office, e: Event): Office {
    match e
    case Looking(sid, item, before, now) =>
      if item.rid == "" then o
      else Office(o.desk.(rigs := o.desk.rigs[item.rid := Upserted(o.desk.rigs, item.rid, now)]),
                  o.pending + [Underway(sid, item, Writes(o.desk, sid, item, before, now))])
    case Writing(i) =>
      if i < |o.pending| && o.pending[i].writes != [] then
        var p := o.pending[i];
        Office(Written(o.desk, p.sid, p.item, p.writes[0]), o.pending[i := p.(writes := p.writes[1..])])
      else o
    case Unbinding(rid, now) => o.(desk := Unbind(o.desk, rid, now))
    case Assigned(rid, name, now) => o.(desk := Assign(o.desk, rid, name, now))
    case Tokens(sid, rids, now) => o.(desk := Register(o.desk, sid, rids, now))
    // heartbeats and commands change other fields only
    case Beat(rid, rig, now) =>
      o.(desk := o.desk.(rigs := o.desk.rigs[rid :=
        var was := Upserted(o.desk.rigs, rid, now);
        rig.(driver := was.driver, driverId := was.driverId, driverUnbound := was.driverUnbound,
          checkin := was.checkin)]))
  }

  function Run(o: Office, es: seq<Event>): Office {
    if es == [] then o else Step(Run(o, es[..|es| - 1]), es[|es| - 1])
  }

  lemma {:induction false} RunJoin(o: Office, a: seq<Event>, b: seq<Event>)
    ensures Run(o, a + b) == Run(Run(o, a), b)
  {
    hide Step;
    if b == [] {
      assert a + b == a;
    } else {
      assert (a + b)[..|a + b| - 1] == a + b[..|b| - 1];
      RunJoin(o, a, b[..|b| - 1]);
    }
  }

  function WriteAll(d: Desk, sid: Id, item: Item, ws: seq<Write>): Desk
    decreases |ws|
  {
    if ws == [] then d else WriteAll(Written(d, sid, item, ws[0]), sid, item, ws[1..])
  }

  lemma {:induction false} WritingAll(o: Office, i: nat) returns (es: seq<Event>)
    requires i < |o.pending|
    ensures Run(o, es).desk == WriteAll(o.desk, o.pending[i].sid, o.pending[i].item, o.pending[i].writes)
    ensures forall j :: 0 <= j < |es| ==> es[j] == Writing(i)
    decreases |o.pending[i].writes|
  {
    hide Written;
    if o.pending[i].writes == [] {
      es := [];
    } else {
      var next := Step(o, Writing(i));
      var more := WritingAll(next, i);
      es := [Writing(i)] + more;
      RunOne(o, Writing(i));
      RunJoin(o, [Writing(i)], more);
    }
  }

  lemma RunOne(o: Office, e: Event)
    ensures Run(o, [e]) == Step(o, e)
  {
    hide Step;
    assert [e][..0] == [] && Run(o, []) == o;
  }

  /** A look and its writes together do what the entry does. */
  lemma WritesAreItem(d: Desk, sid: Id, item: Item, before: Table, now: real)
    requires item.rid != ""
    ensures WriteAll(d.(rigs := d.rigs[item.rid := Upserted(d.rigs, item.rid, now)]), sid, item,
      Writes(d, sid, item, before, now))
      == PollItem(d, sid, item, before, now)
  {
    hide UpdateRow, Upserted, WriteAll, Written;
    var rig := Upserted(d.rigs, item.rid, now);
    var seen := d.(rigs := d.rigs[item.rid := rig]);
    var ws := Writes(d, sid, item, before, now);
    if |ws| == 1 {
      WriteOne(seen, sid, item, ws[0]);
      RowWritten(seen, sid, item, Unbound);
    } else if |ws| == 2 {
      WriteTwo(seen, sid, item, ws[0], ws[1]);
      RowWritten(seen, sid, item, item.status);
      CheckinWritten(seen.(rows := UpdateRow(d.rows, sid, item, item.status)), sid, item);
      assert d.rigs[item.rid := rig][item.rid := rig.(checkin := Some(item.status))]
        == d.rigs[item.rid := rig.(checkin := Some(item.status))];
    } else {
      WriteFive(seen, sid, item, ws);
      RowWritten(seen, sid, item, Claimed);
      ClaimWritten(seen.(rows := UpdateRow(d.rows, sid, item, Claimed)), sid, item);
    }
  }

  lemma RowWritten(d: Desk, sid: Id, item: Item, status: CheckStatus)
    ensures Written(d, sid, item, RowIs(status)) == d.(rows := UpdateRow(d.rows, sid, item, status))
  {}

  lemma CheckinWritten(d: Desk, sid: Id, item: Item)
    requires item.rid in d.rigs
    ensures Written(d, sid, item, CheckinIs(item.status))
      == d.(rigs := d.rigs[item.rid := d.rigs[item.rid].(checkin := Some(item.status))])
  {}

  lemma ClaimWritten(d: Desk, sid: Id, item: Item)
    requires item.rid in d.rigs
    ensures var display := OrElse(item.driver, item.driverId);
      Written(Written(Written(Written(d, sid, item, Unflag), sid, item, CheckinIs(Claimed)), sid, item,
        DriverIdIs(item.driverId)), sid, item, DriverIs(display))
      == d.(rigs := d.rigs[item.rid :=
           d.rigs[item.rid].(driverUnbound := false, checkin := Some(Claimed), driverId := item.driverId,
             driver := display)])
  {
    hide UpdateRow;
  }

  lemma WriteOne(d: Desk, sid: Id, item: Item, w: Write)
    ensures WriteAll(d, sid, item, [w]) == Written(d, sid, item, w)
  {
    hide Written;
    assert [w][1..] == [];
  }

  lemma WriteTwo(d: Desk, sid: Id, item: Item, w: Write, x: Write)
    ensures WriteAll(d, sid, item, [w, x]) == Written(Written(d, sid, item, w), sid, item, x)
  {
    hide Written;
    assert [w, x][1..] == [x];
    WriteOne(Written(d, sid, item, w), sid, item, x);
  }

  lemma WriteStep(d: Desk, sid: Id, item: Item, ws: seq<Write>)
    requires ws != []
    ensures WriteAll(d, sid, item, ws) == WriteAll(Written(d, sid, item, ws[0]), sid, item, ws[1..])
  {}

  lemma WriteFive(d: Desk, sid: Id, item: Item, ws: seq<Write>)
    requires |ws| == 5
    ensures WriteAll(d, sid, item, ws)
      == Written(Written(Written(Written(Written(d, sid, item, ws[0]), sid, item, ws[1]), sid, item, ws[2]), sid,
        item, ws[3]), sid, item, ws[4])
  {
    hide Written, WriteAll;
    assert ws[1..][1..] == ws[2..] && ws[2..][1..] == [ws[3], ws[4]];
    var one := Written(d, sid, item, ws[0]);
    var two := Written(one, sid, item, ws[1]);
    WriteStep(d, sid, item, ws);
    WriteStep(one, sid, item, ws[1..]);
    WriteStep(two, sid, item, ws[2..]);
    WriteTwo(Written(two, sid, item, ws[2]), sid, item, ws[3], ws[4]);
  }

  /** A poll left undisturbed is a run of its looks and writes. */
  lemma {:induction false} PollIsRun(o: Office, sid: Id, items: seq<Item>, before: Table, now: real)
      returns (es: seq<Event>)
    ensures Run(o, es).desk == Poll(o.desk, sid, items, before, now)
    ensures forall i :: 0 <= i < |es| ==> es[i].Writing? || (es[i].Looking? && es[i].item in items)
  {
    hide PollItem, Writes, WriteAll;
    if items == [] {
      es := [];
    } else {
      var item := items[|items| - 1];
      assert items == items[..|items| - 1] + [item];
      var first := PollIsRun(o, sid, items[..|items| - 1], before, now);
      var at := Run(o, first);
      var look := Looking(sid, item, before, now);
      RunOne(at, look);
      RunJoin(o, first, [look]);
      if item.rid == "" {
        EmptyItem(at.desk, sid, item, before, now);
        es := first + [look];
      } else {
        var seen := Step(at, look);
        var more := WritingAll(seen, |at.pending|);
        WritesAreItem(at.desk, sid, item, before, now);
        RunJoin(o, first + [look], more);
        es := first + [look] + more;
      }
    }
  }

  lemma EmptyItem(d: Desk, sid: Id, item: Item, before: Table, now: real)
    ensures item.rid == "" ==> PollItem(d, sid, item, before, now) == d
  {}

  // ----- an unbind sticks

  /** The rig is flagged, names nobody, and no row of any session counts it as claimed. */
  ghost predicate Free(d: Desk, rid: Id) {
    && rid in d.rigs && d.rigs[rid].driverUnbound && d.rigs[rid].driver == None && d.rigs[rid].driverId == None
    && forall k :: k in d.rows && k.1 == rid ==> d.rows[k].status != Claimed
  }

  /** A write that takes the rig's freedom, if the row it goes to exists. */
  predicate Harms(w: Write) {
    match w
    case RowIs(status) => status == Claimed
    case Unflag => true
    case CheckinIs(_) => false
    case DriverIdIs(id) => id.Some?
    case DriverIs(name) => name.Some?
  }

  /** The step is a harmful write for the rig, or the operator registers it or names a driver. */
  predicate Overwrites(o: Office, e: Event, rid: Id) {
    match e
    case Writing(i) =>
      i < |o.pending| && o.pending[i].writes != [] && o.pending[i].item.rid == rid &&
      var w := o.pending[i].writes[0];
      Harms(w) && (w.RowIs? ==> (o.pending[i].sid, rid) in o.desk.rows)
    case Assigned(r, _, _) => r == rid
    case Tokens(_, rids, _) => rid in rids
    case _ => false
  }

  lemma UnbindFrees(d: Desk, rid: Id, now: real)
    ensures Free(Unbind(d, rid, now), rid)
  {}

  lemma {:induction false} RegisterKeepsFree(d: Desk, sid: Id, rids: seq<Id>, now: real, rid: Id)
    requires Free(d, rid)
    ensures Free(Register(d, sid, rids, now), rid) <==> rid !in rids
    ensures rid in rids ==>
      rid in Register(d, sid, rids, now).rigs && !Register(d, sid, rids, now).rigs[rid].driverUnbound
  {
    if rids != [] {
      assert rids == rids[..|rids| - 1] + [rids[|rids| - 1]];
      RegisterKeepsFree(d, sid, rids[..|rids| - 1], now, rid);
    }
  }

  lemma WrittenFreeIff(d: Desk, sid: Id, item: Item, w: Write, rid: Id)
    requires Free(d, rid)
    ensures Free(Written(d, sid, item, w), rid)
      <==> !(item.rid == rid && Harms(w) && (w.RowIs? ==> (sid, rid) in d.rows))
  {
    var t := Written(d, sid, item, w);
    if w.RowIs? && item.rid == rid && (sid, rid) in d.rows {
      assert t.rows[(sid, rid)].status == w.status;
    }
  }

  /** A free rig stays free exactly when the step does not overwrite it. */
  lemma StepFreeIff(o: Office, e: Event, rid: Id)
    requires Free(o.desk, rid)
    ensures Free(Step(o, e).desk, rid) <==> !Overwrites(o, e, rid)
  {
    hide Written, Writes, Harms, Register;
    match e
    case Writing(i) =>
      if i < |o.pending| && o.pending[i].writes != [] {
        WrittenFreeIff(o.desk, o.pending[i].sid, o.pending[i].item, o.pending[i].writes[0], rid);
      }
    case Tokens(sid, rids, now) => RegisterKeepsFree(o.desk, sid, rids, now, rid);
    case _ =>
  }

  ghost predicate FreeAt(o: Office, es: seq<Event>, rid: Id, n: nat)
    requires n <= |es|
  {
    Free(Run(o, es[..n]).desk, rid)
  }

  predicate OverwritesAt(o: Office, es: seq<Event>, rid: Id, n: nat)
    requires n < |es|
  {
    Overwrites(Run(o, es[..n]), es[n], rid)
  }

  lemma FreeNext(o: Office, es: seq<Event>, rid: Id, n: nat)
    requires n < |es| && FreeAt(o, es, rid, n)
    ensures FreeAt(o, es, rid, n + 1) <==> !OverwritesAt(o, es, rid, n)
  {
    hide Step, Free, Overwrites;
    assert es[..n + 1][..n] == es[..n];
    StepFreeIff(Run(o, es[..n]), es[n], rid);
  }

  lemma {:induction false} FreeWhile(o: Office, es: seq<Event>, rid: Id, m: nat)
    requires Free(o.desk, rid) && m <= |es| && forall n :: 0 <= n < m ==> !OverwritesAt(o, es, rid, n)
    ensures FreeAt(o, es, rid, m)
  {
    hide Step, Free, OverwritesAt;
    if m == 0 {
      assert es[..0] == [];
    } else {
      FreeWhile(o, es, rid, m - 1);
      FreeNext(o, es, rid, m - 1);
    }
  }

  /** From an unbind on, with polls at any stage, the rig stays free throughout exactly when no step overwrites it. */
  lemma UnbindSurvivesIff(before: Office, rid: Id, t: real, es: seq<Event>)
    ensures var o := Step(before, Unbinding(rid, t));
      (forall n :: 0 <= n <= |es| ==> FreeAt(o, es, rid, n))
        <==> forall n :: 0 <= n < |es| ==> !OverwritesAt(o, es, rid, n)
  {
    hide FreeAt, OverwritesAt, Free;
    var o := Step(before, Unbinding(rid, t));
    UnbindFrees(before.desk, rid, t);
    if forall n :: 0 <= n < |es| ==> !OverwritesAt(o, es, rid, n) {
      forall m | 0 <= m <= |es| ensures FreeAt(o, es, rid, m) {
        FreeWhile(o, es, rid, m);
      }
    }
    if forall n :: 0 <= n <= |es| ==> FreeAt(o, es, rid, n) {
      forall n | 0 <= n < |es| ensures !OverwritesAt(o, es, rid, n) {
        FreeNext(o, es, rid, n);
      }
    }
  }

  /** A poll has looked at the rig while it was not free and still has a harmful write to make. */
  predicate InFlight(o: Office, rid: Id) {
    exists i :: 0 <= i < |o.pending| && HarmsLater(o.pending[i], rid)
  }

  predicate HarmsLater(p: Underway, rid: Id) {
    p.item.rid == rid && exists j :: 0 <= j < |p.writes| && Harms(p.writes[j])
  }

  /** Neither a new registration nor a manual assignment for the rig. */
  predicate LeavesAlone(e: Event, rid: Id) {
    match e
    case Assigned(r, _, _) => r != rid
    case Tokens(_, rids, _) => rid !in rids
    case _ => true
  }

  /** A poll that looks at a free rig decides on nothing harmful. */
  lemma FreeLookHarmless(d: Desk, sid: Id, item: Item, before: Table, now: real, rid: Id)
    requires Free(d, rid)
    ensures !HarmsLater(Underway(sid, item, Writes(d, sid, item, before, now)), rid)
  {}

  lemma StepNotInFlight(o: Office, e: Event, rid: Id)
    requires Free(o.desk, rid) && !InFlight(o, rid)
    ensures !InFlight(Step(o, e), rid)
  {
    hide Written, Writes, Harms, Register, Unbind, Assign, Free;
    var t := Step(o, e);
    forall i | 0 <= i < |t.pending| ensures !HarmsLater(t.pending[i], rid) {
      if i < |o.pending| {
        assert !HarmsLater(o.pending[i], rid);
        if t.pending[i] != o.pending[i] {
          assert forall j :: 0 <= j < |t.pending[i].writes| ==> t.pending[i].writes[j] == o.pending[i].writes[j + 1];
        }
      } else {
        FreeLookHarmless(o.desk, e.sid, e.item, e.before, e.now, rid);
      }
    }
  }

  lemma AloneNotOverwritten(o: Office, e: Event, rid: Id)
    requires !InFlight(o, rid) && LeavesAlone(e, rid)
    ensures !Overwrites(o, e, rid)
  {
    hide Harms;
  }

  /**
    So an unbind made while no poll has a claim of the rig in flight sticks: no
    polls, whatever rows they had read and whatever the server replies, re-bind
    the rig until it is registered or assigned anew.
  */
  lemma {:induction false} UnbindSticks(before: Office, rid: Id, t: real, es: seq<Event>)
    requires !InFlight(before, rid) && forall i :: 0 <= i < |es| ==> LeavesAlone(es[i], rid)
    ensures var o := Run(Step(before, Unbinding(rid, t)), es); Free(o.desk, rid) && !InFlight(o, rid)
  {
    hide Free, InFlight, Overwrites, LeavesAlone;
    if es == [] {
      UnbindFrees(before.desk, rid, t);
      SamePending(before, rid, t);
    } else {
      UnbindSticks(before, rid, t, es[..|es| - 1]);
      var o := Run(Step(before, Unbinding(rid, t)), es[..|es| - 1]);
      assert LeavesAlone(es[|es| - 1], rid);
      AloneNotOverwritten(o, es[|es| - 1], rid);
      StepFreeIff(o, es[|es| - 1], rid);
      StepNotInFlight(o, es[|es| - 1], rid);
    }
  }

  lemma SamePending(o: Office, rid: Id, t: real)
    ensures InFlight(Step(o, Unbinding(rid, t)), rid) == InFlight(o, rid)
    ensures Step(o, Unbinding(rid, t)).desk == Unbind(o.desk, rid, t)
  {}

  /** A poll that looked before the unbind and writes after it binds the driver again. */
  lemma LateWriteRebinds(sid: Id, rid: Id, driver: string, t: real)
    requires rid != ""
    ensures var item := Item(rid, Claimed, None, Some(driver));
      var looked := Step(Office(Desk(map[], map[]), []), Looking(sid, item, map[], t));
      var o := Run(Step(looked, Unbinding(rid, t)), [Writing(0), Writing(0), Writing(0), Writing(0), Writing(0)]);
      rid in o.desk.rigs && o.desk.rigs[rid].driver == Some(driver) && !o.desk.rigs[rid].driverUnbound
  {
    var item := Item(rid, Claimed, None, Some(driver));
    var looked := Step(Office(Desk(map[], map[]), []), Looking(sid, item, map[], t));
    var o := Step(looked, Unbinding(rid, t));
    var ws := looked.pending[0].writes;
    assert |ws| == 5;
    FiveWritings(o, [Writing(0), Writing(0), Writing(0), Writing(0), Writing(0)]);
    WriteFive(o.desk, sid, item, ws);
  }

  lemma FiveWritings(o: Office, es: seq<Event>)
    requires |o.pending| == 1 && |o.pending[0].writes| == |es| == 5 && forall i :: 0 <= i < 5 ==> es[i] == Writing(0)
    ensures Run(o, es).desk == WriteAll(o.desk, o.pending[0].sid, o.pending[0].item, o.pending[0].writes)
  {
    hide Written, WriteAll;
    AllWritings(o, es);
  }

  lemma {:induction false} AllWritings(o: Office, es: seq<Event>)
    requires |o.pending| == 1 && |o.pending[0].writes| == |es| && forall i :: 0 <= i < |es| ==> es[i] == Writing(0)
    ensures Run(o, es).desk == WriteAll(o.desk, o.pending[0].sid, o.pending[0].item, o.pending[0].writes)
    decreases |es|
  {
    hide Written;
    if es != [] {
      assert es == [es[0]] + es[1..];
      RunOne(o, es[0]);
      RunJoin(o, [es[0]], es[1..]);
      AllWritings(Step(o, Writing(0)), es[1..]);
    }
  }

  /**
    Once the rig has been reaped only its row can still protect it: a claim
    re-binds exactly when the row does not read unbound.
  */
  lemma ReapedRigRebound(d: Desk, sid: Id, item: Item, now: real)
    requires item.rid != "" && item.rid !in d.rigs && item.status == Claimed && Names(item)
    ensures PollItem(d, sid, item, d.rows, now).rigs[item.rid].driver.Some?
      <==> !((sid, item.rid) in d.rows && d.rows[(sid, item.rid)].status == Unbound)
  {}

  // ----- the service

  /**
    The entry binds its rig although the rows did not show it claimed; `d` is what
    the poll has made of the state so far.
  */
  predicate BindsAnew(d: Desk, sid: Id, item: Item, before: Table, now: real) {
    && item.rid != "" && item.status == Claimed && Names(item)
    && !Upserted(d.rigs, item.rid, now).driverUnbound
    && ((sid, item.rid) in before ==>
          before[(sid, item.rid)].status == Pending || before[(sid, item.rid)].status == Expired)
  }

  /** The rigs reported as newly claimed, in the order of the reply. */
  function NewlyClaimed(d: Desk, sid: Id, items: seq<Item>, before: Table, now: real): seq<Id> {
    if items == [] then []
    else
      var init, item := items[..|items| - 1], items[|items| - 1];
      NewlyClaimed(d, sid, init, before, now)
      + if BindsAnew(Poll(d, sid, init, before, now), sid, item, before, now) then [item.rid] else []
  }

  lemma {:induction false} PollKeepsFlag(d: Desk, sid: Id, items: seq<Item>, before: Table, now: real, rid: Id)
    requires rid in d.rigs && d.rigs[rid].driverUnbound
    ensures var t := Poll(d, sid, items, before, now); rid in t.rigs && t.rigs[rid].driverUnbound
  {
    if items != [] {
      PollKeepsFlag(d, sid, items[..|items| - 1], before, now, rid);
    }
  }

  lemma {:induction false} PollKeepsUnflagged(d: Desk, sid: Id, items: seq<Item>, before: Table, now: real, rid: Id)
    requires !Upserted(d.rigs, rid, now).driverUnbound
    ensures !Upserted(Poll(d, sid, items, before, now).rigs, rid, now).driverUnbound
  {
    if items != [] {
      PollKeepsUnflagged(d, sid, items[..|items| - 1], before, now, rid);
    }
  }

  /**
    A rig is reported exactly when the reply names a driver who claimed it, the
    rows showed neither a claim nor an unbind, and the operator has not cleared
    it.
  */
  lemma {:induction false} NewlyClaimedIff(d: Desk, sid: Id, items: seq<Item>, before: Table, now: real, rid: Id)
    ensures rid in NewlyClaimed(d, sid, items, before, now) <==>
      exists i :: 0 <= i < |items| && items[i].rid == rid && BindsAnew(d, sid, items[i], before, now)
  {
    hide UpdateRow, PollItem;
    if items != [] {
      var init, item := items[..|items| - 1], items[|items| - 1];
      NewlyClaimedIff(d, sid, init, before, now, rid);
      FlagUnchanged(d, sid, init, before, now, item.rid);
      if i :| 0 <= i < |items| && items[i].rid == rid && BindsAnew(d, sid, items[i], before, now) {
        if i < |init| { assert init[i] == items[i]; }
      }
      if i :| 0 <= i < |init| && init[i].rid == rid && BindsAnew(d, sid, init[i], before, now) {
        assert items[i] == init[i];
      }
    }
  }

  lemma FlagUnchanged(d: Desk, sid: Id, items: seq<Item>, before: Table, now: real, rid: Id)
    ensures Upserted(Poll(d, sid, items, before, now).rigs, rid, now).driverUnbound
      == Upserted(d.rigs, rid, now).driverUnbound
  {
    hide Poll;
    if Upserted(d.rigs, rid, now).driverUnbound {
      PollKeepsFlag(d, sid, items, before, now, rid);
    } else {
      PollKeepsUnflagged(d, sid, items, before, now, rid);
    }
  }

  /** Session names carry a prefix in test mode and are cut at 64 characters. */
  function SessionName(sid: Id, testMode: bool): (name: Id)
    ensures |name| <= 64
    ensures testMode && |sid| <= 59 ==> "test_" <= name && (name == sid || name == "test_" + sid)
    ensures !testMode && |sid| <= 64 ==> name == sid
  {
    var full := if testMode && !("test_" <= sid) then "test_" + sid else sid;
    if |full| <= 64 then full else full[..64]
  }

  class CheckInDesk {
    var rows: Table

    ghost function View(state: Registry): Desk
      reads this, state
    {
      Desk(state.rigs, rows)
    }

    method PollSessionCheckins(state: Registry, sid: Id, items: seq<Item>, now: real) returns (newlyClaimed: seq<Id>)
      modifies this`rows, state`rigs
      ensures View(state) == Poll(old(View(state)), sid, items, old(rows), now)
      ensures newlyClaimed == NewlyClaimed(old(View(state)), sid, items, old(rows), now)
    {
      hide UpdateRow, NewRig;
      var local := rows;
      newlyClaimed := [];
      for i := 0 to |items|
        invariant View(state) == Poll(old(View(state)), sid, items[..i], local, now)
        invariant newlyClaimed == NewlyClaimed(old(View(state)), sid, items[..i], local, now)
      {
        assert items[..i + 1][..i] == items[..i];
        var item := items[i];
        if item.rid == "" {
          continue;
        }
        var rig := Upserted(state.rigs, item.rid, now);
        var prev := if (sid, item.rid) in local then Some(local[(sid, item.rid)].status) else None;
        var manuallyUnbound := rig.driverUnbound || prev == Some(Unbound);
        if manuallyUnbound && item.status == Claimed {
          state.rigs := state.rigs[item.rid := rig];
          rows := UpdateRow(rows, sid, item, Unbound);
          continue;
        }
        rows := UpdateRow(rows, sid, item, item.status);
        if item.status == Claimed && (item.driverId.Some? || item.driver.Some?) {
          var display := if item.driver.Some? then item.driver else item.driverId;
          rig := rig.(driverUnbound := false);
          rig := rig.(checkin := Some(item.status), driverId := item.driverId, driver := display);
          if prev != Some(Claimed) {
            newlyClaimed := newlyClaimed + [item.rid];
          }
        } else {
          rig := rig.(checkin := Some(item.status));
        }
        state.rigs := state.rigs[item.rid := rig];
      }
      assert items[..|items|] == items;
    }

    /** An empty name unbinds, any other assigns. */
    method SetDriverName(state: Registry, rid: Id, name: string, now: real)
      modifies this`rows, state`rigs
      ensures View(state) == if name == "" then Unbind(old(View(state)), rid, now)
        else Assign(old(View(state)), rid, name, now)
    {
      var rig := if rid in state.rigs then state.rigs[rid] else NewRig(Some(now));
      if name == "" {
        rows := map k | k in rows :: if k.1 == rid then rows[k].(status := Unbound) else rows[k];
        rig := rig.(driver := None, driverId := None);
        rig := rig.(checkin := None);
        rig := rig.(driverUnbound := true);
      } else {
        rig := rig.(driver := Some(name));
        rig := rig.(driverUnbound := false);
      }
      state.rigs := state.rigs[rid := rig];
    }

    method RegisterSessionTokens(state: Registry, sid0: Id, testMode: bool, rids: seq<Id>, now: real) returns (sid: Id)
      modifies this`rows, state`rigs
      ensures sid == SessionName(sid0, testMode)
      ensures View(state) == Register(old(View(state)), sid, if |rids| <= 50 then rids else rids[..50], now)
    {
      hide SessionName, Upserted;
      sid := SessionName(sid0, testMode);
      var first := if |rids| <= MAX_TOKENS then rids else rids[..MAX_TOKENS];
      for i := 0 to |first|
        invariant View(state) == Register(old(View(state)), sid, first[..i], now)
      {
        assert first[..i + 1][..i] == first[..i];
        var rid := first[i];
        var row := if (sid, rid) in rows then rows[(sid, rid)].(status := Pending) else Row(Pending, None, None);
        rows := rows[(sid, rid) := row];
        var rig := Upserted(state.rigs, rid, now);
        state.rigs := state.rigs[rid := rig.(sessionId := Some(sid), checkin := Some(Pending), driverUnbound := false)];
      }
      assert first[..|first|] == first;
    }
  }
}

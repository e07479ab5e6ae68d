/** The heartbeat and command endpoints: one rig, a group, or every rig of the registry. */
module RaceControl {
  import opened Wrappers
  import opened AppState
  import opened LapCapture
  import opened OrderedDict
  import opened Registry

  // ----- heartbeats

  /** The precedence rules for a reported status. */
  method ApplyStatus(rig0: Rig, now: real, next: Status) returns (rig: Rig)
    ensures rig == StatusStep(rig0, now, next)
  {
    rig := rig0;
    if next == Racing && rig.killAt.Some? {
      var elapsed := now - rig.killAt.value;
      if elapsed >= KILL_GUARD {
        rig := rig.(killAt := None);
        rig := rig.(status := next);
      }
    } else if (rig.status == Racing || rig.status == Ready) && (next == Idle || next == Setup) {
      if !(rig.lastSeen.Some? && now - rig.lastSeen.value < 3.0) {
        rig := rig.(status := next);
        rig := rig.(killAt := None);
      }
    } else {
      rig := rig.(status := next);
    }
  }

  /** Lap completion from telemetry. */
  method CaptureLap(rig0: Rig, t: Telemetry) returns (rig: Rig, lap: Option<Lap>)
    ensures (rig, lap) == LapStep(rig0, t)
  {
    rig, lap := rig0, None;
    if rig.status == Racing {
      if t.completed == 0 {
        rig := rig.(lastLapCount := 0);
        rig := rig.(raceArmed := true);
      } else if t.completed < rig.lastLapCount {
        rig := rig.(lastLapCount := t.completed);
        rig := rig.(raceArmed := true);
      } else if t.completed > rig.lastLapCount {
        rig := rig.(lastLapCount := t.completed);
        if rig.raceArmed {
          var valid := true;
          if t.lastValid.Some? {
            valid := t.lastValid.value;
          } else if t.lapValid.Some? {
            valid := t.lapValid.value;
          }
          if t.lapTime.Some? && t.lapTime.value > 0 {
            lap := Some(Lap(t.completed, t.lapTime.value, valid));
          }
        }
      }
    }
  }

  /** A car picked by the driver, not reported by the sled. */
  method SelectCar(rig0: Rig, b: Beat) returns (rig: Rig)
    ensures rig == CarStep(rig0, b)
  {
    rig := rig0;
    if b.car.Some? && !(b.temperature || b.telemetry.Some?) {
      if b.car.value != "" && b.car.value != "None" {
        rig := rig.(car := b.car);
      } else {
        rig := rig.(car := None);
      }
    }
  }

  /**
    A status update: the rig is registered if need be, its status, car and lap
    machine step, a lap may be recorded and is filed under `sid`.
  */
  method UpdateRigStatus(state: Registry, rid: Id, now: real, b: Beat) returns (lap: Option<Lap>, sid: Id)
    modifies state
    ensures var rig := UpsertRig(old(state.View()), rid, now).rigs[rid];
      && state.View() == old(state.View()).(rigs := old(state.rigs)[rid := BeatStep(rig, now, b).0])
      && lap == BeatStep(rig, now, b).1
    ensures sid == LapSession(old(state.View()), rid)
  {
    hide StatusStep, LapStep, CarStep, OwnGroup, LapSession;
    ghost var was := state.View();
    var rig := state.Upsert(rid, now);
    rig := rig.(address := Some(b.address));
    lap := None;
    if b.status.Some? {
      rig := ApplyStatus(rig, now, b.status.value);
    }
    rig := SelectCar(rig, b);
    if b.telemetry.Some? {
      rig, lap := CaptureLap(rig, b.telemetry.value);
    }
    state.rigs := state.rigs[rid := rig];
    sid := FileUnder(state, rid);
    BeatKeepsSession(was, rid, now, b);
  }

  method FileUnder(state: Registry, rid: Id) returns (sid: Id)
    requires rid in state.rigs
    ensures sid == LapSession(state.View(), rid)
  {
    var own := OwnGroup(state.groups, rid);
    sid := "session";
    if Given(state.rigs[rid].sessionId) {
      sid := state.rigs[rid].sessionId.value;
    } else if Given(state.latest) {
      sid := state.latest.value;
    } else if own.Some? {
      sid := own.value;
    }
  }

  lemma BeatKeepsSession(s: State, rid: Id, now: real, b: Beat)
    ensures var rig := UpsertRig(s, rid, now).rigs[rid];
      LapSession(s.(rigs := s.rigs[rid := BeatStep(rig, now, b).0]), rid) == LapSession(s, rid)
  {
    hide BeatStep, OwnGroup;
    HeartbeatEffect(UpsertRig(s, rid, now).rigs[rid], now, b);
  }

  /** An id that is there and not empty. */
  predicate Given(id: Option<Id>) {
    id.Some? && id.value != ""
  }

  /** The session a lap of the rig is filed under: its own, else the latest, else its group's id. */
  function LapSession(s: State, rid: Id): Id {
    if rid in s.rigs && Given(s.rigs[rid].sessionId) then s.rigs[rid].sessionId.value
    else if Given(s.latest) then s.latest.value
    else if OwnGroup(s.groups, rid).Some? then OwnGroup(s.groups, rid).value
    else "session"
  }

  // ----- what a command does to the whole state

  /** The first current session of the rigs that is still open on the Ridge side. */
  function FirstOpen(rigs: map<Id, Rig>, rids: seq<Id>, open: set<Id>): Option<Id> {
    if rids == [] then None
    else
      var before, rid := FirstOpen(rigs, rids[..|rids| - 1], open), rids[|rids| - 1];
      if before.Some? then before
      else if rid in rigs && rigs[rid].sessionId.Some? && rigs[rid].sessionId.value in open then rigs[rid].sessionId
      else None
  }

  /** Starts the session the rigs have open, or else `newSid`. */
  function Launch(s: State, rids: seq<Id>, groupId: Option<Id>, open: set<Id>, newSid: Id, now: real): State {
    var found := FirstOpen(s.rigs, rids, open);
    StartSession(s, if found.Some? then found.value else newSid, groupId, rids, now)
  }

  function SetEach(s: State, rids: seq<Id>, a: Action, scope: Scope, now: real): State {
    s.(rigs := map rid | rid in s.rigs :: if rid in rids then CommandStep(s.rigs[rid], a, scope, now) else s.rigs[rid])
  }

  predicate AllAddressed(rigs: map<Id, Rig>, rids: seq<Id>) {
    forall i :: 0 <= i < |rids| && rids[i] in rigs ==> rigs[rids[i]].address.Some?
  }

  /** The rigs a dispatch loop gets to: it ends with an error after the first record that has no address. */
  function Served(rigs: map<Id, Rig>, rids: seq<Id>): seq<Id> {
    if rids == [] || AllAddressed(rigs, rids[..|rids| - 1]) then rids else Served(rigs, rids[..|rids| - 1])
  }

  /** In a group, a launch and a kill have set the other fields before the dispatch. */
  function DispatchStep(rig: Rig, a: Action, scope: Scope, now: real): Rig {
    if scope == InGroup && (a == LaunchRace || a == KillRace) then rig.(status := Idle)
      else CommandStep(rig, a, scope, now)
  }

  function Dispatch(s: State, rids: seq<Id>, a: Action, scope: Scope, now: real): State {
    s.(rigs := map rid | rid in s.rigs ::
         if rid in Served(s.rigs, rids) then DispatchStep(s.rigs[rid], a, scope, now) else s.rigs[rid])
  }

  function SentToOne(s: State, rid: Id, a: Action, open: set<Id>, newSid: Id, order: seq<Id>, now: real): (State,
      seq<Id>) {
    var t := SetEach(s, [rid], a, Single, now);
    match a
    case KillRace => FinishSession(t, None, [rid], order, now)
    case LaunchRace => (Launch(t, [rid], OwnGroup(t.groups, rid), open, newSid, now), [])
    case _ => (t, [])
  }

  function SentToAll(s: State, a: Action, open: set<Id>, newSid: Id, order: seq<Id>, now: real): (State, seq<Id>) {
    var (t, finished) :=
      match a
      case KillRace => FinishSession(s, None, [], order, now)
      case LaunchRace => (Launch(s, order, None, open, newSid, now), [])
      case _ => (s, []);
    (Dispatch(t, order, a, Global, now), finished)
  }

  function SentToGroup(s: State, g: Group, a: Action, open: set<Id>, newSid: Id, order: seq<Id>, now: real): (State,
      seq<Id>) {
    var (t, finished) :=
      match a
      case KillRace => FinishSession(SetEach(s, g.rigIds, a, InGroup, now), None, g.rigIds, order, now)
      case LaunchRace => (Launch(SetEach(s, g.rigIds, a, Single, now), g.rigIds, Some(g.id), open, newSid, now), [])
      case _ => (s, []);
    (Dispatch(t, g.rigIds, a, InGroup, now), finished)
  }

  /** The id of the first group listing the rig. */
  function OwnGroup(gs: seq<Group>, rid: Id): Option<Id> {
    if gs == [] then None
    else if rid in gs[0].rigIds then Some(gs[0].id)
    else OwnGroup(gs[1..], rid)
  }

  // ----- what that means

  lemma {:induction false} ServedPrefix(rigs: map<Id, Rig>, rids: seq<Id>)
    ensures Served(rigs, rids) <= rids
    ensures rids != [] ==> Served(rigs, rids) != []
  {
    if rids != [] && !AllAddressed(rigs, rids[..|rids| - 1]) {
      ServedPrefix(rigs, rids[..|rids| - 1]);
      NoneAddressed(rigs, rids);
    }
  }

  lemma NoneAddressed(rigs: map<Id, Rig>, rids: seq<Id>)
    requires rids != [] && !AllAddressed(rigs, rids[..|rids| - 1])
    ensures rids[..|rids| - 1] != []
  {}

  /** A dispatch gets to every rig exactly when no rig before the last lacks an address. */
  lemma ServedAllIff(rigs: map<Id, Rig>, rids: seq<Id>)
    requires NoDup(rids) && rids != []
    ensures (forall rid :: rid in rids ==> rid in Served(rigs, rids)) <==> AllAddressed(rigs, rids[..|rids| - 1])
  {
    var init, last := rids[..|rids| - 1], rids[|rids| - 1];
    if !AllAddressed(rigs, init) {
      ServedPrefix(rigs, init);
      assert last !in init;
      assert last in rids && last !in Served(rigs, rids);
    }
  }

  /** Where the dispatch stops: nothing before it lacks an address, it does. */
  lemma {:induction false} ServedStop(rigs: map<Id, Rig>, rids: seq<Id>, i: nat)
    requires i < |rids| && AllAddressed(rigs, rids[..i]) && rids[i] in rigs && rigs[rids[i]].address.None?
    ensures Served(rigs, rids) == rids[..i + 1] && !AllAddressed(rigs, rids)
  {
    if i < |rids| - 1 {
      var init := rids[..|rids| - 1];
      assert init[..i] == rids[..i] && init[..i + 1] == rids[..i + 1];
      assert !AllAddressed(rigs, init) by { assert init[i] == rids[i]; }
      ServedStop(rigs, init, i);
    } else {
      assert rids[..i + 1] == rids;
    }
  }

  lemma ServedWhole(rigs: map<Id, Rig>, rids: seq<Id>)
    requires AllAddressed(rigs, rids)
    ensures Served(rigs, rids) == rids
  {}

  lemma {:induction false} JoinedEffect(rigs: map<Id, Rig>, rids: seq<Id>, sid: Id)
    ensures forall r :: r in Joined(rigs, rids, sid) <==> r in rigs || r in rids
    ensures forall r :: r in rids ==> Joined(rigs, rids, sid)[r].sessionId == Some(sid)
    ensures forall r :: r in rigs && r !in rids ==> Joined(rigs, rids, sid)[r] == rigs[r]
  {
    if rids != [] {
      JoinedEffect(rigs, rids[..|rids| - 1], sid);
      assert rids == rids[..|rids| - 1] + [rids[|rids| - 1]];
    }
  }

  /** A command to one rig changes no other rig and no group; only launch and kill change sessions. */
  lemma OneChangesOne(s: State, rid: Id, a: Action, open: set<Id>, newSid: Id, order: seq<Id>, now: real)
    requires rid in s.rigs
    ensures var t := SentToOne(s, rid, a, open, newSid, order, now).0;
      && t.groups == s.groups && t.rigs.Keys == s.rigs.Keys
      && (forall r :: r in s.rigs && r != rid ==> t.rigs[r] == s.rigs[r])
      && (a == SetupMode || a == OtherAction ==> t.sessions == s.sessions && t.latest == s.latest)
      && (a == LaunchRace ==> t.rigs[rid].sessionId == t.latest)
      && (a == KillRace ==> t.rigs[rid].sessionId == None && t.latest == s.latest)
  {
    var u := SetEach(s, [rid], a, Single, now);
    if a == LaunchRace {
      var found := FirstOpen(u.rigs, [rid], open);
      JoinedEffect(u.rigs, [rid], if found.Some? then found.value else newSid);
    }
  }

  /**
    A kill of a group leaves every other rig alone exactly when the group is not
    empty or no other rig is in a session.
  */
  lemma GroupKillLeavesOthersIff(s: State, g: Group, open: set<Id>, newSid: Id, order: seq<Id>, now: real)
    requires forall rid :: rid in order <==> rid in s.rigs
    ensures var t := SentToGroup(s, g, KillRace, open, newSid, order, now).0;
      (forall r :: r in s.rigs && r !in g.rigIds ==> t.rigs[r] == s.rigs[r])
      <==> g.rigIds != [] || forall r :: r in s.rigs ==> s.rigs[r].sessionId == None
  {
    var u := SetEach(s, g.rigIds, KillRace, InGroup, now);
    var t := FinishSession(u, None, g.rigIds, order, now).0;
    ServedPrefix(t.rigs, g.rigIds);
    var d := Dispatch(t, g.rigIds, KillRace, InGroup, now);
    assert forall r :: r in s.rigs && r !in g.rigIds ==> d.rigs[r] == t.rigs[r] && u.rigs[r] == s.rigs[r];
    if g.rigIds == [] {
      assert forall r :: r in s.rigs ==> d.rigs[r] == s.rigs[r].(sessionId := None);
    }
  }

  /** And it reaches every registered rig of the group, addressed or not. */
  lemma GroupKillReachesAll(s: State, g: Group, open: set<Id>, newSid: Id, order: seq<Id>, now: real, rid: Id)
    requires rid in g.rigIds && rid in s.rigs
    ensures SentToGroup(s, g, KillRace, open, newSid, order, now).0.rigs[rid]
      == CommandStep(s.rigs[rid], KillRace, InGroup, now).(sessionId := None)
  {}

  lemma {:induction false} ServedSame(p: map<Id, Rig>, q: map<Id, Rig>, rids: seq<Id>)
    requires p.Keys == q.Keys && forall r :: r in p ==> p[r].address == q[r].address
    ensures Served(p, rids) == Served(q, rids)
  {
    if rids != [] {
      ServedSame(p, q, rids[..|rids| - 1]);
      assert AllAddressed(p, rids[..|rids| - 1]) == AllAddressed(q, rids[..|rids| - 1]);
    }
  }

  /**
    A kill of all rigs stops every one exactly when those the dispatch does not
    get to were stopped at this instant before.
  */
  lemma GlobalKillStopsAllIff(s: State, open: set<Id>, newSid: Id, order: seq<Id>, now: real)
    requires forall rid :: rid in order <==> rid in s.rigs
    ensures var t := SentToAll(s, KillRace, open, newSid, order, now).0;
      (forall rid :: rid in s.rigs ==>
        t.rigs[rid] == CommandStep(s.rigs[rid], KillRace, Global, now).(sessionId := None))
      <==> forall rid :: rid in s.rigs && rid !in Served(s.rigs, order) ==>
        CommandStep(s.rigs[rid], KillRace, Global, now) == s.rigs[rid]
  {
    hide Served;
    var u := FinishSession(s, None, [], order, now).0;
    var t := SentToAll(s, KillRace, open, newSid, order, now).0;
    ServedSame(s.rigs, u.rigs, order);
    forall rid | rid in s.rigs
      ensures t.rigs[rid] == CommandStep(s.rigs[rid], KillRace, Global, now).(sessionId := None)
        <==> rid in Served(s.rigs, order) || CommandStep(s.rigs[rid], KillRace, Global, now) == s.rigs[rid]
    {
      assert u.rigs[rid] == s.rigs[rid].(sessionId := None);
    }
  }

  // ----- the endpoints

  method ReuseOrStartSession(state: Registry, rids: seq<Id>, groupId: Option<Id>, open: set<Id>, newSid: Id,
      now: real) returns (sid: Id)
    modifies state
    ensures state.View() == Launch(old(state.View()), rids, groupId, open, newSid, now)
    ensures sid == if FirstOpen(old(state.rigs), rids, open).Some? then FirstOpen(old(state.rigs), rids, open).value
      else newSid
  {
    var existing: Option<Id> := None;
    for i := 0 to |rids|
      invariant state.View() == old(state.View())
      invariant existing == FirstOpen(state.rigs, rids[..i], open) == None
    {
      assert rids[..i + 1][..i] == rids[..i];
      var rid := rids[i];
      if rid in state.rigs && state.rigs[rid].sessionId.Some? && state.rigs[rid].sessionId.value in open {
        existing := state.rigs[rid].sessionId;
        FirstOpenStays(state.rigs, rids, open, i + 1);
        break;
      }
    }
    assert rids[..|rids|] == rids;
    sid := if existing.Some? then existing.value else newSid;
    state.StartRaceSession(sid, groupId, rids, now);
  }

  lemma {:induction false} FirstOpenStays(rigs: map<Id, Rig>, rids: seq<Id>, open: set<Id>, n: nat)
    requires n <= |rids| && FirstOpen(rigs, rids[..n], open).Some?
    ensures FirstOpen(rigs, rids, open) == FirstOpen(rigs, rids[..n], open)
  {
    if n == |rids| {
      assert rids[..n] == rids;
    } else {
      assert rids[..|rids| - 1][..n] == rids[..n];
      FirstOpenStays(rigs, rids[..|rids| - 1], open, n);
    }
  }

  /** The updates of one rig's fields; unregistered rigs have none. */
  method SetFields(state: Registry, rid: Id, a: Action, scope: Scope, now: real)
    modifies state`rigs
    ensures state.rigs == if rid in old(state.rigs) then
      old(state.rigs)[rid := CommandStep(old(state.rigs)[rid], a, scope, now)] else old(state.rigs)
  {
    if rid !in state.rigs {
      return;
    }
    var rig := state.rigs[rid];
    if a == SetupMode {
      rig := rig.(status := Setup);
    } else if a == KillRace || scope != Single {
      rig := rig.(status := Idle);
    }
    if a == LaunchRace || a == KillRace || a == SetupMode {
      rig := rig.(lastLapCount := 0);
      rig := rig.(raceArmed := false);
    }
    if a == KillRace {
      rig := rig.(killAt := Some(now));
    } else if a == LaunchRace {
      rig := rig.(killAt := None);
    }
    if a == SetupMode {
      rig := rig.(car := None);
    }
    state.rigs := state.rigs[rid := rig];
  }

  method SetFieldsEach(state: Registry, rids: seq<Id>, a: Action, scope: Scope, now: real)
    modifies state`rigs
    ensures state.View() == SetEach(old(state.View()), rids, a, scope, now)
  {
    hide CommandStep;
    ghost var s := state.View();
    for i := 0 to |rids|
      invariant state.View() == SetEach(s, rids[..i], a, scope, now)
    {
      assert rids[..i + 1] == rids[..i] + [rids[i]];
      SetTwice(s, rids[..i], rids[i], a, scope, now);
      SetFields(state, rids[i], a, scope, now);
    }
    assert rids[..|rids|] == rids;
  }

  /** Setting the fields of a rig listed before changes nothing. */
  lemma SetTwice(s: State, rids: seq<Id>, rid: Id, a: Action, scope: Scope, now: real)
    ensures var t := SetEach(s, rids, a, scope, now);
      SetEach(s, rids + [rid], a, scope, now) ==
        if rid in t.rigs then t.(rigs := t.rigs[rid := CommandStep(t.rigs[rid], a, scope, now)]) else t
  {
    var t := SetEach(s, rids, a, scope, now);
    var u := SetEach(s, rids + [rid], a, scope, now);
    forall r | r in s.rigs
      ensures u.rigs[r] == if r == rid then CommandStep(t.rigs[rid], a, scope, now) else t.rigs[r]
    {
      assert r in rids + [rid] <==> r in rids || r == rid;
    }
    assert rid !in s.rigs ==> u.rigs == t.rigs;
  }

  /** Status updates and sending, rig by rig, until a record has no address. */
  method DispatchEach(state: Registry, rids: seq<Id>, a: Action, scope: Scope, now: real) returns (failed: bool)
    modifies state`rigs
    ensures state.View() == Dispatch(old(state.View()), rids, a, scope, now)
    ensures failed <==> !AllAddressed(old(state.rigs), rids)
  {
    hide DispatchStep, Served;
    ghost var s := state.View();
    for i := 0 to |rids|
      invariant AllAddressed(s.rigs, rids[..i])
      invariant state.View() == Stepped(s, rids[..i], a, scope, now)
    {
      assert rids[..i + 1] == rids[..i] + [rids[i]];
      SteppedTwice(s, rids[..i], rids[i], a, scope, now);
      SteppedAddresses(s, rids[..i], a, scope, now);
      SteppedAddresses(s, rids[..i + 1], a, scope, now);
      var rid := rids[i];
      if rid in state.rigs {
        DispatchOne(state, rid, a, scope, now);
        if state.rigs[rid].address.None? {
          ServedStop(s.rigs, rids, i);
          return true;
        }
      }
    }
    assert rids[..|rids|] == rids;
    ServedWhole(s.rigs, rids);
    return false;
  }

  function Stepped(s: State, rids: seq<Id>, a: Action, scope: Scope, now: real): State {
    s.(rigs := map rid | rid in s.rigs :: if rid in rids then DispatchStep(s.rigs[rid], a, scope, now) else s.rigs[rid])
  }

  lemma SteppedTwice(s: State, rids: seq<Id>, rid: Id, a: Action, scope: Scope, now: real)
    ensures var t := Stepped(s, rids, a, scope, now);
      Stepped(s, rids + [rid], a, scope, now) ==
        if rid in t.rigs then t.(rigs := t.rigs[rid := DispatchStep(t.rigs[rid], a, scope, now)]) else t
  {
    var t := Stepped(s, rids, a, scope, now);
    var u := Stepped(s, rids + [rid], a, scope, now);
    forall r | r in s.rigs
      ensures u.rigs[r] == if r == rid then DispatchStep(t.rigs[rid], a, scope, now) else t.rigs[r]
    {
      assert r in rids + [rid] <==> r in rids || r == rid;
    }
    assert rid !in s.rigs ==> u.rigs == t.rigs;
  }

  lemma SteppedAddresses(s: State, rids: seq<Id>, a: Action, scope: Scope, now: real)
    ensures forall r :: r in s.rigs ==> Stepped(s, rids, a, scope, now).rigs[r].address == s.rigs[r].address
  {}

  method DispatchOne(state: Registry, rid: Id, a: Action, scope: Scope, now: real)
    requires rid in state.rigs
    modifies state`rigs
    ensures state.rigs == old(state.rigs)[rid := DispatchStep(old(state.rigs)[rid], a, scope, now)]
  {
    if scope == InGroup && (a == LaunchRace || a == KillRace) {
      state.rigs := state.rigs[rid := state.rigs[rid].(status := Idle)];
    } else {
      SetFields(state, rid, a, scope, now);
    }
  }

  /** The endpoint for one rig; it fails after its updates when the record has no address. */
  method SendCommand(state: Registry, rid: Id, a: Action, open: set<Id>, newSid: Id, now: real)
    returns (ok: bool, failed: bool, finished: seq<Id>, ghost order: seq<Id>)
    modifies state
    ensures ok == (rid in old(state.rigs))
    ensures !ok ==> state.View() == old(state.View()) && finished == [] && !failed
    ensures forall r :: r in order <==> r in old(state.rigs)
    ensures ok ==> (state.View(), finished) == SentToOne(old(state.View()), rid, a, open, newSid, order, now)
    ensures ok ==> failed == old(state.rigs)[rid].address.None?
  {
    hide CommandStep, FinishSession, StartSession, FirstOpen;
    finished, failed := [], false;
    var keys := state.Keys();
    order := keys;
    if rid !in state.rigs {
      return false, false, [], order;
    }
    ok, failed := true, state.rigs[rid].address.None?;
    SetFieldsEach(state, [rid], a, Single, now);
    if a == KillRace {
      finished := state.FinishRaceSession(None, [rid], keys, now);
    } else if a == LaunchRace {
      var _ := ReuseOrStartSession(state, [rid], OwnGroup(state.groups, rid), open, newSid, now);
    }
  }

  /** The endpoint for every registered rig. */
  method SendGlobalCommand(state: Registry, a: Action, open: set<Id>, newSid: Id, now: real)
    returns (failed: bool, finished: seq<Id>, ghost order: seq<Id>)
    modifies state
    ensures NoDup(order) && forall r :: r in order <==> r in old(state.rigs)
    ensures (state.View(), finished) == SentToAll(old(state.View()), a, open, newSid, order, now)
    ensures failed <==> !AllAddressed(old(state.rigs), order)
  {
    hide CommandStep, FirstOpen;
    finished := [];
    var keys := state.Keys();
    order := keys;
    ghost var s := state.View();
    if a == LaunchRace {
      var sid := ReuseOrStartSession(state, keys, None, open, newSid, now);
      JoinedAddresses(s.rigs, keys, sid);
    } else if a == KillRace {
      finished := state.FinishRaceSession(None, [], keys, now);
    }
    failed := DispatchEach(state, keys, a, Global, now);
  }

  lemma {:induction false} JoinedAddresses(rigs: map<Id, Rig>, rids: seq<Id>, sid: Id)
    ensures forall r :: r in rigs ==>
      r in Joined(rigs, rids, sid) && Joined(rigs, rids, sid)[r].address == rigs[r].address
  {
    if rids != [] {
      JoinedAddresses(rigs, rids[..|rids| - 1], sid);
    }
  }

  /** Sending to the rig fails: no address, which a record made by the launch itself never has. */
  predicate NotSendable(rigs: map<Id, Rig>, a: Action, rid: Id) {
    if rid in rigs then rigs[rid].address.None? else a == LaunchRace
  }

  lemma {:induction false} JoinedNew(rigs: map<Id, Rig>, rids: seq<Id>, sid: Id)
    ensures forall r :: r in rids && r !in rigs ==>
      r in Joined(rigs, rids, sid) && Joined(rigs, rids, sid)[r].address == None
    ensures forall r :: r in rids && r !in rigs ==>
      Joined(rigs, rids, sid)[r].raceArmed && Joined(rigs, rids, sid)[r].lastLapCount == 0
    ensures forall r :: r in Joined(rigs, rids, sid) ==> r in rigs || r in rids
  {
    if rids != [] {
      JoinedNew(rigs, rids[..|rids| - 1], sid);
      JoinedAddresses(rigs, rids[..|rids| - 1], sid);
      assert rids == rids[..|rids| - 1] + [rids[|rids| - 1]];
    }
  }

  /** A group launch disarms the registered rigs, but a listed rig without a record gets one that is armed. */
  lemma LaunchMakesArmedRecord(
      s: State, g: Group, open: set<Id>, newSid: Id, order: seq<Id>, now: real, rid: Id)
    requires rid in g.rigIds
    ensures var t := SentToGroup(s, g, LaunchRace, open, newSid, order, now).0;
      rid in t.rigs && t.rigs[rid].lastLapCount == 0 && (t.rigs[rid].raceArmed <==> rid !in s.rigs)
  {
    var u := SetEach(s, g.rigIds, LaunchRace, Single, now);
    var found := FirstOpen(u.rigs, g.rigIds, open);
    var sid := if found.Some? then found.value else newSid;
    JoinedNew(u.rigs, g.rigIds, sid);
    JoinedArming(u.rigs, g.rigIds, sid);
  }

  lemma {:induction false} JoinedArming(rigs: map<Id, Rig>, rids: seq<Id>, sid: Id)
    ensures forall r :: r in rigs ==>
      && r in Joined(rigs, rids, sid)
      && Joined(rigs, rids, sid)[r].raceArmed == rigs[r].raceArmed
      && Joined(rigs, rids, sid)[r].lastLapCount == rigs[r].lastLapCount
  {
    if rids != [] {
      JoinedArming(rigs, rids[..|rids| - 1], sid);
    }
  }

  lemma UnsendableIff(s: State, t: State, a: Action, rids: seq<Id>)
    requires forall r :: r in s.rigs ==> r in t.rigs && t.rigs[r].address == s.rigs[r].address
    requires forall r :: r in rids && r !in s.rigs ==>
      if a == LaunchRace then r in t.rigs && t.rigs[r].address == None else r !in t.rigs
    ensures !AllAddressed(t.rigs, rids) <==> exists r :: r in rids && NotSendable(s.rigs, a, r)
  {
    if r :| r in rids && NotSendable(s.rigs, a, r) {
      var i :| 0 <= i < |rids| && rids[i] == r;
    }
    if !AllAddressed(t.rigs, rids) {
      var i :| 0 <= i < |rids| && rids[i] in t.rigs && t.rigs[rids[i]].address.None?;
      assert rids[i] in rids && NotSendable(s.rigs, a, rids[i]);
    }
  }

  lemma SetAddresses(s: State, rids: seq<Id>, a: Action, scope: Scope, now: real)
    ensures forall r :: r in s.rigs ==> SetEach(s, rids, a, scope, now).rigs[r].address == s.rigs[r].address
  {}

  lemma FinishAddresses(s: State, rids: seq<Id>, order: seq<Id>, now: real)
    ensures var t := FinishSession(s, None, rids, order, now).0;
      t.rigs.Keys == s.rigs.Keys && forall r :: r in s.rigs ==> t.rigs[r].address == s.rigs[r].address
  {}

  lemma LaunchAddresses(s: State, rids: seq<Id>, groupId: Option<Id>, open: set<Id>, newSid: Id, now: real)
    ensures var t := Launch(s, rids, groupId, open, newSid, now);
      && (forall r :: r in s.rigs ==> r in t.rigs && t.rigs[r].address == s.rigs[r].address)
      && (forall r :: r in rids && r !in s.rigs ==> r in t.rigs && t.rigs[r].address == None)
  {
    var found := FirstOpen(s.rigs, rids, open);
    JoinedAddresses(s.rigs, rids, if found.Some? then found.value else newSid);
    JoinedNew(s.rigs, rids, if found.Some? then found.value else newSid);
  }

  /** The endpoint for the rigs a group lists. */
  method SendGroupCommand(state: Registry, gid: Id, a: Action, open: set<Id>, newSid: Id, now: real)
    returns (ok: bool, failed: bool, finished: seq<Id>, ghost order: seq<Id>)
    modifies state
    ensures ok == GroupIndex(old(state.groups), gid).Some?
    ensures !ok ==> state.View() == old(state.View()) && finished == [] && !failed
    ensures forall r :: r in order <==> r in old(state.rigs)
    ensures ok ==>
      var g := old(state.groups)[GroupIndex(old(state.groups), gid).value];
      && (state.View(), finished) == SentToGroup(old(state.View()), g, a, open, newSid, order, now)
      && (failed <==> exists r :: r in g.rigIds && NotSendable(old(state.rigs), a, r))
  {
    hide CommandStep, FinishSession, FirstOpen, Served, Launch, NotSendable, AllAddressed, DispatchStep;
    finished, failed := [], false;
    var keys := state.Keys();
    order := keys;
    var k := GroupIndex(state.groups, gid);
    if k.None? {
      return false, false, [], order;
    }
    ok := true;
    var g := state.groups[k.value];
    ghost var s := state.View();
    if a == KillRace {
      SetFieldsEach(state, g.rigIds, a, InGroup, now);
      SetAddresses(s, g.rigIds, a, InGroup, now);
      FinishAddresses(state.View(), g.rigIds, keys, now);
      finished := state.FinishRaceSession(None, g.rigIds, keys, now);
    } else if a == LaunchRace {
      SetFieldsEach(state, g.rigIds, a, Single, now);
      SetAddresses(s, g.rigIds, a, Single, now);
      LaunchAddresses(state.View(), g.rigIds, Some(gid), open, newSid, now);
      var _ := ReuseOrStartSession(state, g.rigIds, Some(gid), open, newSid, now);
    }
    UnsendableIff(s, state.View(), a, g.rigIds);
    failed := DispatchEach(state, g.rigIds, a, InGroup, now);
  }
}

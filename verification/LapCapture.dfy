/** What heartbeats and operator commands do to one rig's record, and which laps they record. */
module LapCapture {
  import opened Wrappers
  import opened AppState
  import LapValidity

  /** The telemetry of a heartbeat; the lap time is in milliseconds, absent when it could not be parsed. */
  datatype Telemetry = Telemetry(completed: int, lastValid: Option<bool>, lapValid: Option<bool>, lapTime: Option<int>)

  /** A status update: the sender's address, what it reports, and a car the driver picked. */
  datatype Beat = Beat(address: string, status: Option<Status>, telemetry: Option<Telemetry>, car: Option<string>,
      temperature: bool)

  datatype Lap = Lap(number: int, timeMs: int, valid: bool)

  datatype Action = LaunchRace | KillRace | SetupMode | OtherAction
  datatype Scope = Single | Global | InGroup

  const KILL_GUARD := 10.0

  // ----- heartbeats

  /** The status rules of a heartbeat, after the rig's last_seen has been refreshed. */
  function StatusStep(rig: Rig, now: real, next: Status): Rig {
    if next == Racing && rig.killAt.Some? then
      if now - rig.killAt.value < KILL_GUARD then rig
      else rig.(killAt := None, status := next)
    else if (rig.status == Racing || rig.status == Ready) && (next == Idle || next == Setup) then
      if rig.lastSeen.Some? && now - rig.lastSeen.value < 3.0 then rig
      else rig.(status := next, killAt := None)
    else rig.(status := next)
  }

  /** A rig is re-armed by a heartbeat at lap 0 or below the last count. */
  predicate RearmsAt(rig: Rig, t: Telemetry) {
    rig.status == Racing && (t.completed == 0 || t.completed < rig.lastLapCount)
  }

  function Flag(t: Telemetry): bool {
    if t.lastValid.Some? then t.lastValid.value
    else if t.lapValid.Some? then t.lapValid.value
    else true
  }

  function LapStep(rig: Rig, t: Telemetry): (Rig, Option<Lap>) {
    if rig.status != Racing then (rig, None)
    else if t.completed == 0 then (rig.(lastLapCount := 0, raceArmed := true), None)
    else if t.completed < rig.lastLapCount then (rig.(lastLapCount := t.completed, raceArmed := true), None)
    else if t.completed > rig.lastLapCount then
      (rig.(lastLapCount := t.completed),
       if rig.raceArmed && t.lapTime.Some? && t.lapTime.value > 0
       then Some(Lap(t.completed, t.lapTime.value, Flag(t))) else None)
    else (rig, None)
  }

  /** A car is taken from explicit selections only; no name means a random one. */
  function CarStep(rig: Rig, b: Beat): Rig {
    if b.car.None? || b.temperature || b.telemetry.Some? then rig
    else rig.(car := if b.car.value == "" || b.car.value == "None" then None else b.car)
  }

  function Seen(rig: Rig, now: real, b: Beat): Rig {
    rig.(lastSeen := Some(now), address := Some(b.address))
  }

  function AfterStatus(rig: Rig, now: real, b: Beat): Rig {
    if b.status.Some? then StatusStep(Seen(rig, now, b), now, b.status.value) else Seen(rig, now, b)
  }

  function BeatStep(rig: Rig, now: real, b: Beat): (Rig, Option<Lap>) {
    var r := CarStep(AfterStatus(rig, now, b), b);
    if b.telemetry.Some? then LapStep(r, b.telemetry.value) else (r, None)
  }

  // ----- commands

  predicate Resets(a: Action) {
    a != OtherAction
  }

  /** The fields a command sets, apart from the current session. */
  function CommandStep(rig: Rig, a: Action, scope: Scope, now: real): Rig {
    rig.(
      lastLapCount := if Resets(a) then 0 else rig.lastLapCount,
      raceArmed := if Resets(a) then false else rig.raceArmed,
      status := if a == SetupMode then Setup
                else if a == KillRace || scope != Single then Idle
                else rig.status,
      killAt := if a == KillRace then Some(now) else if a == LaunchRace then None else rig.killAt,
      car := if a == SetupMode then None else rig.car)
  }

  // ----- what these do, field by field

  /**
    A heartbeat: a racing report is blocked for ten seconds after a kill, and a
    racing or ready rig is never taken back to idle or setup, since the contact
    itself refreshes the time that test looks at.
  */
  lemma HeartbeatEffect(rig: Rig, now: real, b: Beat)
    ensures var r := BeatStep(rig, now, b).0;
      var blocked := b.status == Some(Racing) && rig.killAt.Some? && now - rig.killAt.value < 10.0;
      var demotes := (rig.status == Racing || rig.status == Ready)
        && (b.status == Some(Idle) || b.status == Some(Setup));
      && r == Rig(r.status, Some(now), rig.groupId, rig.sessionId, r.lastLapCount, r.raceArmed, r.killAt, r.car,
                  rig.driver, rig.driverId, rig.driverUnbound, rig.checkin, Some(b.address))
      && r.status == (if b.status.None? || blocked || demotes then rig.status else b.status.value)
      && r.killAt == (if b.status == Some(Racing) && !blocked then None else rig.killAt)
      && r.car == (if b.car.None? || b.temperature || b.telemetry.Some? then rig.car
                   else if b.car == Some("") || b.car == Some("None") then None else b.car)
  {}

  /** While racing the counter is always followed; 0 and a drop re-arm. */
  lemma CounterEffect(rig: Rig, now: real, b: Beat)
    ensures var r := BeatStep(rig, now, b).0;
      if r.status == Racing && b.telemetry.Some? then
        var completed := b.telemetry.value.completed;
        && r.lastLapCount == completed
        && r.raceArmed == (rig.raceArmed || completed == 0 || completed < rig.lastLapCount)
      else r.lastLapCount == rig.lastLapCount && r.raceArmed == rig.raceArmed
  {}

  /**
    A lap is recorded exactly when the rig is racing by then and was armed, the
    counter is above the last count and not 0, and there is a positive time. It
    carries that counter and time, valid or not: the flag of the last lap, else
    that of the current one, else true.
  */
  lemma LapRecordedIff(rig: Rig, now: real, b: Beat)
    ensures var (r, lap) := BeatStep(rig, now, b);
      && (lap.Some? <==>
            && r.status == Racing && rig.raceArmed && b.telemetry.Some?
            && b.telemetry.value.completed != 0 && b.telemetry.value.completed > rig.lastLapCount
            && b.telemetry.value.lapTime.Some? && b.telemetry.value.lapTime.value > 0)
      && (lap.Some? ==>
            var t := b.telemetry.value;
            && lap.value.number == t.completed && lap.value.timeMs == t.lapTime.value
            && (lap.value.valid <==> t.lastValid == Some(true) || (t.lastValid == None && t.lapValid != Some(false))))
  {}

  /**
    A command: a kill, a launch and setup reset the lap machine; only a kill sets
    the guard and only a launch lifts it.
  */
  lemma CommandEffect(rig: Rig, a: Action, scope: Scope, now: real)
    ensures var r := CommandStep(rig, a, scope, now);
      && (a == KillRace ==> r == rig.(status := Idle, killAt := Some(now), lastLapCount := 0, raceArmed := false))
      && (a == LaunchRace ==>
            r == rig.(status := if scope == Single then rig.status else Idle, killAt := None, lastLapCount := 0,
                      raceArmed := false))
      && (a == SetupMode ==> r == rig.(status := Setup, lastLapCount := 0, raceArmed := false, car := None))
      && (a == OtherAction ==> r == if scope == Single then rig else rig.(status := Idle))
  {}

  // ----- runs of one rig, registered or not

  /**
    What can happen to a rig's record: heartbeats and commands; a contact, which
    makes a record if there is none (a launch that joins the rig, a poll, a
    registration, the naming of a driver, the QR switch); the reaper; a restart
    of the orchestrator; changes to fields that matter to none of this.
  */
  datatype Event =
    | Heartbeat(now: real, beat: Beat)
    | Command(action: Action, scope: Scope, at: real)
    | Contact(seen: Option<real>)
    | Reaped(now: real, timeout: real)
    | Rebooted
    | Edited(rig: Rig)

  function Known(r: Option<Rig>, now: Option<real>): Rig {
    if r.Some? then r.value else NewRig(now)
  }

  predicate Drops(r: Option<Rig>, e: Event) {
    r.Some? && (e.Rebooted? || (e.Reaped? && Stale(r.value, e.now, e.timeout)))
  }

  function Step(r: Option<Rig>, e: Event): (Option<Rig>, Option<Lap>) {
    match e
    case Heartbeat(now, b) =>
      var (rig, lap) := BeatStep(Known(r, Some(now)), now, b);
      (Some(rig), lap)
    case Command(a, scope, at) => (if r.Some? then Some(CommandStep(r.value, a, scope, at)) else None, None)
    case Contact(seen) =>
      var rig := Known(r, seen);
      (Some(if seen.Some? then rig.(lastSeen := seen) else rig), None)
    case Edited(x) =>
      (if r.Some?
       then Some(x.(status := r.value.status, lastSeen := r.value.lastSeen, lastLapCount := r.value.lastLapCount,
                    raceArmed := r.value.raceArmed, killAt := r.value.killAt))
       else None, None)
    case _ => (if Drops(r, e) then None else r, None)
  }

  function After(r: Option<Rig>, es: seq<Event>): Option<Rig>
    decreases |es|
  {
    if es == [] then r else After(Step(r, es[0]).0, es[1..])
  }

  /** The laps recorded along a run. */
  function Recorded(r: Option<Rig>, es: seq<Event>): seq<Lap>
    decreases |es|
  {
    if es == [] then []
    else
      var (next, lap) := Step(r, es[0]);
      Laps(lap) + Recorded(next, es[1..])
  }

  // ----- a kill sticks

  /** Heartbeats come within the guard of the kill at `t0`; later commands only extend it. */
  predicate InWindow(e: Event, t0: real) {
    match e
    case Heartbeat(now, b) => now < t0 + KILL_GUARD
    case Command(a, scope, at) => at >= t0
    case _ => true
  }

  ghost predicate Guarded(r: Option<Rig>, t0: real) {
    r.Some? && r.value.status != Racing && r.value.killAt.Some? && r.value.killAt.value >= t0
  }

  /** A launch, or the loss of the record. */
  predicate Forgives(r: Option<Rig>, e: Event) {
    Drops(r, e) || (e.Command? && e.action == LaunchRace)
  }

  lemma GuardStepIff(r: Option<Rig>, e: Event, t0: real)
    requires Guarded(r, t0) && InWindow(e, t0)
    ensures Guarded(Step(r, e).0, t0) <==> !Forgives(r, e)
  {}

  ghost predicate StaysGuarded(r: Option<Rig>, es: seq<Event>, t0: real)
    decreases |es|
  {
    Guarded(r, t0) && (es != [] ==> StaysGuarded(Step(r, es[0]).0, es[1..], t0))
  }

  predicate Unforgiven(r: Option<Rig>, es: seq<Event>)
    decreases |es|
  {
    es != [] ==> !Forgives(r, es[0]) && Unforgiven(Step(r, es[0]).0, es[1..])
  }

  /**
    After a kill, within ten seconds, the rig stays guarded and so not racing
    throughout exactly when no launch intervenes and its record is not lost.
  */
  lemma {:induction false} KillSticksIff(r: Option<Rig>, es: seq<Event>, t0: real)
    requires Guarded(r, t0) && forall i :: 0 <= i < |es| ==> InWindow(es[i], t0)
    ensures StaysGuarded(r, es, t0) <==> Unforgiven(r, es)
    decreases |es|
  {
    hide Step, Guarded, Forgives, InWindow;
    if es != [] {
      GuardStepIff(r, es[0], t0);
      if !Forgives(r, es[0]) {
        KillSticksIff(Step(r, es[0]).0, es[1..], t0);
      }
    }
  }

  lemma {:induction false} StaysGuardedEnds(r: Option<Rig>, es: seq<Event>, t0: real)
    requires StaysGuarded(r, es, t0)
    ensures Guarded(After(r, es), t0)
    decreases |es|
  {
    hide Step, Guarded;
    if es != [] {
      StaysGuardedEnds(Step(r, es[0]).0, es[1..], t0);
    }
  }

  /** So no heartbeats make it racing. */
  lemma KillSticks(rig: Rig, scope: Scope, es: seq<Event>, t0: real)
    requires forall i :: 0 <= i < |es| ==> InWindow(es[i], t0)
    requires Unforgiven(Some(CommandStep(rig, KillRace, scope, t0)), es)
    ensures var r := After(Some(CommandStep(rig, KillRace, scope, t0)), es); r.Some? && r.value.status != Racing
  {
    var killed := Some(CommandStep(rig, KillRace, scope, t0));
    assert Guarded(killed, t0);
    KillSticksIff(killed, es, t0);
    StaysGuardedEnds(killed, es, t0);
  }

  /** Every kind of kill arms the guard; the first heartbeat to report racing after ten seconds lifts it. */
  lemma KillArmsGuard(rig: Rig, scope: Scope, t0: real, now: real, b: Beat)
    requires b.status == Some(Racing)
    ensures var killed := CommandStep(rig, KillRace, scope, t0);
      && Guarded(Some(killed), t0)
      && (AfterStatus(killed, now, b).status == Racing <==> now >= t0 + KILL_GUARD)
  {}

  /** A rig reaped after its kill is racing again with its next report, whatever the time. */
  lemma ReapedKillForgotten(rig: Rig, scope: Scope, t0: real, reaped: real, timeout: real, now: real, b: Beat)
    requires Stale(rig, reaped, timeout) && b.status == Some(Racing)
    ensures var r := After(Some(rig), [Command(KillRace, scope, t0), Reaped(reaped, timeout), Heartbeat(now, b)]);
      r.Some? && r.value.status == Racing
  {
    var killed := Some(CommandStep(rig, KillRace, scope, t0));
    AfterThree(Some(rig), Command(KillRace, scope, t0), Reaped(reaped, timeout), Heartbeat(now, b));
    assert Step(killed, Reaped(reaped, timeout)).0 == None;
  }

  lemma AfterThree(r: Option<Rig>, a: Event, b: Event, c: Event)
    ensures After(r, [a, b, c]) == Step(Step(Step(r, a).0, b).0, c).0
  {
    hide Step;
    assert [a, b, c][1..] == [b, c] && [b, c][1..] == [c] && [c][1..] == [];
    assert After(Step(Step(r, a).0, b).0, [c]) == Step(Step(Step(r, a).0, b).0, c).0;
  }

  /**
    A racing rig stops racing exactly by losing its record, by a command other
    than a launch or another action for it alone, or by reporting ready or an
    error: no report of idle or setup does it.
  */
  lemma RacingEndsIff(rig: Rig, e: Event)
    requires rig.status == Racing
    ensures var r := Step(Some(rig), e).0;
      (r.Some? && r.value.status == Racing) <==>
      match e
      case Heartbeat(_, b) => b.status != Some(Ready) && b.status != Some(Error)
      case Command(a, scope, _) => scope == Single && a != KillRace && a != SetupMode
      case Reaped(now, timeout) => rig.lastSeen.None? || now - rig.lastSeen.value <= timeout
      case Rebooted => false
      case _ => true
  {}

  // ----- no stale and no repeated laps

  predicate Armed(r: Option<Rig>) {
    r.Some? && r.value.raceArmed
  }

  /** The heartbeats at which the lap machine is re-armed. */
  predicate Rearms(r: Option<Rig>, e: Event) {
    e.Heartbeat? && e.beat.telemetry.Some? &&
    RearmsAt(AfterStatus(Known(r, Some(e.now)), e.now, e.beat), e.beat.telemetry.value)
  }

  /** The step makes a new record, which starts armed at count 0. */
  predicate Makes(r: Option<Rig>, e: Event) {
    r.None? && (e.Heartbeat? || e.Contact?)
  }

  predicate Wakes(r: Option<Rig>, e: Event) {
    Rearms(r, e) || Makes(r, e)
  }

  /**
    A rig that is disarmed, or has no record, is armed after a step exactly when
    the step re-arms it or makes a record.
  */
  lemma DisarmedStepIff(r: Option<Rig>, e: Event)
    requires !Armed(r)
    ensures Armed(Step(r, e).0) <==> Wakes(r, e)
    ensures !Wakes(r, e) ==> Step(r, e).1 == None
  {}

  predicate NoWake(r: Option<Rig>, es: seq<Event>)
    decreases |es|
  {
    es != [] ==> !Wakes(r, es[0]) && NoWake(Step(r, es[0]).0, es[1..])
  }

  predicate StaysDisarmed(r: Option<Rig>, es: seq<Event>)
    decreases |es|
  {
    !Armed(r) && (es != [] ==> StaysDisarmed(Step(r, es[0]).0, es[1..]))
  }

  /** It stays so exactly until such a step, and until then nothing is recorded. */
  lemma {:induction false} DisarmedRecordsNothing(r: Option<Rig>, es: seq<Event>)
    requires !Armed(r)
    ensures StaysDisarmed(r, es) <==> NoWake(r, es)
    ensures NoWake(r, es) ==> Recorded(r, es) == []
    decreases |es|
  {
    hide Step, Armed, Wakes;
    if es != [] {
      DisarmedStepIff(r, es[0]);
      if !Wakes(r, es[0]) {
        DisarmedRecordsNothing(Step(r, es[0]).0, es[1..]);
      }
    }
  }

  /** After a reset nothing is recorded until a heartbeat shows lap 0 or a drop, or a new record is made. */
  lemma ResetDisarms(rig: Rig, a: Action, scope: Scope, now: real, es: seq<Event>)
    requires Resets(a)
    ensures var r := Some(CommandStep(rig, a, scope, now));
      && !Armed(r)
      && (StaysDisarmed(r, es) <==> NoWake(r, es))
      && (NoWake(r, es) ==> Recorded(r, es) == [])
  {
    DisarmedRecordsNothing(Some(CommandStep(rig, a, scope, now)), es);
  }

  ghost predicate Increasing(laps: seq<Lap>, floor: int) {
    && (forall i :: 0 <= i < |laps| ==> laps[i].number > floor)
    && (forall i, j :: 0 <= i < j < |laps| ==> laps[i].number < laps[j].number)
  }

  lemma StepCounts(rig: Rig, e: Event)
    requires !Wakes(Some(rig), e) && !Drops(Some(rig), e) && !(e.Command? && Resets(e.action))
    ensures var (next, lap) := Step(Some(rig), e);
      && next.Some? && next.value.lastLapCount >= rig.lastLapCount
      && (lap.Some? ==> next.value.lastLapCount == lap.value.number > rig.lastLapCount)
  {}

  lemma IncreasingCons(lap: Option<Lap>, rest: seq<Lap>, floor: int, count: int)
    requires Increasing(rest, count) && count >= floor && (lap.Some? ==> count == lap.value.number > floor)
    ensures Increasing(Laps(lap) + rest, floor)
  {}

  /**
    Between points that re-arm the rig or make a new record, recorded lap
    numbers strictly increase, all above the count the rig starts with.
  */
  lemma {:induction false} RecordedIncrease(rig: Rig, es: seq<Event>)
    requires NoWake(Some(rig), es)
    ensures Increasing(Recorded(Some(rig), es), rig.lastLapCount)
    decreases |es|
  {
    hide Step, Wakes, Drops;
    if es != [] {
      var (next, lap) := Step(Some(rig), es[0]);
      if (es[0].Command? && Resets(es[0].action)) || Drops(Some(rig), es[0]) {
        LossDisarms(rig, es[0]);
        DisarmedRecordsNothing(next, es[1..]);
      } else {
        StepCounts(rig, es[0]);
        RecordedIncrease(next.value, es[1..]);
        IncreasingCons(lap, Recorded(next, es[1..]), rig.lastLapCount, next.value.lastLapCount);
      }
    }
  }

  lemma LossDisarms(rig: Rig, e: Event)
    requires (e.Command? && Resets(e.action)) || Drops(Some(rig), e)
    ensures !Armed(Step(Some(rig), e).0) && Step(Some(rig), e).1 == None
  {}

  /** A racing report of a lap. */
  function LapBeat(count: int): Beat {
    Beat("", Some(Racing), Some(Telemetry(count, Some(true), Some(true), Some(60000))), None, true)
  }

  /** A rig lost in the middle of a race and heard from again records the same lap a second time. */
  lemma RediscoveryRepeatsLap(count: int)
    requires count > 0
    ensures Recorded(None,
      [Heartbeat(0.0, LapBeat(0)), Heartbeat(1.0, LapBeat(count)), Reaped(20.0, 10.0), Heartbeat(21.0, LapBeat(count))])
      == [Lap(count, 60000, true), Lap(count, 60000, true)]
  {
    var a, b, c, d := Heartbeat(0.0, LapBeat(0)), Heartbeat(1.0, LapBeat(count)), Reaped(20.0, 10.0),
      Heartbeat(21.0, LapBeat(count));
    var first := Step(None, a);
    var second := Step(first.0, b);
    var third := Step(second.0, c);
    assert first.1 == None && Armed(first.0) && first.0.value.lastLapCount == 0;
    assert second.1 == Some(Lap(count, 60000, true)) && second.0.value.lastSeen == Some(1.0);
    assert third == (None, None);
    assert Step(None, d).1 == Some(Lap(count, 60000, true));
    RecordedFour(None, a, b, c, d);
  }

  lemma RecordedCons(r: Option<Rig>, e: Event, es: seq<Event>)
    ensures Recorded(r, [e] + es) == Laps(Step(r, e).1) + Recorded(Step(r, e).0, es) && Recorded(r, []) == []
  {
    hide Step;
    assert ([e] + es)[1..] == es;
  }

  lemma RecordedTwo(r: Option<Rig>, a: Event, b: Event, rest: seq<Event>)
    ensures var (r1, l1) := Step(r, a);
      var (r2, l2) := Step(r1, b);
      Recorded(r, [a, b] + rest) == Laps(l1) + (Laps(l2) + Recorded(r2, rest))
  {
    hide Step, Recorded, Laps;
    assert [a, b] + rest == [a] + ([b] + rest);
    RecordedCons(r, a, [b] + rest);
    RecordedCons(Step(r, a).0, b, rest);
  }

  lemma RecordedFour(r: Option<Rig>, a: Event, b: Event, c: Event, d: Event)
    ensures var (r1, l1) := Step(r, a);
      var (r2, l2) := Step(r1, b);
      var (r3, l3) := Step(r2, c);
      var (r4, l4) := Step(r3, d);
      Recorded(r, [a, b, c, d]) == Laps(l1) + (Laps(l2) + (Laps(l3) + (Laps(l4) + [])))
  {
    hide Step, Recorded, Laps;
    assert [a, b] + [c, d] == [a, b, c, d] && [c, d] + [] == [c, d];
    RecordedTwo(r, a, b, [c, d]);
    var r2 := Step(Step(r, a).0, b).0;
    RecordedTwo(r2, c, d, []);
    RecordedCons(Step(Step(r2, c).0, d).0, d, []);
  }

  function Laps(lap: Option<Lap>): seq<Lap> {
    if lap.Some? then [lap.value] else []
  }

  /** And a rig disarmed by a reset, lost and heard from again records the lap of the race before. */
  lemma RediscoveryRecordsStaleLap(rig: Rig, count: int, reaped: real, timeout: real, now: real)
    requires !rig.raceArmed && rig.lastLapCount >= count > 0 && Stale(rig, reaped, timeout)
    ensures Step(Step(Some(rig), Reaped(reaped, timeout)).0, Heartbeat(now, LapBeat(count))).1
      == Some(Lap(count, 60000, true))
  {}

  // ----- sled and orchestrator together

  /** The sled's side: frames and resets; a heartbeat posts the latest reading; what else happens to the record. */
  datatype SystemEvent =
    | Sled(e: LapValidity.Event)
    | Post(now: real, address: string, status: Option<Status>, lapTime: Option<int>)
    | Apart(step: Event)

  /** A recorded lap with the number of sled events seen when it was recorded. */
  datatype Entry = Entry(lap: Lap, seen: nat)

  datatype System = System(sled: seq<LapValidity.Event>, rig: Option<Rig>, log: seq<Entry>)

  /** The reading a heartbeat carries: that of the last frame, none after a reset. */
  function Reading(es: seq<LapValidity.Event>, lapTime: Option<int>): Option<Telemetry> {
    if es == [] || es[|es| - 1].Reset? then None
    else
      var l := LapValidity.Run(es);
      Some(Telemetry(es[|es| - 1].frame.completed, Some(l.last), Some(l.current), lapTime))
  }

  function SystemStep(s: System, e: SystemEvent): System {
    match e
    case Sled(x) => s.(sled := s.sled + [x])
    case Post(now, address, status, lapTime) =>
      var (next, lap) := Step(s.rig, Heartbeat(now, Beat(address, status, Reading(s.sled, lapTime), None, true)));
      s.(rig := next, log := if lap.Some? then s.log + [Entry(lap.value, |s.sled|)] else s.log)
    case Apart(x) => if x.Heartbeat? then s else s.(rig := Step(s.rig, x).0)
  }

  function SystemRun(rig: Option<Rig>, es: seq<SystemEvent>): System {
    if es == [] then System([], rig, []) else SystemStep(SystemRun(rig, es[..|es| - 1]), es[|es| - 1])
  }

  /**
    Over every history, a heartbeat adds exactly one entry to the log when the rig
    is racing by its rules, armed, and the sled's last frame shows a counter that
    is not 0 and above the last count, with a positive time; otherwise none.
  */
  lemma {:induction false} LogGrowsIff(rig: Option<Rig>, es: seq<SystemEvent>, now: real, address: string,
      status: Option<Status>, lapTime: Option<int>)
    ensures var s := SystemRun(rig, es);
      var t := SystemRun(rig, es + [Post(now, address, status, lapTime)]);
      var n := |s.sled|;
      var racing := if status == Some(Racing)
        then s.rig.None? || s.rig.value.killAt.None? || now - s.rig.value.killAt.value >= 10.0
          || s.rig.value.status == Racing
        else s.rig.Some? && s.rig.value.status == Racing && status != Some(Ready) && status != Some(Error);
      var grows := racing && n > 0 && s.sled[n - 1].Sample? && lapTime.Some? && lapTime.value > 0
        && s.sled[n - 1].frame.completed > (if s.rig.Some? then s.rig.value.lastLapCount else 0)
        && s.sled[n - 1].frame.completed != 0 && (s.rig.Some? ==> s.rig.value.raceArmed);
      && t.sled == s.sled
      && (!grows ==> t.log == s.log)
      && (grows ==>
            && |t.log| == |s.log| + 1 && t.log[..|s.log|] == s.log && t.log[|s.log|].seen == n
            && t.log[|s.log|].lap.number == s.sled[n - 1].frame.completed
            && t.log[|s.log|].lap.timeMs == lapTime.value
            && LapValidity.ReportedFlag(s.sled, t.log[|s.log|].lap.valid))
  {
    hide BeatStep, SystemRun, LapValidity.Run, LapValidity.ReportedFlag;
    var s := SystemRun(rig, es);
    PostStep(rig, es, Post(now, address, status, lapTime));
    var b := Beat(address, status, Reading(s.sled, lapTime), None, true);
    var was := if s.rig.Some? then s.rig.value else NewRig(Some(now));
    HeartbeatEffect(was, now, b);
    LapRecordedIff(was, now, b);
    LapValidity.LatchReports(s.sled);
  }

  lemma PostStep(rig: Option<Rig>, es: seq<SystemEvent>, e: SystemEvent)
    ensures SystemRun(rig, es + [e]) == SystemStep(SystemRun(rig, es), e)
  {
    hide SystemStep;
    assert (es + [e])[..|es|] == es;
  }

  /** Nothing else adds to the log. */
  lemma OnlyPostsRecord(s: System, e: SystemEvent)
    ensures !e.Post? ==> SystemStep(s, e).log == s.log
  {}

  /** The lap number is the sled's counter, and the flag is what the latch reports after the events seen. */
  ghost predicate Faithful(sled: seq<LapValidity.Event>, x: Entry) {
    && 0 < x.seen <= |sled|
    && sled[x.seen - 1].Sample? && sled[x.seen - 1].frame.completed == x.lap.number
    && LapValidity.ReportedFlag(sled[..x.seen], x.lap.valid)
  }

  ghost predicate AllFaithful(s: System) {
    forall i :: 0 <= i < |s.log| ==> Faithful(s.sled, s.log[i])
  }

  lemma PostFaithful(s: System, now: real, address: string, status: Option<Status>, lapTime: Option<int>)
    ensures var t := SystemStep(s, Post(now, address, status, lapTime));
      t.log == s.log || (|t.log| == |s.log| + 1 && t.log[..|s.log|] == s.log && Faithful(t.sled, t.log[|s.log|]))
  {
    LapValidity.LatchReports(s.sled);
    assert s.sled[..|s.sled|] == s.sled;
  }

  lemma FaithfulLater(sled: seq<LapValidity.Event>, x: Entry, e: LapValidity.Event)
    requires Faithful(sled, x)
    ensures Faithful(sled + [e], x)
  {
    assert (sled + [e])[..x.seen] == sled[..x.seen];
  }

  /** For every history of frames, resets, heartbeats and commands, every recorded lap is faithful. */
  lemma {:induction false} RecordedFaithful(rig: Option<Rig>, es: seq<SystemEvent>)
    ensures AllFaithful(SystemRun(rig, es))
  {
    if es != [] {
      var s, e := SystemRun(rig, es[..|es| - 1]), es[|es| - 1];
      RecordedFaithful(rig, es[..|es| - 1]);
      match e
      case Sled(x) =>
        forall i | 0 <= i < |s.log| ensures Faithful(s.sled + [x], s.log[i]) { FaithfulLater(s.sled, s.log[i], x); }
      case Post(now, address, status, lapTime) =>
        PostFaithful(s, now, address, status, lapTime);
        var t := SystemStep(s, e);
        forall i | 0 <= i < |t.log| ensures Faithful(t.sled, t.log[i]) {
          if i < |s.log| { assert t.log[i] == s.log[i]; }
        }
      case Apart(_) =>
    }
  }

  /**
    For every history a recorded lap carries the flag of a completed lap, one
    with at least one frame that ended when the counter last rose, exactly when
    the counter's last change among the frames seen was a rise over a lap;
    otherwise it is recorded as valid with no frame behind it.
  */
  lemma RecordedLapIff(rig: Option<Rig>, es: seq<SystemEvent>, i: nat)
    requires i < |SystemRun(rig, es).log|
    ensures var s := SystemRun(rig, es);
      var x := s.log[i];
      && x.seen <= |s.sled|
      && (LapValidity.OfCompletedLap(s.sled[..x.seen], x.lap.valid) <==> LapValidity.RoseOverLap(s.sled[..x.seen]))
      && (!LapValidity.RoseOverLap(s.sled[..x.seen]) ==> x.lap.valid)
  {
    RecordedFaithful(rig, es);
    var s := SystemRun(rig, es);
    assert Faithful(s.sled, s.log[i]);
    LapValidity.ReportedLapIff(s.sled[..s.log[i].seen], s.log[i].lap.valid);
  }

  /**
    Four frames between two heartbeats: the counter jumps up after an invalid
    frame and falls to a value still above the last count.
  */
  function Jump(): seq<LapValidity.Event> {
    [LapValidity.Sample(LapValidity.Frame(1, true)), LapValidity.Sample(LapValidity.Frame(1, false)),
     LapValidity.Sample(LapValidity.Frame(5, true)), LapValidity.Sample(LapValidity.Frame(3, false))]
  }

  function OnSled(frames: seq<LapValidity.Event>): (es: seq<SystemEvent>)
    ensures |es| == |frames|
  {
    seq(|frames|, i requires 0 <= i < |frames| => Sled(frames[i]))
  }

  lemma {:induction false} SledRun(rig: Option<Rig>, frames: seq<LapValidity.Event>)
    ensures SystemRun(rig, OnSled(frames)) == System(frames, rig, [])
  {
    if frames != [] {
      var init := frames[..|frames| - 1];
      SledRun(rig, init);
      assert OnSled(frames)[..|init|] == OnSled(init);
      assert init + [frames[|init|]] == frames;
    }
  }

  lemma JumpLatch()
    ensures LapValidity.Run(Jump()) == LapValidity.LatchState(true, true, 3)
  {
    var es := Jump();
    assert es[..3][..2] == es[..2] && es[..2][..1] == es[..1] && es[..1][..0] == [];
    assert LapValidity.Run(es[..1]) == LapValidity.LatchState(true, true, 1);
    assert LapValidity.Run(es[..2]) == LapValidity.LatchState(false, true, 1);
    assert LapValidity.Run(es[..3]) == LapValidity.LatchState(true, false, 5);
  }

  /** Then a lap is recorded as valid although the last completed one was not, and none was completed since the fall. */
  lemma {:induction false} FallRecordsValidLap(rig: Rig, now: real, address: string)
    requires rig.status == Racing && rig.raceArmed && rig.lastLapCount == 1
    ensures SystemRun(Some(rig), OnSled(Jump()) + [Post(now, address, None, Some(60000))]).log
      == [Entry(Lap(3, 60000, true), 4)]
    ensures !LapValidity.RoseOverLap(Jump())
    ensures LapValidity.Rises(Jump(), 2) && LapValidity.LapFrom(Jump(), 0, 2) && !LapValidity.AllValid(Jump(), 0, 2)
  {
    var es, post := OnSled(Jump()), Post(now, address, None, Some(60000));
    SledRun(Some(rig), Jump());
    JumpLatch();
    assert (es + [post])[..4] == es;
    assert !Jump()[1].frame.valid;
  }

  /** A sled that restarts mid-race: its first frame rises over nothing, and a valid lap is recorded. */
  lemma {:induction false} RestartRecordsValidLap(rig: Rig, count: int, now: real, address: string)
    requires rig.status == Racing && rig.raceArmed && rig.lastLapCount < count && count > 0
    ensures var frames := [LapValidity.Sample(LapValidity.Frame(count, true))];
      && SystemRun(Some(rig), OnSled(frames) + [Post(now, address, None, Some(60000))]).log
           == [Entry(Lap(count, 60000, true), 1)]
      && !LapValidity.RoseOverLap(frames)
  {
    var frames := [LapValidity.Sample(LapValidity.Frame(count, true))];
    var es, post := OnSled(frames), Post(now, address, None, Some(60000));
    SledRun(Some(rig), frames);
    assert frames[..0] == [] && LapValidity.Run(frames) == LapValidity.LatchState(true, true, count);
    assert (es + [post])[..1] == es;
  }
}

/**
  What launch, kill, setup and other commands leave behind for one rig, a group
  and all rigs, in the fields of the records alone.
*/
module CommandEffects {
  import opened OrderedDict
  import opened Wrappers
  import opened AppState
  import opened StateEffects
  import opened LapCapture
  import opened RaceControl

  // ----- which session a launch starts

  /** The rig is registered and its current session is still open on the Ridge side. */
  predicate HasOpen(rigs: map<Id, Rig>, rid: Id, open: set<Id>) {
    rid in rigs && rigs[rid].sessionId.Some? && rigs[rid].sessionId.value in open
  }

  /** The open current session of the first listed rig that has one, and otherwise the new id. */
  ghost predicate Chosen(rigs: map<Id, Rig>, rids: seq<Id>, open: set<Id>, newSid: Id, sid: Id) {
    || (exists i :: 0 <= i < |rids| && HasOpen(rigs, rids[i], open) && rigs[rids[i]].sessionId == Some(sid)
          && forall j :: 0 <= j < i ==> !HasOpen(rigs, rids[j], open))
    || (sid == newSid && forall j :: 0 <= j < |rids| ==> !HasOpen(rigs, rids[j], open))
  }

  /** None exactly when no listed rig has an open session; otherwise that of the first one that has. */
  lemma {:induction false} FirstOpenIs(rigs: map<Id, Rig>, rids: seq<Id>, open: set<Id>)
    ensures var f := FirstOpen(rigs, rids, open);
      && (f.None? <==> forall i :: 0 <= i < |rids| ==> !HasOpen(rigs, rids[i], open))
      && (f.Some? ==>
            f.value in open && exists i ::
              && 0 <= i < |rids| && HasOpen(rigs, rids[i], open) && rigs[rids[i]].sessionId == f
              && forall j :: 0 <= j < i ==> !HasOpen(rigs, rids[j], open))
  {
    if rids != [] {
      var init, n := rids[..|rids| - 1], |rids| - 1;
      FirstOpenIs(rigs, init, open);
      if FirstOpen(rigs, init, open).Some? {
        var i :| 0 <= i < n && HasOpen(rigs, init[i], open) && rigs[init[i]].sessionId == FirstOpen(rigs, init, open)
          && forall j :: 0 <= j < i ==> !HasOpen(rigs, init[j], open);
        assert rids[i] == init[i] && forall j :: 0 <= j < i ==> rids[j] == init[j];
      } else {
        assert forall j :: 0 <= j < n ==> rids[j] == init[j];
      }
    }
  }

  /** The chosen session exists and there is only one. */
  lemma ChosenOnce(rigs: map<Id, Rig>, rids: seq<Id>, open: set<Id>, newSid: Id, a: Id, b: Id)
    requires Chosen(rigs, rids, open, newSid, a) && Chosen(rigs, rids, open, newSid, b)
    ensures a == b
  {
    hide HasOpen;
  }

  /** A launch starts the chosen session, as a new record of these rigs. */
  lemma LaunchStarts(s: State, rids: seq<Id>, groupId: Option<Id>, open: set<Id>, newSid: Id, now: real)
    ensures var t := Launch(s, rids, groupId, open, newSid, now);
      && t.latest.Some? && Chosen(s.rigs, rids, open, newSid, t.latest.value)
      && PutUnder(s.sessions, t.sessions, Session(t.latest.value, groupId, rids, false, now, None))
      && t.groups == s.groups
      && (forall r :: r in t.rigs <==> r in s.rigs || r in rids)
      && forall r :: r in t.rigs ==>
           t.rigs[r] == if r !in rids then s.rigs[r]
           else if r in s.rigs then s.rigs[r].(sessionId := t.latest)
           else Rig(Idle, None, None, t.latest, 0, true, None, None, None, None, false, None, None)
  {
    hide StartSession, HasOpen, PutUnder, FirstOpen;
    var found := FirstOpen(s.rigs, rids, open);
    FirstOpenIs(s.rigs, rids, open);
    StartEffect(s, if found.Some? then found.value else newSid, groupId, rids, now);
  }

  lemma ChosenSame(p: map<Id, Rig>, q: map<Id, Rig>, rids: seq<Id>, open: set<Id>, newSid: Id, sid: Id)
    requires p.Keys == q.Keys && forall r :: r in p ==> p[r].sessionId == q[r].sessionId
    ensures Chosen(p, rids, open, newSid, sid) == Chosen(q, rids, open, newSid, sid)
  {
    assert forall r :: HasOpen(p, r, open) == HasOpen(q, r, open);
  }

  /** The group of the record is the first that lists the rig. */
  lemma {:induction false} OwnGroupIs(gs: seq<Group>, rid: Id)
    ensures OwnGroup(gs, rid).None? <==> forall i :: 0 <= i < |gs| ==> rid !in gs[i].rigIds
    ensures forall i :: 0 <= i < |gs| && rid in gs[i].rigIds && (forall j :: 0 <= j < i ==> rid !in gs[j].rigIds) ==>
      OwnGroup(gs, rid) == Some(gs[i].id)
  {
    if gs != [] && rid !in gs[0].rigIds {
      OwnGroupIs(gs[1..], rid);
      forall i | 0 <= i < |gs| && rid in gs[i].rigIds && forall j :: 0 <= j < i ==> rid !in gs[j].rigIds
        ensures OwnGroup(gs, rid) == Some(gs[i].id)
      {
        assert gs[1..][i - 1] == gs[i] && forall j :: 0 <= j < i - 1 ==> gs[1..][j] == gs[j + 1];
      }
      assert forall i :: 0 < i < |gs| ==> gs[i] == gs[1..][i - 1];
    }
  }

  // ----- one rig

  lemma OneSet(s: State, rid: Id, a: Action, now: real)
    requires rid in s.rigs
    ensures SetEach(s, [rid], a, Single, now) == s.(rigs := s.rigs[rid := CommandStep(s.rigs[rid], a, Single, now)])
  {
    hide CommandStep;
    assert rid in [rid];
    assert SetEach(s, [rid], a, Single, now).rigs == s.rigs[rid := CommandStep(s.rigs[rid], a, Single, now)];
  }

  /** A launch of one rig: its open session or the new one is started with it, and its lap machine is reset. */
  lemma OneLaunched(s: State, rid: Id, open: set<Id>, newSid: Id, order: seq<Id>, now: real)
    requires rid in s.rigs
    ensures var (t, finished) := SentToOne(s, rid, LaunchRace, open, newSid, order, now);
      && finished == [] && t.groups == s.groups && t.latest.Some?
      && t.latest == (if s.rigs[rid].sessionId.Some? && s.rigs[rid].sessionId.value in open
                      then s.rigs[rid].sessionId else Some(newSid))
      && PutUnder(s.sessions, t.sessions,
           Session(t.latest.value, OwnGroup(s.groups, rid), [rid], false, now, None))
      && t.rigs == s.rigs[rid :=
           s.rigs[rid].(sessionId := t.latest, killAt := None, lastLapCount := 0, raceArmed := false)]
  {
    hide Launch, PutUnder, OwnGroup, SetEach, CommandStep;
    var u := SetEach(s, [rid], LaunchRace, Single, now);
    OneSet(s, rid, LaunchRace, now);
    CommandEffect(s.rigs[rid], LaunchRace, Single, now);
    LaunchStarts(u, [rid], OwnGroup(u.groups, rid), open, newSid, now);
    var t := Launch(u, [rid], OwnGroup(u.groups, rid), open, newSid, now);
    assert [rid][0] == rid;
    assert t.rigs == s.rigs[rid := t.rigs[rid]];
  }

  /** A kill of one rig: it is stopped, guarded and released, and its unfinished sessions are finished. */
  lemma OneKilled(s: State, rid: Id, open: set<Id>, newSid: Id, order: seq<Id>, now: real)
    requires rid in s.rigs
    ensures var t := SentToOne(s, rid, KillRace, open, newSid, order, now).0;
      && t.groups == s.groups && t.latest == s.latest && |t.sessions| == |s.sessions|
      && t.rigs == s.rigs[rid := s.rigs[rid].(status := Idle, killAt := Some(now), lastLapCount := 0,
                                              raceArmed := false, sessionId := None)]
      && forall i :: 0 <= i < |s.sessions| ==>
           t.sessions[i] == if rid in s.sessions[i].rigIds && !s.sessions[i].finished
             then s.sessions[i].(finished := true, finishedAt := Some(now)) else s.sessions[i]
  {
    hide FinishSession;
    var u := SetEach(s, [rid], KillRace, Single, now);
    FinishRigsFields(u, None, [rid], order, now);
    assert rid in [rid];
  }

  /** Setup resets it and clears its car; any other action changes nothing. */
  lemma OneOther(s: State, rid: Id, a: Action, open: set<Id>, newSid: Id, order: seq<Id>, now: real)
    requires rid in s.rigs && (a == SetupMode || a == OtherAction)
    ensures SentToOne(s, rid, a, open, newSid, order, now) ==
      (if a == OtherAction then s
       else s.(rigs := s.rigs[rid :=
         s.rigs[rid].(status := Setup, lastLapCount := 0, raceArmed := false, car := None)]), [])
  {
    hide SetEach;
    OneSet(s, rid, a, now);
    assert s.rigs[rid := s.rigs[rid]] == s.rigs;
  }

  // ----- groups and all rigs

  /** The loop gets to the rig: no record before its first place in the list lacks an address. */
  ghost predicate Reached(rigs: map<Id, Rig>, rids: seq<Id>, r: Id) {
    exists i :: 0 <= i < |rids| && rids[i] == r && AddressedBefore(rigs, rids, i)
  }

  ghost predicate AddressedBefore(rigs: map<Id, Rig>, rids: seq<Id>, i: nat) {
    forall j :: 0 <= j < i && j < |rids| && rids[j] in rigs ==> rigs[rids[j]].address.Some?
  }

  lemma {:induction false} ServedIff(rigs: map<Id, Rig>, rids: seq<Id>, r: Id)
    ensures r in Served(rigs, rids) <==> Reached(rigs, rids, r)
  {
    if i :| 0 <= i < |rids| && rids[i] == r && AddressedBefore(rigs, rids, i) {
      ServedAt(rigs, rids, i);
    }
    if r in Served(rigs, rids) {
      ServedAddressed(rigs, rids);
      var i :| 0 <= i < |Served(rigs, rids)| && Served(rigs, rids)[i] == r;
      assert rids[i] == r && AddressedBefore(rigs, rids, i);
    }
  }

  lemma {:induction false} ServedAt(rigs: map<Id, Rig>, rids: seq<Id>, i: nat)
    requires i < |rids| && AddressedBefore(rigs, rids, i)
    ensures rids[i] in Served(rigs, rids)
  {
    var init := rids[..|rids| - 1];
    if !AllAddressed(rigs, init) {
      assert i < |init|;
      assert AddressedBefore(rigs, init, i);
      ServedAt(rigs, init, i);
    }
  }

  lemma {:induction false} ServedAddressed(rigs: map<Id, Rig>, rids: seq<Id>)
    ensures Served(rigs, rids) <= rids
    ensures forall i :: 0 <= i < |Served(rigs, rids)| ==> AddressedBefore(rigs, rids, i)
  {
    if rids != [] {
      var init := rids[..|rids| - 1];
      if AllAddressed(rigs, init) {
        assert forall j :: 0 <= j < |init| ==> init[j] == rids[j];
      } else {
        ServedAddressed(rigs, init);
        forall i | 0 <= i < |Served(rigs, rids)| ensures AddressedBefore(rigs, rids, i) {
          assert AddressedBefore(rigs, init, i);
          assert forall j :: 0 <= j < i ==> init[j] == rids[j];
        }
      }
    }
  }

  lemma ReachedSame(p: map<Id, Rig>, q: map<Id, Rig>, rids: seq<Id>, r: Id)
    requires p.Keys == q.Keys && forall x :: x in p ==> p[x].address == q[x].address
    ensures Reached(p, rids, r) == Reached(q, rids, r)
  {
    assert forall i: nat :: AddressedBefore(p, rids, i) == AddressedBefore(q, rids, i);
  }

  /** What a command makes of a rig the loop gets to. */
  lemma DispatchedAs(rig: Rig, a: Action, scope: Scope, now: real)
    ensures var r := DispatchStep(rig, a, scope, now);
      && (a == SetupMode ==> r == rig.(status := Setup, lastLapCount := 0, raceArmed := false, car := None))
      && (a == OtherAction && scope != Single ==> r == rig.(status := Idle))
      && (a == KillRace || a == LaunchRace ==>
            r == if scope == InGroup then rig.(status := Idle)
              else rig.(status := if a == LaunchRace && scope == Single then rig.status else Idle,
                        killAt := if a == KillRace then Some(now) else None, lastLapCount := 0, raceArmed := false))
  {}

  /** To all rigs: the sessions are started or finished for every one, the other fields set for those reached. */
  lemma AllLaunched(s: State, open: set<Id>, newSid: Id, order: seq<Id>, now: real, r: Id)
    requires (forall rid :: rid in order <==> rid in s.rigs) && r in s.rigs
    ensures var (t, finished) := SentToAll(s, LaunchRace, open, newSid, order, now);
      && finished == [] && t.groups == s.groups && t.rigs.Keys == s.rigs.Keys
      && t.latest.Some? && Chosen(s.rigs, order, open, newSid, t.latest.value)
      && PutUnder(s.sessions, t.sessions, Session(t.latest.value, None, order, false, now, None))
      && t.rigs[r] == if Reached(s.rigs, order, r)
        then s.rigs[r].(sessionId := t.latest, status := Idle, killAt := None, lastLapCount := 0, raceArmed := false)
        else s.rigs[r].(sessionId := t.latest)
  {
    hide Launch, PutUnder, Chosen, Served, Reached, DispatchStep;
    var u := Launch(s, order, None, open, newSid, now);
    LaunchStarts(s, order, None, open, newSid, now);
    DispatchedAs(u.rigs[r], LaunchRace, Global, now);
    ServedIff(u.rigs, order, r);
    ReachedSame(s.rigs, u.rigs, order, r);
  }

  /** A kill of all rigs finishes every session and releases every rig; those reached are stopped. */
  lemma AllKilled(s: State, open: set<Id>, newSid: Id, order: seq<Id>, now: real, r: Id)
    requires (forall rid :: rid in order <==> rid in s.rigs) && r in s.rigs && UniqueSessions(s.sessions)
    ensures var t := SentToAll(s, KillRace, open, newSid, order, now).0;
      && t.groups == s.groups && t.latest == s.latest && t.rigs.Keys == s.rigs.Keys
      && |t.sessions| == |s.sessions|
      && (forall i :: 0 <= i < |s.sessions| ==>
            t.sessions[i] == if !s.sessions[i].finished || s.latest == Some(s.sessions[i].id)
              then s.sessions[i].(finished := true, finishedAt := Some(now)) else s.sessions[i])
      && t.rigs[r] == if Reached(s.rigs, order, r)
        then s.rigs[r].(sessionId := None, status := Idle, killAt := Some(now), lastLapCount := 0, raceArmed := false)
        else s.rigs[r].(sessionId := None)
  {
    hide FinishSession, Served, Reached, DispatchStep;
    var u := FinishSession(s, None, [], order, now).0;
    FinishAllFields(s, None, order, now);
    DispatchedAs(u.rigs[r], KillRace, Global, now);
    ServedIff(u.rigs, order, r);
    ReachedSame(s.rigs, u.rigs, order, r);
  }

  /** Setup and other actions change the rigs reached and no session. */
  lemma AllOther(s: State, a: Action, open: set<Id>, newSid: Id, order: seq<Id>, now: real, r: Id)
    requires (a == SetupMode || a == OtherAction) && r in s.rigs
    ensures var (t, finished) := SentToAll(s, a, open, newSid, order, now);
      && finished == [] && t == s.(rigs := t.rigs) && t.rigs.Keys == s.rigs.Keys
      && t.rigs[r] == if !Reached(s.rigs, order, r) then s.rigs[r]
        else if a == OtherAction then s.rigs[r].(status := Idle)
        else s.rigs[r].(status := Setup, lastLapCount := 0, raceArmed := false, car := None)
  {
    hide Served, Reached, DispatchStep;
    DispatchedAs(s.rigs[r], a, Global, now);
    ServedIff(s.rigs, order, r);
  }

  /** To a group, a launch: every listed rig is reset and joins, those reached are idle. */
  lemma GroupLaunched(s: State, g: Group, open: set<Id>, newSid: Id, order: seq<Id>, now: real, r: Id)
    ensures var (t, finished) := SentToGroup(s, g, LaunchRace, open, newSid, order, now);
      && finished == [] && t.groups == s.groups
      && t.latest.Some? && Chosen(s.rigs, g.rigIds, open, newSid, t.latest.value)
      && PutUnder(s.sessions, t.sessions, Session(t.latest.value, Some(g.id), g.rigIds, false, now, None))
      && (r in t.rigs <==> r in s.rigs || r in g.rigIds)
      && (r in s.rigs && r !in g.rigIds ==> t.rigs[r] == s.rigs[r])
      && (r in s.rigs && r in g.rigIds ==>
            t.rigs[r] == s.rigs[r].(sessionId := t.latest, killAt := None, lastLapCount := 0, raceArmed := false,
              status := if Reached(t.rigs, g.rigIds, r) then Idle else s.rigs[r].status))
      && (r !in s.rigs && r in g.rigIds ==>
            t.rigs[r] == Rig(Idle, None, None, t.latest, 0, true, None, None, None, None, false, None, None))
  {
    hide Launch, PutUnder, Chosen, Served, Reached, DispatchStep;
    var u := SetEach(s, g.rigIds, LaunchRace, Single, now);
    LaunchStarts(u, g.rigIds, Some(g.id), open, newSid, now);
    var v := Launch(u, g.rigIds, Some(g.id), open, newSid, now);
    ChosenSame(s.rigs, u.rigs, g.rigIds, open, newSid, v.latest.value);
    var t := Dispatch(v, g.rigIds, LaunchRace, InGroup, now);
    forall x | x in v.rigs ensures t.rigs[x].address == v.rigs[x].address {
      DispatchedAs(v.rigs[x], LaunchRace, InGroup, now);
    }
    ServedIff(v.rigs, g.rigIds, r);
    ReachedSame(v.rigs, t.rigs, g.rigIds, r);
    if r in v.rigs {
      DispatchedAs(v.rigs[r], LaunchRace, InGroup, now);
      if r !in g.rigIds {
        ServedPrefix(v.rigs, g.rigIds);
      }
    }
  }

  /** A kill: every registered rig listed is stopped and released, reached or not. */
  lemma GroupKilled(s: State, g: Group, open: set<Id>, newSid: Id, order: seq<Id>, now: real, r: Id)
    requires g.rigIds != [] && r in s.rigs
    ensures var t := SentToGroup(s, g, KillRace, open, newSid, order, now).0;
      && t.groups == s.groups && t.latest == s.latest && t.rigs.Keys == s.rigs.Keys
      && t.rigs[r] == (if r !in g.rigIds then s.rigs[r]
                       else s.rigs[r].(sessionId := None, status := Idle, killAt := Some(now), lastLapCount := 0,
                                       raceArmed := false))
      && |t.sessions| == |s.sessions|
      && forall i :: 0 <= i < |s.sessions| ==>
           t.sessions[i] == if !s.sessions[i].finished && exists x :: x in g.rigIds && x in s.sessions[i].rigIds
             then s.sessions[i].(finished := true, finishedAt := Some(now)) else s.sessions[i]
  {
    hide FinishSession, Served, DispatchStep;
    var u := SetEach(s, g.rigIds, KillRace, InGroup, now);
    FinishRigsFields(u, None, g.rigIds, order, now);
    var v := FinishSession(u, None, g.rigIds, order, now).0;
    DispatchedAs(v.rigs[r], KillRace, InGroup, now);
    ServedPrefix(v.rigs, g.rigIds);
  }

  /** Setup and other actions change the listed rigs reached. */
  lemma GroupOther(s: State, g: Group, a: Action, open: set<Id>, newSid: Id, order: seq<Id>, now: real, r: Id)
    requires (a == SetupMode || a == OtherAction) && r in s.rigs
    ensures var (t, finished) := SentToGroup(s, g, a, open, newSid, order, now);
      && finished == [] && t == s.(rigs := t.rigs) && t.rigs.Keys == s.rigs.Keys
      && t.rigs[r] == if !Reached(s.rigs, g.rigIds, r) then s.rigs[r]
        else if a == OtherAction then s.rigs[r].(status := Idle)
        else s.rigs[r].(status := Setup, lastLapCount := 0, raceArmed := false, car := None)
  {
    hide Served, Reached, DispatchStep;
    DispatchedAs(s.rigs[r], a, InGroup, now);
    ServedIff(s.rigs, g.rigIds, r);
  }

  // ----- where the laps of a race go

  /** A lap goes under the rig's own session, without one under the latest, and without any under its group's id. */
  lemma LapSessionIs(s: State, rid: Id)
    ensures rid in s.rigs && s.rigs[rid].sessionId.Some? && s.rigs[rid].sessionId.value != "" ==>
      Some(LapSession(s, rid)) == s.rigs[rid].sessionId
    ensures (rid !in s.rigs || s.rigs[rid].sessionId.None? || s.rigs[rid].sessionId == Some("")) ==>
      LapSession(s, rid) ==
        if s.latest.Some? && s.latest.value != "" then s.latest.value
        else if OwnGroup(s.groups, rid).Some? then OwnGroup(s.groups, rid).value else "session"
  {
    hide OwnGroup;
  }

  /** After any launch every rig it was for has its laps filed under the session just started. */
  lemma LapsUnderLaunch(s: State, g: Group, open: set<Id>, newSid: Id, order: seq<Id>, now: real, rid: Id)
    requires forall r :: r in order <==> r in s.rigs
    ensures var t := SentToGroup(s, g, LaunchRace, open, newSid, order, now).0;
      rid in g.rigIds && t.latest != Some("") ==> Some(LapSession(t, rid)) == t.latest
    ensures var t := SentToAll(s, LaunchRace, open, newSid, order, now).0;
      rid in s.rigs && t.latest != Some("") ==> Some(LapSession(t, rid)) == t.latest
    ensures rid in s.rigs ==>
      var t := SentToOne(s, rid, LaunchRace, open, newSid, order, now).0;
      t.latest != Some("") ==> Some(LapSession(t, rid)) == t.latest
  {
    hide SentToGroup, SentToAll, SentToOne, OwnGroup, PutUnder, Chosen, Reached;
    GroupLaunched(s, g, open, newSid, order, now, rid);
    if rid in s.rigs {
      AllLaunched(s, open, newSid, order, now, rid);
      OneLaunched(s, rid, open, newSid, order, now);
    }
  }
}

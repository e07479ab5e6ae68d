/** The state object itself: its methods update the dictionaries in place. */
module Registry {
  import opened OrderedDict
  import opened Wrappers
  import opened AppState

  class Registry {
    var rigs: map<Id, Rig>
    var groups: seq<Group>
    var sessions: seq<Session>
    var latest: Option<Id>

    ghost function View(): State
      reads this
    {
      State(rigs, groups, sessions, latest)
    }

    constructor ()
      ensures View() == EMPTY
    {
      rigs, groups, sessions, latest := map[], [], [], None;
    }

    method Upsert(rid: Id, now: real) returns (rig: Rig)
      modifies this
      ensures View() == UpsertRig(old(View()), rid, now)
      ensures rid in rigs && rig == rigs[rid]
    {
      if rid !in rigs {
        rigs := rigs[rid := NewRig(Some(now))];
      } else {
        rigs := rigs[rid := rigs[rid].(lastSeen := Some(now))];
      }
      rig := rigs[rid];
    }

    method RemoveStaleRigs(now: real, timeout: real) returns (removed: set<Id>)
      modifies this
      ensures View() == RemoveStale(old(View()), now, timeout)
      ensures removed == old(rigs).Keys - rigs.Keys
    {
      var stale := set rid | rid in rigs && Stale(rigs[rid], now, timeout);
      removed := stale;
      while stale != {}
        invariant stale <= removed
        invariant View() == old(View()).(rigs := rigs)
        invariant rigs == map rid | rid in old(rigs) && rid !in removed - stale :: old(rigs)[rid]
        decreases stale
      {
        var rid :| rid in stale;
        rigs := rigs - {rid};
        stale := stale - {rid};
      }
    }

    method Create(gid: Id)
      requires GroupIndex(groups, gid).None?
      modifies this
      ensures View() == CreateGroup(old(View()), gid)
    {
      groups := groups + [Group(gid, [])];
    }

    method Delete(gid: Id) returns (ok: bool)
      modifies this
      ensures View() == DeleteGroup(old(View()), gid)
      ensures ok == GroupIndex(old(groups), gid).Some?
    {
      var k := GroupIndex(groups, gid);
      if k.None? {
        return false;
      }
      var rids := groups[k.value].rigIds;
      for i := 0 to |rids|
        invariant View() == old(View()).(rigs := Unassigned(old(rigs), rids[..i]))
      {
        if rids[i] in rigs {
          rigs := rigs[rids[i] := rigs[rids[i]].(groupId := None)];
        }
        assert rids[..i + 1] == rids[..i] + [rids[i]];
        assert rigs == Unassigned(old(rigs), rids[..i + 1]);
      }
      assert rids[..|rids|] == rids;
      groups := groups[..k.value] + groups[k.value + 1..];
      return true;
    }

    method AddRigToGroup(gid: Id, rid: Id) returns (ok: bool)
      modifies this
      ensures View() == AddRig(old(View()), gid, rid)
      ensures ok == GroupIndex(old(groups), gid).Some?
    {
      var k := GroupIndex(groups, gid);
      if k.None? {
        return false;
      }
      for i := 0 to |groups|
        invariant |groups| == |old(groups)|
        invariant View() == old(View()).(groups := groups)
        invariant forall j :: 0 <= j < |groups| ==>
          groups[j] == if j < i then Without(old(groups), rid)[j] else old(groups)[j]
      {
        RemoveAbsent(groups[i].rigIds, rid);
        if rid in groups[i].rigIds {
          groups := groups[i := groups[i].(rigIds := RemoveFirst(groups[i].rigIds, rid))];
        }
      }
      assert groups == Without(old(groups), rid);
      groups := groups[k.value := groups[k.value].(rigIds := groups[k.value].rigIds + [rid])];
      if rid in rigs {
        rigs := rigs[rid := rigs[rid].(groupId := Some(gid))];
      }
      return true;
    }

    method RemoveRigFromGroup(gid: Id, rid: Id) returns (ok: bool)
      modifies this
      ensures View() == RemoveRig(old(View()), gid, rid)
      ensures ok == (GroupIndex(old(groups), gid).Some?
        && rid in old(groups)[GroupIndex(old(groups), gid).value].rigIds)
    {
      var k := GroupIndex(groups, gid);
      if k.None? || rid !in groups[k.value].rigIds {
        return false;
      }
      groups := groups[k.value := groups[k.value].(rigIds := RemoveFirst(groups[k.value].rigIds, rid))];
      if rid in rigs {
        rigs := rigs[rid := rigs[rid].(groupId := None)];
      }
      return true;
    }

    method ReorderGroups(ids: seq<Id>) returns (list: seq<Group>)
      requires UniqueGroups(groups)
      modifies this
      ensures View() == Reorder(old(View()), ids) && list == groups
    {
      var reordered: seq<Group> := [];
      ghost var gs := groups;
      for i := 0 to |ids|
        invariant View() == old(View())
        invariant reordered == Listed(gs, ids[..i])
      {
        assert ids[..i + 1][..i] == ids[..i];
        var k := GroupIndex(groups, ids[i]);
        if k.Some? {
          // assigning a key twice keeps its first position
          if GroupIndex(reordered, ids[i]).None? {
            reordered := reordered + [groups[k.value]];
          }
        }
      }
      assert ids[..|ids|] == ids;
      reordered := AppendOthers(reordered);
      groups := reordered;
      list := groups;
    }

    method AppendOthers(first: seq<Group>) returns (all: seq<Group>)
      requires UniqueGroups(groups)
      ensures all == first + Others(groups, first)
    {
      all := first;
      for i := 0 to |groups|
        invariant all == first + Others(groups[..i], first)
      {
        assert groups[..i + 1][..i] == groups[..i];
        NotYet(groups, first, i);
        if GroupIndex(all, groups[i].id).None? {
          all := all + [groups[i]];
        }
      }
      assert groups[..|groups|] == groups;
    }

    method StartRaceSession(sid: Id, groupId: Option<Id>, rids: seq<Id>, now: real)
      modifies this
      ensures View() == StartSession(old(View()), sid, groupId, rids, now)
    {
      latest := Some(sid);
      var started := NewSession(sid, groupId, rids, now);
      var k := SessionIndex(sessions, sid);
      sessions := if k.Some? then sessions[k.value := started] else sessions + [started];
      for i := 0 to |rids|
        invariant View() == StartSession(old(View()), sid, groupId, rids,
          now).(rigs := Joined(old(rigs), rids[..i], sid))
      {
        assert rids[..i + 1][..i] == rids[..i];
        if rids[i] in rigs {
          rigs := rigs[rids[i] := rigs[rids[i]].(sessionId := Some(sid))];
        } else {
          rigs := rigs[rids[i] := NewRig(None).(sessionId := Some(sid))];
        }
      }
      assert rids[..|rids|] == rids;
    }

    /** Marks the selected sessions finished, collecting the ids of those that were not. */
    method FinishSelected(hit: Session -> bool, now: real) returns (finished: seq<Id>)
      modifies this`sessions
      ensures sessions == FinishWhere(old(sessions), hit, now)
      ensures finished == NewlyFinished(old(sessions), hit)
    {
      finished := [];
      for i := 0 to |sessions|
        invariant |sessions| == |old(sessions)|
        invariant forall j :: 0 <= j < |sessions| ==>
          sessions[j] == if j < i then FinishWhere(old(sessions), hit, now)[j] else old(sessions)[j]
        invariant finished == NewlyFinished(old(sessions)[..i], hit)
      {
        assert old(sessions)[..i + 1][..i] == old(sessions)[..i];
        if hit(sessions[i]) && !sessions[i].finished {
          finished := finished + [sessions[i].id];
          sessions := sessions[i := sessions[i].(finished := true, finishedAt := Some(now))];
        }
      }
      assert old(sessions)[..|sessions|] == old(sessions);
    }

    /** Clears the current session of each listed rig, adding its id unless already there. */
    method ReleaseRigs(rids: seq<Id>, acc: seq<Id>) returns (finished: seq<Id>)
      modifies this`rigs
      ensures rigs == Released(old(rigs), rids)
      ensures finished == Collect(old(rigs), rids, acc)
    {
      finished := acc;
      for i := 0 to |rids|
        invariant rigs == Released(old(rigs), rids[..i])
        invariant finished == Collect(old(rigs), rids[..i], acc)
      {
        assert rids[..i + 1][..i] == rids[..i];
        if rids[i] in rigs && rigs[rids[i]].sessionId.Some? {
          if rigs[rids[i]].sessionId.value !in finished {
            finished := finished + [rigs[rids[i]].sessionId.value];
          }
          rigs := rigs[rids[i] := rigs[rids[i]].(sessionId := None)];
        }
        assert rids[..i + 1] == rids[..i] + [rids[i]];
        assert rigs == Released(old(rigs), rids[..i + 1]);
      }
      assert rids[..|rids|] == rids;
    }

    /** `order` is the dictionary's own order of the rigs. */
    method FinishRaceSession(sid: Option<Id>, rids: seq<Id>, order: seq<Id>, now: real) returns (finished: seq<Id>)
      requires forall rid :: rid in order <==> rid in rigs
      modifies this
      ensures (View(), finished) == FinishSession(old(View()), sid, rids, order, now)
    {
      var known := if sid.Some? then SessionIndex(sessions, sid.value) else None;
      if known.Some? {
        finished := [];
        var k := known.value;
        if !sessions[k].finished {
          finished := [sessions[k].id];
          sessions := sessions[k := sessions[k].(finished := true, finishedAt := Some(now))];
        }
        assert sessions == old(sessions)[k := Finish(old(sessions)[k], now)];
      } else if rids != [] {
        finished := FinishSelected(session => Touches(session, rids), now);
        finished := ReleaseRigs(rids, finished);
      } else {
        finished := FinishSelected(session => true, now);
        finished := ReleaseRigs(order, finished);
        // the active session is the one under the latest id, while that is listed
        var active := if latest.Some? then SessionIndex(sessions, latest.value) else None;
        if active.Some? {
          sessions := sessions[active.value := sessions[active.value].(finished := true, finishedAt := Some(now))];
        }
        assert sessions == Restamped(FinishWhere(old(sessions), (session: Session) => true, now), latest, now);
      }
    }

    /** The registered rig ids in some order. */
    method Keys() returns (order: seq<Id>)
      ensures NoDup(order) && forall rid :: rid in order <==> rid in rigs
    {
      order := [];
      var left := rigs.Keys;
      while left != {}
        invariant NoDup(order) && left <= rigs.Keys
        invariant forall rid :: rid in order <==> rid in rigs && rid !in left
        decreases left
      {
        var rid :| rid in left;
        NoDupSnoc(order, rid);
        order := order + [rid];
        left := left - {rid};
      }
    }

    method GetAllSessions(now: real) returns (list: seq<Session>)
      modifies this
      ensures View() == old(View()).(sessions := Kept(old(sessions), now))
      ensures list == sessions
    {
      list := [];
      for i := 0 to |sessions|
        invariant list == Kept(sessions[..i], now)
        invariant View() == old(View())
      {
        assert sessions[..i + 1][..i] == sessions[..i];
        if !sessions[i].finished {
          list := list + [sessions[i]];
        } else {
          var finishedAt := if sessions[i].finishedAt.Some? then sessions[i].finishedAt.value
            else sessions[i].startedAt;
          if now - finishedAt <= MAX_FINISHED_AGE {
            list := list + [sessions[i]];
          }
        }
      }
      assert sessions[..|sessions|] == sessions;
      sessions := list;
    }

    method ClearActiveSession(sid: Option<Id>)
      modifies this
      ensures View() == if sid.Some? then ClearSession(old(View()), sid.value) else ClearAll(old(View()))
    {
      if sid.Some? {
        sessions := Cleared(sessions, sid.value);
        rigs := map rid | rid in rigs ::
          if rigs[rid].sessionId == sid then rigs[rid].(sessionId := None) else rigs[rid];
      } else {
        sessions := [];
        latest := None;
        rigs := map rid | rid in rigs :: rigs[rid].(sessionId := None);
      }
    }
  }

  lemma {:induction false} RemoveAbsent(s: seq<Id>, x: Id)
    ensures x !in s ==> RemoveFirst(s, x) == s
  {
    if s != [] {
      RemoveAbsent(s[1..], x);
    }
  }

  /** A group is in the new dictionary before its turn only if it was listed. */
  lemma NotYet(gs: seq<Group>, first: seq<Group>, i: nat)
    requires UniqueGroups(gs) && i < |gs|
    ensures GroupIndex(first + Others(gs[..i], first), gs[i].id).None? <==> GroupIndex(first, gs[i].id).None?
  {
    var o := Others(gs[..i], first);
    var all := first + o;
    OthersMembers(gs[..i], first);
    forall j | 0 <= j < |o| ensures o[j].id != gs[i].id {
      assert o[j] in gs[..i];
    }
    if GroupIndex(first, gs[i].id).Some? {
      var k := GroupIndex(first, gs[i].id).value;
      assert all[k].id == gs[i].id;
    }
  }
}

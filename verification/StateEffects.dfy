/**
  What each operation of the state object leaves behind, in the fields of the
  records alone.
*/
module StateEffects {
  import opened OrderedDict
  import opened Wrappers
  import opened AppState

  // ----- rigs

  /** A contact refreshes the record, or makes one that is idle, in no group and no session, armed at count 0. */
  lemma ContactEffect(s: State, rid: Id, now: real)
    ensures UpsertRig(s, rid, now) == s.(rigs := s.rigs[rid :=
      if rid in s.rigs then s.rigs[rid].(lastSeen := Some(now))
      else Rig(Idle, Some(now), None, None, 0, true, None, None, None, None, false, None, None)])
  {}

  /** The reaper keeps exactly the rigs heard from within the timeout or never, unchanged. */
  lemma ReapEffect(s: State, now: real, timeout: real)
    ensures var t := RemoveStale(s, now, timeout);
      && t == s.(rigs := t.rigs)
      && (forall r :: r in t.rigs <==>
            r in s.rigs && (s.rigs[r].lastSeen.None? || now - s.rigs[r].lastSeen.value <= timeout))
      && (forall r :: r in t.rigs ==> t.rigs[r] == s.rigs[r])
  {}

  // ----- groups

  /** The first occurrence goes, the rest keeps its order. */
  lemma {:induction false} RemoveFirstIs<T>(s: seq<T>, x: T)
    ensures x !in s ==> RemoveFirst(s, x) == s
    ensures x in s ==> exists k :: 0 <= k < |s| && s[k] == x && x !in s[..k] && RemoveFirst(s, x) == s[..k] + s[k + 1..]
  {
    if x in s {
      if s[0] == x {
        assert s[..0] + s[0 + 1..] == s[1..] && x !in s[..0];
      } else {
        RemoveFirstIs(s[1..], x);
        var k :| 0 <= k < |s[1..]| && s[1..][k] == x && x !in s[1..][..k]
          && RemoveFirst(s[1..], x) == s[1..][..k] + s[1..][k + 1..];
        Shifted(s, k);
        assert RemoveFirst(s, x) == s[..k + 1] + s[k + 1 + 1..];
        assert s[k + 1] == x && x !in s[..k + 1];
      }
    } else if s != [] {
      RemoveFirstIs(s[1..], x);
    }
  }

  lemma Shifted<T>(s: seq<T>, k: nat)
    requires k + 1 < |s|
    ensures [s[0]] + (s[1..][..k] + s[1..][k + 1..]) == s[..k + 1] + s[k + 1 + 1..]
    ensures s[..k + 1] == [s[0]] + s[1..][..k]
  {}

  /** Operations on a group that does not exist change nothing. */
  lemma MissingGroup(s: State, gid: Id, rid: Id)
    requires forall i :: 0 <= i < |s.groups| ==> s.groups[i].id != gid
    ensures DeleteGroup(s, gid) == s && AddRig(s, gid, rid) == s && RemoveRig(s, gid, rid) == s
  {}

  /** Deleting a group takes it out of the list and its rigs out of it; the others keep their order. */
  lemma DeleteEffect(s: State, k: nat)
    requires UniqueGroups(s.groups) && k < |s.groups|
    ensures var t := DeleteGroup(s, s.groups[k].id);
      && t == s.(rigs := t.rigs, groups := s.groups[..k] + s.groups[k + 1..])
      && t.rigs.Keys == s.rigs.Keys
      && forall r :: r in s.rigs ==>
           t.rigs[r] == if r in s.groups[k].rigIds then s.rigs[r].(groupId := None) else s.rigs[r]
  {
    GroupIndexUnique(s.groups, s.groups[k].id, k);
  }

  /** A rig added stands at the end of the group and nowhere else, and its record, if there is one, names the group. */
  lemma AddEffect(s: State, k: nat, rid: Id, i: nat)
    requires UniqueGroups(s.groups) && Placed(s.groups) && k < |s.groups| && i < |s.groups|
    ensures var t := AddRig(s, s.groups[k].id, rid);
      && t == s.(rigs := t.rigs, groups := t.groups)
      && t.rigs == (if rid in s.rigs then s.rigs[rid := s.rigs[rid].(groupId := Some(s.groups[k].id))] else s.rigs)
      && |t.groups| == |s.groups| && t.groups[i].id == s.groups[i].id
      && var last := if i == k then [rid] else [];
         && (rid !in s.groups[i].rigIds ==> t.groups[i].rigIds == s.groups[i].rigIds + last)
         && forall j :: 0 <= j < |s.groups[i].rigIds| && s.groups[i].rigIds[j] == rid ==>
              t.groups[i].rigIds == s.groups[i].rigIds[..j] + s.groups[i].rigIds[j + 1..] + last
  {
    GroupIndexUnique(s.groups, s.groups[k].id, k);
    RemoveFirstIs(s.groups[i].rigIds, rid);
    var left := RemoveFirst(s.groups[i].rigIds, rid);
    assert AddRig(s, s.groups[k].id, rid).groups[i].rigIds == left + if i == k then [rid] else [];
  }

  /** Removing a rig a group lists takes it out of the group and clears the group id of its record. */
  lemma RemoveEffect(s: State, k: nat, j: nat)
    requires UniqueGroups(s.groups) && Placed(s.groups) && k < |s.groups| && j < |s.groups[k].rigIds|
    ensures var rid := s.groups[k].rigIds[j];
      var t := RemoveRig(s, s.groups[k].id, rid);
      && t == s.(rigs := t.rigs, groups := t.groups)
      && t.rigs == (if rid in s.rigs then s.rigs[rid := s.rigs[rid].(groupId := None)] else s.rigs)
      && t.groups == s.groups[k := Group(s.groups[k].id, s.groups[k].rigIds[..j] + s.groups[k].rigIds[j + 1..])]
  {
    GroupIndexUnique(s.groups, s.groups[k].id, k);
    RemoveFirstIs(s.groups[k].rigIds, s.groups[k].rigIds[j]);
  }

  /** A rig a group does not list cannot be removed from it. */
  lemma RemoveUnlisted(s: State, k: nat, rid: Id)
    requires UniqueGroups(s.groups) && k < |s.groups| && rid !in s.groups[k].rigIds
    ensures RemoveRig(s, s.groups[k].id, rid) == s
  {
    GroupIndexUnique(s.groups, s.groups[k].id, k);
  }

  // ----- sessions

  /** The list with a record put under its id: in the place of the old one, or at the end. */
  ghost predicate PutUnder(ss: seq<Session>, ts: seq<Session>, x: Session) {
    || (ts == ss + [x] && forall i :: 0 <= i < |ss| ==> ss[i].id != x.id)
    || (exists k :: 0 <= k < |ss| && ss[k].id == x.id && ts == ss[k := x])
  }

  /** A session started: an unfinished record of these rigs, the latest, and the current session of each of them. */
  lemma StartEffect(s: State, sid: Id, groupId: Option<Id>, rids: seq<Id>, now: real)
    ensures var t := StartSession(s, sid, groupId, rids, now);
      && t.groups == s.groups && t.latest == Some(sid)
      && PutUnder(s.sessions, t.sessions, Session(sid, groupId, rids, false, now, None))
      && (forall r :: r in t.rigs <==> r in s.rigs || r in rids)
      && forall r :: r in t.rigs ==>
           t.rigs[r] == if r !in rids then s.rigs[r]
           else if r in s.rigs then s.rigs[r].(sessionId := Some(sid))
           else Rig(Idle, None, None, Some(sid), 0, true, None, None, None, None, false, None, None)
  {
    JoinedIs(s.rigs, rids, sid);
  }

  lemma {:induction false} JoinedIs(rigs: map<Id, Rig>, rids: seq<Id>, sid: Id)
    ensures forall r :: r in Joined(rigs, rids, sid) <==> r in rigs || r in rids
    ensures forall r :: r in Joined(rigs, rids, sid) ==>
      Joined(rigs, rids, sid)[r] == if r !in rids then rigs[r]
      else if r in rigs then rigs[r].(sessionId := Some(sid))
      else Rig(Idle, None, None, Some(sid), 0, true, None, None, None, None, false, None, None)
  {
    if rids != [] {
      JoinedIs(rigs, rids[..|rids| - 1], sid);
      assert rids == rids[..|rids| - 1] + [rids[|rids| - 1]];
    }
  }

  /** A known session by its id: it is finished now unless it was, and no rig is released. */
  lemma FinishOneEffect(s: State, k: nat, rids: seq<Id>, order: seq<Id>, now: real)
    requires UniqueSessions(s.sessions) && k < |s.sessions|
    ensures var x := s.sessions[k];
      FinishSession(s, Some(x.id), rids, order, now)
      == if x.finished then (s, [])
         else (s.(sessions := s.sessions[k := x.(finished := true, finishedAt := Some(now))]), [x.id])
  {
    assert SessionIndex(s.sessions, s.sessions[k].id) == Some(k);
    assert s.sessions[k := s.sessions[k]] == s.sessions;
  }

  ghost predicate UnknownSession(s: State, sid: Option<Id>) {
    sid.Some? ==> forall i :: 0 <= i < |s.sessions| ==> s.sessions[i].id != sid.value
  }

  /** Otherwise by the rigs: the unfinished sessions with one of them are finished now, and the rigs released. */
  lemma FinishRigsFields(s: State, sid: Option<Id>, rids: seq<Id>, order: seq<Id>, now: real)
    requires UnknownSession(s, sid) && rids != []
    ensures var t := FinishSession(s, sid, rids, order, now).0;
      && t.groups == s.groups && t.latest == s.latest && t.rigs.Keys == s.rigs.Keys
      && (forall r :: r in s.rigs ==> t.rigs[r] == if r in rids then s.rigs[r].(sessionId := None) else s.rigs[r])
      && |t.sessions| == |s.sessions|
      && forall i :: 0 <= i < |s.sessions| ==>
           t.sessions[i] == if !s.sessions[i].finished && exists r :: r in rids && r in s.sessions[i].rigIds
             then s.sessions[i].(finished := true, finishedAt := Some(now)) else s.sessions[i]
  {
    hide Collect;
    forall x: Session ensures Touches(x, rids) <==> exists r :: r in rids && r in x.rigIds {
      if r :| r in rids && r in x.rigIds {
        var i :| 0 <= i < |rids| && rids[i] == r;
      }
      if Touches(x, rids) {
        var i :| 0 <= i < |rids| && rids[i] in x.rigIds;
        assert rids[i] in rids;
      }
    }
  }

  /** With neither, all of them; the session started last is stamped anew. */
  lemma FinishAllFields(s: State, sid: Option<Id>, order: seq<Id>, now: real)
    requires UnknownSession(s, sid) && UniqueSessions(s.sessions)
    ensures var t := FinishSession(s, sid, [], order, now).0;
      && t.groups == s.groups && t.latest == s.latest && t.rigs.Keys == s.rigs.Keys
      && (forall r :: r in s.rigs ==> t.rigs[r] == if r in order then s.rigs[r].(sessionId := None) else s.rigs[r])
      && |t.sessions| == |s.sessions|
      && forall i :: 0 <= i < |s.sessions| ==>
           t.sessions[i] == if !s.sessions[i].finished || s.latest == Some(s.sessions[i].id)
             then s.sessions[i].(finished := true, finishedAt := Some(now)) else s.sessions[i]
  {
    hide Collect;
    if s.latest.Some? {
      SameIndex(s.sessions, FinishWhere(s.sessions, (session: Session) => true, now), s.latest.value);
    }
  }

  /** The ids of a kill of everything: those just finished and those the rigs held, each once. */
  lemma FinishAllIds(s: State, sid: Option<Id>, order: seq<Id>, now: real)
    requires UnknownSession(s, sid) && UniqueSessions(s.sessions)
    ensures var ids := FinishSession(s, sid, [], order, now).1;
      && NoDup(ids)
      && forall x :: x in ids <==>
           || (exists i :: 0 <= i < |s.sessions| && !s.sessions[i].finished && s.sessions[i].id == x)
           || (exists rid :: rid in order && rid in s.rigs && s.rigs[rid].sessionId == Some(x))
  {
    var hit := (session: Session) => true;
    NewlyFinishedMembers(s.sessions, hit);
    CollectMembers(s.rigs, order, NewlyFinished(s.sessions, hit));
    assert forall i :: 0 <= i < |s.sessions| ==> hit(s.sessions[i]);
  }

  /** Listing keeps, in order, what is unfinished or was finished at most three minutes ago. */
  lemma {:induction false} KeptIs(ss: seq<Session>, now: real)
    ensures forall x :: x in Kept(ss, now) <==> x in ss && (x.finished ==>
      now - (if x.finishedAt.Some? then x.finishedAt.value else x.startedAt) <= 180.0)
  {
    KeptMembers(ss, now);
  }

  lemma {:induction false} KeptOrder(ss: seq<Session>, now: real, i: nat, j: nat) returns (p: nat, q: nat)
    requires i < j < |Kept(ss, now)|
    ensures p < q < |ss| && ss[p] == Kept(ss, now)[i] && ss[q] == Kept(ss, now)[j]
  {
    hide Outdated;
    var init, kept := ss[..|ss| - 1], Kept(ss, now);
    if j < |Kept(init, now)| {
      p, q := KeptOrder(init, now, i, j);
    } else {
      KeptMembers(init, now);
      assert kept[i] in Kept(init, now);
      p :| 0 <= p < |init| && init[p] == kept[i];
      q := |ss| - 1;
    }
  }

  /** Clearing one session drops its record and releases the rigs that hold it. */
  lemma ClearEffect(s: State, sid: Id)
    requires UniqueSessions(s.sessions)
    ensures var t := ClearSession(s, sid);
      && t.groups == s.groups && t.latest == s.latest && t.rigs.Keys == s.rigs.Keys
      && (forall r :: r in s.rigs ==>
            t.rigs[r] == if s.rigs[r].sessionId == Some(sid) then s.rigs[r].(sessionId := None) else s.rigs[r])
      && ((forall i :: 0 <= i < |s.sessions| ==> s.sessions[i].id != sid) ==> t.sessions == s.sessions)
      && (forall k :: 0 <= k < |s.sessions| && s.sessions[k].id == sid ==>
            t.sessions == s.sessions[..k] + s.sessions[k + 1..])
  {}

  /** Clearing them all forgets the latest one and releases every rig. */
  lemma ClearAllEffect(s: State)
    ensures var t := ClearAll(s);
      && t.groups == s.groups && t.latest == None && t.sessions == [] && t.rigs.Keys == s.rigs.Keys
      && forall r :: r in s.rigs ==> t.rigs[r] == s.rigs[r].(sessionId := None)
  {}
}

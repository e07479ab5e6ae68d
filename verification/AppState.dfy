/** The orchestrator's registry of rigs, groups and race sessions. */
module AppState {
  import opened OrderedDict
  import opened Wrappers

  type Id = string
  datatype CheckStatus = Pending | Claimed | Unbound | Expired
  datatype Status = Idle | Setup | Ready | Racing | Error

  /** A rig's record; a key the dictionary lacks reads as its default here. */
  datatype Rig = Rig(
    status: Status,
    lastSeen: Option<real>,
    groupId: Option<Id>,
    sessionId: Option<Id>,
    lastLapCount: int,
    raceArmed: bool,
    killAt: Option<real>,
    car: Option<string>,
    driver: Option<string>,
    driverId: Option<string>,
    driverUnbound: bool,
    checkin: Option<CheckStatus>,
    address: Option<string>)

  datatype Group = Group(id: Id, rigIds: seq<Id>)

  datatype Session = Session(id: Id, groupId: Option<Id>, rigIds: seq<Id>, finished: bool, startedAt: real,
      finishedAt: Option<real>)

  /** Everything the state object holds; groups and sessions keep insertion order. */
  datatype State = State(rigs: map<Id, Rig>, groups: seq<Group>, sessions: seq<Session>, latest: Option<Id>)

  const EMPTY := State(map[], [], [], None)

  function NewRig(now: Option<real>): Rig {
    Rig(Idle, now, None, None, 0, true, None, None, None, None, false, None, None)
  }

  // ----- lookups

  function GroupIndex(gs: seq<Group>, gid: Id): (k: Option<nat>)
    ensures k.Some? ==> k.value < |gs| && gs[k.value].id == gid
    ensures k.None? ==> forall i :: 0 <= i < |gs| ==> gs[i].id != gid
  {
    Find(gs, (g: Group) => g.id == gid)
  }

  function SessionIndex(ss: seq<Session>, sid: Id): (k: Option<nat>)
    ensures k.Some? ==> k.value < |ss| && ss[k.value].id == sid
    ensures k.None? ==> forall i :: 0 <= i < |ss| ==> ss[i].id != sid
  {
    Find(ss, (x: Session) => x.id == sid)
  }

  // ----- rigs

  /** The record after any contact: refreshed, or new. */
  function Upserted(rigs: map<Id, Rig>, rid: Id, now: real): Rig {
    if rid in rigs then rigs[rid].(lastSeen := Some(now)) else NewRig(Some(now))
  }

  function UpsertRig(s: State, rid: Id, now: real): State {
    s.(rigs := s.rigs[rid := Upserted(s.rigs, rid, now)])
  }

  predicate Stale(rig: Rig, now: real, timeout: real) {
    rig.lastSeen.Some? && now - rig.lastSeen.value > timeout
  }

  function RemoveStale(s: State, now: real, timeout: real): State {
    s.(rigs := map rid | rid in s.rigs && !Stale(s.rigs[rid], now, timeout) :: s.rigs[rid])
  }

  function SetGroupId(rigs: map<Id, Rig>, rid: Id, gid: Option<Id>): map<Id, Rig> {
    if rid in rigs then rigs[rid := rigs[rid].(groupId := gid)] else rigs
  }

  // ----- groups

  function CreateGroup(s: State, gid: Id): State
    requires GroupIndex(s.groups, gid).None?
  {
    s.(groups := s.groups + [Group(gid, [])])
  }

  function Unassigned(rigs: map<Id, Rig>, rids: seq<Id>): map<Id, Rig> {
    map rid | rid in rigs :: if rid in rids then rigs[rid].(groupId := None) else rigs[rid]
  }

  function DeleteGroup(s: State, gid: Id): State {
    var k := GroupIndex(s.groups, gid);
    if k.None? then s
    else s.(rigs := Unassigned(s.rigs, s.groups[k.value].rigIds),
            groups := s.groups[..k.value] + s.groups[k.value + 1..])
  }

  /** Every group without the rig. */
  function Without(gs: seq<Group>, rid: Id): (r: seq<Group>)
    ensures |r| == |gs|
    ensures forall i :: 0 <= i < |gs| ==> r[i] == gs[i].(rigIds := RemoveFirst(gs[i].rigIds, rid))
  {
    seq(|gs|, i requires 0 <= i < |gs| => gs[i].(rigIds := RemoveFirst(gs[i].rigIds, rid)))
  }

  function AddRig(s: State, gid: Id, rid: Id): State {
    var k := GroupIndex(s.groups, gid);
    if k.None? then s
    else
      var gs := Without(s.groups, rid);
      s.(rigs := SetGroupId(s.rigs, rid, Some(gid)),
         groups := gs[k.value := gs[k.value].(rigIds := gs[k.value].rigIds + [rid])])
  }

  function RemoveRig(s: State, gid: Id, rid: Id): State {
    var k := GroupIndex(s.groups, gid);
    if k.None? || rid !in s.groups[k.value].rigIds then s
    else
      var g := s.groups[k.value];
      s.(rigs := SetGroupId(s.rigs, rid, None),
         groups := s.groups[k.value := g.(rigIds := RemoveFirst(g.rigIds, rid))])
  }

  /** The listed groups that exist, first occurrence first. */
  function Listed(gs: seq<Group>, ids: seq<Id>): seq<Group> {
    if ids == [] then []
    else
      var before := Listed(gs, ids[..|ids| - 1]);
      var k := GroupIndex(gs, ids[|ids| - 1]);
      if k.Some? && GroupIndex(before, ids[|ids| - 1]).None? then before + [gs[k.value]] else before
  }

  /** The groups of `gs` that `taken` does not name, in order. */
  function Others(gs: seq<Group>, taken: seq<Group>): seq<Group> {
    if gs == [] then []
    else
      var before := Others(gs[..|gs| - 1], taken);
      if GroupIndex(taken, gs[|gs| - 1].id).None? then before + [gs[|gs| - 1]] else before
  }

  function Reorder(s: State, ids: seq<Id>): State {
    var first := Listed(s.groups, ids);
    s.(groups := first + Others(s.groups, first))
  }

  // ----- the invariant

  ghost predicate UniqueGroups(gs: seq<Group>) {
    forall i, j :: 0 <= i < j < |gs| ==> gs[i].id != gs[j].id
  }

  /** A rig sits in at most one group and at most once. */
  ghost predicate Placed(gs: seq<Group>) {
    && (forall i :: 0 <= i < |gs| ==> NoDup(gs[i].rigIds))
    && (forall i, j, rid :: 0 <= i < j < |gs| && rid in gs[i].rigIds ==> rid !in gs[j].rigIds)
  }

  ghost predicate Holds(gs: seq<Group>, gid: Id, rid: Id) {
    exists i :: 0 <= i < |gs| && gs[i].id == gid && rid in gs[i].rigIds
  }

  /** A rig's group id always names a group that contains the rig. */
  ghost predicate Pointed(s: State) {
    forall rid :: rid in s.rigs && s.rigs[rid].groupId.Some? ==> Holds(s.groups, s.rigs[rid].groupId.value, rid)
  }

  ghost predicate Inv(s: State) {
    UniqueGroups(s.groups) && Placed(s.groups) && Pointed(s)
  }

  lemma GroupIndexUnique(gs: seq<Group>, gid: Id, k: nat)
    requires UniqueGroups(gs) && k < |gs| && gs[k].id == gid
    ensures GroupIndex(gs, gid) == Some(k)
  {
    assert gs[GroupIndex(gs, gid).value].id == gs[k].id;
  }

  lemma CreateGroupInv(s: State, gid: Id)
    requires Inv(s) && GroupIndex(s.groups, gid).None?
    ensures Inv(CreateGroup(s, gid))
  {
    var gs := s.groups + [Group(gid, [])];
    forall rid, g | Holds(s.groups, g, rid) ensures Holds(gs, g, rid) {
      var i :| 0 <= i < |s.groups| && s.groups[i].id == g && rid in s.groups[i].rigIds;
      assert gs[i] == s.groups[i];
    }
  }

  lemma CutAt(gs: seq<Group>, k: nat)
    requires k < |gs|
    ensures var rest := gs[..k] + gs[k + 1..];
      |rest| == |gs| - 1 && forall i :: 0 <= i < |rest| ==> rest[i] == gs[if i < k then i else i + 1]
  {}

  lemma CutPlaced(gs: seq<Group>, k: nat)
    requires k < |gs| && UniqueGroups(gs) && Placed(gs)
    ensures var rest := gs[..k] + gs[k + 1..]; UniqueGroups(rest) && Placed(rest)
  {
    CutAt(gs, k);
  }

  lemma DeleteGroupInv(s: State, gid: Id)
    requires Inv(s)
    ensures Inv(DeleteGroup(s, gid))
  {
    hide UniqueGroups, Placed;
    var k := GroupIndex(s.groups, gid);
    if k.Some? {
      var t := DeleteGroup(s, gid);
      CutAt(s.groups, k.value);
      CutPlaced(s.groups, k.value);
      forall rid | rid in t.rigs && t.rigs[rid].groupId.Some? ensures Holds(t.groups, t.rigs[rid].groupId.value, rid) {
        var i :| 0 <= i < |s.groups| && s.groups[i].id == s.rigs[rid].groupId.value && rid in s.groups[i].rigIds;
        var at := if i < k.value then i else i - 1;
        assert t.groups[at] == s.groups[i];
      }
    }
  }

  lemma WithoutPlaced(gs: seq<Group>, rid: Id)
    requires Placed(gs)
    ensures Placed(Without(gs, rid))
    ensures forall i, r :: 0 <= i < |gs| ==> (r in Without(gs, rid)[i].rigIds <==> r in gs[i].rigIds && r != rid)
  {
    forall i | 0 <= i < |gs|
      ensures NoDup(Without(gs, rid)[i].rigIds)
      ensures forall r :: r in Without(gs, rid)[i].rigIds <==> r in gs[i].rigIds && r != rid
    {
      RemoveFirstNoDup(gs[i].rigIds, rid);
    }
  }

  lemma AddRigInv(s: State, gid: Id, rid: Id)
    requires Inv(s)
    ensures Inv(AddRig(s, gid, rid))
    ensures GroupIndex(s.groups, gid).Some? ==> Holds(AddRig(s, gid, rid).groups, gid, rid)
  {
    var k := GroupIndex(s.groups, gid);
    if k.Some? {
      var gs, t := Without(s.groups, rid), AddRig(s, gid, rid);
      WithoutPlaced(s.groups, rid);
      NoDupSnoc(gs[k.value].rigIds, rid);
      assert t.groups[k.value].rigIds == gs[k.value].rigIds + [rid];
      assert t.groups[k.value].id == gid && rid in t.groups[k.value].rigIds;
      forall i, r | 0 <= i < |gs| ensures r in t.groups[i].rigIds
        <==> (r in gs[i].rigIds || (i == k.value && r == rid)) {}
      forall r | r in t.rigs && t.rigs[r].groupId.Some? ensures Holds(t.groups, t.rigs[r].groupId.value, r) {
        if r != rid {
          var i :| 0 <= i < |s.groups| && s.groups[i].id == s.rigs[r].groupId.value && r in s.groups[i].rigIds;
          assert r in t.groups[i].rigIds;
        }
      }
    }
  }

  lemma RemoveRigInv(s: State, gid: Id, rid: Id)
    requires Inv(s)
    ensures Inv(RemoveRig(s, gid, rid))
  {
    var k := GroupIndex(s.groups, gid);
    if k.Some? && rid in s.groups[k.value].rigIds {
      var t := RemoveRig(s, gid, rid);
      RemoveFirstNoDup(s.groups[k.value].rigIds, rid);
      forall i, r | 0 <= i < |t.groups| ensures r in t.groups[i].rigIds
        <==> r in s.groups[i].rigIds && (i != k.value || r != rid) {}
      forall r | r in t.rigs && t.rigs[r].groupId.Some? ensures Holds(t.groups, t.rigs[r].groupId.value, r) {
        var i :| 0 <= i < |s.groups| && s.groups[i].id == s.rigs[r].groupId.value && r in s.groups[i].rigIds;
        assert r != rid;
        assert r in t.groups[i].rigIds;
      }
    }
  }

  // ----- reordering

  predicate Named(gs: seq<Group>, gid: Id) {
    GroupIndex(gs, gid).Some?
  }

  lemma {:induction false} ListedMembers(gs: seq<Group>, ids: seq<Id>)
    requires UniqueGroups(gs)
    ensures UniqueGroups(Listed(gs, ids))
    ensures forall g :: g in Listed(gs, ids) <==> g in gs && g.id in ids
  {
    if ids != [] {
      var before, id := Listed(gs, ids[..|ids| - 1]), ids[|ids| - 1];
      ListedMembers(gs, ids[..|ids| - 1]);
      assert ids == ids[..|ids| - 1] + [id];
      var k := GroupIndex(gs, id);
      forall g | g in gs && g.id == id ensures k.Some? && g == gs[k.value] {
        var i :| 0 <= i < |gs| && gs[i] == g;
        GroupIndexUnique(gs, id, i);
      }
      if k.Some? && Named(before, id) {
        var g := before[GroupIndex(before, id).value];
        assert g in before && g in gs;
      }
    }
  }

  lemma {:induction false} OthersMembers(gs: seq<Group>, taken: seq<Group>)
    requires UniqueGroups(gs)
    ensures UniqueGroups(Others(gs, taken))
    ensures forall g :: g in Others(gs, taken) <==> g in gs && !Named(taken, g.id)
  {
    if gs != [] {
      var init, last := gs[..|gs| - 1], gs[|gs| - 1];
      OthersMembers(init, taken);
      assert gs == init + [last];
      var o := Others(init, taken);
      forall i | 0 <= i < |o| ensures o[i].id != last.id {
        assert o[i] in init;
      }
    }
  }

  /** Position of the first occurrence. */
  function FirstAt(ids: seq<Id>, x: Id): nat {
    if ids == [] || ids[0] == x then 0 else 1 + FirstAt(ids[1..], x)
  }

  lemma {:induction false} FirstAtSnoc(ids: seq<Id>, last: Id, x: Id)
    ensures FirstAt(ids + [last], x) == if x in ids then FirstAt(ids, x) else if x == last then |ids| else |ids| + 1
    ensures x in ids ==> FirstAt(ids, x) < |ids|
  {
    if ids != [] {
      FirstAtSnoc(ids[1..], last, x);
      assert (ids + [last])[1..] == ids[1..] + [last];
    }
  }

  /** Listed groups stand in the order their ids were first listed. */
  lemma {:induction false} ListedOrder(gs: seq<Group>, ids: seq<Id>, i: nat, j: nat)
    requires UniqueGroups(gs) && i < j < |Listed(gs, ids)|
    ensures FirstAt(ids, Listed(gs, ids)[i].id) < FirstAt(ids, Listed(gs, ids)[j].id)
  {
    var init, last := ids[..|ids| - 1], ids[|ids| - 1];
    var before, all := Listed(gs, init), Listed(gs, ids);
    assert ids == init + [last];
    ListedMembers(gs, init);
    FirstAtSnoc(init, last, all[i].id);
    FirstAtSnoc(init, last, all[j].id);
    assert all[i] in before;
    if j < |before| {
      assert all[j] in before;
      ListedOrder(gs, init, i, j);
    } else {
      assert all[j].id == last;
    }
  }

  /** Unlisted groups keep their relative order. */
  lemma {:induction false} OthersOrder(gs: seq<Group>, taken: seq<Group>, i: nat, j: nat)
    requires UniqueGroups(gs) && i < j < |Others(gs, taken)|
    ensures GroupIndex(gs, Others(gs, taken)[i].id).Some? && GroupIndex(gs, Others(gs, taken)[j].id).Some?
    ensures GroupIndex(gs, Others(gs, taken)[i].id).value < GroupIndex(gs, Others(gs, taken)[j].id).value
  {
    var init, last := gs[..|gs| - 1], gs[|gs| - 1];
    var o := Others(gs, taken);
    OthersMembers(gs, taken);
    OthersMembers(init, taken);
    assert o[i] in Others(init, taken) && o[i] in init;
    var p :| 0 <= p < |init| && init[p] == o[i];
    GroupIndexUnique(gs, o[i].id, p);
    if j < |Others(init, taken)| {
      OthersOrder(init, taken, i, j);
      assert o[j] in Others(init, taken) && o[j] in init;
      var q :| 0 <= q < |init| && init[q] == o[j];
      GroupIndexUnique(gs, o[j].id, q);
      GroupIndexUnique(init, o[i].id, p);
      GroupIndexUnique(init, o[j].id, q);
    }
  }

  /** Reordering: exactly the same groups, the listed ones first. */
  lemma ReorderIsPermutation(s: State, ids: seq<Id>)
    requires UniqueGroups(s.groups)
    ensures var t := Reorder(s, ids);
      && t == s.(groups := t.groups)
      && UniqueGroups(t.groups)
      && multiset(t.groups) == multiset(s.groups)
      && (forall i, j :: 0 <= i < j < |t.groups| && t.groups[j].id in ids ==> t.groups[i].id in ids)
  {
    var first := Listed(s.groups, ids);
    var rest := Others(s.groups, first);
    ListedMembers(s.groups, ids);
    OthersMembers(s.groups, first);
    forall g | g in s.groups ensures Named(first, g.id) <==> g.id in ids {
      if g.id in ids { assert g in first; }
    }
    var all := first + rest;
    forall i, j | 0 <= i < j < |all| ensures all[i].id != all[j].id {
      if i < |first| <= j { assert all[j] in rest; assert all[i] in first; }
    }
    forall i, j | 0 <= i < j < |all| && all[j].id in ids ensures all[i].id in ids {
      if i < |first| { assert all[i] in first; }
    }
    SameMembers(all, s.groups);
  }

  lemma {:induction false} SameMembers(p: seq<Group>, q: seq<Group>)
    requires UniqueGroups(p) && UniqueGroups(q)
    requires forall g :: g in p <==> g in q
    ensures multiset(p) == multiset(q)
  {
    forall g ensures multiset(p)[g] == multiset(q)[g] {
      CountOne(p, g);
      CountOne(q, g);
    }
  }

  lemma {:induction false} CountOne(p: seq<Group>, g: Group)
    requires UniqueGroups(p)
    ensures multiset(p)[g] == if g in p then 1 else 0
  {
    if p != [] {
      assert p == [p[0]] + p[1..];
      CountOne(p[1..], g);
      if p[0] == g { assert g !in p[1..]; }
    }
  }

  lemma ReorderInv(s: State, ids: seq<Id>)
    requires Inv(s)
    ensures Inv(Reorder(s, ids))
  {
    ReorderIsPermutation(s, ids);
    var t := Reorder(s, ids);
    forall g ensures g in t.groups <==> g in s.groups {
      assert g in multiset(t.groups) <==> g in multiset(s.groups);
    }
    forall i | 0 <= i < |t.groups| ensures NoDup(t.groups[i].rigIds) {
      assert t.groups[i] in s.groups;
    }
    forall i, j, rid | 0 <= i < j < |t.groups| && rid in t.groups[i].rigIds ensures rid !in t.groups[j].rigIds {
      assert t.groups[i] in s.groups && t.groups[j] in s.groups;
      var p :| 0 <= p < |s.groups| && s.groups[p] == t.groups[i];
      var q :| 0 <= q < |s.groups| && s.groups[q] == t.groups[j];
      assert t.groups[i].id != t.groups[j].id;
    }
    forall rid | rid in t.rigs && t.rigs[rid].groupId.Some? ensures Holds(t.groups, t.rigs[rid].groupId.value, rid) {
      var i :| 0 <= i < |s.groups| && s.groups[i].id == s.rigs[rid].groupId.value && rid in s.groups[i].rigIds;
      assert s.groups[i] in t.groups;
    }
  }

  // ----- sessions

  function NewSession(sid: Id, groupId: Option<Id>, rids: seq<Id>, now: real): Session {
    Session(sid, groupId, rids, false, now, None)
  }

  /** The rigs with the session as their current one; a rig not registered yet gets a bare record. */
  function Joined(rigs: map<Id, Rig>, rids: seq<Id>, sid: Id): map<Id, Rig> {
    if rids == [] then rigs
    else
      var before := Joined(rigs, rids[..|rids| - 1], sid);
      var rid := rids[|rids| - 1];
      before[rid := (if rid in before then before[rid] else NewRig(None)).(sessionId := Some(sid))]
  }

  function StartSession(s: State, sid: Id, groupId: Option<Id>, rids: seq<Id>, now: real): State {
    var started := NewSession(sid, groupId, rids, now);
    var k := SessionIndex(s.sessions, sid);
    s.(latest := Some(sid),
       sessions := if k.Some? then s.sessions[k.value := started] else s.sessions + [started],
       rigs := Joined(s.rigs, rids, sid))
  }

  predicate Touches(session: Session, rids: seq<Id>) {
    exists i :: 0 <= i < |rids| && rids[i] in session.rigIds
  }

  function Finish(session: Session, now: real): Session {
    if session.finished then session else session.(finished := true, finishedAt := Some(now))
  }

  /** Sessions that `hit` selects are finished. */
  function FinishWhere(ss: seq<Session>, hit: Session -> bool, now: real): (r: seq<Session>)
    ensures |r| == |ss|
    ensures forall i :: 0 <= i < |ss| ==> r[i] == if hit(ss[i]) then Finish(ss[i], now) else ss[i]
  {
    seq(|ss|, i requires 0 <= i < |ss| => if hit(ss[i]) then Finish(ss[i], now) else ss[i])
  }

  /** The ids of the sessions that changed, in order. */
  function NewlyFinished(ss: seq<Session>, hit: Session -> bool): seq<Id> {
    if ss == [] then []
    else
      var last := ss[|ss| - 1];
      NewlyFinished(ss[..|ss| - 1], hit) + (if hit(last) && !last.finished then [last.id] else [])
  }

  /** The current sessions of the rigs, appended unless already there. */
  function Collect(rigs: map<Id, Rig>, rids: seq<Id>, acc: seq<Id>): seq<Id> {
    if rids == [] then acc
    else
      var before := Collect(rigs, rids[..|rids| - 1], acc);
      var rid := rids[|rids| - 1];
      // a rig listed twice has no current session left the second time
      if rid in rigs && rid !in rids[..|rids| - 1] && rigs[rid].sessionId.Some? && rigs[rid].sessionId.value !in before
      then before + [rigs[rid].sessionId.value] else before
  }

  function Released(rigs: map<Id, Rig>, rids: seq<Id>): map<Id, Rig> {
    map rid | rid in rigs :: if rid in rids then rigs[rid].(sessionId := None) else rigs[rid]
  }

  /** The branch for a list of rigs. */
  function FinishRigs(s: State, rids: seq<Id>, now: real): (State, seq<Id>) {
    var hit := (session: Session) => Touches(session, rids);
    (s.(sessions := FinishWhere(s.sessions, hit, now), rigs := Released(s.rigs, rids)),
     Collect(s.rigs, rids, NewlyFinished(s.sessions, hit)))
  }

  /**
    The session started last is also held as the active one, and finishing
    everything stamps that record anew, finished or not.
  */
  function Restamped(ss: seq<Session>, latest: Option<Id>, now: real): (r: seq<Session>)
    ensures |r| == |ss| && forall i :: 0 <= i < |ss| ==> r[i].id == ss[i].id && (ss[i].finished ==> r[i].finished)
  {
    var k := if latest.Some? then SessionIndex(ss, latest.value) else None;
    if k.Some? then ss[k.value := ss[k.value].(finished := true, finishedAt := Some(now))] else ss
  }

  /** The branch without arguments; `order` lists the registered rigs. */
  function FinishAll(s: State, order: seq<Id>, now: real): (State, seq<Id>) {
    var hit := (session: Session) => true;
    (s.(sessions := Restamped(FinishWhere(s.sessions, hit, now), s.latest, now), rigs := Released(s.rigs, order)),
     Collect(s.rigs, order, NewlyFinished(s.sessions, hit)))
  }

  function FinishOne(s: State, k: nat, now: real): (State, seq<Id>)
    requires k < |s.sessions|
  {
    (s.(sessions := s.sessions[k := Finish(s.sessions[k], now)]),
     if s.sessions[k].finished then [] else [s.sessions[k].id])
  }

  /** A known session id first, then a non-empty list of rigs, then everything. */
  function FinishSession(s: State, sid: Option<Id>, rids: seq<Id>, order: seq<Id>, now: real): (State, seq<Id>) {
    if sid.Some? && SessionIndex(s.sessions, sid.value).Some? then
      FinishOne(s, SessionIndex(s.sessions, sid.value).value, now)
    else if rids != [] then FinishRigs(s, rids, now)
    else FinishAll(s, order, now)
  }

  ghost predicate UniqueSessions(ss: seq<Session>) {
    forall i, j :: 0 <= i < j < |ss| ==> ss[i].id != ss[j].id
  }

  lemma {:induction false} NewlyFinishedMembers(ss: seq<Session>, hit: Session -> bool)
    requires UniqueSessions(ss)
    ensures NoDup(NewlyFinished(ss, hit))
    ensures forall x :: x in NewlyFinished(ss, hit) <==> exists i ::
      0 <= i < |ss| && hit(ss[i]) && !ss[i].finished && ss[i].id == x
  {
    if ss != [] {
      var init, last := ss[..|ss| - 1], ss[|ss| - 1];
      NewlyFinishedMembers(init, hit);
      var before := NewlyFinished(init, hit);
      assert forall i :: 0 <= i < |init| ==> init[i].id == ss[i].id != last.id;
      assert last.id !in before;
      NoDupSnoc(before, last.id);
      forall x | x in before ensures exists i :: 0 <= i < |ss| && hit(ss[i]) && !ss[i].finished && ss[i].id == x {
        var i :| 0 <= i < |init| && hit(init[i]) && !init[i].finished && init[i].id == x;
        assert ss[i] == init[i];
      }
    }
  }

  lemma {:induction false} CollectMembers(rigs: map<Id, Rig>, rids: seq<Id>, acc: seq<Id>)
    requires NoDup(acc)
    ensures NoDup(Collect(rigs, rids, acc))
    ensures forall x :: x in Collect(rigs, rids, acc) <==>
      x in acc || exists rid :: rid in rids && rid in rigs && rigs[rid].sessionId == Some(x)
  {
    if rids != [] {
      var init, rid := rids[..|rids| - 1], rids[|rids| - 1];
      assert rids == init + [rid];
      CollectMembers(rigs, init, acc);
      var before := Collect(rigs, init, acc);
      if rid in rigs && rigs[rid].sessionId.Some? && rigs[rid].sessionId.value !in before {
        NoDupSnoc(before, rigs[rid].sessionId.value);
      }
    }
  }

  /**
    Finishing the sessions of some rigs: every session with one of them is
    finished, every other session is untouched, each id is returned once, and
    the ids are those just finished and those the rigs still held as current.
  */
  lemma FinishRigsEffect(s: State, rids: seq<Id>, now: real)
    requires UniqueSessions(s.sessions)
    ensures var (t, ids) := FinishRigs(s, rids, now);
      && |t.sessions| == |s.sessions| && UniqueSessions(t.sessions)
      && (forall i :: 0 <= i < |s.sessions| && Touches(s.sessions[i], rids) ==> t.sessions[i].finished)
      && (forall i :: 0 <= i < |s.sessions| && !Touches(s.sessions[i], rids) ==> t.sessions[i] == s.sessions[i])
      && NoDup(ids)
      && (forall x :: x in ids <==>
            (exists i ::
               0 <= i < |s.sessions| && Touches(s.sessions[i], rids)
               && !s.sessions[i].finished && s.sessions[i].id == x)
            || (exists rid :: rid in rids && rid in s.rigs && s.rigs[rid].sessionId == Some(x)))
  {
    var hit := (session: Session) => Touches(session, rids);
    NewlyFinishedMembers(s.sessions, hit);
    CollectMembers(s.rigs, rids, NewlyFinished(s.sessions, hit));
    var (t, ids) := FinishRigs(s, rids, now);
    forall x | x in ids
      ensures (exists i ::
        0 <= i < |s.sessions| && Touches(s.sessions[i], rids) && !s.sessions[i].finished && s.sessions[i].id == x)
              || (exists rid :: rid in rids && rid in s.rigs && s.rigs[rid].sessionId == Some(x))
    {
      if x in NewlyFinished(s.sessions, hit) {
        var i :| 0 <= i < |s.sessions| && hit(s.sessions[i]) && !s.sessions[i].finished && s.sessions[i].id == x;
      }
    }
    forall i | 0 <= i < |s.sessions| && Touches(s.sessions[i], rids) && !s.sessions[i].finished
      ensures s.sessions[i].id in ids {
      assert hit(s.sessions[i]);
    }
  }

  /** Finishing the same rigs again finds nothing left to finish. */
  lemma FinishRigsTwice(s: State, rids: seq<Id>, now: real, later: real)
    requires UniqueSessions(s.sessions)
    ensures var t := FinishRigs(s, rids, now).0; FinishRigs(t, rids, later) == (t, [])
  {
    var t := FinishRigs(s, rids, now).0;
    FinishRigsEffect(s, rids, now);
    FinishRigsEffect(t, rids, later);
    var (u, ids) := FinishRigs(t, rids, later);
    forall i | 0 <= i < |t.sessions| ensures Touches(t.sessions[i], rids) == Touches(s.sessions[i], rids) {}
    assert u.sessions == t.sessions;
    assert u.rigs == t.rigs;
    assert forall x :: x !in ids;
    if ids != [] {
      HasMember(ids);
    }
  }

  lemma HasMember(ids: seq<Id>)
    requires ids != []
    ensures exists x :: x in ids
  {
    assert ids[0] in ids;
  }

  /** An empty rig list is not "no rigs": it finishes every session. */
  lemma FinishEmptyListFinishesAll(s: State, order: seq<Id>, now: real)
    ensures forall i :: 0 <= i < |s.sessions| ==> FinishSession(s, None, [], order, now).0.sessions[i].finished
  {}

  /** The session started last, if it is listed, carries this finishing time. */
  predicate LatestStamped(s: State, now: real) {
    var k := if s.latest.Some? then SessionIndex(s.sessions, s.latest.value) else None;
    k.Some? ==> s.sessions[k.value].finishedAt == Some(now)
  }

  /**
    So sessions without any of the rigs are left alone exactly when the list is
    not empty, or everything is finished already and the session started last, if
    listed, has this very instant as its finishing time.
  */
  lemma DisjointLeftAloneIff(s: State, rids: seq<Id>, order: seq<Id>, now: real)
    ensures (forall i :: 0 <= i < |s.sessions| && !Touches(s.sessions[i], rids) ==>
               FinishSession(s, None, rids, order, now).0.sessions[i] == s.sessions[i])
      <==> rids != [] || (LatestStamped(s, now) && forall i :: 0 <= i < |s.sessions| ==> s.sessions[i].finished)
  {
    hide Touches;
    if rids == [] {
      NoneTouched();
      var ss := FinishWhere(s.sessions, (session: Session) => true, now);
      var t := FinishSession(s, None, rids, order, now).0;
      assert t.sessions == Restamped(ss, s.latest, now);
      if s.latest.Some? {
        SameIndex(s.sessions, ss, s.latest.value);
      }
      if forall i :: 0 <= i < |s.sessions| ==> t.sessions[i] == s.sessions[i] {
        forall i | 0 <= i < |s.sessions| ensures s.sessions[i].finished {
          assert ss[i].finished && t.sessions[i].finished;
        }
      }
    }
  }

  lemma NoneTouched()
    ensures forall x: Session :: !Touches(x, [])
  {}

  lemma {:induction false} SameIndex(p: seq<Session>, q: seq<Session>, sid: Id)
    requires |p| == |q| && forall i :: 0 <= i < |p| ==> p[i].id == q[i].id
    ensures SessionIndex(p, sid) == SessionIndex(q, sid)
  {
    FindSame(p, q, (x: Session) => x.id == sid);
  }

  // ----- listing and clearing

  const MAX_FINISHED_AGE := 180.0

  predicate Outdated(session: Session, now: real) {
    session.finished && now - (if session.finishedAt.Some? then session.finishedAt.value
      else session.startedAt) > MAX_FINISHED_AGE
  }

  function Kept(ss: seq<Session>, now: real): seq<Session> {
    if ss == [] then []
    else Kept(ss[..|ss| - 1], now) + (if Outdated(ss[|ss| - 1], now) then [] else [ss[|ss| - 1]])
  }

  lemma {:induction false} KeptMembers(ss: seq<Session>, now: real)
    ensures forall x :: x in Kept(ss, now) <==> x in ss && !Outdated(x, now)
  {
    hide Outdated;
    if ss != [] {
      KeptMembers(ss[..|ss| - 1], now);
      assert ss == ss[..|ss| - 1] + [ss[|ss| - 1]];
    }
  }

  lemma {:induction false} KeptUnique(ss: seq<Session>, now: real)
    requires UniqueSessions(ss)
    ensures UniqueSessions(Kept(ss, now))
  {
    hide Outdated;
    if ss != [] {
      var init, last := ss[..|ss| - 1], ss[|ss| - 1];
      KeptUnique(init, now);
      KeptMembers(init, now);
      var k := Kept(init, now);
      forall i | 0 <= i < |k| ensures k[i].id != last.id {
        assert k[i] in init;
      }
    }
  }

  /** Listing twice at one instant drops nothing more. */
  lemma {:induction false} KeptTwice(ss: seq<Session>, now: real)
    ensures Kept(Kept(ss, now), now) == Kept(ss, now)
  {
    hide Outdated;
    if ss != [] {
      var init, last := ss[..|ss| - 1], ss[|ss| - 1];
      KeptTwice(init, now);
      var k := Kept(init, now);
      if !Outdated(last, now) {
        assert (k + [last])[..|k|] == k;
        assert Kept(k + [last], now) == Kept(k, now) + [last];
      } else {
        assert Kept(ss, now) == k;
      }
    }
  }

  function Cleared(ss: seq<Session>, sid: Id): seq<Session> {
    var k := SessionIndex(ss, sid);
    if k.None? then ss else ss[..k.value] + ss[k.value + 1..]
  }

  function ClearSession(s: State, sid: Id): State {
    s.(sessions := Cleared(s.sessions, sid),
       rigs := map rid | rid in s.rigs ::
         if s.rigs[rid].sessionId == Some(sid) then s.rigs[rid].(sessionId := None) else s.rigs[rid])
  }

  function ClearAll(s: State): State {
    s.(sessions := [], latest := None, rigs := map rid | rid in s.rigs :: s.rigs[rid].(sessionId := None))
  }

  // ----- every run

  /** One request to the state object. `Touch` stands for any update of a rig's other fields. */
  datatype Op =
    | Upsert(rid: Id, now: real)
    | Touch(rid: Id, rig: Rig)
    | Reap(now: real, timeout: real)
    | Create(gid: Id)
    | Delete(gid: Id)
    | Add(gid: Id, rid: Id)
    | Remove(gid: Id, rid: Id)
    | Shuffle(ids: seq<Id>)
    | Start(sid: Id, groupId: Option<Id>, rids: seq<Id>, now: real)
    | End(only: Option<Id>, rids: seq<Id>, order: seq<Id>, now: real)
    | Clear(sid: Id)
    | ClearEverything
    | List(now: real)
    | Restart

  function Apply(s: State, op: Op): State {
    match op
    case Upsert(rid, now) => UpsertRig(s, rid, now)
    case Touch(rid, rig) => if rid in s.rigs then s.(rigs := s.rigs[rid := rig.(groupId := s.rigs[rid].groupId)]) else s
    case Reap(now, timeout) => RemoveStale(s, now, timeout)
    case Create(gid) => if GroupIndex(s.groups, gid).None? then CreateGroup(s, gid) else s
    case Delete(gid) => DeleteGroup(s, gid)
    case Add(gid, rid) => AddRig(s, gid, rid)
    case Remove(gid, rid) => RemoveRig(s, gid, rid)
    case Shuffle(ids) => Reorder(s, ids)
    case Start(sid, groupId, rids, now) => StartSession(s, sid, groupId, rids, now)
    case End(sid, rids, order, now) => FinishSession(s, sid, rids, order, now).0
    case Clear(sid) => ClearSession(s, sid)
    case ClearEverything => ClearAll(s)
    case List(now) => s.(sessions := Kept(s.sessions, now))
    // groups are kept on disk, rigs and sessions are not
    case Restart => State(map[], s.groups, [], None)
  }

  function Run(s: State, ops: seq<Op>): State {
    if ops == [] then s else Apply(Run(s, ops[..|ops| - 1]), ops[|ops| - 1])
  }

  lemma {:induction false} JoinedKeepsGroups(rigs: map<Id, Rig>, rids: seq<Id>, sid: Id)
    ensures forall r :: r in rigs ==> r in Joined(rigs, rids, sid)
    ensures forall r :: r in Joined(rigs, rids, sid) ==>
      Joined(rigs, rids, sid)[r].groupId == if r in rigs then rigs[r].groupId else None
  {
    if rids != [] {
      JoinedKeepsGroups(rigs, rids[..|rids| - 1], sid);
    }
  }

  lemma SameGroupIds(s: State, t: State)
    requires Inv(s) && t.groups == s.groups
    requires forall r :: r in t.rigs && t.rigs[r].groupId.Some? ==>
      r in s.rigs && s.rigs[r].groupId == t.rigs[r].groupId
    ensures Inv(t)
  {}

  lemma FinishSame(s: State, sid: Option<Id>, rids: seq<Id>, order: seq<Id>, now: real)
    ensures var t := FinishSession(s, sid, rids, order, now).0;
      && t.groups == s.groups && t.rigs.Keys == s.rigs.Keys
           && (forall r :: r in s.rigs ==> t.rigs[r].groupId == s.rigs[r].groupId)
      && (UniqueSessions(s.sessions) ==> UniqueSessions(t.sessions))
  {}

  lemma StepInv(s: State, op: Op)
    requires Inv(s) && UniqueSessions(s.sessions)
    ensures Inv(Apply(s, op)) && UniqueSessions(Apply(s, op).sessions)
  {
    hide Inv, AddRig, RemoveRig, Reorder, DeleteGroup, FinishSession;
    match op
    case End(sid, rids, order, now) =>
      FinishSame(s, sid, rids, order, now);
      SameGroupIds(s, Apply(s, op));
    case Create(gid) => if GroupIndex(s.groups, gid).None? { CreateGroupInv(s, gid); }
    case Delete(gid) => DeleteGroupInv(s, gid); SessionsUntouched(s, op);
    case Add(gid, rid) => AddRigInv(s, gid, rid); SessionsUntouched(s, op);
    case Remove(gid, rid) => RemoveRigInv(s, gid, rid); SessionsUntouched(s, op);
    case Shuffle(ids) => ReorderInv(s, ids); SessionsUntouched(s, op);
    case Start(sid, groupId, rids, now) =>
      JoinedKeepsGroups(s.rigs, rids, sid);
      SameGroupIds(s, Apply(s, op));
    case List(now) =>
      KeptUnique(s.sessions, now);
      SameGroupIds(s, Apply(s, op));
    case Clear(sid) => ClearedUnique(s.sessions, sid); SameGroupIds(s, Apply(s, op));
    case _ => SameGroupIds(s, Apply(s, op));
  }

  lemma ClearedUnique(ss: seq<Session>, sid: Id)
    requires UniqueSessions(ss)
    ensures UniqueSessions(Cleared(ss, sid))
  {}

  lemma SessionsUntouched(s: State, op: Op)
    requires op.Delete? || op.Add? || op.Remove? || op.Shuffle?
    ensures Apply(s, op).sessions == s.sessions
  {}

  /**
    Over every run from the empty state: a rig is in at most one group, once, and
    its group id names a group holding it.
  */
  lemma {:induction false} EveryRun(ops: seq<Op>)
    ensures Inv(Run(EMPTY, ops)) && UniqueSessions(Run(EMPTY, ops).sessions)
  {
    if ops != [] {
      EveryRun(ops[..|ops| - 1]);
      StepInv(Run(EMPTY, ops[..|ops| - 1]), ops[|ops| - 1]);
    }
  }

  // ----- finishing everything and the session started last

  /**
    A finished session gets a new finishing time when everything is finished
    again: due to be dropped, it is listed for another three minutes.
  */
  lemma FinishingAgainKeepsListed(sid: Id, rid: Id)
    ensures var done := Run(EMPTY, [Start(sid, None, [rid], 0.0), End(None, [rid], [], 1.0)]);
      && done.sessions == [Session(sid, None, [rid], true, 0.0, Some(1.0))]
      && Kept(done.sessions, 200.0) == []
      && var again := Apply(done, End(None, [], [rid], 200.0));
         again.sessions == [Session(sid, None, [rid], true, 0.0, Some(200.0))]
         && Kept(again.sessions, 200.0) == again.sessions
  {
    hide Run, Apply, Kept;
    var first, second := Start(sid, None, [rid], 0.0), End(None, [rid], [], 1.0);
    RunSnoc([], first);
    RunSnoc([first], second);
    assert [] + [first] == [first] && [first] + [second] == [first, second];
    StartedFinished(sid, rid);
    KeptOne(Session(sid, None, [rid], true, 0.0, Some(1.0)), 200.0);
    KeptOne(Session(sid, None, [rid], true, 0.0, Some(200.0)), 200.0);
  }

  lemma KeptOne(x: Session, now: real)
    ensures Kept([x], now) == if Outdated(x, now) then [] else [x]
  {
    assert [x][..0] == [];
  }

  lemma StartedFinished(sid: Id, rid: Id)
    ensures var started := Apply(EMPTY, Start(sid, None, [rid], 0.0));
      var done := Apply(started, End(None, [rid], [], 1.0));
      && done.sessions == [Session(sid, None, [rid], true, 0.0, Some(1.0))]
      && Apply(done, End(None, [], [rid], 200.0)).sessions == [Session(sid, None, [rid], true, 0.0, Some(200.0))]
  {
    hide FinishRigs, FinishAll, StartSession, SessionIndex;
    StartOnEmpty(sid, rid);
    var started := Apply(EMPTY, Start(sid, None, [rid], 0.0));
    FinishOnlySession(started, NewSession(sid, None, [rid], 0.0), rid, 1.0);
    var done := Apply(started, End(None, [rid], [], 1.0));
    FinishAllOnlySession(done, Session(sid, None, [rid], true, 0.0, Some(1.0)), [rid], 200.0);
  }

  lemma StartOnEmpty(sid: Id, rid: Id)
    ensures var t := StartSession(EMPTY, sid, None, [rid], 0.0);
      t.sessions == [NewSession(sid, None, [rid], 0.0)] && t.latest == Some(sid)
  {
    hide Joined;
  }

  lemma FinishOnlySession(s: State, x: Session, rid: Id, now: real)
    requires s.sessions == [x] && rid in x.rigIds && !x.finished
    ensures var t := FinishRigs(s, [rid], now).0;
      t.sessions == [x.(finished := true, finishedAt := Some(now))] && t.latest == s.latest
  {
    hide Released, Collect;
    assert [rid][0] in x.rigIds;
    assert Touches(x, [rid]);
  }

  lemma FinishAllOnlySession(s: State, x: Session, order: seq<Id>, now: real)
    requires s.sessions == [x] && s.latest == Some(x.id)
    ensures FinishAll(s, order, now).0.sessions == [x.(finished := true, finishedAt := Some(now))]
  {
    hide Released, Collect;
  }

  /** The reference to the active session: which it names, and whether that record is still the one listed. */
  datatype Reference = NoSession | Active(id: Id, listed: bool)

  predicate Drops(ss: seq<Session>, now: real, sid: Id) {
    exists i :: 0 <= i < |ss| && ss[i].id == sid && Outdated(ss[i], now)
  }

  function Refer(s: State, r: Reference, op: Op): Reference {
    match op
    case Start(sid, _, _, _) => Active(sid, true)
    case Clear(sid) => if r == Active(sid, true) then Active(sid, false) else r
    case ClearEverything => NoSession
    case Restart => NoSession
    case List(now) => if r.Active? && Drops(s.sessions, now, r.id) then NoSession else r
    case _ => r
  }

  function References(ops: seq<Op>): Reference {
    if ops == [] then NoSession else Refer(Run(EMPTY, ops[..|ops| - 1]), References(ops[..|ops| - 1]), ops[|ops| - 1])
  }

  predicate IsSession(ss: seq<Session>, sid: Id) {
    exists i :: 0 <= i < |ss| && ss[i].id == sid
  }

  ghost predicate Refers(s: State, r: Reference) {
    forall sid :: r == Active(sid, true) <==> s.latest == Some(sid) && IsSession(s.sessions, sid)
  }

  lemma SameSessionIds(s: State, op: Op)
    requires !op.Start? && !op.Clear? && !op.ClearEverything? && !op.List? && !op.Restart?
    ensures Apply(s, op).latest == s.latest
      && forall sid :: IsSession(Apply(s, op).sessions, sid) <==> IsSession(s.sessions, sid)
  {
    hide AddRig, RemoveRig, Reorder, DeleteGroup, Released;
    if op.Delete? || op.Add? || op.Remove? || op.Shuffle? {
      SessionsUntouched(s, op);
      LatestUntouched(s, op);
    } else {
      var t := Apply(s, op);
      assert |t.sessions| == |s.sessions| && forall i :: 0 <= i < |s.sessions| ==> t.sessions[i].id == s.sessions[i].id;
      forall sid ensures IsSession(t.sessions, sid) <==> IsSession(s.sessions, sid) {
        if i :| 0 <= i < |s.sessions| && s.sessions[i].id == sid { assert t.sessions[i].id == sid; }
        if i :| 0 <= i < |t.sessions| && t.sessions[i].id == sid { assert s.sessions[i].id == sid; }
      }
    }
  }

  lemma LatestUntouched(s: State, op: Op)
    requires op.Delete? || op.Add? || op.Remove? || op.Shuffle?
    ensures Apply(s, op).latest == s.latest
  {}

  lemma StartRefers(s: State, sid: Id, groupId: Option<Id>, rids: seq<Id>, now: real)
    ensures Refers(StartSession(s, sid, groupId, rids, now), Active(sid, true))
  {
    var t := StartSession(s, sid, groupId, rids, now);
    var k := SessionIndex(s.sessions, sid);
    assert t.sessions[if k.Some? then k.value else |s.sessions|].id == sid;
  }

  lemma ClearedIds(ss: seq<Session>, sid: Id)
    requires UniqueSessions(ss)
    ensures forall x :: IsSession(Cleared(ss, sid), x) <==> IsSession(ss, x) && x != sid
  {
    var k := SessionIndex(ss, sid);
    if k.Some? {
      var c := Cleared(ss, sid);
      assert forall i :: 0 <= i < |c| ==> c[i] == ss[if i < k.value then i else i + 1];
      forall x | IsSession(ss, x) && x != sid ensures IsSession(c, x) {
        var i :| 0 <= i < |ss| && ss[i].id == x;
        assert c[if i < k.value then i else i - 1].id == x;
      }
    }
  }

  lemma KeptIds(ss: seq<Session>, now: real)
    requires UniqueSessions(ss)
    ensures forall x :: IsSession(Kept(ss, now), x) <==> IsSession(ss, x) && !Drops(ss, now, x)
  {
    hide Outdated;
    KeptMembers(ss, now);
    var k := Kept(ss, now);
    forall x ensures IsSession(k, x) <==> IsSession(ss, x) && !Drops(ss, now, x) {
      if i :| 0 <= i < |k| && k[i].id == x {
        assert k[i] in k;
        var j :| 0 <= j < |ss| && ss[j] == k[i];
        assert forall m :: 0 <= m < |ss| && ss[m].id == ss[j].id ==> !(m < j) && !(j < m);
      }
      if IsSession(ss, x) && !Drops(ss, now, x) {
        var j :| 0 <= j < |ss| && ss[j].id == x;
        assert ss[j] in k;
        var i :| 0 <= i < |k| && k[i] == ss[j];
      }
    }
  }

  /**
    Over every run the reference holds a listed session exactly when the one
    started last is listed, and it is that one.
  */
  lemma {:induction false} ActiveIsLatest(ops: seq<Op>)
    ensures Refers(Run(EMPTY, ops), References(ops))
  {
    hide Apply, StartSession, Cleared, Kept, IsSession, Drops;
    if ops == [] {
      NothingRefers();
    } else {
      var init, op := ops[..|ops| - 1], ops[|ops| - 1];
      ActiveIsLatest(init);
      EveryRun(init);
      var s := Run(EMPTY, init);
      ApplySessions(s, op);
      match op
      case Start(sid, groupId, rids, now) => StartRefers(s, sid, groupId, rids, now);
      case Clear(sid) => ClearedIds(s.sessions, sid);
      case ClearEverything => NothingRefers();
      case Restart => NothingRefers();
      case List(now) => KeptIds(s.sessions, now);
      case _ => SameSessionIds(s, op);
    }
  }

  lemma NothingRefers()
    ensures Refers(EMPTY, NoSession) && Run(EMPTY, []) == EMPTY && forall s: State :: s.latest == None ==>
      Refers(s, NoSession)
  {}

  lemma ApplySessions(s: State, op: Op)
    ensures op.Start? ==> Apply(s, op) == StartSession(s, op.sid, op.groupId, op.rids, op.now)
    ensures op.Clear? ==> Apply(s, op).sessions == Cleared(s.sessions, op.sid) && Apply(s, op).latest == s.latest
    ensures op.ClearEverything? || op.Restart? ==> Apply(s, op).latest == None
    ensures op.List? ==> Apply(s, op).sessions == Kept(s.sessions, op.now) && Apply(s, op).latest == s.latest
  {}

  // ----- the converse: what a group lists, the rig's record says

  ghost predicate Converse(s: State) {
    forall i, rid :: 0 <= i < |s.groups| && rid in s.groups[i].rigIds && rid in s.rigs ==>
      s.rigs[rid].groupId == Some(s.groups[i].id)
  }

  predicate IsListed(gs: seq<Group>, rid: Id) {
    exists i :: 0 <= i < |gs| && rid in gs[i].rigIds
  }

  /** A rig some group lists gets a new record: it was reaped, or listed before it was ever heard from. */
  predicate Rediscovers(s: State, op: Op) {
    match op
    case Upsert(rid, _) => rid !in s.rigs && IsListed(s.groups, rid)
    case Start(_, _, rids, _) => exists i :: 0 <= i < |rids| && rids[i] !in s.rigs && IsListed(s.groups, rids[i])
    case _ => false
  }

  lemma UpsertConverse(s: State, rid: Id, now: real)
    requires Converse(s)
    ensures Converse(UpsertRig(s, rid, now)) <==> rid in s.rigs || !IsListed(s.groups, rid)
  {
    if rid !in s.rigs && IsListed(s.groups, rid) {
      var i :| 0 <= i < |s.groups| && rid in s.groups[i].rigIds;
      assert UpsertRig(s, rid, now).rigs[rid].groupId == None;
    }
  }

  lemma {:induction false} JoinedMembers(rigs: map<Id, Rig>, rids: seq<Id>, sid: Id)
    ensures forall r :: r in Joined(rigs, rids, sid) <==> r in rigs || r in rids
  {
    if rids != [] {
      JoinedMembers(rigs, rids[..|rids| - 1], sid);
      assert rids == rids[..|rids| - 1] + [rids[|rids| - 1]];
    }
  }

  lemma StartConverse(s: State, sid: Id, groupId: Option<Id>, rids: seq<Id>, now: real)
    requires Converse(s)
    ensures Converse(StartSession(s, sid, groupId, rids, now)) <==> !Rediscovers(s, Start(sid, groupId, rids, now))
  {
    JoinedKeepsGroups(s.rigs, rids, sid);
    JoinedMembers(s.rigs, rids, sid);
    var t := StartSession(s, sid, groupId, rids, now);
    if j :| 0 <= j < |rids| && rids[j] !in s.rigs && IsListed(s.groups, rids[j]) {
      var i :| 0 <= i < |s.groups| && rids[j] in s.groups[i].rigIds;
      assert rids[j] in t.rigs && t.rigs[rids[j]].groupId == None;
    }
  }

  lemma DeleteConverse(s: State, gid: Id)
    requires Inv(s) && Converse(s)
    ensures Converse(DeleteGroup(s, gid))
  {
    var k := GroupIndex(s.groups, gid);
    if k.Some? {
      CutAt(s.groups, k.value);
    }
  }

  lemma AddConverse(s: State, gid: Id, rid: Id)
    requires Inv(s) && Converse(s)
    ensures Converse(AddRig(s, gid, rid))
  {
    WithoutPlaced(s.groups, rid);
  }

  lemma RemoveConverse(s: State, gid: Id, rid: Id)
    requires Inv(s) && Converse(s)
    ensures Converse(RemoveRig(s, gid, rid))
  {
    var k := GroupIndex(s.groups, gid);
    if k.Some? && rid in s.groups[k.value].rigIds {
      RemoveFirstNoDup(s.groups[k.value].rigIds, rid);
    }
  }

  lemma ReorderConverse(s: State, ids: seq<Id>)
    requires Inv(s) && Converse(s)
    ensures Converse(Reorder(s, ids))
  {
    ReorderIsPermutation(s, ids);
    var t := Reorder(s, ids);
    forall i | 0 <= i < |t.groups| ensures t.groups[i] in s.groups {
      assert t.groups[i] in multiset(t.groups);
    }
  }

  lemma SameConverse(s: State, t: State)
    requires Converse(s) && t.groups == s.groups
    requires forall r :: r in t.rigs ==> r in s.rigs && s.rigs[r].groupId == t.rigs[r].groupId
    ensures Converse(t)
  {}

  /** A step keeps the converse exactly when it does not rediscover a listed rig. */
  lemma StepConverse(s: State, op: Op)
    requires Inv(s) && Converse(s)
    ensures Converse(Apply(s, op)) <==> !Rediscovers(s, op)
  {
    hide Inv, Converse, AddRig, RemoveRig, Reorder, DeleteGroup, StartSession, UpsertRig, IsListed;
    match op
    case Upsert(rid, now) => UpsertConverse(s, rid, now);
    case Create(gid) => CreateConverse(s, gid);
    case Delete(gid) => DeleteConverse(s, gid);
    case Add(gid, rid) => AddConverse(s, gid, rid);
    case Remove(gid, rid) => RemoveConverse(s, gid, rid);
    case Shuffle(ids) => ReorderConverse(s, ids);
    case Start(sid, groupId, rids, now) => StartConverse(s, sid, groupId, rids, now);
    case _ => SameConverse(s, Apply(s, op));
  }

  lemma CreateConverse(s: State, gid: Id)
    requires Converse(s)
    ensures GroupIndex(s.groups, gid).None? ==> Converse(CreateGroup(s, gid))
  {}

  ghost predicate ConverseAt(ops: seq<Op>, n: nat)
    requires n <= |ops|
  {
    Converse(Run(EMPTY, ops[..n]))
  }

  predicate RediscoversAt(ops: seq<Op>, n: nat)
    requires n < |ops|
  {
    Rediscovers(Run(EMPTY, ops[..n]), ops[n])
  }

  lemma ConverseNext(ops: seq<Op>, n: nat)
    requires n < |ops| && ConverseAt(ops, n)
    ensures ConverseAt(ops, n + 1) <==> !RediscoversAt(ops, n)
  {
    hide Converse, Rediscovers, Apply, Inv;
    EveryRun(ops[..n]);
    assert ops[..n + 1][..n] == ops[..n];
    StepConverse(Run(EMPTY, ops[..n]), ops[n]);
  }

  lemma {:induction false} ConverseUpTo(ops: seq<Op>, m: nat)
    requires m <= |ops| && forall n :: 0 <= n < m ==> !RediscoversAt(ops, n)
    ensures ConverseAt(ops, m)
  {
    hide Converse, Rediscovers, Apply, Inv, RediscoversAt;
    if m == 0 {
      EmptyConverse();
    } else {
      ConverseUpTo(ops, m - 1);
      ConverseNext(ops, m - 1);
    }
  }

  /** Along a run the converse holds throughout exactly when no step rediscovers a listed rig. */
  lemma ConverseThroughout(ops: seq<Op>)
    ensures (forall n :: 0 <= n <= |ops| ==> ConverseAt(ops, n))
      <==> forall n :: 0 <= n < |ops| ==> !RediscoversAt(ops, n)
  {
    hide ConverseAt, RediscoversAt;
    if forall n :: 0 <= n < |ops| ==> !RediscoversAt(ops, n) {
      forall m | 0 <= m <= |ops| ensures ConverseAt(ops, m) {
        ConverseUpTo(ops, m);
      }
    }
    if forall n :: 0 <= n <= |ops| ==> ConverseAt(ops, n) {
      forall n | 0 <= n < |ops| ensures !RediscoversAt(ops, n) {
        ConverseNext(ops, n);
      }
    }
  }

  lemma EmptyConverse()
    ensures Converse(Run(EMPTY, []))
  {}

  /** Reaping a silent rig and hearing from it again is one such step. */
  lemma ReapingForgetsGroup(s: State, gid: Id, rid: Id, now: real, timeout: real)
    requires Holds(s.groups, gid, rid) && rid in s.rigs && Stale(s.rigs[rid], now, timeout)
    ensures Rediscovers(Apply(s, Reap(now, timeout)), Upsert(rid, now))
    ensures var t := Apply(Apply(s, Reap(now, timeout)), Upsert(rid, now));
      Holds(t.groups, gid, rid) && rid in t.rigs && t.rigs[rid].groupId == None
  {}

  /** Hearing from a listed rig after a restart is another, the first time for each. */
  lemma RestartForgetsGroup(s: State, gid: Id, rid: Id, now: real)
    requires Holds(s.groups, gid, rid)
    ensures Converse(Apply(s, Restart)) && Rediscovers(Apply(s, Restart), Upsert(rid, now))
  {}

  /** And so is adding a rig before it is first heard from. */
  lemma EarlyAddForgetsGroup(gid: Id, rid: Id, now: real)
    ensures var s := Run(EMPTY, [Create(gid), Add(gid, rid)]);
      Rediscovers(s, Upsert(rid, now)) && !Converse(Apply(s, Upsert(rid, now)))
  {
    hide Converse, Run, Apply, Inv;
    var ops := [Create(gid), Add(gid, rid)];
    RunSnoc([], Create(gid));
    RunSnoc([Create(gid)], Add(gid, rid));
    assert [] + [Create(gid)] == [Create(gid)] && [Create(gid)] + [Add(gid, rid)] == ops;
    EarlyAdd(gid, rid);
    var s := Run(EMPTY, ops);
    assert rid in s.groups[0].rigIds;
    EveryRun(ops);
    EmptyRigsConverse(s);
    StepConverse(s, Upsert(rid, now));
  }

  lemma EarlyAdd(gid: Id, rid: Id)
    ensures var s := Apply(Apply(EMPTY, Create(gid)), Add(gid, rid)); s.groups == [Group(gid, [rid])] && s.rigs == map[]
  {
    assert Apply(EMPTY, Create(gid)).groups == [Group(gid, [])];
    assert RemoveFirst([], rid) + [rid] == [rid];
  }

  lemma RunSnoc(ops: seq<Op>, op: Op)
    ensures Run(EMPTY, ops + [op]) == Apply(Run(EMPTY, ops), op) && Run(EMPTY, []) == EMPTY
  {
    assert (ops + [op])[..|ops|] == ops;
  }

  lemma EmptyRigsConverse(s: State)
    requires s.rigs == map[]
    ensures Converse(s)
  {}
}

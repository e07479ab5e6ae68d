/**
  What a registration, a poll and the operator's naming of drivers leave behind,
  in the fields of rows and rigs alone.
*/
module CheckInEffects {
  import opened Wrappers
  import opened AppState
  import opened CheckIns

  // ----- registration and the operator

  /**
    A registration claims no rig: the rows of its rigs are pending, with the
    drivers they had, and no other changes.
  */
  lemma {:induction false} RegisteredRows(d: Desk, sid: Id, rids: seq<Id>, now: real)
    ensures var t := Register(d, sid, rids, now);
      && (forall k :: k in t.rows <==> k in d.rows || (k.0 == sid && k.1 in rids))
      && forall k :: k in t.rows ==>
           t.rows[k] == if k.0 != sid || k.1 !in rids then d.rows[k]
           else if k in d.rows then Row(Pending, d.rows[k].driverId, d.rows[k].driver)
           else Row(Pending, None, None)
  {
    if rids != [] {
      RegisteredRows(d, sid, rids[..|rids| - 1], now);
      assert rids == rids[..|rids| - 1] + [rids[|rids| - 1]];
    }
  }

  /** The rigs sit in the session and lose their flag. */
  lemma {:induction false} RegisteredRigs(d: Desk, sid: Id, rids: seq<Id>, now: real)
    ensures var t := Register(d, sid, rids, now);
      && (forall r :: r in t.rigs <==> r in d.rigs || r in rids)
      && forall r :: r in t.rigs ==>
           t.rigs[r] == if r !in rids then d.rigs[r]
           else if r in d.rigs then d.rigs[r].(lastSeen := Some(now), sessionId := Some(sid),
             checkin := Some(Pending), driverUnbound := false)
           else Rig(Idle, Some(now), None, Some(sid), 0, true, None, None, None, None, false, Some(Pending), None)
  {
    if rids != [] {
      RegisteredRigs(d, sid, rids[..|rids| - 1], now);
      assert rids == rids[..|rids| - 1] + [rids[|rids| - 1]];
    }
  }

  /** Clearing a driver flags the rig and marks its rows of every session; naming one lifts the flag and marks none. */
  lemma OperatorEffect(d: Desk, rid: Id, name: string, now: real)
    ensures var rig := if rid in d.rigs then d.rigs[rid]
        else Rig(Idle, Some(now), None, None, 0, true, None, None, None, None, false, None, None);
      var u := Unbind(d, rid, now);
      && Assign(d, rid, name, now)
           == Desk(d.rigs[rid := rig.(driver := Some(name), driverUnbound := false)], d.rows)
      && u.rigs == d.rigs[rid := rig.(driver := None, driverId := None, checkin := None, driverUnbound := true)]
      && u.rows.Keys == d.rows.Keys
      && forall k :: k in d.rows ==>
           u.rows[k] == if k.1 == rid then Row(Unbound, d.rows[k].driverId, d.rows[k].driver) else d.rows[k]
  {}

  // ----- a poll

  /** The operator's flag or a row that read unbound outranks a claim. */
  predicate Vetoed(flagged: bool, sid: Id, item: Item, before: Table) {
    && item.status == Claimed
    && (flagged || ((sid, item.rid) in before && before[(sid, item.rid)].status == Unbound))
  }

  predicate IsFlagged(d: Desk, rid: Id) {
    rid in d.rigs && d.rigs[rid].driverUnbound
  }

  /**
    One entry: a claim that names a driver and is not vetoed binds him and lifts the
    flag; a vetoed claim leaves the record and reads unbound; anything else is noted.
  */
  lemma ItemEffect(d: Desk, sid: Id, item: Item, before: Table, now: real)
    requires item.rid != ""
    ensures var t := PollItem(d, sid, item, before, now);
      var rig := if item.rid in d.rigs then d.rigs[item.rid].(lastSeen := Some(now))
        else Rig(Idle, Some(now), None, None, 0, true, None, None, None, None, false, None, None);
      var vetoed := Vetoed(IsFlagged(d, item.rid), sid, item, before);
      var binds := item.status == Claimed && !vetoed && (item.driver.Some? || item.driverId.Some?);
      && t.rigs == d.rigs[item.rid :=
           if vetoed then rig
           else if binds then rig.(driverUnbound := false, checkin := Some(Claimed), driverId := item.driverId,
             driver := if item.driver.Some? then item.driver else item.driverId)
           else rig.(checkin := Some(item.status))]
      && t.rows.Keys == d.rows.Keys
      && forall k :: k in d.rows ==>
           t.rows[k] == if k != (sid, item.rid) then d.rows[k]
           else Row(if vetoed then Unbound else item.status,
                    if item.driverId.Some? then item.driverId else d.rows[k].driverId,
                    if item.driver.Some? then item.driver else d.rows[k].driver)
  {}

  /** A poll touches only the rigs and the rows its reply names; entries without a rig do nothing. */
  lemma {:induction false} PollLeavesOthers(d: Desk, sid: Id, items: seq<Item>, before: Table, now: real)
    ensures var t := Poll(d, sid, items, before, now);
      && t.rows.Keys == d.rows.Keys
      && (forall r :: r in t.rigs <==> r in d.rigs || (r != "" && exists i :: 0 <= i < |items| && items[i].rid == r))
      && (forall r :: r in d.rigs && (forall i :: 0 <= i < |items| ==> items[i].rid != r) ==> t.rigs[r] == d.rigs[r])
      && (forall k :: k in d.rows && (k.0 != sid || forall i :: 0 <= i < |items| ==> items[i].rid != k.1) ==>
            t.rows[k] == d.rows[k])
  {
    hide PollItem, Vetoed, IsFlagged;
    if items != [] {
      var init, item := items[..|items| - 1], items[|items| - 1];
      PollLeavesOthers(d, sid, init, before, now);
      assert forall i :: 0 <= i < |init| ==> init[i] == items[i];
      if item.rid == "" {
        EmptyItem(Poll(d, sid, init, before, now), sid, item, before, now);
      } else {
        ItemEffect(Poll(d, sid, init, before, now), sid, item, before, now);
      }
    }
  }

  lemma PollLast(d: Desk, sid: Id, items: seq<Item>, before: Table, now: real)
    requires items != []
    ensures Poll(d, sid, items, before, now)
      == PollItem(Poll(d, sid, items[..|items| - 1], before, now), sid, items[|items| - 1], before, now)
  {
    hide PollItem;
  }

  lemma SameFlag(d: Desk, t: Desk, rid: Id, now: real)
    requires Upserted(d.rigs, rid, now).driverUnbound == Upserted(t.rigs, rid, now).driverUnbound
    ensures IsFlagged(d, rid) == IsFlagged(t, rid)
  {}

  /** The last entry of a rig decides, against the flag the rig had before the poll. */
  lemma {:induction false} PollEffect(d: Desk, sid: Id, items: seq<Item>, before: Table, now: real, i: nat)
    requires i < |items| && items[i].rid != "" && forall j :: i < j < |items| ==> items[j].rid != items[i].rid
    ensures var (t, item) := (Poll(d, sid, items, before, now), items[i]);
      var vetoed := Vetoed(IsFlagged(d, item.rid), sid, item, before);
      var binds := item.status == Claimed && !vetoed && (item.driver.Some? || item.driverId.Some?);
      && item.rid in t.rigs && t.rigs[item.rid].lastSeen == Some(now)
      && (binds ==>
            && !t.rigs[item.rid].driverUnbound && t.rigs[item.rid].driverId == item.driverId
            && t.rigs[item.rid].driver == if item.driver.Some? then item.driver else item.driverId)
      && (!vetoed ==> t.rigs[item.rid].checkin == Some(item.status))
      && ((sid, item.rid) in d.rows ==>
            && (sid, item.rid) in t.rows
            && t.rows[(sid, item.rid)].status == if vetoed then Unbound else item.status)
  {
    hide Poll, PollItem, Vetoed, IsFlagged;
    var init, last := items[..|items| - 1], items[|items| - 1];
    var was := Poll(d, sid, init, before, now);
    PollLast(d, sid, items, before, now);
    PollLeavesOthers(d, sid, init, before, now);
    if i == |init| {
      FlagUnchanged(d, sid, init, before, now, last.rid);
      SameFlag(d, was, last.rid, now);
      ItemEffect(was, sid, last, before, now);
    } else {
      PollEffect(d, sid, init, before, now, i);
      if last.rid == "" {
        EmptyItem(was, sid, last, before, now);
      } else {
        ItemEffect(was, sid, last, before, now);
      }
    }
  }

  /**
    A rig is reported exactly when the reply names a driver who claimed it, it was
    not flagged, and its row, if there was one, read pending or expired.
  */
  lemma ReportedIff(d: Desk, sid: Id, items: seq<Item>, before: Table, now: real, rid: Id)
    ensures rid in NewlyClaimed(d, sid, items, before, now) <==>
      && rid != "" && !(rid in d.rigs && d.rigs[rid].driverUnbound)
      && ((sid, rid) in before ==> before[(sid, rid)].status != Claimed && before[(sid, rid)].status != Unbound)
      && exists i :: 0 <= i < |items| && items[i].rid == rid && items[i].status == Claimed
           && (items[i].driver.Some? || items[i].driverId.Some?)
  {
    NewlyClaimedIff(d, sid, items, before, now, rid);
    if i :| 0 <= i < |items| && items[i].rid == rid && BindsAnew(d, sid, items[i], before, now) {
      assert items[i].status == Claimed;
    }
  }
}

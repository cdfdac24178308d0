/** internal/state/state.go and responders.go: a session's state, updated in place, against the specification. */
module State {
  import opened Base
  import opened Flags
  import opened Snapshot
  import opened SnapshotList
  import opened Responses
  import opened Merge
  import opened Responders
  import opened Deferral

  /** The batch of a single responder. */
  function Single(s: Snap, r: Responder, sid: StateId, isClose: bool): Batch {
    match Handle(s, r, sid, isClose)
    case Done(t, out) => Batch(t, out, Ok)
    case OutOfOrder => Batch(s, [], FailedOutOfOrder)
    case DuplicateUid => Batch(s, [], PanickedDuplicateUid)
  }

  /** One more responder handled. */
  lemma {:induction false} HandleAllNext(s: Snap, rs: seq<Responder>, i: nat, sid: StateId, isClose: bool)
    requires i < |rs| && HandleAll(s, rs[..i], sid, isClose).status == Ok
    ensures var b := HandleAll(s, rs[..i], sid, isClose);
            HandleAll(s, rs[..i + 1], sid, isClose) == After(b, Single(b.snap, rs[i], sid, isClose))
  {
    assert rs[..i + 1][..i] == rs[..i];
  }

  method AnnounceArrival(snap: SnapMsgList) returns (out: seq<Response>)
    requires snap.Valid()
    ensures out == Announce(snap.view)
  {
    out := [Exists(|snap.msg|)];
    var recent := snap.RecentMessages();
    if recent > 0 {
      out := out + [Recent(recent)];
    }
  }

  /** The insert the arrival takes: strict for the session's own, out of order for those of other sessions. */
  method InsertArrival(snap: SnapMsgList, r: Responder, sid: StateId) returns (status: Status)
    requires snap.Valid() && r.TargetedExists? && !Has(snap.view, r.id)
    modifies snap
    ensures snap.Valid()
    ensures status == ArrivalStatus(old(snap.view), r, sid)
    ensures snap.view == if status == Ok then Snapshot.Insert(old(snap.view), Arrived(r, sid)) else old(snap.view)
    ensures forall m :: m in snap.msg ==> m in old(snap.msg) || fresh(m)
  {
    hide Snapshot.Insert, Rank, HasUid, Has;
    var flags := ArrivalFlags(r, sid);
    if r.origin == Some(sid) {
      var ok := snap.Insert(r.id, r.remote, r.uid, flags);
      if ok { AppendIsInsert(old(snap.view), Arrived(r, sid)); }
      status := if ok then Ok else FailedOutOfOrder;
    } else {
      var ok := snap.InsertOutOfOrder(r.id, r.remote, r.uid, flags);
      status := if ok then Ok else PanickedDuplicateUid;
    }
  }

  function ArrivalStatus(s: Snap, r: Responder, sid: StateId): Status
    requires r.TargetedExists?
  {
    if r.origin == Some(sid) then (if |s| > 0 && s[|s| - 1].uid >= r.uid then FailedOutOfOrder else Ok)
    else if HasUid(s, r.uid) then PanickedDuplicateUid else Ok
  }

  lemma {:induction false} ArrivalSingle(s: Snap, r: Responder, sid: StateId, isClose: bool)
    requires Ascending(s) && r.TargetedExists? && !Has(s, r.id)
    ensures var t, status := Snapshot.Insert(s, Arrived(r, sid)), ArrivalStatus(s, r, sid);
            Single(s, r, sid, isClose) == if status == Ok then Batch(t, Announce(t), Ok) else Batch(s, [], status)
  {
    if r.origin == Some(sid) && ArrivalStatus(s, r, sid) == Ok {
      AppendIsInsert(s, Arrived(r, sid));
    }
  }

  method HandleTargetedExists(snap: SnapMsgList, r: Responder, sid: StateId, ghost isClose: bool)
    returns (out: seq<Response>, status: Status)
    requires snap.Valid() && r.TargetedExists?
    modifies snap
    ensures snap.Valid()
    ensures Batch(snap.view, out, status) == Single(old(snap.view), r, sid, isClose)
    ensures forall m :: m in snap.msg ==> m in old(snap.msg) || fresh(m)
  {
    snap.IndexedIffListed(r.id);
    if r.id in snap.idx {
      return [], Ok;
    }
    ArrivalSingle(snap.view, r, sid, isClose);
    status := InsertArrival(snap, r, sid);
    if status != Ok {
      return [], status;
    }
    out := AnnounceArrival(snap);
  }

  method HandleExpungeMsg(snap: SnapMsgList, r: Responder, ghost sid: StateId, isClose: bool)
    returns (out: seq<Response>, status: Status)
    requires snap.Valid() && r.ExpungeMsg?
    modifies snap
    ensures snap.Valid()
    ensures Batch(snap.view, out, status) == Single(old(snap.view), r, sid, isClose)
    ensures forall m :: m in snap.msg ==> m in old(snap.msg)
  {
    var at := snap.Get(r.id);
    if at.None? {
      return [], Ok;
    }
    var removed := snap.Remove(r.id);
    if isClose {
      return [], Ok;
    }
    return [Expunge(at.value.0)], Ok;
  }

  /** The FETCH response of a flag change, if any. */
  function FetchReply(cur: FlagSet, now: FlagSet, uid: Uid, n: nat, r: Responder): seq<Response>
    requires r.FetchFlags?
  {
    if cur.Keys == now.Keys || r.asSilent then [] else [Fetch(n, FetchItems(now, uid, r.asUid))]
  }

  method ReportFlags(cur: FlagSet, now: FlagSet, uid: Uid, n: nat, r: Responder) returns (out: seq<Response>)
    requires r.FetchFlags?
    ensures out == FetchReply(cur, now, uid, n, r)
  {
    if cur.Keys == now.Keys || r.asSilent {
      return [];
    }
    var items := [FlagsItem(now)];
    if r.asUid {
      items := items + [UidItem(uid)];
    }
    assert items == FetchItems(now, uid, r.asUid);
    return [Fetch(n, items)];
  }

  lemma {:induction false} FetchSingle(s: Snap, r: Responder, sid: StateId, isClose: bool)
    requires r.FetchFlags? && Has(s, r.id)
    ensures var i := IndexOf(s, r.id);
            var t := SetFlags(s, r.id, NewFlags(s[i].flags, r));
            Single(s, r, sid, isClose) == Batch(t, FetchReply(s[i].flags, t[i].flags, t[i].uid, i + 1, r), Ok)
  {
  }

  /** Sets the flags of a listed message and returns its flags before and after, its UID and its number. */
  method ChangeFlags(snap: SnapMsgList, r: Responder, ghost sid: StateId, ghost isClose: bool)
    returns (cur: FlagSet, now: FlagSet, uid: Uid, n: nat)
    requires snap.Valid() && r.FetchFlags? && Has(snap.view, r.id)
    modifies snap`view, snap.msg
    ensures snap.Valid()
    ensures Single(old(snap.view), r, sid, isClose) == Batch(snap.view, FetchReply(cur, now, uid, n, r), Ok)
  {
    FetchSingle(snap.view, r, sid, isClose);
    var at := snap.Get(r.id);
    var m: SnapMsg;
    n, m := at.value.0, at.value.1;
    assert m.Is(snap.view[n - 1]);
    cur := m.flags;
    var ok := snap.SetMessageFlags(r.id, NewFlags(cur, r));
    assert snap.msg[n - 1] == m;
    assert m.Is(snap.view[n - 1]);
    now, uid := m.flags, m.uid;
  }

  method HandleFetchFlags(snap: SnapMsgList, r: Responder, ghost sid: StateId, ghost isClose: bool)
    returns (out: seq<Response>, status: Status)
    requires snap.Valid() && r.FetchFlags?
    modifies snap`view, snap.msg
    ensures snap.Valid()
    ensures Batch(snap.view, out, status) == Single(old(snap.view), r, sid, isClose)
  {
    status := Ok;
    snap.IndexedIffListed(r.id);
    if r.id !in snap.idx {
      return [], Ok;
    }
    var cur, now, uid, n := ChangeFlags(snap, r, sid, isClose);
    out := ReportFlags(cur, now, uid, n, r);
  }

  method HandleResponder(snap: SnapMsgList, r: Responder, sid: StateId, isClose: bool)
    returns (out: seq<Response>, status: Status)
    requires snap.Valid()
    modifies snap, snap.msg
    ensures snap.Valid()
    ensures Batch(snap.view, out, status) == Single(old(snap.view), r, sid, isClose)
    ensures forall m :: m in snap.msg ==> m in old(snap.msg) || fresh(m)
  {
    match r {
      case TargetedExists(_, _, _, _, _, _) => out, status := HandleTargetedExists(snap, r, sid, isClose);
      case ExpungeMsg(_) => out, status := HandleExpungeMsg(snap, r, sid, isClose);
      case FetchFlags(_, _, _, _, _, _) => out, status := HandleFetchFlags(snap, r, sid, isClose);
    }
  }

  class State {
    const stateID: StateId
    var snap: SnapMsgList
    var res: seq<Responder>
    var idle: bool

    constructor (stateID: StateId, snap: SnapMsgList)
      requires snap.Valid()
      ensures this.stateID == stateID && this.snap == snap && res == [] && !idle && Valid()
    {
      this.stateID, this.snap, this.res, this.idle := stateID, snap, [], false;
    }

    /** While idling nothing is queued. */
    ghost predicate Valid()
      reads this, snap, snap.msg
    {
      snap.Valid() && (idle ==> res == [])
    }

    /** The session of the protocol this object stands for. */
    ghost function Abs(): Session
      reads this, snap
    {
      Session(snap.view, res, idle)
    }

    method QueueResponder(rs: seq<Responder>)
      modifies this`res
      ensures res == old(res) + rs
    {
      res := res + rs;
    }

    method PopResponders(permitExpunge: bool) returns (pop: seq<Responder>)
      modifies this`res
      ensures pop == Popped(old(res), permitExpunge) && res == Kept(old(res), permitExpunge)
    {
      pop := [];
      if |res| == 0 {
        return;
      }
      var rem: seq<Responder> := [];
      var skipIDs: set<MessageId> := {};
      for i := 0 to |res|
        invariant res == old(res)
        invariant permitExpunge ==> pop == res[..i] && rem == []
        invariant !permitExpunge ==> Sifted(pop, rem, skipIDs) == Sift(res[..i])
      {
        var r := res[i];
        assert res[..i + 1][..i] == res[..i];
        if permitExpunge {
          pop := pop + [r];
        } else if r.ExpungeMsg? {
          rem := rem + [r];
          skipIDs := skipIDs + {r.id};
        } else if r.TargetedExists? {
          if r.id in skipIDs {
            rem := rem + [r];
            skipIDs := skipIDs - {r.id};
          } else {
            pop := pop + [r];
          }
        } else {
          pop := pop + [r];
        }
      }
      assert res[..|res|] == res;
      res := rem;
    }

    /** Handles responders in order, stopping at the first failure. */
    method HandleEach(rs: seq<Responder>, isClose: bool) returns (out: seq<Response>, status: Status)
      requires snap.Valid()
      modifies snap, snap.msg
      ensures snap.Valid()
      ensures Batch(snap.view, out, status) == HandleAll(old(snap.view), rs, stateID, isClose)
    {
      hide HandleAll, Single;
      out, status := [], Ok;
      HandleAllNone(snap.view, rs, stateID, isClose);
      var i := 0;
      while i < |rs| && status == Ok
        invariant 0 <= i <= |rs| && snap == old(snap) && snap.Valid()
        invariant forall m :: m in snap.msg ==> m in old(snap.msg) || fresh(m)
        invariant Batch(snap.view, out, status) == HandleAll(old(snap.view), rs[..i], stateID, isClose)
      {
        HandleAllNext(old(snap.view), rs, i, stateID, isClose);
        assert forall k :: 0 <= k < |snap.msg| ==> snap.msg[k] in old(snap.msg) || fresh(snap.msg[k]);
        var more, s := HandleResponder(snap, rs[i], stateID, isClose);
        out, status := out + more, s;
        i := i + 1;
      }
      HandleAllStops(old(snap.view), rs, i, stateID, isClose);
    }

    /** None stands for a panic of Merge. A failing responder discards the responses and the popped queue. */
    method FlushResponses(permitExpunge: bool, isClose: bool) returns (out: Option<seq<Response>>, status: Status)
      requires Valid()
      modifies this`res, snap, snap.msg
      ensures Valid()
      ensures var b := HandleAll(old(snap.view), Popped(old(res), permitExpunge), stateID, isClose);
              && snap.view == b.snap && res == Kept(old(res), permitExpunge) && status == b.status
              && (status == Ok ==> out == MergeAll(b.responses))
              && (status != Ok ==> out == Some([]))
      ensures !isClose ==> out.Some?
      ensures !isClose && status == Ok ==> Advance(old(Abs()), Flush(permitExpunge), stateID) == Some(Abs())
    {
      var pop := PopResponders(permitExpunge);
      ghost var before := snap.view;
      var responses: seq<Response>;
      responses, status := HandleEach(pop, isClose);
      if !isClose { FlushNeverPanics(before, pop, stateID); }
      if status != Ok {
        return Some([]), status;
      }
      out := MergeResponses(responses);
    }

    /** Queues responders, or while idling handles them at once and returns what goes to the client. */
    method PushResponder(rs: seq<Responder>) returns (out: seq<Response>, status: Status)
      requires Valid()
      modifies this`res, snap, snap.msg
      ensures Valid()
      ensures status == Ok ==> Advance(old(Abs()), Push(rs), stateID) == Some(Abs())
      ensures idle ==> Batch(snap.view, out, status) == HandleAll(old(snap.view), rs, stateID, false) && res == old(res)
      ensures !idle ==> snap.view == old(snap.view) && res == old(res) + rs && out == [] && status == Ok
    {
      if !idle {
        QueueResponder(rs);
        return [], Ok;
      }
      out, status := HandleEach(rs, false);
    }

    method BeginIdle() returns (out: Option<seq<Response>>, status: Status)
      requires Valid()
      modifies this`res, this`idle, snap, snap.msg
      ensures Valid() && out.Some? && res == [] && idle == (old(idle) || status == Ok)
      ensures status == Ok ==> Advance(old(Abs()), Step.BeginIdle, stateID) == Some(Abs())
      ensures var b := HandleAll(old(snap.view), old(res), stateID, false);
              && snap.view == b.snap && status == b.status && (status == Ok ==> out == MergeAll(b.responses))
    {
      out, status := FlushResponses(true, false);
      if status == Ok {
        idle := true;
      }
    }

    method EndIdle()
      requires Valid()
      modifies this`idle
      ensures Valid() && Advance(old(Abs()), Step.EndIdle, stateID) == Some(Abs())
    {
      idle := false;
    }
  }

  lemma {:induction false} HandleAllNone(s: Snap, rs: seq<Responder>, sid: StateId, isClose: bool)
    ensures HandleAll(s, rs[..0], sid, isClose) == Batch(s, [], Ok)
  {
  }

  /** Nothing is handled after a failure. */
  lemma {:induction false} HandleAllStops(s: Snap, rs: seq<Responder>, i: nat, sid: StateId, isClose: bool)
    requires i <= |rs| && (i < |rs| ==> HandleAll(s, rs[..i], sid, isClose).status != Ok)
    ensures HandleAll(s, rs, sid, isClose) == HandleAll(s, rs[..i], sid, isClose)
  {
    var x := HandleAll(s, rs[..i], sid, isClose);
    assert rs == rs[..i] + rs[i..];
    HandleAllConcat(s, rs[..i], rs[i..], sid, isClose);
    if i == |rs| { assert rs[..i] == rs; }
  }
}

/** internal/state/responders.go: what handling one pending responder does to a snapshot and tells the client. */
module Responders {
  import opened Base
  import opened Flags
  import opened Snapshot
  import opened Responses
  import opened Merge

  datatype FlagOp = OpAdd | OpRem | OpSet

  datatype Responder =
    | TargetedExists(id: MessageId, remote: string, uid: Uid, flags: FlagSet, target: StateId, origin: Option<StateId>)
    | ExpungeMsg(id: MessageId)
    | FetchFlags(id: MessageId, flags: FlagSet, op: FlagOp, asUid: bool, asSilent: bool, fromOther: bool)

  /** OutOfOrder is the error of the strict insert, DuplicateUid the panic of the out-of-order insert. */
  datatype Outcome = Done(snap: Snap, responses: seq<Response>) | OutOfOrder | DuplicateUid

  /** Only the target session sees \Recent. */
  function ArrivalFlags(r: Responder, sid: StateId): FlagSet
    requires r.TargetedExists?
  {
    if r.target != sid then Remove(r.flags, RECENT) else r.flags
  }

  function Arrived(r: Responder, sid: StateId): Msg
    requires r.TargetedExists?
  {
    NewMsg(r.id, r.remote, r.uid, ArrivalFlags(r, sid))
  }

  function Announce(s: Snap): seq<Response> {
    [Exists(|s|)] + if RecentCount(s) > 0 then [Recent(RecentCount(s))] else []
  }

  function HandleExists(s: Snap, r: Responder, sid: StateId): Outcome
    requires r.TargetedExists?
  {
    if Has(s, r.id) then Done(s, [])
    else if r.origin == Some(sid) then
      if |s| > 0 && s[|s| - 1].uid >= r.uid then OutOfOrder
      else Done(s + [Arrived(r, sid)], Announce(s + [Arrived(r, sid)]))
    else if HasUid(s, r.uid) then DuplicateUid
    else Done(Insert(s, Arrived(r, sid)), Announce(Insert(s, Arrived(r, sid))))
  }

  function HandleExpunge(s: Snap, id: MessageId, isClose: bool): Outcome {
    if !Has(s, id) then Done(s, [])
    else Done(RemoveMsg(s, id), if isClose then [] else [Expunge(IndexOf(s, id) + 1)])
  }

  function NewFlags(cur: FlagSet, r: Responder): FlagSet
    requires r.FetchFlags?
  {
    var f := match r.op
             case OpAdd => AddFlagSet(cur, r.flags)
             case OpRem => RemoveFlagSet(cur, r.flags)
             case OpSet => r.flags;
    if r.fromOther then SetFlag(f, DELETED, DELETED_KEY in cur) else f
  }

  function FetchItems(flags: FlagSet, uid: Uid, asUid: bool): seq<Item> {
    [FlagsItem(flags)] + if asUid then [UidItem(uid)] else []
  }

  function HandleFetch(s: Snap, r: Responder): Outcome
    requires r.FetchFlags?
  {
    if !Has(s, r.id) then Done(s, []) else
    var i := IndexOf(s, r.id);
    var t := SetFlags(s, r.id, NewFlags(s[i].flags, r));
    if s[i].flags.Keys == t[i].flags.Keys || r.asSilent then Done(t, [])
    else Done(t, [Fetch(i + 1, FetchItems(t[i].flags, t[i].uid, r.asUid))])
  }

  function Handle(s: Snap, r: Responder, sid: StateId, isClose: bool): Outcome {
    match r
    case TargetedExists(_, _, _, _, _, _) => HandleExists(s, r, sid)
    case ExpungeMsg(id) => HandleExpunge(s, id, isClose)
    case FetchFlags(_, _, _, _, _, _) => HandleFetch(s, r)
  }

  datatype Status = Ok | FailedOutOfOrder | PanickedDuplicateUid

  /** Everything handled up to the first failure; a failure leaves the snapshot as it then is. */
  datatype Batch = Batch(snap: Snap, responses: seq<Response>, status: Status)

  function Proceed(b: Batch, o: Outcome): Batch {
    if b.status != Ok then b else
    match o
    case Done(t, out) => Batch(t, b.responses + out, Ok)
    case OutOfOrder => b.(status := FailedOutOfOrder)
    case DuplicateUid => b.(status := PanickedDuplicateUid)
  }

  function HandleAll(s: Snap, rs: seq<Responder>, sid: StateId, isClose: bool): Batch {
    if |rs| == 0 then Batch(s, [], Ok) else
    var b := HandleAll(s, rs[..|rs| - 1], sid, isClose);
    Proceed(b, Handle(b.snap, rs[|rs| - 1], sid, isClose))
  }

  function After(x: Batch, y: Batch): Batch {
    if x.status != Ok then x else Batch(y.snap, x.responses + y.responses, y.status)
  }

  lemma {:induction false} ProceedAfter(x: Batch, y: Batch, o: Outcome)
    ensures After(x, Proceed(y, o)) == Proceed(After(x, y), o)
  {
  }

  lemma {:induction false} HandleAllConcat(s: Snap, a: seq<Responder>, b: seq<Responder>, sid: StateId, isClose: bool)
    ensures var x := HandleAll(s, a, sid, isClose);
            HandleAll(s, a + b, sid, isClose) == After(x, HandleAll(x.snap, b, sid, isClose))
  {
    var x := HandleAll(s, a, sid, isClose);
    if |b| == 0 {
      assert a + b == a;
    } else {
      var n := |b| - 1;
      var y := HandleAll(x.snap, b[..n], sid, isClose);
      assert (a + b)[..|a + b| - 1] == a + b[..n];
      HandleAllConcat(s, a, b[..n], sid, isClose);
      ProceedAfter(x, y, Handle(y.snap, b[n], sid, isClose));
    }
  }

  // ----- every responder keeps the snapshot invariant

  lemma {:induction false} HandleValid(s: Snap, r: Responder, sid: StateId, isClose: bool)
    requires Valid(s) && Handle(s, r, sid, isClose).Done?
    ensures Valid(Handle(s, r, sid, isClose).snap)
  {
    match r
    case TargetedExists(_, _, _, _, _, _) =>
      if !Has(s, r.id) {
        var m := Arrived(r, sid);
        if r.origin == Some(sid) { AppendIsInsert(s, m); }
        InsertValid(s, m);
      }
    case ExpungeMsg(id) => if Has(s, id) { RemoveValid(s, id); }
    case FetchFlags(_, _, _, _, _, _) =>
      if Has(s, r.id) { SetFlagsValid(s, r.id, NewFlags(s[IndexOf(s, r.id)].flags, r)); }
  }

  lemma {:induction false} HandleAllValid(s: Snap, rs: seq<Responder>, sid: StateId, isClose: bool)
    requires Valid(s)
    ensures Valid(HandleAll(s, rs, sid, isClose).snap)
  {
    if |rs| > 0 {
      HandleAllValid(s, rs[..|rs| - 1], sid, isClose);
      var b := HandleAll(s, rs[..|rs| - 1], sid, isClose);
      if b.status == Ok && Handle(b.snap, rs[|rs| - 1], sid, isClose).Done? {
        HandleValid(b.snap, rs[|rs| - 1], sid, isClose);
      }
    }
  }

  // ----- flags

  /** Whether a flag is set after the operation, from whether it was set and whether the operation names it. */
  predicate SetAfter(op: FlagOp, was: bool, named: bool) {
    match op
    case OpAdd => was || named
    case OpRem => was && !named
    case OpSet => named
  }

  /**
   * A flag change alters the flags of its message only, each flag as the operation says, except that \Recent cannot be
   * lost and a change from another mailbox leaves \Deleted alone. It is told unless silent or without effect.
   */
  lemma {:induction false} FlagChangeMeaning(s: Snap, r: Responder, key: string)
    requires r.FetchFlags? && Has(s, r.id)
    ensures var i := IndexOf(s, r.id);
            var o := HandleFetch(s, r);
            var was, named := key in s[i].flags, key in r.flags;
            && o.snap == s[i := s[i].(flags := o.snap[i].flags, toExpunge := DELETED_KEY in o.snap[i].flags)]
            && (key in o.snap[i].flags <==>
                if key == RECENT_KEY && was then true
                else if key == DELETED_KEY && r.fromOther then was
                else SetAfter(r.op, was, named))
            && (o.responses == [] <==> r.asSilent || o.snap[i].flags.Keys == s[i].flags.Keys)
  {
    FlagNames();
  }

  /** A new message has the flags it came with, \Recent only in the target session. */
  lemma {:induction false} ArrivalMeaning(r: Responder, sid: StateId, key: string)
    requires r.TargetedExists?
    ensures key in Arrived(r, sid).flags <==> key in r.flags && (key == RECENT_KEY ==> r.target == sid)
    ensures Arrived(r, sid).toExpunge <==> DELETED_KEY in r.flags
  {
    FlagNames();
  }

  // ----- membership

  /** The UID a message has in the snapshot, if it is there. */
  function Lookup(s: Snap, id: MessageId): Option<Uid> {
    if Has(s, id) then Some(s[IndexOf(s, id)].uid) else None
  }

  /** The effect of one responder on one message. */
  function TrackOne(o: Option<Uid>, r: Responder, id: MessageId): Option<Uid> {
    if r.id != id then o
    else match r
      case TargetedExists(_, _, uid, _, _, _) => if o.Some? then o else Some(uid)
      case ExpungeMsg(_) => None
      case FetchFlags(_, _, _, _, _, _) => o
  }

  function Track(o: Option<Uid>, rs: seq<Responder>, id: MessageId): Option<Uid> {
    if |rs| == 0 then o else TrackOne(Track(o, rs[..|rs| - 1], id), rs[|rs| - 1], id)
  }

  lemma {:induction false} TrackConcat(o: Option<Uid>, a: seq<Responder>, b: seq<Responder>, id: MessageId)
    ensures Track(o, a + b, id) == Track(Track(o, a, id), b, id)
  {
    if |b| == 0 {
      assert a + b == a;
    } else {
      assert (a + b)[..|a + b| - 1] == a + b[..|b| - 1];
      TrackConcat(o, a, b[..|b| - 1], id);
    }
  }

  lemma {:induction false} LookupAt(s: Snap, i: nat)
    requires DistinctIds(s) && i < |s|
    ensures Has(s, s[i].id) && IndexOf(s, s[i].id) == i && Lookup(s, s[i].id) == Some(s[i].uid)
  {
    assert Has(s, s[i].id);
    assert IndexOf(s, s[i].id) <= i;
  }

  /** Equal lookups from a witness position in each snapshot. */
  lemma {:induction false} LookupMoved(s: Snap, i: nat, t: Snap, k: nat)
    requires DistinctIds(s) && DistinctIds(t) && i < |s| && k < |t|
    requires s[i].id == t[k].id && s[i].uid == t[k].uid
    ensures Lookup(s, s[i].id) == Lookup(t, s[i].id)
  {
    LookupAt(s, i);
    LookupAt(t, k);
  }

  lemma {:induction false} InsertTracks(s: Snap, m: Msg, id: MessageId)
    requires Valid(s) && Valid(Insert(s, m)) && !Has(s, m.id)
    ensures Lookup(Insert(s, m), id) == if id == m.id then Some(m.uid) else Lookup(s, id)
  {
    var t, p := Insert(s, m), Rank(s, m.uid);
    if id == m.id {
      LookupAt(t, p);
    } else if Has(s, id) {
      var i := IndexOf(s, id);
      LookupMoved(s, i, t, if i < p then i else i + 1);
    }
  }

  lemma {:induction false} RemoveTracks(s: Snap, x: MessageId, id: MessageId)
    requires Valid(s) && Has(s, x)
    ensures Lookup(RemoveMsg(s, x), id) == if id == x then None else Lookup(s, id)
  {
    RemoveValid(s, x);
    if id != x && Has(s, id) {
      var i, p := IndexOf(s, id), IndexOf(s, x);
      LookupMoved(s, i, RemoveMsg(s, x), if i < p then i else i - 1);
    }
  }

  lemma {:induction false} SetFlagsTracks(s: Snap, x: MessageId, flags: FlagSet, id: MessageId)
    requires Valid(s) && Has(s, x)
    ensures Lookup(SetFlags(s, x, flags), id) == Lookup(s, id)
  {
    SetFlagsValid(s, x, flags);
    if Has(s, id) {
      LookupMoved(s, IndexOf(s, id), SetFlags(s, x, flags), IndexOf(s, id));
    }
  }

  lemma {:induction false} HandleTracks(s: Snap, r: Responder, sid: StateId, isClose: bool, id: MessageId)
    requires Valid(s) && Handle(s, r, sid, isClose).Done?
    ensures Lookup(Handle(s, r, sid, isClose).snap, id) == TrackOne(Lookup(s, id), r, id)
  {
    HandleValid(s, r, sid, isClose);
    match r
    case TargetedExists(_, _, _, _, _, _) =>
      if !Has(s, r.id) {
        if r.origin == Some(sid) { AppendIsInsert(s, Arrived(r, sid)); }
        InsertTracks(s, Arrived(r, sid), id);
      }
    case ExpungeMsg(x) => if Has(s, x) { RemoveTracks(s, x, id); }
    case FetchFlags(_, _, _, _, _, _) =>
      if Has(s, r.id) { SetFlagsTracks(s, r.id, NewFlags(s[IndexOf(s, r.id)].flags, r), id); }
  }

  lemma {:induction false} HandleAllTracks(s: Snap, rs: seq<Responder>, sid: StateId, isClose: bool, id: MessageId)
    requires Valid(s) && HandleAll(s, rs, sid, isClose).status == Ok
    ensures Lookup(HandleAll(s, rs, sid, isClose).snap, id) == Track(Lookup(s, id), rs, id)
  {
    if |rs| > 0 {
      var n := |rs| - 1;
      HandleAllTracks(s, rs[..n], sid, isClose, id);
      HandleAllValid(s, rs[..n], sid, isClose);
      HandleTracks(HandleAll(s, rs[..n], sid, isClose).snap, rs[n], sid, isClose, id);
    }
  }

  // ----- responders do not fail when every UID belongs to one message and none comes from this session

  ghost predicate OwnedSnap(owner: Uid -> MessageId, s: Snap) {
    forall i :: 0 <= i < |s| ==> owner(s[i].uid) == s[i].id
  }

  ghost predicate Owned(owner: Uid -> MessageId, r: Responder) {
    r.TargetedExists? ==> owner(r.uid) == r.id
  }

  predicate Foreign(r: Responder, sid: StateId) {
    r.TargetedExists? ==> r.origin != Some(sid)
  }

  lemma {:induction false} HandleSucceeds(owner: Uid -> MessageId, s: Snap, r: Responder, sid: StateId, isClose: bool)
    requires Valid(s) && OwnedSnap(owner, s) && Owned(owner, r) && Foreign(r, sid)
    ensures Handle(s, r, sid, isClose).Done?
    ensures OwnedSnap(owner, Handle(s, r, sid, isClose).snap)
  {
    match r
    case TargetedExists(_, _, _, _, _, _) => assert !Has(s, r.id) ==> !HasUid(s, r.uid);
    case ExpungeMsg(_) =>
    case FetchFlags(_, _, _, _, _, _) =>
  }

  lemma {:induction false} HandleAllSucceeds(
    owner: Uid -> MessageId, s: Snap, rs: seq<Responder>, sid: StateId, isClose: bool)
    requires Valid(s) && OwnedSnap(owner, s)
    requires forall r :: r in rs ==> Owned(owner, r) && Foreign(r, sid)
    ensures HandleAll(s, rs, sid, isClose).status == Ok
    ensures OwnedSnap(owner, HandleAll(s, rs, sid, isClose).snap)
  {
    if |rs| > 0 {
      var n := |rs| - 1;
      HandleAllSucceeds(owner, s, rs[..n], sid, isClose);
      HandleAllValid(s, rs[..n], sid, isClose);
      HandleSucceeds(owner, HandleAll(s, rs[..n], sid, isClose).snap, rs[n], sid, isClose);
    }
  }

  // ----- what the client is told

  lemma {:induction false} RecentCountPut(s: Snap, i: nat, m: Msg)
    requires i <= |s|
    ensures RecentCount(Put(s, i, m)) == RecentCount(s) + if RECENT_KEY in m.flags then 1 else 0
    decreases |s|
  {
    var n, t := |s|, Put(s, i, m);
    if i == n {
      assert t[..n] == s && t[n] == m;
    } else {
      assert t[..n] == Put(s[..n - 1], i, m) && t[n] == s[n - 1];
      hide Put;
      RecentCountPut(s[..n - 1], i, m);
    }
  }

  lemma {:induction false} RecentCountUpdate(s: Snap, i: nat, m: Msg)
    requires i < |s| && (RECENT_KEY in s[i].flags ==> RECENT_KEY in m.flags)
    ensures RecentCount(s[i := m]) >= RecentCount(s)
    decreases |s|
  {
    var n := |s| - 1;
    assert s[i := m][..n] == if i == n then s[..n] else s[..n][i := m];
    if i < n {
      RecentCountUpdate(s[..n], i, m);
    }
  }

  /** Outside EXPUNGE no responder lowers the number of messages or of \Recent messages. */
  lemma {:induction false} HandleGrows(s: Snap, r: Responder, sid: StateId, isClose: bool)
    requires Valid(s) && !r.ExpungeMsg? && Handle(s, r, sid, isClose).Done?
    ensures var t := Handle(s, r, sid, isClose).snap;
            |t| >= |s| && RecentCount(t) >= RecentCount(s)
  {
    if r.TargetedExists? && !Has(s, r.id) {
      var m := Arrived(r, sid);
      if r.origin == Some(sid) { AppendIsInsert(s, m); }
      RecentCountPut(s, Rank(s, m.uid), m);
    } else if r.FetchFlags? && Has(s, r.id) {
      FlagNames();
      var i := IndexOf(s, r.id);
      RecentCountUpdate(s, i, WithFlags(s[i], NewFlags(s[i].flags, r)));
    }
  }

  /** The counts last announced in the current run of mergeable responses are not above the snapshot's. */
  ghost predicate Bounded(s: Snap, rs: seq<Response>) {
    && (LastExists(rs).Some? ==> LastExists(rs).value <= |s|)
    && (LastRecent(rs).Some? ==> LastRecent(rs).value <= RecentCount(s))
  }

  ghost predicate NoRegress(rs: seq<Response>) {
    forall i :: 0 <= i < |rs| ==> !Regresses(rs[..i], rs[i])
  }

  lemma {:induction false} NoRegressSnoc(rs: seq<Response>, r: Response)
    ensures NoRegress(rs + [r]) <==> NoRegress(rs) && !Regresses(rs, r)
  {
    var q := rs + [r];
    assert forall i :: 0 <= i < |rs| ==> q[..i] == rs[..i] && q[i] == rs[i];
    assert q[..|rs|] == rs && q[|rs|] == r;
    if NoRegress(q) {
      assert !Regresses(q[..|rs|], q[|rs|]);
      forall i | 0 <= i < |rs| ensures !Regresses(rs[..i], rs[i]) {
        assert !Regresses(q[..i], q[i]);
      }
    } else {
      var i :| 0 <= i < |q| && Regresses(q[..i], q[i]);
      assert i < |rs| ==> Regresses(rs[..i], rs[i]);
    }
  }

  lemma {:induction false} AnnounceNoRegress(t: Snap, before: seq<Response>)
    requires Bounded(t, before) && NoRegress(before)
    ensures Bounded(t, before + Announce(t)) && NoRegress(before + Announce(t))
  {
    var one := before + [Exists(|t|)];
    assert one[..|before|] == before;
    NoRegressSnoc(before, Exists(|t|));
    if RecentCount(t) > 0 {
      var two := one + [Recent(RecentCount(t))];
      assert two[..|one|] == one && two == before + Announce(t);
      NoRegressSnoc(one, Recent(RecentCount(t)));
    } else {
      assert one == before + Announce(t);
    }
  }

  lemma {:induction false} OtherNoRegress(t: Snap, before: seq<Response>, r: Response)
    requires NoRegress(before) && (r.Expunge? || (r.Fetch? && Bounded(t, before)))
    ensures Bounded(t, before + [r]) && NoRegress(before + [r])
  {
    assert (before + [r])[..|before|] == before;
    NoRegressSnoc(before, r);
  }

  lemma {:induction false} HandleNoRegress(s: Snap, r: Responder, sid: StateId, before: seq<Response>)
    requires Valid(s) && Bounded(s, before) && NoRegress(before) && Handle(s, r, sid, false).Done?
    ensures var o := Handle(s, r, sid, false);
            Bounded(o.snap, before + o.responses) && NoRegress(before + o.responses)
  {
    var o := Handle(s, r, sid, false);
    if !r.ExpungeMsg? { HandleGrows(s, r, sid, false); }
    if o.responses == [] {
      assert before + o.responses == before;
    } else if r.TargetedExists? {
      AnnounceNoRegress(o.snap, before);
    } else {
      OtherNoRegress(o.snap, before, o.responses[0]);
      assert o.responses == [o.responses[0]];
    }
  }

  lemma {:induction false} HandleAllNoRegress(s: Snap, rs: seq<Responder>, sid: StateId)
    requires Valid(s)
    ensures var b := HandleAll(s, rs, sid, false);
            Bounded(b.snap, b.responses) && NoRegress(b.responses)
  {
    if |rs| > 0 {
      var n := |rs| - 1;
      HandleAllNoRegress(s, rs[..n], sid);
      HandleAllValid(s, rs[..n], sid, false);
      var b := HandleAll(s, rs[..n], sid, false);
      if b.status == Ok && Handle(b.snap, rs[n], sid, false).Done? {
        HandleNoRegress(b.snap, rs[n], sid, b.responses);
      }
    }
  }

  /** Outside CLOSE, merging the responses of any batch never panics. */
  lemma {:induction false} FlushNeverPanics(s: Snap, rs: seq<Responder>, sid: StateId)
    requires Valid(s)
    ensures MergeAll(HandleAll(s, rs, sid, false).responses).Some?
  {
    HandleAllNoRegress(s, rs, sid);
    MergePanicsIff(HandleAll(s, rs, sid, false).responses);
  }

  /** Between two responses that never merge, every EXISTS announces more messages than the one before it. */
  ghost predicate Rises(rs: seq<Response>) {
    forall i :: 0 <= i < |rs| && rs[i].Exists? && LastExists(rs[..i]).Some? ==> LastExists(rs[..i]).value < rs[i].count
  }

  lemma {:induction false} RisesSnoc(rs: seq<Response>, r: Response)
    requires Rises(rs) && (r.Exists? && LastExists(rs).Some? ==> LastExists(rs).value < r.count)
    ensures Rises(rs + [r])
  {
    var q := rs + [r];
    forall i | 0 <= i < |q| && q[i].Exists? && LastExists(q[..i]).Some? ensures LastExists(q[..i]).value < q[i].count {
      assert q[..i] == rs[..i];
      assert i == |rs| ==> rs[..i] == rs;
    }
  }

  lemma {:induction false} HandleRises(s: Snap, r: Responder, sid: StateId, before: seq<Response>)
    requires Bounded(s, before) && Rises(before) && Handle(s, r, sid, false).Done?
    ensures Rises(before + Handle(s, r, sid, false).responses)
  {
    var o := Handle(s, r, sid, false);
    if o.responses == [] {
      assert before + o.responses == before;
    } else {
      RisesSnoc(before, o.responses[0]);
      if |o.responses| == 1 {
        assert o.responses == [o.responses[0]];
      } else {
        RisesSnoc(before + [o.responses[0]], o.responses[1]);
        assert before + o.responses == before + [o.responses[0]] + [o.responses[1]];
      }
    }
  }

  /** Outside CLOSE, EXISTS counts strictly increase between two EXPUNGE responses. */
  lemma {:induction false} ExistsRise(s: Snap, rs: seq<Responder>, sid: StateId)
    requires Valid(s)
    ensures Rises(HandleAll(s, rs, sid, false).responses)
  {
    if |rs| > 0 {
      var n := |rs| - 1;
      ExistsRise(s, rs[..n], sid);
      HandleAllNoRegress(s, rs[..n], sid);
      var b := HandleAll(s, rs[..n], sid, false);
      if b.status == Ok && Handle(b.snap, rs[n], sid, false).Done? {
        HandleRises(b.snap, rs[n], sid, b.responses);
      }
    }
  }
}

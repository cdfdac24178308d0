/** internal/state/state.go: the queue of pending responders and what holding expunges back does to it. */
module Deferral {
  import opened Base
  import opened Snapshot
  import opened Responders

  /** The lists popResponders builds, and the IDs whose next EXISTS must wait for their EXPUNGE. */
  datatype Sifted = Sifted(pop: seq<Responder>, rem: seq<Responder>, skip: set<MessageId>)

  function SiftOne(x: Sifted, r: Responder): Sifted {
    match r
    case ExpungeMsg(id) => Sifted(x.pop, x.rem + [r], x.skip + {id})
    case TargetedExists(id, _, _, _, _, _) =>
      if id in x.skip then Sifted(x.pop, x.rem + [r], x.skip - {id}) else x.(pop := x.pop + [r])
    case FetchFlags(_, _, _, _, _, _) => x.(pop := x.pop + [r])
  }

  function Sift(q: seq<Responder>): Sifted {
    if |q| == 0 then Sifted([], [], {}) else SiftOne(Sift(q[..|q| - 1]), q[|q| - 1])
  }

  function Popped(q: seq<Responder>, permitExpunge: bool): seq<Responder> {
    if permitExpunge then q else Sift(q).pop
  }

  function Kept(q: seq<Responder>, permitExpunge: bool): seq<Responder> {
    if permitExpunge then [] else Sift(q).rem
  }

  predicate Expunges(rs: seq<Responder>, id: MessageId) {
    ExpungeMsg(id) in rs
  }

  lemma {:induction false} TrackSnoc(o: Option<Uid>, rs: seq<Responder>, r: Responder, id: MessageId)
    ensures Track(o, rs + [r], id) == TrackOne(Track(o, rs, id), r, id)
  {
    assert (rs + [r])[..|rs|] == rs;
  }

  /**
   * For one message, whose in-order fate is t: once its EXPUNGE is held back, what is kept decides its fate whatever
   * was popped before; until then nothing about it is kept.
   */
  ghost predicate Decided(x: Sifted, o: Option<Uid>, start: Option<Uid>, t: Option<Uid>, id: MessageId) {
    && (Expunges(x.rem, id) ==> Track(start, x.rem, id) == t && (t.None? <==> id in x.skip))
    && (!Expunges(x.rem, id) ==> Track(start, x.rem, id) == start && Track(o, x.pop, id) == t && id !in x.skip)
  }

  lemma {:induction false} SiftOneDecides(
    x: Sifted, o: Option<Uid>, start: Option<Uid>, t: Option<Uid>, r: Responder, id: MessageId)
    requires Decided(x, o, start, t, id)
    ensures Decided(SiftOne(x, r), o, start, TrackOne(t, r, id), id)
  {
    hide Track;
    TrackSnoc(start, x.rem, r, id);
    TrackSnoc(o, x.pop, r, id);
    assert Expunges(x.rem + [r], id) <==> Expunges(x.rem, id) || r == ExpungeMsg(id);
  }

  lemma {:induction false} SiftTracks(o: Option<Uid>, start: Option<Uid>, q: seq<Responder>, id: MessageId)
    ensures Decided(Sift(q), o, start, Track(o, q, id), id)
  {
    if |q| > 0 {
      SiftTracks(o, start, q[..|q| - 1], id);
      SiftOneDecides(Sift(q[..|q| - 1]), o, start, Track(o, q[..|q| - 1], id), q[|q| - 1], id);
    }
  }

  /** Handling the popped responders and later the kept ones treats every message as handling the queue in order. */
  lemma {:induction false} SiftLosesNothing(o: Option<Uid>, q: seq<Responder>, id: MessageId)
    ensures Track(Track(o, Sift(q).pop, id), Sift(q).rem, id) == Track(o, q, id)
  {
    SiftTracks(o, Track(o, Sift(q).pop, id), q, id);
  }

  lemma {:induction false} SiftParts(q: seq<Responder>)
    ensures forall r :: r in Sift(q).pop ==> r in q && !r.ExpungeMsg?
    ensures forall r :: r in Sift(q).rem ==> r in q && !r.FetchFlags?
  {
    if |q| > 0 {
      SiftParts(q[..|q| - 1]);
    }
  }

  /** A second flush without EXPUNGE finds nothing to pop and keeps the same queue. */
  lemma {:induction false} SiftIdempotent(q: seq<Responder>)
    ensures Sift(Sift(q).rem) == Sifted([], Sift(q).rem, Sift(q).skip)
  {
    if |q| > 0 {
      var front, r := q[..|q| - 1], q[|q| - 1];
      SiftIdempotent(front);
      var rem := Sift(front).rem;
      assert (rem + [r])[..|rem|] == rem;
    }
  }

  // ----- whole runs of one session

  datatype Session = Session(snap: Snap, queue: seq<Responder>, idle: bool)

  datatype Step =
    | Push(rs: seq<Responder>)
    | Flush(permitExpunge: bool)
    | BeginIdle
    | EndIdle

  /** None when handling a responder fails. While idling, responders are handled as they arrive. */
  function Advance(x: Session, step: Step, sid: StateId): Option<Session> {
    match step
    case Push(rs) =>
      if !x.idle then Some(x.(queue := x.queue + rs)) else
      var b := HandleAll(x.snap, rs, sid, false);
      if b.status == Ok then Some(x.(snap := b.snap)) else None
    case Flush(permit) =>
      var b := HandleAll(x.snap, Popped(x.queue, permit), sid, false);
      if b.status == Ok then Some(x.(snap := b.snap, queue := Kept(x.queue, permit))) else None
    case BeginIdle =>
      var b := HandleAll(x.snap, x.queue, sid, false);
      if b.status == Ok then Some(Session(b.snap, [], true)) else None
    case EndIdle => Some(x.(idle := false))
  }

  function Run(x: Session, steps: seq<Step>, sid: StateId): Option<Session> {
    if |steps| == 0 then Some(x) else
    match Run(x, steps[..|steps| - 1], sid)
    case None => None
    case Some(y) => Advance(y, steps[|steps| - 1], sid)
  }

  function Arriving(step: Step): seq<Responder> {
    if step.Push? then step.rs else []
  }

  /** Every responder pushed during the run, in order. */
  function History(steps: seq<Step>): seq<Responder> {
    if |steps| == 0 then [] else History(steps[..|steps| - 1]) + Arriving(steps[|steps| - 1])
  }

  ghost predicate Sound(x: Session) {
    Valid(x.snap) && (x.idle ==> x.queue == [])
  }

  /** What a message's membership will be once everything pending is handled. */
  function Fate(x: Session, id: MessageId): Option<Uid> {
    Track(Lookup(x.snap, id), x.queue, id)
  }

  lemma {:induction false} AdvanceKeepsFate(x: Session, step: Step, sid: StateId, id: MessageId)
    requires Sound(x) && Advance(x, step, sid).Some?
    ensures Sound(Advance(x, step, sid).value)
    ensures Fate(Advance(x, step, sid).value, id) == Track(Fate(x, id), Arriving(step), id)
  {
    var o := Lookup(x.snap, id);
    match step
    case Push(rs) =>
      if x.idle {
        HandleAllValid(x.snap, rs, sid, false);
        HandleAllTracks(x.snap, rs, sid, false, id);
      } else {
        TrackConcat(o, x.queue, rs, id);
      }
    case Flush(permit) =>
      var pop := Popped(x.queue, permit);
      HandleAllValid(x.snap, pop, sid, false);
      HandleAllTracks(x.snap, pop, sid, false, id);
      SiftLosesNothing(o, x.queue, id);
    case BeginIdle =>
      HandleAllValid(x.snap, x.queue, sid, false);
      HandleAllTracks(x.snap, x.queue, sid, false, id);
    case EndIdle =>
  }

  lemma {:induction false} TrackAppended(
    o: Option<Uid>, q: seq<Responder>, h: seq<Responder>, more: seq<Responder>, id: MessageId)
    ensures Track(o, q + (h + more), id) == Track(Track(o, q + h, id), more, id)
  {
    TrackConcat(o, q + h, more, id);
    assert q + (h + more) == (q + h) + more;
  }

  /** In every run, what is in the snapshot plus what is pending accounts for every responder that arrived. */
  lemma {:induction false} RunKeepsFate(x: Session, steps: seq<Step>, sid: StateId, id: MessageId)
    requires Sound(x) && Run(x, steps, sid).Some?
    ensures Sound(Run(x, steps, sid).value)
    ensures Fate(Run(x, steps, sid).value, id) == Track(Lookup(x.snap, id), x.queue + History(steps), id)
  {
    if |steps| == 0 {
      assert x.queue + History(steps) == x.queue;
    } else {
      var front, step := steps[..|steps| - 1], steps[|steps| - 1];
      RunKeepsFate(x, front, sid, id);
      AdvanceKeepsFate(Run(x, front, sid).value, step, sid, id);
      TrackAppended(Lookup(x.snap, id), x.queue, History(front), Arriving(step), id);
    }
  }

  // ----- equal membership means equal lists

  function Pairs(s: Snap): (p: seq<(MessageId, Uid)>)
    ensures |p| == |s| && forall i :: 0 <= i < |s| ==> p[i] == (s[i].id, s[i].uid)
  {
    seq(|s|, i requires 0 <= i < |s| => (s[i].id, s[i].uid))
  }

  /** The message at position i of s, found by its UID in t. */
  lemma {:induction false} FoundIn(s: Snap, t: Snap, i: nat) returns (k: nat)
    requires Valid(s) && Valid(t) && i < |s| && Lookup(t, s[i].id) == Lookup(s, s[i].id)
    ensures k < |t| && t[k].id == s[i].id && t[k].uid == s[i].uid
  {
    LookupAt(s, i);
    k := IndexOf(t, s[i].id);
  }

  lemma {:induction false} SameBelow(s: Snap, t: Snap, i: nat)
    requires Valid(s) && Valid(t) && forall id :: Lookup(s, id) == Lookup(t, id)
    requires i <= |s|
    ensures i <= |t| && forall j :: 0 <= j < i ==> s[j].id == t[j].id && s[j].uid == t[j].uid
  {
    if i > 0 {
      SameBelow(s, t, i - 1);
      var k := FoundIn(s, t, i - 1);
      assert k >= i - 1;
      var l := FoundIn(t, s, i - 1);
      assert l >= i - 1;
    }
  }

  lemma {:induction false} SameMembersSameList(s: Snap, t: Snap)
    requires Valid(s) && Valid(t) && forall id :: Lookup(s, id) == Lookup(t, id)
    ensures Pairs(s) == Pairs(t)
  {
    SameBelow(s, t, |s|);
    SameBelow(t, s, |t|);
  }

  /**
   * Deferring expunges loses nothing: a run that has handled everything leaves the same messages, with the same UIDs
   * at the same sequence numbers, as handling all arrivals in order.
   */
  lemma {:induction false} DeferralIsInvisible(x: Session, steps: seq<Step>, sid: StateId)
    requires Sound(x) && Run(x, steps, sid).Some? && Run(x, steps, sid).value.queue == []
    requires HandleAll(x.snap, x.queue + History(steps), sid, false).status == Ok
    ensures Pairs(Run(x, steps, sid).value.snap) == Pairs(HandleAll(x.snap, x.queue + History(steps), sid, false).snap)
  {
    var all := x.queue + History(steps);
    var y, b := Run(x, steps, sid).value, HandleAll(x.snap, all, sid, false);
    HandleAllValid(x.snap, all, sid, false);
    forall id ensures Lookup(y.snap, id) == Lookup(b.snap, id) {
      RunKeepsFate(x, steps, sid, id);
      HandleAllTracks(x.snap, all, sid, false, id);
    }
    RunKeepsFate(x, steps, sid, 0);
    SameMembersSameList(y.snap, b.snap);
  }

  // ----- runs without arrivals of the session's own never fail

  ghost predicate AllOwned(owner: Uid -> MessageId, rs: seq<Responder>, sid: StateId) {
    forall r :: r in rs ==> Owned(owner, r) && Foreign(r, sid)
  }

  lemma {:induction false} RunSucceeds(owner: Uid -> MessageId, x: Session, steps: seq<Step>, sid: StateId)
    requires Sound(x) && OwnedSnap(owner, x.snap) && AllOwned(owner, x.queue + History(steps), sid)
    ensures Run(x, steps, sid).Some?
    ensures OwnedSnap(owner, Run(x, steps, sid).value.snap)
    ensures forall r :: r in Run(x, steps, sid).value.queue ==> r in x.queue + History(steps)
  {
    if |steps| > 0 {
      var front, step := steps[..|steps| - 1], steps[|steps| - 1];
      assert forall r :: r in x.queue + History(front) ==> r in x.queue + History(steps);
      RunSucceeds(owner, x, front, sid);
      RunKeepsFate(x, front, sid, 0);
      var y := Run(x, front, sid).value;
      match step
      case Push(rs) => HandleAllSucceeds(owner, y.snap, if y.idle then rs else [], sid, false);
      case Flush(permit) =>
        SiftParts(y.queue);
        HandleAllSucceeds(owner, y.snap, Popped(y.queue, permit), sid, false);
      case BeginIdle => HandleAllSucceeds(owner, y.snap, y.queue, sid, false);
      case EndIdle =>
    }
  }

  /** When every UID belongs to one message and the session appends nothing itself, no hypothesis on the run is left. */
  lemma {:induction false} ForeignRunsConverge(owner: Uid -> MessageId, x: Session, steps: seq<Step>, sid: StateId)
    requires Sound(x) && OwnedSnap(owner, x.snap) && AllOwned(owner, x.queue + History(steps), sid)
    ensures Run(x, steps + [Flush(true)], sid).Some?
    ensures Pairs(Run(x, steps + [Flush(true)], sid).value.snap)
         == Pairs(HandleAll(x.snap, x.queue + History(steps), sid, false).snap)
  {
    var all := steps + [Flush(true)];
    assert all[..|steps|] == steps;
    assert History(all) == History(steps);
    RunSucceeds(owner, x, all, sid);
    HandleAllSucceeds(owner, x.snap, x.queue + History(steps), sid, false);
    DeferralIsInvisible(x, all, sid);
  }

  // ----- the session's own arrivals

  lemma {:induction false} HandleAllOne(s: Snap, r: Responder, sid: StateId, isClose: bool)
    ensures HandleAll(s, [r], sid, isClose) == Proceed(Batch(s, [], Ok), Handle(s, r, sid, isClose))
  {
    assert [r][..0] == [];
  }

  lemma {:induction false} SiftReturn(e: Responder, back: Responder, other: Responder)
    requires e.ExpungeMsg? && back.TargetedExists? && other.TargetedExists? && back.id == e.id && other.id != e.id
    ensures Sift([e] + [back] + [other]) == Sifted([other], [e] + [back], {})
  {
    assert [e][..0] == [] && ([e] + [back])[..1] == [e] && ([e] + [back] + [other])[..2] == [e] + [back];
    assert Sift([e]) == Sifted([], [e], {e.id});
    assert Sift([e] + [back]) == Sifted([], [e] + [back], {});
  }

  lemma {:induction false} ExpungeFirst(m: Msg, rest: Snap, sid: StateId)
    requires Valid([m] + rest)
    ensures HandleAll([m] + rest, [ExpungeMsg(m.id)], sid, false).snap == rest
    ensures HandleAll([m] + rest, [ExpungeMsg(m.id)], sid, false).status == Ok
  {
    HandleAllOne([m] + rest, ExpungeMsg(m.id), sid, false);
    assert ([m] + rest)[0].id == m.id;
    assert RemoveMsg([m] + rest, m.id) == rest;
  }

  lemma {:induction false} StrictOne(s: Snap, r: Responder, sid: StateId)
    requires Valid(s) && |s| <= 1 && r.TargetedExists? && r.origin == Some(sid) && !Has(s, r.id)
    ensures HandleAll(s, [r], sid, false).status == if |s| == 1 && s[0].uid >= r.uid then FailedOutOfOrder else Ok
    ensures HandleAll(s, [r], sid, false).status == Ok ==>
      HandleAll(s, [r], sid, false).snap == s + [Arrived(r, sid)] && Valid(s + [Arrived(r, sid)])
  {
    HandleAllOne(s, r, sid, false);
    HandleAllValid(s, [r], sid, false);
  }

  lemma {:induction false} RunTwo(x: Session, y: Session, a: Step, b: Step, sid: StateId)
    requires Advance(x, a, sid) == Some(y)
    ensures Run(x, [a] + [b], sid) == Advance(y, b, sid)
  {
    assert ([a] + [b])[..1] == [a] && [a][..0] == [];
    assert Run(x, [a], sid) == Some(y);
  }

  /** A message that is expunged and comes back, and another that arrives after it, both from the session itself. */
  ghost predicate ReturnThenArrival(m: Msg, back: Responder, other: Responder, sid: StateId) {
    && Marked(m) && back.TargetedExists? && other.TargetedExists? && back.origin == other.origin == Some(sid)
    && back.id == m.id && other.id != m.id && m.uid < back.uid < other.uid
  }

  lemma {:induction false} InOrderSucceeds(m: Msg, back: Responder, other: Responder, sid: StateId)
    requires ReturnThenArrival(m, back, other, sid)
    ensures HandleAll([m], [ExpungeMsg(m.id)] + [back] + [other], sid, false).status == Ok
  {
    var e := ExpungeMsg(m.id);
    assert [m] + [] == [m] && [] + [Arrived(back, sid)] == [Arrived(back, sid)];
    ExpungeFirst(m, [], sid);
    StrictOne([], back, sid);
    StrictOne([Arrived(back, sid)], other, sid);
    HandleAllConcat([m], [e], [back], sid, false);
    HandleAllConcat([m], [e] + [back], [other], sid, false);
  }

  lemma {:induction false} DeferredFails(m: Msg, back: Responder, m2: Msg, sid: StateId)
    requires back.TargetedExists? && back.origin == Some(sid) && back.id == m.id && back.uid < m2.uid && m2.id != m.id
    requires Valid([m] + [m2])
    ensures HandleAll([m] + [m2], [ExpungeMsg(m.id)] + [back], sid, false).status == FailedOutOfOrder
  {
    ExpungeFirst(m, [m2], sid);
    HandleAllConcat([m] + [m2], [ExpungeMsg(m.id)], [back], sid, false);
    assert Valid([m2]) by { assert [m2][0] == ([m] + [m2])[1]; }
    StrictOne([m2], back, sid);
  }

  /**
   * The session's own arrivals take the strict insert, and there deferral does lose: a message that is expunged and
   * comes back, followed by another arrival, is handled in order without error, but once it was deferred the flush
   * that handles it fails.
   */
  lemma {:induction false} StrictInsertCanFailAfterDeferral(m: Msg, back: Responder, other: Responder, sid: StateId)
    requires ReturnThenArrival(m, back, other, sid)
    ensures var x := Session([m], [ExpungeMsg(m.id)] + [back] + [other], false);
            && HandleAll(x.snap, x.queue, sid, false).status == Ok
            && Run(x, [Flush(false)] + [Flush(true)], sid).None?
  {
    var e, m2 := ExpungeMsg(m.id), Arrived(other, sid);
    var x, y := Session([m], [e] + [back] + [other], false), Session([m] + [m2], [e] + [back], false);
    InOrderSucceeds(m, back, other, sid);
    SiftReturn(e, back, other);
    StrictOne([m], other, sid);
    DeferredFails(m, back, m2, sid);
    RunTwo(x, y, Flush(false), Flush(true), sid);
  }

  // ----- exactly which runs succeed

  /** At its turn, a new arrival finds no message with its UID, or, on the strict path, none at or above it. */
  ghost predicate Fits(s: Snap, rs: seq<Responder>, i: nat, sid: StateId)
    requires i < |rs|
  {
    var r := rs[i];
    r.TargetedExists? && Track(Lookup(s, r.id), rs[..i], r.id).None? ==>
      forall id :: Clears(Track(Lookup(s, id), rs[..i], id), r, sid)
  }

  predicate Clears(o: Option<Uid>, r: Responder, sid: StateId)
    requires r.TargetedExists?
  {
    o.None? || (if r.origin == Some(sid) then o.value < r.uid else o.value != r.uid)
  }

  lemma {:induction false} ArrivalSucceedsIff(s: Snap, r: Responder, sid: StateId)
    requires Valid(s) && r.TargetedExists? && !Has(s, r.id)
    ensures HandleExists(s, r, sid).Done? <==> forall id :: Clears(Lookup(s, id), r, sid)
  {
    forall i: nat | i < |s| ensures Lookup(s, s[i].id) == Some(s[i].uid) {
      LookupAt(s, i);
    }
    if forall id :: Clears(Lookup(s, id), r, sid) {
      if |s| > 0 {
        assert Clears(Lookup(s, s[|s| - 1].id), r, sid);
      }
      forall i | 0 <= i < |s| ensures r.origin == Some(sid) || s[i].uid != r.uid {
        assert Clears(Lookup(s, s[i].id), r, sid);
      }
    } else {
      var id :| !Clears(Lookup(s, id), r, sid);
      var i := IndexOf(s, id);
      assert i < |s| - 1 ==> s[i].uid < s[|s| - 1].uid;
    }
  }

  /** A batch succeeds exactly when every arrival fits, which the queue and the first snapshot decide. */
  lemma {:induction false} BatchSucceedsIff(s: Snap, rs: seq<Responder>, sid: StateId)
    requires Valid(s)
    ensures HandleAll(s, rs, sid, false).status == Ok <==> forall i :: 0 <= i < |rs| ==> Fits(s, rs, i, sid)
  {
    if |rs| > 0 {
      var n := |rs| - 1;
      var front, b := rs[..n], HandleAll(s, rs[..n], sid, false);
      hide Fits, Handle;
      BatchSucceedsIff(s, front, sid);
      FitsInFront(s, rs, sid);
      if b.status == Ok {
        LastFits(s, rs, sid);
        assert forall i :: 0 <= i < n ==> Fits(s, front, i, sid);
      } else {
        var i :| 0 <= i < n && !Fits(s, front, i, sid);
        assert !Fits(s, rs, i, sid);
      }
    }
  }

  lemma {:induction false} FitsInFront(s: Snap, rs: seq<Responder>, sid: StateId)
    requires |rs| > 0
    ensures forall i :: 0 <= i < |rs| - 1 ==> (Fits(s, rs[..|rs| - 1], i, sid) <==> Fits(s, rs, i, sid))
  {
    var front := rs[..|rs| - 1];
    forall i | 0 <= i < |front| ensures Fits(s, front, i, sid) <==> Fits(s, rs, i, sid) {
      assert front[..i] == rs[..i];
    }
  }

  lemma {:induction false} LastFits(s: Snap, rs: seq<Responder>, sid: StateId)
    requires Valid(s) && |rs| > 0 && HandleAll(s, rs[..|rs| - 1], sid, false).status == Ok
    ensures HandleAll(s, rs, sid, false).status == Ok <==> Fits(s, rs, |rs| - 1, sid)
  {
    var front, r := rs[..|rs| - 1], rs[|rs| - 1];
    var t := HandleAll(s, front, sid, false).snap;
    HandleAllValid(s, front, sid, false);
    forall id ensures Lookup(t, id) == Track(Lookup(s, id), front, id) {
      HandleAllTracks(s, front, sid, false, id);
    }
    if r.TargetedExists? {
      assert Has(t, r.id) <==> Lookup(t, r.id).Some?;
      if !Has(t, r.id) {
        ArrivalSucceedsIff(t, r, sid);
      }
    }
  }

  /** The order in which a run hands responders to the snapshot; the snapshot has no say in it. */
  datatype Plan = Plan(order: seq<Responder>, queue: seq<Responder>, idle: bool)

  function PlanStep(p: Plan, step: Step): Plan {
    match step
    case Push(rs) => if p.idle then p.(order := p.order + rs) else p.(queue := p.queue + rs)
    case Flush(permit) => p.(order := p.order + Popped(p.queue, permit), queue := Kept(p.queue, permit))
    case BeginIdle => Plan(p.order + p.queue, [], true)
    case EndIdle => p.(idle := false)
  }

  function PlanAll(x: Session, steps: seq<Step>): Plan {
    if |steps| == 0 then Plan([], x.queue, x.idle)
    else PlanStep(PlanAll(x, steps[..|steps| - 1]), steps[|steps| - 1])
  }

  /** Handling a plan's order on the snapshot. */
  function Carried(x: Session, p: Plan, sid: StateId): Option<Session> {
    var b := HandleAll(x.snap, p.order, sid, false);
    if b.status == Ok then Some(Session(b.snap, p.queue, p.idle)) else None
  }

  lemma {:induction false} PlanStepFollowed(x: Session, p: Plan, step: Step, sid: StateId)
    ensures Carried(x, PlanStep(p, step), sid) ==
            if Carried(x, p, sid).Some? then Advance(Carried(x, p, sid).value, step, sid) else None
  {
    var more := match step
                case Push(rs) => if p.idle then rs else []
                case Flush(permit) => Popped(p.queue, permit)
                case BeginIdle => p.queue
                case EndIdle => [];
    HandleAllConcat(x.snap, p.order, more, sid, false);
    assert more == [] ==> p.order + more == p.order;
  }

  lemma {:induction false} RunFollowsPlan(x: Session, steps: seq<Step>, sid: StateId)
    ensures Run(x, steps, sid) == Carried(x, PlanAll(x, steps), sid)
  {
    if |steps| > 0 {
      var front := steps[..|steps| - 1];
      RunFollowsPlan(x, front, sid);
      PlanStepFollowed(x, PlanAll(x, front), steps[|steps| - 1], sid);
    }
  }

  lemma {:induction false} RunQueue(x: Session, steps: seq<Step>, sid: StateId)
    requires Run(x, steps, sid).Some?
    ensures Run(x, steps, sid).value.queue == PlanAll(x, steps).queue
    ensures Run(x, steps, sid).value.idle == PlanAll(x, steps).idle
  {
    RunFollowsPlan(x, steps, sid);
  }

  /** A run succeeds exactly when every arrival fits at its turn in the order the run handles them. */
  lemma {:induction false} RunSucceedsIff(x: Session, steps: seq<Step>, sid: StateId)
    requires Sound(x)
    ensures var order := PlanAll(x, steps).order;
            Run(x, steps, sid).Some? <==> forall i :: 0 <= i < |order| ==> Fits(x.snap, order, i, sid)
  {
    RunFollowsPlan(x, steps, sid);
    BatchSucceedsIff(x.snap, PlanAll(x, steps).order, sid);
  }
}

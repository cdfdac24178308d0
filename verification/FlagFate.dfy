/** What holding expunges back does to flags: the whole message, not only its UID, followed through a run. */
module FlagFate {
  import opened Base
  import opened Snapshot
  import opened Responders
  import opened Deferral

  /** The message with the ID as the snapshot holds it. */
  function Held(s: Snap, id: MessageId): Option<Msg> {
    if Has(s, id) then Some(s[IndexOf(s, id)]) else None
  }

  /** The effect of one responder on one message. */
  function TraceOne(o: Option<Msg>, r: Responder, sid: StateId, id: MessageId): Option<Msg> {
    if r.id != id then o
    else match r
      case TargetedExists(_, _, _, _, _, _) => if o.Some? then o else Some(Arrived(r, sid))
      case ExpungeMsg(_) => None
      case FetchFlags(_, _, _, _, _, _) =>
        if o.Some? then Some(WithFlags(o.value, NewFlags(o.value.flags, r))) else None
  }

  function Trace(o: Option<Msg>, rs: seq<Responder>, sid: StateId, id: MessageId): Option<Msg> {
    if |rs| == 0 then o else TraceOne(Trace(o, rs[..|rs| - 1], sid, id), rs[|rs| - 1], sid, id)
  }

  lemma {:induction false} TraceSnoc(o: Option<Msg>, rs: seq<Responder>, r: Responder, sid: StateId, id: MessageId)
    ensures Trace(o, rs + [r], sid, id) == TraceOne(Trace(o, rs, sid, id), r, sid, id)
  {
    assert (rs + [r])[..|rs|] == rs;
  }

  lemma {:induction false} TraceConcat(
    o: Option<Msg>, a: seq<Responder>, b: seq<Responder>, sid: StateId, id: MessageId)
    ensures Trace(o, a + b, sid, id) == Trace(Trace(o, a, sid, id), b, sid, id)
  {
    if |b| == 0 {
      assert a + b == a;
    } else {
      assert (a + b)[..|a + b| - 1] == a + b[..|b| - 1];
      TraceConcat(o, a, b[..|b| - 1], sid, id);
    }
  }

  // ----- the snapshot holds what the trace says

  lemma {:induction false} HeldAt(s: Snap, i: nat)
    requires DistinctIds(s) && i < |s|
    ensures Held(s, s[i].id) == Some(s[i])
  {
    LookupAt(s, i);
  }

  lemma {:induction false} InsertHolds(s: Snap, m: Msg, id: MessageId)
    requires Valid(s) && Valid(Insert(s, m)) && !Has(s, m.id)
    ensures Held(Insert(s, m), id) == if id == m.id then Some(m) else Held(s, id)
  {
    var t, p := Insert(s, m), Rank(s, m.uid);
    if id == m.id {
      HeldAt(t, p);
    } else if Has(s, id) {
      var i := IndexOf(s, id);
      HeldAt(t, if i < p then i else i + 1);
    }
  }

  lemma {:induction false} RemoveHolds(s: Snap, x: MessageId, id: MessageId)
    requires Valid(s) && Has(s, x)
    ensures Held(RemoveMsg(s, x), id) == if id == x then None else Held(s, id)
  {
    RemoveValid(s, x);
    if id != x && Has(s, id) {
      var i, p := IndexOf(s, id), IndexOf(s, x);
      HeldAt(RemoveMsg(s, x), if i < p then i else i - 1);
    }
  }

  lemma {:induction false} SetFlagsHolds(s: Snap, r: Responder, sid: StateId, id: MessageId)
    requires Valid(s) && r.FetchFlags? && Has(s, r.id)
    ensures Held(SetFlags(s, r.id, NewFlags(s[IndexOf(s, r.id)].flags, r)), id) == TraceOne(Held(s, id), r, sid, id)
  {
    var i := IndexOf(s, r.id);
    var t := SetFlags(s, r.id, NewFlags(s[i].flags, r));
    SetFlagsValid(s, r.id, NewFlags(s[i].flags, r));
    if Has(s, id) {
      HeldAt(s, IndexOf(s, id));
      HeldAt(t, IndexOf(s, id));
    }
  }

  lemma {:induction false} HandleTraces(s: Snap, r: Responder, sid: StateId, isClose: bool, id: MessageId)
    requires Valid(s) && Handle(s, r, sid, isClose).Done?
    ensures Held(Handle(s, r, sid, isClose).snap, id) == TraceOne(Held(s, id), r, sid, id)
  {
    HandleValid(s, r, sid, isClose);
    match r
    case TargetedExists(_, _, _, _, _, _) =>
      if !Has(s, r.id) {
        if r.origin == Some(sid) { AppendIsInsert(s, Arrived(r, sid)); }
        InsertHolds(s, Arrived(r, sid), id);
      }
    case ExpungeMsg(x) => if Has(s, x) { RemoveHolds(s, x, id); }
    case FetchFlags(_, _, _, _, _, _) => if Has(s, r.id) { SetFlagsHolds(s, r, sid, id); }
  }

  /** What a batch makes of a message is decided by the responders for that message alone. */
  lemma {:induction false} HandleAllTraces(s: Snap, rs: seq<Responder>, sid: StateId, isClose: bool, id: MessageId)
    requires Valid(s) && HandleAll(s, rs, sid, isClose).status == Ok
    ensures Held(HandleAll(s, rs, sid, isClose).snap, id) == Trace(Held(s, id), rs, sid, id)
  {
    if |rs| > 0 {
      var n := |rs| - 1;
      HandleAllTraces(s, rs[..n], sid, isClose, id);
      HandleAllValid(s, rs[..n], sid, isClose);
      HandleTraces(HandleAll(s, rs[..n], sid, isClose).snap, rs[n], sid, isClose, id);
    }
  }

  lemma {:induction false} SameHeldSameList(s: Snap, t: Snap)
    requires Valid(s) && Valid(t)
    ensures s == t <==> forall id :: Held(s, id) == Held(t, id)
  {
    if forall id :: Held(s, id) == Held(t, id) {
      forall id ensures Lookup(s, id) == Lookup(t, id) {
        assert Held(s, id) == Held(t, id);
      }
      SameMembersSameList(s, t);
      assert |Pairs(s)| == |Pairs(t)|;
      forall i | 0 <= i < |s| ensures s[i] == t[i] {
        assert Pairs(s)[i] == Pairs(t)[i];
        HeldAt(s, i);
        HeldAt(t, i);
      }
    }
  }

  // ----- what one flush without EXPUNGE misses

  /** A re-arrival of the message waits behind its EXPUNGE. */
  predicate Waits(x: Sifted, id: MessageId) {
    Expunges(x.rem, id) && id !in x.skip
  }

  /** The flag changes that stand in the queue behind a waiting re-arrival of their message. */
  function Behind(q: seq<Responder>, id: MessageId): seq<Responder> {
    if |q| == 0 then [] else
    var front, r := q[..|q| - 1], q[|q| - 1];
    if r.id != id then Behind(front, id)
    else match r
      case ExpungeMsg(_) => []
      case TargetedExists(_, _, _, _, _, _) => if id in Sift(front).skip then [] else Behind(front, id)
      case FetchFlags(_, _, _, _, _, _) => if Waits(Sift(front), id) then Behind(front, id) + [r] else Behind(front, id)
  }

  /** As Deferral.Decided, for the whole message: t is what handling in order makes of it. */
  ghost predicate Settled(
    x: Sifted, late: seq<Responder>, o: Option<Msg>, start: Option<Msg>, t: Option<Msg>, sid: StateId, id: MessageId) {
    && (Expunges(x.rem, id) ==>
          && (t.None? <==> id in x.skip)
          && (Trace(start, x.rem, sid, id).None? <==> id in x.skip)
          && (id in x.skip ==> late == [])
          && t == Trace(Trace(start, x.rem, sid, id), late, sid, id))
    && (!Expunges(x.rem, id) ==>
          && Trace(start, x.rem, sid, id) == start && Trace(o, x.pop, sid, id) == t && id !in x.skip && late == [])
  }

  lemma {:induction false} SiftOneSettles(
    x: Sifted, q: seq<Responder>, o: Option<Msg>, start: Option<Msg>, t: Option<Msg>, r: Responder, sid: StateId,
    id: MessageId)
    requires x == Sift(q) && Settled(x, Behind(q, id), o, start, t, sid, id)
    ensures Settled(SiftOne(x, r), Behind(q + [r], id), o, start, TraceOne(t, r, sid, id), sid, id)
  {
    hide Trace, Sift;
    assert (q + [r])[..|q|] == q;
    TraceSnoc(start, x.rem, r, sid, id);
    TraceSnoc(o, x.pop, r, sid, id);
    TraceSnoc(Trace(start, x.rem, sid, id), Behind(q, id), r, sid, id);
    TraceNothing(Trace(start, x.rem + [r], sid, id), sid, id);
    assert Expunges(x.rem + [r], id) <==> Expunges(x.rem, id) || r == ExpungeMsg(id);
  }

  lemma {:induction false} TraceNothing(o: Option<Msg>, sid: StateId, id: MessageId)
    ensures Trace(o, [], sid, id) == o
  {
  }

  lemma {:induction false} SiftSettles(
    o: Option<Msg>, start: Option<Msg>, q: seq<Responder>, sid: StateId, id: MessageId)
    ensures Settled(Sift(q), Behind(q, id), o, start, Trace(o, q, sid, id), sid, id)
  {
    if |q| > 0 {
      var front, r := q[..|q| - 1], q[|q| - 1];
      SiftSettles(o, start, front, sid, id);
      SiftOneSettles(Sift(front), front, o, start, Trace(o, front, sid, id), r, sid, id);
      assert front + [r] == q;
    }
  }

  /** Handling the queue in order is handling the popped part, the kept part, then what stood behind a re-arrival. */
  lemma {:induction false} SiftMissesBehind(o: Option<Msg>, q: seq<Responder>, sid: StateId, id: MessageId)
    ensures Trace(o, q, sid, id) ==
            Trace(Trace(Trace(o, Sift(q).pop, sid, id), Sift(q).rem, sid, id), Behind(q, id), sid, id)
  {
    SiftSettles(o, Trace(o, Sift(q).pop, sid, id), q, sid, id);
  }

  /** What the kept part brings back, whatever the snapshot held. */
  function Returned(q: seq<Responder>, sid: StateId, id: MessageId): Option<Msg> {
    Trace(None, Sift(q).rem, sid, id)
  }

  /** The flag changes behind re-arrivals have no effect on the messages that come back. */
  ghost predicate Harmless(q: seq<Responder>, sid: StateId) {
    forall id :: Trace(Returned(q, sid, id), Behind(q, id), sid, id) == Returned(q, sid, id)
  }

  lemma {:induction false} ReturnedWhenBehind(o: Option<Msg>, q: seq<Responder>, sid: StateId, id: MessageId)
    requires Behind(q, id) != []
    ensures Trace(o, Sift(q).rem, sid, id) == Returned(q, sid, id)
  {
    SiftSettles(o, o, q, sid, id);
    KeptDecides(o, None, Sift(q).rem, sid, id);
  }

  /** After an EXPUNGE of the message, it no longer matters what was there before. */
  lemma {:induction false} KeptDecides(o: Option<Msg>, p: Option<Msg>, rs: seq<Responder>, sid: StateId, id: MessageId)
    requires Expunges(rs, id)
    ensures Trace(o, rs, sid, id) == Trace(p, rs, sid, id)
  {
    var front, r := rs[..|rs| - 1], rs[|rs| - 1];
    assert rs == front + [r];
    if r != ExpungeMsg(id) {
      KeptDecides(o, p, front, sid, id);
    }
  }

  /** A flush without EXPUNGE keeps the fate of every message, flags included, exactly when the queue is harmless. */
  lemma {:induction false} SiftKeepsFlagsIff(s: Snap, q: seq<Responder>, sid: StateId)
    ensures Harmless(q, sid) <==>
            forall id ::
              Trace(Trace(Held(s, id), Sift(q).pop, sid, id), Sift(q).rem, sid, id) == Trace(Held(s, id), q, sid, id)
  {
    forall id
      ensures Trace(Returned(q, sid, id), Behind(q, id), sid, id) == Returned(q, sid, id) <==>
              Trace(Trace(Held(s, id), Sift(q).pop, sid, id), Sift(q).rem, sid, id) == Trace(Held(s, id), q, sid, id)
    {
      SiftMissesBehind(Held(s, id), q, sid, id);
      if Behind(q, id) != [] {
        ReturnedWhenBehind(Trace(Held(s, id), Sift(q).pop, sid, id), q, sid, id);
      }
    }
  }

  // ----- whole runs

  function FullFate(x: Session, sid: StateId, id: MessageId): Option<Msg> {
    Trace(Held(x.snap, id), x.queue, sid, id)
  }

  /** The flag changes on a message that a step handles too early. */
  function Missed(q: seq<Responder>, step: Step, id: MessageId): seq<Responder> {
    if step == Flush(false) then Behind(q, id) else []
  }

  /** A step moves the fate of a message on by what arrives, except for what it handles too early. */
  lemma {:induction false} AdvanceTraces(x: Session, step: Step, sid: StateId, id: MessageId)
    requires Sound(x) && Advance(x, step, sid).Some?
    ensures Trace(FullFate(Advance(x, step, sid).value, sid, id), Missed(x.queue, step, id), sid, id) ==
            Trace(FullFate(x, sid, id), Arriving(step), sid, id)
  {
    var o := Held(x.snap, id);
    match step
    case Push(rs) =>
      if x.idle {
        HandleAllTraces(x.snap, rs, sid, false, id);
      } else {
        TraceConcat(o, x.queue, rs, sid, id);
      }
    case Flush(permit) =>
      HandleAllTraces(x.snap, Popped(x.queue, permit), sid, false, id);
      SiftMissesBehind(o, x.queue, sid, id);
    case BeginIdle => HandleAllTraces(x.snap, x.queue, sid, false, id);
    case EndIdle =>
  }

  /** Every flush without EXPUNGE finds a harmless queue; the steps and the first queue decide this. */
  ghost predicate HarmlessRun(x: Session, steps: seq<Step>, sid: StateId) {
    |steps| > 0 ==>
      var front := steps[..|steps| - 1];
      && HarmlessRun(x, front, sid)
      && (steps[|steps| - 1] == Flush(false) ==> Harmless(PlanAll(x, front).queue, sid))
  }

  lemma {:induction false} HarmlessAdvance(x: Session, step: Step, sid: StateId, id: MessageId)
    requires Sound(x) && Advance(x, step, sid).Some? && (step == Flush(false) ==> Harmless(x.queue, sid))
    ensures FullFate(Advance(x, step, sid).value, sid, id) == Trace(FullFate(x, sid, id), Arriving(step), sid, id)
  {
    AdvanceTraces(x, step, sid, id);
    if Missed(x.queue, step, id) != [] {
      HandleAllTraces(x.snap, Sift(x.queue).pop, sid, false, id);
      ReturnedWhenBehind(Held(Advance(x, step, sid).value.snap, id), x.queue, sid, id);
      assert Trace(Returned(x.queue, sid, id), Behind(x.queue, id), sid, id) == Returned(x.queue, sid, id);
    }
  }

  lemma {:induction false} TraceAppended(
    o: Option<Msg>, q: seq<Responder>, h: seq<Responder>, more: seq<Responder>, sid: StateId, id: MessageId)
    ensures Trace(o, q + (h + more), sid, id) == Trace(Trace(o, q + h, sid, id), more, sid, id)
  {
    TraceConcat(o, q + h, more, sid, id);
    assert q + (h + more) == (q + h) + more;
  }

  lemma {:induction false} HarmlessRunKeepsFate(x: Session, steps: seq<Step>, sid: StateId, id: MessageId)
    requires Sound(x) && Run(x, steps, sid).Some? && HarmlessRun(x, steps, sid)
    ensures FullFate(Run(x, steps, sid).value, sid, id) == Trace(Held(x.snap, id), x.queue + History(steps), sid, id)
  {
    if |steps| == 0 {
      assert x.queue + History(steps) == x.queue;
    } else {
      hide Trace, Held, Advance, Harmless, PlanAll, Sound, FullFate, Arriving;
      var front, step := steps[..|steps| - 1], steps[|steps| - 1];
      HarmlessRunKeepsFate(x, front, sid, id);
      RunKeepsFate(x, front, sid, id);
      RunQueue(x, front, sid);
      HarmlessAdvance(Run(x, front, sid).value, step, sid, id);
      TraceAppended(Held(x.snap, id), x.queue, History(front), Arriving(step), sid, id);
    }
  }

  /** A run without harmful flushes that has handled everything leaves the very snapshot of in-order handling. */
  lemma {:induction false} FlagsSurvive(x: Session, steps: seq<Step>, sid: StateId)
    requires Sound(x) && Run(x, steps, sid).Some? && Run(x, steps, sid).value.queue == []
    requires HandleAll(x.snap, x.queue + History(steps), sid, false).status == Ok && HarmlessRun(x, steps, sid)
    ensures Run(x, steps, sid).value.snap == HandleAll(x.snap, x.queue + History(steps), sid, false).snap
  {
    var all := x.queue + History(steps);
    var y, b := Run(x, steps, sid).value, HandleAll(x.snap, all, sid, false);
    HandleAllValid(x.snap, all, sid, false);
    RunKeepsFate(x, steps, sid, 0);
    forall id ensures Held(y.snap, id) == Held(b.snap, id) {
      HarmlessRunKeepsFate(x, steps, sid, id);
      HandleAllTraces(x.snap, all, sid, false, id);
    }
    SameHeldSameList(y.snap, b.snap);
  }

  /** No flag change stands behind a re-arrival: the plainest harmless queue. */
  lemma {:induction false} NothingBehindHarmless(q: seq<Responder>, sid: StateId)
    requires forall id :: Behind(q, id) == []
    ensures Harmless(q, sid)
  {
  }

  lemma {:induction false} NothingBehind(q: seq<Responder>, id: MessageId)
    requires forall r :: r in q ==> !r.FetchFlags?
    ensures Behind(q, id) == []
  {
    if |q| > 0 {
      NothingBehind(q[..|q| - 1], id);
    }
  }

  lemma {:induction false} KeptIsHarmless(q: seq<Responder>, sid: StateId)
    ensures Harmless(Sift(q).rem, sid)
  {
    SiftParts(q);
    forall id ensures Behind(Sift(q).rem, id) == [] {
      NothingBehind(Sift(q).rem, id);
    }
  }

  // ----- exactly when a flush loses flag changes

  lemma {:induction false} RunConcat(x: Session, a: seq<Step>, b: seq<Step>, sid: StateId)
    ensures Run(x, a + b, sid) == if Run(x, a, sid).Some? then Run(Run(x, a, sid).value, b, sid) else None
  {
    if |b| == 0 {
      assert a + b == a;
    } else {
      hide Advance;
      assert (a + b)[..|a + b| - 1] == a + b[..|b| - 1];
      RunConcat(x, a, b[..|b| - 1], sid);
    }
  }

  /** Steps that push nothing leave a kept queue as it is, or empty it. */
  lemma {:induction false} QuietPlan(x: Session, rest: seq<Step>, q: seq<Responder>)
    requires x.queue == Sift(q).rem && History(rest) == []
    ensures PlanAll(x, rest).queue == x.queue || PlanAll(x, rest).queue == []
  {
    if |rest| > 0 {
      var front, step := rest[..|rest| - 1], rest[|rest| - 1];
      assert History(front) == [] && Arriving(step) == [];
      QuietPlan(x, front, q);
      SiftIdempotent(q);
      assert PlanAll(x, front).queue + [] == PlanAll(x, front).queue;
    }
  }

  lemma {:induction false} QuietIsHarmless(x: Session, rest: seq<Step>, q: seq<Responder>, sid: StateId)
    requires x.queue == Sift(q).rem && History(rest) == []
    ensures HarmlessRun(x, rest, sid)
  {
    if |rest| > 0 {
      assert History(rest[..|rest| - 1]) == [];
      QuietIsHarmless(x, rest[..|rest| - 1], q, sid);
      QuietPlan(x, rest[..|rest| - 1], q);
      KeptIsHarmless(q, sid);
      assert Harmless([], sid);
    }
  }

  /**
   * After harmless steps, one flush without EXPUNGE and steps that push nothing, the snapshot is that of in-order
   * handling, flags included, exactly when the flush found a harmless queue.
   */
  lemma {:induction false} FlagsSurviveIff(x: Session, front: seq<Step>, rest: seq<Step>, sid: StateId)
    requires Sound(x) && HarmlessRun(x, front, sid) && History(rest) == []
    requires var steps := front + [Flush(false)] + rest;
             && Run(x, steps, sid).Some? && Run(x, steps, sid).value.queue == []
             && HandleAll(x.snap, x.queue + History(front), sid, false).status == Ok
    ensures Run(x, front + [Flush(false)] + rest, sid).value.snap
              == HandleAll(x.snap, x.queue + History(front), sid, false).snap
       <==> Harmless(PlanAll(x, front).queue, sid)
  {
    var all := x.queue + History(front);
    RunConcat(x, front + [Flush(false)], rest, sid);
    RunConcat(x, front, [Flush(false)], sid);
    var y := Run(x, front, sid).value;
    assert [Flush(false)][..0] == [];
    var z := Advance(y, Flush(false), sid).value;
    assert Run(y, [Flush(false)], sid) == Some(z);
    var w := Run(z, rest, sid).value;
    RunQueue(x, front, sid);
    RunKeepsFate(x, front, sid, 0);
    AdvanceKeepsFate(y, Flush(false), sid, 0);
    RunKeepsFate(z, rest, sid, 0);
    HandleAllValid(x.snap, all, sid, false);
    var b := HandleAll(x.snap, all, sid, false);
    forall id
      ensures Held(w.snap, id) == Trace(Trace(Held(y.snap, id), Sift(y.queue).pop, sid, id), Sift(y.queue).rem, sid, id)
      ensures Held(b.snap, id) == Trace(Held(y.snap, id), y.queue, sid, id)
    {
      AfterFlush(y, z, w, rest, sid, id);
      HarmlessRunKeepsFate(x, front, sid, id);
      HandleAllTraces(x.snap, all, sid, false, id);
    }
    SiftKeepsFlagsIff(y.snap, y.queue, sid);
    SameHeldSameList(w.snap, b.snap);
  }

  lemma {:induction false} AfterFlush(y: Session, z: Session, w: Session, rest: seq<Step>, sid: StateId, id: MessageId)
    requires Sound(y) && Sound(z) && Advance(y, Flush(false), sid) == Some(z)
    requires History(rest) == [] && Run(z, rest, sid) == Some(w) && w.queue == []
    ensures Held(w.snap, id) == Trace(Trace(Held(y.snap, id), Sift(y.queue).pop, sid, id), Sift(y.queue).rem, sid, id)
  {
    QuietIsHarmless(z, rest, y.queue, sid);
    HarmlessRunKeepsFate(z, rest, sid, id);
    assert z.queue + [] == z.queue;
    HandleAllTraces(y.snap, Sift(y.queue).pop, sid, false, id);
  }

  /**
   * Such a loss: a message is expunged and comes back, and a flag change on it follows. The flush handles the change
   * on the copy that is about to go.
   */
  lemma {:induction false} FlagChangeLost(m: Msg, back: Responder, change: Responder, sid: StateId)
    requires Marked(m) && back.TargetedExists? && change.FetchFlags? && m.id == back.id == change.id
    requires back.origin != Some(sid)
    requires WithFlags(Arrived(back, sid), NewFlags(Arrived(back, sid).flags, change)) != Arrived(back, sid)
    ensures var x := Session([m], [ExpungeMsg(m.id)] + [back] + [change], false);
            var y := Run(x, [] + [Flush(false)] + [Flush(true)], sid);
            && Sift(x.queue) == Sifted([change], [ExpungeMsg(m.id)] + [back], {})
            && y.Some? && y.value.queue == [] && HandleAll(x.snap, x.queue, sid, false).status == Ok
            && y.value.snap != HandleAll(x.snap, x.queue, sid, false).snap
  {
    var q := [ExpungeMsg(m.id)] + [back] + [change];
    LossSifts(back, change, sid);
    LossRuns(m, back, change, sid);
    hide Run, HandleAll, Trace, Sift, Behind;
    assert q + History([]) == q;
    FlagsSurviveIff(Session([m], q, false), [], [Flush(true)], sid);
  }

  lemma {:induction false} LossSifts(back: Responder, change: Responder, sid: StateId)
    requires back.TargetedExists? && change.FetchFlags? && back.id == change.id
    requires WithFlags(Arrived(back, sid), NewFlags(Arrived(back, sid).flags, change)) != Arrived(back, sid)
    ensures var q := [ExpungeMsg(back.id)] + [back] + [change];
            Sift(q) == Sifted([change], [ExpungeMsg(back.id)] + [back], {}) && !Harmless(q, sid)
  {
    var e, id := ExpungeMsg(back.id), back.id;
    var q := [e] + [back] + [change];
    assert [e][..0] == [] && ([e] + [back])[..1] == [e] && q[..2] == [e] + [back];
    assert Sift([e]) == Sifted([], [e], {id});
    assert Sift([e] + [back]) == Sifted([], [e] + [back], {});
    assert Behind([e] + [back], id) == [];
    assert Behind(q, id) == [change];
    TraceSnoc(None, [e], back, sid, id);
    TraceSnoc(Returned(q, sid, id), [], change, sid, id);
    assert [] + [change] == [change];
    assert Trace(Returned(q, sid, id), Behind(q, id), sid, id) != Returned(q, sid, id);
  }

  lemma {:induction false} LossRuns(m: Msg, back: Responder, change: Responder, sid: StateId)
    requires Marked(m) && back.TargetedExists? && change.FetchFlags? && m.id == back.id == change.id
    requires back.origin != Some(sid)
    ensures var x := Session([m], [ExpungeMsg(m.id)] + [back] + [change], false);
            var y := Run(x, [] + [Flush(false)] + [Flush(true)], sid);
            && Sound(x) && y.Some? && y.value.queue == [] && History([Flush(true)]) == []
            && HandleAll(x.snap, x.queue, sid, false).status == Ok
  {
    var owner: Uid -> MessageId := _ => m.id;
    var x := Session([m], [ExpungeMsg(m.id)] + [back] + [change], false);
    var steps := [] + [Flush(false)] + [Flush(true)];
    assert [Flush(true)][..0] == [] && steps[..1] == [Flush(false)] && [Flush(false)][..0] == [];
    assert History(steps[..1]) == [] && History(steps) == [] && x.queue + [] == x.queue;
    RunSucceeds(owner, x, steps, sid);
    HandleAllSucceeds(owner, x.snap, x.queue, sid, false);
  }

  // ----- exactly which runs keep the flags

  /**
   * The message since it last arrived: what the arrival brought, the flag changes handled too early since then, and
   * those that were not.
   */
  datatype Ledger = Ledger(base: Option<Msg>, lost: seq<Responder>, later: seq<Responder>)

  function Note(l: Ledger, r: Responder, sid: StateId, id: MessageId): Ledger {
    if r.id != id then l
    else match r
      case ExpungeMsg(_) => Ledger(None, [], [])
      case TargetedExists(_, _, _, _, _, _) => if l.base.Some? then l else Ledger(Some(Arrived(r, sid)), [], [])
      case FetchFlags(_, _, _, _, _, _) => if l.base.Some? then l.(later := l.later + [r]) else l
  }

  function NoteAll(l: Ledger, rs: seq<Responder>, sid: StateId, id: MessageId): Ledger {
    if |rs| == 0 then l else Note(NoteAll(l, rs[..|rs| - 1], sid, id), rs[|rs| - 1], sid, id)
  }

  /** A flush without EXPUNGE handles the changes too early while the message waits to come back. */
  function LedgerStep(l: Ledger, q: seq<Responder>, step: Step, sid: StateId, id: MessageId): Ledger {
    match step
    case Push(rs) => NoteAll(l, rs, sid, id)
    case Flush(permit) => if !permit && Waits(Sift(q), id) then Ledger(l.base, l.lost + l.later, []) else l
    case _ => l
  }

  /** The ledger of a message after a run: the first snapshot, the first queue and the steps decide it. */
  function LedgerAll(x: Session, steps: seq<Step>, sid: StateId, id: MessageId): Ledger {
    if |steps| == 0 then NoteAll(Ledger(Held(x.snap, id), [], []), x.queue, sid, id)
    else
      var front := steps[..|steps| - 1];
      LedgerStep(LedgerAll(x, front, sid, id), PlanAll(x, front).queue, steps[|steps| - 1], sid, id)
  }

  /** What the ledger says the message is in the run. */
  function Reached(l: Ledger, sid: StateId, id: MessageId): Option<Msg> {
    Trace(l.base, l.later, sid, id)
  }

  /** What it says the message is when handled in order. */
  function Due(l: Ledger, sid: StateId, id: MessageId): Option<Msg> {
    Trace(Trace(l.base, l.lost, sid, id), l.later, sid, id)
  }

  lemma {:induction false} TraceFetches(o: Option<Msg>, rs: seq<Responder>, sid: StateId, id: MessageId)
    requires forall r :: r in rs ==> r.FetchFlags?
    ensures Trace(o, rs, sid, id).Some? <==> o.Some?
  {
    if |rs| > 0 {
      assert rs[|rs| - 1] in rs;
      TraceFetches(o, rs[..|rs| - 1], sid, id);
    }
  }

  ghost predicate OnlyChanges(l: Ledger) {
    && (forall r :: r in l.lost + l.later ==> r.FetchFlags?)
    && (l.base.None? ==> l.lost == l.later == [])
  }

  lemma {:induction false} NoteFollows(l: Ledger, r: Responder, sid: StateId, id: MessageId)
    requires OnlyChanges(l)
    ensures OnlyChanges(Note(l, r, sid, id))
    ensures Reached(Note(l, r, sid, id), sid, id) == TraceOne(Reached(l, sid, id), r, sid, id)
    ensures Due(Note(l, r, sid, id), sid, id) == TraceOne(Due(l, sid, id), r, sid, id)
  {
    assert forall x :: x in l.lost || x in l.later ==> x in l.lost + l.later;
    TraceFetches(l.base, l.later, sid, id);
    TraceFetches(l.base, l.lost, sid, id);
    TraceFetches(Trace(l.base, l.lost, sid, id), l.later, sid, id);
    TraceSnoc(l.base, l.later, r, sid, id);
    TraceSnoc(Trace(l.base, l.lost, sid, id), l.later, r, sid, id);
    hide Trace;
    forall o ensures Trace(o, [], sid, id) == o {
      TraceNothing(o, sid, id);
    }
  }

  lemma {:induction false} NoteAllFollows(l: Ledger, rs: seq<Responder>, sid: StateId, id: MessageId)
    requires OnlyChanges(l)
    ensures OnlyChanges(NoteAll(l, rs, sid, id))
    ensures Reached(NoteAll(l, rs, sid, id), sid, id) == Trace(Reached(l, sid, id), rs, sid, id)
    ensures Due(NoteAll(l, rs, sid, id), sid, id) == Trace(Due(l, sid, id), rs, sid, id)
  {
    if |rs| > 0 {
      hide Due, Reached, Note;
      NoteAllFollows(l, rs[..|rs| - 1], sid, id);
      NoteFollows(NoteAll(l, rs[..|rs| - 1], sid, id), rs[|rs| - 1], sid, id);
    }
  }

  /** While the message waits to come back, the ledger holds what the kept queue says of it. */
  ghost predicate Tied(l: Ledger, q: seq<Responder>, sid: StateId, id: MessageId) {
    && (id in Sift(q).skip ==> l.base.None?)
    && (Waits(Sift(q), id) ==> l.base == Returned(q, sid, id) && l.base.Some? && l.later == Behind(q, id))
  }

  lemma {:induction false} NoteTies(l: Ledger, q: seq<Responder>, r: Responder, sid: StateId, id: MessageId)
    requires Tied(l, q, sid, id)
    ensures Tied(Note(l, r, sid, id), q + [r], sid, id)
  {
    hide Trace;
    var x := Sift(q);
    assert (q + [r])[..|q|] == q && Sift(q + [r]) == SiftOne(x, r);
    assert Expunges(x.rem + [r], id) <==> Expunges(x.rem, id) || r == ExpungeMsg(id);
    TraceSnoc(None, x.rem, r, sid, id);
    SiftSettles(None, None, q, sid, id);
  }

  lemma {:induction false} NoteAllTies(l: Ledger, q: seq<Responder>, rs: seq<Responder>, sid: StateId, id: MessageId)
    requires Tied(l, q, sid, id)
    ensures Tied(NoteAll(l, rs, sid, id), q + rs, sid, id)
  {
    if |rs| == 0 {
      assert q + rs == q;
    } else {
      hide Tied, Note;
      var front, r := rs[..|rs| - 1], rs[|rs| - 1];
      NoteAllTies(l, q, front, sid, id);
      NoteTies(NoteAll(l, front, sid, id), q + front, r, sid, id);
      assert (q + front) + [r] == q + rs;
    }
  }

  /** What a message is once the plan's order and then its queue are handled. */
  function Planned(x: Session, p: Plan, sid: StateId, id: MessageId): Option<Msg> {
    Trace(Trace(Held(x.snap, id), p.order, sid, id), p.queue, sid, id)
  }

  lemma {:induction false} NotWaitingNothingBehind(q: seq<Responder>, sid: StateId, id: MessageId)
    requires !Waits(Sift(q), id)
    ensures Behind(q, id) == []
  {
    SiftSettles(None, None, q, sid, id);
  }

  /** The ledger after a flush without EXPUNGE. */
  lemma {:induction false} FlushFollows(l: Ledger, x: Session, p: Plan, sid: StateId, id: MessageId)
    requires OnlyChanges(l) && Tied(l, p.queue, sid, id) && Reached(l, sid, id) == Planned(x, p, sid, id)
    ensures var k, t := LedgerStep(l, p.queue, Flush(false), sid, id), PlanStep(p, Flush(false));
            && OnlyChanges(k) && Tied(k, t.queue, sid, id)
            && Reached(k, sid, id) == Planned(x, t, sid, id) && Due(k, sid, id) == Due(l, sid, id)
  {
    var q, o := p.queue, Trace(Held(x.snap, id), p.order, sid, id);
    TraceConcat(Held(x.snap, id), p.order, Sift(q).pop, sid, id);
    SiftMissesBehind(o, q, sid, id);
    SiftIdempotent(q);
    SiftParts(q);
    NothingBehind(Sift(q).rem, id);
    TraceConcat(l.base, l.lost, l.later, sid, id);
    TraceNothing(l.base, sid, id);
    TraceNothing(Trace(l.base, l.lost + l.later, sid, id), sid, id);
    if Waits(Sift(q), id) {
      KeptDecides(Trace(o, Sift(q).pop, sid, id), None, Sift(q).rem, sid, id);
    } else {
      NotWaitingNothingBehind(q, sid, id);
      TraceNothing(Trace(Trace(o, Sift(q).pop, sid, id), Sift(q).rem, sid, id), sid, id);
    }
  }

  lemma {:induction false} StepFollows(l: Ledger, x: Session, p: Plan, step: Step, sid: StateId, id: MessageId)
    requires OnlyChanges(l) && Tied(l, p.queue, sid, id) && Reached(l, sid, id) == Planned(x, p, sid, id)
    requires p.idle ==> p.queue == []
    ensures var k, t := LedgerStep(l, p.queue, step, sid, id), PlanStep(p, step);
            && OnlyChanges(k) && Tied(k, t.queue, sid, id) && (t.idle ==> t.queue == [])
            && Reached(k, sid, id) == Planned(x, t, sid, id)
            && Due(k, sid, id) == Trace(Due(l, sid, id), Arriving(step), sid, id)
  {
    var h := Held(x.snap, id);
    hide Reached, Due, OnlyChanges;
    TraceNothing(Due(l, sid, id), sid, id);
    match step
    case Push(rs) =>
      NoteAllFollows(l, rs, sid, id);
      if p.idle {
        TraceConcat(h, p.order, rs, sid, id);
      } else {
        NoteAllTies(l, p.queue, rs, sid, id);
        TraceConcat(Trace(h, p.order, sid, id), p.queue, rs, sid, id);
      }
    case Flush(permit) =>
      if permit {
        TraceConcat(h, p.order, p.queue, sid, id);
      } else {
        FlushFollows(l, x, p, sid, id);
      }
    case BeginIdle => TraceConcat(h, p.order, p.queue, sid, id);
    case EndIdle =>
  }

  lemma {:induction false} LedgerBegins(x: Session, sid: StateId, id: MessageId)
    ensures var l := LedgerAll(x, [], sid, id);
            && OnlyChanges(l) && Tied(l, x.queue, sid, id)
            && Reached(l, sid, id) == Due(l, sid, id) == Trace(Held(x.snap, id), x.queue, sid, id)
  {
    var l := Ledger(Held(x.snap, id), [], []);
    NoteAllFollows(l, x.queue, sid, id);
    NoteAllTies(l, [], x.queue, sid, id);
    assert [] + x.queue == x.queue;
  }

  lemma {:induction false} LedgerFollows(x: Session, steps: seq<Step>, sid: StateId, id: MessageId)
    requires Sound(x)
    ensures var l, p := LedgerAll(x, steps, sid, id), PlanAll(x, steps);
            && OnlyChanges(l) && Tied(l, p.queue, sid, id) && (p.idle ==> p.queue == [])
            && Reached(l, sid, id) == Planned(x, p, sid, id)
            && Due(l, sid, id) == Trace(Held(x.snap, id), x.queue + History(steps), sid, id)
  {
    if |steps| == 0 {
      LedgerBegins(x, sid, id);
      assert x.queue + History(steps) == x.queue;
    } else {
      hide Trace, Held, OnlyChanges, Tied, Reached, Due, LedgerStep, PlanStep, Planned;
      var front, step := steps[..|steps| - 1], steps[|steps| - 1];
      LedgerFollows(x, front, sid, id);
      StepFollows(LedgerAll(x, front, sid, id), x, PlanAll(x, front), step, sid, id);
      TraceAppended(Held(x.snap, id), x.queue, History(front), Arriving(step), sid, id);
    }
  }

  /** No message is missing a flag change: what was handled too early since its last arrival makes no difference now. */
  ghost predicate NothingMissing(x: Session, steps: seq<Step>, sid: StateId) {
    forall id :: Due(LedgerAll(x, steps, sid, id), sid, id) == Reached(LedgerAll(x, steps, sid, id), sid, id)
  }

  /**
   * Every run that has handled everything leaves the very snapshot of in-order handling, flags included, exactly when,
   * for every message, the flag changes handled too early since its last arrival make no difference to it.
   */
  lemma {:induction false} RunKeepsFlagsIff(x: Session, steps: seq<Step>, sid: StateId)
    requires Sound(x) && Run(x, steps, sid).Some? && Run(x, steps, sid).value.queue == []
    requires HandleAll(x.snap, x.queue + History(steps), sid, false).status == Ok
    ensures Run(x, steps, sid).value.snap == HandleAll(x.snap, x.queue + History(steps), sid, false).snap
       <==> NothingMissing(x, steps, sid)
  {
    var all, p := x.queue + History(steps), PlanAll(x, steps);
    var y, b := Run(x, steps, sid).value, HandleAll(x.snap, all, sid, false);
    RunFollowsPlan(x, steps, sid);
    HandleAllValid(x.snap, all, sid, false);
    HandleAllValid(x.snap, p.order, sid, false);
    forall id
      ensures Held(y.snap, id) == Reached(LedgerAll(x, steps, sid, id), sid, id)
      ensures Held(b.snap, id) == Due(LedgerAll(x, steps, sid, id), sid, id)
    {
      LedgerFollows(x, steps, sid, id);
      HandleAllTraces(x.snap, p.order, sid, false, id);
      HandleAllTraces(x.snap, all, sid, false, id);
    }
    hide Reached, Due;
    SameHeldSameList(y.snap, b.snap);
  }
}

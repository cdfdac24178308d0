/** Whole runs of a session together with the client reading its responses. */
module Protocol {
  import opened Base
  import opened Snapshot
  import opened Responses
  import opened Merge
  import opened Responders
  import opened Mirror
  import opened Deferral

  // ----- flushing without EXPUNGE

  predicate SaysExpunge(rs: seq<Response>) {
    exists i :: 0 <= i < |rs| && rs[i].Expunge?
  }

  lemma {:induction false} FixedHasExpunges(rs: seq<Response>)
    ensures SaysExpunge(rs) <==> SaysExpunge(Fixed(rs))
  {
    if |rs| > 0 {
      var n := |rs| - 1;
      var front, f := rs[..n], Fixed(rs[..n]);
      FixedHasExpunges(front);
      if SaysExpunge(f) {
        var i :| 0 <= i < |f| && f[i].Expunge?;
        assert Fixed(rs)[i].Expunge?;
        var j :| 0 <= j < |front| && front[j].Expunge?;
        assert rs[j].Expunge?;
      } else if rs[n].Expunge? {
        assert Fixed(rs)[|f|].Expunge?;
      }
    }
  }

  lemma {:induction false} HandleQuiet(s: Snap, r: Responder, sid: StateId)
    requires !r.ExpungeMsg? && Handle(s, r, sid, false).Done?
    ensures !SaysExpunge(Handle(s, r, sid, false).responses)
  {
  }

  lemma {:induction false} QuietWithoutExpunges(s: Snap, rs: seq<Responder>, sid: StateId)
    requires forall r :: r in rs ==> !r.ExpungeMsg?
    ensures !SaysExpunge(HandleAll(s, rs, sid, false).responses)
  {
    if |rs| > 0 {
      var n := |rs| - 1;
      QuietWithoutExpunges(s, rs[..n], sid);
      var b := HandleAll(s, rs[..n], sid, false);
      var o := Handle(b.snap, rs[n], sid, false);
      if b.status == Ok && o.Done? {
        HandleQuiet(b.snap, rs[n], sid);
        assert HandleAll(s, rs, sid, false).responses == b.responses + o.responses;
      }
    }
  }

  /** flush(false) never sends EXPUNGE. */
  lemma {:induction false} NoExpungeWhenNotPermitted(s: Snap, q: seq<Responder>, sid: StateId)
    requires Valid(s)
    ensures var sent := MergeAll(HandleAll(s, Popped(q, false), sid, false).responses);
            sent.Some? && !SaysExpunge(sent.value)
  {
    var b := HandleAll(s, Popped(q, false), sid, false);
    SiftParts(q);
    QuietWithoutExpunges(s, Popped(q, false), sid);
    FlushNeverPanics(s, Popped(q, false), sid);
    var c := Client(seq(|s|, _ => UNKNOWN), 0);
    HandleAllSeen(c, s, Popped(q, false), sid);
    MergePreserves(c, b.responses);
    FixedHasExpunges(b.responses);
    FixedHasExpunges(MergeAll(b.responses).value);
  }

  /** Every message of s is still at its sequence number in t. */
  ghost predicate NumbersKept(s: Snap, t: Snap) {
    |s| <= |t| && forall j :: 0 <= j < |s| ==> t[j].id == s[j].id
  }

  /** Every message the batch brings in has a UID above all of the snapshot's. */
  ghost predicate NewcomersAbove(s: Snap, rs: seq<Responder>) {
    forall id, j :: !Has(s, id) && Track(None, rs, id).Some? && 0 <= j < |s| ==> s[j].uid < Track(None, rs, id).value
  }

  lemma {:induction false} TrackKeeps(o: Option<Uid>, rs: seq<Responder>, id: MessageId)
    requires o.Some? && forall r :: r in rs ==> !r.ExpungeMsg?
    ensures Track(o, rs, id) == o
  {
    if |rs| > 0 {
      TrackKeeps(o, rs[..|rs| - 1], id);
    }
  }

  lemma {:induction false} KeptIfAbove(s: Snap, t: Snap, rs: seq<Responder>, j: nat)
    requires Valid(s) && Valid(t) && NewcomersAbove(s, rs) && j <= |s|
    requires forall id :: Lookup(t, id) == if Has(s, id) then Lookup(s, id) else Track(None, rs, id)
    ensures j <= |t| && forall i :: 0 <= i < j ==> t[i].id == s[i].id && t[i].uid == s[i].uid
  {
    if j > 0 {
      KeptIfAbove(s, t, rs, j - 1);
      var k := FoundIn(s, t, j - 1) by { LookupAt(s, j - 1); }
      assert k >= j - 1;
      LookupAt(t, j - 1);
      if Has(s, t[j - 1].id) {
        var l := IndexOf(s, t[j - 1].id);
        LookupAt(s, l);
        assert l >= j - 1;
      }
    }
  }

  lemma {:induction false} AboveIfKept(s: Snap, t: Snap, rs: seq<Responder>, id: MessageId, j: nat)
    requires Valid(s) && Valid(t) && NumbersKept(s, t) && j < |s|
    requires forall x :: Lookup(t, x) == if Has(s, x) then Lookup(s, x) else Track(None, rs, x)
    requires !Has(s, id) && Track(None, rs, id).Some?
    ensures s[j].uid < Track(None, rs, id).value
  {
    var k := IndexOf(t, id);
    LookupAt(s, j);
    LookupAt(t, j);
    assert k >= |s|;
    assert t[j].uid < t[k].uid;
  }

  /** flush(false) keeps every sequence number exactly when all messages it brings in have UIDs above the snapshot's. */
  lemma {:induction false} NumbersKeptIff(s: Snap, q: seq<Responder>, sid: StateId)
    requires Valid(s) && HandleAll(s, Popped(q, false), sid, false).status == Ok
    ensures NumbersKept(s, HandleAll(s, Popped(q, false), sid, false).snap) <==> NewcomersAbove(s, Popped(q, false))
  {
    var rs := Popped(q, false);
    var t := HandleAll(s, rs, sid, false).snap;
    SiftParts(q);
    HandleAllValid(s, rs, sid, false);
    forall id ensures Lookup(t, id) == if Has(s, id) then Lookup(s, id) else Track(None, rs, id) {
      HandleAllTracks(s, rs, sid, false, id);
      if Has(s, id) { TrackKeeps(Lookup(s, id), rs, id); }
    }
    if NewcomersAbove(s, rs) {
      KeptIfAbove(s, t, rs, |s|);
    } else if NumbersKept(s, t) {
      forall id, j | !Has(s, id) && Track(None, rs, id).Some? && 0 <= j < |s|
        ensures s[j].uid < Track(None, rs, id).value
      {
        AboveIfKept(s, t, rs, id, j);
      }
    }
  }

  // ----- the session and its client

  datatype World = World(session: Session, client: Client)

  /** Ask(k) is the client reading the answer to FETCH k (FLAGS UID). */
  datatype Event = Do(step: Step) | Ask(k: nat)

  /** The responders a step handles. */
  function Handled(x: Session, step: Step): seq<Responder> {
    match step
    case Push(rs) => if x.idle then rs else []
    case Flush(permit) => Popped(x.queue, permit)
    case BeginIdle => x.queue
    case EndIdle => []
  }

  /** What goes over the wire: merged after a flush, one by one while idling. */
  function Sent(x: Session, step: Step, sid: StateId): seq<Response> {
    var out := HandleAll(x.snap, Handled(x, step), sid, false).responses;
    if step.Push? then out
    else match MergeAll(out)
      case Some(m) => m
      case None => out
  }

  function Answer(s: Snap, k: nat): seq<Response> {
    if 1 <= k <= |s| then [Fetch(k, FetchItems(s[k - 1].flags, s[k - 1].uid, true))] else []
  }

  function React(w: World, e: Event, sid: StateId): Option<World> {
    match e
    case Do(step) =>
      var y := Advance(w.session, step, sid);
      if y.None? then None else Some(World(y.value, Watch(w.client, Sent(w.session, step, sid))))
    case Ask(k) => Some(w.(client := Watch(w.client, Answer(w.session.snap, k))))
  }

  function RunWorld(w: World, es: seq<Event>, sid: StateId): Option<World> {
    if |es| == 0 then Some(w) else
    match RunWorld(w, es[..|es| - 1], sid)
    case None => None
    case Some(v) => React(v, es[|es| - 1], sid)
  }

  lemma {:induction false} AdvanceHandles(x: Session, step: Step, sid: StateId)
    ensures Advance(x, step, sid).Some? <==> HandleAll(x.snap, Handled(x, step), sid, false).status == Ok
    ensures Advance(x, step, sid).Some? ==>
      Advance(x, step, sid).value.snap == HandleAll(x.snap, Handled(x, step), sid, false).snap
  {
  }

  /** The merged responses tell the client exactly what the handled responders said. */
  lemma {:induction false} SentSaysAll(x: Session, c: Client, step: Step, sid: StateId)
    requires Valid(x.snap) && |c.slots| == |x.snap|
    ensures Watch(c, Sent(x, step, sid)) == Watch(c, HandleAll(x.snap, Handled(x, step), sid, false).responses)
  {
    var rs := Handled(x, step);
    if !step.Push? {
      FlushNeverPanics(x.snap, rs, sid);
      HandleAllSeen(c, x.snap, rs, sid);
      MergePreserves(c, HandleAll(x.snap, rs, sid, false).responses);
    }
  }

  lemma {:induction false} AnswerMirrors(c: Client, s: Snap, k: nat)
    requires Placed(c, s)
    ensures Placed(Watch(c, Answer(s, k)), s)
    ensures Current(c, s) ==> Current(Watch(c, Answer(s, k)), s)
  {
    if 1 <= k <= |s| {
      FetchLearned(c.slots[k - 1], s[k - 1].flags, s[k - 1].uid, true);
      OneSeen(c, Answer(s, k)[0]);
    }
  }

  // ----- arrivals with fresh UIDs

  ghost predicate Below(s: Snap, u: Uid) {
    forall i :: 0 <= i < |s| ==> s[i].uid < u
  }

  ghost predicate ArrivalsBelow(rs: seq<Responder>, u: Uid) {
    forall r :: r in rs && r.TargetedExists? ==> r.uid < u
  }

  ghost predicate ArrivalsAscend(rs: seq<Responder>) {
    forall i, j :: 0 <= i < j < |rs| && rs[i].TargetedExists? && rs[j].TargetedExists? ==> rs[i].uid < rs[j].uid
  }

  /** Pending arrivals ascend and are above the snapshot: what increasing UID assignment gives. */
  ghost predicate Above(s: Snap, rs: seq<Responder>) {
    ArrivalsAscend(rs) && forall r :: r in rs && r.TargetedExists? ==> Below(s, r.uid)
  }

  /** No popped arrival overtakes one that waits behind an EXPUNGE. */
  ghost predicate NoOvertaking(q: seq<Responder>) {
    forall d :: d in Sift(q).rem && d.TargetedExists? ==> ArrivalsBelow(Sift(q).pop, d.uid)
  }

  /** The step brings in only fresh UIDs, and a flush(false) lets no arrival overtake a deferred one. */
  ghost predicate Fresh(x: Session, step: Step) {
    match step
    case Push(rs) => Above(x.snap, rs) && forall r :: r in rs && r.TargetedExists? ==> ArrivalsBelow(x.queue, r.uid)
    case Flush(permit) => permit || NoOvertaking(x.queue)
    case _ => true
  }

  lemma {:induction false} HandleBelow(s: Snap, r: Responder, sid: StateId, u: Uid)
    requires Below(s, u) && (r.TargetedExists? ==> r.uid < u) && Handle(s, r, sid, false).Done?
    ensures Below(Handle(s, r, sid, false).snap, u)
  {
  }

  lemma {:induction false} HandleAllBelow(s: Snap, rs: seq<Responder>, sid: StateId, u: Uid)
    requires Below(s, u) && ArrivalsBelow(rs, u)
    ensures Below(HandleAll(s, rs, sid, false).snap, u)
  {
    if |rs| > 0 {
      var n := |rs| - 1;
      HandleAllBelow(s, rs[..n], sid, u);
      var b := HandleAll(s, rs[..n], sid, false);
      if b.status == Ok && Handle(b.snap, rs[n], sid, false).Done? {
        HandleBelow(b.snap, rs[n], sid, u);
      }
    }
  }

  lemma {:induction false} BelowAppends(s: Snap, r: Responder, sid: StateId)
    requires Valid(s) && (r.TargetedExists? ==> Below(s, r.uid))
    ensures Handle(s, r, sid, false).Done? && Appends(s, r)
  {
  }

  /** Arrivals with fresh UIDs never fail, whichever insert they take, and all land at the end. */
  lemma {:induction false} AboveAppends(s: Snap, rs: seq<Responder>, sid: StateId)
    requires Valid(s) && Above(s, rs)
    ensures HandleAll(s, rs, sid, false).status == Ok && AppendsAll(s, rs, sid)
  {
    if |rs| > 0 {
      var n := |rs| - 1;
      AboveAppends(s, rs[..n], sid);
      HandleAllValid(s, rs[..n], sid, false);
      var t := HandleAll(s, rs[..n], sid, false).snap;
      if rs[n].TargetedExists? {
        HandleAllBelow(s, rs[..n], sid, rs[n].uid);
      }
      BelowAppends(t, rs[n], sid);
    }
  }

  /** Sifting keeps the order of arrivals. */
  lemma {:induction false} SiftAscends(q: seq<Responder>)
    requires ArrivalsAscend(q)
    ensures ArrivalsAscend(Sift(q).pop) && ArrivalsAscend(Sift(q).rem)
  {
    if |q| > 0 {
      var front, r := q[..|q| - 1], q[|q| - 1];
      SiftAscends(front);
      SiftParts(front);
      assert forall p :: p in front && p.TargetedExists? && r.TargetedExists? ==> p.uid < r.uid;
      var x := Sift(front);
      assert forall i :: 0 <= i < |x.pop| ==> x.pop[i] in front;
      assert forall i :: 0 <= i < |x.rem| ==> x.rem[i] in front;
    }
  }

  /** A fresh step never fails, appends only, and leaves the pending arrivals above the snapshot. */
  lemma {:induction false} FreshStep(x: Session, step: Step, sid: StateId)
    requires Sound(x) && Above(x.snap, x.queue) && Fresh(x, step)
    ensures Advance(x, step, sid).Some? && AppendsAll(x.snap, Handled(x, step), sid)
    ensures Above(Advance(x, step, sid).value.snap, Advance(x, step, sid).value.queue)
  {
    var rs := Handled(x, step);
    SiftAscends(x.queue);
    SiftParts(x.queue);
    AboveAppends(x.snap, rs, sid);
    AdvanceHandles(x, step, sid);
    var y := Advance(x, step, sid).value;
    forall d | d in y.queue && d.TargetedExists? ensures Below(y.snap, d.uid) {
      if step.Flush? && !step.permitExpunge {
        HandleAllBelow(x.snap, rs, sid, d.uid);
      }
    }
  }

  ghost predicate FreshRun(w: World, es: seq<Event>, sid: StateId) {
    |es| > 0 ==>
      var front, e := es[..|es| - 1], es[|es| - 1];
      && FreshRun(w, front, sid)
      && (RunWorld(w, front, sid).Some? && e.Do? ==> Fresh(RunWorld(w, front, sid).value.session, e.step))
  }

  ghost predicate NotSilent(rs: seq<Responder>) {
    forall r :: r in rs ==> !Silent(r)
  }

  /** The client and the session agree. */
  ghost predicate Agree(w: World) {
    Sound(w.session) && Above(w.session.snap, w.session.queue) && Placed(w.client, w.session.snap)
  }

  lemma {:induction false} ReactAgrees(w: World, e: Event, sid: StateId)
    requires Agree(w) && (e.Do? ==> Fresh(w.session, e.step))
    ensures React(w, e, sid).Some? && Agree(React(w, e, sid).value)
    ensures Current(w.client, w.session.snap) && (e.Do? ==> NotSilent(Handled(w.session, e.step)))
        ==> Current(React(w, e, sid).value.client, React(w, e, sid).value.session.snap)
  {
    match e
    case Ask(k) => AnswerMirrors(w.client, w.session.snap, k);
    case Do(step) =>
      FreshStep(w.session, step, sid);
      AdvanceHandles(w.session, step, sid);
      AdvanceKeepsFate(w.session, step, sid, 0);
      SentSaysAll(w.session, w.client, step, sid);
      HandleAllMirrors(w.client, w.session.snap, Handled(w.session, step), sid);
  }

  /** Client mirror: in every run with fresh UIDs nothing fails and every UID the client knows is where it believes. */
  lemma {:induction false} ClientMirrors(w: World, es: seq<Event>, sid: StateId)
    requires Agree(w) && FreshRun(w, es, sid)
    ensures RunWorld(w, es, sid).Some? && Agree(RunWorld(w, es, sid).value)
  {
    if |es| > 0 {
      ClientMirrors(w, es[..|es| - 1], sid);
      ReactAgrees(RunWorld(w, es[..|es| - 1], sid).value, es[|es| - 1], sid);
    }
  }

  /** Everything pushed while the events ran. */
  function Pushed(es: seq<Event>): seq<Responder> {
    if |es| == 0 then []
    else
      var e := es[|es| - 1];
      Pushed(es[..|es| - 1]) + if e.Do? then Arriving(e.step) else []
  }

  lemma {:induction false} QueueFromPushes(w: World, es: seq<Event>, sid: StateId)
    requires RunWorld(w, es, sid).Some?
    ensures forall r :: r in RunWorld(w, es, sid).value.session.queue ==> r in w.session.queue + Pushed(es)
  {
    if |es| > 0 {
      QueueFromPushes(w, es[..|es| - 1], sid);
      SiftParts(RunWorld(w, es[..|es| - 1], sid).value.session.queue);
    }
  }

  lemma {:induction false} AnswerKeepsFlags(c: Client, s: Snap, k: nat, id: MessageId)
    requires Valid(s) && CurrentAt(c, s, id)
    ensures CurrentAt(Watch(c, Answer(s, k)), s, id)
  {
    if 1 <= k <= |s| {
      FetchLearned(c.slots[k - 1], s[k - 1].flags, s[k - 1].uid, true);
      OneSeen(c, Answer(s, k)[0]);
    }
  }

  /** No silent change of the message. */
  ghost predicate NotSilentOn(rs: seq<Responder>, id: MessageId) {
    forall r :: r in rs ==> !(Silent(r) && r.id == id)
  }

  lemma {:induction false} ReactKeepsFlags(w: World, e: Event, sid: StateId, id: MessageId)
    requires Agree(w) && (e.Do? ==> Fresh(w.session, e.step)) && CurrentAt(w.client, w.session.snap, id)
    requires e.Do? ==> NotSilentOn(Handled(w.session, e.step), id)
    ensures React(w, e, sid).Some?
    ensures CurrentAt(React(w, e, sid).value.client, React(w, e, sid).value.session.snap, id)
  {
    match e
    case Ask(k) => AnswerKeepsFlags(w.client, w.session.snap, k, id);
    case Do(step) =>
      FreshStep(w.session, step, sid);
      AdvanceHandles(w.session, step, sid);
      SentSaysAll(w.session, w.client, step, sid);
      HandleAllKeepsFlags(w.client, w.session.snap, Handled(w.session, step), sid, id);
  }

  /** What the client knows of a message's flags stays current as long as that message is not changed silently. */
  lemma {:induction false} MessageFlagsCurrent(w: World, es: seq<Event>, sid: StateId, id: MessageId)
    requires Agree(w) && FreshRun(w, es, sid) && CurrentAt(w.client, w.session.snap, id)
    requires NotSilentOn(w.session.queue + Pushed(es), id)
    ensures RunWorld(w, es, sid).Some?
    ensures CurrentAt(RunWorld(w, es, sid).value.client, RunWorld(w, es, sid).value.session.snap, id)
  {
    ClientMirrors(w, es, sid);
    if |es| > 0 {
      var front, e := es[..|es| - 1], es[|es| - 1];
      MessageFlagsCurrent(w, front, sid, id);
      ClientMirrors(w, front, sid);
      QueueFromPushes(w, front, sid);
      var v := RunWorld(w, front, sid).value;
      SiftParts(v.session.queue);
      ReactKeepsFlags(v, e, sid, id);
    }
  }

  /** If nothing was stored silently, every flag list the client knows is current. */
  lemma {:induction false} ClientFlagsCurrent(w: World, es: seq<Event>, sid: StateId)
    requires Agree(w) && FreshRun(w, es, sid) && Current(w.client, w.session.snap)
    requires NotSilent(w.session.queue + Pushed(es))
    ensures RunWorld(w, es, sid).Some?
    ensures Current(RunWorld(w, es, sid).value.client, RunWorld(w, es, sid).value.session.snap)
  {
    ClientMirrors(w, es, sid);
    var v := RunWorld(w, es, sid).value;
    CurrentIffAt(w.client, w.session.snap);
    forall id ensures CurrentAt(v.client, v.session.snap, id) {
      MessageFlagsCurrent(w, es, sid, id);
    }
    CurrentIffAt(v.client, v.session.snap);
  }

  // ----- exactly which runs keep the client right

  /** The mirror holds after every responder that the run handles. */
  ghost predicate MirrorsRun(w: World, es: seq<Event>, sid: StateId) {
    |es| > 0 ==>
      var front, e := es[..|es| - 1], es[|es| - 1];
      var v := RunWorld(w, front, sid);
      && MirrorsRun(w, front, sid)
      && (v.Some? && e.Do? ==>
            MirrorsThroughout(v.value.client, v.value.session.snap, Handled(v.value.session, e.step), sid))
  }

  /** Each arrival that brings a message in has, at its turn, a UID above every UID the client then knows. */
  ghost predicate RunAboveKnown(w: World, es: seq<Event>, sid: StateId) {
    |es| > 0 ==>
      var front, e := es[..|es| - 1], es[|es| - 1];
      var v := RunWorld(w, front, sid);
      && RunAboveKnown(w, front, sid)
      && (v.Some? && e.Do? ==>
            AllAboveKnown(v.value.client, v.value.session.snap, Handled(v.value.session, e.step), sid))
  }

  lemma {:induction false} EventMirrorsIff(w: World, step: Step, sid: StateId)
    requires Sound(w.session) && Placed(w.client, w.session.snap) && Advance(w.session, step, sid).Some?
    ensures var rs := Handled(w.session, step);
            && (MirrorsThroughout(w.client, w.session.snap, rs, sid) <==>
                  AllAboveKnown(w.client, w.session.snap, rs, sid))
            && (MirrorsThroughout(w.client, w.session.snap, rs, sid) ==>
                  var v := React(w, Do(step), sid).value;
                  Placed(v.client, v.session.snap))
  {
    AdvanceHandles(w.session, step, sid);
    SentSaysAll(w.session, w.client, step, sid);
    BatchMirrorsIff(w.client, w.session.snap, Handled(w.session, step), sid);
  }

  /**
   * In every run, the client stays right after every handled responder exactly when each arrival that brings a message
   * in has a UID above every UID the client then knows.
   */
  lemma {:induction false} RunMirrorsIff(w: World, es: seq<Event>, sid: StateId)
    requires Sound(w.session) && Placed(w.client, w.session.snap) && RunWorld(w, es, sid).Some?
    ensures MirrorsRun(w, es, sid) <==> RunAboveKnown(w, es, sid)
    ensures Sound(RunWorld(w, es, sid).value.session)
    ensures MirrorsRun(w, es, sid) ==>
              Placed(RunWorld(w, es, sid).value.client, RunWorld(w, es, sid).value.session.snap)
  {
    if |es| > 0 {
      var front, e := es[..|es| - 1], es[|es| - 1];
      RunMirrorsIff(w, front, sid);
      var v := RunWorld(w, front, sid).value;
      match e {
        case Ask(k) =>
          if Placed(v.client, v.session.snap) {
            AnswerMirrors(v.client, v.session.snap, k);
          }
        case Do(step) =>
          AdvanceKeepsFate(v.session, step, sid, 0);
          if Placed(v.client, v.session.snap) {
            EventMirrorsIff(v, step, sid);
          }
      }
    }
  }

  // ----- a condition on the events alone

  function StepsOf(es: seq<Event>): seq<Step> {
    if |es| == 0 then []
    else
      var e := es[|es| - 1];
      StepsOf(es[..|es| - 1]) + if e.Do? then [e.step] else []
  }

  lemma {:induction false} WorldRuns(w: World, es: seq<Event>, sid: StateId)
    requires RunWorld(w, es, sid).Some?
    ensures Run(w.session, StepsOf(es), sid) == Some(RunWorld(w, es, sid).value.session)
  {
    if |es| > 0 {
      var front, e := es[..|es| - 1], es[|es| - 1];
      WorldRuns(w, front, sid);
      var all := StepsOf(front) + if e.Do? then [e.step] else [];
      assert e.Do? ==> all[..|all| - 1] == StepsOf(front);
      assert e.Ask? ==> all == StepsOf(front);
    }
  }

  /** No message arrives behind an EXPUNGE of it. */
  ghost predicate NoReturnIn(q: seq<Responder>) {
    forall i, j :: 0 <= i < j < |q| && q[i].ExpungeMsg? && q[j].TargetedExists? ==> q[i].id != q[j].id
  }

  /** No message comes back while its EXPUNGE is pending; the events and the first queue decide this. */
  ghost predicate NoReturns(x: Session, es: seq<Event>) {
    if |es| == 0 then NoReturnIn(x.queue)
    else
      var front, e := es[..|es| - 1], es[|es| - 1];
      var p := PlanAll(x, StepsOf(front));
      NoReturns(x, front) && (e.Do? && e.step.Push? && !p.idle ==> NoReturnIn(p.queue + e.step.rs))
  }

  lemma {:induction false} SkipsExpunged(q: seq<Responder>, id: MessageId)
    requires id in Sift(q).skip
    ensures exists i :: 0 <= i < |q| && q[i] == ExpungeMsg(id)
  {
    var front, r := q[..|q| - 1], q[|q| - 1];
    if r == ExpungeMsg(id) {
      assert q[|q| - 1] == ExpungeMsg(id);
    } else {
      SkipsExpunged(front, id);
      var i :| 0 <= i < |front| && front[i] == ExpungeMsg(id);
      assert q[i] == ExpungeMsg(id);
    }
  }

  /** Then only expunges are held back, and nothing is overtaken. */
  lemma {:induction false} NoReturnNoOvertaking(q: seq<Responder>)
    requires NoReturnIn(q)
    ensures forall d :: d in Sift(q).rem ==> d.ExpungeMsg?
    ensures NoOvertaking(q) && NoReturnIn(Sift(q).rem)
  {
    if |q| > 0 {
      var front, r := q[..|q| - 1], q[|q| - 1];
      assert forall i :: 0 <= i < |front| ==> front[i] == q[i];
      NoReturnNoOvertaking(front);
      if r.TargetedExists? && r.id in Sift(front).skip {
        SkipsExpunged(front, r.id);
      }
    }
  }

  lemma {:induction false} QueueWithoutReturns(x: Session, es: seq<Event>)
    requires NoReturns(x, es)
    ensures NoReturnIn(PlanAll(x, StepsOf(es)).queue)
  {
    if |es| > 0 {
      var front, e := es[..|es| - 1], es[|es| - 1];
      QueueWithoutReturns(x, front);
      NoReturnNoOvertaking(PlanAll(x, StepsOf(front)).queue);
      var all := StepsOf(front) + if e.Do? then [e.step] else [];
      assert e.Do? ==> all[..|all| - 1] == StepsOf(front);
      assert e.Ask? ==> all == StepsOf(front);
    }
  }

  lemma {:induction false} SnapFromPushes(w: World, es: seq<Event>, sid: StateId, u: Uid)
    requires RunWorld(w, es, sid).Some? && Below(w.session.snap, u) && ArrivalsBelow(w.session.queue + Pushed(es), u)
    ensures Below(RunWorld(w, es, sid).value.session.snap, u)
  {
    if |es| > 0 {
      var front, e := es[..|es| - 1], es[|es| - 1];
      assert forall r :: r in w.session.queue + Pushed(front) ==> r in w.session.queue + Pushed(es);
      SnapFromPushes(w, front, sid, u);
      QueueFromPushes(w, front, sid);
      if e.Do? {
        var v := RunWorld(w, front, sid).value;
        SiftParts(v.session.queue);
        AdvanceHandles(v.session, e.step, sid);
        HandleAllBelow(v.session.snap, Handled(v.session, e.step), sid, u);
      }
    }
  }

  lemma {:induction false} PushIsFresh(w: World, front: seq<Event>, rs: seq<Responder>, sid: StateId)
    requires RunWorld(w, front, sid).Some? && Above(w.session.snap, w.session.queue + (Pushed(front) + rs))
    ensures Fresh(RunWorld(w, front, sid).value.session, Push(rs))
  {
    var all, old_ := w.session.queue + (Pushed(front) + rs), w.session.queue + Pushed(front);
    assert all == old_ + rs;
    var v := RunWorld(w, front, sid).value.session;
    QueueFromPushes(w, front, sid);
    forall r | r in rs && r.TargetedExists? ensures Below(v.snap, r.uid) && ArrivalsBelow(v.queue, r.uid) {
      var j :| 0 <= j < |rs| && rs[j] == r;
      assert all[|old_| + j] == r && r in all;
      assert forall i :: 0 <= i < |old_| ==> all[i] == old_[i];
      SnapFromPushes(w, front, sid, r.uid);
    }
    assert forall i :: 0 <= i < |rs| ==> rs[i] == all[|old_| + i];
  }

  lemma {:induction false} EventsAreFresh(w: World, es: seq<Event>, sid: StateId)
    requires Agree(w) && NoReturns(w.session, es) && Above(w.session.snap, w.session.queue + Pushed(es))
    ensures FreshRun(w, es, sid)
  {
    if |es| > 0 {
      var front, e := es[..|es| - 1], es[|es| - 1];
      AboveFront(w.session.snap, w.session.queue, Pushed(front), if e.Do? then Arriving(e.step) else []);
      EventsAreFresh(w, front, sid);
      ClientMirrors(w, front, sid);
      if e.Do? && e.step.Push? {
        PushIsFresh(w, front, e.step.rs, sid);
      } else if e == Do(Flush(false)) {
        QueueWithoutReturns(w.session, front);
        WorldRuns(w, front, sid);
        RunQueue(w.session, StepsOf(front), sid);
        NoReturnNoOvertaking(RunWorld(w, front, sid).value.session.queue);
      }
    }
  }

  lemma {:induction false} AboveFront(s: Snap, q: seq<Responder>, a: seq<Responder>, b: seq<Responder>)
    requires Above(s, q + (a + b))
    ensures Above(s, q + a)
  {
    var all := q + (a + b);
    assert forall i :: 0 <= i < |q + a| ==> (q + a)[i] == all[i];
  }

  /**
   * If arrivals ascend from above the snapshot and no message comes back while its EXPUNGE is pending, nothing fails
   * and every UID the client knows is where it believes.
   */
  lemma {:induction false} EventsAloneMirror(w: World, es: seq<Event>, sid: StateId)
    requires Agree(w) && NoReturns(w.session, es) && Above(w.session.snap, w.session.queue + Pushed(es))
    ensures RunWorld(w, es, sid).Some? && Agree(RunWorld(w, es, sid).value)
  {
    EventsAreFresh(w, es, sid);
    ClientMirrors(w, es, sid);
  }

  // ----- the two conditions are needed

  const M1 := NewMsg(1, "", 1, map[])
  const BACK := TargetedExists(1, "", 5, map[], 0, None)
  const LATE := TargetedExists(2, "", 6, map[], 0, None)
  const WAITING := [ExpungeMsg(1), BACK]

  lemma {:induction false} PlainRecent(s: Snap)
    requires forall i :: 0 <= i < |s| ==> s[i].flags == map[]
    ensures RecentCount(s) == 0
  {
    if |s| > 0 {
      PlainRecent(s[..|s| - 1]);
    }
  }

  /** A plain message of another session lands at the end. */
  lemma {:induction false} PlainArrival(s: Snap, r: Responder, sid: StateId, isClose: bool)
    requires Valid(s) && r.TargetedExists? && r.flags == map[] && r.origin.None? && !Has(s, r.id) && Below(s, r.uid)
    requires forall i :: 0 <= i < |s| ==> s[i].flags == map[]
    ensures HandleAll(s, [r], sid, isClose) == Batch(s + [Arrived(r, sid)], [Exists(|s| + 1)], Ok)
    ensures Arrived(r, sid).flags == map[]
  {
    assert [r][..0] == [];
    BelowAppends(s, r, sid);
    PlainRecent(s + [Arrived(r, sid)]);
    assert Insert(s, Arrived(r, sid)) == s + [Arrived(r, sid)];
  }

  lemma {:induction false} ExampleSift()
    ensures Sift(WAITING + [LATE]) == Sifted([LATE], WAITING, {})
  {
    var e := ExpungeMsg(1);
    assert WAITING[..1] == [e] && [e][..0] == [] && (WAITING + [LATE])[..2] == WAITING;
    assert Sift([e]) == Sifted([], [e], {1});
    assert Sift(WAITING) == Sifted([], WAITING, {});
  }

  lemma {:induction false} ExampleLeave(m2: Msg)
    requires m2.id == 2
    ensures HandleAll([M1, m2], [ExpungeMsg(1)], 7, false) == Batch([m2], [Expunge(1)], Ok)
  {
    assert [ExpungeMsg(1)][..0] == [] && [M1, m2][0].id == 1;
    assert RemoveMsg([M1, m2], 1) == [m2];
  }

  lemma {:induction false} ExampleComeBack(m2: Msg)
    requires m2 == Arrived(LATE, 7) && m2.flags == map[]
    ensures HandleAll([m2], [BACK], 7, false) == Batch([Arrived(BACK, 7), m2], [Exists(2)], Ok)
  {
    var m1 := Arrived(BACK, 7);
    assert [BACK][..0] == [];
    RankUnique([m2], 5, 0);
    assert Insert([m2], m1) == [m1, m2];
    PlainRecent([m1, m2]);
    assert Handle([m2], BACK, 7, false) == Done([m1, m2], [Exists(2)]);
  }

  /** The second flush of the example: message 1 leaves and comes back below message 2. */
  lemma {:induction false} ExampleReturn(m2: Msg)
    requires m2 == Arrived(LATE, 7) && m2.flags == map[]
    ensures HandleAll([M1, m2], WAITING, 7, false) == Batch([Arrived(BACK, 7), m2], [Expunge(1), Exists(2)], Ok)
  {
    ExampleLeave(m2);
    ExampleComeBack(m2);
    hide HandleAll;
    HandleAllConcat([M1, m2], [ExpungeMsg(1)], [BACK], 7, false);
    assert WAITING == [ExpungeMsg(1)] + [BACK] && [Expunge(1)] + [Exists(2)] == [Expunge(1), Exists(2)];
  }

  lemma {:induction false} ExampleClient(c: Client)
    requires c.slots == [Slot(Some(1), None, []), Slot(Some(6), Some({}), [])]
    ensures Watch(c, [Expunge(1), Exists(2)]).slots == [Slot(Some(6), Some({}), []), UNKNOWN]
  {
    OneSeen(c, Expunge(1));
    assert See(c, Expunge(1)).slots == [Slot(Some(6), Some({}), [])];
    WatchConcat(c, [Expunge(1)], [Exists(2)]);
    OneSeen(See(c, Expunge(1)), Exists(2));
    assert [Expunge(1)] + [Exists(2)] == [Expunge(1), Exists(2)];
  }

  const START := World(Session([M1], WAITING + [LATE], false), Client([Slot(Some(1), None, [])], 0))
  const M2 := NewMsg(2, "", 6, map[])
  const SHOWN := World(Session([M1, M2], WAITING, false), Client([Slot(Some(1), None, []), UNKNOWN], 0))
  const ASKED := Client([Slot(Some(1), None, []), Slot(Some(6), Some({}), [])], 0)

  lemma {:induction false} ExampleShow()
    ensures Arrived(LATE, 7) == M2 && React(START, Do(Flush(false)), 7) == Some(SHOWN)
  {
    ExampleSift();
    PlainArrival([M1], LATE, 7, false);
    SentSaysAll(START.session, START.client, Flush(false), 7);
    assert Handled(START.session, Flush(false)) == [LATE] && [M1] + [M2] == [M1, M2];
    assert HandleAll([M1], [LATE], 7, false) == Batch([M1, M2], [Exists(2)], Ok);
    OneSeen(START.client, Exists(2));
    assert See(START.client, Exists(2)).slots == SHOWN.client.slots;
  }

  lemma {:induction false} ExampleAsk()
    ensures React(SHOWN, Ask(2), 7) == Some(SHOWN.(client := ASKED))
  {
    FetchLearned(UNKNOWN, M2.flags, 6, true);
    OneSeen(SHOWN.client, Answer([M1, M2], 2)[0]);
    assert M2.flags.Keys == {} && Answer([M1, M2], 2) == [Answer([M1, M2], 2)[0]];
    assert Watch(SHOWN.client, Answer([M1, M2], 2)).slots == ASKED.slots;
  }

  lemma {:induction false} ExampleBreak()
    ensures var v := React(SHOWN.(client := ASKED), Do(Flush(true)), 7);
            v.Some? && !Placed(v.value.client, v.value.session.snap)
  {
    ExampleShow();
    ExampleReturn(M2);
    SentSaysAll(SHOWN.session, ASKED, Flush(true), 7);
    ExampleClient(ASKED);
    var v := React(SHOWN.(client := ASKED), Do(Flush(true)), 7).value;
    assert v.client.slots[0].uid == Some(6) && v.session.snap[0].uid == 5;
  }

  lemma {:induction false} ExampleStarts()
    ensures Sound(START.session) && ArrivalsAscend(START.session.queue) && Placed(START.client, START.session.snap)
  {
  }

  /**
   * Overtaking breaks the mirror although UIDs arrive in ascending order: message 1 is expunged and comes back at UID
   * 5, message 2 arrives at UID 6; the flush(false) shows message 2 first, so the later flush(true) inserts below it.
   */
  lemma {:induction false} OvertakingBreaksMirror()
    ensures var v := RunWorld(START, [Do(Flush(false)), Ask(2), Do(Flush(true))], 7);
            && Sound(START.session) && ArrivalsAscend(START.session.queue) && Placed(START.client, START.session.snap)
            && v.Some? && !Placed(v.value.client, v.value.session.snap)
  {
    ExampleStarts();
    hide React, Sound, ArrivalsAscend, Placed;
    var es := [Do(Flush(false)), Ask(2), Do(Flush(true))];
    assert es[..1][..0] == [] && es[..2][..1] == es[..1] && es[..3] == es;
    ExampleShow();
    assert RunWorld(START, es[..1], 7) == Some(SHOWN);
    ExampleAsk();
    assert RunWorld(START, es[..2], 7) == Some(SHOWN.(client := ASKED));
    ExampleBreak();
  }

  lemma {:induction false} CloseExpunge(s: Snap, m: Msg)
    requires Valid([m] + s)
    ensures HandleAll([m] + s, [ExpungeMsg(m.id)], 7, true) == Batch(s, [], Ok)
  {
    var e := ExpungeMsg(m.id);
    assert [e][..0] == [] && ([m] + s)[0].id == m.id;
    assert RemoveMsg([m] + s, m.id) == s;
  }

  /** A message of another session without flags. */
  ghost predicate Plain(r: Responder) {
    r.TargetedExists? && r.flags == map[] && r.origin.None?
  }

  /** Three batches, one after the other. */
  lemma {:induction false} Chain(s: Snap, a: seq<Responder>, b: seq<Responder>, c: seq<Responder>, x: Batch, y: Batch)
    requires HandleAll(s, a, 7, true) == x && x.status == Ok
    requires HandleAll(x.snap, b, 7, true) == y && y.status == Ok
    ensures HandleAll(s, a + b + c, 7, true) == After(After(x, y), HandleAll(y.snap, c, 7, true))
  {
    HandleAllConcat(s, a, b, 7, true);
    HandleAllConcat(s, a + b, c, 7, true);
  }

  lemma {:induction false} CloseShrinks(m1: Msg, m2: Msg, m3: Msg)
    requires Valid([m1, m2, m3])
    ensures HandleAll([m1, m2, m3], [ExpungeMsg(m1.id)] + [ExpungeMsg(m2.id)], 7, true) == Batch([m3], [], Ok)
  {
    assert Valid([m2, m3]) by {
      assert forall i :: 0 <= i < 2 ==> [m2, m3][i] == [m1, m2, m3][i + 1];
    }
    assert [m1, m2, m3] == [m1] + [m2, m3] && [m2, m3] == [m2] + [m3];
    CloseExpunge([m2, m3], m1);
    CloseExpunge([m3], m2);
    HandleAllConcat([m1, m2, m3], [ExpungeMsg(m1.id)], [ExpungeMsg(m2.id)], 7, true);
  }

  lemma {:induction false} CloseGrows(s: Snap, t: Snap, a: Responder)
    requires Valid(s) && Plain(a) && !Has(s, a.id) && Below(s, a.uid) && t == s + [Arrived(a, 7)]
    requires forall i :: 0 <= i < |s| ==> s[i].flags == map[]
    ensures HandleAll(s, [a], 7, true) == Batch(t, [Exists(|t|)], Ok) && Valid(t) && Arrived(a, 7).flags == map[]
  {
    PlainArrival(s, a, 7, true);
    HandleAllValid(s, [a], 7, true);
  }

  lemma {:induction false} ShrinkingExistsPanics(out: seq<Response>)
    requires out == [Exists(3), Exists(2)]
    ensures MergeAll(out).None?
  {
    assert out[..1] == [Exists(3)] && Regresses(out[..1], out[1]);
    MergePanicsIff(out);
  }

  /**
   * In CLOSE, where EXPUNGE is not sent, a flush can make Merge panic: an arrival, two expunges and another arrival
   * announce 3 messages and then 2.
   */
  lemma {:induction false} CloseCanPanic(m1: Msg, m2: Msg, a: Responder, b: Responder)
    requires Valid([m1, m2]) && m1.flags == m2.flags == map[] && Plain(a) && Plain(b)
    requires m1.id != a.id && m2.id != a.id && a.id != b.id && m1.uid < m2.uid < a.uid < b.uid
    ensures var q := [a] + ([ExpungeMsg(m1.id)] + [ExpungeMsg(m2.id)]) + [b];
            var batch := HandleAll([m1, m2], q, 7, true);
            batch.status == Ok && MergeAll(batch.responses).None?
  {
    hide HandleAll, MergeAll;
    var m3, m4 := Arrived(a, 7), Arrived(b, 7);
    CloseGrows([m1, m2], [m1, m2, m3], a);
    CloseShrinks(m1, m2, m3);
    CloseGrows([m3], [m3, m4], b);
    var gone := [ExpungeMsg(m1.id)] + [ExpungeMsg(m2.id)];
    Chain([m1, m2], [a], gone, [b], Batch([m1, m2, m3], [Exists(3)], Ok), Batch([m3], [], Ok));
    ShrinkingExistsPanics([Exists(3)] + [] + [Exists(2)]);
  }
}

/** internal/state/responders.go: one EXISTS update shared by several sessions, and which of them sees \Recent. */
module RecentTarget {
  import opened Base
  import opened Flags
  import opened Snapshot
  import opened Responders

  datatype Arrival = Arrival(id: MessageId, remote: string, uid: Uid, flags: FlagSet)

  /** The update object shared by the sessions; Apply runs under its lock. */
  class ExistsStateUpdate {
    const arrivals: seq<Arrival>
    const origin: Option<StateId>
    var target: Option<StateId>

    /** The appending session is the target from the start; an update without one has no target yet. */
    constructor (arrivals: seq<Arrival>, origin: Option<StateId>)
      ensures this.arrivals == arrivals && this.origin == origin && target == origin
    {
      this.arrivals, this.origin, this.target := arrivals, origin, origin;
    }

    /** The responders the session is to be given. */
    method Apply(sid: StateId) returns (rs: seq<Responder>)
      modifies this
      ensures target == Some(TargetAfter(old(target), sid))
      ensures rs == TargetedAll(arrivals, target.value, origin)
    {
      if target.None? {
        target := Some(sid);
      }
      rs := [];
      for i := 0 to |arrivals|
        invariant |rs| == i && forall j :: 0 <= j < i ==> rs[j] == Targeted(arrivals[j], target.value, origin)
      {
        rs := rs + [Targeted(arrivals[i], target.value, origin)];
      }
    }
  }

  function TargetAfter(target: Option<StateId>, sid: StateId): StateId {
    if target.Some? then target.value else sid
  }

  function Targeted(a: Arrival, target: StateId, origin: Option<StateId>): Responder {
    TargetedExists(a.id, a.remote, a.uid, a.flags, target, origin)
  }

  function TargetedAll(arrivals: seq<Arrival>, target: StateId, origin: Option<StateId>): (rs: seq<Responder>)
    ensures |rs| == |arrivals| && forall j :: 0 <= j < |rs| ==> rs[j] == Targeted(arrivals[j], target, origin)
  {
    seq(|arrivals|, j requires 0 <= j < |arrivals| => Targeted(arrivals[j], target, origin))
  }

  /** The responders each session receives when they apply the update one after the other. */
  function ApplyAll(
    arrivals: seq<Arrival>, target: Option<StateId>, origin: Option<StateId>, sids: seq<StateId>)
    : (rss: seq<seq<Responder>>)
    ensures |rss| == |sids| && forall i :: 0 <= i < |rss| ==> |rss[i]| == |arrivals|
    ensures forall i, j :: 0 <= i < |rss| && 0 <= j < |arrivals| ==> rss[i][j].TargetedExists?
    decreases |sids|
  {
    if |sids| == 0 then [] else
    var t := TargetAfter(target, sids[0]);
    [TargetedAll(arrivals, t, origin)] + ApplyAll(arrivals, Some(t), origin, sids[1..])
  }

  /** The target is the origin, or else whichever session applies first, and never changes. */
  lemma {:induction false} TargetFixed(
    arrivals: seq<Arrival>, target: Option<StateId>, origin: Option<StateId>, sids: seq<StateId>, i: nat)
    requires i < |sids|
    ensures ApplyAll(arrivals, target, origin, sids)[i] == TargetedAll(arrivals, TargetAfter(target, sids[0]), origin)
    decreases |sids|
  {
    if i > 0 {
      TargetFixed(arrivals, Some(TargetAfter(target, sids[0])), origin, sids[1..], i - 1);
    }
  }

  /** What a session's snapshot shows of the message right after the responder was handled. */
  ghost predicate ShowsRecent(s: Snap, r: Responder, sid: StateId) {
    && r.TargetedExists? && !Has(s, r.id) && HandleExists(s, r, sid).Done?
    && var t := HandleExists(s, r, sid).snap;
       Has(t, r.id) && RECENT_KEY in t[IndexOf(t, r.id)].flags
  }

  lemma {:induction false} ArrivalInserted(s: Snap, r: Responder, sid: StateId)
    requires Valid(s) && r.TargetedExists? && !Has(s, r.id) && HandleExists(s, r, sid).Done?
    ensures HandleExists(s, r, sid).snap == Insert(s, Arrived(r, sid))
  {
    if r.origin == Some(sid) {
      AppendIsInsert(s, Arrived(r, sid));
    }
  }

  lemma {:induction false} ShowsRecentIff(s: Snap, r: Responder, sid: StateId)
    requires Valid(s) && r.TargetedExists? && !Has(s, r.id) && HandleExists(s, r, sid).Done?
    ensures ShowsRecent(s, r, sid) <==> r.target == sid && RECENT_KEY in r.flags
  {
    var m, t := Arrived(r, sid), HandleExists(s, r, sid).snap;
    ArrivalInserted(s, r, sid);
    hide HandleExists, Valid;
    InsertValid(s, m);
    LookupAt(t, Rank(s, m.uid));
    FlagNames();
  }

  /**
   * Whatever order the sessions apply one update in, and whatever their snapshots then hold, only the origin, or
   * without one the session that applied first, can see the new message as \Recent.
   */
  lemma {:induction false} OnlyTargetSeesRecent(
    arrivals: seq<Arrival>, origin: Option<StateId>, sids: seq<StateId>, i: nat, j: nat, s: Snap)
    requires i < |sids| && j < |arrivals| && Valid(s) && !Has(s, arrivals[j].id)
    requires HandleExists(s, ApplyAll(arrivals, origin, origin, sids)[i][j], sids[i]).Done?
    ensures ShowsRecent(s, ApplyAll(arrivals, origin, origin, sids)[i][j], sids[i])
       <==> sids[i] == TargetAfter(origin, sids[0]) && RECENT_KEY in arrivals[j].flags
  {
    TargetFixed(arrivals, origin, origin, sids, i);
    ShowsRecentIff(s, ApplyAll(arrivals, origin, origin, sids)[i][j], sids[i]);
  }
}

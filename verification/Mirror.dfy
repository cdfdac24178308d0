/** What a client knows stays true of the snapshot while it reads the responses of handled responders. */
module Mirror {
  import opened Base
  import opened Flags
  import opened Snapshot
  import opened Responses
  import opened Responders

  /** Same length, and every UID the client knows sits at the right sequence number. */
  ghost predicate Placed(c: Client, s: Snap) {
    && |c.slots| == |s|
    && forall i :: 0 <= i < |s| && c.slots[i].uid.Some? ==> c.slots[i].uid.value == s[i].uid
  }

  /** Every flag list the client knows is current (flags compare by their lower-case keys). */
  ghost predicate Current(c: Client, s: Snap) {
    && |c.slots| == |s|
    && forall i :: 0 <= i < |s| && c.slots[i].flags.Some? ==> c.slots[i].flags.value == s[i].flags.Keys
  }

  /** If the client knows the flags of the message, they are current. */
  ghost predicate CurrentAt(c: Client, s: Snap, id: MessageId) {
    |c.slots| == |s| && (Has(s, id) ==>
      var i := IndexOf(s, id);
      c.slots[i].flags.Some? ==> c.slots[i].flags.value == s[i].flags.Keys)
  }

  /** If r brings in a message, it lands at the end of the list. */
  predicate Appends(s: Snap, r: Responder) {
    r.TargetedExists? && !Has(s, r.id) ==> Rank(s, r.uid) == |s|
  }

  predicate Silent(r: Responder) {
    r.FetchFlags? && r.asSilent
  }

  lemma {:induction false} AnnounceSeen(c: Client, t: Snap)
    requires |c.slots| <= |t|
    ensures LegalStream(c, Announce(t))
    ensures Watch(c, Announce(t)).slots == Extend(c.slots, |t|)
  {
    WatchCons(c, Exists(|t|), []);
    assert [Exists(|t|)] + [] == [Exists(|t|)];
    if RecentCount(t) > 0 {
      WatchCons(See(c, Exists(|t|)), Recent(RecentCount(t)), []);
      assert [Recent(RecentCount(t))] + [] == [Recent(RecentCount(t))];
      WatchCons(c, Exists(|t|), [Recent(RecentCount(t))]);
    } else {
      assert Announce(t) == [Exists(|t|)];
    }
  }

  lemma {:induction false} OneSeen(c: Client, r: Response)
    ensures Watch(c, [r]) == See(c, r) && (LegalStream(c, [r]) <==> Legal(c, r))
  {
    WatchCons(c, r, []);
    assert [r] + [] == [r];
  }

  lemma {:induction false} FetchLearned(slot: Slot, flags: FlagSet, uid: Uid, asUid: bool)
    ensures var items := FetchItems(flags, uid, asUid);
            && UniqueKinds(items)
            && Learn(slot, items) == slot.(flags := Some(flags.Keys), uid := if asUid then Some(uid) else slot.uid)
  {
    var one := [FlagsItem(flags)];
    assert one[..0] == [];
    assert Learn(slot, one) == slot.(flags := Some(flags.Keys));
    if asUid {
      assert (one + [UidItem(uid)])[..1] == one;
    } else {
      assert one + [] == one;
    }
  }

  lemma {:induction false} FetchSeen(c: Client, s: Snap, r: Responder)
    requires r.FetchFlags? && Has(s, r.id) && |c.slots| == |s| && HandleFetch(s, r).responses != []
    ensures var o := HandleFetch(s, r);
            var i := IndexOf(s, r.id);
            && LegalStream(c, o.responses)
            && Watch(c, o.responses).slots ==
               c.slots[i := c.slots[i].(flags := Some(o.snap[i].flags.Keys),
                                        uid := if r.asUid then Some(s[i].uid) else c.slots[i].uid)]
  {
    var o := HandleFetch(s, r);
    var i := IndexOf(s, r.id);
    FetchLearned(c.slots[i], o.snap[i].flags, o.snap[i].uid, r.asUid);
    OneSeen(c, o.responses[0]);
    assert o.responses == [o.responses[0]];
  }

  /** Outside CLOSE the responses are legal and keep the client's message count right. */
  lemma {:induction false} HandleSeen(c: Client, s: Snap, r: Responder, sid: StateId)
    requires Valid(s) && |c.slots| == |s| && Handle(s, r, sid, false).Done?
    ensures var o := Handle(s, r, sid, false);
            LegalStream(c, o.responses) && |Watch(c, o.responses).slots| == |o.snap|
  {
    var o := Handle(s, r, sid, false);
    if o.responses != [] {
      match r
      case TargetedExists(_, _, _, _, _, _) => AnnounceSeen(c, o.snap);
      case ExpungeMsg(_) => OneSeen(c, o.responses[0]);
      case FetchFlags(_, _, _, _, _, _) => FetchSeen(c, s, r);
    }
  }

  lemma {:induction false} ExistsMirrors(c: Client, s: Snap, r: Responder, sid: StateId)
    requires r.TargetedExists? && Valid(s) && Placed(c, s) && HandleExists(s, r, sid).Done? && Appends(s, r)
    ensures var o := HandleExists(s, r, sid);
            && Placed(Watch(c, o.responses), o.snap)
            && (Current(c, s) ==> Current(Watch(c, o.responses), o.snap))
  {
    if !Has(s, r.id) {
      AnnounceSeen(c, HandleExists(s, r, sid).snap);
    }
  }

  lemma {:induction false} ExpungeMirrors(c: Client, s: Snap, id: MessageId)
    requires Valid(s) && Placed(c, s)
    ensures var o := HandleExpunge(s, id, false);
            && Placed(Watch(c, o.responses), o.snap)
            && (Current(c, s) ==> Current(Watch(c, o.responses), o.snap))
  {
    if Has(s, id) {
      OneSeen(c, Expunge(IndexOf(s, id) + 1));
    }
  }

  lemma {:induction false} FetchMirrors(c: Client, s: Snap, r: Responder)
    requires r.FetchFlags? && Valid(s) && Placed(c, s)
    ensures var o := HandleFetch(s, r);
            && Placed(Watch(c, o.responses), o.snap)
            && (Current(c, s) && !r.asSilent ==> Current(Watch(c, o.responses), o.snap))
  {
    if HandleFetch(s, r).responses != [] {
      FetchSeen(c, s, r);
    }
  }

  lemma {:induction false} HandleMirrors(c: Client, s: Snap, r: Responder, sid: StateId)
    requires Valid(s) && Placed(c, s) && Handle(s, r, sid, false).Done? && Appends(s, r)
    ensures var o := Handle(s, r, sid, false);
            && Placed(Watch(c, o.responses), o.snap)
            && (Current(c, s) && !Silent(r) ==> Current(Watch(c, o.responses), o.snap))
  {
    match r
    case TargetedExists(_, _, _, _, _, _) => ExistsMirrors(c, s, r, sid);
    case ExpungeMsg(id) => ExpungeMirrors(c, s, id);
    case FetchFlags(_, _, _, _, _, _) => FetchMirrors(c, s, r);
  }

  // ----- flags, message by message

  lemma {:induction false} CurrentIffAt(c: Client, s: Snap)
    requires DistinctIds(s) && |c.slots| == |s|
    ensures Current(c, s) <==> forall id :: CurrentAt(c, s, id)
  {
    if forall id :: CurrentAt(c, s, id) {
      forall i | 0 <= i < |s| && c.slots[i].flags.Some? ensures c.slots[i].flags.value == s[i].flags.Keys {
        LookupAt(s, i);
        assert CurrentAt(c, s, s[i].id);
      }
    }
  }

  /** The flags known of the message at position i before are those known at position k after. */
  lemma {:induction false} CurrentMoved(c: Client, s: Snap, i: nat, d: Client, t: Snap, k: nat)
    requires DistinctIds(s) && DistinctIds(t) && i < |s| && k < |t| && |c.slots| == |s| && |d.slots| == |t|
    requires s[i].id == t[k].id && s[i].flags == t[k].flags && c.slots[i].flags == d.slots[k].flags
    ensures CurrentAt(c, s, s[i].id) ==> CurrentAt(d, t, s[i].id)
  {
    LookupAt(s, i);
    LookupAt(t, k);
  }

  lemma {:induction false} ExistsKeepsFlags(c: Client, s: Snap, r: Responder, sid: StateId, id: MessageId)
    requires r.TargetedExists? && Valid(s) && HandleExists(s, r, sid).Done? && Appends(s, r) && CurrentAt(c, s, id)
    ensures CurrentAt(Watch(c, HandleExists(s, r, sid).responses), HandleExists(s, r, sid).snap, id)
  {
    var o := HandleExists(s, r, sid);
    if !Has(s, r.id) {
      HandleValid(s, r, sid, false);
      AnnounceSeen(c, o.snap);
      var d := Watch(c, o.responses);
      if Has(s, id) {
        var i := IndexOf(s, id);
        CurrentMoved(c, s, i, d, o.snap, i);
      } else if Has(o.snap, id) {
        assert IndexOf(o.snap, id) == |s| && d.slots[|s|] == UNKNOWN;
      }
    }
  }

  lemma {:induction false} ExpungeKeepsFlags(c: Client, s: Snap, x: MessageId, id: MessageId)
    requires Valid(s) && CurrentAt(c, s, id)
    ensures CurrentAt(Watch(c, HandleExpunge(s, x, false).responses), HandleExpunge(s, x, false).snap, id)
  {
    if Has(s, x) {
      var o, p := HandleExpunge(s, x, false), IndexOf(s, x);
      OneSeen(c, Expunge(p + 1));
      RemoveValid(s, x);
      if Has(o.snap, id) {
        var k := IndexOf(o.snap, id);
        var i := if k < p then k else k + 1;
        LookupAt(s, i);
        CurrentMoved(c, s, i, Watch(c, o.responses), o.snap, k);
      }
    }
  }

  lemma {:induction false} FetchKeepsFlags(c: Client, s: Snap, r: Responder, id: MessageId)
    requires r.FetchFlags? && Valid(s) && CurrentAt(c, s, id) && !(r.asSilent && r.id == id)
    ensures CurrentAt(Watch(c, HandleFetch(s, r).responses), HandleFetch(s, r).snap, id)
  {
    if Has(s, r.id) {
      var o, p := HandleFetch(s, r), IndexOf(s, r.id);
      SetFlagsValid(s, r.id, NewFlags(s[p].flags, r));
      if o.responses != [] {
        FetchSeen(c, s, r);
      }
      if Has(o.snap, id) {
        var i := IndexOf(o.snap, id);
        LookupAt(s, i);
        if i != p {
          CurrentMoved(c, s, i, Watch(c, o.responses), o.snap, i);
        }
      }
    }
  }

  /** Only a silent change of the message itself can leave the client with flags that are not current. */
  lemma {:induction false} HandleKeepsFlags(c: Client, s: Snap, r: Responder, sid: StateId, id: MessageId)
    requires Valid(s) && Handle(s, r, sid, false).Done? && Appends(s, r)
    requires CurrentAt(c, s, id) && !(Silent(r) && r.id == id)
    ensures CurrentAt(Watch(c, Handle(s, r, sid, false).responses), Handle(s, r, sid, false).snap, id)
  {
    match r
    case TargetedExists(_, _, _, _, _, _) => ExistsKeepsFlags(c, s, r, sid, id);
    case ExpungeMsg(x) => ExpungeKeepsFlags(c, s, x, id);
    case FetchFlags(_, _, _, _, _, _) => FetchKeepsFlags(c, s, r, id);
  }

  /** The client knows no UID at position p (counted from 0) or above. */
  ghost predicate NothingKnownFrom(c: Client, p: nat) {
    forall i :: p <= i < |c.slots| ==> c.slots[i].uid.None?
  }

  lemma {:induction false} ShiftKeeps(c: Client, d: Client, s: Snap, m: Msg)
    requires Placed(c, s) && d.slots == Extend(c.slots, |s| + 1) && NothingKnownFrom(c, Rank(s, m.uid))
    ensures Placed(d, Insert(s, m))
  {
  }

  lemma {:induction false} ShiftBreaks(c: Client, d: Client, s: Snap, m: Msg)
    requires Ascending(s) && !HasUid(s, m.uid) && Placed(c, s) && d.slots == Extend(c.slots, |s| + 1)
    requires !NothingKnownFrom(c, Rank(s, m.uid))
    ensures !Placed(d, Insert(s, m))
  {
    var i :| Rank(s, m.uid) <= i < |s| && c.slots[i].uid.Some?;
    RankSplits(s, m.uid);
    assert d.slots[i] == c.slots[i] && Insert(s, m)[i].uid != s[i].uid;
  }

  /**
   * Exactly when an arrival keeps a correct client correct: no UID the client knows sits at or above the position
   * where the new message is inserted.
   */
  lemma {:induction false} ArrivalMirrorsIff(c: Client, s: Snap, r: Responder, sid: StateId)
    requires r.TargetedExists? && Valid(s) && Placed(c, s) && !Has(s, r.id) && HandleExists(s, r, sid).Done?
    ensures Placed(Watch(c, HandleExists(s, r, sid).responses), HandleExists(s, r, sid).snap)
       <==> NothingKnownFrom(c, Rank(s, r.uid))
  {
    var m, o := Arrived(r, sid), HandleExists(s, r, sid);
    if r.origin == Some(sid) { AppendIsInsert(s, m); }
    AnnounceSeen(c, o.snap);
    if NothingKnownFrom(c, Rank(s, r.uid)) {
      ShiftKeeps(c, Watch(c, o.responses), s, m);
    } else {
      ShiftBreaks(c, Watch(c, o.responses), s, m);
    }
  }

  // ----- whole batches

  predicate AppendsAll(s: Snap, rs: seq<Responder>, sid: StateId) {
    |rs| > 0 ==>
      var front := rs[..|rs| - 1];
      AppendsAll(s, front, sid) && Appends(HandleAll(s, front, sid, false).snap, rs[|rs| - 1])
  }

  lemma {:induction false} HandleAllSeen(c: Client, s: Snap, rs: seq<Responder>, sid: StateId)
    requires Valid(s) && |c.slots| == |s|
    ensures var b := HandleAll(s, rs, sid, false);
            LegalStream(c, b.responses) && |Watch(c, b.responses).slots| == |b.snap|
  {
    if |rs| > 0 {
      var n := |rs| - 1;
      HandleAllSeen(c, s, rs[..n], sid);
      HandleAllValid(s, rs[..n], sid, false);
      var b := HandleAll(s, rs[..n], sid, false);
      var o := Handle(b.snap, rs[n], sid, false);
      if b.status == Ok && o.Done? {
        HandleSeen(Watch(c, b.responses), b.snap, rs[n], sid);
        WatchConcat(c, b.responses, o.responses);
      }
    }
  }

  lemma {:induction false} HandleAllMirrors(c: Client, s: Snap, rs: seq<Responder>, sid: StateId)
    requires Valid(s) && Placed(c, s) && HandleAll(s, rs, sid, false).status == Ok && AppendsAll(s, rs, sid)
    ensures var b := HandleAll(s, rs, sid, false);
            && Placed(Watch(c, b.responses), b.snap)
            && (Current(c, s) && (forall r :: r in rs ==> !Silent(r)) ==> Current(Watch(c, b.responses), b.snap))
  {
    if |rs| > 0 {
      var n := |rs| - 1;
      HandleAllMirrors(c, s, rs[..n], sid);
      HandleAllValid(s, rs[..n], sid, false);
      var b := HandleAll(s, rs[..n], sid, false);
      var o := Handle(b.snap, rs[n], sid, false);
      HandleMirrors(Watch(c, b.responses), b.snap, rs[n], sid);
      WatchConcat(c, b.responses, o.responses);
    }
  }

  lemma {:induction false} HandleAllKeepsFlags(c: Client, s: Snap, rs: seq<Responder>, sid: StateId, id: MessageId)
    requires Valid(s) && HandleAll(s, rs, sid, false).status == Ok && AppendsAll(s, rs, sid)
    requires CurrentAt(c, s, id) && forall r :: r in rs ==> !(Silent(r) && r.id == id)
    ensures var b := HandleAll(s, rs, sid, false);
            CurrentAt(Watch(c, b.responses), b.snap, id)
  {
    if |rs| > 0 {
      var n := |rs| - 1;
      HandleAllKeepsFlags(c, s, rs[..n], sid, id);
      HandleAllValid(s, rs[..n], sid, false);
      var b := HandleAll(s, rs[..n], sid, false);
      var o := Handle(b.snap, rs[n], sid, false);
      HandleKeepsFlags(Watch(c, b.responses), b.snap, rs[n], sid, id);
      WatchConcat(c, b.responses, o.responses);
    }
  }

  // ----- exactly when the mirror holds throughout a batch

  /** Every UID the client knows is below u. */
  ghost predicate KnownBelow(c: Client, u: Uid) {
    forall i :: 0 <= i < |c.slots| && c.slots[i].uid.Some? ==> c.slots[i].uid.value < u
  }

  lemma {:induction false} KnownBelowIff(c: Client, s: Snap, u: Uid)
    requires Ascending(s) && Placed(c, s) && !HasUid(s, u)
    ensures NothingKnownFrom(c, Rank(s, u)) <==> KnownBelow(c, u)
  {
    RankSplits(s, u);
    assert forall i :: 0 <= i < |s| ==> s[i].uid != u;
  }

  /** If r brings in a message, its UID is above every UID the client knows. */
  ghost predicate AboveKnown(c: Client, s: Snap, r: Responder) {
    r.TargetedExists? && !Has(s, r.id) ==> KnownBelow(c, r.uid)
  }

  lemma {:induction false} StepMirrorsIff(c: Client, s: Snap, r: Responder, sid: StateId)
    requires Valid(s) && Placed(c, s) && Handle(s, r, sid, false).Done?
    ensures var o := Handle(s, r, sid, false);
            Placed(Watch(c, o.responses), o.snap) <==> AboveKnown(c, s, r)
  {
    match r
    case TargetedExists(_, _, _, _, _, _) =>
      if !Has(s, r.id) {
        if r.origin == Some(sid) { AppendIsInsert(s, Arrived(r, sid)); }
        ArrivalMirrorsIff(c, s, r, sid);
        KnownBelowIff(c, s, r.uid);
      }
    case ExpungeMsg(id) => ExpungeMirrors(c, s, id);
    case FetchFlags(_, _, _, _, _, _) => FetchMirrors(c, s, r);
  }

  /** The mirror holds after every responder of the batch. */
  ghost predicate MirrorsThroughout(c: Client, s: Snap, rs: seq<Responder>, sid: StateId) {
    |rs| > 0 ==>
      var b := HandleAll(s, rs, sid, false);
      MirrorsThroughout(c, s, rs[..|rs| - 1], sid) && Placed(Watch(c, b.responses), b.snap)
  }

  /** Each arrival that brings a message in has, at its turn, a UID above every UID the client then knows. */
  ghost predicate AllAboveKnown(c: Client, s: Snap, rs: seq<Responder>, sid: StateId) {
    |rs| > 0 ==>
      var b := HandleAll(s, rs[..|rs| - 1], sid, false);
      AllAboveKnown(c, s, rs[..|rs| - 1], sid) && AboveKnown(Watch(c, b.responses), b.snap, rs[|rs| - 1])
  }

  /** A batch keeps the client right throughout exactly when every arrival is above what the client knows. */
  lemma {:induction false} BatchMirrorsIff(c: Client, s: Snap, rs: seq<Responder>, sid: StateId)
    requires Valid(s) && Placed(c, s) && HandleAll(s, rs, sid, false).status == Ok
    ensures MirrorsThroughout(c, s, rs, sid) <==> AllAboveKnown(c, s, rs, sid)
    ensures MirrorsThroughout(c, s, rs, sid) ==>
      var b := HandleAll(s, rs, sid, false);
      Placed(Watch(c, b.responses), b.snap)
  {
    if |rs| > 0 {
      var n := |rs| - 1;
      BatchMirrorsIff(c, s, rs[..n], sid);
      HandleAllValid(s, rs[..n], sid, false);
      var b := HandleAll(s, rs[..n], sid, false);
      var o := Handle(b.snap, rs[n], sid, false);
      if MirrorsThroughout(c, s, rs[..n], sid) {
        hide Handle, Placed;
        StepMirrorsIff(Watch(c, b.responses), b.snap, rs[n], sid);
        WatchConcat(c, b.responses, o.responses);
      }
    }
  }
}

/** CLOSE: a flush that removes messages without saying so, and when merging its responses panics. */
module Closing {
  import opened Base
  import opened Flags
  import opened Snapshot
  import opened Responses
  import opened Merge
  import opened Responders
  import opened FlagFate

  // ----- the queue read message by message

  /** The message just before responder k is handled. */
  function Before(s: Snap, q: seq<Responder>, k: nat, sid: StateId, id: MessageId): Option<Msg>
    requires k <= |q|
  {
    Trace(Held(s, id), q[..k], sid, id)
  }

  predicate BringsIn(s: Snap, q: seq<Responder>, k: nat, sid: StateId)
    requires k < |q|
  {
    q[k].TargetedExists? && Before(s, q, k, sid, q[k].id).None?
  }

  predicate TakesOut(s: Snap, q: seq<Responder>, k: nat, sid: StateId)
    requires k < |q|
  {
    q[k].ExpungeMsg? && Before(s, q, k, sid, q[k].id).Some?
  }

  function RecentOne(o: Option<Msg>): nat {
    if o.Some? && RECENT_KEY in o.value.flags then 1 else 0
  }

  /** The number of \Recent messages before responder k. */
  function Recents(s: Snap, q: seq<Responder>, k: nat, sid: StateId): int
    requires k <= |q|
  {
    if k == 0 then RecentCount(s) else
    var id := q[k - 1].id;
    Recents(s, q, k - 1, sid) + RecentOne(Before(s, q, k, sid, id)) - RecentOne(Before(s, q, k - 1, sid, id))
  }

  /** The last responder before k that brings a message in, or -1. */
  function LastIn(s: Snap, q: seq<Responder>, k: nat, sid: StateId): (j: int)
    requires k <= |q|
    ensures -1 <= j < k && (j >= 0 ==> BringsIn(s, q, j, sid))
    ensures forall i :: j < i < k ==> !BringsIn(s, q, i, sid)
  {
    if k == 0 then -1 else if BringsIn(s, q, k - 1, sid) then k - 1 else LastIn(s, q, k - 1, sid)
  }

  predicate TellsRecent(s: Snap, q: seq<Responder>, k: nat, sid: StateId)
    requires k < |q|
  {
    BringsIn(s, q, k, sid) && Recents(s, q, k + 1, sid) > 0
  }

  /** The last responder before k at which a \Recent count is announced, or -1. */
  function LastTold(s: Snap, q: seq<Responder>, k: nat, sid: StateId): (j: int)
    requires k <= |q|
    ensures -1 <= j < k && (j >= 0 ==> TellsRecent(s, q, j, sid))
    ensures forall i :: j < i < k ==> !TellsRecent(s, q, i, sid)
  {
    if k == 0 then -1 else if TellsRecent(s, q, k - 1, sid) then k - 1 else LastTold(s, q, k - 1, sid)
  }

  /** How many messages leave from responder a up to responder b. */
  function Leavers(s: Snap, q: seq<Responder>, a: nat, b: nat, sid: StateId): nat
    requires b <= |q|
  {
    if b <= a then 0
    else Leavers(s, q, a, b - 1, sid) + if TakesOut(s, q, b - 1, sid) then 1 else 0
  }

  /** Two messages or more left since the last arrival, or fewer messages are \Recent than were last announced. */
  predicate Drops(s: Snap, q: seq<Responder>, k: nat, sid: StateId)
    requires k < |q|
  {
    BringsIn(s, q, k, sid) && (
      || (LastIn(s, q, k, sid) >= 0 && Leavers(s, q, LastIn(s, q, k, sid) + 1, k, sid) >= 2)
      || (TellsRecent(s, q, k, sid) && LastTold(s, q, k, sid) >= 0
          && Recents(s, q, k + 1, sid) < Recents(s, q, LastTold(s, q, k, sid) + 1, sid)))
  }

  // ----- one responder on the snapshot

  lemma {:induction false} RecentCountSet(s: Snap, i: nat, m: Msg)
    requires i < |s|
    ensures RecentCount(s[i := m]) == RecentCount(s) - RecentOne(Some(s[i])) + RecentOne(Some(m))
    decreases |s|
  {
    var n := |s| - 1;
    assert s[i := m][..n] == if i == n then s[..n] else s[..n][i := m];
    if i < n {
      RecentCountSet(s[..n], i, m);
    }
  }

  lemma {:induction false} RecentCountDrop(s: Snap, i: nat)
    requires i < |s|
    ensures RecentCount(Drop(s, i)) == RecentCount(s) - RecentOne(Some(s[i]))
    decreases |s|
  {
    var n := |s| - 1;
    if i < n {
      assert Drop(s, i)[..n - 1] == Drop(s[..n], i);
      RecentCountDrop(s[..n], i);
    } else {
      assert Drop(s, i) == s[..n];
    }
  }

  /** How a responder changes the number of messages and of \Recent messages. */
  lemma {:induction false} HandleCounts(s: Snap, r: Responder, sid: StateId)
    requires Valid(s) && Handle(s, r, sid, true).Done?
    ensures var t := Handle(s, r, sid, true).snap;
            && |t| == |s| + (if r.TargetedExists? && Held(s, r.id).None? then 1 else 0)
                          - (if r.ExpungeMsg? && Held(s, r.id).Some? then 1 else 0)
            && RecentCount(t) ==
               RecentCount(s) + RecentOne(TraceOne(Held(s, r.id), r, sid, r.id)) - RecentOne(Held(s, r.id))
  {
    if r.TargetedExists? && !Has(s, r.id) {
      var m := Arrived(r, sid);
      if r.origin == Some(sid) { AppendIsInsert(s, m); }
      RecentCountPut(s, Rank(s, m.uid), m);
    } else if r.ExpungeMsg? && Has(s, r.id) {
      RecentCountDrop(s, IndexOf(s, r.id));
    } else if r.FetchFlags? && Has(s, r.id) {
      var i := IndexOf(s, r.id);
      RecentCountSet(s, i, WithFlags(s[i], NewFlags(s[i].flags, r)));
    }
  }

  // ----- the responses of a CLOSE flush, all of them mergeable

  lemma {:induction false} LastsSnoc(rs: seq<Response>, r: Response)
    requires Mergeable(r)
    ensures LastExists(rs + [r]) == if r.Exists? then Some(r.count) else LastExists(rs)
    ensures LastRecent(rs + [r]) == if r.Recent? then Some(r.count) else LastRecent(rs)
  {
    assert (rs + [r])[..|rs|] == rs;
  }

  /** Announcing the counts of t does not fall below what the stream announced last. */
  ghost predicate Keeps(before: seq<Response>, t: Snap) {
    && (LastExists(before).Some? ==> LastExists(before).value <= |t|)
    && (RecentCount(t) > 0 && LastRecent(before).Some? ==> LastRecent(before).value <= RecentCount(t))
  }

  /** What announcing the counts of t does to a stream. */
  lemma {:induction false} AnnounceStep(before: seq<Response>, t: Snap)
    ensures var after := before + Announce(t);
            && (NoRegress(after) <==> NoRegress(before) && Keeps(before, t))
            && LastExists(after) == Some(|t|)
            && LastRecent(after) == if RecentCount(t) > 0 then Some(RecentCount(t)) else LastRecent(before)
  {
    var one := before + [Exists(|t|)];
    NoRegressSnoc(before, Exists(|t|));
    LastsSnoc(before, Exists(|t|));
    if RecentCount(t) > 0 {
      NoRegressSnoc(one, Recent(RecentCount(t)));
      LastsSnoc(one, Recent(RecentCount(t)));
      assert one + [Recent(RecentCount(t))] == before + Announce(t);
    } else {
      assert one == before + Announce(t);
    }
  }

  lemma {:induction false} FetchStep(before: seq<Response>, r: Response)
    requires r.Fetch?
    ensures NoRegress(before + [r]) <==> NoRegress(before)
    ensures LastExists(before + [r]) == LastExists(before) && LastRecent(before + [r]) == LastRecent(before)
  {
    NoRegressSnoc(before, r);
    LastsSnoc(before, r);
  }

  /** Only an arrival that brings a message in moves the counts of the stream. */
  lemma {:induction false} HandleSays(s: Snap, r: Responder, sid: StateId, before: seq<Response>)
    requires Handle(s, r, sid, true).Done?
    ensures var o := Handle(s, r, sid, true);
            var after := before + o.responses;
            var brings := r.TargetedExists? && Held(s, r.id).None?;
            && (brings ==> o.responses == Announce(o.snap))
            && (!brings ==> (NoRegress(after) <==> NoRegress(before)))
            && (!brings ==> LastExists(after) == LastExists(before) && LastRecent(after) == LastRecent(before))
  {
    var o := Handle(s, r, sid, true);
    if o.responses == [] {
      assert before + o.responses == before;
    } else if r.FetchFlags? {
      FetchStep(before, o.responses[0]);
      assert o.responses == [o.responses[0]];
    }
  }

  // ----- the whole flush

  /** What the queue says of the flush after n responders. */
  ghost predicate Story(s: Snap, q: seq<Responder>, n: nat, sid: StateId, b: Batch)
    requires n <= |q|
  {
    var last, told := LastIn(s, q, n, sid), LastTold(s, q, n, sid);
    && RecentCount(b.snap) == Recents(s, q, n, sid)
    && (last < 0 <==> LastExists(b.responses).None?)
    && (last >= 0 ==> LastExists(b.responses).value == |b.snap| + Leavers(s, q, last + 1, n, sid))
    && (told < 0 <==> LastRecent(b.responses).None?)
    && (told >= 0 ==> LastRecent(b.responses).value == Recents(s, q, told + 1, sid))
  }

  lemma {:induction false} BeforeNext(s: Snap, q: seq<Responder>, n: nat, sid: StateId, id: MessageId)
    requires n < |q|
    ensures Before(s, q, n + 1, sid, id) == TraceOne(Before(s, q, n, sid, id), q[n], sid, id)
  {
    assert q[..n + 1] == q[..n] + [q[n]];
    TraceSnoc(Held(s, id), q[..n], q[n], sid, id);
  }

  /** The counts the queue gives after one more responder. */
  lemma {:induction false} CountsNext(s: Snap, q: seq<Responder>, n: nat, sid: StateId, b: Batch)
    requires n < |q| && Valid(b.snap) && Handle(b.snap, q[n], sid, true).Done?
    requires RecentCount(b.snap) == Recents(s, q, n, sid) && Held(b.snap, q[n].id) == Before(s, q, n, sid, q[n].id)
    ensures var t := Handle(b.snap, q[n], sid, true).snap;
            && RecentCount(t) == Recents(s, q, n + 1, sid)
            && |t| == |b.snap| + (if BringsIn(s, q, n, sid) then 1 else 0) - (if TakesOut(s, q, n, sid) then 1 else 0)
  {
    HandleCounts(b.snap, q[n], sid);
    BeforeNext(s, q, n, sid, q[n].id);
  }

  lemma {:induction false} StoryNext(s: Snap, q: seq<Responder>, n: nat, sid: StateId, b: Batch, c: Batch)
    requires n < |q| && Valid(b.snap) && Handle(b.snap, q[n], sid, true).Done? && Story(s, q, n, sid, b)
    requires Held(b.snap, q[n].id) == Before(s, q, n, sid, q[n].id)
    requires var o := Handle(b.snap, q[n], sid, true); c.snap == o.snap && c.responses == b.responses + o.responses
    ensures Story(s, q, n + 1, sid, c)
    ensures NoRegress(c.responses) <==> NoRegress(b.responses) && !Drops(s, q, n, sid)
  {
    hide Handle, NoRegress, Before;
    CountsNext(s, q, n, sid, b);
    HandleSays(b.snap, q[n], sid, b.responses);
    AnnounceStep(b.responses, c.snap);
  }

  /** None of the first n responders drops a count. */
  predicate Calm(s: Snap, q: seq<Responder>, n: nat, sid: StateId)
    requires n <= |q|
  {
    n == 0 || (Calm(s, q, n - 1, sid) && !Drops(s, q, n - 1, sid))
  }

  lemma {:induction false} CalmIff(s: Snap, q: seq<Responder>, n: nat, sid: StateId)
    requires n <= |q|
    ensures Calm(s, q, n, sid) <==> forall k :: 0 <= k < n ==> !Drops(s, q, k, sid)
  {
    if n > 0 {
      hide Drops;
      CalmIff(s, q, n - 1, sid);
    }
  }

  lemma {:induction false} StoryBegins(s: Snap, q: seq<Responder>, sid: StateId)
    ensures var b := HandleAll(s, q[..0], sid, true);
            b.status == Ok && Story(s, q, 0, sid, b) && NoRegress(b.responses)
  {
    assert q[..0] == [];
  }

  lemma {:induction false} FlushStory(s: Snap, q: seq<Responder>, n: nat, sid: StateId)
    requires Valid(s) && n <= |q| && HandleAll(s, q, sid, true).status == Ok
    ensures var b := HandleAll(s, q[..n], sid, true);
            && b.status == Ok && Story(s, q, n, sid, b)
            && (NoRegress(b.responses) <==> Calm(s, q, n, sid))
  {
    if n == 0 {
      StoryBegins(s, q, sid);
    } else {
      hide Drops, NoRegress, Story, Handle, HandleAll;
      FlushStory(s, q, n - 1, sid);
      BatchNext(s, q, n - 1, sid);
      StoryNext(s, q, n - 1, sid, HandleAll(s, q[..n - 1], sid, true), HandleAll(s, q[..n], sid, true));
    }
  }

  /** One more responder of a flush that succeeds. */
  lemma {:induction false} BatchNext(s: Snap, q: seq<Responder>, n: nat, sid: StateId)
    requires Valid(s) && n < |q| && HandleAll(s, q, sid, true).status == Ok
    ensures var b, c := HandleAll(s, q[..n], sid, true), HandleAll(s, q[..n + 1], sid, true);
            var o := Handle(b.snap, q[n], sid, true);
            && Valid(b.snap) && o.Done? && Held(b.snap, q[n].id) == Before(s, q, n, sid, q[n].id)
            && c.status == Ok && c.snap == o.snap && c.responses == b.responses + o.responses
  {
    PrefixOk(s, q, n, sid);
    PrefixOk(s, q, n + 1, sid);
    assert q[..n + 1][..n] == q[..n];
    HandleAllValid(s, q[..n], sid, true);
    HandleAllTraces(s, q[..n], sid, true, q[n].id);
  }

  lemma {:induction false} PrefixOk(s: Snap, q: seq<Responder>, n: nat, sid: StateId)
    requires n <= |q| && HandleAll(s, q, sid, true).status == Ok
    ensures HandleAll(s, q[..n], sid, true).status == Ok
  {
    assert q == q[..n] + q[n..];
    HandleAllConcat(s, q[..n], q[n..], sid, true);
  }

  /**
   * In CLOSE, merging panics exactly when some arrival that brings a message in finds that two messages or more left
   * since the arrival before it, or that fewer messages are \Recent, but some, than were last announced.
   */
  lemma {:induction false} ClosePanicsIff(s: Snap, q: seq<Responder>, sid: StateId)
    requires Valid(s) && HandleAll(s, q, sid, true).status == Ok
    ensures MergeAll(HandleAll(s, q, sid, true).responses).None? <==> exists k :: 0 <= k < |q| && Drops(s, q, k, sid)
  {
    FlushStory(s, q, |q|, sid);
    CalmIff(s, q, |q|, sid);
    assert q[..|q|] == q;
    hide Drops;
    MergePanicsIff(HandleAll(s, q, sid, true).responses);
  }

  /** Two \Recent messages are announced, one leaves unsaid, and the next arrival, itself not \Recent, announces one. */
  ghost predicate RecentLeaves(m: Msg, a: Responder, b: Responder, sid: StateId) {
    && Marked(m) && a.TargetedExists? && b.TargetedExists? && a.origin.None? && b.origin.None?
    && m.id != a.id && m.id != b.id && a.id != b.id && m.uid < a.uid < b.uid
    && RECENT_KEY in m.flags && RECENT_KEY in a.flags && a.target == sid && RECENT_KEY !in b.flags
  }

  lemma {:induction false} RecentLeavesCounts(m: Msg, a: Responder, b: Responder, sid: StateId)
    requires RecentLeaves(m, a, b, sid)
    ensures var q := [a, ExpungeMsg(m.id), b];
            && BringsIn([m], q, 0, sid) && !BringsIn([m], q, 1, sid) && BringsIn([m], q, 2, sid)
            && Recents([m], q, 1, sid) == 2 && Recents([m], q, 3, sid) == 1
  {
    var s, q := [m], [a, ExpungeMsg(m.id), b];
    assert s[0].id == m.id && Held(s, m.id) == Some(m) && s[..0] == [] && RecentCount(s) == 1;
    ArrivalMeaning(a, sid, RECENT_KEY);
    ArrivalMeaning(b, sid, RECENT_KEY);
    assert q[..0] == [];
    BeforeNext(s, q, 0, sid, a.id);
    BeforeNext(s, q, 0, sid, m.id);
    BeforeNext(s, q, 0, sid, b.id);
    BeforeNext(s, q, 1, sid, m.id);
    BeforeNext(s, q, 1, sid, b.id);
    BeforeNext(s, q, 2, sid, b.id);
    assert Recents(s, q, 0, sid) == 1;
    assert Recents(s, q, 1, sid) == 2;
    assert Recents(s, q, 2, sid) == 1;
  }

  /** One silent EXPUNGE is enough when it is of a \Recent message. */
  lemma {:induction false} CloseCanPanicOnRecent(m: Msg, a: Responder, b: Responder, sid: StateId)
    requires RecentLeaves(m, a, b, sid)
    ensures var batch := HandleAll([m], [a, ExpungeMsg(m.id), b], sid, true);
            batch.status == Ok && MergeAll(batch.responses).None?
  {
    var s, q := [m], [a, ExpungeMsg(m.id), b];
    var owner: Uid -> MessageId := u => if u == m.uid then m.id else if u == a.uid then a.id else b.id;
    HandleAllSucceeds(owner, s, q, sid, true);
    RecentLeavesCounts(m, a, b, sid);
    assert LastTold(s, q, 2, sid) == 0;
    assert Drops(s, q, 2, sid);
    ClosePanicsIff(s, q, sid);
  }
}

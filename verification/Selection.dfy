/** Choosing messages by UID set: internal/state/snapshot_messages.go and the UID key of SEARCH. */
module Selection {
  import opened Base
  import opened Snapshot
  import opened SnapshotList

  /** A number of a sequence set as parsed; 0 stands for "*". */
  type SeqNum = nat

  const ASTERISK: SeqNum := 0

  datatype SeqRange = SeqRange(begin: SeqNum, end: SeqNum)

  datatype UidInterval = UidInterval(begin: Uid, end: Uid) {
    predicate Contains(uid: Uid) {
      begin <= uid <= end
    }
  }

  /** Numbers are cut to 32 bits; "*" is the last UID. */
  function ResolveUid(s: Snap, n: SeqNum): Uid
    requires |s| > 0
  {
    if n == ASTERISK then s[|s| - 1].uid else n % 0x1_0000_0000
  }

  function ResolveRange(s: Snap, r: SeqRange): (u: UidInterval)
    requires |s| > 0
    ensures u.begin <= u.end
  {
    if r.begin == r.end then UidInterval(ResolveUid(s, r.begin), ResolveUid(s, r.begin)) else
    var lo, hi := if r.begin == ASTERISK then r.end else r.begin, if r.begin == ASTERISK then r.begin else r.end;
    var begin, end := ResolveUid(s, lo), ResolveUid(s, hi);
    if begin <= end then UidInterval(begin, end)
    else if hi != ASTERISK then UidInterval(end, begin)
    else UidInterval(begin, begin)
  }

  function ResolveAll(s: Snap, rs: seq<SeqRange>): (us: seq<UidInterval>)
    requires |s| > 0
    ensures |us| == |rs| && forall i :: 0 <= i < |rs| ==> us[i] == ResolveRange(s, rs[i])
  {
    seq(|rs|, i requires 0 <= i < |rs| => ResolveRange(s, rs[i]))
  }

  /** The sequence numbers up to k of the messages in the interval, in order: the reference a selection must match. */
  function Filter(s: Snap, u: UidInterval, k: nat): seq<nat>
    requires k <= |s|
  {
    if k == 0 then []
    else Filter(s, u, k - 1) + if u.Contains(s[k - 1].uid) then [k] else []
  }

  function SelectAll(s: Snap, us: seq<UidInterval>): seq<nat> {
    if |us| == 0 then [] else SelectAll(s, us[..|us| - 1]) + Filter(s, us[|us| - 1], |s|)
  }

  function Numbers(lo: nat, hi: nat): (ns: seq<nat>)
    requires lo <= hi
    ensures |ns| == hi - lo && forall i :: 0 <= i < |ns| ==> ns[i] == lo + i + 1
  {
    seq(hi - lo, i requires 0 <= i => lo + i + 1)
  }

  /** Where a binary search ends the interval: after `end` itself when it is listed. */
  function RankAfter(s: Snap, uid: Uid): nat {
    Rank(s, uid) + if HasUid(s, uid) then 1 else 0
  }

  lemma {:induction false} AfterSplits(s: Snap, uid: Uid)
    requires Ascending(s)
    ensures RankAfter(s, uid) <= |s|
    ensures forall i :: 0 <= i < |s| ==> (i < RankAfter(s, uid) <==> s[i].uid <= uid)
  {
    RankSplits(s, uid);
  }

  lemma {:induction false} RunBounds(s: Snap, u: UidInterval)
    requires Ascending(s) && u.begin <= u.end
    ensures Rank(s, u.begin) <= RankAfter(s, u.end) <= |s|
    ensures forall i :: 0 <= i < |s| ==> (Rank(s, u.begin) <= i < RankAfter(s, u.end) <==> u.Contains(s[i].uid))
  {
    RankSplits(s, u.begin);
    AfterSplits(s, u.end);
    var lo := Rank(s, u.begin);
    assert lo > 0 ==> s[lo - 1].uid < u.begin;
  }

  lemma {:induction false} FilterBetween(s: Snap, u: UidInterval, k: nat, lo: nat, hi: nat)
    requires k <= |s| && lo <= hi <= |s|
    requires forall i :: 0 <= i < |s| ==> (lo <= i < hi <==> u.Contains(s[i].uid))
    ensures Filter(s, u, k) == if k <= lo then [] else Numbers(lo, if k < hi then k else hi)
  {
    if k > 0 {
      FilterBetween(s, u, k - 1, lo, hi);
    }
  }

  /** Filtering a sorted list is cutting out the run between two binary searches. */
  lemma {:induction false} FilterIsRun(s: Snap, u: UidInterval)
    requires Ascending(s) && u.begin <= u.end
    ensures Rank(s, u.begin) <= RankAfter(s, u.end) <= |s|
    ensures Filter(s, u, |s|) == Numbers(Rank(s, u.begin), RankAfter(s, u.end))
  {
    RunBounds(s, u);
    FilterBetween(s, u, |s|, Rank(s, u.begin), RankAfter(s, u.end));
  }

  // ----- the loops over the list

  method Enumerate(lo: nat, hi: nat) returns (ns: seq<nat>)
    requires lo <= hi
    ensures ns == Numbers(lo, hi)
  {
    ns := [];
    for i := lo to hi
      invariant ns == Numbers(lo, i)
    {
      ns := ns + [i + 1];
    }
  }

  /** Bounds in the wrong order with a message between them make a slice that ends before it begins. */
  ghost predicate Crossed(s: Snap, lo: Uid, hi: Uid) {
    RankAfter(s, hi) < Rank(s, lo) < |s|
  }

  lemma {:induction false} FilterNothing(s: Snap, u: UidInterval, k: nat)
    requires k <= |s| && u.end < u.begin
    ensures Filter(s, u, k) == []
  {
    if k > 0 {
      FilterNothing(s, u, k - 1);
    }
  }

  lemma {:induction false} RangeCases(s: Snap, lo: Uid, hi: Uid)
    requires Ascending(s)
    ensures RankAfter(s, hi) <= |s|
    ensures lo <= hi ==> !Crossed(s, lo, hi)
    ensures var all := Filter(s, UidInterval(lo, hi), |s|);
            && (Rank(s, lo) >= |s| ==> all == [])
            && (Rank(s, lo) <= RankAfter(s, hi) ==> all == Numbers(Rank(s, lo), RankAfter(s, hi)))
  {
    AfterSplits(s, hi);
    if lo <= hi {
      FilterIsRun(s, UidInterval(lo, hi));
    } else {
      RankSplits(s, lo);
      FilterNothing(s, UidInterval(lo, hi), |s|);
    }
  }

  /** None stands for the panic on crossed bounds. */
  method UidRange(list: SnapMsgList, lo: Uid, hi: Uid) returns (r: Option<seq<nat>>)
    requires list.Valid()
    ensures r.None? <==> Crossed(list.view, lo, hi)
    ensures r.Some? ==> r.value == Filter(list.view, UidInterval(lo, hi), |list.view|)
    ensures lo <= hi ==> r.Some?
  {
    hide Rank, Filter, HasUid;
    RangeCases(list.view, lo, hi);
    var listLen := |list.msg|;
    var indexLo, _ := list.BinarySearchByUID(lo);
    if indexLo >= listLen {
      return Some([]);
    }
    var indexHi, ok := list.BinarySearchByUID(hi);
    if ok {
      indexHi := indexHi + 1;
    }
    if indexHi >= listLen {
      indexHi := listLen;
    }
    if indexHi < indexLo {
      return None;
    }
    var ns := Enumerate(indexLo, indexHi);
    return Some(ns);
  }

  method GetWithUid(list: SnapMsgList, uid: Uid) returns (ns: seq<nat>)
    requires list.Valid()
    ensures ns == Filter(list.view, UidInterval(uid, uid), |list.view|)
  {
    FilterIsRun(list.view, UidInterval(uid, uid));
    var index, ok := list.BinarySearchByUID(uid);
    ns := if ok then [index + 1] else [];
  }

  method ResolveNumber(list: SnapMsgList, n: SeqNum) returns (uid: Uid)
    requires list.Valid() && |list.view| > 0
    ensures uid == ResolveUid(list.view, n)
  {
    if n == ASTERISK {
      var last := list.msg[|list.msg| - 1];
      assert last.Is(list.view[|list.msg| - 1]);
      return last.uid;
    }
    return n % 0x1_0000_0000;
  }

  /** None is ErrNoSuchMessage: no UID resolves in an empty mailbox. */
  method ResolveUidInterval(list: SnapMsgList, ranges: seq<SeqRange>) returns (res: Option<seq<UidInterval>>)
    requires list.Valid()
    ensures res == if |ranges| == 0 then Some([])
                   else if |list.view| == 0 then None else Some(ResolveAll(list.view, ranges))
  {
    var out: seq<UidInterval> := [];
    for i := 0 to |ranges|
      invariant i > 0 ==> |list.view| > 0
      invariant |out| == i && forall k :: 0 <= k < i ==> out[k] == ResolveRange(list.view, ranges[k])
    {
      if |list.msg| == 0 {
        return None;
      }
      var r := ranges[i];
      if r.begin == r.end {
        var uid := ResolveNumber(list, r.begin);
        out := out + [UidInterval(uid, uid)];
      } else {
        var lo, hi := r.begin, r.end;
        if lo == ASTERISK {
          lo, hi := hi, lo;
        }
        var begin := ResolveNumber(list, lo);
        var end := ResolveNumber(list, hi);
        if begin > end {
          if hi != ASTERISK {
            begin, end := end, begin;
          } else {
            end := begin;
          }
        }
        out := out + [UidInterval(begin, end)];
      }
    }
    if |ranges| > 0 {
      assert out == ResolveAll(list.view, ranges);
    }
    return Some(out);
  }

  /** The messages a UID set selects: the per-interval filters one after the other. */
  method GetMessagesInUidRange(list: SnapMsgList, ranges: seq<SeqRange>) returns (ns: seq<nat>)
    requires list.Valid()
    ensures ns == if |list.view| == 0 then [] else SelectAll(list.view, ResolveAll(list.view, ranges))
  {
    ns := [];
    if |list.msg| == 0 {
      return;
    }
    var intervals := ResolveUidInterval(list, ranges);
    var us := intervals.value;
    assert us == ResolveAll(list.view, ranges);
    for i := 0 to |us|
      invariant ns == SelectAll(list.view, us[..i])
    {
      var u := us[i];
      var more: seq<nat>;
      if u.begin == u.end {
        more := GetWithUid(list, u.begin);
      } else {
        var range := UidRange(list, u.begin, u.end);
        more := range.value;
      }
      assert us[..i + 1][..i] == us[..i];
      ns := ns + more;
    }
    assert us[..|us|] == us;
  }

  // ----- agreement with the UID test of SEARCH

  /** buildSearchOpUID: some resolved interval contains the UID. */
  predicate SearchUid(us: seq<UidInterval>, uid: Uid) {
    exists i :: 0 <= i < |us| && us[i].Contains(uid)
  }

  lemma {:induction false} FilterMembers(s: Snap, u: UidInterval, k: nat, n: nat)
    requires k <= |s|
    ensures n in Filter(s, u, k) <==> 1 <= n <= k && u.Contains(s[n - 1].uid)
  {
    if k > 0 {
      FilterMembers(s, u, k - 1, n);
    }
  }

  lemma {:induction false} SearchSnoc(us: seq<UidInterval>, uid: Uid)
    requires |us| > 0
    ensures SearchUid(us, uid) <==> SearchUid(us[..|us| - 1], uid) || us[|us| - 1].Contains(uid)
  {
    var front := us[..|us| - 1];
    if SearchUid(front, uid) {
      var i :| 0 <= i < |front| && front[i].Contains(uid);
      assert us[i].Contains(uid);
    }
    if SearchUid(us, uid) {
      var i :| 0 <= i < |us| && us[i].Contains(uid);
      if i < |front| { assert front[i].Contains(uid); }
    }
  }

  /** As a set, the selection is exactly what the SEARCH test accepts. */
  lemma {:induction false} SelectionMatchesSearch(s: Snap, us: seq<UidInterval>, n: nat)
    ensures n in SelectAll(s, us) <==> 1 <= n <= |s| && SearchUid(us, s[n - 1].uid)
  {
    if |us| > 0 {
      SelectionMatchesSearch(s, us[..|us| - 1], n);
      FilterMembers(s, us[|us| - 1], |s|, n);
      if 1 <= n <= |s| {
        SearchSnoc(us, s[n - 1].uid);
      }
    }
  }

  /** n:* above the last UID, in either order, selects n alone and so no listed message. */
  lemma {:induction false} OpenRangeAboveLast(s: Snap, n: SeqNum)
    requires Valid(s) && |s| > 0 && s[|s| - 1].uid < n < 0x1_0000_0000
    ensures ResolveRange(s, SeqRange(n, ASTERISK)) == ResolveRange(s, SeqRange(ASTERISK, n)) == UidInterval(n, n)
    ensures SelectAll(s, [ResolveRange(s, SeqRange(n, ASTERISK))]) == []
  {
    var u := UidInterval(n, n);
    assert [u][..0] == [];
    RankSplits(s, n);
    FilterIsRun(s, u);
    assert Rank(s, n) == |s|;
  }

  /** n:* reaches the last message exactly when n is not above its UID. */
  lemma {:induction false} OpenRangeReachesLastIff(s: Snap, n: SeqNum)
    requires Valid(s) && |s| > 0 && 0 < n < 0x1_0000_0000
    ensures |s| in SelectAll(s, [ResolveRange(s, SeqRange(n, ASTERISK))]) <==> n <= s[|s| - 1].uid
  {
    var u := ResolveRange(s, SeqRange(n, ASTERISK));
    SelectionMatchesSearch(s, [u], |s|);
    assert SearchUid([u], s[|s| - 1].uid) <==> u.Contains(s[|s| - 1].uid) by {
      assert [u][0] == u;
    }
  }

  // ----- choosing messages by sequence number

  /** Numbers are cut to 32 bits; "*" is the number of messages. */
  function ResolveNumberIn(count: nat, n: SeqNum): nat {
    if n == ASTERISK then count % 0x1_0000_0000 else n % 0x1_0000_0000
  }

  function ResolveNumberRange(count: nat, r: SeqRange): (u: (nat, nat))
    ensures u.0 <= u.1
  {
    if r.begin == r.end then (ResolveNumberIn(count, r.begin), ResolveNumberIn(count, r.begin)) else
    var lo, hi := if r.begin == ASTERISK then r.end else r.begin, if r.begin == ASTERISK then r.begin else r.end;
    var begin, end := ResolveNumberIn(count, lo), ResolveNumberIn(count, hi);
    if begin <= end then (begin, end)
    else if hi != ASTERISK then (end, begin)
    else (begin, begin)
  }

  /** buildSearchOpSeqSet: some resolved range contains the number. */
  predicate InNumbers(count: nat, ranges: seq<SeqRange>, n: nat) {
    exists i :: 0 <= i < |ranges| && Within(ResolveNumberRange(count, ranges[i]), n)
  }

  predicate Within(u: (nat, nat), n: nat) {
    u.0 <= n <= u.1
  }

  /** ErrNoSuchMessage, or the panic of an index or a slice before the list. */
  datatype Chosen = Picked(ns: seq<nat>) | NoSuchMessage | IndexPanic

  /** What a resolved range picks from a list of the given length; the slice from 2^32 - 1 to itself is empty. */
  function Pick(count: nat, u: (nat, nat)): Chosen
    requires u.0 <= u.1
  {
    if u.1 > count || count == 0 then NoSuchMessage
    else if u.0 == 0 then (if u.1 == 0xFFFF_FFFF then Picked([]) else IndexPanic)
    else Picked(Numbers(u.0 - 1, u.1))
  }

  /** The ranges one after the other, up to the first that does not pick. */
  function PickAll(count: nat, ranges: seq<SeqRange>): Chosen {
    if |ranges| == 0 then Picked([]) else
    match PickAll(count, ranges[..|ranges| - 1])
    case NoSuchMessage => NoSuchMessage
    case IndexPanic => IndexPanic
    case Picked(ns) =>
      match Pick(count, ResolveNumberRange(count, ranges[|ranges| - 1]))
      case NoSuchMessage => NoSuchMessage
      case IndexPanic => IndexPanic
      case Picked(more) => Picked(ns + more)
  }

  /** seqRange: the lower index is computed in 32 bits, so that 0 wraps around to the largest number. */
  method SliceNumbers(list: SnapMsgList, lo: nat, hi: nat) returns (r: Chosen)
    requires list.Valid() && lo < hi <= |list.view| && hi < 0x1_0000_0000
    ensures r == Pick(|list.view|, (lo, hi))
  {
    var from := (lo - 1) % 0x1_0000_0000;
    if from > hi {
      return IndexPanic;
    }
    var ns := Enumerate(from, hi);
    assert lo > 0 || ns == [];
    return Picked(ns);
  }

  /** One resolved range: a lookup when it is a single number, a slice otherwise. */
  method PickRange(list: SnapMsgList, u: (nat, nat)) returns (r: Chosen)
    requires list.Valid() && u.0 <= u.1 < 0x1_0000_0000
    ensures r == Pick(|list.view|, u)
  {
    if u.0 == u.1 {
      var seat := list.GetWithSeqID(u.0);
      match seat {
        case Taken(_) =>
          assert Numbers(u.0 - 1, u.1) == [u.0];
          return Picked([u.0]);
        case Empty => return NoSuchMessage;
        case OutOfRange => return IndexPanic;
      }
    }
    var listLen := |list.msg|;
    if u.0 - 1 >= listLen || u.1 - 1 >= listLen {
      return NoSuchMessage;
    }
    r := SliceNumbers(list, u.0, u.1);
  }

  method ResolveOneRange(list: SnapMsgList, r: SeqRange) returns (u: (nat, nat))
    requires list.Valid()
    ensures u == ResolveNumberRange(|list.view|, r)
  {
    var count := |list.msg|;
    if r.begin == r.end {
      var n := ResolveNumberIn(count, r.begin);
      return (n, n);
    }
    var lo, hi := r.begin, r.end;
    if lo == ASTERISK {
      lo, hi := hi, lo;
    }
    var begin, end := ResolveNumberIn(count, lo), ResolveNumberIn(count, hi);
    if begin > end {
      if hi != ASTERISK {
        begin, end := end, begin;
      } else {
        end := begin;
      }
    }
    return (begin, end);
  }

  /** getMessagesInSeqRange: all ranges are resolved first. */
  method GetMessagesInSeqRange(list: SnapMsgList, ranges: seq<SeqRange>) returns (r: Chosen)
    requires list.Valid()
    ensures r == PickAll(|list.view|, ranges)
  {
    var us: seq<(nat, nat)> := [];
    for i := 0 to |ranges|
      invariant |us| == i && forall k :: 0 <= k < i ==> us[k] == ResolveNumberRange(|list.view|, ranges[k])
    {
      var u := ResolveOneRange(list, ranges[i]);
      us := us + [u];
    }
    var ns: seq<nat> := [];
    for i := 0 to |us|
      invariant PickAll(|list.view|, ranges[..i]) == Picked(ns)
    {
      assert ranges[..i + 1][..i] == ranges[..i];
      var more := PickRange(list, us[i]);
      if !more.Picked? {
        PickStops(|list.view|, ranges, i + 1);
        return more;
      }
      ns := ns + more.ns;
    }
    assert ranges[..|ranges|] == ranges;
    return Picked(ns);
  }

  lemma {:induction false} PickStops(count: nat, ranges: seq<SeqRange>, i: nat)
    requires i <= |ranges| && !PickAll(count, ranges[..i]).Picked?
    ensures PickAll(count, ranges) == PickAll(count, ranges[..i])
    decreases |ranges|
  {
    if i < |ranges| {
      assert ranges[..|ranges| - 1][..i] == ranges[..i];
      PickStops(count, ranges[..|ranges| - 1], i);
    } else {
      assert ranges[..i] == ranges;
    }
  }

  /** Range i does not pick, and every range before it does. */
  ghost predicate StopsAt(count: nat, ranges: seq<SeqRange>, i: nat, c: Chosen)
    requires i < |ranges|
  {
    && Pick(count, ResolveNumberRange(count, ranges[i])) == c
    && forall k :: 0 <= k < i ==> Pick(count, ResolveNumberRange(count, ranges[k])).Picked?
  }

  /** The outcome is that of the first range that does not pick. */
  lemma {:induction false} PickAllStopsIff(count: nat, ranges: seq<SeqRange>, c: Chosen)
    requires !c.Picked?
    ensures PickAll(count, ranges) == c <==> exists i :: 0 <= i < |ranges| && StopsAt(count, ranges, i, c)
    ensures PickAll(count, ranges).Picked? <==>
            forall i :: 0 <= i < |ranges| ==> Pick(count, ResolveNumberRange(count, ranges[i])).Picked?
  {
    if |ranges| > 0 {
      var n := |ranges| - 1;
      var front := ranges[..n];
      PickAllStopsIff(count, front, c);
      assert forall i :: 0 <= i < n ==> front[i] == ranges[i];
      assert forall i :: 0 <= i < n ==> (StopsAt(count, front, i, c) <==> StopsAt(count, ranges, i, c));
      if PickAll(count, front).Picked? && PickAll(count, ranges) == c {
        assert StopsAt(count, ranges, n, c);
      }
    }
  }

  /** A resolved range begins at 0 exactly when a number other than "*" was written that 32 bits cut to 0. */
  predicate CutToZero(n: SeqNum) {
    n != ASTERISK && n % 0x1_0000_0000 == 0
  }

  lemma {:induction false} BeginsAtZeroIff(count: nat, r: SeqRange)
    requires 0 < count < 0x1_0000_0000
    ensures ResolveNumberRange(count, r).0 == 0 <==> CutToZero(r.begin) || CutToZero(r.end)
  {
  }

  /**
   * Choosing by number panics exactly when some range with a number that 32 bits cut to 0 ends inside a non-empty list
   * and every range before it lies inside 1 to the length.
   */
  lemma {:induction false} SeqRangePanicsIff(count: nat, ranges: seq<SeqRange>)
    requires count < 0xFFFF_FFFF
    ensures PickAll(count, ranges).IndexPanic? <==>
            count > 0 && exists i :: 0 <= i < |ranges| && ReachesZero(count, ranges, i)
  {
    PickAllStopsIff(count, ranges, IndexPanic);
    forall i | 0 <= i < |ranges|
      ensures StopsAt(count, ranges, i, IndexPanic) <==> count > 0 && ReachesZero(count, ranges, i)
    {
      if count > 0 {
        BeginsAtZeroIff(count, ranges[i]);
      }
    }
  }

  ghost predicate ReachesZero(count: nat, ranges: seq<SeqRange>, i: nat)
    requires i < |ranges|
  {
    && (CutToZero(ranges[i].begin) || CutToZero(ranges[i].end)) && ResolveNumberRange(count, ranges[i]).1 <= count
    && forall k :: 0 <= k < i ==>
         1 <= ResolveNumberRange(count, ranges[k]).0 && ResolveNumberRange(count, ranges[k]).1 <= count
  }

  lemma {:induction false} NumbersMembers(lo: nat, hi: nat, n: nat)
    requires lo <= hi
    ensures n in Numbers(lo, hi) <==> lo < n <= hi
  {
    var ns := Numbers(lo, hi);
    if lo < n <= hi {
      assert ns[n - lo - 1] == n;
    }
  }

  lemma {:induction false} InNumbersSnoc(count: nat, ranges: seq<SeqRange>, n: nat)
    requires |ranges| > 0
    ensures var k := |ranges| - 1;
            InNumbers(count, ranges, n) <==>
              InNumbers(count, ranges[..k], n) || Within(ResolveNumberRange(count, ranges[k]), n)
  {
    hide ResolveNumberRange, Within;
    var k := |ranges| - 1;
    var front := ranges[..k];
    if InNumbers(count, front, n) {
      var i :| 0 <= i < k && Within(ResolveNumberRange(count, front[i]), n);
      assert Within(ResolveNumberRange(count, ranges[i]), n);
    }
    if InNumbers(count, ranges, n) {
      var i :| 0 <= i < |ranges| && Within(ResolveNumberRange(count, ranges[i]), n);
      assert i < k ==> Within(ResolveNumberRange(count, front[i]), n);
    }
  }

  /** What is chosen by number is, as a set, what the SEARCH test for sequence numbers accepts. */
  lemma {:induction false} PickedMatchesSearch(count: nat, ranges: seq<SeqRange>, n: nat)
    requires count < 0xFFFF_FFFF && PickAll(count, ranges).Picked?
    ensures n in PickAll(count, ranges).ns <==> InNumbers(count, ranges, n)
    ensures InNumbers(count, ranges, n) ==> 1 <= n <= count
  {
    if |ranges| > 0 {
      hide InNumbers, ResolveNumberRange, Numbers;
      var k := |ranges| - 1;
      var u := ResolveNumberRange(count, ranges[k]);
      PickedMatchesSearch(count, ranges[..k], n);
      InNumbersSnoc(count, ranges, n);
      NumbersMembers(u.0 - 1, u.1, n);
    }
  }

  // ----- what the written ranges mean

  function Lesser(a: nat, b: nat): nat {
    if a <= b then a else b
  }

  function Greater(a: nat, b: nat): nat {
    if a <= b then b else a
  }

  /**
   * u is in the range as written, where "*" stands for `last` and numbers are taken in 32 bits: between the bounds in
   * either order, except that "*" below the other bound leaves that bound alone.
   */
  predicate Between(last: nat, r: SeqRange, u: nat) {
    var m := 0x1_0000_0000;
    if r.begin != ASTERISK && r.end != ASTERISK then
      Lesser(r.begin % m, r.end % m) <= u <= Greater(r.begin % m, r.end % m)
    else if r.begin == ASTERISK && r.end == ASTERISK then u == last
    else
      var n := (r.begin + r.end) % m;
      if n <= last then n <= u <= last else u == n
  }

  /** A range of UIDs contains exactly what is between its bounds as written. */
  lemma {:induction false} RangeMeaning(s: Snap, r: SeqRange, u: Uid)
    requires |s| > 0
    ensures ResolveRange(s, r).Contains(u) <==> Between(s[|s| - 1].uid, r, u)
  {
  }

  /** A range of sequence numbers, too, with the number of messages, in 32 bits, for "*". */
  lemma {:induction false} NumberRangeMeaning(count: nat, r: SeqRange, n: nat)
    ensures Within(ResolveNumberRange(count, r), n) <==> Between(count % 0x1_0000_0000, r, n)
  {
  }

  /** Between for n:m, "*", n:* and *:n with numbers below 2^32. */
  lemma {:induction false} BetweenBounds(last: nat, n: SeqNum, m: SeqNum, u: nat)
    requires 0 < n < 0x1_0000_0000 && 0 < m < 0x1_0000_0000
    ensures Between(last, SeqRange(n, m), u) <==> if n <= m then n <= u <= m else m <= u <= n
    ensures Between(last, SeqRange(ASTERISK, ASTERISK), u) <==> u == last
    ensures Between(last, SeqRange(n, ASTERISK), u) <==> u == n || n <= u <= last
    ensures Between(last, SeqRange(ASTERISK, n), u) <==> u == n || n <= u <= last
  {
  }

  /** The bounds of n:m, of "*" and of n:* and *:n, spelled out for UIDs. */
  lemma {:induction false} UidBounds(s: Snap, n: SeqNum, m: SeqNum, u: Uid)
    requires |s| > 0 && 0 < n < 0x1_0000_0000 && 0 < m < 0x1_0000_0000
    ensures ResolveRange(s, SeqRange(n, m)).Contains(u) <==> if n <= m then n <= u <= m else m <= u <= n
    ensures ResolveRange(s, SeqRange(ASTERISK, ASTERISK)).Contains(u) <==> u == s[|s| - 1].uid
    ensures ResolveRange(s, SeqRange(n, ASTERISK)).Contains(u) <==> u == n || n <= u <= s[|s| - 1].uid
    ensures ResolveRange(s, SeqRange(ASTERISK, n)).Contains(u) <==> u == n || n <= u <= s[|s| - 1].uid
  {
    hide Between, ResolveRange, UidInterval.Contains;
    BetweenBounds(s[|s| - 1].uid, n, m, u);
    RangeMeaning(s, SeqRange(n, m), u);
    RangeMeaning(s, SeqRange(ASTERISK, ASTERISK), u);
    RangeMeaning(s, SeqRange(n, ASTERISK), u);
    RangeMeaning(s, SeqRange(ASTERISK, n), u);
  }

  /** The same for sequence numbers. */
  lemma {:induction false} NumberBounds(count: nat, n: SeqNum, m: SeqNum, k: nat)
    requires count < 0x1_0000_0000 && 0 < n < 0x1_0000_0000 && 0 < m < 0x1_0000_0000
    ensures Within(ResolveNumberRange(count, SeqRange(n, m)), k) <==> if n <= m then n <= k <= m else m <= k <= n
    ensures Within(ResolveNumberRange(count, SeqRange(ASTERISK, ASTERISK)), k) <==> k == count
    ensures Within(ResolveNumberRange(count, SeqRange(n, ASTERISK)), k) <==> k == n || n <= k <= count
    ensures Within(ResolveNumberRange(count, SeqRange(ASTERISK, n)), k) <==> k == n || n <= k <= count
  {
    hide Between, ResolveNumberRange, Within;
    assert count % 0x1_0000_0000 == count;
    BetweenBounds(count, n, m, k);
    NumberRangeMeaning(count, SeqRange(n, m), k);
    NumberRangeMeaning(count, SeqRange(ASTERISK, ASTERISK), k);
    NumberRangeMeaning(count, SeqRange(n, ASTERISK), k);
    NumberRangeMeaning(count, SeqRange(ASTERISK, n), k);
  }

  /** A UID set selects exactly the messages whose UID is in one of its ranges as written. */
  lemma {:induction false} UidSetSelects(s: Snap, ranges: seq<SeqRange>, n: nat)
    requires |s| > 0
    ensures n in SelectAll(s, ResolveAll(s, ranges)) <==>
            1 <= n <= |s| && exists i :: 0 <= i < |ranges| && Between(s[|s| - 1].uid, ranges[i], s[n - 1].uid)
  {
    var us, last := ResolveAll(s, ranges), s[|s| - 1].uid;
    SelectionMatchesSearch(s, us, n);
    if 1 <= n <= |s| {
      var u := s[n - 1].uid;
      forall i | 0 <= i < |ranges| ensures us[i].Contains(u) <==> Between(last, ranges[i], u) {
        RangeMeaning(s, ranges[i], u);
      }
      hide Between;
      if SearchUid(us, u) {
        var i :| 0 <= i < |us| && us[i].Contains(u);
        assert Between(last, ranges[i], u);
      }
      if i :| 0 <= i < |ranges| && Between(last, ranges[i], u) {
        assert us[i].Contains(u);
      }
    }
  }

  lemma {:induction false} NumberSetMeaning(count: nat, ranges: seq<SeqRange>, n: nat)
    ensures InNumbers(count, ranges, n) <==>
            exists i :: 0 <= i < |ranges| && Between(count % 0x1_0000_0000, ranges[i], n)
  {
    var last := count % 0x1_0000_0000;
    forall i | 0 <= i < |ranges|
      ensures Within(ResolveNumberRange(count, ranges[i]), n) <==> Between(last, ranges[i], n)
    {
      NumberRangeMeaning(count, ranges[i], n);
    }
    hide Between, Within, ResolveNumberRange;
    if InNumbers(count, ranges, n) {
      var i :| 0 <= i < |ranges| && Within(ResolveNumberRange(count, ranges[i]), n);
      assert Between(last, ranges[i], n);
    }
    if i :| 0 <= i < |ranges| && Between(last, ranges[i], n) {
      assert Within(ResolveNumberRange(count, ranges[i]), n);
    }
  }

  /** The range as written lies inside a non-empty list, or spans every 32-bit number and is taken for none. */
  ghost predicate Inside(count: nat, r: SeqRange) {
    var last := count % 0x1_0000_0000;
    && count > 0
    && (forall n: nat :: Between(last, r, n) ==> n <= count)
    && (Between(last, r, 0) ==> Between(last, r, 0xFFFF_FFFF))
  }

  lemma {:induction false} PickMeaning(count: nat, r: SeqRange, n: nat)
    ensures var c := Pick(count, ResolveNumberRange(count, r));
            && (c.Picked? <==> Inside(count, r))
            && (c.Picked? ==>
                  (n in c.ns <==> Between(count % 0x1_0000_0000, r, n) && !Between(count % 0x1_0000_0000, r, 0)))
  {
    var u := ResolveNumberRange(count, r);
    var last := count % 0x1_0000_0000;
    forall k: nat ensures Within(u, k) <==> Between(last, r, k) {
      NumberRangeMeaning(count, r, k);
    }
    assert u.1 < 0x1_0000_0000;
    hide Between, ResolveNumberRange;
    assert Within(u, u.1) && (u.0 == 0 <==> Within(u, 0));
    assert u.0 == 0 ==> (u.1 == 0xFFFF_FFFF <==> Within(u, 0xFFFF_FFFF));
    if Pick(count, u).Picked? && u.0 > 0 {
      NumbersMembers(u.0 - 1, u.1, n);
    }
  }

  /** Choosing by number succeeds exactly when every range lies inside, and picks the numbers in the written ranges. */
  lemma {:induction false} NumberSetPicks(count: nat, ranges: seq<SeqRange>, n: nat)
    ensures var c, last := PickAll(count, ranges), count % 0x1_0000_0000;
            && (c.Picked? <==> forall i :: 0 <= i < |ranges| ==> Inside(count, ranges[i]))
            && (c.Picked? ==> (n in c.ns <==>
                  exists i :: 0 <= i < |ranges| && Between(last, ranges[i], n) && !Between(last, ranges[i], 0)))
  {
    if |ranges| > 0 {
      var k := |ranges| - 1;
      var front := ranges[..k];
      NumberSetPicks(count, front, n);
      PickMeaning(count, ranges[k], n);
      hide Between, Inside, Pick, ResolveNumberRange;
      assert forall i :: 0 <= i < k ==> front[i] == ranges[i];
    }
  }
}

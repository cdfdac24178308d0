/** The mailbox snapshot of one session as a value: the contents of internal/state/snapshot_messages.go's list. */
module Snapshot {
  import opened Base
  import opened Flags

  datatype Msg = Msg(id: MessageId, remote: string, uid: Uid, flags: FlagSet, toExpunge: bool)

  type Snap = seq<Msg>

  ghost predicate Ascending(s: Snap) {
    forall i, j :: 0 <= i < j < |s| ==> s[i].uid < s[j].uid
  }

  ghost predicate DistinctIds(s: Snap) {
    forall i, j :: 0 <= i < j < |s| ==> s[i].id != s[j].id
  }

  /** toExpunge mirrors the \Deleted flag. */
  ghost predicate Marked(m: Msg) {
    m.toExpunge <==> DELETED_KEY in m.flags
  }

  ghost predicate Valid(s: Snap) {
    Ascending(s) && DistinctIds(s) && forall i :: 0 <= i < |s| ==> Marked(s[i])
  }

  predicate Has(s: Snap, id: MessageId) {
    exists i :: 0 <= i < |s| && s[i].id == id
  }

  predicate HasUid(s: Snap, uid: Uid) {
    exists i :: 0 <= i < |s| && s[i].uid == uid
  }

  function IndexOf(s: Snap, id: MessageId): (i: nat)
    requires Has(s, id)
    ensures i < |s| && s[i].id == id
    ensures forall j :: 0 <= j < i ==> s[j].id != id
  {
    if s[0].id == id then 0 else
      assert Has(s[1..], id) by {
        var k :| 0 <= k < |s| && s[k].id == id;
        assert s[1..][k - 1].id == id;
      }
      assert forall j :: 0 <= j < |s[1..]| ==> s[1..][j] == s[j + 1];
      1 + IndexOf(s[1..], id)
  }

  /** Number of leading messages below `uid`: where a binary search for it ends. */
  function Rank(s: Snap, uid: Uid): (r: nat)
    ensures r <= |s|
    ensures forall i :: 0 <= i < r ==> s[i].uid < uid
    ensures r < |s| ==> s[r].uid >= uid
  {
    if |s| == 0 || s[0].uid >= uid then 0 else
      assert forall j :: 0 <= j < |s[1..]| ==> s[1..][j] == s[j + 1];
      1 + Rank(s[1..], uid)
  }

  function NewMsg(id: MessageId, remote: string, uid: Uid, flags: FlagSet): Msg {
    Msg(id, remote, uid, flags, DELETED_KEY in flags)
  }

  function Insert(s: Snap, m: Msg): Snap {
    Put(s, Rank(s, m.uid), m)
  }

  function RemoveMsg(s: Snap, id: MessageId): Snap
    requires Has(s, id)
  {
    Drop(s, IndexOf(s, id))
  }

  /** snapshot.setMessageFlags: \Recent cannot be dropped from a message that has it. */
  function KeepRecent(cur: FlagSet, flags: FlagSet): FlagSet {
    if RECENT_KEY in cur then Add(flags, RECENT) else flags
  }

  function WithFlags(m: Msg, flags: FlagSet): Msg {
    var f := KeepRecent(m.flags, flags);
    m.(flags := f, toExpunge := DELETED_KEY in f)
  }

  function SetFlags(s: Snap, id: MessageId, flags: FlagSet): Snap
    requires Has(s, id)
  {
    var i := IndexOf(s, id);
    s[i := WithFlags(s[i], flags)]
  }

  /** snapMsgList.update. */
  function SetRemote(s: Snap, id: MessageId, remote: string): Snap
    requires Has(s, id)
  {
    var i := IndexOf(s, id);
    s[i := s[i].(remote := remote)]
  }

  function RecentCount(s: Snap): nat {
    if |s| == 0 then 0
    else RecentCount(s[..|s| - 1]) + if RECENT_KEY in s[|s| - 1].flags then 1 else 0
  }

  lemma {:induction false} RankSplits(s: Snap, uid: Uid)
    requires Ascending(s)
    ensures forall i :: 0 <= i < |s| ==> (i < Rank(s, uid) <==> s[i].uid < uid)
    ensures HasUid(s, uid) <==> Rank(s, uid) < |s| && s[Rank(s, uid)].uid == uid
  {
    var r := Rank(s, uid);
    forall i | 0 <= i < |s| ensures i < r <==> s[i].uid < uid {
      if r < i { assert s[r].uid < s[i].uid; }
    }
  }

  /** A rank is determined by what lies on each side of it. */
  lemma {:induction false} RankUnique(s: Snap, uid: Uid, p: nat)
    requires Ascending(s) && p <= |s|
    requires forall i :: 0 <= i < p ==> s[i].uid < uid
    requires p < |s| ==> s[p].uid >= uid
    ensures p == Rank(s, uid)
  {
    RankSplits(s, uid);
  }

  lemma {:induction false} InsertAscends(s: Snap, m: Msg)
    requires Ascending(s) && !HasUid(s, m.uid)
    ensures Ascending(Insert(s, m))
  {
    var p, t := Rank(s, m.uid), Insert(s, m);
    RankSplits(s, m.uid);
    forall i, j | 0 <= i < j < |t| ensures t[i].uid < t[j].uid {
      assert i != p ==> t[i] == s[if i < p then i else i - 1];
      assert j != p ==> t[j] == s[if j < p then j else j - 1];
    }
  }

  lemma {:induction false} InsertDistinct(s: Snap, m: Msg)
    requires DistinctIds(s) && !Has(s, m.id)
    ensures DistinctIds(Insert(s, m))
  {
    var p, t := Rank(s, m.uid), Insert(s, m);
    forall i, j | 0 <= i < j < |t| ensures t[i].id != t[j].id {
      assert i != p ==> t[i] == s[if i < p then i else i - 1];
      assert j != p ==> t[j] == s[if j < p then j else j - 1];
    }
  }

  lemma {:induction false} InsertValid(s: Snap, m: Msg)
    requires Valid(s) && !Has(s, m.id) && !HasUid(s, m.uid) && Marked(m)
    ensures Valid(Insert(s, m))
  {
    InsertAscends(s, m);
    InsertDistinct(s, m);
    var t := Insert(s, m);
    hide Ascending, DistinctIds, Rank, Has, HasUid;
    assert forall i :: 0 <= i < |t| ==> Marked(t[i]);
  }

  lemma {:induction false} RemoveValid(s: Snap, id: MessageId)
    requires Valid(s) && Has(s, id)
    ensures Valid(RemoveMsg(s, id)) && !Has(RemoveMsg(s, id), id)
  {
  }

  lemma {:induction false} SetFlagsValid(s: Snap, id: MessageId, flags: FlagSet)
    requires Valid(s) && Has(s, id)
    ensures Valid(SetFlags(s, id, flags))
  {
  }

  lemma {:induction false} AppendIsInsert(s: Snap, m: Msg)
    requires Ascending(s) && (|s| > 0 ==> s[|s| - 1].uid < m.uid)
    ensures Rank(s, m.uid) == |s| && Insert(s, m) == s + [m] && !HasUid(s, m.uid)
  {
    RankSplits(s, m.uid);
    assert s[..|s|] == s && s[|s|..] == [];
  }
}

/** internal/state/snapshot_messages.go and snapshot.go: the list and index a session updates in place. */
module SnapshotList {
  import opened Base
  import opened Flags
  import opened Snapshot

  class SnapMsg {
    var id: MessageId
    var remote: string
    var uid: Uid
    var flags: FlagSet
    var toExpunge: bool

    constructor (id: MessageId, remote: string, uid: Uid, flags: FlagSet)
      ensures Is(NewMsg(id, remote, uid, flags))
    {
      this.id, this.remote, this.uid, this.flags := id, remote, uid, flags;
      this.toExpunge := DELETED_KEY in flags;
    }

    ghost predicate Is(m: Msg)
      reads this
    {
      id == m.id && remote == m.remote && uid == m.uid && flags == m.flags && toExpunge == m.toExpunge
    }
  }

  /** Distinct objects stand for the messages of the view, and the index holds exactly them. */
  ghost predicate Linked(view: Snap, msg: seq<SnapMsg>, idx: map<MessageId, SnapMsg>) {
    && |view| == |msg|
    && (forall i, j :: 0 <= i < j < |msg| ==> msg[i] != msg[j])
    && (forall i :: 0 <= i < |view| ==> view[i].id in idx && idx[view[i].id] == msg[i])
    && (forall k :: k in idx ==> Has(view, k))
  }

  lemma {:induction false} CoveredPut(view: Snap, idx: map<MessageId, SnapMsg>, p: nat, v: Msg, m: SnapMsg)
    requires p <= |view| && forall k :: k in idx ==> Has(view, k)
    ensures forall k :: k in idx[v.id := m] ==> Has(Put(view, p, v), k)
  {
    var t := Put(view, p, v);
    assert t[p].id == v.id;
    forall k | k in idx ensures Has(t, k) {
      var i := IndexOf(view, k);
      assert t[if i < p then i else i + 1].id == k;
    }
  }

  lemma {:induction false} LinkedPut(
    view: Snap, msg: seq<SnapMsg>, idx: map<MessageId, SnapMsg>, p: nat, v: Msg, m: SnapMsg)
    requires Linked(view, msg, idx) && p <= |view| && m !in msg && !Has(view, v.id)
    ensures Linked(Put(view, p, v), Put(msg, p, m), idx[v.id := m])
  {
    CoveredPut(view, idx, p, v, m);
    PutDistinct(msg, p, m);
    var t, more := Put(view, p, v), idx[v.id := m];
    forall i | 0 <= i < |t| ensures t[i].id in more && more[t[i].id] == Put(msg, p, m)[i] {
      if i != p {
        var j := if i < p then i else i - 1;
        assert t[i] == view[j] && Put(msg, p, m)[i] == msg[j] && view[j].id != v.id;
      }
    }
  }

  lemma {:induction false} CoveredDrop(view: Snap, idx: map<MessageId, SnapMsg>, p: nat)
    requires p < |view| && forall k :: k in idx ==> Has(view, k)
    ensures forall k :: k in idx - {view[p].id} ==> Has(Drop(view, p), k)
  {
    forall k | k in idx - {view[p].id} ensures Has(Drop(view, p), k) {
      var i := IndexOf(view, k);
      assert Drop(view, p)[if i < p then i else i - 1].id == k;
    }
  }

  lemma {:induction false} LinkedDrop(view: Snap, msg: seq<SnapMsg>, idx: map<MessageId, SnapMsg>, p: nat)
    requires Linked(view, msg, idx) && p < |view| && DistinctIds(view)
    ensures Linked(Drop(view, p), Drop(msg, p), idx - {view[p].id})
  {
    CoveredDrop(view, idx, p);
    DropDistinct(msg, p);
    var t, rest := Drop(view, p), idx - {view[p].id};
    forall i | 0 <= i < |t| ensures t[i].id in rest && rest[t[i].id] == Drop(msg, p)[i] {
      var j := if i < p then i else i + 1;
      assert t[i] == view[j] && Drop(msg, p)[i] == msg[j] && view[j].id != view[p].id;
    }
  }

  lemma {:induction false} LinkedRewrite(view: Snap, msg: seq<SnapMsg>, idx: map<MessageId, SnapMsg>, p: nat, v: Msg)
    requires Linked(view, msg, idx) && p < |view| && v.id == view[p].id
    ensures Linked(view[p := v], msg, idx)
  {
    forall k | k in idx ensures Has(view[p := v], k) {
      assert view[p := v][IndexOf(view, k)].id == k;
    }
  }

  /** What a lookup by sequence number finds; OutOfRange stands for the panic of an index before the list. */
  datatype Seat = Taken(msg: SnapMsg) | Empty | OutOfRange

  class SnapMsgList {
    var msg: seq<SnapMsg>
    var idx: map<MessageId, SnapMsg>
    ghost var view: Snap  // the messages listed, as values

    ghost predicate Valid()
      reads this, msg
    {
      && Linked(view, msg, idx)
      && (forall i :: 0 <= i < |msg| ==> msg[i].Is(view[i]))
      && Snapshot.Valid(view)
    }

    constructor ()
      ensures Valid() && view == [] && msg == []
    {
      msg, idx, view := [], map[], [];
    }

    method BinarySearchByUID(uid: Uid) returns (index: nat, ok: bool)
      requires Valid()
      ensures index == Rank(view, uid)
      ensures ok <==> HasUid(view, uid)
    {
      var i, j := 0, |msg|;
      while i < j
        invariant 0 <= i <= j <= |msg|
        invariant forall k :: 0 <= k < i ==> view[k].uid < uid
        invariant forall k :: j <= k < |msg| ==> view[k].uid >= uid
      {
        var h := (i + j) / 2;
        assert msg[h].Is(view[h]);
        if msg[h].uid < uid {
          i := h + 1;
        } else {
          j := h;
        }
      }
      RankUnique(view, uid, i);
      RankSplits(view, uid);
      assert i < |msg| ==> msg[i].Is(view[i]);
      index, ok := i, i < |msg| && msg[i].uid == uid;
    }

    lemma {:induction false} IndexedIffListed(id: MessageId)
      requires Valid()
      ensures id in idx <==> Has(view, id)
      ensures id in idx ==> idx[id] == msg[IndexOf(view, id)] && idx[id].Is(view[IndexOf(view, id)])
    {
    }

    method Install(newMsg: seq<SnapMsg>, newIdx: map<MessageId, SnapMsg>, ghost t: Snap)
      requires Linked(t, newMsg, newIdx) && Snapshot.Valid(t)
      requires forall i :: 0 <= i < |newMsg| ==> newMsg[i].Is(t[i])
      modifies this
      ensures Valid() && view == t && msg == newMsg
    {
      msg, idx, view := newMsg, newIdx, t;
    }

    lemma {:induction false} HeldPut(p: nat, v: Msg, m: SnapMsg)
      requires |view| == |msg| && p <= |msg| && m.Is(v)
      requires forall i :: 0 <= i < |msg| ==> msg[i].Is(view[i])
      ensures forall i :: 0 <= i < |msg| + 1 ==> Put(msg, p, m)[i].Is(Put(view, p, v)[i])
    {
    }

    /** Adding a message object at its rank; both inserts end here. */
    method Place(m: SnapMsg, ghost v: Msg, p: nat)
      requires Valid() && m !in msg && m.Is(v) && Marked(v)
      requires p == Rank(view, v.uid) && !HasUid(view, v.uid) && !Has(view, v.id)
      modifies this
      ensures Valid() && view == Snapshot.Insert(old(view), v)
      ensures forall x :: x in msg ==> x == m || x in old(msg)
    {
      InsertValid(view, v);
      LinkedPut(view, msg, idx, p, v, m);
      PutMembers(msg, p, m);
      HeldPut(p, v, m);
      Install(Put(msg, p, m), idx[m.id := m], Put(view, p, v));
    }

    /** The strict insert: fails on a UID that is not above the last one. */
    method Insert(id: MessageId, remote: string, uid: Uid, flags: FlagSet) returns (ok: bool)
      requires Valid() && !Has(view, id)
      modifies this
      ensures Valid()
      ensures ok <==> |old(view)| > 0 ==> old(view)[|old(view)| - 1].uid < uid
      ensures view == if ok then old(view) + [NewMsg(id, remote, uid, flags)] else old(view)
      ensures forall m :: m in msg ==> m in old(msg) || fresh(m)
    {
      assert |msg| > 0 ==> msg[|msg| - 1].Is(view[|msg| - 1]);
      if |msg| > 0 && msg[|msg| - 1].uid >= uid {
        return false;
      }
      ghost var v := NewMsg(id, remote, uid, flags);
      AppendIsInsert(view, v);
      var m := new SnapMsg(id, remote, uid, flags);
      Place(m, v, |msg|);
      return true;
    }

    /** The insert used for arrivals from other sessions; false stands for the panic on a duplicate UID. */
    method InsertOutOfOrder(id: MessageId, remote: string, uid: Uid, flags: FlagSet) returns (ok: bool)
      requires Valid() && !Has(view, id)
      modifies this
      ensures Valid()
      ensures ok <==> !HasUid(old(view), uid)
      ensures view == if ok then Snapshot.Insert(old(view), NewMsg(id, remote, uid, flags)) else old(view)
      ensures forall m :: m in msg ==> m in old(msg) || fresh(m)
    {
      var index, found := BinarySearchByUID(uid);
      if found {
        return false;
      }
      var m := new SnapMsg(id, remote, uid, flags);
      Place(m, NewMsg(id, remote, uid, flags), index);
      return true;
    }

    /** Where a listed message is found by its UID; the second lookup of remove and get cannot fail. */
    method Locate(id: MessageId) returns (index: nat)
      requires Valid() && id in idx
      ensures Has(view, id) && index == IndexOf(view, id)
    {
      IndexedIffListed(id);
      ghost var p := IndexOf(view, id);
      var ok: bool;
      index, ok := BinarySearchByUID(idx[id].uid);
      RankUnique(view, view[p].uid, p);
    }

    method Remove(id: MessageId) returns (ok: bool)
      requires Valid()
      modifies this
      ensures Valid()
      ensures ok <==> Has(old(view), id)
      ensures view == if ok then RemoveMsg(old(view), id) else old(view)
      ensures forall m :: m in msg ==> m in old(msg)
    {
      IndexedIffListed(id);
      if id !in idx {
        return false;
      }
      var index := Locate(id);
      TakeOut(id, index);
      return true;
    }

    method TakeOut(id: MessageId, index: nat)
      requires Valid() && Has(view, id) && index == IndexOf(view, id)
      modifies this
      ensures Valid() && view == RemoveMsg(old(view), id)
      ensures forall m :: m in msg ==> m in old(msg)
    {
      RemoveValid(view, id);
      DropMembers(msg, index);
      LinkedDrop(view, msg, idx, index);
      Install(Drop(msg, index), idx - {id}, Drop(view, index));
    }

    /** Rewriting the message at p in its view, once its object has been rewritten. */
    ghost method Rewrite(p: nat, v: Msg)
      requires Linked(view, msg, idx) && p < |msg| && msg[p].Is(v)
      requires forall i :: 0 <= i < |msg| && i != p ==> msg[i].Is(view[i])
      requires Snapshot.Valid(view) && v.id == view[p].id && v.uid == view[p].uid && Marked(v)
      modifies this`view
      ensures Valid() && view == old(view)[p := v]
    {
      LinkedRewrite(view, msg, idx, p, v);
      view := view[p := v];
    }

    method Update(id: MessageId, remote: string) returns (ok: bool)
      requires Valid()
      modifies this`view, msg
      ensures Valid()
      ensures ok <==> Has(old(view), id)
      ensures view == if ok then SetRemote(old(view), id, remote) else old(view)
    {
      IndexedIffListed(id);
      if id !in idx {
        return false;
      }
      ghost var p := IndexOf(view, id);
      var m := idx[id];
      m.remote := remote;
      Rewrite(p, view[p].(remote := remote));
      return true;
    }

    /** snapshot.setMessageFlags. */
    method SetMessageFlags(id: MessageId, flags: FlagSet) returns (ok: bool)
      requires Valid()
      modifies this`view, msg
      ensures Valid()
      ensures ok <==> Has(old(view), id)
      ensures view == if ok then SetFlags(old(view), id, flags) else old(view)
    {
      IndexedIffListed(id);
      if id !in idx {
        return false;
      }
      ghost var p := IndexOf(view, id);
      var m := idx[id];
      var kept := KeepRecent(m.flags, flags);
      m.toExpunge := DELETED_KEY in kept;
      m.flags := kept;
      Rewrite(p, WithFlags(view[p], flags));
      return true;
    }

    /** Sequence number and message of an ID. */
    method Get(id: MessageId) returns (r: Option<(nat, SnapMsg)>)
      requires Valid()
      ensures r.Some? <==> Has(view, id)
      ensures r.Some? ==> r.value.0 == IndexOf(view, id) + 1 && r.value.1 == msg[r.value.0 - 1]
    {
      IndexedIffListed(id);
      if id !in idx {
        return None;
      }
      var index := Locate(id);
      return Some((index + 1, msg[index]));
    }

    /** Number 0, to which a written multiple of 2^32 is cut, indexes before the list. */
    method GetWithSeqID(n: nat) returns (r: Seat)
      requires Valid()
      ensures r.OutOfRange? <==> n == 0 && |view| > 0
      ensures r.Taken? <==> 1 <= n <= |view|
      ensures r.Taken? ==> r.msg == msg[n - 1] && r.msg.Is(view[n - 1])
    {
      var index := n - 1;
      if |msg| == 0 || index >= |msg| {
        return Empty;
      }
      if index < 0 {
        return OutOfRange;
      }
      return Taken(msg[index]);
    }

    /** getMessagesWithFlagCount for \Recent. */
    method RecentMessages() returns (n: nat)
      requires Valid()
      ensures n == RecentCount(view)
    {
      n := 0;
      for i := 0 to |msg|
        invariant n == RecentCount(view[..i])
      {
        assert view[..i + 1][..i] == view[..i] && msg[i].Is(view[i]);
        if RECENT_KEY in msg[i].flags {
          n := n + 1;
        }
      }
      assert view[..|msg|] == view;
    }
  }
}

/** Untagged responses (internal/response) and the client that reads them (sections 7.3 and 7.4 of RFC 3501). */
module Responses {
  import opened Base
  import opened Flags

  datatype Item =
    | FlagsItem(flags: FlagSet)
    | UidItem(uid: Uid)
    | OtherItem(text: string)  // BODY, ENVELOPE, ...: items that never merge

  datatype Response =
    | Exists(count: nat)
    | Recent(count: nat)
    | Fetch(seqNum: nat, items: seq<Item>)
    | Expunge(seqNum: nat)
    | Other(line: string)

  /** What a client has been told about one sequence number. */
  datatype Slot = Slot(uid: Option<Uid>, flags: Option<set<string>>, extra: seq<string>)

  datatype Client = Client(slots: seq<Slot>, recent: nat)

  const UNKNOWN := Slot(None, None, [])

  function LearnItem(slot: Slot, item: Item): Slot {
    match item
    case FlagsItem(f) => slot.(flags := Some(f.Keys))
    case UidItem(u) => slot.(uid := Some(u))
    case OtherItem(t) => slot.(extra := slot.extra + [t])
  }

  function Learn(slot: Slot, items: seq<Item>): Slot {
    if |items| == 0 then slot
    else LearnItem(Learn(slot, items[..|items| - 1]), items[|items| - 1])
  }

  function Extend(slots: seq<Slot>, n: nat): (r: seq<Slot>)
    ensures n >= |slots| ==> |r| == n
    ensures n < |slots| ==> r == slots
    ensures forall i :: 0 <= i < |r| ==> r[i] == if i < |slots| then slots[i] else UNKNOWN
  {
    if n <= |slots| then slots else slots + seq(n - |slots|, _ => UNKNOWN)
  }

  /** One untagged response read by the client. */
  function See(c: Client, r: Response): Client {
    match r
    case Exists(n) => c.(slots := Extend(c.slots, n))
    case Recent(n) => c.(recent := n)
    case Fetch(k, items) =>
      if 1 <= k <= |c.slots| then c.(slots := c.slots[k - 1 := Learn(c.slots[k - 1], items)]) else c
    case Expunge(k) =>
      if 1 <= k <= |c.slots| then c.(slots := Drop(c.slots, k - 1)) else c
    case Other(_) => c
  }

  function Watch(c: Client, rs: seq<Response>): Client {
    if |rs| == 0 then c else See(Watch(c, rs[..|rs| - 1]), rs[|rs| - 1])
  }

  /** A FETCH response gives flags and UID at most once each. */
  ghost predicate UniqueKinds(items: seq<Item>) {
    && (forall i, j :: 0 <= i < j < |items| ==> !(items[i].FlagsItem? && items[j].FlagsItem?))
    && (forall i, j :: 0 <= i < j < |items| ==> !(items[i].UidItem? && items[j].UidItem?))
  }

  /** The response is legal for a client in state c: sequence numbers are in range and EXISTS never shrinks. */
  ghost predicate Legal(c: Client, r: Response) {
    match r
    case Exists(n) => n >= |c.slots|
    case Recent(_) => true
    case Fetch(k, items) => 1 <= k <= |c.slots| && UniqueKinds(items)
    case Expunge(k) => 1 <= k <= |c.slots|
    case Other(_) => true
  }

  ghost predicate LegalStream(c: Client, rs: seq<Response>) {
    |rs| > 0 ==> LegalStream(c, rs[..|rs| - 1]) && Legal(Watch(c, rs[..|rs| - 1]), rs[|rs| - 1])
  }

  lemma {:induction false} WatchConcat(c: Client, a: seq<Response>, b: seq<Response>)
    ensures Watch(c, a + b) == Watch(Watch(c, a), b)
    ensures LegalStream(c, a + b) <==> LegalStream(c, a) && LegalStream(Watch(c, a), b)
  {
    if |b| == 0 {
      assert a + b == a;
    } else {
      var n := |b| - 1;
      assert (a + b)[..|a + b| - 1] == a + b[..n];
      WatchConcat(c, a, b[..n]);
    }
  }

  lemma {:induction false} WatchCons(c: Client, r: Response, rs: seq<Response>)
    ensures Watch(c, [r] + rs) == Watch(See(c, r), rs)
    ensures LegalStream(c, [r] + rs) <==> Legal(c, r) && LegalStream(See(c, r), rs)
  {
    assert [r][..0] == [];
    assert Watch(c, [r]) == See(c, r);
    WatchConcat(c, [r], rs);
  }
}

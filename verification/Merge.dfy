/** internal/response/merge.go: the optimiser run over the responses of one flush. */
module Merge {
  import opened Base
  import opened Responses

  datatype Fit = Fits(merged: Response) | NoFit | Panics

  predicate SameKind(a: Item, b: Item) {
    (a.FlagsItem? && b.FlagsItem?) || (a.UidItem? && b.UidItem?)
  }

  /** Position of the first item that `item` merges with, or |items|. */
  function FirstOfKind(items: seq<Item>, item: Item): (i: nat)
    ensures i <= |items|
    ensures forall j :: 0 <= j < i ==> !SameKind(item, items[j])
    ensures i < |items| ==> SameKind(item, items[i])
  {
    if |items| == 0 || SameKind(item, items[0]) then 0 else
      assert forall j :: 0 <= j < |items[1..]| ==> items[1..][j] == items[j + 1];
      1 + FirstOfKind(items[1..], item)
  }

  function MergeItem(items: seq<Item>, item: Item): seq<Item> {
    var i := FirstOfKind(items, item);
    if i < |items| then items[i := item] else items + [item]
  }

  function MergeItems(items: seq<Item>, more: seq<Item>): seq<Item> {
    if |more| == 0 then items else MergeItem(MergeItems(items, more[..|more| - 1]), more[|more| - 1])
  }

  predicate Mergeable(r: Response) {
    r.Exists? || r.Recent? || r.Fetch?
  }

  function MergeWith(r: Response, other: Response): Fit {
    match (r, other)
    case (Exists(n), Exists(m)) => if m > n then Panics else Fits(r)
    case (Recent(n), Recent(m)) => if m > n then Panics else Fits(r)
    case (Fetch(k, more), Fetch(j, items)) => if j == k then Fits(Fetch(k, MergeItems(items, more))) else NoFit
    case _ => NoFit
  }

  predicate CanSkip(r: Response, other: Response) {
    match r
    case Exists(_) => other.Recent? || other.Fetch?
    case Recent(_) => other.Exists? || other.Fetch?
    case Fetch(k, _) => (other.Exists? && k < other.count) || other.Recent? || (other.Fetch? && other.seqNum != k)
    case _ => false
  }

  datatype Target = At(i: nat, merged: Response) | Nowhere | Panic

  /** Walks back from the newest response, skipping what may be skipped, to the first one that merges. */
  function FindTarget(input: seq<Response>, r: Response): (t: Target)
    ensures t.At? ==> t.i < |input| && MergeWith(r, input[t.i]) == Fits(t.merged)
    ensures t.At? ==> forall j :: t.i < j < |input| ==> MergeWith(r, input[j]).NoFit? && CanSkip(r, input[j])
  {
    if |input| == 0 then Nowhere else
    var n := |input| - 1;
    match MergeWith(r, input[n])
    case Fits(m) => At(n, m)
    case Panics => Panic
    case NoFit => if CanSkip(r, input[n]) then FindTarget(input[..n], r) else Nowhere
  }

  /** None stands for a Go panic. */
  function Place(input: seq<Response>, r: Response): Option<seq<Response>> {
    if !Mergeable(r) then Some(input + [r]) else
    match FindTarget(input, r)
    case At(i, m) => Some(input[i := m])
    case Nowhere => Some(input + [r])
    case Panic => None
  }

  function MergeAll(rs: seq<Response>): Option<seq<Response>> {
    if |rs| == 0 then Some([]) else
    match MergeAll(rs[..|rs| - 1])
    case None => None
    case Some(m) => Place(m, rs[|rs| - 1])
  }

  // ----- the loops of merge.go

  method AppendOrMergeItem(input: seq<Item>, unmerged: Item) returns (out: seq<Item>)
    ensures out == MergeItem(input, unmerged)
  {
    out := input;
    var i := 0;
    while i < |input| && !SameKind(unmerged, input[i])
      invariant 0 <= i <= |input|
      invariant forall j :: 0 <= j < i ==> !SameKind(unmerged, input[j])
    {
      i := i + 1;
    }
    if i < |input| {
      out := out[i := unmerged];
    } else {
      out := out + [unmerged];
    }
  }

  method MergeFetchItems(items: seq<Item>, more: seq<Item>) returns (out: seq<Item>)
    ensures out == MergeItems(items, more)
  {
    out := items;
    for i := 0 to |more|
      invariant out == MergeItems(items, more[..i])
    {
      out := AppendOrMergeItem(out, more[i]);
      assert more[..i + 1][..i] == more[..i];
    }
    assert more[..|more|] == more;
  }

  method AppendOrMergeResponse(input: seq<Response>, unmerged: Response) returns (out: Option<seq<Response>>)
    ensures out == Place(input, unmerged)
  {
    if !Mergeable(unmerged) {
      return Some(input + [unmerged]);
    }
    var i := |input| - 1;
    assert input[..i + 1] == input;
    while i >= 0
      invariant -1 <= i < |input|
      invariant FindTarget(input, unmerged) == FindTarget(input[..i + 1], unmerged)
    {
      assert input[..i + 1][..i] == input[..i];
      if unmerged.Fetch? {
        if input[i].Fetch? && input[i].seqNum == unmerged.seqNum {
          var items := MergeFetchItems(input[i].items, unmerged.items);
          return Some(input[i := Fetch(unmerged.seqNum, items)]);
        }
      } else {
        var fit := MergeWith(unmerged, input[i]);
        if fit.Fits? {
          return Some(input[i := fit.merged]);
        } else if fit.Panics? {
          return None;
        }
      }
      if !CanSkip(unmerged, input[i]) {
        break;
      }
      i := i - 1;
    }
    return Some(input + [unmerged]);
  }

  method MergeResponses(input: seq<Response>) returns (out: Option<seq<Response>>)
    ensures out == MergeAll(input)
  {
    if |input| < 2 {
      assert |input| == 1 ==> input[..0] == [] && input == [] + [input[0]];
      return Some(input);
    }
    var merged := [];
    for i := 0 to |input|
      invariant MergeAll(input[..i]) == Some(merged)
      invariant i == |input| ==> input[..i] == input
    {
      assert input[..i + 1][..i] == input[..i];
      var next := AppendOrMergeResponse(merged, input[i]);
      if next.None? {
        MergePanicStays(input, i + 1);
        return None;
      }
      merged := next.value;
    }
    return Some(merged);
  }

  /** A panic on a prefix is a panic on the whole list. */
  lemma {:induction false} MergePanicStays(rs: seq<Response>, i: nat)
    requires i <= |rs| && MergeAll(rs[..i]).None?
    ensures MergeAll(rs).None?
    decreases |rs|
  {
    if i == |rs| {
      assert rs[..i] == rs;
    } else {
      assert rs[..|rs| - 1][..i] == rs[..i];
      MergePanicStays(rs[..|rs| - 1], i);
    }
  }

  // ----- what merging preserves

  lemma {:induction false} LearnConcat(slot: Slot, a: seq<Item>, b: seq<Item>)
    ensures Learn(slot, a + b) == Learn(Learn(slot, a), b)
  {
    if |b| == 0 {
      assert a + b == a;
    } else {
      assert (a + b)[..|a + b| - 1] == a + b[..|b| - 1];
      LearnConcat(slot, a, b[..|b| - 1]);
    }
  }

  /** Replacing the only item of a kind means the same as appending the new one. */
  lemma {:induction false} LearnReplaced(slot: Slot, items: seq<Item>, i: nat, item: Item)
    requires UniqueKinds(items) && i < |items| && SameKind(item, items[i])
    ensures Learn(slot, items[i := item]) == LearnItem(Learn(slot, items), item)
    decreases |items|
  {
    var n := |items| - 1;
    assert items[i := item][..n] == if i == n then items[..n] else items[..n][i := item];
    if i < n {
      LearnReplaced(slot, items[..n], i, item);
      assert !SameKind(item, items[n]);
    }
  }

  lemma {:induction false} MergeItemLearns(slot: Slot, items: seq<Item>, item: Item)
    requires UniqueKinds(items)
    ensures UniqueKinds(MergeItem(items, item))
    ensures Learn(slot, MergeItem(items, item)) == LearnItem(Learn(slot, items), item)
  {
    var i := FirstOfKind(items, item);
    if i < |items| {
      LearnReplaced(slot, items, i, item);
    } else {
      assert (items + [item])[..|items|] == items;
    }
  }

  lemma {:induction false} MergeItemsLearns(slot: Slot, items: seq<Item>, more: seq<Item>)
    requires UniqueKinds(items)
    ensures UniqueKinds(MergeItems(items, more))
    ensures Learn(slot, MergeItems(items, more)) == Learn(Learn(slot, items), more)
  {
    if |more| > 0 {
      var n := |more| - 1;
      MergeItemsLearns(slot, items, more[..n]);
      MergeItemLearns(slot, MergeItems(items, more[..n]), more[n]);
    }
  }

  /** A response and one it may skip can be read in either order. */
  lemma {:induction false} SkipCommutes(c: Client, x: Response, r: Response)
    requires CanSkip(r, x) && Legal(c, x) && Legal(See(c, x), r)
    requires r.Fetch? ==> r.seqNum <= |c.slots|
    ensures Legal(c, r) && Legal(See(c, r), x)
    ensures See(See(c, x), r) == See(See(c, r), x)
  {
    assert See(See(c, x), r).slots == See(See(c, r), x).slots;
  }

  /** Two responses that merge mean the same as their merge. */
  lemma {:induction false} FitFuses(c: Client, o: Response, r: Response, m: Response)
    requires MergeWith(r, o) == Fits(m) && Legal(c, o) && Legal(See(c, o), r)
    ensures Legal(c, m) && See(c, m) == See(See(c, o), r)
  {
    if r.Fetch? {
      MergeItemsLearns(c.slots[r.seqNum - 1], o.items, r.items);
      assert See(c, m).slots == See(See(c, o), r).slots;
    } else {
      assert See(c, m).slots == See(See(c, o), r).slots;
    }
  }

  lemma {:induction false} SlideLeft(c: Client, b: seq<Response>, r: Response)
    requires LegalStream(c, b + [r])
    requires forall j :: 0 <= j < |b| ==> CanSkip(r, b[j])
    requires r.Fetch? ==> r.seqNum <= |c.slots|
    ensures LegalStream(c, [r] + b) && Watch(c, [r] + b) == Watch(c, b + [r])
    decreases |b|
  {
    if |b| == 0 {
      assert b + [r] == [r] + b;
    } else {
      var x, rest := b[0], b[1..];
      assert b == [x] + rest && b + [r] == [x] + (rest + [r]);
      WatchCons(c, x, rest + [r]);
      SlideLeft(See(c, x), rest, r);
      WatchCons(See(c, x), r, rest);
      SkipCommutes(c, x, r);
      WatchCons(See(c, r), x, rest);
      WatchCons(c, r, b);
    }
  }

  /** The responses that never merge, in order. */
  function Fixed(rs: seq<Response>): seq<Response> {
    if |rs| == 0 then []
    else Fixed(rs[..|rs| - 1]) + if Mergeable(rs[|rs| - 1]) then [] else [rs[|rs| - 1]]
  }

  lemma {:induction false} FixedIgnoresUpdate(rs: seq<Response>, i: nat, m: Response)
    requires i < |rs| && Mergeable(rs[i]) && Mergeable(m)
    ensures Fixed(rs[i := m]) == Fixed(rs)
    decreases |rs|
  {
    var n := |rs| - 1;
    assert rs[i := m][..n] == if i == n then rs[..n] else rs[..n][i := m];
    if i < n {
      FixedIgnoresUpdate(rs[..n], i, m);
    }
  }

  lemma {:induction false} FuseAcross(c: Client, o: Response, b: seq<Response>, r: Response, m: Response)
    requires LegalStream(c, [o] + (b + [r])) && MergeWith(r, o) == Fits(m)
    requires forall j :: 0 <= j < |b| ==> CanSkip(r, b[j])
    ensures LegalStream(c, [m] + b) && Watch(c, [m] + b) == Watch(c, [o] + (b + [r]))
  {
    WatchCons(c, o, b + [r]);
    SlideLeft(See(c, o), b, r);
    WatchCons(See(c, o), r, b);
    FitFuses(c, o, r, m);
    WatchCons(c, m, b);
  }

  lemma {:induction false} PlacePreserves(c: Client, input: seq<Response>, r: Response, out: seq<Response>)
    requires LegalStream(c, input + [r]) && Place(input, r) == Some(out)
    ensures LegalStream(c, out) && Watch(c, out) == Watch(c, input + [r])
  {
    hide Watch, LegalStream, MergeWith, CanSkip, FindTarget;
    if Mergeable(r) && FindTarget(input, r).At? {
      var At(i, m) := FindTarget(input, r);
      var a, o, b := input[..i], input[i], input[i + 1..];
      assert input + [r] == a + ([o] + (b + [r]));
      assert out == a + ([m] + b);
      WatchConcat(c, a, [o] + (b + [r]));
      FuseAcross(Watch(c, a), o, b, r, m);
      WatchConcat(c, a, [m] + b);
    }
  }

  lemma {:induction false} PlaceKeepsFixed(input: seq<Response>, r: Response, out: seq<Response>)
    requires Place(input, r) == Some(out)
    ensures Fixed(out) == Fixed(input + [r])
  {
    assert (input + [r])[..|input|] == input;
    if Mergeable(r) && FindTarget(input, r).At? {
      var At(i, m) := FindTarget(input, r);
      FixedIgnoresUpdate(input, i, m);
    }
  }

  /** Merging a legal stream loses nothing a client could learn and keeps the other responses in order. */
  lemma {:induction false} MergePreserves(c: Client, rs: seq<Response>)
    requires LegalStream(c, rs) && MergeAll(rs).Some?
    ensures LegalStream(c, MergeAll(rs).value)
    ensures Watch(c, MergeAll(rs).value) == Watch(c, rs)
    ensures Fixed(MergeAll(rs).value) == Fixed(rs)
  {
    if |rs| > 0 {
      var n := |rs| - 1;
      MergePreserves(c, rs[..n]);
      var m := MergeAll(rs[..n]).value;
      assert (m + [rs[n]])[..|m|] == m;
      PlacePreserves(c, m, rs[n], MergeAll(rs).value);
      PlaceKeepsFixed(m, rs[n], MergeAll(rs).value);
    }
  }

  // ----- merging merges

  /** A response that never merges stands between positions i and j. */
  ghost predicate Separated(rs: seq<Response>, i: nat, j: nat) {
    exists k :: i < k < j && k < |rs| && !Mergeable(rs[k])
  }

  predicate SameCount(a: Response, b: Response) {
    (a.Exists? && b.Exists?) || (a.Recent? && b.Recent?)
  }

  ghost predicate OnePerRun(rs: seq<Response>) {
    forall i: nat, j: nat :: i < j < |rs| && SameCount(rs[i], rs[j]) ==> Separated(rs, i, j)
  }

  lemma {:induction false} NowhereSeparates(input: seq<Response>, r: Response, i: nat)
    requires FindTarget(input, r).Nowhere? && i < |input| && SameCount(input[i], r)
    ensures Separated(input, i, |input|)
    decreases |input|
  {
    var n := |input| - 1;
    if Mergeable(input[n]) {
      NowhereSeparates(input[..n], r, i);
      var k :| i < k < n && !Mergeable(input[..n][k]);
      assert !Mergeable(input[k]);
    }
  }

  lemma {:induction false} PlaceOnePerRun(input: seq<Response>, r: Response, out: seq<Response>)
    requires OnePerRun(input) && Place(input, r) == Some(out)
    ensures OnePerRun(out)
  {
    forall i: nat, j: nat | i < j < |out| && SameCount(out[i], out[j]) ensures Separated(out, i, j) {
      if j < |input| {
        assert SameCount(input[i], input[j]);
        var k :| i < k < j && !Mergeable(input[k]);
        assert !Mergeable(out[k]);
      } else {
        NowhereSeparates(input, r, i);
        var k :| i < k < |input| && !Mergeable(input[k]);
        assert !Mergeable(out[k]);
      }
    }
  }

  /** Between two responses that never merge, at most one EXISTS and one RECENT are left, and nothing is added. */
  lemma {:induction false} MergeLeavesOne(rs: seq<Response>)
    requires MergeAll(rs).Some?
    ensures OnePerRun(MergeAll(rs).value) && |MergeAll(rs).value| <= |rs|
  {
    if |rs| > 0 {
      var n := |rs| - 1;
      MergeLeavesOne(rs[..n]);
      PlaceOnePerRun(MergeAll(rs[..n]).value, rs[n], MergeAll(rs).value);
    }
  }

  // ----- FETCH responses of one number

  predicate FetchOf(r: Response, k: nat) {
    r.Fetch? && r.seqNum == k
  }

  /** Every EXISTS announces more than k messages, so that a FETCH of message k skips it. */
  ghost predicate AllAbove(rs: seq<Response>, k: nat) {
    forall i :: 0 <= i < |rs| && rs[i].Exists? ==> k < rs[i].count
  }

  /** What a FETCH does not skip: a response that never merges, or an EXISTS unless those all announce enough. */
  predicate Bars(r: Response, above: bool) {
    !Mergeable(r) || (r.Exists? && !above)
  }

  ghost predicate Parted(rs: seq<Response>, above: bool, i: nat, j: nat) {
    exists m :: i < m < j && m < |rs| && Bars(rs[m], above)
  }

  ghost predicate OneFetchPerRun(rs: seq<Response>, k: nat, above: bool) {
    forall i: nat, j: nat :: i < j < |rs| && FetchOf(rs[i], k) && FetchOf(rs[j], k) ==> Parted(rs, above, i, j)
  }

  lemma {:induction false} NowhereParts(input: seq<Response>, r: Response, k: nat, above: bool, i: nat)
    requires FindTarget(input, r).Nowhere? && i < |input| && FetchOf(input[i], k) && FetchOf(r, k)
    requires above ==> AllAbove(input, k)
    ensures Parted(input, above, i, |input|)
    decreases |input|
  {
    var n := |input| - 1;
    if !Bars(input[n], above) {
      NowhereParts(input[..n], r, k, above, i);
      var m :| i < m < n && Bars(input[..n][m], above);
      assert Bars(input[m], above);
    }
  }

  lemma {:induction false} PlaceOneFetch(input: seq<Response>, r: Response, k: nat, above: bool, out: seq<Response>)
    requires OneFetchPerRun(input, k, above) && Place(input, r) == Some(out)
    requires above ==> AllAbove(input, k)
    ensures OneFetchPerRun(out, k, above)
  {
    forall i: nat, j: nat | i < j < |out| && FetchOf(out[i], k) && FetchOf(out[j], k) ensures Parted(out, above, i, j) {
      if j < |input| {
        assert FetchOf(input[i], k) && FetchOf(input[j], k);
        var m :| i < m < j && Bars(input[m], above);
        assert Bars(out[m], above);
      } else {
        NowhereParts(input, r, k, above, i);
        var m :| i < m < |input| && Bars(input[m], above);
        assert Bars(out[m], above);
      }
    }
  }

  lemma {:induction false} PlaceAbove(input: seq<Response>, r: Response, k: nat, out: seq<Response>)
    requires AllAbove(input + [r], k) && Place(input, r) == Some(out)
    ensures AllAbove(input, k) && AllAbove(out, k)
  {
    assert (input + [r])[|input|] == r;
    assert forall i :: 0 <= i < |input| ==> (input + [r])[i] == input[i];
  }

  lemma {:induction false} MergeAbove(rs: seq<Response>, k: nat)
    requires MergeAll(rs).Some? && AllAbove(rs, k)
    ensures AllAbove(MergeAll(rs).value, k)
  {
    if |rs| > 0 {
      var n := |rs| - 1;
      MergeAbove(rs[..n], k);
      PlaceAbove(MergeAll(rs[..n]).value, rs[n], k, MergeAll(rs).value);
    }
  }

  /**
   * Two FETCH responses of one number are left only with an EXISTS or a response that never merges between them, and
   * only with the latter when every EXISTS announces more than that number.
   */
  lemma {:induction false} MergeLeavesOneFetch(rs: seq<Response>, k: nat, above: bool)
    requires MergeAll(rs).Some? && (above ==> AllAbove(rs, k))
    ensures OneFetchPerRun(MergeAll(rs).value, k, above)
  {
    if |rs| > 0 {
      var n := |rs| - 1;
      MergeLeavesOneFetch(rs[..n], k, above);
      if above {
        MergeAbove(rs[..n], k);
      }
      PlaceOneFetch(MergeAll(rs[..n]).value, rs[n], k, above, MergeAll(rs).value);
    }
  }

  /** An EXISTS that came too early keeps two FETCH apart, although it ends up announcing enough to be skipped. */
  lemma {:induction false} EarlyExistsParts(k: nat, a: seq<Item>, b: seq<Item>)
    ensures MergeAll([Fetch(k, a), Exists(k), Fetch(k, b), Exists(k + 1)]) ==
            Some([Fetch(k, a), Exists(k + 1), Fetch(k, b)])
    ensures CanSkip(Fetch(k, b), Exists(k + 1)) && MergeWith(Fetch(k, b), Fetch(k, a)).Fits?
  {
    var f, e, g, h := Fetch(k, a), Exists(k), Fetch(k, b), Exists(k + 1);
    EarlyExistsPlaces(f, e, g, h);
    hide Place, MergeWith, CanSkip;
    assert [] + [f] == [f] && [f] + [e] == [f, e] && [f, e] + [g] == [f, e, g] && [f, e, g] + [h] == [f, e, g, h];
    MergeSnoc([], [], f, [f]);
    MergeSnoc([f], [f], e, [f, e]);
    MergeSnoc([f, e], [f, e], g, [f, e, g]);
    MergeSnoc([f, e, g], [f, e, g], h, [f, h, g]);
  }

  lemma {:induction false} EarlyExistsPlaces(f: Response, e: Response, g: Response, h: Response)
    requires f.Fetch? && g.Fetch? && f.seqNum == g.seqNum && e == Exists(f.seqNum) && h == Exists(f.seqNum + 1)
    ensures Place([], f) == Some([f]) && Place([f], e) == Some([f, e])
    ensures Place([f, e], g) == Some([f, e, g]) && Place([f, e, g], h) == Some([f, h, g])
    ensures CanSkip(g, h) && MergeWith(g, f).Fits?
  {
    hide MergeItems;
    assert [] + [f] == [f] && [f] + [e] == [f, e] && [f, e] + [g] == [f, e, g];
    assert FindTarget([], f) == Nowhere && FindTarget([f][..0], e) == Nowhere && FindTarget([f], e) == Nowhere;
    assert FindTarget([f, e], g) == Nowhere;
    assert [f, e, g][..2] == [f, e] && FindTarget([f, e], h) == At(1, h);
    assert [f, e, g][1 := h] == [f, h, g];
  }

  lemma {:induction false} MergeSnoc(rs: seq<Response>, m: seq<Response>, r: Response, out: seq<Response>)
    requires MergeAll(rs) == Some(m) && Place(m, r) == Some(out)
    ensures MergeAll(rs + [r]) == Some(out)
  {
    assert (rs + [r])[..|rs|] == rs;
  }

  // ----- when merging panics

  /** The newest EXISTS count not separated from the end by a response that never merges. */
  function LastExists(rs: seq<Response>): Option<nat> {
    if |rs| == 0 || !Mergeable(rs[|rs| - 1]) then None
    else if rs[|rs| - 1].Exists? then Some(rs[|rs| - 1].count)
    else LastExists(rs[..|rs| - 1])
  }

  function LastRecent(rs: seq<Response>): Option<nat> {
    if |rs| == 0 || !Mergeable(rs[|rs| - 1]) then None
    else if rs[|rs| - 1].Recent? then Some(rs[|rs| - 1].count)
    else LastRecent(rs[..|rs| - 1])
  }

  /** r announces a smaller count than the last one of its kind in the same run of mergeable responses. */
  predicate Regresses(rs: seq<Response>, r: Response) {
    || (r.Exists? && LastExists(rs).Some? && LastExists(rs).value > r.count)
    || (r.Recent? && LastRecent(rs).Some? && LastRecent(rs).value > r.count)
  }

  lemma {:induction false} LastsIgnoreUpdate(rs: seq<Response>, i: nat, m: Response)
    requires i < |rs| && Mergeable(rs[i]) && Mergeable(m)
    requires forall j :: i < j < |rs| ==> Mergeable(rs[j])
    ensures !rs[i].Exists? && !m.Exists? ==> LastExists(rs[i := m]) == LastExists(rs)
    ensures !rs[i].Recent? && !m.Recent? ==> LastRecent(rs[i := m]) == LastRecent(rs)
    ensures m.Exists? && (forall j :: i < j < |rs| ==> !rs[j].Exists?) ==> LastExists(rs[i := m]) == Some(m.count)
    ensures m.Recent? && (forall j :: i < j < |rs| ==> !rs[j].Recent?) ==> LastRecent(rs[i := m]) == Some(m.count)
    decreases |rs|
  {
    var n := |rs| - 1;
    assert rs[i := m][..n] == if i == n then rs[..n] else rs[..n][i := m];
    if i < n {
      LastsIgnoreUpdate(rs[..n], i, m);
    }
  }

  lemma {:induction false} FindTargetPanics(input: seq<Response>, r: Response)
    requires Mergeable(r)
    ensures FindTarget(input, r).Panic? <==> Regresses(input, r)
  {
    if |input| > 0 {
      FindTargetPanics(input[..|input| - 1], r);
    }
  }

  lemma {:induction false} PlaceKeepsLasts(input: seq<Response>, r: Response, out: seq<Response>)
    requires Place(input, r) == Some(out)
    ensures LastExists(out) == LastExists(input + [r]) && LastRecent(out) == LastRecent(input + [r])
  {
    assert (input + [r])[..|input|] == input;
    if Mergeable(r) && FindTarget(input, r).At? {
      var At(i, m) := FindTarget(input, r);
      LastsIgnoreUpdate(input, i, m);
    }
  }

  lemma {:induction false} MergeKeepsLasts(rs: seq<Response>)
    requires MergeAll(rs).Some?
    ensures LastExists(MergeAll(rs).value) == LastExists(rs) && LastRecent(MergeAll(rs).value) == LastRecent(rs)
  {
    if |rs| > 0 {
      var n := |rs| - 1;
      MergeKeepsLasts(rs[..n]);
      var m := MergeAll(rs[..n]).value;
      assert (m + [rs[n]])[..|m|] == m && rs == rs[..n] + [rs[n]];
      PlaceKeepsLasts(m, rs[n], MergeAll(rs).value);
    }
  }

  lemma {:induction false} LastPanics(rs: seq<Response>)
    requires |rs| > 0
    ensures var n := |rs| - 1;
            MergeAll(rs).None? <==> MergeAll(rs[..n]).None? || Regresses(rs[..n], rs[n])
  {
    var n := |rs| - 1;
    hide LastExists, LastRecent, FindTarget;
    if MergeAll(rs[..n]).Some? {
      MergeKeepsLasts(rs[..n]);
      if Mergeable(rs[n]) {
        FindTargetPanics(MergeAll(rs[..n]).value, rs[n]);
      }
    }
  }

  /** Merge panics exactly on streams in which some EXISTS or RECENT count regresses within a run. */
  lemma {:induction false} MergePanicsIff(rs: seq<Response>)
    ensures MergeAll(rs).None? <==> exists i :: 0 <= i < |rs| && Regresses(rs[..i], rs[i])
  {
    if |rs| > 0 {
      hide Regresses;
      var n := |rs| - 1;
      var front := rs[..n];
      MergePanicsIff(front);
      LastPanics(rs);
      assert forall i :: 0 <= i < n ==> front[..i] == rs[..i] && front[i] == rs[i];
      if MergeAll(front).None? {
        var i :| 0 <= i < n && Regresses(front[..i], front[i]);
        assert Regresses(rs[..i], rs[i]);
      }
    }
  }
}

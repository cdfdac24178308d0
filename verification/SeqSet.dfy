/** imap/seqset.go: sequence sets printed compactly. */
module SeqSet {
  /** A message sequence number or UID on the wire: a positive 32-bit integer. */
  type SeqId = n: int | 0 < n < 0x1_0000_0000 witness 1

  datatype SeqVal = SeqVal(begin: SeqId, end: SeqId)

  ghost predicate Ascends(s: seq<SeqId>) {
    forall i, j :: 0 <= i < j < |s| ==> s[i] <= s[j]
  }

  // ----- slices.Sort

  function InsertSorted(s: seq<SeqId>, x: SeqId): (r: seq<SeqId>)
    requires Ascends(s)
    ensures |r| == |s| + 1 && Ascends(r)
    ensures r[|s|] == if |s| == 0 || s[|s| - 1] <= x then x else s[|s| - 1]
  {
    if |s| == 0 || s[|s| - 1] <= x then s + [x]
    else InsertSorted(s[..|s| - 1], x) + [s[|s| - 1]]
  }

  function Sorted(s: seq<SeqId>): (r: seq<SeqId>)
    ensures |r| == |s| && Ascends(r)
  {
    if |s| == 0 then [] else InsertSorted(Sorted(s[..|s| - 1]), s[|s| - 1])
  }

  lemma {:induction false} InsertPermutes(s: seq<SeqId>, x: SeqId)
    requires Ascends(s)
    ensures multiset(InsertSorted(s, x)) == multiset(s) + multiset{x}
  {
    if |s| > 0 {
      assert s == s[..|s| - 1] + [s[|s| - 1]];
      InsertPermutes(s[..|s| - 1], x);
    }
  }

  lemma {:induction false} SortedPermutes(s: seq<SeqId>)
    ensures multiset(Sorted(s)) == multiset(s)
  {
    if |s| > 0 {
      assert s == s[..|s| - 1] + [s[|s| - 1]];
      SortedPermutes(s[..|s| - 1]);
      InsertPermutes(Sorted(s[..|s| - 1]), s[|s| - 1]);
    }
  }

  // ----- building ranges

  /** End + 1 in 32 bits. */
  predicate CanCombine(v: SeqVal, n: SeqId) {
    n == (v.end + 1) % 0x1_0000_0000
  }

  function AddValue(res: seq<SeqVal>, n: SeqId): seq<SeqVal> {
    if |res| > 0 && CanCombine(res[|res| - 1], n) then res[|res| - 1 := res[|res| - 1].(end := n)]
    else res + [SeqVal(n, n)]
  }

  function Build(s: seq<SeqId>): seq<SeqVal> {
    if |s| == 0 then [] else AddValue(Build(s[..|s| - 1]), s[|s| - 1])
  }

  method NewSeqSet(set_: seq<SeqId>) returns (res: seq<SeqVal>)
    ensures res == Build(Sorted(set_))
  {
    var s := Sorted(set_);
    res := [];
    for i := 0 to |s|
      invariant res == Build(s[..i])
    {
      assert s[..i + 1][..i] == s[..i];
      var n := |res|;
      if n > 0 {
        if CanCombine(res[n - 1], s[i]) {
          res := res[n - 1 := res[n - 1].(end := s[i])];
        } else {
          res := res + [SeqVal(s[i], s[i])];
        }
      } else {
        res := res + [SeqVal(s[i], s[i])];
      }
    }
    assert s[..|s|] == s;
  }

  // ----- what the ranges stand for

  function Span(lo: SeqId, hi: SeqId): (r: seq<SeqId>)
    ensures |r| == (if lo <= hi then hi - lo + 1 else 0) && forall i :: 0 <= i < |r| ==> r[i] == lo + i
  {
    if lo > hi then [] else seq(hi - lo + 1, i requires 0 <= i < hi - lo + 1 => lo + i)
  }

  function Expand(vs: seq<SeqVal>): seq<SeqId> {
    if |vs| == 0 then [] else Expand(vs[..|vs| - 1]) + Span(vs[|vs| - 1].begin, vs[|vs| - 1].end)
  }

  /** Every range is non-empty and ends at its last number. */
  ghost predicate Proper(vs: seq<SeqVal>) {
    forall i :: 0 <= i < |vs| ==> vs[i].begin <= vs[i].end
  }

  lemma {:induction false} AddExpands(vs: seq<SeqVal>, n: SeqId)
    requires Proper(vs)
    ensures Proper(AddValue(vs, n)) && Expand(AddValue(vs, n)) == Expand(vs) + [n]
  {
    var k := |vs|;
    if k > 0 && CanCombine(vs[k - 1], n) {
      var out := AddValue(vs, n);
      assert n == vs[k - 1].end + 1;
      assert out[..k - 1] == vs[..k - 1];
      assert Span(vs[k - 1].begin, n) == Span(vs[k - 1].begin, vs[k - 1].end) + [n];
    } else {
      assert (vs + [SeqVal(n, n)])[..k] == vs;
      assert Span(n, n) == [n];
    }
  }

  /** The ranges stand for exactly the numbers put in, in order and with repetitions. */
  lemma {:induction false} BuildExpands(s: seq<SeqId>)
    ensures Proper(Build(s)) && Expand(Build(s)) == s
  {
    if |s| > 0 {
      hide AddValue, Expand, Proper;
      var front, n := s[..|s| - 1], s[|s| - 1];
      BuildExpands(front);
      AddExpands(Build(front), n);
      assert front + [n] == s;
    }
  }

  ghost predicate Strict(s: seq<SeqId>) {
    forall i, j :: 0 <= i < j < |s| ==> s[i] < s[j]
  }

  /** No range could be joined with the next. */
  ghost predicate Compact(vs: seq<SeqVal>) {
    forall i :: 0 <= i < |vs| - 1 ==> vs[i].end + 1 < vs[i + 1].begin
  }

  ghost predicate NoRepeat(s: seq<SeqId>) {
    forall i, j :: 0 <= i < j < |s| ==> s[i] != s[j]
  }

  lemma {:induction false} NoRepeatIff(s: seq<SeqId>)
    ensures NoRepeat(s) <==> forall x :: multiset(s)[x] <= 1
  {
    if |s| > 0 {
      var n := |s| - 1;
      var front, x := s[..n], s[n];
      NoRepeatIff(front);
      assert s == front + [x];
      assert multiset(s) == multiset(front) + multiset{x};
      assert x in front <==> multiset(front)[x] > 0;
      assert forall i :: 0 <= i < n ==> front[i] == s[i];
      if forall y :: multiset(s)[y] <= 1 {
        assert multiset(s)[x] <= 1;
        assert forall y :: multiset(front)[y] <= multiset(s)[y];
        assert x !in front;
      }
    }
  }

  /** Sorting distinct numbers makes them strictly ascending. */
  lemma {:induction false} SortedIsStrict(s: seq<SeqId>)
    requires NoRepeat(s)
    ensures Strict(Sorted(s))
  {
    SortedPermutes(s);
    NoRepeatIff(s);
    NoRepeatIff(Sorted(s));
  }

  /** For distinct numbers, in whatever order, the set is as short as it can be. */
  lemma {:induction false} SeqSetCompact(s: seq<SeqId>)
    requires NoRepeat(s)
    ensures Compact(Build(Sorted(s)))
  {
    SortedIsStrict(s);
    BuildCompact(Sorted(s));
  }

  lemma {:induction false} BuildCompact(s: seq<SeqId>)
    requires Strict(s)
    ensures Compact(Build(s)) && (|s| > 0 ==> |Build(s)| > 0 && Build(s)[|Build(s)| - 1].end == s[|s| - 1])
  {
    if |s| > 0 {
      BuildCompact(s[..|s| - 1]);
    }
  }
}

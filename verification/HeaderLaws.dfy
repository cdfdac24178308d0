/** Setting a header field, then reading or erasing it. */
module HeaderLaws {
  import opened Base
  import opened Bytes
  import opened HeaderParser
  import opened Literal

  // ----- parsing looks no further than one byte past an entry

  /** The headers agree up to p, and at p neither goes on with a fold. */
  ghost predicate Agree(h: Text, g: Text, p: nat) {
    && p <= |h| && p <= |g| && (forall i :: 0 <= i < p ==> h[i] == g[i])
    && (p < |g| ==> !Wsp(g[p])) && (p < |h| ==> !Wsp(h[p])) && (p == |h| && p > 0 ==> h[p - 1] == LF)
  }

  predicate NoValue(e: Entry) {
    e.valueStart == e.valueEnd
  }

  /** Entries of two headers with the same key, value and end. */
  ghost predicate SameStep(a: Outcome, b: Outcome) {
    && a.Found? && b.Found? && a.next == b.next
    && a.entry.keyStart == b.entry.keyStart && a.entry.keyEnd == b.entry.keyEnd
    && (a.entry == b.entry || (NoValue(a.entry) && NoValue(b.entry)))
  }

  lemma {:induction false} SameMark(h: Text, g: Text, p: nat, o: nat)
    requires Agree(h, g, p) && o <= p && Mark(h, o) < p
    ensures Mark(g, o) == Mark(h, o)
    decreases p - o
  {
    if h[o] != COLON && h[o] != LF {
      SameMark(h, g, p, o + 1);
    }
  }

  lemma {:induction false} SameSkip(h: Text, g: Text, p: nat, k: nat)
    requires Agree(h, g, p) && k <= p && SkipWsp(h, k) <= p
    ensures SkipWsp(g, k) == SkipWsp(h, k)
    decreases p - k
  {
    if k < p && Wsp(h[k]) {
      SameSkip(h, g, p, k + 1);
    }
  }

  lemma {:induction false} SameValueEnd(h: Text, g: Text, p: nat, k: nat)
    requires Agree(h, g, p) && k < p && ValueEnd(h, k).Reach? && ValueEnd(h, k).pos <= p
    ensures ValueEnd(g, k) == ValueEnd(h, k)
    decreases p - k
  {
    if h[k] == CR {
      if k + 2 < |h| && Wsp(h[k + 2]) {
        SameValueEnd(h, g, p, k + 2);
      }
    } else if h[k] == LF {
      if k + 1 < |h| && Wsp(h[k + 1]) {
        SameValueEnd(h, g, p, k + 1);
      }
    } else {
      SameValueEnd(h, g, p, k + 1);
    }
  }

  lemma {:induction false} SameValue(h: Text, g: Text, p: nat, o: nat, m: nat, k: nat)
    requires Agree(h, g, p) && k < p && ValueFrom(h, o, m, k).Found? && ValueFrom(h, o, m, k).next <= p
    ensures SameStep(ValueFrom(h, o, m, k), ValueFrom(g, o, m, k))
  {
    var v := SkipWsp(h, k);
    assert v < p by {
      assert v >= p ==> p < |h| || Wsp(h[p - 1]);
    }
    SameSkip(h, g, p, k);
    SameValueEnd(h, g, p, v);
  }

  lemma {:induction false} SameBreak(h: Text, g: Text, p: nat, o: nat, m: nat, k: nat)
    requires Agree(h, g, p) && o <= m < k <= p && BreakFrom(h, o, m, k).Found? && BreakFrom(h, o, m, k).next <= p
    ensures SameStep(BreakFrom(h, o, m, k), BreakFrom(g, o, m, k))
  {
    assert ValidKey(g, o, m);
    if k < p && Wsp(h[k]) {
      SameValue(h, g, p, o, m, k);
    }
  }

  lemma {:induction false} SameField(h: Text, g: Text, p: nat, o: nat, m: nat)
    requires Agree(h, g, p) && o <= m < |h| - 1 && FieldFrom(h, o, m).Found? && FieldFrom(h, o, m).next <= p
    ensures m + 1 < p && SameStep(FieldFrom(h, o, m), FieldFrom(g, o, m))
  {
    hide BreakFrom, ValueFrom, SameStep;
    FieldAdvances(h, o, m);
    if h[m + 1] == CR {
      BreakPast(h, o, m, m + 3);
      SameBreak(h, g, p, o, m, m + 3);
    } else if h[m + 1] == LF {
      BreakPast(h, o, m, m + 2);
      SameBreak(h, g, p, o, m, m + 2);
    } else {
      ValuePast(h, o, m, m + 1);
      SameValue(h, g, p, o, m, m + 1);
    }
  }

  lemma {:induction false} BreakPast(h: Text, o: nat, m: nat, k: nat)
    requires o <= m <= |h| && BreakFrom(h, o, m, k).Found?
    ensures k <= BreakFrom(h, o, m, k).next && ValidKey(h, o, m)
  {
  }

  lemma {:induction false} ValuePast(h: Text, o: nat, m: nat, k: nat)
    requires k < |h| && ValueFrom(h, o, m, k).Found?
    ensures k < ValueFrom(h, o, m, k).next
  {
  }

  /** A step that ends at or before p is the same step in both headers. */
  lemma {:induction false} SameNext(h: Text, g: Text, p: nat, o: nat)
    requires Agree(h, g, p) && NextFrom(h, o).Found? && NextFrom(h, o).next <= p
    ensures SameStep(NextFrom(h, o), NextFrom(g, o))
  {
    NextAdvances(h, o);
    var m := Mark(h, o);
    if h[m] == LF {
      SameMark(h, g, p, o);
    } else {
      SameField(h, g, p, o, m);
      SameMark(h, g, p, o);
    }
  }

  // ----- the text before the first field

  /** From o to p there are only entries without a key. */
  ghost predicate Prelude(h: Text, o: nat, p: nat)
    decreases p - o
  {
    o == p || (
      var r := NextFrom(h, o);
      r.Found? && !r.entry.HasKey() && o < r.next <= p && Prelude(h, r.next, p))
  }

  lemma {:induction false} SamePrelude(h: Text, g: Text, p: nat, o: nat)
    requires Agree(h, g, p) && Prelude(h, o, p)
    ensures Prelude(g, o, p)
    decreases p - o
  {
    if o != p {
      var next := NextFrom(h, o).next;
      PreludeBounds(h, next, p);
      SameNext(h, g, p, o);
      SamePrelude(h, g, p, next);
    }
  }

  lemma {:induction false} PreludeBounds(h: Text, o: nat, p: nat)
    requires Prelude(h, o, p)
    ensures o <= p
  {
  }

  lemma {:induction false} PreludeSkipped(h: Text, o: nat, p: nat, want: Option<Text>)
    requires Prelude(h, o, p)
    ensures Find(h, o, want) == Find(h, p, want)
    decreases p - o
  {
    if o != p {
      NextAdvances(h, o);
      PreludeSkipped(h, NextFrom(h, o).next, p, want);
    }
  }

  /** The first keyed entry comes after a prelude. */
  lemma {:induction false} HitAfterPrelude(h: Text, o: nat)
    requires Find(h, o, None).Hit?
    ensures var e := Find(h, o, None).entry;
            && o <= e.keyStart && Prelude(h, o, e.keyStart) && e.HasKey()
            && NextFrom(h, e.keyStart).Found? && NextFrom(h, e.keyStart).entry == e
    decreases |h| + 1 - o
  {
    NextAdvances(h, o);
    var r := NextFrom(h, o);
    if !r.entry.HasKey() {
      HitAfterPrelude(h, r.next);
    }
  }

  /** A step ends after a line feed or at the end. */
  lemma {:induction false} ValueEndAtLine(h: Text, k: nat)
    requires ValueEnd(h, k).Reach? && ValueEnd(h, k).pos < |h|
    ensures var n := ValueEnd(h, k).pos; n > 0 && h[n - 1] == LF
    decreases |h| - k
  {
    var next := if h[k] == CR then k + 2 else k + 1;
    if next < |h| && (h[k] == CR || h[k] == LF ==> Wsp(h[next])) {
      ValueEndAtLine(h, next);
    }
  }

  lemma {:induction false} ValueFromEndsAtLine(h: Text, o: nat, m: nat, k: nat)
    requires ValueFrom(h, o, m, k).Found? && ValueFrom(h, o, m, k).next < |h|
    ensures var n := ValueFrom(h, o, m, k).next; n > 0 && h[n - 1] == LF
  {
    ValueEndAtLine(h, SkipWsp(h, k));
  }

  lemma {:induction false} BreakEndsAtLine(h: Text, o: nat, m: nat, k: nat)
    requires o <= m < k <= |h| && h[k - 1] == LF && BreakFrom(h, o, m, k).Found? && BreakFrom(h, o, m, k).next < |h|
    ensures var n := BreakFrom(h, o, m, k).next; n > 0 && h[n - 1] == LF
  {
    if k >= |h| || Wsp(h[k]) {
      ValueFromEndsAtLine(h, o, m, k);
    }
  }

  lemma {:induction false} StepEndsAtLine(h: Text, o: nat)
    requires NextFrom(h, o).Found? && NextFrom(h, o).next < |h|
    ensures var n := NextFrom(h, o).next; n > 0 && h[n - 1] == LF
  {
    var m := Mark(h, o);
    if h[m] == COLON {
      FieldEndsAtLine(h, o, m);
    }
  }

  lemma {:induction false} FieldEndsAtLine(h: Text, o: nat, m: nat)
    requires o <= m < |h| - 1 && FieldFrom(h, o, m).Found? && FieldFrom(h, o, m).next < |h|
    ensures var n := FieldFrom(h, o, m).next; n > 0 && h[n - 1] == LF
  {
    hide BreakFrom, ValueFrom;
    if h[m + 1] == CR {
      BreakPast(h, o, m, m + 3);
      BreakEndsAtLine(h, o, m, m + 3);
    } else if h[m + 1] == LF {
      BreakEndsAtLine(h, o, m, m + 2);
    } else {
      ValueFromEndsAtLine(h, o, m, m + 1);
    }
  }

  lemma {:induction false} PreludeEndsAtLine(h: Text, o: nat, p: nat)
    requires Prelude(h, o, p) && p < |h| && (o == 0 || (o <= |h| && h[o - 1] == LF))
    ensures p == 0 || h[p - 1] == LF
    decreases p - o
  {
    if o != p {
      var n := NextFrom(h, o).next;
      PreludeBounds(h, n, p);
      StepEndsAtLine(h, o);
      PreludeEndsAtLine(h, n, p);
    }
  }

  // ----- a line feed that no fold follows ends the entry

  predicate Breaks(h: Text, i: nat) {
    i + 1 < |h| && h[i] == LF && !Wsp(h[i + 1])
  }

  lemma {:induction false} ValueEndsAtBreak(h: Text, k: nat, i: nat)
    requires Breaks(h, i) && k <= i && ValueEnd(h, k).Reach?
    ensures ValueEnd(h, k).pos <= i + 1
    decreases |h| - k
  {
    var next := if h[k] == CR then k + 2 else k + 1;
    if next <= i && (h[k] == CR || h[k] == LF ==> Wsp(h[next])) {
      ValueEndsAtBreak(h, next, i);
    }
  }

  lemma {:induction false} ValueFromEndsAtBreak(h: Text, o: nat, m: nat, k: nat, i: nat)
    requires Breaks(h, i) && k <= i && ValueFrom(h, o, m, k).Found?
    ensures ValueFrom(h, o, m, k).next <= i + 1
  {
    ValueEndsAtBreak(h, SkipWsp(h, k), i);
  }

  lemma {:induction false} EntryEndsAtBreak(h: Text, o: nat, i: nat)
    requires Breaks(h, i) && o <= i && NextFrom(h, o).Found?
    ensures NextFrom(h, o).next <= i + 1
  {
    hide ValueFrom;
    var m := Mark(h, o);
    if h[m] == COLON {
      var k := if h[m + 1] == CR then m + 3 else if h[m + 1] == LF then m + 2 else m + 1;
      if k <= i && ValueFrom(h, o, m, k).Found? {
        ValueFromEndsAtBreak(h, o, m, k, i);
      }
    }
  }

  // ----- a header without a keyed entry

  lemma {:induction false} NobodyForAnyKey(h: Text, o: nat, want: Option<Text>)
    requires Find(h, o, None).Nobody?
    ensures Find(h, o, want).Nobody?
    decreases |h| + 1 - o
  {
    if NextFrom(h, o).Found? {
      NextAdvances(h, o);
      NobodyForAnyKey(h, NextFrom(h, o).next, want);
    }
  }

  lemma {:induction false} StepInside(h: Text, o: nat)
    requires NextFrom(h, o).Found? && h[|h| - 1] == LF
    ensures NextFrom(h, o).next <= |h|
  {
    NextAdvances(h, o);
    var m := Mark(h, o);
    if h[m] == COLON {
      FieldAdvances(h, o, m);
    }
  }

  lemma {:induction false} NobodyIsPrelude(h: Text, o: nat)
    requires Find(h, o, None).Nobody? && o <= |h| && (|h| > 0 ==> h[|h| - 1] == LF)
    ensures Prelude(h, o, |h|)
    decreases |h| - o
  {
    if o < |h| {
      NextAdvances(h, o);
      StepInside(h, o);
      NobodyIsPrelude(h, NextFrom(h, o).next);
    }
  }

  /** Without a final line feed the header ends inside an entry. */
  lemma {:induction false} LastEntry(h: Text, o: nat) returns (q: nat)
    requires Find(h, o, None).Nobody? && o < |h| && h[|h| - 1] != LF
    ensures q < |h| && Prelude(h, o, q)
    ensures NextFrom(h, q).Found? && !NextFrom(h, q).entry.HasKey() && |h| <= NextFrom(h, q).next
    decreases |h| - o
  {
    NextAdvances(h, o);
    var r := NextFrom(h, o);
    if r.next >= |h| {
      q := o;
    } else {
      q := LastEntry(h, r.next);
      PreludeBounds(h, r.next, q);
    }
  }

  // ----- reading the field back

  predicate GoodKey(key: Text) {
    |key| > 0 && forall i :: 0 <= i < |key| ==> Printable(key[i]) && key[i] != COLON
  }

  predicate GoodValue(val: Text) {
    forall i :: 0 <= i < |val| ==> val[i] != CR && val[i] != LF
  }

  lemma {:induction false} CanonicalFolds(key: Text)
    ensures LowerText(Canonical(key)) == LowerText(key) && |Canonical(key)| == |key|
    ensures GoodKey(key) ==> GoodKey(Canonical(key))
  {
  }

  lemma {:induction false} ValueEndAt(g: Text, k: nat, c: nat)
    requires k <= c && c + 2 <= |g| && g[c] == CR && g[c + 1] == LF && (c + 2 < |g| ==> !Wsp(g[c + 2]))
    requires forall i :: k <= i < c ==> g[i] != CR && g[i] != LF
    ensures ValueEnd(g, k) == Reach(c + 2)
    decreases c - k
  {
    if k < c {
      ValueEndAt(g, k + 1, c);
    }
  }

  /** The field stands at p, and no fold follows it. */
  ghost predicate FieldAt(g: Text, p: nat, key: Text, val: Text) {
    var end := p + |key| + |val| + 4;
    && end <= |g| && (end < |g| ==> !Wsp(g[end]))
    && (forall i :: 0 <= i < |key| ==> g[p + i] == key[i])
    && g[p + |key|] == COLON && g[p + |key| + 1] == SPACE
    && (forall i :: 0 <= i < |val| ==> g[p + |key| + 2 + i] == val[i])
    && g[end - 2] == CR && g[end - 1] == LF
  }

  lemma {:induction false} FieldText(g: Text, p: nat, key: Text, val: Text)
    requires var f := JoinLine(key, val);
             p + |f| <= |g| && g[p..p + |f|] == f && (p + |f| < |g| ==> !Wsp(g[p + |f|]))
    ensures FieldAt(g, p, key, val)
  {
    var f := JoinLine(key, val);
    forall i | 0 <= i < |f| ensures g[p + i] == f[i] {
      assert g[p..p + |f|][i] == g[p + i];
    }
  }

  lemma {:induction false} FieldMark(g: Text, p: nat, key: Text, val: Text)
    requires GoodKey(key) && FieldAt(g, p, key, val)
    ensures Mark(g, p) == p + |key| && ValidKey(g, p, p + |key|)
  {
    var m := p + |key|;
    assert forall i :: p <= i < m ==> g[i] == key[i - p];
  }

  lemma {:induction false} FieldValueStart(g: Text, p: nat, key: Text, val: Text)
    requires GoodValue(val) && FieldAt(g, p, key, val)
    ensures p + |key| + 2 <= SkipWsp(g, p + |key| + 1) <= p + |key| + 2 + |val|
    ensures ValueEnd(g, SkipWsp(g, p + |key| + 1)) == Reach(p + |key| + |val| + 4)
  {
    var k := p + |key| + 2;
    var v := SkipWsp(g, k - 1);
    var c := k + |val|;
    assert !Wsp(g[c]);
    assert forall i :: v <= i < c ==> g[i] == val[i - k];
    ValueEndAt(g, v, c);
  }

  lemma {:induction false} FieldIsNext(g: Text, p: nat, key: Text, val: Text)
    requires GoodKey(key) && GoodValue(val) && FieldAt(g, p, key, val)
    ensures var m := p + |key|;
            var end := m + |val| + 4;
            NextFrom(g, p) == Found(Entry(p, m, SkipWsp(g, m + 1), end), end)
  {
    FieldMark(g, p, key, val);
    FieldValueStart(g, p, key, val);
  }

  lemma {:induction false} TrimDrop(s: Text, j: nat)
    requires j <= |s| && forall i :: 0 <= i < j ==> Wsp(s[i])
    ensures TrimSpace(s[j..]) == TrimSpace(s)
    decreases j
  {
    if j == 0 {
      assert s[j..] == s;
    } else {
      assert s[1..][j - 1..] == s[j..];
      TrimDrop(s[1..], j - 1);
      assert Wsp(s[0]);
      assert TrimLeft(s) == TrimLeft(s[1..]);
    }
  }

  lemma {:induction false} MergedOneLine(w: Text)
    requires GoodValue(w)
    ensures Merged(w + [CR, LF]) == TrimSpace(w)
  {
    var s := w + [CR, LF];
    var i := |w| + 1;
    assert s[|w|] == CR && s[i] == LF;
    assert LineEnd(s, 0) == i;
    assert s[..i - 1] == w && s[i + 1..] == [];
    assert TrimSpace([]) == [];
  }

  lemma {:induction false} FieldValueMerges(g: Text, p: nat, key: Text, val: Text)
    requires GoodValue(val) && FieldAt(g, p, key, val)
    ensures var v := SkipWsp(g, p + |key| + 1);
            v <= p + |key| + |val| + 4 && Merged(g[v..p + |key| + |val| + 4]) == TrimSpace(val)
  {
    hide FieldAt, SkipWsp, ValueEnd, Merged, TrimSpace;
    FieldValueStart(g, p, key, val);
    var j := SkipWsp(g, p + |key| + 1) - (p + |key| + 2);
    FieldValueText(g, p, key, val, j);
    MergedOneLine(val[j..]);
    TrimDrop(val, j);
  }

  lemma {:induction false} FieldValueText(g: Text, p: nat, key: Text, val: Text, j: nat)
    requires FieldAt(g, p, key, val) && SkipWsp(g, p + |key| + 1) == p + |key| + 2 + j && j <= |val|
    ensures g[p + |key| + 2 + j..p + |key| + |val| + 4] == val[j..] + [CR, LF]
    ensures forall i :: 0 <= i < j ==> Wsp(val[i])
  {
    var k := p + |key| + 2;
    var a, b := g[k + j..k + |val| + 2], val[j..] + [CR, LF];
    assert |a| == |b|;
    forall i | 0 <= i < |a| ensures a[i] == b[i] {
      assert a[i] == g[k + (j + i)];
    }
    forall i | 0 <= i < j ensures Wsp(val[i]) {
      assert g[k + i] == val[i];
    }
  }

  // ----- Split commutes with inserting a line

  ghost predicate Line(f: Text) {
    |f| > 1 && Printable(f[0]) && f[|f| - 1] == LF && forall i :: 0 <= i < |f| - 1 ==> f[i] != LF
  }

  lemma {:induction false} FieldIsLine(key: Text, val: Text)
    requires GoodKey(key) && GoodValue(val)
    ensures Line(JoinLine(key, val))
  {
  }

  /** Every blank line after the insertion was there before it. */
  lemma {:induction false} InsertedBlank(s: Text, p: nat, f: Text, k: int, x: int)
    requires Line(f) && p <= |s| && (p < |s| ==> p == 0 || s[p - 1] == LF) && BlankLine(Inserted(s, p, f), k, x)
    ensures (x <= p && BlankLine(s, k, x)) || (p + |f| < x && p + |f| <= k && BlankLine(s, k - |f|, x - |f|))
  {
    var g, n := Inserted(s, p, f), |f|;
    assert g[p] == f[0] && g[p + n - 1] == f[n - 1];
    assert forall j {:trigger s[j]} :: 0 <= j < |s| ==> s[j] == g[if j < p then j else j + n];
  }

  lemma {:induction false} InsertSplits(s: Text, e: nat, p: nat, f: Text)
    requires Line(f) && IsSplit(s, e) && p < e && Printable(s[p]) && (p == 0 || s[p - 1] == LF)
    ensures IsSplit(Inserted(s, p, f), e + |f|)
  {
    var g, n := Inserted(s, p, f), |f|;
    forall k, x | BlankLine(g, k, x) ensures e + n <= x {
      InsertedBlank(s, p, f, k, x);
    }
    if e < |s| {
      var k :| BlankLine(s, k, e);
      assert k > p;
      assert BlankLine(g, k + n, e + n);
    }
  }

  lemma {:induction false} AppendSplits(s: Text, f: Text)
    requires Line(f) && IsSplit(s, |s|) && forall k :: !BlankLine(s, k, |s|)
    ensures IsSplit(Inserted(s, |s|, f), |s| + |f|)
  {
    var g := Inserted(s, |s|, f);
    forall k, x | BlankLine(g, k, x) ensures |g| <= x {
      InsertedBlank(s, |s|, f, k, x);
    }
  }

  /** A field inserted after the blank line is no longer in the header. */
  lemma {:induction false} AfterBlankSplits(s: Text, e: nat, f: Text, k: int)
    requires IsSplit(s, e) && BlankLine(s, k, e)
    ensures IsSplit(Inserted(s, e, f), e) && Inserted(s, e, f)[..e] == s[..e]
  {
    var g := Inserted(s, e, f);
    assert BlankLine(g, k, e);
    assert forall j {:trigger s[j]} :: 0 <= j < e ==> s[j] == g[j];
    forall a, x | BlankLine(g, a, x) ensures e <= x {
      if x < e {
        assert BlankLine(s, a, x);
      }
    }
  }

  // ----- the laws

  function FieldOf(key: Text, val: Text): Text {
    JoinLine(Canonical(key), val)
  }

  lemma {:induction false} FieldKey(h: Text, p: nat, key: Text, val: Text)
    requires FieldAt(h, p, key, val)
    ensures h[p..p + |key|] == key
  {
    forall i | 0 <= i < |key| ensures h[p..p + |key|][i] == key[i] {
      assert h[p + i] == key[i];
    }
  }

  lemma {:induction false} FieldFound(h: Text, p: nat, key: Text, val: Text)
    requires GoodKey(key) && GoodValue(val) && Prelude(h, 0, p) && FieldAt(h, p, Canonical(key), val)
    ensures var end := p + |key| + |val| + 4;
            Find(h, 0, Some(key)) == Hit(Entry(p, p + |key|, SkipWsp(h, p + |key| + 1), end))
  {
    hide FieldAt, Prelude, Canonical, NextFrom, SkipWsp, LowerText, GoodKey, GoodValue;
    CanonicalFolds(key);
    PreludeSkipped(h, 0, p, Some(key));
    FieldIsNext(h, p, Canonical(key), val);
    NextAdvances(h, p);
    FieldKey(h, p, Canonical(key), val);
  }

  /** When the header of the new literal holds the field after a prelude, Erase undoes Set and Get reads the value. */
  lemma {:induction false} FieldUndone(s: Text, p: nat, key: Text, val: Text)
    requires GoodKey(key) && GoodValue(val) && p <= |s|
    requires var h := HeaderOf(Inserted(s, p, FieldOf(key, val)));
             Prelude(h, 0, p) && FieldAt(h, p, Canonical(key), val)
    ensures EraseValue(Inserted(s, p, FieldOf(key, val)), key) == Ok(s)
    ensures GetValue(Inserted(s, p, FieldOf(key, val)), key) == Ok(TrimSpace(val))
  {
    hide FieldAt, Prelude, Canonical, Find, SkipWsp, HeaderOf, Merged, TrimSpace, GoodKey, GoodValue, Inserted;
    var f := FieldOf(key, val);
    var g := Inserted(s, p, f);
    var h := HeaderOf(g);
    CanonicalFolds(key);
    FieldFound(h, p, key, val);
    FieldValueMerges(h, p, Canonical(key), val);
    InsertedErased(s, p, f);
  }

  lemma {:induction false} InsertedErased(s: Text, p: nat, f: Text)
    requires p <= |s|
    ensures var g := Inserted(s, p, f); g[..p] + g[p + |f|..] == s
  {
    var g := Inserted(s, p, f);
    assert g[..p] == s[..p] && g[p + |f|..] == s[p..];
    assert s[..p] + s[p..] == s;
  }

  lemma {:induction false} KeyedIsPrintable(h: Text, o: nat)
    requires NextFrom(h, o).Found? && NextFrom(h, o).entry.HasKey()
    ensures o < |h| && Printable(h[o])
  {
    var m := Mark(h, o);
    FieldAdvances(h, o, m);
    var k := if h[m + 1] == CR then m + 3 else m + 2;
    assert ValidKey(h, o, m);
  }

  lemma {:induction false} SetBeforeField(s: Text, key: Text, val: Text)
    requires GoodKey(key) && GoodValue(val) && Find(HeaderOf(s), 0, None).Hit?
    ensures var p := Find(HeaderOf(s), 0, None).entry.keyStart;
            var h := HeaderOf(Inserted(s, p, FieldOf(key, val)));
            Prelude(h, 0, p) && FieldAt(h, p, Canonical(key), val) && p <= |HeaderOf(s)|
            && h == Inserted(HeaderOf(s), p, FieldOf(key, val))
  {
    hide FieldAt, IsSplit, BlankLine, Find, Prelude, Canonical, JoinLine, HeaderEnd;
    var h := HeaderOf(s);
    var e := |h|;
    var entry := Find(h, 0, None).entry;
    var p := entry.keyStart;
    HitAfterPrelude(h, 0);
    KeyedIsPrintable(h, p);
    PreludeEndsAtLine(h, 0, p);
    CanonicalFolds(key);
    FieldIsLine(Canonical(key), val);
    var f := FieldOf(key, val);
    var g := Inserted(s, p, f);
    SplitAtFirstBlankLine(s, e);
    InsertSplits(s, e, p, f);
    SplitAtFirstBlankLine(g, e + |f|);
    var h' := HeaderOf(g);
    InsertedHeader(s, e, p, f);
    assert Agree(h, h', p);
    SamePrelude(h, h', p, 0);
    FieldText(h', p, Canonical(key), val);
  }

  lemma {:induction false} InsertedHeader(s: Text, e: nat, p: nat, f: Text)
    requires p < e <= |s| && |f| > 0
    ensures var g := Inserted(s, p, f)[..e + |f|];
            && g == Inserted(s[..e], p, f) && (forall i :: 0 <= i < p ==> g[i] == s[..e][i])
            && g[p..p + |f|] == f && g[p] == f[0] && g[p + |f|] == s[..e][p]
  {
  }

  // ----- no keyed field in the header

  ghost predicate EndsInBlankLine(h: Text) {
    exists k :: BlankLine(h, k, |h|)
  }

  lemma {:induction false} NoBlankNoBody(s: Text)
    requires !EndsInBlankLine(HeaderOf(s))
    ensures HeaderOf(s) == s && IsSplit(s, |s|) && forall k :: !BlankLine(s, k, |s|)
  {
    var e := HeaderEnd(s, 0);
    SplitAtFirstBlankLine(s, e);
    if e < |s| {
      var k :| BlankLine(s, k, e);
      assert BlankLine(s[..e], k, e);
    }
    assert s[..|s|] == s;
  }

  lemma {:induction false} AppendedHeader(s: Text, f: Text)
    requires Line(f) && !EndsInBlankLine(HeaderOf(s))
    ensures Inserted(s, |s|, f) == s + f && HeaderOf(Inserted(s, |s|, f)) == s + f
  {
    NoBlankNoBody(s);
    AppendSplits(s, f);
    var g := Inserted(s, |s|, f);
    SplitAtFirstBlankLine(g, |g|);
    assert g == s + f && g[..|g|] == g;
  }

  /** The header is lines without a keyed field and without a blank line: the field becomes its last line. */
  lemma {:induction false} SetAsLastLine(s: Text, key: Text, val: Text)
    requires GoodKey(key) && GoodValue(val) && !EndsInBlankLine(HeaderOf(s)) && (|s| > 0 ==> s[|s| - 1] == LF)
    requires Find(HeaderOf(s), 0, None).Nobody?
    ensures var h := HeaderOf(Inserted(s, |s|, FieldOf(key, val)));
            Prelude(h, 0, |s|) && FieldAt(h, |s|, Canonical(key), val)
  {
    hide FieldAt, IsSplit, BlankLine, EndsInBlankLine, Find, Prelude, Canonical, JoinLine, HeaderEnd;
    var f := FieldOf(key, val);
    CanonicalFolds(key);
    FieldIsLine(Canonical(key), val);
    NoBlankNoBody(s);
    AppendedHeader(s, f);
    NobodyIsPrelude(s, 0);
    var g := s + f;
    assert g[|s|] == f[0];
    assert Agree(s, g, |s|);
    SamePrelude(s, g, |s|, 0);
    assert g[|s|..|s| + |f|] == f;
    FieldText(g, |s|, Canonical(key), val);
  }

  /** The header ends in a blank line: the field lands in the body, where Get and Erase do not look. */
  lemma {:induction false} SetIntoBody(s: Text, key: Text, f: Text)
    requires EndsInBlankLine(HeaderOf(s)) && Find(HeaderOf(s), 0, None).Nobody?
    ensures var g := Inserted(s, |HeaderOf(s)|, f);
            EraseValue(g, key) == Ok(g) && GetValue(g, key) == Ok([])
  {
    var h := HeaderOf(s);
    var e := |h|;
    var k :| BlankLine(h, k, e);
    assert BlankLine(s, k, e);
    SplitAtFirstBlankLine(s, e);
    AfterBlankSplits(s, e, f, k);
    SplitAtFirstBlankLine(Inserted(s, e, f), e);
    NobodyForAnyKey(h, 0, Some(key));
  }

  lemma {:induction false} SkipAppend(h: Text, f: Text, k: nat)
    requires k <= |h| && Line(f)
    ensures SkipWsp(h + f, k) == SkipWsp(h, k) <= |h|
    decreases |h| - k
  {
    if k < |h| && Wsp(h[k]) {
      SkipAppend(h, f, k + 1);
    } else {
      assert (h + f)[k] == if k < |h| then h[k] else f[0];
    }
  }

  /** A value cut off by the end of the header runs on to the end of the appended line. */
  lemma {:induction false} ValueRunsOn(h: Text, key: Text, val: Text, k: nat)
    requires GoodKey(key) && GoodValue(val) && k <= |h| && |h| > 0 && h[|h| - 1] != LF
    requires ValueEnd(h, k).Reach? && ValueEnd(h, k).pos >= |h|
    ensures ValueEnd(h + JoinLine(key, val), k) == Reach(|h + JoinLine(key, val)|)
    decreases |h| - k
  {
    var f := JoinLine(key, val);
    var g := h + f;
    if k == |h| {
      assert forall i :: k <= i < |g| - 2 ==> g[i] == f[i - k];
      ValueEndAt(g, k, |g| - 2);
    } else if h[k] == CR {
      assert g[k + 1] == h[k + 1] && g[k + 2] == h[k + 2];
      ValueRunsOn(h, key, val, k + 2);
    } else {
      assert k + 1 < |h| ==> g[k + 1] == h[k + 1];
      ValueRunsOn(h, key, val, k + 1);
    }
  }

  lemma {:induction false} ValueFromRunsOn(h: Text, key: Text, val: Text, o: nat, m: nat, k: nat)
    requires GoodKey(key) && GoodValue(val) && k <= |h| && |h| > 0 && h[|h| - 1] != LF
    requires ValueFrom(h, o, m, k).Found? && ValueFrom(h, o, m, k).next >= |h|
    ensures var r := ValueFrom(h + JoinLine(key, val), o, m, k);
            r.Found? && r.entry.keyStart == o && r.entry.keyEnd == m && r.next == |h + JoinLine(key, val)|
  {
    FieldIsLine(key, val);
    SkipAppend(h, JoinLine(key, val), k);
    ValueRunsOn(h, key, val, SkipWsp(h, k));
  }

  /** An entry cut off by the end of the header swallows the appended line, or no longer parses. */
  lemma {:induction false} EntrySwallows(h: Text, key: Text, val: Text, q: nat)
    requires GoodKey(key) && GoodValue(val) && q < |h| && h[|h| - 1] != LF
    requires NextFrom(h, q).Found? && !NextFrom(h, q).entry.HasKey() && |h| <= NextFrom(h, q).next
    ensures h[q] == COLON
    ensures var r := NextFrom(h + JoinLine(key, val), q);
            if h[|h| - 1] == CR && q == |h| - 2 then r.Fail?
            else r.Found? && !r.entry.HasKey() && r.next == |h + JoinLine(key, val)|
  {
    hide BreakFrom, ValueFrom;
    var g := h + JoinLine(key, val);
    var m := Mark(h, q);
    assert h[m] == COLON;
    FieldAdvances(h, q, m);
    assert m == q && g[q] == COLON && Mark(g, q) == q;
    assert g[q + 1] == h[q + 1];
    assert g[|h|] == key[0];
    if h[q + 1] == CR {
      if q + 2 < |h| {
        assert g[q + 2] == h[q + 2];
        FoldedSwallows(h, key, val, q, q + 3);
      }
    } else if h[q + 1] == LF {
      FoldedSwallows(h, key, val, q, q + 2);
    } else {
      ValueFromRunsOn(h, key, val, q, q, q + 1);
    }
  }

  lemma {:induction false} FoldedSwallows(h: Text, key: Text, val: Text, q: nat, k: nat)
    requires GoodKey(key) && GoodValue(val) && q < k <= |h| && h[|h| - 1] != LF && h[k - 1] == LF
    requires BreakFrom(h, q, q, k).Found? && BreakFrom(h, q, q, k).next >= |h|
    ensures var r := BreakFrom(h + JoinLine(key, val), q, q, k);
            r.Found? && !r.entry.HasKey() && r.next == |h + JoinLine(key, val)|
  {
    var g := h + JoinLine(key, val);
    assert k < |h| && g[k] == h[k] && Wsp(h[k]);
    ValueFromRunsOn(h, key, val, q, q, k);
  }

  /** The last line of the header is a colon and a CR. */
  predicate Unfinished(h: Text) {
    |h| >= 2 && h[|h| - 2] == COLON && h[|h| - 1] == CR && (|h| == 2 || h[|h| - 3] == LF)
  }

  lemma {:induction false} UnfinishedIff(h: Text, q: nat)
    requires q < |h| && Prelude(h, 0, q) && NextFrom(h, q).Found? && |h| <= NextFrom(h, q).next && h[q] == COLON
    ensures Unfinished(h) <==> h[|h| - 1] == CR && q == |h| - 2
  {
    hide Prelude, NextFrom;
    PreludeEndsAtLine(h, 0, q);
    if Unfinished(h) && q < |h| - 2 {
      EntryEndsAtBreak(h, q, |h| - 3);
    }
  }

  lemma {:induction false} SetIntoEntry(s: Text, key: Text, val: Text, other: Text)
    requires GoodKey(key) && GoodValue(val) && |s| > 0 && s[|s| - 1] != LF && !EndsInBlankLine(HeaderOf(s))
    requires Find(HeaderOf(s), 0, None).Nobody?
    ensures var g := Inserted(s, |s|, FieldOf(key, val));
            if Unfinished(HeaderOf(s)) then EraseValue(g, other).Err? && GetValue(g, other).Err?
            else EraseValue(g, other) == Ok(g) && GetValue(g, other) == Ok([])
  {
    hide IsSplit, BlankLine, EndsInBlankLine, Prelude, Canonical, JoinLine, HeaderEnd, NextFrom, Unfinished;
    var f := FieldOf(key, val);
    CanonicalFolds(key);
    FieldIsLine(Canonical(key), val);
    NoBlankNoBody(s);
    AppendedHeader(s, f);
    var g := s + f;
    var q := LastEntry(s, 0);
    EntrySwallows(s, Canonical(key), val, q);
    UnfinishedIff(s, q);
    assert g[q] == s[q];
    assert Agree(s, g, q);
    SamePrelude(s, g, q, 0);
    PreludeSkipped(g, 0, q, Some(other));
    if NextFrom(g, q).Found? {
      NextAdvances(g, q);
      AtEnd(g, Some(other));
    }
  }

  lemma {:induction false} AtEnd(g: Text, want: Option<Text>)
    ensures Find(g, |g|, want).Nobody?
  {
  }

  // ----- the law

  /**
   * A keyed field is reached, or the header is empty, or its last line is complete and not blank. Outside this,
   * Set puts the field behind the blank line or into an unfinished entry.
   */
  ghost predicate Settable(literal: Text) {
    var h := HeaderOf(literal);
    Find(h, 0, None).Hit? || |h| == 0 || (h[|h| - 1] == LF && !EndsInBlankLine(h))
  }

  /** Erase undoes Set byte for byte, and Get reads the value back, exactly on the settable literals. */
  lemma {:induction false} SetEraseGet(literal: Text, key: Text, val: Text)
    requires GoodKey(key) && GoodValue(val) && SetValue(literal, key, val).Ok?
    ensures var g := SetValue(literal, key, val).value;
            && (EraseValue(g, key) == Ok(literal) <==> Settable(literal))
            && (Settable(literal) ==> GetValue(g, key) == Ok(TrimSpace(val)))
            && (!Settable(literal) ==>
                  if Unfinished(HeaderOf(literal)) then GetValue(g, key).Err? else GetValue(g, key) == Ok([]))
  {
    hide Find, EraseValue, GetValue, Prelude, FieldAt, Canonical, BlankLine, HeaderEnd, TrimSpace, GoodKey, GoodValue;
    var h, f := HeaderOf(literal), FieldOf(key, val);
    var p := InsertAt(literal).value;
    var g := Inserted(literal, p, f);
    assert SetValue(literal, key, val).value == g && |g| > |literal|;
    if Find(h, 0, None).Hit? {
      SetBeforeField(literal, key, val);
      FieldUndone(literal, p, key, val);
    } else if EndsInBlankLine(h) {
      SetIntoBody(literal, key, f);
      BlankLineNonEmpty(h);
    } else {
      NoBlankNoBody(literal);
      if |h| == 0 || h[|h| - 1] == LF {
        SetAsLastLine(literal, key, val);
        FieldUndone(literal, p, key, val);
      } else {
        SetIntoEntry(literal, key, val, key);
      }
    }
  }

  lemma {:induction false} BlankLineNonEmpty(h: Text)
    requires EndsInBlankLine(h)
    ensures |h| > 0 && !Unfinished(h)
  {
  }

  /** A message whose header is the blank line alone is not settable: the field goes to the body. */
  lemma {:induction false} SetOnHeaderlessMessage(body: Text, key: Text, val: Text)
    requires GoodKey(key) && GoodValue(val)
    ensures var s := [CR, LF] + body;
            && !Settable(s) && SetValue(s, key, val) == Ok([CR, LF] + FieldOf(key, val) + body)
            && GetValue([CR, LF] + FieldOf(key, val) + body, key) == Ok([])
  {
    var s := [CR, LF] + body;
    assert BlankLine(s, 0, 2);
    assert IsSplit(s, 2);
    SplitAtFirstBlankLine(s, 2);
    var h := HeaderOf(s);
    assert h == [CR, LF] && BlankLine(h, 0, 2);
    assert Mark(h, 0) == 1 && NextFrom(h, 0) == Found(Entry(0, 0, 0, 2), 2);
    AtEnd(h, None);
    assert Find(h, 0, None) == Nobody;
    SetIntoBody(s, key, FieldOf(key, val));
    assert s[..2] == [CR, LF] && s[2..] == body;
  }

  // ----- erasing any field

  /** The colon at m is followed by a line break and the line after it is not a fold. */
  predicate EmptyField(h: Text, m: nat) {
    m + 2 < |h| && h[m] == COLON && (
      (h[m + 1] == LF && !Wsp(h[m + 2])) ||
      (h[m + 1] == CR && h[m + 2] == LF && m + 3 < |h| && !Wsp(h[m + 3])))
  }

  /** An entry's recorded end is where the parser goes on, exactly when the entry is not an empty field. */
  lemma {:induction false} EntryCoversIff(h: Text, o: nat)
    requires NextFrom(h, o).Found?
    ensures var r := NextFrom(h, o);
            r.entry.valueEnd == Min(r.next, |h|) <==> !EmptyField(h, Mark(h, o))
  {
    NextAdvances(h, o);
    var m := Mark(h, o);
    if h[m] == COLON {
      FieldAdvances(h, o, m);
    }
  }

  /** Erase removes the whole field it finds, unless the field is empty: then colon and line break stay behind. */
  lemma {:induction false} EraseLeavesIff(literal: Text, key: Text)
    requires Find(HeaderOf(literal), 0, Some(key)).Hit?
    ensures var h := HeaderOf(literal);
            var e := Find(h, 0, Some(key)).entry;
            var r := NextFrom(h, e.keyStart);
            && r.Found? && r.entry == e
            && (EraseValue(literal, key) == Ok(literal[..e.keyStart] + literal[Min(r.next, |h|)..]) <==>
                !EmptyField(h, e.keyEnd))
  {
    var h := HeaderOf(literal);
    HitIsStep(h, 0, Some(key));
    var e := Find(h, 0, Some(key)).entry;
    NextAdvances(h, e.keyStart);
    EntryCoversIff(h, e.keyStart);
    KeyedEndsAtMark(h, e.keyStart);
    var next := Min(NextFrom(h, e.keyStart).next, |h|);
    assert |literal[..e.keyStart] + literal[next..]| == |literal| - next + e.keyStart;
    assert |literal[..e.keyStart] + literal[e.valueEnd..]| == |literal| - e.valueEnd + e.keyStart;
  }

  lemma {:induction false} KeyedEndsAtMark(h: Text, o: nat)
    requires NextFrom(h, o).Found? && NextFrom(h, o).entry.HasKey()
    ensures NextFrom(h, o).entry.keyEnd == Mark(h, o)
  {
    FieldAdvances(h, o, Mark(h, o));
  }

  lemma {:induction false} HitIsStep(h: Text, o: nat, want: Option<Text>)
    requires Find(h, o, want).Hit?
    ensures var e := Find(h, o, want).entry;
            NextFrom(h, e.keyStart).Found? && NextFrom(h, e.keyStart).entry == e && e.HasKey()
    decreases |h| + 1 - o
  {
    NextAdvances(h, o);
    var r := NextFrom(h, o);
    if Find(h, o, want) != Hit(r.entry) {
      HitIsStep(h, r.next, want);
    }
  }
}

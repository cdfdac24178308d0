/** What setting or erasing one header field leaves alone: the value of every field with another name. */
module HeaderFrame {
  import opened Base
  import opened Bytes
  import opened HeaderParser
  import opened Literal
  import opened HeaderLaws
  import opened HeaderFields

  // ----- parsing depends only on the text ahead

  function MovedEntry(e: Entry, o: nat): Entry {
    Entry(e.keyStart + o, e.keyEnd + o, e.valueStart + o, e.valueEnd + o)
  }

  function Moved(r: Outcome, o: nat): Outcome {
    match r
    case Found(e, next) => Found(MovedEntry(e, o), next + o)
    case _ => r
  }

  lemma {:induction false} MarkMoves(h: Text, o: nat, d: nat)
    requires o + d <= |h|
    ensures Mark(h, o + d) == o + Mark(h[o..], d)
    decreases |h| - d
  {
    if o + d < |h| && h[o + d] != COLON && h[o + d] != LF {
      MarkMoves(h, o, d + 1);
    }
  }

  lemma {:induction false} SkipMoves(h: Text, o: nat, k: nat)
    requires o <= |h|
    ensures SkipWsp(h, o + k) == o + SkipWsp(h[o..], k)
    decreases |h| - k
  {
    if o + k < |h| && Wsp(h[o + k]) {
      SkipMoves(h, o, k + 1);
    }
  }

  lemma {:induction false} ValueEndMoves(h: Text, o: nat, k: nat)
    requires o <= |h|
    ensures ValueEnd(h, o + k) ==
            match ValueEnd(h[o..], k) case Reach(pos) => Reach(o + pos) case Broken(e) => Broken(e)
    decreases |h| - k
  {
    var t := h[o..];
    if k < |t| {
      var next := if t[k] == CR then k + 2 else k + 1;
      assert t[k] == h[o + k] && (k + 1 < |t| ==> t[k + 1] == h[o + k + 1]);
      assert next < |t| ==> t[next] == h[o + next];
      ValueEndMoves(h, o, next);
    }
  }

  lemma {:induction false} ValueMoves(h: Text, o: nat, a: nat, m: nat, k: nat)
    requires o <= |h|
    ensures ValueFrom(h, o + a, o + m, o + k) == Moved(ValueFrom(h[o..], a, m, k), o)
  {
    SkipMoves(h, o, k);
    ValueEndMoves(h, o, SkipWsp(h[o..], k));
  }

  lemma {:induction false} KeyMoves(h: Text, o: nat, a: nat, m: nat)
    requires a <= m && o + m <= |h|
    ensures ValidKey(h, o + a, o + m) <==> ValidKey(h[o..], a, m)
  {
    var t := h[o..];
    if ValidKey(t, a, m) {
      forall i | o + a <= i < o + m ensures Printable(h[i]) {
        assert t[i - o] == h[i];
      }
    }
    if ValidKey(h, o + a, o + m) {
      forall i | a <= i < m ensures Printable(t[i]) {
        assert t[i] == h[o + i];
      }
    }
  }

  lemma {:induction false} BreakMoves(h: Text, o: nat, a: nat, m: nat, k: nat)
    requires a <= m && o + m <= |h|
    ensures BreakFrom(h, o + a, o + m, o + k) == Moved(BreakFrom(h[o..], a, m, k), o)
  {
    hide ValueFrom;
    var t := h[o..];
    assert k < |t| ==> t[k] == h[o + k];
    KeyMoves(h, o, a, m);
    ValueMoves(h, o, a, m, k);
  }

  lemma {:induction false} NextMoves(h: Text, o: nat, d: nat)
    requires o <= |h|
    ensures NextFrom(h, o + d) == Moved(NextFrom(h[o..], d), o)
  {
    hide ValueFrom, BreakFrom, Mark;
    var t := h[o..];
    if d < |t| {
      MarkMoves(h, o, d);
      var m := Mark(t, d);
      if m + 1 < |t| {
        assert t[m] == h[o + m] && t[m + 1] == h[o + m + 1] && (m + 2 < |t| ==> t[m + 2] == h[o + m + 2]);
        BreakMoves(h, o, d, m, m + 3);
        BreakMoves(h, o, d, m, m + 2);
        ValueMoves(h, o, d, m, m + 1);
        KeyMoves(h, o, d, m);
      }
    }
  }

  lemma {:induction false} FindMoves(h: Text, o: nat, d: nat, want: Option<Text>)
    requires o <= |h|
    ensures Find(h, o + d, want) ==
            match Find(h[o..], d, want) case Hit(e) => Hit(MovedEntry(e, o)) case x => x
    decreases |h| + 1 - d
  {
    hide NextFrom, LowerText;
    var t := h[o..];
    NextMoves(h, o, d);
    var r := NextFrom(t, d);
    if r.Found? {
      NextAdvances(t, d);
      NextAdvances(h, o + d);
      assert t == h[o..|h|];
      SliceSlice(h, o, |h|, r.entry.keyStart, r.entry.keyEnd);
      FindMoves(h, o, r.next, want);
    }
  }

  /** Get for the entries from o on. */
  function GetFrom(h: Text, o: nat, key: Text): Result<Text> {
    match Find(h, o, Some(key))
    case Broke(e) => Err(e)
    case Nobody => Ok([])
    case Hit(e) => Ok(Merged(e.Value(h)))
  }

  lemma {:induction false} GetMoves(h: Text, o: nat, key: Text)
    requires o <= |h|
    ensures GetFrom(h, o, key) == GetFrom(h[o..], 0, key)
  {
    hide Find, Merged;
    FindMoves(h, o, 0, Some(key));
    match Find(h[o..], 0, Some(key)) {
      case Hit(e) =>
        assert h[o..] == h[o..|h|];
        SliceSlice(h, o, |h|, e.valueStart, e.valueEnd);
      case _ =>
    }
  }

  /** Equal text ahead, equal answer. */
  lemma {:induction false} GetSameAhead(h: Text, o: nat, g: Text, p: nat, key: Text)
    requires o <= |h| && p <= |g| && h[o..] == g[p..]
    ensures GetFrom(h, o, key) == GetFrom(g, p, key)
  {
    GetMoves(h, o, key);
    GetMoves(g, p, key);
  }

  lemma {:induction false} GetPastEnd(h: Text, o: nat, key: Text)
    requires |h| <= o
    ensures GetFrom(h, o, key) == Ok([])
  {
  }

  lemma {:induction false} GetSkips(h: Text, o: nat, key: Text)
    requires NextFrom(h, o).Found? && NextFrom(h, o).entry.Within(h) && !Named(h, NextFrom(h, o).entry, key)
    ensures GetFrom(h, o, key) == GetFrom(h, NextFrom(h, o).next, key)
  {
    hide Named, NextFrom;
    NextAdvances(h, o);
    WantedIsNamed(h, NextFrom(h, o).entry, key);
    hide Wanted;
  }

  lemma {:induction false} GetHits(h: Text, o: nat, key: Text)
    requires NextFrom(h, o).Found? && NextFrom(h, o).entry.Within(h) && Named(h, NextFrom(h, o).entry, key)
    ensures GetFrom(h, o, key) == Ok(Merged(NextFrom(h, o).entry.Value(h)))
  {
    hide Named, NextFrom, Merged;
    NextAdvances(h, o);
    WantedIsNamed(h, NextFrom(h, o).entry, key);
    hide Wanted;
  }

  // ----- Set

  lemma {:induction false} OtherName(c: Text, key: Text, other: Text)
    requires LowerText(c) == LowerText(key) && !SameName(key, other)
    ensures !SameName(c, other)
  {
    SameNameIff(c, other);
    SameNameIff(key, other);
  }

  /** A field with another name, after a prelude, is passed over. */
  lemma {:induction false} PassesField(h: Text, p: nat, key: Text, val: Text, other: Text)
    requires GoodKey(key) && GoodValue(val) && !SameName(key, other)
    requires Prelude(h, 0, p) && FieldAt(h, p, Canonical(key), val)
    ensures GetFrom(h, 0, other) == GetFrom(h, p + |FieldOf(key, val)|, other)
  {
    hide FieldAt, Prelude, Canonical, Find, SkipWsp, NextFrom, LowerText, SameName, GoodKey, GoodValue;
    PreludeSkipped(h, 0, p, Some(other));
    CanonicalFolds(key);
    OtherName(Canonical(key), key, other);
    FieldIsNext(h, p, Canonical(key), val);
    NextAdvances(h, p);
    FieldKey(h, p, Canonical(key), val);
    GetSkips(h, p, other);
  }

  lemma {:induction false} InsertedAhead(h: Text, p: nat, f: Text)
    requires p <= |h|
    ensures Inserted(h, p, f)[p + |f|..] == h[p..]
  {
  }

  lemma {:induction false} SetBeforeKeeps(s: Text, key: Text, val: Text, other: Text)
    requires GoodKey(key) && GoodValue(val) && !SameName(key, other) && Find(HeaderOf(s), 0, None).Hit?
    ensures var p := Find(HeaderOf(s), 0, None).entry.keyStart;
            GetValue(Inserted(s, p, FieldOf(key, val)), other) == GetValue(s, other)
  {
    hide FieldAt, Find, Prelude, FieldOf, HeaderEnd, Merged, SameName, GoodKey, GoodValue;
    var h, f := HeaderOf(s), FieldOf(key, val);
    var p := Find(h, 0, None).entry.keyStart;
    var g := HeaderOf(Inserted(s, p, f));
    HitAfterPrelude(h, 0);
    SetBeforeField(s, key, val);
    PassesField(g, p, key, val, other);
    PreludeSkipped(h, 0, p, Some(other));
    InsertedAhead(h, p, f);
    GetSameAhead(g, p + |f|, h, p, other);
  }

  lemma {:induction false} SetLastKeeps(s: Text, key: Text, val: Text, other: Text)
    requires GoodKey(key) && GoodValue(val) && !SameName(key, other) && !EndsInBlankLine(HeaderOf(s))
    requires Find(HeaderOf(s), 0, None).Nobody? && (|s| > 0 ==> s[|s| - 1] == LF)
    ensures GetValue(Inserted(s, |s|, FieldOf(key, val)), other) == Ok([])
  {
    hide FieldAt, Find, Prelude, FieldOf, HeaderOf, SameName, EndsInBlankLine, GoodKey, GoodValue, Canonical;
    var f := FieldOf(key, val);
    SetAsLastLine(s, key, val);
    CanonicalFolds(key);
    assert Line(f) by {
      FieldLine(key, val);
    }
    AppendedHeader(s, f);
    var g := HeaderOf(Inserted(s, |s|, f));
    PassesField(g, |s|, key, val, other);
    GetPastEnd(g, |s| + |f|, other);
  }

  lemma {:induction false} FieldLine(key: Text, val: Text)
    requires GoodKey(key) && GoodValue(val)
    ensures Line(FieldOf(key, val))
  {
    CanonicalFolds(key);
    FieldIsLine(Canonical(key), val);
  }

  /**
   * Setting a field changes no field with another name, with one exception: in a header without any field whose last
   * line is a colon and a CR, the new line breaks that line and nothing can be read any more.
   */
  lemma {:induction false} SetKeepsOthers(literal: Text, key: Text, val: Text, other: Text)
    requires GoodKey(key) && GoodValue(val) && !SameName(key, other) && SetValue(literal, key, val).Ok?
    ensures var g := SetValue(literal, key, val).value;
            var lost := Find(HeaderOf(literal), 0, None).Nobody? && Unfinished(HeaderOf(literal));
            && (GetValue(g, other) == GetValue(literal, other) <==> !lost)
            && (lost ==> GetValue(g, other).Err?)
  {
    hide Find, GetValue, FieldOf, HeaderOf, SameName, EndsInBlankLine, GoodKey, GoodValue, Unfinished;
    var h, f := HeaderOf(literal), FieldOf(key, val);
    var p := InsertAt(literal).value;
    assert SetValue(literal, key, val).value == Inserted(literal, p, f) by {
      SetIsInserted(literal, key, val);
    }
    if Find(h, 0, None).Hit? {
      SetBeforeKeeps(literal, key, val, other);
    } else {
      NobodyReads(literal, other);
      if EndsInBlankLine(h) {
        SetIntoBody(literal, other, f);
        BlankLineNonEmpty(h);
      } else {
        NoBlankNoBody(literal);
        if |h| == 0 || h[|h| - 1] == LF {
          SetLastKeeps(literal, key, val, other);
          LineFinished(h);
        } else {
          SetIntoEntry(literal, key, val, other);
        }
      }
    }
  }

  lemma {:induction false} SetIsInserted(literal: Text, key: Text, val: Text)
    requires SetValue(literal, key, val).Ok?
    ensures InsertAt(literal).Ok?
    ensures SetValue(literal, key, val).value == Inserted(literal, InsertAt(literal).value, FieldOf(key, val))
  {
  }

  lemma {:induction false} NobodyReads(literal: Text, other: Text)
    requires Find(HeaderOf(literal), 0, None).Nobody?
    ensures GetValue(literal, other) == Ok([])
  {
    NobodyForAnyKey(HeaderOf(literal), 0, Some(other));
  }

  lemma {:induction false} LineFinished(h: Text)
    requires |h| == 0 || h[|h| - 1] == LF
    ensures !Unfinished(h)
  {
  }

  // ----- the entries before the erased one

  /** Parsing from o comes to p. */
  ghost predicate Steps(h: Text, o: nat, p: nat)
    decreases p - o
  {
    o == p || (
      var r := NextFrom(h, o);
      r.Found? && o < r.next <= p && Steps(h, r.next, p))
  }

  lemma {:induction false} HitAfterSteps(h: Text, o: nat, want: Option<Text>)
    requires Find(h, o, want).Hit?
    ensures o <= Find(h, o, want).entry.keyStart && Steps(h, o, Find(h, o, want).entry.keyStart)
    decreases |h| + 1 - o
  {
    NextAdvances(h, o);
    var r := NextFrom(h, o);
    if Find(h, o, want) != Hit(r.entry) {
      HitAfterSteps(h, r.next, want);
    }
  }

  lemma {:induction false} StepsEndAtLine(h: Text, o: nat, p: nat)
    requires Steps(h, o, p) && p < |h| && (o == 0 || (o <= |h| && h[o - 1] == LF))
    ensures p == 0 || h[p - 1] == LF
    decreases p - o
  {
    if o != p {
      var n := NextFrom(h, o).next;
      StepEndsAtLine(h, o);
      StepsEndAtLine(h, n, p);
    }
  }

  /** A step inside the common part finds the same name with the same value. */
  lemma {:induction false} SameFieldText(h: Text, g: Text, p: nat, a: Entry, b: Entry)
    requires Agree(h, g, p) && a.Within(h) && b.Within(g) && a.valueEnd <= p && b.valueEnd <= p
    requires a.keyStart == b.keyStart && a.keyEnd == b.keyEnd && (a == b || (NoValue(a) && NoValue(b)))
    ensures a.Key(h) == b.Key(g) && a.Value(h) == b.Value(g)
  {
  }

  /** If the answers from p on are the same, so are those from o on. */
  lemma {:induction false} GetSameBefore(h: Text, g: Text, p: nat, o: nat, key: Text)
    requires Agree(h, g, p) && Steps(h, o, p) && o <= p && GetFrom(h, p, key) == GetFrom(g, p, key)
    ensures GetFrom(h, o, key) == GetFrom(g, o, key)
    decreases p - o
  {
    hide Agree, NextFrom, Find, GetFrom, Merged, SameName;
    if o != p {
      var a, b := NextFrom(h, o), NextFrom(g, o);
      SameNext(h, g, p, o);
      NextAdvances(h, o);
      NextAdvances(g, o);
      SameFieldText(h, g, p, a.entry, b.entry);
      if Named(h, a.entry, key) {
        GetHits(h, o, key);
        GetHits(g, o, key);
      } else {
        GetSkips(h, o, key);
        GetSkips(g, o, key);
        GetSameBefore(h, g, p, a.next, key);
      }
    }
  }

  // ----- Erase

  function Cut(s: Text, i: nat, j: nat): Text
    requires i <= j <= |s|
  {
    s[..i] + s[j..]
  }

  /** A field from i to j: it begins a line, no blank line begins in it, and what follows begins a line that counts. */
  ghost predicate Removable(s: Text, e: nat, i: nat, j: nat) {
    && i < j <= e <= |s| && (i == 0 || s[i - 1] == LF)
    && (forall k, f :: BlankLine(s, k, f) ==> !(i <= k < j))
    && (j < e ==> s[j - 1] == LF || s[j] == COLON)
  }

  lemma {:induction false} CutBlankBefore(s: Text, i: nat, j: nat, k: int, f: int)
    requires i <= j <= |s| && BlankLine(Cut(s, i, j), k, f) && f <= i
    ensures BlankLine(s, k, f)
  {
    var g := Cut(s, i, j);
    assert forall x {:trigger s[x]} :: 0 <= x < f ==> s[x] == g[x];
  }

  lemma {:induction false} CutBlankAfter(s: Text, i: nat, j: nat, k: int, f: int)
    requires i < j < |s| && (s[j - 1] == LF || s[j] == COLON) && BlankLine(Cut(s, i, j), k, f) && i <= k
    ensures BlankLine(s, k + (j - i), f + (j - i))
  {
    var g, c := Cut(s, i, j), j - i;
    assert g[k] == s[k + c] && (k > i ==> g[k - 1] == s[k - 1 + c]);
    assert forall x {:trigger s[x]} :: k + c <= x < f + c ==> s[x] == g[x - c];
  }

  /** A blank line does not begin before the cut and end behind it. */
  lemma {:induction false} CutBlankAside(s: Text, i: nat, j: nat, k: int, f: int)
    requires i <= j <= |s| && (i == 0 || s[i - 1] == LF) && BlankLine(Cut(s, i, j), k, f)
    ensures f <= i || i <= k
  {
    var g := Cut(s, i, j);
    assert i > 0 ==> g[i - 1] == s[i - 1];
  }

  lemma {:induction false} CutSplits(s: Text, e: nat, i: nat, j: nat)
    requires IsSplit(s, e) && Removable(s, e, i, j)
    ensures IsSplit(Cut(s, i, j), e - (j - i))
  {
    var g, c := Cut(s, i, j), j - i;
    forall k, f | BlankLine(g, k, f) ensures e - c <= f {
      CutBlankAside(s, i, j, k, f);
      if f <= i {
        CutBlankBefore(s, i, j, k, f);
      } else if j < e {
        CutBlankAfter(s, i, j, k, f);
      }
    }
    if e < |s| {
      var k :| BlankLine(s, k, e);
      BlankKept(s, e, i, j, k);
    }
  }

  lemma {:induction false} BlankKept(s: Text, e: nat, i: nat, j: nat, k: int)
    requires Removable(s, e, i, j) && BlankLine(s, k, e)
    ensures BlankLine(Cut(s, i, j), k - (j - i), e - (j - i))
  {
    var g, c := Cut(s, i, j), j - i;
    assert forall x {:trigger g[x]} :: 0 <= x < |g| ==> g[x] == s[if x < i then x else x + c];
    assert k >= j;
    assert g[e - c - 1] == s[e - 1];
    assert k > j ==> g[k - c - 1] == s[k - 1];
    assert k == j && i > 0 ==> g[i - 1] == s[i - 1];
  }

  /** The entry that Erase cuts out is removable. */
  lemma {:induction false} EntryRemovable(s: Text, o: nat)
    requires var h := HeaderOf(s);
             NextFrom(h, o).Found? && NextFrom(h, o).entry.HasKey() && (o == 0 || (o <= |h| && h[o - 1] == LF))
    ensures Removable(s, |HeaderOf(s)|, o, NextFrom(HeaderOf(s), o).entry.valueEnd)
  {
    hide HeaderEnd, NextFrom;
    var h := HeaderOf(s);
    var r := NextFrom(h, o);
    var j := r.entry.valueEnd;
    NextAdvances(h, o);
    KeyedIsPrintable(h, o);
    forall k, f | BlankLine(s, k, f) ensures !(o <= k < j) {
      if o < k < j {
        assert Breaks(h, k - 1);
        EntryEndsAtBreak(h, o, k - 1);
      }
    }
    if j < |h| {
      EntryCoversIff(h, o);
      KeyedEndsAtMark(h, o);
      EmptyCut(h, o);
      if j == r.next {
        StepEndsAtLine(h, o);
      }
    }
  }

  /** The recorded end of a keyed entry: behind the last line, or at the colon of an empty field. */
  lemma {:induction false} EmptyCut(h: Text, o: nat)
    requires NextFrom(h, o).Found? && NextFrom(h, o).entry.HasKey()
    ensures var r := NextFrom(h, o);
            var m := Mark(h, o);
            && m < |h| && h[m] == COLON
            && (EmptyField(h, m) ==> r.entry.valueEnd == m && r.next == if h[m + 1] == CR then m + 3 else m + 2)
            && (!EmptyField(h, m) ==> r.entry.valueEnd == Min(r.next, |h|))
            && (r.next < |h| ==> !Wsp(h[r.next]))
  {
    var m := Mark(h, o);
    FieldAdvances(h, o, m);
    EntryCoversIff(h, o);
    FieldStops(h, o, m);
  }

  lemma {:induction false} ValueStops(h: Text, k: nat)
    requires ValueEnd(h, k).Reach? && ValueEnd(h, k).pos < |h|
    ensures !Wsp(h[ValueEnd(h, k).pos])
    decreases |h| - k
  {
    var next := if h[k] == CR then k + 2 else k + 1;
    if next < |h| && (h[k] == CR || h[k] == LF ==> Wsp(h[next])) {
      ValueStops(h, next);
    }
  }

  lemma {:induction false} FieldStops(h: Text, o: nat, m: nat)
    requires o <= m < |h| - 1 && FieldFrom(h, o, m).Found?
    ensures FieldFrom(h, o, m).next < |h| ==> !Wsp(h[FieldFrom(h, o, m).next])
  {
    var k := if h[m + 1] == CR then m + 3 else if h[m + 1] == LF then m + 2 else m + 1;
    var v := SkipWsp(h, k);
    if ValueEnd(h, v).Reach? && ValueEnd(h, v).pos < |h| {
      ValueStops(h, v);
    }
  }

  /** What stays of an empty field is an entry without a key. */
  lemma {:induction false} LeftoverSkipped(h: Text, m: nat, g: Text, p: nat, key: Text)
    requires EmptyField(h, m) && p <= |g| && g[p..] == h[m..]
    ensures GetFrom(g, p, key) == GetFrom(h, if h[m + 1] == CR then m + 3 else m + 2, key)
  {
    hide Find, Merged;
    var n := if h[m + 1] == CR then 3 else 2;
    assert forall x {:trigger g[p + x]} :: 0 <= x <= n ==> g[p + x] == g[p..][x] == h[m..][x] == h[m + x];
    assert g[p + 0] == COLON && g[p + 1] == h[m + 1] && g[p + 2] == h[m + 2] && g[p + n] == h[m + n];
    assert Mark(g, p) == p;
    assert NextFrom(g, p) == Found(Entry(p, p, p, p), p + n);
    GetSkips(g, p, key);
    SliceSlice(g, p, |g|, n, |g| - p);
    SliceSlice(h, m, |h|, n, |h| - m);
    assert g[p..][n..] == h[m..][n..];
    GetSameAhead(g, p + n, h, m + n, key);
  }

  /** Behind the erased entry both headers read the same. */
  lemma {:induction false} GetBehindCut(h: Text, o: nat, key: Text)
    requires NextFrom(h, o).Found? && NextFrom(h, o).entry.HasKey() && NextFrom(h, o).entry.Within(h)
    requires o <= NextFrom(h, o).entry.valueEnd && !Named(h, NextFrom(h, o).entry, key)
    ensures GetFrom(Cut(h, o, NextFrom(h, o).entry.valueEnd), o, key) == GetFrom(h, o, key)
  {
    hide NextFrom, Find, Merged, Named, EmptyField;
    var r := NextFrom(h, o);
    var j := r.entry.valueEnd;
    var g := Cut(h, o, j);
    GetSkips(h, o, key);
    NextAdvances(h, o);
    EmptyCut(h, o);
    assert g[o..] == h[j..];
    if EmptyField(h, Mark(h, o)) {
      LeftoverSkipped(h, j, g, o, key);
    } else if r.next <= |h| {
      GetSameAhead(g, o, h, r.next, key);
    } else {
      GetPastEnd(g, o, key);
      GetPastEnd(h, r.next, key);
    }
  }

  lemma {:induction false} CutAgrees(h: Text, o: nat)
    requires NextFrom(h, o).Found? && NextFrom(h, o).entry.HasKey() && NextFrom(h, o).entry.Within(h)
    requires o <= NextFrom(h, o).entry.valueEnd && (o == 0 || (o <= |h| && h[o - 1] == LF))
    ensures Agree(h, Cut(h, o, NextFrom(h, o).entry.valueEnd), o)
  {
    hide NextFrom;
    var j := NextFrom(h, o).entry.valueEnd;
    NextAdvances(h, o);
    KeyedIsPrintable(h, o);
    EmptyCut(h, o);
    assert j < |h| ==> Cut(h, o, j)[o] == h[j];
  }

  lemma {:induction false} CutHeader(s: Text, i: nat, j: nat)
    requires Removable(s, |HeaderOf(s)|, i, j)
    ensures j <= |HeaderOf(s)| && HeaderOf(Cut(s, i, j)) == Cut(HeaderOf(s), i, j)
  {
    hide IsSplit, HeaderEnd;
    var e := |HeaderOf(s)|;
    SplitAtFirstBlankLine(s, e);
    CutSplits(s, e, i, j);
    SplitAtFirstBlankLine(Cut(s, i, j), e - (j - i));
    assert Cut(s, i, j)[..e - (j - i)] == Cut(s[..e], i, j);
  }

  lemma {:induction false} HitIsNamed(h: Text, key: Text, other: Text)
    requires Find(h, 0, Some(key)).Hit? && !SameName(key, other)
    ensures !Named(h, Find(h, 0, Some(key)).entry, other)
  {
    var e := Find(h, 0, Some(key)).entry;
    HitMatches(h, 0, key);
    hide Find, SameName, LowerText;
    OtherName(e.Key(h), key, other);
  }

  lemma {:induction false} HitMatches(h: Text, o: nat, key: Text)
    requires Find(h, o, Some(key)).Hit?
    ensures LowerText(Find(h, o, Some(key)).entry.Key(h)) == LowerText(key)
    decreases |h| + 1 - o
  {
    hide NextFrom, LowerText;
    NextAdvances(h, o);
    var r := NextFrom(h, o);
    if Find(h, o, Some(key)) != Hit(r.entry) {
      HitMatches(h, r.next, key);
    }
  }

  /** Erasing a field changes no field with another name. */
  lemma {:induction false} EraseKeepsOthers(literal: Text, key: Text, other: Text)
    requires !SameName(key, other) && EraseValue(literal, key).Ok?
    ensures GetValue(EraseValue(literal, key).value, other) == GetValue(literal, other)
  {
    hide Find, NextFrom, Agree, Steps, Removable, Named, SameName, HeaderEnd, Merged;
    var h := HeaderOf(literal);
    if Find(h, 0, Some(key)).Hit? {
      var e := Find(h, 0, Some(key)).entry;
      var o := e.keyStart;
      HitIsStep(h, 0, Some(key));
      HitIsNamed(h, key, other);
      HitAfterSteps(h, 0, Some(key));
      NextAdvances(h, o);
      KeyedIsPrintable(h, o);
      StepsEndAtLine(h, 0, o);
      EntryRemovable(literal, o);
      CutHeader(literal, o, e.valueEnd);
      CutAgrees(h, o);
      GetBehindCut(h, o, other);
      GetSameBefore(h, Cut(h, o, e.valueEnd), o, 0, other);
    }
  }
}

/** The fields of a header by name: which entry Get and Erase find, and what Set and Erase leave alone. */
module HeaderFields {
  import opened Base
  import opened Bytes
  import opened HeaderParser
  import opened Literal
  import opened HeaderLaws

  // ----- names

  /** Equal, or the two cases of one letter. */
  predicate SameLetter(a: Byte, b: Byte) {
    a == b || (65 <= a <= 90 && b == a + 32) || (65 <= b <= 90 && a == b + 32)
  }

  predicate SameName(a: Text, b: Text) {
    |a| == |b| && forall i :: 0 <= i < |a| ==> SameLetter(a[i], b[i])
  }

  lemma {:induction false} SameNameIff(a: Text, b: Text)
    ensures LowerText(a) == LowerText(b) <==> SameName(a, b)
  {
    if LowerText(a) == LowerText(b) {
      assert |a| == |LowerText(a)| == |LowerText(b)|;
      forall i | 0 <= i < |a| ensures SameLetter(a[i], b[i]) {
        assert LowerText(a)[i] == LowerText(b)[i];
      }
    }
    if SameName(a, b) {
      forall i | 0 <= i < |a| ensures LowerText(a)[i] == LowerText(b)[i] {
        assert SameLetter(a[i], b[i]);
      }
    }
  }

  /** The canonical name of token bytes differs only in case, and has capitals at the start and behind each dash. */
  lemma {:induction false} CanonicalCase(key: Text, i: nat)
    requires i < |key| && AllTokens(key)
    ensures |Canonical(key)| == |key| && SameLetter(Canonical(key)[i], key[i])
    ensures 65 <= Canonical(key)[i] <= 90 <==>
            (i == 0 || key[i - 1] == DASH) && (65 <= key[i] <= 90 || 97 <= key[i] <= 122)
  {
    hide AllTokens;
    assert Canonical(key)[i] == CaseAt(key, i);
  }

  // ----- an entry by its bytes

  /** From k to n every CR is followed by a line feed, and every line feed before the last byte by a blank. */
  ghost predicate Joined(h: Text, k: nat, n: nat) {
    && n <= |h|
    && (forall i :: k <= i < n && h[i] == CR ==> i + 1 < n && h[i + 1] == LF)
    && (forall i :: k <= i < n - 1 && h[i] == LF ==> Wsp(h[i + 1]))
  }

  /** A value with its folds, up to the line break that no blank follows or to the end of the header. */
  ghost predicate Folded(h: Text, k: nat, n: nat) {
    k < n && Joined(h, k, n) && (n == |h| || (h[n - 1] == LF && !Wsp(h[n])))
  }

  /** A CR inside a value that no line feed follows. */
  ghost predicate Stray(h: Text, k: nat, i: nat) {
    && k <= i < |h| && h[i] == CR && (i + 1 == |h| || h[i + 1] != LF)
    && Joined(h, k, i) && (k < i ==> h[i - 1] != LF)
  }

  lemma {:induction false} ValueEndIff(h: Text, k: nat, n: nat)
    requires k < |h|
    ensures ValueEnd(h, k) == Reach(n) <==> Folded(h, k, n)
    decreases |h| - k
  {
    var next := if h[k] == CR then k + 2 else k + 1;
    if h[k] == CR && (k + 1 == |h| || h[k + 1] != LF) {
    } else if next == |h| {
    } else if (h[k] == CR || h[k] == LF) && !Wsp(h[next]) {
    } else {
      ValueEndIff(h, next, n);
    }
  }

  lemma {:induction false} ValueBrokenIff(h: Text, k: nat, i: nat)
    requires k < |h|
    ensures Stray(h, k, i) ==> ValueEnd(h, k) == Broken(if i + 1 == |h| then UnexpectedEOF else MissingNewLine)
    ensures ValueEnd(h, k).Broken? ==> exists j :: k <= j && Stray(h, k, j)
    decreases |h| - k
  {
    var next := if h[k] == CR then k + 2 else k + 1;
    if h[k] == CR && (k + 1 == |h| || h[k + 1] != LF) {
      assert Stray(h, k, k);
    } else if next == |h| {
    } else if (h[k] == CR || h[k] == LF) && !Wsp(h[next]) {
    } else {
      ValueBrokenIff(h, next, i);
      if ValueEnd(h, next).Broken? {
        var j :| next <= j && Stray(h, next, j);
        assert Stray(h, k, j);
      }
    }
  }

  /** m is the first colon or line feed from o on, or the end. */
  ghost predicate FirstMark(h: Text, o: nat, m: nat) {
    && o <= m <= |h| && (forall i :: o <= i < m ==> h[i] != COLON && h[i] != LF)
    && (m < |h| ==> h[m] == COLON || h[m] == LF)
  }

  /** v is the first byte from k on that is not a blank, or the end. */
  ghost predicate FirstText(h: Text, k: nat, v: nat) {
    k <= v && (v <= |h| || v == k) && (forall i :: k <= i < v && i < |h| ==> Wsp(h[i])) && (v < |h| ==> !Wsp(h[v]))
  }

  ghost predicate BadKey(h: Text, o: nat, m: nat) {
    exists i :: o <= i < m && i < |h| && (h[i] < 33 || h[i] > 126)
  }

  /** A second colon, or a CR that no line feed follows. */
  predicate BadColon(h: Text, m: nat)
    requires m + 1 < |h|
  {
    h[m + 1] == COLON || (h[m + 1] == CR && m + 2 < |h| && h[m + 2] != LF)
  }

  /** Behind the colon, and behind a line break that follows it at once. */
  function AfterColonAt(h: Text, m: nat): nat
    requires m + 1 < |h|
  {
    if h[m + 1] == CR then m + 3 else if h[m + 1] == LF then m + 2 else m + 1
  }

  /** A line without a colon is an entry without a key; a colon must have something behind it. */
  lemma {:induction false} NoFieldBytes(h: Text, o: nat, m: nat)
    requires o < |h| && FirstMark(h, o, m)
    ensures m == |h| || (h[m] == COLON && m + 1 == |h|) ==> NextFrom(h, o) == Fail(KeyNotFound)
    ensures m < |h| && h[m] == LF ==> NextFrom(h, o) == Found(Entry(o, o, o, m + 1), m + 1)
  {
    assert Mark(h, o) == m;
  }

  /**
   * A field, read off its bytes: the key must be printable, an empty field ends at its colon, and otherwise the value
   * runs from the first byte that is not blank to the end of its folds, unless a CR is not followed by a line feed.
   */
  lemma {:induction false} FieldBytes(h: Text, o: nat, m: nat, v: nat, n: nat)
    requires FirstMark(h, o, m) && m + 1 < |h| && h[m] == COLON && FirstText(h, AfterColonAt(h, m), v)
    ensures var r := NextFrom(h, o);
            if BadColon(h, m) then r == Fail(ParseHeader)
            else if BadKey(h, o, m) then r == Fail(NonASCIIHeaderKey)
            else if EmptyField(h, m) then r == Found(Entry(o, m, m, m), AfterColonAt(h, m))
            else if v >= |h| then r == Found(Entry(o, m, |h|, |h|), v)
            else
              && (r == Found(Entry(o, m, v, n), n) <==> Folded(h, v, n))
              && (Stray(h, v, n) ==> r == Fail(if n + 1 == |h| then UnexpectedEOF else MissingNewLine))
  {
    hide Folded, Stray, ValueEnd;
    var k := AfterColonAt(h, m);
    assert Mark(h, o) == m;
    assert SkipWsp(h, k) == v;
    assert ValidKey(h, o, m) <==> !BadKey(h, o, m);
    if v < |h| {
      ValueEndIff(h, v, n);
      ValueBrokenIff(h, v, n);
      ValueEndInside(h, v);
    }
  }

  lemma {:induction false} ValueEndInside(h: Text, v: nat)
    requires v < |h|
    ensures ValueEnd(h, v).Reach? ==> v < ValueEnd(h, v).pos <= |h|
  {
  }

  // ----- the entries that can be read

  /** The entries up to the end of the header or the first place that does not parse. */
  function Readable(h: Text, o: nat): (list: seq<Entry>)
    ensures forall e :: e in list ==> e.Within(h)
    decreases |h| + 1 - o
  {
    var r := NextFrom(h, o);
    if r.Found? then (NextAdvances(h, o); [r.entry] + Readable(h, r.next)) else []
  }

  /** A field with that name, up to case. */
  predicate Named(h: Text, e: Entry, key: Text)
    requires e.Within(h)
  {
    e.keyStart < e.keyEnd && SameName(h[e.keyStart..e.keyEnd], key)
  }

  /** The least index of an entry with that name. */
  ghost predicate FirstNamed(h: Text, list: seq<Entry>, key: Text, i: nat)
    requires forall e :: e in list ==> e.Within(h)
  {
    i < |list| && Named(h, list[i], key) && forall j :: 0 <= j < i ==> !Named(h, list[j], key)
  }

  ghost predicate NoneNamed(h: Text, list: seq<Entry>, key: Text)
    requires forall e :: e in list ==> e.Within(h)
  {
    forall j :: 0 <= j < |list| ==> !Named(h, list[j], key)
  }

  lemma {:induction false} ParsedIsReadable(h: Text, o: nat)
    ensures ParseFrom(h, o).Entries? ==> ParseFrom(h, o).list == Readable(h, o)
    decreases |h| + 1 - o
  {
    if NextFrom(h, o).Found? {
      NextAdvances(h, o);
      ParsedIsReadable(h, NextFrom(h, o).next);
    }
  }

  lemma {:induction false} WantedIsNamed(h: Text, e: Entry, key: Text)
    requires e.Within(h)
    ensures Wanted(h, e, Some(key)) <==> Named(h, e, key)
  {
    SameNameIff(key, h[e.keyStart..e.keyEnd]);
  }

  lemma {:induction false} FindByName(h: Text, o: nat, key: Text, i: nat)
    ensures FirstNamed(h, Readable(h, o), key, i) ==> Find(h, o, Some(key)) == Hit(Readable(h, o)[i])
    ensures NoneNamed(h, Readable(h, o), key) ==>
              Find(h, o, Some(key)) == match ParseFrom(h, o) case Bad(e) => Broke(e) case Entries(_) => Nobody
    decreases |h| + 1 - o
  {
    hide Named, Wanted;
    var r := NextFrom(h, o);
    if r.Found? {
      NextAdvances(h, o);
      WantedIsNamed(h, r.entry, key);
      var list, rest := Readable(h, o), Readable(h, r.next);
      assert list == [r.entry] + rest && forall j :: 0 <= j < |rest| ==> rest[j] == list[j + 1];
      FindByName(h, r.next, key, if i == 0 then 0 else i - 1);
      if i > 0 && FirstNamed(h, list, key, i) {
        assert !Named(h, list[0], key);
        assert FirstNamed(h, rest, key, i - 1);
      }
      if NoneNamed(h, list, key) {
        assert !Named(h, list[0], key);
        assert NoneNamed(h, rest, key);
      }
    }
  }

  /**
   * Get is the unfolded value of the first entry with the name and Erase cuts that entry from key to value. Without
   * one, the header either does not parse, and both fail, or Get is empty and Erase changes nothing.
   */
  lemma {:induction false} FieldByName(literal: Text, key: Text, i: nat)
    ensures var h := HeaderOf(literal);
            var list := Readable(h, 0);
            && (ParseFrom(h, 0).Entries? ==> ParseFrom(h, 0).list == list)
            && (FirstNamed(h, list, key, i) ==>
                  && list[i].Within(h)
                  && GetValue(literal, key) == Ok(Merged(h[list[i].valueStart..list[i].valueEnd]))
                  && list[i].valueEnd <= |literal|
                  && EraseValue(literal, key) == Ok(literal[..list[i].keyStart] + literal[list[i].valueEnd..]))
            && (NoneNamed(h, list, key) ==>
                  match ParseFrom(h, 0)
                  case Bad(e) => GetValue(literal, key) == Err(e) && EraseValue(literal, key) == Err(e)
                  case Entries(_) => GetValue(literal, key) == Ok([]) && EraseValue(literal, key) == Ok(literal))
  {
    hide Find, ParseFrom, Readable, FirstNamed, NoneNamed, Merged;
    var h := HeaderOf(literal);
    ParsedIsReadable(h, 0);
    FindByName(h, 0, key, i);
  }

  ghost predicate FirstKeyed(list: seq<Entry>, i: nat) {
    i < |list| && list[i].keyStart < list[i].keyEnd && forall j :: 0 <= j < i ==> list[j].keyStart >= list[j].keyEnd
  }

  ghost predicate NoneKeyed(list: seq<Entry>) {
    forall j :: 0 <= j < |list| ==> list[j].keyStart >= list[j].keyEnd
  }

  lemma {:induction false} FindKeyed(h: Text, o: nat, i: nat)
    ensures FirstKeyed(Readable(h, o), i) ==> Find(h, o, None) == Hit(Readable(h, o)[i])
    ensures NoneKeyed(Readable(h, o)) ==>
              Find(h, o, None) == match ParseFrom(h, o) case Bad(e) => Broke(e) case Entries(_) => Nobody
    decreases |h| + 1 - o
  {
    hide NextFrom;
    var r := NextFrom(h, o);
    if r.Found? {
      NextAdvances(h, o);
      var list, rest := Readable(h, o), Readable(h, r.next);
      assert list == [r.entry] + rest && forall j :: 0 <= j < |rest| ==> rest[j] == list[j + 1];
      FindKeyed(h, r.next, if i == 0 then 0 else i - 1);
      if i > 0 && FirstKeyed(list, i) {
        assert list[0] == r.entry;
        assert FirstKeyed(rest, i - 1);
      }
      if NoneKeyed(list) {
        assert list[0] == r.entry;
        assert NoneKeyed(rest);
      }
    }
  }

  /** Set writes the line before the first entry with a key, or behind the header, or fails where parsing fails. */
  lemma {:induction false} SetPlace(literal: Text, key: Text, val: Text, i: nat)
    ensures var h := HeaderOf(literal);
            var list, line := Readable(h, 0), Canonical(key) + [COLON, SPACE] + val + [CR, LF];
            && (FirstKeyed(list, i) ==>
                  && list[i].keyStart <= |literal|
                  && SetValue(literal, key, val) ==
                     Ok(literal[..list[i].keyStart] + line + literal[list[i].keyStart..]))
            && (NoneKeyed(list) ==>
                  match ParseFrom(h, 0)
                  case Bad(e) => SetValue(literal, key, val) == Err(e)
                  case Entries(_) => SetValue(literal, key, val) == Ok(literal[..|h|] + line + literal[|h|..]))
  {
    hide Find, ParseFrom, Readable, FirstKeyed, NoneKeyed, Canonical;
    FindKeyed(HeaderOf(literal), 0, i);
  }

  // ----- unfolding

  lemma {:induction false} TrimLeftIs(s: Text)
    ensures var r := TrimLeft(s);
            && (forall i :: 0 <= i < |s| - |r| ==> Space(s[i])) && (|r| > 0 ==> !Space(r[0]))
  {
    if |s| > 0 && Space(s[0]) {
      TrimLeftIs(s[1..]);
      assert forall i :: 0 < i < |s| ==> s[i] == s[1..][i - 1];
    }
  }

  lemma {:induction false} TrimRightIs(s: Text)
    ensures var r := TrimRight(s);
            && (forall i :: |r| <= i < |s| ==> Space(s[i])) && (|r| > 0 ==> !Space(r[|r| - 1]))
  {
    if |s| > 0 && Space(s[|s| - 1]) {
      TrimRightIs(s[..|s| - 1]);
    }
  }

  const WHITE: set<Byte> := {9, 10, 11, 12, 13, 32}

  /** The text from i to j with only white space around it, and none at its ends. */
  ghost predicate Core(s: Text, i: nat, j: nat) {
    && i <= j <= |s|
    && (forall k :: 0 <= k < i ==> s[k] in WHITE) && (forall k :: j <= k < |s| ==> s[k] in WHITE)
    && (i < j ==> s[i] !in WHITE && s[j - 1] !in WHITE)
  }

  lemma {:induction false} SpaceIff(b: Byte)
    ensures Space(b) <==> b in WHITE
  {
  }

  lemma {:induction false} CoreFrom(s: Text, l: Text, i: nat, n: nat)
    requires i <= |s| && l == s[i..] && n <= |l|
    requires (forall k :: 0 <= k < i ==> Space(s[k])) && (|l| > 0 ==> !Space(l[0]))
    requires (forall k :: n <= k < |l| ==> Space(l[k])) && (n > 0 ==> !Space(l[n - 1]))
    ensures Core(s, i, i + n) && l[..n] == s[i..i + n]
  {
    forall b: Byte ensures Space(b) <==> b in WHITE {
      SpaceIff(b);
    }
    hide Space;
    forall k | i + n <= k < |s| ensures Space(s[k]) {
      assert l[k - i] == s[k];
    }
    assert n > 0 ==> l[0] == s[i] && l[n - 1] == s[i + n - 1];
  }

  lemma {:induction false} TrimSpaceIs(s: Text) returns (i: nat, j: nat)
    ensures Core(s, i, j) && TrimSpace(s) == s[i..j]
  {
    hide TrimLeft, TrimRight, Space, Core;
    var l := TrimLeft(s);
    var n := |TrimRight(l)|;
    TrimLeftIs(s);
    TrimRightIs(l);
    i, j := |s| - |l|, |s| - |l| + n;
    CoreFrom(s, l, i, n);
  }

  lemma {:induction false} TrimEmpty()
    ensures TrimSpace([]) == []
  {
  }

  /**
   * Unfolding, line by line: each line is trimmed and followed by one space unless it is the last, and an empty line
   * leaves nothing.
   */
  lemma {:induction false} UnfoldsLine(a: Text, crlf: bool, b: Text)
    requires LF !in a && (crlf || |a| == 0 || a[|a| - 1] != CR)
    ensures Merged(a) == TrimSpace(a)
    ensures Merged(a + (if crlf then [CR, LF] else [LF]) + b) ==
            (if |a| == 0 then [] else if |b| == 0 then TrimSpace(a) else TrimSpace(a) + [SPACE]) + Merged(b)
  {
    hide TrimSpace;
    TrimEmpty();
    assert LineEnd(a, 0) == |a|;
    var s := a + (if crlf then [CR, LF] else [LF]) + b;
    var i := if crlf then |a| + 1 else |a|;
    assert s[i] == LF && forall j :: 0 <= j < |a| ==> s[j] == a[j];
    assert LineEnd(s, 0) == i;
    assert s[i + 1..] == b;
    assert Section(s, i) == a;
  }
}

/** rfc822/header_parser.go: splitting a header into entries; rfc822/header.go: NewHeader's loop over them. */
module HeaderParser {
  import opened Bytes

  /** Positions of one entry in the header. An entry whose key is empty stands for text outside any field. */
  datatype Entry = Entry(keyStart: nat, keyEnd: nat, valueStart: nat, valueEnd: nat) {
    predicate HasKey() {
      keyStart != keyEnd
    }

    predicate Within(h: Text) {
      keyStart <= keyEnd <= valueStart <= valueEnd <= |h|
    }

    function Key(h: Text): Text
      requires Within(h)
    {
      h[keyStart..keyEnd]
    }

    function Value(h: Text): Text
      requires Within(h)
    {
      h[valueStart..valueEnd]
    }
  }

  datatype HeaderError = KeyNotFound | NonASCIIHeaderKey | ParseHeader | UnexpectedEOF | MissingNewLine

  datatype Outcome = End | Fail(error: HeaderError) | Found(entry: Entry, next: nat)

  predicate Wsp(b: Byte) {
    b == SPACE || b == TAB
  }

  predicate Printable(b: Byte) {
    33 <= b <= 126
  }

  predicate ValidKey(h: Text, i: nat, j: nat)
    requires i <= j <= |h|
  {
    forall k :: i <= k < j ==> Printable(h[k])
  }

  /** The first colon or line feed from k on, or the end. */
  function Mark(h: Text, k: nat): (m: nat)
    requires k <= |h|
    ensures k <= m <= |h|
    ensures forall i :: k <= i < m ==> h[i] != COLON && h[i] != LF
    ensures m < |h| ==> h[m] == COLON || h[m] == LF
    decreases |h| - k
  {
    if k == |h| || h[k] == COLON || h[k] == LF then k else Mark(h, k + 1)
  }

  function SkipWsp(h: Text, k: nat): (v: nat)
    ensures k <= v && (v <= |h| || v == k)
    ensures forall i :: k <= i < v && i < |h| ==> Wsp(h[i])
    ensures v < |h| ==> !Wsp(h[v])
    decreases |h| - k
  {
    if k < |h| && Wsp(h[k]) then SkipWsp(h, k + 1) else k
  }

  /** The end of a value: after the first line break that no fold follows, or the end of the header. */
  datatype Reach = Reach(pos: nat) | Broken(error: HeaderError)

  function ValueEnd(h: Text, k: nat): (r: Reach)
    ensures r.Reach? && k < |h| ==> k < r.pos <= |h|
    ensures k >= |h| ==> r == Reach(k)
    decreases |h| - k
  {
    if k >= |h| then Reach(k)
    else if h[k] == CR then
      if k + 1 >= |h| then Broken(UnexpectedEOF)
      else if h[k + 1] != LF then Broken(MissingNewLine)
      else if k + 2 < |h| && Wsp(h[k + 2]) then ValueEnd(h, k + 2)
      else Reach(k + 2)
    else if h[k] == LF then
      if k + 1 < |h| && Wsp(h[k + 1]) then ValueEnd(h, k + 1)
      else Reach(k + 1)
    else ValueEnd(h, k + 1)
  }

  function Min(a: nat, b: nat): nat {
    if a <= b then a else b
  }

  /** The entry with key h[o..m] whose value is looked for from k on. */
  function ValueFrom(h: Text, o: nat, m: nat, k: nat): Outcome {
    var v := SkipWsp(h, k);
    match ValueEnd(h, v)
    case Broken(e) => Fail(e)
    case Reach(s) => Found(Entry(o, m, Min(v, |h|), Min(s, |h|)), s)
  }

  /** As ValueFrom, when the colon is followed by a line break that ends before k. */
  function BreakFrom(h: Text, o: nat, m: nat, k: nat): Outcome
    requires o <= m <= |h|
  {
    if !ValidKey(h, o, m) then Fail(NonASCIIHeaderKey)
    else if k < |h| && !Wsp(h[k]) then Found(Entry(o, m, m, m), k)
    else ValueFrom(h, o, m, k)
  }

  /** The entry that starts at o and has its colon at m. */
  function FieldFrom(h: Text, o: nat, m: nat): Outcome
    requires o <= m < |h| - 1
  {
    var c := h[m + 1];
    if c == CR then
      if m + 2 < |h| && h[m + 2] != LF then Fail(ParseHeader) else BreakFrom(h, o, m, m + 3)
    else if c == LF then BreakFrom(h, o, m, m + 2)
    else if c == COLON then Fail(ParseHeader)
    else if ValidKey(h, o, m) then ValueFrom(h, o, m, m + 1)
    else Fail(NonASCIIHeaderKey)
  }

  function NextFrom(h: Text, o: nat): Outcome {
    if o >= |h| then End else
    var m := Mark(h, o);
    if m == |h| then Fail(KeyNotFound)
    else if h[m] == LF then Found(Entry(o, o, o, m + 1), m + 1)
    else if m + 1 == |h| then Fail(KeyNotFound)
    else FieldFrom(h, o, m)
  }

  class HeaderParser {
    const header: Text
    var offset: nat

    constructor (header: Text)
      ensures this.header == header && offset == 0
    {
      this.header, this.offset := header, 0;
    }

    method ValidateKey(i: nat, j: nat) returns (ok: bool)
      requires i <= j <= |header|
      ensures ok == ValidKey(header, i, j)
    {
      for k := i to j
        invariant ValidKey(header, i, k)
      {
        if header[k] < 33 || header[k] > 126 {
          return false;
        }
      }
      return true;
    }

    method FindValueEnd(start: nat) returns (r: Reach)
      ensures r == ValueEnd(header, start)
    {
      var at := start;
      while at < |header|
        invariant ValueEnd(header, at) == ValueEnd(header, start)
        decreases |header| - at
      {
        var b := header[at];
        if b == CR {
          at := at + 1;
          if at >= |header| {
            return Broken(UnexpectedEOF);
          }
          if header[at] != LF {
            return Broken(MissingNewLine);
          }
          at := at + 1;
          if at < |header| && Wsp(header[at]) {
            continue;
          }
          return Reach(at);
        } else if b == LF {
          at := at + 1;
          if at < |header| && Wsp(header[at]) {
            continue;
          }
          return Reach(at);
        } else {
          at := at + 1;
        }
      }
      return Reach(at);
    }

    method CollectValue(keyStart: nat, keyEnd: nat) returns (r: Outcome)
      modifies this
      ensures r == ValueFrom(header, keyStart, keyEnd, old(offset))
      ensures r.Found? ==> offset == r.next
    {
      var at := offset;
      while at < |header| && Wsp(header[at])
        invariant SkipWsp(header, at) == SkipWsp(header, offset)
        decreases |header| - at
      {
        at := at + 1;
      }
      var end := FindValueEnd(at);
      match end {
        case Broken(e) => return Fail(e);
        case Reach(s) =>
          offset := s;
          return Found(Entry(keyStart, keyEnd, Min(at, |header|), Min(s, |header|)), s);
      }
    }

    /** The branches on what follows the colon at `offset`. */
    method AfterColon(keyStart: nat) returns (r: Outcome)
      requires keyStart <= offset < |header| - 1
      modifies this
      ensures r == FieldFrom(header, keyStart, old(offset))
      ensures r.Found? ==> offset == r.next
    {
      var keyEnd := offset;
      offset := offset + 1;
      var valid := ValidateKey(keyStart, keyEnd);
      if header[offset] == CR || header[offset] == LF {
        if header[offset] == CR {
          offset := offset + 1;
          if offset < |header| && header[offset] != LF {
            return Fail(ParseHeader);
          }
        }
        offset := offset + 1;
        if !valid {
          return Fail(NonASCIIHeaderKey);
        }
        if offset < |header| && !Wsp(header[offset]) {
          return Found(Entry(keyStart, keyEnd, keyEnd, keyEnd), offset);
        }
      } else if header[offset] == COLON {
        return Fail(ParseHeader);
      } else if !valid {
        return Fail(NonASCIIHeaderKey);
      }
      r := CollectValue(keyStart, keyEnd);
    }

    method Next() returns (r: Outcome)
      modifies this
      ensures r == NextFrom(header, old(offset))
      ensures r.Found? ==> offset == r.next
    {
      if offset >= |header| {
        return End;
      }
      var keyStart := offset;
      while offset < |header|
        invariant keyStart <= offset <= |header|
        invariant Mark(header, offset) == Mark(header, keyStart)
      {
        if header[offset] == COLON {
          if offset + 1 < |header| {
            r := AfterColon(keyStart);
            return;
          }
          return Fail(KeyNotFound);
        } else if header[offset] == LF {
          offset := offset + 1;
          return Found(Entry(keyStart, keyStart, keyStart, offset), offset);
        }
        offset := offset + 1;
      }
      return Fail(KeyNotFound);
    }
  }

  // ----- every entry, on any bytes

  /** What a successful step promises: progress, positions in order inside the header, and where the entry starts. */
  lemma {:induction false} NextAdvances(h: Text, o: nat)
    requires NextFrom(h, o).Found?
    ensures var r := NextFrom(h, o);
            && o < r.next <= |h| + 1 && r.entry.keyStart == o
            && r.entry.Within(h) && r.entry.valueEnd <= r.next
  {
    var m := Mark(h, o);
    if h[m] == COLON {
      FieldAdvances(h, o, m);
    }
  }

  lemma {:induction false} ValueAdvances(h: Text, o: nat, m: nat, k: nat)
    requires o <= m < k <= |h| + 1 && m <= |h| && ValueFrom(h, o, m, k).Found?
    ensures var r := ValueFrom(h, o, m, k);
            && k <= r.next <= |h| + 1 && r.entry.keyStart == o && r.entry.keyEnd == m
            && r.entry.Within(h) && r.entry.valueEnd <= r.next
  {
  }

  lemma {:induction false} FieldAdvances(h: Text, o: nat, m: nat)
    requires o <= m < |h| - 1 && FieldFrom(h, o, m).Found?
    ensures var r := FieldFrom(h, o, m);
            && m + 1 <= r.next <= |h| + 1 && r.entry.keyStart == o && r.entry.keyEnd == m
            && r.entry.Within(h) && r.entry.valueEnd <= r.next
  {
    var k := if h[m + 1] == CR then m + 3 else if h[m + 1] == LF then m + 2 else m + 1;
    if ValueFrom(h, o, m, k).Found? {
      ValueAdvances(h, o, m, k);
    }
  }

  datatype Header = Bad(error: HeaderError) | Entries(list: seq<Entry>)

  function ParseFrom(h: Text, o: nat): Header
    decreases |h| + 1 - o
  {
    match NextFrom(h, o)
    case End => Entries([])
    case Fail(e) => Bad(e)
    case Found(entry, next) =>
      assert o < next by { NextAdvances(h, o); }
      Prepend([entry], ParseFrom(h, next))
  }

  /** Entries begin where parsing begins, lie inside the header, and do not overlap. */
  lemma {:induction false} EntriesInOrder(h: Text, o: nat, k: nat)
    requires ParseFrom(h, o).Entries? && k < |ParseFrom(h, o).list|
    ensures var list := ParseFrom(h, o).list;
            && list[0].keyStart == o <= list[k].keyStart && list[k].Within(h)
            && (k + 1 < |list| ==> list[k].keyStart < list[k + 1].keyStart && list[k].valueEnd <= list[k + 1].keyStart)
    decreases |h| + 1 - o
  {
    NextAdvances(h, o);
    var next := NextFrom(h, o).next;
    if k > 0 {
      EntriesInOrder(h, next, k - 1);
    } else if |ParseFrom(h, o).list| > 1 {
      EntriesInOrder(h, next, 0);
    }
  }

  function LowerByte(b: Byte): Byte {
    if 65 <= b <= 90 then b + 32 else b
  }

  function LowerText(s: Text): Text {
    seq(|s|, i requires 0 <= i < |s| => LowerByte(s[i]))
  }

  /** The positions, ascending, of the entries with the given lower-case key. */
  function WithKey(h: Text, list: seq<Entry>, key: Text): seq<nat>
    requires forall e :: e in list ==> e.Within(h)
  {
    if |list| == 0 then [] else
    var last := list[|list| - 1];
    WithKey(h, list[..|list| - 1], key) +
    if last.HasKey() && LowerText(last.Key(h)) == key then [|list| - 1] else []
  }

  ghost predicate Indexes(h: Text, list: seq<Entry>, keys: map<Text, seq<nat>>) {
    && (forall e :: e in list ==> e.Within(h))
    && (forall key :: key in keys ==> keys[key] == WithKey(h, list, key) != [])
    && (forall key :: key !in keys ==> WithKey(h, list, key) == [])
  }

  lemma {:induction false} IndexesStep(h: Text, list: seq<Entry>, e: Entry, keys: map<Text, seq<nat>>)
    requires Indexes(h, list, keys) && e.Within(h)
    ensures e.HasKey() ==> (
      var key := LowerText(e.Key(h));
      Indexes(h, list + [e], keys[key := (if key in keys then keys[key] else []) + [|list|]]))
    ensures !e.HasKey() ==> Indexes(h, list + [e], keys)
  {
    var all := list + [e];
    assert all[..|all| - 1] == list && all[|all| - 1] == e;
    if e.HasKey() {
      var key := LowerText(e.Key(h));
      var keys' := keys[key := (if key in keys then keys[key] else []) + [|list|]];
      forall x ensures WithKey(h, all, x) == if x in keys' then keys'[x] else [] {
        assert WithKey(h, all, x) == WithKey(h, list, x) + if key == x then [|list|] else [];
      }
    } else {
      forall x ensures WithKey(h, all, x) == WithKey(h, list, x) {
      }
    }
  }

  /** NewHeader: the entries, and every field reachable under its lower-case key. */
  method NewHeader(data: Text) returns (r: Header, keys: map<Text, seq<nat>>)
    ensures r == ParseFrom(data, 0)
    ensures r.Entries? ==> Indexes(data, r.list, keys)
  {
    var parser := new HeaderParser(data);
    var list: seq<Entry> := [];
    keys := map[];
    while true
      invariant parser.header == data
      invariant ParseFrom(data, 0) == Prepend(list, ParseFrom(data, parser.offset))
      invariant Indexes(data, list, keys)
      decreases |data| + 1 - parser.offset
    {
      ghost var at := parser.offset;
      ghost var before := list;
      var next := parser.Next();
      match next {
        case End => return Entries(list), keys;
        case Fail(e) => return Bad(e), keys;
        case Found(entry, _) =>
          NextAdvances(data, at);
          IndexesStep(data, list, entry, keys);
          if entry.HasKey() {
            var key := LowerText(entry.Key(data));
            keys := keys[key := (if key in keys then keys[key] else []) + [|list|]];
          }
          list := list + [entry];
          PrependStep(before, entry, ParseFrom(data, parser.offset));
      }
    }
  }

  function Prepend(list: seq<Entry>, r: Header): Header {
    match r
    case Bad(e) => Bad(e)
    case Entries(rest) => Entries(list + rest)
  }

  lemma {:induction false} PrependStep(list: seq<Entry>, e: Entry, r: Header)
    ensures Prepend(list, Prepend([e], r)) == Prepend(list + [e], r)
  {
    if r.Entries? {
      assert list + ([e] + r.list) == (list + [e]) + r.list;
    }
  }
}

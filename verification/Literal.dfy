/** rfc822/parser.go Split and rfc822/header.go: reading, setting and erasing a header field of a message literal. */
module Literal {
  import opened Base
  import opened Bytes
  import opened HeaderParser

  datatype Result<T> = Ok(value: T) | Err(error: HeaderError)

  // ----- Split

  function LineEnd(s: Text, k: nat): (i: nat)
    requires k <= |s|
    ensures k <= i <= |s|
    ensures forall j :: k <= j < i ==> s[j] != LF
    ensures i < |s| ==> s[i] == LF
    decreases |s| - k
  {
    if k == |s| || s[k] == LF then k else LineEnd(s, k + 1)
  }

  predicate OnlyCR(s: Text) {
    forall j :: 0 <= j < |s| ==> s[j] == CR
  }

  /** Where the header that begins at the line start k ends. */
  function HeaderEnd(s: Text, k: nat): (e: nat)
    requires k <= |s|
    ensures k <= e <= |s|
    decreases |s| - k
  {
    if k == |s| then k else
    var i := LineEnd(s, k);
    if i == |s| then |s|
    else if OnlyCR(s[k..i]) then i + 1
    else HeaderEnd(s, i + 1)
  }

  function HeaderOf(s: Text): Text {
    s[..HeaderEnd(s, 0)]
  }

  method Split(b: Text) returns (header: Text, body: Text)
    ensures header == HeaderOf(b) && header + body == b
  {
    hide HeaderEnd, LineEnd, OnlyCR;
    var remaining := b;
    var splitIndex: nat := 0;
    while |remaining| != 0
      invariant splitIndex <= |b| && remaining == b[splitIndex..]
      invariant HeaderEnd(b, splitIndex) == HeaderEnd(b, 0)
      decreases |remaining|
    {
      var index := LineEnd(remaining, 0);
      HeaderEndStep(b, splitIndex);
      if index == |remaining| {
        return b, [];
      }
      splitIndex := splitIndex + index + 1;
      if OnlyCR(remaining[..index]) {
        break;
      }
      remaining := remaining[index + 1..];
    }
    return b[..splitIndex], b[splitIndex..];
  }

  lemma {:induction false} LineEndDrop(s: Text, k: nat, j: nat)
    requires k + j <= |s|
    ensures LineEnd(s, k + j) == k + LineEnd(s[k..], j)
    decreases |s| - j
  {
    if k + j < |s| && s[k + j] != LF {
      LineEndDrop(s, k, j + 1);
    }
  }

  lemma {:induction false} HeaderEndStep(s: Text, k: nat)
    requires k < |s|
    ensures var t := s[k..];
            var i := LineEnd(t, 0);
            && (i == |t| ==> HeaderEnd(s, k) == |s|)
            && (i < |t| && OnlyCR(t[..i]) ==> HeaderEnd(s, k) == k + i + 1)
            && (i < |t| && !OnlyCR(t[..i]) ==> HeaderEnd(s, k) == HeaderEnd(s, k + i + 1))
  {
    var i := LineEnd(s[k..], 0);
    LineEndDrop(s, k, 0);
    SliceSlice(s, k, |s|, 0, i);
    assert s[k..][..i] == s[k..k + i];
  }

  /** The line from k up to e, line feed included, holds nothing but carriage returns before the line feed. */
  ghost predicate BlankLine(s: Text, k: int, e: int) {
    && 0 <= k < e <= |s| && s[e - 1] == LF && (k == 0 || s[k - 1] == LF)
    && forall j :: k <= j < e - 1 ==> s[j] == CR
  }

  /** e is right after the first blank line, or the end when there is no blank line. */
  ghost predicate IsSplit(s: Text, e: nat) {
    && e <= |s|
    && (forall k, f :: BlankLine(s, k, f) ==> e <= f)
    && (e == |s| || exists k :: BlankLine(s, k, e))
  }

  /** Split cuts right after the first blank line, and only there. */
  lemma {:induction false} SplitAtFirstBlankLine(s: Text, e: nat)
    ensures IsSplit(s, e) <==> e == HeaderEnd(s, 0)
  {
    HeaderEndSplits(s, 0);
  }

  lemma {:induction false} HeaderEndSplits(s: Text, k: nat)
    requires k <= |s| && (k == 0 || s[k - 1] == LF)
    requires forall a, f :: BlankLine(s, a, f) ==> k < f
    ensures IsSplit(s, HeaderEnd(s, k))
    decreases |s| - k
  {
    var i := LineEnd(s, k);
    forall a, f | BlankLine(s, a, f) ensures i < f {
      assert s[f - 1] == LF;
    }
    if i < |s| {
      if OnlyCR(s[k..i]) {
        assert forall j :: k <= j < i ==> s[j] == s[k..i][j - k];
        assert BlankLine(s, k, i + 1);
      } else {
        var j :| 0 <= j < i - k && s[k..i][j] != CR;
        assert s[k + j] != CR;
        forall a, f | BlankLine(s, a, f) ensures i + 1 < f {
          assert f == i + 1 ==> a <= k;
        }
        HeaderEndSplits(s, i + 1);
      }
    }
  }

  // ----- finding an entry

  datatype Search = Nobody | Broke(error: HeaderError) | Hit(entry: Entry)

  /** Any keyed entry, or one whose key is the given one up to case. */
  predicate Wanted(h: Text, e: Entry, want: Option<Text>)
    requires e.Within(h)
  {
    e.HasKey() && (want.None? || LowerText(want.value) == LowerText(e.Key(h)))
  }

  function Find(h: Text, o: nat, want: Option<Text>): (r: Search)
    ensures r.Hit? ==> r.entry.Within(h) && o <= r.entry.keyStart
    decreases |h| + 1 - o
  {
    match NextFrom(h, o)
    case End => Nobody
    case Fail(e) => Broke(e)
    case Found(e, next) =>
      NextAdvances(h, o);
      if Wanted(h, e, want) then Hit(e) else Find(h, next, want)
  }

  method FindEntry(header: Text, want: Option<Text>) returns (r: Search)
    ensures r == Find(header, 0, want)
  {
    var parser := new HeaderParser(header);
    while true
      invariant parser.header == header
      invariant Find(header, parser.offset, want) == Find(header, 0, want)
      decreases |header| + 1 - parser.offset
    {
      ghost var at := parser.offset;
      var next := parser.Next();
      match next {
        case End => return Nobody;
        case Fail(e) => return Broke(e);
        case Found(e, _) =>
          NextAdvances(header, at);
          if Wanted(header, e, want) {
            return Hit(e);
          }
      }
    }
  }

  // ----- the three operations

  function UpperByte(b: Byte): Byte {
    if 97 <= b <= 122 then b - 32 else b
  }

  /** A byte allowed in a token (section 3.2.6 of RFC 7230). */
  predicate Token(b: Byte) {
    48 <= b <= 57 || 65 <= b <= 90 || 94 <= b <= 122 || b in {33, 35, 36, 37, 38, 39, 42, 43, 45, 46, 124, 126}
  }

  function CaseAt(key: Text, i: nat): Byte
    requires i < |key|
  {
    if i == 0 || key[i - 1] == DASH then UpperByte(key[i]) else LowerByte(key[i])
  }

  predicate AllTokens(key: Text) {
    forall b :: b in key ==> Token(b)
  }

  /** textproto.CanonicalMIMEHeaderKey. */
  function Canonical(key: Text): Text {
    if AllTokens(key) then seq(|key|, i requires 0 <= i < |key| => CaseAt(key, i)) else key
  }

  function JoinLine(key: Text, val: Text): Text {
    key + [COLON, SPACE] + val + [CR, LF]
  }

  function Inserted(s: Text, p: nat, field: Text): Text
    requires p <= |s|
  {
    s[..p] + field + s[p..]
  }

  /** Where Set puts the new field: before the first keyed field, or after the header. */
  function InsertAt(literal: Text): (r: Result<nat>)
    ensures r.Ok? ==> r.value <= |literal|
  {
    var h := HeaderOf(literal);
    match Find(h, 0, None)
    case Broke(e) => Err(e)
    case Nobody => Ok(|h|)
    case Hit(e) => Ok(e.keyStart)
  }

  function SetValue(literal: Text, key: Text, val: Text): Result<Text> {
    match InsertAt(literal)
    case Err(e) => Err(e)
    case Ok(p) => Ok(Inserted(literal, p, JoinLine(Canonical(key), val)))
  }

  function EraseValue(literal: Text, key: Text): Result<Text> {
    match Find(HeaderOf(literal), 0, Some(key))
    case Broke(e) => Err(e)
    case Nobody => Ok(literal)
    case Hit(e) => Ok(literal[..e.keyStart] + literal[e.valueEnd..])
  }

  predicate Space(b: Byte) {
    9 <= b <= 13 || b == SPACE
  }

  function TrimLeft(s: Text): (r: Text)
    ensures |r| <= |s| && r == s[|s| - |r|..]
  {
    if |s| > 0 && Space(s[0]) then TrimLeft(s[1..]) else s
  }

  function TrimRight(s: Text): (r: Text)
    ensures |r| <= |s| && r == s[..|r|]
  {
    if |s| > 0 && Space(s[|s| - 1]) then TrimRight(s[..|s| - 1]) else s
  }

  function TrimSpace(s: Text): Text {
    TrimRight(TrimLeft(s))
  }

  /** A line without its line break. */
  function Section(s: Text, i: nat): Text
    requires i <= |s|
  {
    if i >= 1 && s[i - 1] == CR then s[..i - 1] else s[..i]
  }

  /** A folded value on one line. */
  function Merged(s: Text): Text
    decreases |s|
  {
    if |s| == 0 then [] else
    var i := LineEnd(s, 0);
    if i == |s| then TrimSpace(s) else
    MergedLine(Section(s, i), i + 1 == |s|) + Merged(s[i + 1..])
  }

  function MergedLine(section: Text, last: bool): Text {
    if |section| == 0 then [] else if last then TrimSpace(section) else TrimSpace(section) + [SPACE]
  }

  function GetValue(literal: Text, key: Text): Result<Text> {
    var h := HeaderOf(literal);
    match Find(h, 0, Some(key))
    case Broke(e) => Err(e)
    case Nobody => Ok([])
    case Hit(e) => Ok(Merged(e.Value(h)))
  }

  method MergeMultiline(line: Text) returns (merged: Text)
    ensures merged == Merged(line)
  {
    hide TrimSpace, LineEnd;
    var remaining := line;
    merged := [];
    while |remaining| != 0
      invariant merged + Merged(remaining) == Merged(line)
      decreases |remaining|
    {
      var index := LineEnd(remaining, 0);
      if index == |remaining| {
        merged := merged + TrimSpace(remaining);
        return;
      }
      var section := if index >= 1 && remaining[index - 1] == CR then remaining[..index - 1] else remaining[..index];
      ghost var before := merged;
      AppendLine(before, section, remaining, index);
      remaining := remaining[index + 1..];
      if |section| != 0 {
        merged := merged + TrimSpace(section);
        if |remaining| != 0 {
          merged := merged + [SPACE];
        }
      }
      assert merged == before + MergedLine(section, |remaining| == 0);
    }
  }

  lemma {:induction false} AppendLine(before: Text, section: Text, s: Text, i: nat)
    requires |s| > 0 && i == LineEnd(s, 0) < |s| && section == Section(s, i)
    ensures before + Merged(s) == (before + MergedLine(section, i + 1 == |s|)) + Merged(s[i + 1..])
  {
    hide MergedLine, LineEnd, Section, TrimSpace;
    assert Merged(s) == MergedLine(section, i + 1 == |s|) + Merged(s[i + 1..]);
  }

  /** However a value was folded, it comes back on one line. */
  lemma {:induction false} MergedOnOneLine(s: Text)
    ensures LF !in Merged(s)
    decreases |s|
  {
    if |s| > 0 {
      var i := LineEnd(s, 0);
      if i < |s| {
        MergedOnOneLine(s[i + 1..]);
        TrimmedWithin(Section(s, i));
        assert LF !in s[..i] && LF !in Section(s, i);
      } else {
        TrimmedWithin(s);
        assert LF !in s;
      }
    }
  }

  lemma {:induction false} TrimmedWithin(s: Text)
    ensures forall b :: b in TrimSpace(s) ==> b in s
  {
    assert forall b :: b in TrimLeft(s) ==> b in s;
  }

  method SetHeaderValue(literal: Text, key: Text, val: Text) returns (r: Result<Text>)
    ensures r == SetValue(literal, key, val)
  {
    var header, body := Split(literal);
    var first := FindEntry(header, None);
    var data := JoinLine(Canonical(key), val);
    match first {
      case Broke(e) => return Err(e);
      case Nobody =>
        assert literal[..|header|] == header && literal[|header|..] == body;
        return Ok(header + data + body);
      case Hit(e) => return Ok(literal[..e.keyStart] + data + literal[e.keyStart..]);
    }
  }

  method GetHeaderValue(literal: Text, key: Text) returns (r: Result<Text>)
    ensures r == GetValue(literal, key)
  {
    var header, _ := Split(literal);
    var entry := FindEntry(header, Some(key));
    match entry {
      case Broke(e) => return Err(e);
      case Nobody => return Ok([]);
      case Hit(e) =>
        var merged := MergeMultiline(e.Value(header));
        return Ok(merged);
    }
  }

  method EraseHeaderValue(literal: Text, key: Text) returns (r: Result<Text>)
    ensures r == EraseValue(literal, key)
  {
    var header, _ := Split(literal);
    var entry := FindEntry(header, Some(key));
    match entry {
      case Broke(e) => return Err(e);
      case Nobody => return Ok(literal);
      case Hit(e) => return Ok(literal[..e.keyStart] + literal[e.valueEnd..]);
    }
  }
}

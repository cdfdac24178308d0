/** imap/command/seq_set.go on top of rfcparser: reading a printed sequence set back (section 9 of RFC 3501). */
module SeqParse {
  import opened Base
  import opened SeqSet
  import Selection

  // ----- the token parser

  datatype TokenType = TokEof | TokDigit | TokAsterisk | TokColon | TokComma | TokOther

  datatype Token = Token(ttype: TokenType, value: char)

  predicate IsDigit(c: char) {
    '0' <= c <= '9'
  }

  /** ScanToken's classes, as far as sequence sets tell them apart. */
  function Classify(c: char): TokenType {
    if IsDigit(c) then TokDigit
    else if c == '*' then TokAsterisk
    else if c == ':' then TokColon
    else if c == ',' then TokComma
    else TokOther
  }

  function DigitValue(c: char): nat
    requires IsDigit(c)
  {
    c as int - '0' as int
  }

  // ----- the grammar as functions on the text

  datatype Parsed<T> = Fail | Ok(value: T, rest: string)

  /** The value of an integer expression in 64 bits, two's complement. */
  function Wrap(x: int): int {
    (x + 0x8000_0000_0000_0000) % 0x1_0000_0000_0000_0000 - 0x8000_0000_0000_0000
  }

  /** One more digit: a multiplication and an addition that may each wrap around. */
  function Shift(acc: int, d: nat): int {
    Wrap(Wrap(acc * 10) + d)
  }

  /** Reads digits onto an accumulator. */
  function Digits(acc: int, s: string): (int, string)
    decreases |s|
  {
    if |s| == 0 || !IsDigit(s[0]) then (acc, s) else Digits(Shift(acc, DigitValue(s[0])), s[1..])
  }

  lemma {:induction false} DigitsShrink(acc: int, s: string)
    ensures |Digits(acc, s).1| <= |s|
    decreases |s|
  {
    if |s| > 0 && IsDigit(s[0]) {
      DigitsShrink(Shift(acc, DigitValue(s[0])), s[1..]);
    }
  }

  /** The number the leading digits stand for, behind a. */
  function DigitsValue(a: nat, s: string): nat
    decreases |s|
  {
    if |s| == 0 || !IsDigit(s[0]) then a else DigitsValue(10 * a + DigitValue(s[0]), s[1..])
  }

  lemma {:induction false} ShiftWraps(a: nat, d: nat)
    requires d < 10
    ensures Shift(Wrap(a), d) == Wrap(10 * a + d)
  {
    var m := 0x1_0000_0000_0000_0000;
    var k := (a + 0x8000_0000_0000_0000) / m;
    assert Wrap(a) == a - k * m;
    var j := (Wrap(a) * 10 + 0x8000_0000_0000_0000) / m;
    assert Wrap(Wrap(a) * 10) == Wrap(a) * 10 - j * m;
    WrapMultiple(10 * a + d, -10 * k - j);
  }

  lemma {:induction false} WrapMultiple(x: int, k: int)
    ensures Wrap(x + k * 0x1_0000_0000_0000_0000) == Wrap(x)
  {
  }

  /** Accumulating digits gives the number they stand for, wrapped to 64 bits. */
  lemma {:induction false} DigitsWrap(a: nat, s: string)
    ensures Digits(Wrap(a), s).0 == Wrap(DigitsValue(a, s))
    decreases |s|
  {
    if |s| > 0 && IsDigit(s[0]) {
      ShiftWraps(a, DigitValue(s[0]));
      DigitsWrap(10 * a + DigitValue(s[0]), s[1..]);
    }
  }

  /** What parses as a number is the value of its digits exactly when that is below 2^63. */
  lemma {:induction false} NumberExactIff(s: string)
    requires |s| > 0 && IsDigit(s[0])
    ensures Number(s).Ok? && (Number(s).value == DigitsValue(0, s) <==> DigitsValue(0, s) < 0x8000_0000_0000_0000)
  {
    var d := DigitValue(s[0]);
    assert Wrap(d) == d;
    DigitsWrap(d, s[1..]);
  }

  function Number(s: string): Parsed<int> {
    if |s| == 0 || !IsDigit(s[0]) then Fail
    else var (n, rest) := Digits(DigitValue(s[0]), s[1..]); Ok(n, rest)
  }

  /** "*" or a non-zero number. */
  function SeqNumber(s: string): Parsed<nat> {
    if |s| > 0 && s[0] == '*' then Ok(Selection.ASTERISK, s[1..]) else
    match Number(s)
    case Fail => Fail
    case Ok(n, rest) => if n <= 0 then Fail else Ok(n, rest)
  }

  /** "*", or digits that stand for a positive number after the wrap-around; nothing else is a number of a set. */
  lemma {:induction false} SeqNumberMeaning(s: string)
    ensures SeqNumber(s).Ok? <==> |s| > 0 && (s[0] == '*' || (IsDigit(s[0]) && Wrap(DigitsValue(0, s)) > 0))
    ensures SeqNumber(s).Ok? ==>
              SeqNumber(s).value == if s[0] == '*' then Selection.ASTERISK else Wrap(DigitsValue(0, s))
  {
    if |s| > 0 && IsDigit(s[0]) {
      var d := DigitValue(s[0]);
      assert Wrap(d) == d;
      DigitsWrap(d, s[1..]);
    }
  }

  lemma {:induction false} SeqNumberShrinks(s: string)
    ensures SeqNumber(s).Ok? ==> |SeqNumber(s).rest| < |s|
  {
    if |s| > 0 && IsDigit(s[0]) {
      DigitsShrink(DigitValue(s[0]), s[1..]);
    }
  }

  function Range(s: string): Parsed<(nat, nat)> {
    match SeqNumber(s)
    case Fail => Fail
    case Ok(b, r) =>
      if |r| == 0 || r[0] != ':' then Ok((b, b), r) else
      match SeqNumber(r[1..])
      case Fail => Fail
      case Ok(e, r2) => Ok((b, e), r2)
  }

  lemma {:induction false} RangeShrinks(s: string)
    ensures Range(s).Ok? ==> |Range(s).rest| < |s|
  {
    SeqNumberShrinks(s);
    if SeqNumber(s).Ok? && |SeqNumber(s).rest| > 0 {
      SeqNumberShrinks(SeqNumber(s).rest[1..]);
    }
  }

  /** The ranges after the first one. */
  function MoreRanges(s: string): Parsed<seq<(nat, nat)>>
    decreases |s|
  {
    if |s| == 0 || s[0] != ',' then Ok([], s) else
    RangeShrinks(s[1..]);
    match Range(s[1..])
    case Fail => Fail
    case Ok(x, r) =>
      match MoreRanges(r)
      case Fail => Fail
      case Ok(xs, r2) => Ok([x] + xs, r2)
  }

  function Set(s: string): Parsed<seq<(nat, nat)>> {
    match Range(s)
    case Fail => Fail
    case Ok(x, r) =>
      match MoreRanges(r)
      case Fail => Fail
      case Ok(xs, r2) => Ok([x] + xs, r2)
  }

  /** A method's result and the text it leaves are what the grammar says. */
  ghost predicate Agrees<T>(p: Parsed<T>, r: Option<T>, rest: string) {
    match p
    case Fail => r.None?
    case Ok(v, t) => r == Some(v) && rest == t
  }

  /** Parser and scanner: the current token is one byte ahead of what has been consumed. */
  class Parser {
    const source: string
    var offset: nat
    var current: Token
    var previous: Token
    ghost var rest: string  // the text not consumed yet, starting with the current token

    ghost predicate Valid()
      reads this
    {
      && offset <= |source|
      && (current.ttype == TokEof ==> offset == |source| && rest == [])
      && (current.ttype != TokEof ==> 0 < offset && rest == source[offset - 1..])
      && (|rest| > 0 ==> current == Token(Classify(rest[0]), rest[0]))
    }

    /** The first Advance loads the first token. */
    constructor (source: string)
      ensures Valid() && rest == source
    {
      this.source, this.rest := source, source;
      this.previous := Token(TokEof, ' ');
      if |source| == 0 {
        this.offset, this.current := 0, Token(TokEof, ' ');
      } else {
        this.offset, this.current := 1, Token(Classify(source[0]), source[0]);
      }
    }

    /** At the end of the input the current token stays the end token. */
    method Advance()
      requires Valid()
      modifies this
      ensures Valid() && previous == old(current)
      ensures rest == if |old(rest)| > 0 then old(rest)[1..] else []
    {
      previous := current;
      rest := if |rest| > 0 then rest[1..] else [];
      if offset < |source| {
        current := Token(Classify(source[offset]), source[offset]);
        offset := offset + 1;
      } else {
        current := Token(TokEof, ' ');
      }
    }

    method Matches(t: TokenType) returns (ok: bool)
      requires Valid()
      modifies this
      ensures Valid()
      ensures ok <==> t == if |old(rest)| > 0 then Classify(old(rest)[0]) else TokEof
      ensures ok && |old(rest)| > 0 ==> rest == old(rest)[1..] && previous.value == old(rest)[0]
      ensures !ok || |old(rest)| == 0 ==> rest == old(rest)
    {
      if current.ttype != t {
        return false;
      }
      Advance();
      return true;
    }

    /** None is a parse error. */
    method ParseNumber() returns (r: Option<int>)
      requires Valid()
      modifies this
      ensures Valid() && Agrees(Number(old(rest)), r, rest)
    {
      var ok := Matches(TokDigit);
      if !ok {
        return None;
      }
      var number: int := DigitValue(previous.value);
      ghost var whole := Digits(number, rest);
      while true
        invariant Valid() && Digits(number, rest) == whole
        decreases |rest|
      {
        ok := Matches(TokDigit);
        if !ok {
          break;
        }
        number := Wrap(number * 10);
        number := Wrap(number + DigitValue(previous.value));
      }
      return Some(number);
    }

    method ParseSeqNumber() returns (r: Option<nat>)
      requires Valid()
      modifies this
      ensures Valid() && Agrees(SeqNumber(old(rest)), r, rest)
    {
      var star := Matches(TokAsterisk);
      if star {
        return Some(Selection.ASTERISK);
      }
      var n := ParseNumber();
      if n.None? || n.value <= 0 {
        return None;
      }
      return Some(n.value);
    }

    method ParseSeqRange() returns (r: Option<(nat, nat)>)
      requires Valid()
      modifies this
      ensures Valid() && Agrees(Range(old(rest)), r, rest)
    {
      var begin := ParseSeqNumber();
      if begin.None? {
        return None;
      }
      var colon := Matches(TokColon);
      if !colon {
        return Some((begin.value, begin.value));
      }
      var end := ParseSeqNumber();
      if end.None? {
        return None;
      }
      return Some((begin.value, end.value));
    }

    /** A comma and the range it promises, if there is a comma. */
    method ParseNextRange() returns (comma: bool, next: Option<(nat, nat)>)
      requires Valid()
      modifies this
      ensures Valid() && (comma <==> |old(rest)| > 0 && old(rest)[0] == ',')
      ensures !comma ==> rest == old(rest)
      ensures comma ==> Agrees(Range(old(rest)[1..]), next, rest) && (next.Some? ==> |rest| < |old(rest)|)
    {
      comma := Matches(TokComma);
      if !comma {
        return false, None;
      }
      RangeShrinks(rest);
      next := ParseSeqRange();
    }

    method ParseSeqSet() returns (r: Option<seq<(nat, nat)>>)
      requires Valid()
      modifies this
      ensures Valid() && Agrees(Set(old(rest)), r, rest)
    {
      ghost var whole := Set(rest);
      SetIsPrefixed(rest);
      var first := ParseSeqRange();
      if first.None? {
        return None;
      }
      var result := [first.value];
      while true
        invariant Valid() && whole == Prefixed(result, MoreRanges(rest))
        decreases |rest|
      {
        MoreOne(result, rest);
        var comma, next := ParseNextRange();
        if !comma {
          return Some(result);
        }
        if next.None? {
          return None;
        }
        result := result + [next.value];
      }
    }
  }

  function Prefixed(xs: seq<(nat, nat)>, p: Parsed<seq<(nat, nat)>>): Parsed<seq<(nat, nat)>> {
    match p
    case Fail => Fail
    case Ok(ys, rest) => Ok(xs + ys, rest)
  }

  lemma {:induction false} SetIsPrefixed(s: string)
    ensures Set(s) == if Range(s).Fail? then Fail else Prefixed([Range(s).value], MoreRanges(Range(s).rest))
  {
  }

  lemma {:induction false} MoreCons(s: string, x: (nat, nat), rest: string, xs: seq<(nat, nat)>, t: string)
    requires |s| > 0 && s[0] == ',' && Range(s[1..]) == Ok(x, rest) && MoreRanges(rest) == Ok(xs, t)
    ensures MoreRanges(s) == Ok([x] + xs, t)
  {
    RangeShrinks(s[1..]);
  }

  lemma {:induction false} MoreOne(xs: seq<(nat, nat)>, s: string)
    ensures Prefixed(xs, MoreRanges(s)) ==
            if |s| == 0 || s[0] != ',' then Ok(xs, s)
            else if Range(s[1..]).Fail? then Fail
            else Prefixed(xs + [Range(s[1..]).value], MoreRanges(Range(s[1..]).rest))
  {
    if |s| == 0 || s[0] != ',' {
      assert xs + [] == xs;
    } else if Range(s[1..]).Ok? {
      RangeShrinks(s[1..]);
      var x, rest := Range(s[1..]).value, Range(s[1..]).rest;
      if MoreRanges(rest).Ok? {
        assert xs + ([x] + MoreRanges(rest).value) == (xs + [x]) + MoreRanges(rest).value;
      }
    }
  }

  // ----- printing

  function DigitChar(d: nat): (c: char)
    requires d < 10
    ensures IsDigit(c) && DigitValue(c) == d
  {
    '0' + d as char
  }

  function Decimal(n: nat): (s: string)
    ensures |s| > 0 && IsDigit(s[0])
  {
    if n < 10 then [DigitChar(n)] else Decimal(n / 10) + [DigitChar(n % 10)]
  }

  /** SeqVal.String. */
  function PrintVal(v: SeqVal): string {
    if v.end > v.begin then Decimal(v.begin) + ":" + Decimal(v.end) else Decimal(v.end)
  }

  function PrintMore(vs: seq<SeqVal>): string {
    if |vs| == 0 then "" else "," + PrintVal(vs[0]) + PrintMore(vs[1..])
  }

  /** SeqSet.String: the ranges joined by commas. */
  function Print(vs: seq<SeqVal>): string {
    if |vs| == 0 then "" else PrintVal(vs[0]) + PrintMore(vs[1..])
  }

  method PrintSet(vs: seq<SeqVal>) returns (out: string)
    ensures out == Print(vs)
  {
    hide PrintVal;
    out := "";
    for i := 0 to |vs|
      invariant i == 0 ==> out == ""
      invariant i > 0 ==> out + PrintMore(vs[i..]) == Print(vs)
    {
      assert vs[i..][1..] == vs[i + 1..];
      if i > 0 {
        out := out + ("," + PrintVal(vs[i]));
        assert out + PrintMore(vs[i + 1..]) == Print(vs);
      } else {
        out := PrintVal(vs[i]);
      }
    }
    assert out + "" == out;
  }

  // ----- reading back what was printed

  lemma {:induction false} DecimalReads(n: nat, t: string)
    requires n < 0x8000_0000_0000_0000
    ensures Digits(0, Decimal(n) + t) == Digits(n, t)
    decreases n
  {
    hide Shift;
    if n < 10 {
      ShiftSmall(n);
      assert (Decimal(n) + t)[1..] == t;
    } else {
      var d := [DigitChar(n % 10)];
      assert Decimal(n) + t == Decimal(n / 10) + (d + t);
      DecimalReads(n / 10, d + t);
      assert (d + t)[1..] == t;
      ShiftSmall(n);
    }
  }

  lemma {:induction false} ShiftSmall(n: nat)
    requires n < 0x8000_0000_0000_0000
    ensures Shift(n / 10, n % 10) == n
  {
  }

  /** The text goes on with something a number, range or set does not contain. */
  predicate Ends(t: string, stop: set<char>) {
    |t| == 0 || (!IsDigit(t[0]) && t[0] !in stop)
  }

  lemma {:induction false} NumberReads(n: nat, t: string)
    requires 0 < n < 0x8000_0000_0000_0000 && Ends(t, {})
    ensures SeqNumber(Decimal(n) + t) == Ok(n, t)
  {
    var s := Decimal(n) + t;
    DecimalReads(n, t);
    assert s[0] == Decimal(n)[0];
    assert Digits(0, s) == Digits(DigitValue(s[0]), s[1..]);
  }

  lemma {:induction false} RangeReads(v: SeqVal, t: string)
    requires v.begin <= v.end && Ends(t, {':'})
    ensures Range(PrintVal(v) + t) == Ok((v.begin, v.end), t)
  {
    if v.end > v.begin {
      var r := ":" + (Decimal(v.end) + t);
      assert PrintVal(v) + t == Decimal(v.begin) + r && r[1..] == Decimal(v.end) + t;
      NumberReads(v.begin, r);
      NumberReads(v.end, t);
    } else {
      NumberReads(v.end, t);
    }
  }

  function Pairs(vs: seq<SeqVal>): (ps: seq<(nat, nat)>)
    ensures |ps| == |vs| && forall i :: 0 <= i < |vs| ==> ps[i] == (vs[i].begin, vs[i].end)
  {
    seq(|vs|, i requires 0 <= i < |vs| => (vs[i].begin, vs[i].end))
  }

  lemma {:induction false} MoreEnds(vs: seq<SeqVal>, t: string)
    requires Ends(t, {':', ','})
    ensures Ends(PrintMore(vs) + t, {':'})
  {
    if |vs| == 0 {
      assert PrintMore(vs) + t == t;
    } else {
      assert (PrintMore(vs) + t)[0] == ',';
    }
  }

  lemma {:induction false} MoreText(vs: seq<SeqVal>, t: string)
    requires |vs| > 0
    ensures PrintMore(vs) + t == "," + (PrintVal(vs[0]) + (PrintMore(vs[1..]) + t))
  {
    var v, m := PrintVal(vs[0]), PrintMore(vs[1..]);
    assert "," + v + m + t == "," + (v + (m + t));
  }

  lemma {:induction false} PairsCons(vs: seq<SeqVal>)
    requires |vs| > 0
    ensures Pairs(vs) == [(vs[0].begin, vs[0].end)] + Pairs(vs[1..])
  {
  }

  lemma {:induction false} MoreReads(vs: seq<SeqVal>, t: string)
    requires Proper(vs) && Ends(t, {':', ','})
    ensures MoreRanges(PrintMore(vs) + t) == Ok(Pairs(vs), t)
  {
    if |vs| == 0 {
      assert PrintMore(vs) + t == t && Pairs(vs) == [];
    } else {
      var rest := PrintMore(vs[1..]) + t;
      MoreReads(vs[1..], t);
      MoreEnds(vs[1..], t);
      var s := "," + (PrintVal(vs[0]) + rest);
      MoreText(vs, t);
      PairsCons(vs);
      assert s[1..] == PrintVal(vs[0]) + rest;
      RangeReads(vs[0], rest);
      MoreCons(s, (vs[0].begin, vs[0].end), rest, Pairs(vs[1..]), t);
    }
  }

  lemma {:induction false} PrintReads(vs: seq<SeqVal>, t: string)
    requires Proper(vs) && |vs| > 0 && Ends(t, {':', ','})
    ensures Set(Print(vs) + t) == Ok(Pairs(vs), t)
  {
    var rest := PrintMore(vs[1..]) + t;
    MoreEnds(vs[1..], t);
    assert Print(vs) + t == PrintVal(vs[0]) + rest;
    RangeReads(vs[0], rest);
    MoreReads(vs[1..], t);
    PairsCons(vs);
  }

  // ----- reading sets with "*"

  /** A number of a set that has a text: "*" or a positive number that a 64-bit integer holds. */
  predicate Writable(n: nat) {
    n == Selection.ASTERISK || n < 0x8000_0000_0000_0000
  }

  /** SeqNum.String. */
  function WriteNumber(n: nat): (s: string)
    ensures |s| > 0 && (s[0] == '*' || IsDigit(s[0]))
  {
    if n == Selection.ASTERISK then "*" else Decimal(n)
  }

  /** A written range: "n:m" in either order, or the short form "n" of "n:n". */
  datatype Spelling = Pair(begin: nat, end: nat) | Single(only: nat) {
    function Range(): Selection.SeqRange {
      match this
      case Pair(b, e) => Selection.SeqRange(b, e)
      case Single(n) => Selection.SeqRange(n, n)
    }

    function Text(): string {
      match this
      case Pair(b, e) => WriteNumber(b) + ":" + WriteNumber(e)
      case Single(n) => WriteNumber(n)
    }

    predicate Fits() {
      Writable(Range().begin) && Writable(Range().end)
    }
  }

  function SpellMore(xs: seq<Spelling>): string {
    if |xs| == 0 then "" else "," + xs[0].Text() + SpellMore(xs[1..])
  }

  function Spell(xs: seq<Spelling>): string {
    if |xs| == 0 then "" else xs[0].Text() + SpellMore(xs[1..])
  }

  function Bounds(xs: seq<Spelling>): (ps: seq<(nat, nat)>)
    ensures |ps| == |xs| && forall i :: 0 <= i < |xs| ==> ps[i] == (xs[i].Range().begin, xs[i].Range().end)
  {
    seq(|xs|, i requires 0 <= i < |xs| => (xs[i].Range().begin, xs[i].Range().end))
  }

  lemma {:induction false} WrittenReads(n: nat, t: string)
    requires Writable(n) && Ends(t, {})
    ensures SeqNumber(WriteNumber(n) + t) == Ok(n, t)
  {
    if n == Selection.ASTERISK {
      assert ("*" + t)[1..] == t;
    } else {
      NumberReads(n, t);
    }
  }

  lemma {:induction false} SpellingReads(x: Spelling, t: string)
    requires x.Fits() && Ends(t, {':'})
    ensures Range(x.Text() + t) == Ok((x.Range().begin, x.Range().end), t)
  {
    hide SeqNumber, WriteNumber;
    match x {
      case Pair(b, e) =>
        var r := ":" + (WriteNumber(e) + t);
        assert x.Text() + t == WriteNumber(b) + r && r[1..] == WriteNumber(e) + t;
        WrittenReads(b, r);
        WrittenReads(e, t);
      case Single(n) =>
        WrittenReads(n, t);
    }
  }

  lemma {:induction false} SpellMoreEnds(xs: seq<Spelling>, t: string)
    requires Ends(t, {':', ','})
    ensures Ends(SpellMore(xs) + t, {':'})
  {
    if |xs| == 0 {
      assert SpellMore(xs) + t == t;
    } else {
      assert (SpellMore(xs) + t)[0] == ',';
    }
  }

  lemma {:induction false} BoundsCons(xs: seq<Spelling>)
    requires |xs| > 0
    ensures Bounds(xs) == [(xs[0].Range().begin, xs[0].Range().end)] + Bounds(xs[1..])
  {
  }

  lemma {:induction false} SpellMoreReads(xs: seq<Spelling>, t: string)
    requires (forall x :: x in xs ==> x.Fits()) && Ends(t, {':', ','})
    ensures MoreRanges(SpellMore(xs) + t) == Ok(Bounds(xs), t)
  {
    if |xs| == 0 {
      assert SpellMore(xs) + t == t && Bounds(xs) == [];
    } else {
      hide Range, MoreRanges;
      var x, rest := xs[0], SpellMore(xs[1..]) + t;
      SpellMoreReads(xs[1..], t);
      SpellMoreEnds(xs[1..], t);
      var s := "," + (x.Text() + rest);
      assert SpellMore(xs) + t == s && s[1..] == x.Text() + rest;
      BoundsCons(xs);
      SpellingReads(x, rest);
      MoreCons(s, (x.Range().begin, x.Range().end), rest, Bounds(xs[1..]), t);
    }
  }

  /** Any set of numbers and asterisks, single or in pairs of either order, is read as exactly its ranges. */
  lemma {:induction false} SpellReads(xs: seq<Spelling>, t: string)
    requires |xs| > 0 && (forall x :: x in xs ==> x.Fits()) && Ends(t, {':', ','})
    ensures Set(Spell(xs) + t) == Ok(Bounds(xs), t)
  {
    var rest := SpellMore(xs[1..]) + t;
    SpellMoreEnds(xs[1..], t);
    assert Spell(xs) + t == xs[0].Text() + rest;
    SpellingReads(xs[0], rest);
    SpellMoreReads(xs[1..], t);
    BoundsCons(xs);
  }

  /**
   * Printing a list of numbers as a sequence set and parsing it back, whatever text follows, gives ranges that stand
   * for exactly the list, sorted; no two of them can be joined when the numbers are distinct.
   */
  lemma {:induction false} SeqSetRoundTrip(xs: seq<SeqId>, t: string)
    requires |xs| > 0 && Ends(t, {':', ','})
    ensures var vs := Build(Sorted(xs));
            && Set(Print(vs) + t) == Ok(Pairs(vs), t)
            && Expand(vs) == Sorted(xs) && multiset(Expand(vs)) == multiset(xs)
            && (NoRepeat(xs) ==> Compact(vs))
  {
    if NoRepeat(xs) {
      SeqSetCompact(xs);
    }
    BuildExpands(Sorted(xs));
    SortedPermutes(xs);
    PrintReads(Build(Sorted(xs)), t);
  }
}

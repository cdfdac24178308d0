/** rfc822/scanner.go and writer.go: splitting a multipart body at its boundary lines (section 5.1.1 of RFC 2046). */
module Multipart {
  import opened Base
  import opened Bytes

  const DASHES: Text := [DASH, DASH]
  const CRLF: Text := [CR, LF]

  /** A part with the position it is reported at. */
  datatype Part = Part(data: Text, offset: nat)

  /** Closed by a boundary line, or what is left when no boundary follows. */
  datatype Piece = Nothing | Closed(start: nat, end: nat) | Tail(from: nat)

  datatype Read = Read(piece: Piece, more: bool, progress: nat)

  /** The line break right after a boundary, behind any number of CRs; -1 when there is none. */
  function NewLineAfter(s: Text): (i: int)
    ensures -1 <= i < |s|
    ensures i >= 0 ==> s[i] == LF && forall j :: 0 <= j < i ==> s[j] == CR
  {
    if |s| == 0 then -1
    else if s[0] == LF then 0
    else if s[0] == CR then (var i := NewLineAfter(s[1..]); if i < 0 then -1 else i + 1)
    else -1
  }

  /** Length of the line break that ends right before `at`, or -1 when `at` is in mid-line. */
  function BreakBefore(s: Text, progress: nat, at: nat): (n: int)
    requires progress <= at <= |s|
    ensures -1 <= n <= at - progress
  {
    if progress == at then 0
    else if s[at - 1] == LF then (if at - progress >= 2 && s[at - 2] == CR then 2 else 1)
    else -1
  }

  /** One round of readToBoundary's loop: the read it ends with, or where to go on searching. */
  datatype Look = Stop(read: Read) | Skip(to: nat)

  function LookAt(s: Text, b: Text, start: nat, progress: nat): (l: Look)
    requires |b| > 0 && start <= progress < |s|
    ensures l.Skip? ==> progress < l.to
    ensures l.Stop? ==> l.read.progress <= |s| + 1
    ensures l.Stop? && l.read.more ==> progress < l.read.progress <= |s| && l.read.piece.Closed?
    ensures l.Stop? && l.read.piece.Closed? ==>
      start == l.read.piece.start <= l.read.piece.end < l.read.progress && l.read.piece.end <= |s|
    ensures l.Stop? ==> !l.read.piece.Nothing?
    ensures l.Stop? && l.read.piece.Tail? ==> progress == l.read.piece.from
  {
    var at := IndexFrom(s, b, progress);
    if at < 0 then Stop(Read(Tail(progress), false, |s|)) else
    var breakLen := BreakBefore(s, progress, at);
    var end := at + |b|;
    if breakLen < 0 then Skip(end)
    else if At(s, DASHES, end) then
      var k := if end + 2 == |s| then 0 else NewLineAfter(s[end + 2..]);
      if k < 0 then Skip(end + 2) else Stop(Read(Closed(start, at - breakLen), false, end + 2 + k + 1))
    else
      var k := NewLineAfter(s[end..]);
      if k < 0 then Skip(end) else Stop(Read(Closed(start, at - breakLen), true, end + k + 1))
  }

  /** readToBoundary: scans from `progress` for the boundary line that closes the part begun at `start`. */
  function ReadFrom(s: Text, b: Text, start: nat, progress: nat): (r: Read)
    requires |b| > 0 && start <= progress
    ensures r.more ==> progress < r.progress <= |s| && r.piece.Closed?
    ensures r.piece.Closed? ==> start == r.piece.start <= r.piece.end < r.progress && r.piece.end <= |s|
    ensures r.piece.Tail? ==> progress <= r.piece.from < |s| && !r.more
    decreases |s| - progress
  {
    if progress >= |s| then Read(Nothing, false, progress) else
    match LookAt(s, b, start, progress)
    case Stop(r) => r
    case Skip(to) => ReadFrom(s, b, start, to)
  }

  function Reported(s: Text, r: Read, offset: nat): seq<Part>
    requires r.piece.Closed? ==> r.piece.start <= r.piece.end <= |s|
    requires r.piece.Tail? ==> r.piece.from <= |s|
  {
    match r.piece
    case Nothing => []
    case Closed(i, j) => [Part(s[i..j], offset)]
    case Tail(i) => [Part(s[i..], offset)]
  }

  function ScanFrom(s: Text, b: Text, progress: nat): seq<Part>
    requires |b| > 0
    decreases |s| - progress
  {
    var r := ReadFrom(s, b, progress, progress);
    Reported(s, r, progress) + if r.more then ScanFrom(s, b, r.progress) else []
  }

  lemma {:induction false} ScanStep(parts: seq<Part>, s: Text, b: Text, p: nat)
    requires |b| > 0
    ensures var r := ReadFrom(s, b, p, p);
            parts + ScanFrom(s, b, p) ==
            if r.more then (parts + Reported(s, r, p)) + ScanFrom(s, b, r.progress) else parts + Reported(s, r, p)
  {
  }

  class ByteScanner {
    const data: Text
    const startBoundary: Text
    var progress: nat

    /** Skips the preamble: everything up to and including the first boundary line. */
    constructor (data: Text, boundary: Text)
      ensures this.data == data && startBoundary == DASHES + boundary
      ensures progress == ReadFrom(data, DASHES + boundary, 0, 0).progress
    {
      this.data, this.startBoundary, this.progress := data, DASHES + boundary, 0;
      new;
      var _, _ := ReadToBoundary();
    }

    /** The body of the loop. */
    method LookOnce(searchStart: nat) returns (l: Look)
      requires |startBoundary| > 0 && searchStart <= progress < |data|
      ensures l == LookAt(data, startBoundary, searchStart, progress)
    {
      var at := IndexFrom(data, startBoundary, progress);
      if at < 0 {
        return Stop(Read(Tail(progress), false, |data|));
      }
      var breakLen := BreakBefore(data, progress, at);
      var end := at + |startBoundary|;
      if breakLen == -1 {
        return Skip(end);
      }
      if At(data, DASHES, end) {
        var newLine := 0;
        var after := data[end + 2..];
        if |after| != 0 {
          newLine := NewLineAfter(after);
          if newLine < 0 {
            return Skip(end + 2);
          }
        }
        return Stop(Read(Closed(searchStart, at - breakLen), false, end + 2 + newLine + 1));
      }
      var newLine := NewLineAfter(data[end..]);
      if newLine < 0 {
        return Skip(end);
      }
      return Stop(Read(Closed(searchStart, at - breakLen), true, end + newLine + 1));
    }

    method ReadToBoundary() returns (piece: Piece, more: bool)
      requires |startBoundary| > 0
      modifies this
      ensures Read(piece, more, progress) == ReadFrom(data, startBoundary, old(progress), old(progress))
    {
      var searchStart := progress;
      ghost var whole := ReadFrom(data, startBoundary, searchStart, searchStart);
      while progress < |data|
        invariant searchStart <= progress
        invariant ReadFrom(data, startBoundary, searchStart, progress) == whole
        decreases |data| - progress
      {
        var look := LookOnce(searchStart);
        match look {
          case Stop(r) =>
            progress := r.progress;
            return r.piece, r.more;
          case Skip(to) =>
            progress := to;
        }
      }
      return Nothing, false;
    }

    method ScanAll() returns (parts: seq<Part>)
      requires |startBoundary| > 0
      modifies this
      ensures parts == ScanFrom(data, startBoundary, old(progress))
    {
      parts := [];
      ghost var whole := ScanFrom(data, startBoundary, progress);
      while true
        invariant parts + ScanFrom(data, startBoundary, progress) == whole
        decreases |data| - progress
      {
        ScanStep(parts, data, startBoundary, progress);
        var offset := progress;
        var piece, more := ReadToBoundary();
        parts := parts + Reported(data, Read(piece, more, progress), offset);
        if !more {
          return;
        }
      }
    }
  }

  // ----- scanning any bytes

  /** The part lies in the input at its offset. */
  ghost predicate Exact(s: Text, p: Part) {
    p.offset + |p.data| <= |s| && s[p.offset..p.offset + |p.data|] == p.data
  }

  /**
   * Every part is inside the input and ends before the next. Every part that a boundary line closes, the last one too,
   * is exactly the input at its offset, and every part but the last is closed by one.
   */
  lemma {:induction false} ScanLayout(s: Text, b: Text, p: nat, k: nat)
    requires |b| > 0 && k < |ScanFrom(s, b, p)|
    ensures var ps := ScanFrom(s, b, p);
            && p <= ps[k].offset && ps[k].offset + |ps[k].data| <= |s|
            && (ReadFrom(s, b, ps[k].offset, ps[k].offset).piece.Closed? ==> Exact(s, ps[k]))
            && (k + 1 < |ps| ==> ReadFrom(s, b, ps[k].offset, ps[k].offset).piece.Closed?
                                 && ps[k].offset + |ps[k].data| < ps[k + 1].offset)
    decreases |s| - p
  {
    var r := ReadFrom(s, b, p, p);
    if r.more {
      var rest := ScanFrom(s, b, r.progress);
      assert ScanFrom(s, b, p) == Reported(s, r, p) + rest;
      if k > 0 {
        ScanLayout(s, b, r.progress, k - 1);
      } else if |rest| > 0 {
        ScanLayout(s, b, r.progress, 0);
      }
    }
  }

  /**
   * From any position, the rest of the input comes out as one part, whole and at its offset, exactly when the boundary
   * string does not occur in it. Otherwise what no boundary line closes loses its front, up to the last rejected
   * occurrence, or is lost altogether.
   */
  lemma {:induction false} TailExactIff(s: Text, b: Text, p: nat)
    requires |b| > 0 && p < |s|
    ensures ScanFrom(s, b, p) == [Part(s[p..], p)] <==> IndexFrom(s, b, p) < 0
  {
    var r := ReadFrom(s, b, p, p);
    assert IndexFrom(s, b, p) < 0 ==> r.piece == Tail(p);
    match r.piece {
      case Tail(from) =>
        assert ScanFrom(s, b, p) == [Part(s[from..], p)];
        assert |s[from..]| == |s| - from && |s[p..]| == |s| - p;
        assert IndexFrom(s, b, p) >= 0 ==> from > p;
      case Closed(start, end) =>
        ClosedEndsBefore(s, b, p, p);
        assert ScanFrom(s, b, p)[0] == Part(s[start..end], p);
        assert |s[start..end]| < |s[p..]|;
      case Nothing =>
        assert ScanFrom(s, b, p) == [];
    }
  }

  /** A boundary line stands between a closed part and the end of the input. */
  lemma {:induction false} ClosedEndsBefore(s: Text, b: Text, start: nat, p: nat)
    requires |b| > 0 && start <= p && ReadFrom(s, b, start, p).piece.Closed?
    ensures ReadFrom(s, b, start, p).piece.end < |s|
    decreases |s| - p
  {
    var l := LookAt(s, b, start, p);
    if l.Skip? {
      ClosedEndsBefore(s, b, start, l.to);
    }
  }

  /** Nothing comes out when the rejected boundary string ends the input. */
  lemma {:induction false} TailLost(b: Text, x: Byte)
    requires |b| > 1 && x != LF && x != b[0]
    ensures ScanFrom([x] + b, b, 0) == []
  {
    var s := [x] + b;
    assert s[0] != b[0] && !At(s, b, 0);
    assert At(s, b, 1);
    IndexUnique(s, b, 0, 1);
    assert LookAt(s, b, 0, 0) == Skip(|s|);
    assert ReadFrom(s, b, 0, |s|) == Read(Nothing, false, |s|);
    assert ReadFrom(s, b, 0, 0) == Read(Nothing, false, |s|);
  }

  /** Such a part: the text before a boundary string in mid-line, and that string, are dropped. */
  lemma {:induction false} TailLosesFront(b: Text, x: Byte, y: Byte)
    requires |b| > 1 && x != LF && x != b[0]
    ensures ScanFrom([x] + b + [y], b, 0) == [Part([y], 0)]
  {
    var s := [x] + b + [y];
    assert s[0] != b[0] && !At(s, b, 0);
    assert At(s, b, 1);
    IndexUnique(s, b, 0, 1);
    var k := 1 + |b|;
    assert LookAt(s, b, 0, 0) == Skip(k);
    assert IndexFrom(s, b, k) == -1;
    assert ReadFrom(s, b, 0, k) == Read(Tail(k), false, |s|);
    assert s[k..] == [y];
  }

  // ----- boundary lines by their bytes

  /** From k, nothing but CRs up to a line feed; n is behind it. */
  ghost predicate LineEnds(s: Text, k: nat, n: nat) {
    k < n <= |s| && s[n - 1] == LF && forall j :: k <= j < n - 1 ==> s[j] == CR
  }

  /** What may stand behind a boundary: the end of its line, or two dashes and the end of the line or of the input. */
  ghost predicate Tailed(s: Text, k: nat, more: bool, n: nat) {
    if more then LineEnds(s, k, n)
    else At(s, DASHES, k) && (LineEnds(s, k + 2, n) || (k + 2 == |s| && n == |s| + 1))
  }

  ghost predicate EndsWell(s: Text, k: nat) {
    exists more, n :: Tailed(s, k, more, n)
  }

  predicate StartsLine(s: Text, p: nat, at: nat) {
    at == p || (p < at <= |s| && s[at - 1] == LF)
  }

  /** A line from p on that holds the boundary and nothing else but the closing dashes. */
  ghost predicate Line(s: Text, b: Text, p: nat, at: nat) {
    p <= at && At(s, b, at) && StartsLine(s, p, at) && EndsWell(s, at + |b|)
  }

  /** Where the text before a boundary at `at` ends: without its line break, if that is behind p. */
  function TextEnd(s: Text, p: nat, at: nat): nat
    requires p <= at <= |s|
  {
    if at == p || s[at - 1] != LF then at
    else if at - p >= 2 && s[at - 2] == CR then at - 2
    else at - 1
  }

  /** The piece from p is closed by the boundary at `at`. */
  ghost predicate ClosedBy(s: Text, b: Text, p: nat, at: nat, r: Read) {
    && p <= at && At(s, b, at)
    && r.piece == Closed(p, TextEnd(s, p, at)) && Tailed(s, at + |b|, r.more, r.progress)
  }

  /** `at` directly follows an earlier boundary string, or its two dashes. */
  ghost predicate Follows(s: Text, b: Text, p: nat, at: nat) {
    exists q: nat :: p <= q && At(s, b, q) && (q + |b| == at || (At(s, DASHES, q + |b|) && q + |b| + 2 == at))
  }

  ghost predicate NoLine(s: Text, b: Text, p: nat, to: nat) {
    forall q: nat :: p <= q < to ==> !Line(s, b, p, q)
  }

  lemma {:induction false} NewLineIff(s: Text, k: nat, n: nat)
    requires k <= |s|
    ensures LineEnds(s, k, n) <==> NewLineAfter(s[k..]) >= 0 && n == k + NewLineAfter(s[k..]) + 1
    decreases |s| - k
  {
    if k < |s| {
      assert s[k..][1..] == s[k + 1..];
      if s[k] == CR {
        NewLineIff(s, k + 1, n);
        assert LineEnds(s, k, n) <==> LineEnds(s, k + 1, n);
      } else if s[k] == LF {
        assert LineEnds(s, k, k + 1);
      } else {
        assert s[k..][0] == s[k];
      }
    }
  }

  /** What LookAt looks for behind a boundary. */
  lemma {:induction false} TailIff(s: Text, k: nat, more: bool, n: nat)
    requires k <= |s|
    ensures Tailed(s, k, more, n) <==>
            if At(s, DASHES, k) then
              (!more && (if k + 2 == |s| then n == |s| + 1
                         else NewLineAfter(s[k + 2..]) >= 0 && n == k + 2 + NewLineAfter(s[k + 2..]) + 1))
            else more && NewLineAfter(s[k..]) >= 0 && n == k + NewLineAfter(s[k..]) + 1
  {
    NewLineIff(s, k, n);
    if At(s, DASHES, k) {
      assert s[k..k + 2][0] == s[k];
      NewLineIff(s, k + 2, n);
    }
  }

  lemma {:induction false} OccurrenceByte(s: Text, b: Text, q: nat, i: nat)
    requires At(s, b, q) && i < |b|
    ensures s[q + i] == b[i]
  {
    assert s[q..q + |b|][i] == b[i];
  }

  /** No boundary line begins inside or right behind a boundary string and its dashes. */
  lemma {:induction false} NoLineInside(s: Text, b: Text, p: nat, at: nat, to: nat)
    requires CR !in b && LF !in b && |b| > 0 && p <= at && At(s, b, at)
    requires to == at + |b| || (to == at + |b| + 2 && At(s, DASHES, at + |b|))
    ensures to <= |s| && s[to - 1] != LF && s[to - 1] != CR
    ensures forall q: nat :: at < q < to ==> !Line(s, b, p, q)
  {
    forall i: nat | at <= i < to ensures s[i] != LF && s[i] != CR {
      if i < at + |b| {
        OccurrenceByte(s, b, at, i - at);
      } else {
        OccurrenceByte(s, DASHES, at + |b|, i - at - |b|);
      }
    }
  }

  /** What is known where the search is resumed: no boundary line so far, and an occurrence right before. */
  ghost predicate Resumed(s: Text, b: Text, p: nat, pr: nat) {
    && NoLine(s, b, p, pr)
    && (pr == p || (p < pr <= |s| && s[pr - 1] != LF && s[pr - 1] != CR && Follows(s, b, p, pr)))
  }

  lemma {:induction false} LookStops(s: Text, b: Text, p: nat, pr: nat)
    requires CR !in b && LF !in b && |b| > 0 && p <= pr < |s| && Resumed(s, b, p, pr)
    requires LookAt(s, b, p, pr).Stop? && IndexFrom(s, b, pr) >= 0
    ensures var at := IndexFrom(s, b, pr);
            && ClosedBy(s, b, p, at, LookAt(s, b, p, pr).read)
            && (StartsLine(s, p, at) || Follows(s, b, p, at)) && NoLine(s, b, p, at)
    ensures LookAt(s, b, p, pr).read.piece.Closed?
  {
    hide NewLineAfter, Follows, Tailed;
    var at, r := IndexFrom(s, b, pr), LookAt(s, b, p, pr).read;
    TailIff(s, at + |b|, r.more, r.progress);
    assert TextEnd(s, p, at) == at - BreakBefore(s, pr, at);
  }

  lemma {:induction false} LookSkips(s: Text, b: Text, p: nat, pr: nat)
    requires CR !in b && LF !in b && |b| > 0 && p <= pr < |s| && Resumed(s, b, p, pr) && LookAt(s, b, p, pr).Skip?
    ensures Resumed(s, b, p, LookAt(s, b, p, pr).to)
  {
    hide NewLineAfter, Tailed;
    var at, to := IndexFrom(s, b, pr), LookAt(s, b, p, pr).to;
    NoLineInside(s, b, p, at, to);
    var end := at + |b|;
    forall more, n | Tailed(s, end, more, n) ensures !StartsLine(s, p, at) {
      TailIff(s, end, more, n);
    }
    assert !Line(s, b, p, at);
  }

  lemma {:induction false} LookMisses(s: Text, b: Text, p: nat, pr: nat)
    requires |b| > 0 && p <= pr && Resumed(s, b, p, pr) && (pr >= |s| || IndexFrom(s, b, pr) < 0)
    ensures NoLine(s, b, p, |s|) && !ReadFrom(s, b, p, pr).piece.Closed?
  {
  }

  lemma {:induction false} ReadMeaning(s: Text, b: Text, p: nat, pr: nat)
    requires CR !in b && LF !in b && |b| > 0 && p <= pr && Resumed(s, b, p, pr)
    ensures var r := ReadFrom(s, b, p, pr);
            && (r.piece.Closed? ==> exists at: nat ::
                  ClosedBy(s, b, p, at, r) && (StartsLine(s, p, at) || Follows(s, b, p, at)) && NoLine(s, b, p, at))
            && (!r.piece.Closed? ==> NoLine(s, b, p, |s|))
    decreases |s| - pr
  {
    hide LookAt, ClosedBy, Follows, NoLine, Resumed, StartsLine;
    if pr >= |s| || IndexFrom(s, b, pr) < 0 {
      LookMisses(s, b, p, pr);
    } else if LookAt(s, b, p, pr).Stop? {
      LookStops(s, b, p, pr);
    } else {
      LookSkips(s, b, p, pr);
      ReadMeaning(s, b, p, LookAt(s, b, p, pr).to);
    }
  }

  /** No boundary string, with or without two dashes, is directly followed by another. */
  ghost predicate NoDoubles(s: Text, b: Text, p: nat) {
    forall at: nat :: Follows(s, b, p, at) ==> !At(s, b, at)
  }

  ghost predicate FirstLine(s: Text, b: Text, p: nat, at: nat) {
    Line(s, b, p, at) && NoLine(s, b, p, at)
  }

  /**
   * The next piece is closed exactly when a boundary line follows, by the first one: it ends right before the line
   * break in front of that line, and reading goes on behind that line unless it has the closing dashes.
   */
  lemma {:induction false} ClosedByFirstLine(s: Text, b: Text, p: nat, at: nat)
    requires CR !in b && LF !in b && |b| > 0 && NoDoubles(s, b, p)
    ensures var r := ReadFrom(s, b, p, p);
            && (r.piece.Closed? <==> exists q: nat :: Line(s, b, p, q))
            && (FirstLine(s, b, p, at) ==> ClosedBy(s, b, p, at, r))
  {
    var r := ReadFrom(s, b, p, p);
    ReadMeaning(s, b, p, p);
    hide ReadFrom, TextEnd, StartsLine, Follows;
    if r.piece.Closed? {
      var q: nat :| ClosedBy(s, b, p, q, r) && (StartsLine(s, p, q) || Follows(s, b, p, q)) && NoLine(s, b, p, q);
      assert EndsWell(s, q + |b|);
      assert Line(s, b, p, q);
      assert FirstLine(s, b, p, at) ==> at == q;
    } else {
      assert forall q: nat :: Line(s, b, p, q) ==> q < |s|;
    }
  }

  /** Where the search goes on behind a rejected boundary string at `at`. */
  function NextPlace(s: Text, b: Text, q: nat, at: nat): nat {
    at + |b| + if StartsLine(s, q, at) && At(s, DASHES, at + |b|) then 2 else 0
  }

  /** The search from q goes on at pr: it rejects each boundary string that does not begin and end a line. */
  ghost predicate Resumes(s: Text, b: Text, q: nat, pr: nat)
    requires |b| > 0
    decreases |s| - q
  {
    q == pr || (
      var at := IndexFrom(s, b, q);
      && 0 <= at && q < |s| && !(StartsLine(s, q, at) && EndsWell(s, at + |b|))
      && Resumes(s, b, NextPlace(s, b, q, at), pr))
  }

  lemma {:induction false} LookRejectsIff(s: Text, b: Text, p: nat, q: nat)
    requires |b| > 0 && p <= q < |s| && IndexFrom(s, b, q) >= 0
    ensures var at := IndexFrom(s, b, q);
            && (LookAt(s, b, p, q).Skip? <==> !(StartsLine(s, q, at) && EndsWell(s, at + |b|)))
            && (LookAt(s, b, p, q).Skip? ==>
                  LookAt(s, b, p, q).to == NextPlace(s, b, q, at))
  {
    hide NewLineAfter, Tailed;
    var at, l := IndexFrom(s, b, q), LookAt(s, b, p, q);
    var end := at + |b|;
    if l.Stop? {
      TailIff(s, end, l.read.more, l.read.progress);
      assert EndsWell(s, end);
    } else if EndsWell(s, end) {
      var more, n :| Tailed(s, end, more, n);
      TailIff(s, end, more, n);
    }
  }

  lemma {:induction false} ReadResumes(s: Text, b: Text, p: nat, q: nat, pr: nat)
    requires CR !in b && LF !in b && |b| > 0 && p <= q && Resumed(s, b, p, q) && Resumes(s, b, q, pr)
    ensures p <= pr && Resumed(s, b, p, pr) && ReadFrom(s, b, p, q) == ReadFrom(s, b, p, pr)
    decreases |s| - q
  {
    if q != pr {
      hide LookAt, Resumed, StartsLine, EndsWell;
      LookRejectsIff(s, b, p, q);
      LookSkips(s, b, p, q);
      ReadResumes(s, b, p, LookAt(s, b, p, q).to, pr);
    }
  }

  /** The search goes on right at a boundary string that ends a line but does not begin one. */
  ghost predicate Misread(s: Text, b: Text, p: nat, pr: nat)
    requires |b| > 0
  {
    p < pr && Resumes(s, b, p, pr) && At(s, b, pr) && EndsWell(s, pr + |b|)
  }

  lemma {:induction false} StopsHere(s: Text, b: Text, p: nat, pr: nat)
    requires |b| > 0 && p <= pr && At(s, b, pr) && EndsWell(s, pr + |b|)
    ensures ReadFrom(s, b, p, pr).piece == Closed(p, pr)
  {
    hide NewLineAfter, EndsWell;
    IndexUnique(s, b, pr, pr);
    LookRejectsIff(s, b, p, pr);
    assert LookAt(s, b, p, pr).Stop?;
  }

  lemma {:induction false} ResumedNotLine(s: Text, b: Text, p: nat, pr: nat)
    requires Resumed(s, b, p, pr) && p < pr
    ensures NoLine(s, b, p, pr + 1)
  {
    hide Follows, EndsWell;
    assert !StartsLine(s, p, pr);
  }

  /** Such a string closes the piece, and it is not on a line of its own. */
  lemma {:induction false} MisreadCloses(s: Text, b: Text, p: nat, pr: nat)
    requires CR !in b && LF !in b && |b| > 0 && Misread(s, b, p, pr)
    ensures ReadFrom(s, b, p, p).piece == Closed(p, pr) && NoLine(s, b, p, pr + 1)
  {
    assert Resumed(s, b, p, p);
    hide ReadFrom, Resumed, Resumes, EndsWell, NoLine;
    ReadResumes(s, b, p, p, pr);
    StopsHere(s, b, p, pr);
    ResumedNotLine(s, b, p, pr);
  }

  /** The boundary line that closes nothing: another string closed the piece before. */
  lemma {:induction false} NotClosedBy(s: Text, b: Text, p: nat, pr: nat, at: nat, r: Read)
    requires CR !in b && LF !in b && |b| > 0 && p < pr < at && At(s, b, pr) && r.piece == Closed(p, pr)
    ensures !ClosedBy(s, b, p, at, r)
  {
    OccurrenceByte(s, b, pr, 0);
  }

  ghost predicate ClosedRight(s: Text, b: Text, p: nat, r: Read) {
    && (r.piece.Closed? <==> exists q: nat :: Line(s, b, p, q))
    && (forall q: nat :: FirstLine(s, b, p, q) ==> ClosedBy(s, b, p, q, r))
  }

  lemma {:induction false} LeastLine(s: Text, b: Text, p: nat, q: nat) returns (at: nat)
    requires Line(s, b, p, q)
    ensures FirstLine(s, b, p, at)
    decreases q
  {
    if NoLine(s, b, p, q) {
      at := q;
    } else {
      var k: nat :| p <= k < q && Line(s, b, p, k);
      at := LeastLine(s, b, p, k);
    }
  }

  lemma {:induction false} MisreadIsWrong(s: Text, b: Text, p: nat, pr: nat)
    requires CR !in b && LF !in b && |b| > 0 && Misread(s, b, p, pr)
    ensures !ClosedRight(s, b, p, ReadFrom(s, b, p, p))
  {
    var r := ReadFrom(s, b, p, p);
    MisreadCloses(s, b, p, pr);
    hide ReadFrom, Line, Resumes, ClosedBy;
    if q: nat :| Line(s, b, p, q) {
      var at := LeastLine(s, b, p, q);
      assert pr < at by {
        LineIsBehind(s, b, p, at);
      }
      NotClosedBy(s, b, p, pr, at, r);
    }
  }

  lemma {:induction false} LineIsBehind(s: Text, b: Text, p: nat, at: nat)
    requires Line(s, b, p, at)
    ensures p <= at
  {
  }

  /** What closes the piece where the search stops is the first boundary line. */
  lemma {:induction false} StopIsLine(s: Text, b: Text, p: nat, q: nat)
    requires CR !in b && LF !in b && |b| > 0 && p <= q < |s| && Resumed(s, b, p, q) && Resumes(s, b, p, q)
    requires !Misread(s, b, p, q) && LookAt(s, b, p, q).Stop? && IndexFrom(s, b, q) >= 0
    ensures var at, r := IndexFrom(s, b, q), LookAt(s, b, p, q).read;
            FirstLine(s, b, p, at) && ClosedBy(s, b, p, at, r) && r.piece.Closed?
  {
    hide LookAt, Resumes, Resumed, EndsWell, NoLine, Follows;
    var at := IndexFrom(s, b, q);
    LookRejectsIff(s, b, p, q);
    LookStops(s, b, p, q);
    assert StartsLine(s, p, at);
  }

  lemma {:induction false} ReadIsLine(s: Text, b: Text, p: nat, q: nat)
    requires CR !in b && LF !in b && |b| > 0 && p <= q && Resumed(s, b, p, q) && Resumes(s, b, p, q)
    requires forall pr: nat :: !Misread(s, b, p, pr)
    ensures var r := ReadFrom(s, b, p, q);
            && (r.piece.Closed? ==> exists at: nat :: FirstLine(s, b, p, at) && ClosedBy(s, b, p, at, r))
            && (!r.piece.Closed? ==> NoLine(s, b, p, |s|))
    decreases |s| - q
  {
    hide LookAt, Resumes, Resumed, NoLine, FirstLine, ClosedBy, Misread;
    if q >= |s| || IndexFrom(s, b, q) < 0 {
      LookMisses(s, b, p, q);
    } else if LookAt(s, b, p, q).Stop? {
      StopIsLine(s, b, p, q);
    } else {
      LookSkips(s, b, p, q);
      ResumesOn(s, b, p, p, q, LookAt(s, b, p, q).to);
      ReadIsLine(s, b, p, LookAt(s, b, p, q).to);
    }
  }

  lemma {:induction false} ResumesOn(s: Text, b: Text, first: nat, p: nat, q: nat, to: nat)
    requires |b| > 0 && Resumes(s, b, p, q) && first <= p <= q < |s| && IndexFrom(s, b, q) >= 0
    requires LookAt(s, b, first, q).Skip? && LookAt(s, b, first, q).to == to
    ensures Resumes(s, b, p, to)
    decreases |s| - p
  {
    hide LookAt, StartsLine, EndsWell, At;
    if p == q {
      LookRejectsIff(s, b, first, q);
      assert Resumes(s, b, to, to);
    } else {
      var at := IndexFrom(s, b, p);
      var next := NextPlace(s, b, p, at);
      ResumesBounds(s, b, next, q);
      ResumesOn(s, b, first, next, q, to);
    }
  }

  lemma {:induction false} ResumesBounds(s: Text, b: Text, q: nat, pr: nat)
    requires |b| > 0 && Resumes(s, b, q, pr)
    ensures q <= pr
    decreases |s| - q
  {
    if q != pr {
      var at := IndexFrom(s, b, q);
      ResumesBounds(s, b, NextPlace(s, b, q, at), pr);
    }
  }

  /** For every input: the first boundary line closes the piece, exactly when the search is never so misled. */
  lemma {:induction false} ClosedRightIff(s: Text, b: Text, p: nat)
    requires CR !in b && LF !in b && |b| > 0
    ensures ClosedRight(s, b, p, ReadFrom(s, b, p, p)) <==> forall pr: nat :: !Misread(s, b, p, pr)
  {
    var r := ReadFrom(s, b, p, p);
    if pr: nat :| Misread(s, b, p, pr) {
      MisreadIsWrong(s, b, p, pr);
    } else {
      assert Resumed(s, b, p, p) && Resumes(s, b, p, p);
      ReadIsLine(s, b, p, p);
      hide ReadFrom, ClosedBy, Misread, Resumes;
      assert forall q: nat :: Line(s, b, p, q) ==> p <= q < |s|;
      hide Line;
      if r.piece.Closed? {
        var at: nat :| FirstLine(s, b, p, at) && ClosedBy(s, b, p, at, r);
        assert forall q: nat :: FirstLine(s, b, p, q) ==> q == at;
      }
    }
  }

  /**
   * With doubled boundary strings too: a boundary line closes the piece there or earlier, and whatever else closes it
   * directly follows another boundary string.
   */
  lemma {:induction false} ClosedByLineOrDouble(s: Text, b: Text, p: nat)
    requires CR !in b && LF !in b && |b| > 0
    ensures var r := ReadFrom(s, b, p, p);
            && (r.piece.Closed? ==> exists at: nat ::
                  ClosedBy(s, b, p, at, r) && (FirstLine(s, b, p, at) || (Follows(s, b, p, at) && NoLine(s, b, p, at))))
            && (!r.piece.Closed? ==> forall at: nat :: !Line(s, b, p, at))
  {
    var r := ReadFrom(s, b, p, p);
    ReadMeaning(s, b, p, p);
    hide ReadFrom, TextEnd, StartsLine, Follows;
    if r.piece.Closed? {
      var q: nat :| ClosedBy(s, b, p, q, r) && (StartsLine(s, p, q) || Follows(s, b, p, q)) && NoLine(s, b, p, q);
      assert EndsWell(s, q + |b|);
      assert StartsLine(s, p, q) ==> FirstLine(s, b, p, q);
    } else {
      assert forall q: nat :: Line(s, b, p, q) ==> q < |s|;
    }
  }

  /** In mid-line the second of two boundary strings closes a piece although no line holds a boundary alone. */
  lemma {:induction false} DoubleCloses(b: Text, x: Byte)
    requires CR !in b && LF !in b && |b| > 0 && x != LF && x != b[0]
    ensures var s := [x] + b + b + [LF];
            && ReadFrom(s, b, 0, 0) == Read(Closed(0, 1 + |b|), true, |s|)
            && forall at: nat :: !Line(s, b, 0, at)
  {
    var s := [x] + b + b + [LF];
    var k := 1 + |b|;
    assert At(s, b, 1) && At(s, b, k) && s[0] != b[0] && !At(s, b, 0);
    IndexUnique(s, b, 0, 1);
    IndexUnique(s, b, k, k);
    assert LookAt(s, b, 0, 0) == Skip(k);
    assert s[k + |b|..] == [LF] && !At(s, DASHES, k + |b|);
    assert LookAt(s, b, 0, k) == Stop(Read(Closed(0, k), true, |s|));
    assert forall i :: 0 <= i < |s| - 1 ==> s[i] != LF;
  }

  // ----- the writer

  function PartText(b: Text, part: Text): Text {
    DASHES + b + CRLF + part + CRLF
  }

  function EndText(b: Text): Text {
    DASHES + b + DASHES + CRLF
  }

  function Pieces(b: Text, parts: seq<Text>): Text {
    if |parts| == 0 then [] else PartText(b, parts[0]) + Pieces(b, parts[1..])
  }

  function Written(b: Text, parts: seq<Text>): Text {
    Pieces(b, parts) + EndText(b)
  }

  lemma {:induction false} PiecesSnoc(b: Text, parts: seq<Text>, part: Text)
    ensures Pieces(b, parts + [part]) == Pieces(b, parts) + PartText(b, part)
  {
    if |parts| == 0 {
      assert parts + [part] == [part] && [part][1..] == [];
    } else {
      assert (parts + [part])[1..] == parts[1..] + [part];
      PiecesSnoc(b, parts[1..], part);
    }
  }

  class MultipartWriter {
    const boundary: Text
    var out: Text
    ghost var parts: seq<Text>

    ghost predicate Valid()
      reads this
    {
      out == Pieces(boundary, parts)
    }

    constructor (boundary: Text)
      ensures Valid() && this.boundary == boundary && parts == []
    {
      this.boundary, this.out, this.parts := boundary, [], [];
    }

    /** None stands for a part whose content could not be produced: nothing is written. */
    method AddPart(part: Option<Text>) returns (ok: bool)
      requires Valid()
      modifies this
      ensures Valid() && ok == part.Some?
      ensures parts == if ok then old(parts) + [part.value] else old(parts)
    {
      if part.None? {
        return false;
      }
      PiecesSnoc(boundary, parts, part.value);
      out := out + (DASHES + boundary + CRLF + part.value + CRLF);
      parts := parts + [part.value];
      return true;
    }

    method Done()
      requires Valid()
      modifies this
      ensures out == Written(boundary, old(parts))
    {
      out := out + (DASHES + boundary + DASHES + CRLF);
    }
  }

  // ----- reading back what was written

  predicate Contains(s: Text, p: Text) {
    exists j :: 0 <= j <= |s| && At(s, p, j)
  }

  /** The boundary is one line, and no part contains it. */
  ghost predicate Separates(b: Text, parts: seq<Text>) {
    && CR !in b && LF !in b
    && forall i :: 0 <= i < |parts| ==> !Contains(parts[i], DASHES + b)
  }

  /** Before the boundary line that follows a part, the boundary string does not occur. */
  lemma {:induction false} NoneInside(s: Text, b: Text, p: nat, part: Text, j: nat)
    requires CR !in b && LF !in b && !Contains(part, b) && |b| > 0
    requires p + |part| + 2 <= |s| && s[p..p + |part|] == part && s[p + |part|] == CR && s[p + |part| + 1] == LF
    requires p <= j < p + |part| + 2
    ensures !At(s, b, j)
  {
    if j + |b| <= p + |part| {
      SliceSlice(s, p, p + |part|, j - p, j - p + |b|);
      assert !At(part, b, j - p);
    } else if j + |b| <= |s| {
      var i := if j <= p + |part| then p + |part| - j else 0;
      assert s[j..j + |b|][i] == s[j + i] != b[i];
    }
  }

  /** What stands between one part and the next position to scan from. */
  ghost predicate FollowedBy(s: Text, b: Text, p: nat, part: Text, tail: Text) {
    && p + |part| + 2 + |b| + |tail| <= |s|
    && s[p..p + |part|] == part
    && s[p + |part|..p + |part| + 2] == CRLF
    && At(s, b, p + |part| + 2)
    && s[p + |part| + 2 + |b|..p + |part| + 2 + |b| + |tail|] == tail
  }

  lemma {:induction false} BoundaryFound(s: Text, b: Text, p: nat, part: Text, tail: Text)
    requires CR !in b && LF !in b && !Contains(part, b) && |b| > 0 && FollowedBy(s, b, p, part, tail)
    ensures IndexFrom(s, b, p) == p + |part| + 2 && BreakBefore(s, p, p + |part| + 2) == 2
  {
    var at := p + |part| + 2;
    assert s[at - 2] == s[p + |part|..at][0] == CR && s[at - 1] == s[p + |part|..at][1] == LF;
    forall j: nat | p <= j < at ensures !At(s, b, j) {
      NoneInside(s, b, p, part, j);
    }
    IndexUnique(s, b, p, at);
  }

  lemma {:induction false} BreakFollows(s: Text, k: nat)
    requires k + 2 <= |s| && s[k..k + 2] == CRLF
    ensures NewLineAfter(s[k..]) == 1 && !At(s, DASHES, k)
  {
    var t := s[k..];
    assert s[k] == s[k..k + 2][0] && s[k + 1] == s[k..k + 2][1];
    assert t[0] == CR && t[1..][0] == LF;
  }

  /** A boundary line that begins another part, found after a line break of two bytes. */
  lemma {:induction false} NextRead(s: Text, b: Text, p: nat, at: nat)
    requires |b| > 0 && IndexFrom(s, b, p) == at && p + 2 <= at && BreakBefore(s, p, at) == 2
    requires at + |b| + 2 <= |s| && s[at + |b|..at + |b| + 2] == CRLF
    ensures ReadFrom(s, b, p, p) == Read(Closed(p, at - 2), true, at + |b| + 2)
  {
    BreakFollows(s, at + |b|);
    assert LookAt(s, b, p, p) == Stop(Read(Closed(p, at - 2), true, at + |b| + 2));
  }

  /** A boundary line that ends the body, found after a line break of two bytes. */
  lemma {:induction false} LastRead(s: Text, b: Text, p: nat, at: nat)
    requires |b| > 0 && IndexFrom(s, b, p) == at && p + 2 <= at && BreakBefore(s, p, at) == 2
    requires at + |b| + 4 <= |s| && At(s, DASHES, at + |b|) && s[at + |b| + 2..at + |b| + 4] == CRLF
    ensures ReadFrom(s, b, p, p) == Read(Closed(p, at - 2), false, at + |b| + 4)
  {
    BreakFollows(s, at + |b| + 2);
    assert LookAt(s, b, p, p) == Stop(Read(Closed(p, at - 2), false, at + |b| + 4));
  }

  lemma {:induction false} ScanClosed(s: Text, b: Text, p: nat, r: Read)
    requires |b| > 0 && ReadFrom(s, b, p, p) == r && r.piece.Closed?
    ensures ScanFrom(s, b, p) == [Part(s[p..r.piece.end], p)] + if r.more then ScanFrom(s, b, r.progress) else []
  {
  }

  lemma {:induction false} ScanNext(s: Text, b: Text, p: nat, part: Text)
    requires CR !in b && LF !in b && !Contains(part, b) && |b| > 0 && FollowedBy(s, b, p, part, CRLF)
    ensures ScanFrom(s, b, p) == [Part(part, p)] + ScanFrom(s, b, p + |part| + |b| + 4)
  {
    hide Contains, IndexFrom, BreakBefore, ReadFrom, ScanFrom;
    var at := p + |part| + 2;
    BoundaryFound(s, b, p, part, CRLF);
    NextRead(s, b, p, at);
    ScanClosed(s, b, p, Read(Closed(p, at - 2), true, at + |b| + 2));
  }

  lemma {:induction false} ScanLast(s: Text, b: Text, p: nat, part: Text)
    requires CR !in b && LF !in b && !Contains(part, b) && |b| > 0 && FollowedBy(s, b, p, part, DASHES + CRLF)
    ensures ScanFrom(s, b, p) == [Part(part, p)]
  {
    hide Contains, IndexFrom, BreakBefore, ReadFrom, ScanFrom;
    var at := p + |part| + 2;
    var end := at + |b|;
    BoundaryFound(s, b, p, part, DASHES + CRLF);
    SliceSlice(s, end, end + 4, 0, 2);
    SliceSlice(s, end, end + 4, 2, 4);
    LastRead(s, b, p, at);
    ScanClosed(s, b, p, Read(Closed(p, at - 2), false, end + 4));
  }

  /** The parts with the offsets they are found at, the first at p. */
  function Expected(b: Text, parts: seq<Text>, p: nat): seq<Part> {
    if |parts| == 0 then [] else [Part(parts[0], p)] + Expected(b, parts[1..], p + |parts[0]| + |b| + 4)
  }

  /** The rest of the written text after the line that begins the first part. */
  function AfterLine(b: Text, parts: seq<Text>): Text
    requires |parts| > 0
  {
    parts[0] + CRLF + Written(b, parts[1..])
  }

  lemma {:induction false} WrittenStarts(b: Text, parts: seq<Text>)
    ensures |parts| == 0 ==> Written(b, parts) == (DASHES + b) + (DASHES + CRLF)
    ensures |parts| > 0 ==> Written(b, parts) == (DASHES + b) + CRLF + AfterLine(b, parts)
  {
    if |parts| == 0 {
      assert Written(b, parts) == EndText(b);
    } else {
      var rest := Written(b, parts[1..]);
      assert Written(b, parts) == PartText(b, parts[0]) + rest;
      assert PartText(b, parts[0]) + rest == (DASHES + b) + CRLF + (parts[0] + CRLF + rest);
    }
  }

  lemma {:induction false} TextFollows(s: Text, bnd: Text, p: nat, part: Text, tail: Text, rest: Text)
    requires p <= |s| && s[p..] == part + CRLF + (bnd + tail + rest)
    ensures FollowedBy(s, bnd, p, part, tail)
    ensures s[p + |part| + 2 + |bnd| + |tail|..] == rest
  {
    var t := s[p..];
    var a := |part| + 2;
    assert t[..|part|] == part && t[|part|..a] == CRLF && t[a..] == bnd + tail + rest;
    assert t[a..][..|bnd|] == bnd && t[a..][|bnd|..|bnd| + |tail|] == tail && t[a..][|bnd| + |tail|..] == rest;
    assert forall i, j :: 0 <= i <= j <= |t| ==> t[i..j] == s[p + i..p + j];
  }

  lemma {:induction false} ScanWritten(s: Text, b: Text, p: nat, parts: seq<Text>)
    requires |parts| > 0 && Separates(b, parts) && p <= |s| && s[p..] == AfterLine(b, parts)
    ensures ScanFrom(s, DASHES + b, p) == Expected(DASHES + b, parts, p)
    decreases |parts|
  {
    hide Contains, FollowedBy, ScanFrom, Written;
    var bnd, part, rest := DASHES + b, parts[0], parts[1..];
    assert CR !in bnd && LF !in bnd && !Contains(part, bnd);
    WrittenStarts(b, rest);
    if |rest| == 0 {
      LastFollows(s, bnd, p, part, Written(b, rest));
      ScanLast(s, bnd, p, part);
      assert Expected(bnd, parts, p) == [Part(part, p)];
    } else {
      NextFollows(s, bnd, p, part, Written(b, rest), AfterLine(b, rest));
      ScanNext(s, bnd, p, part);
      ScanWritten(s, b, p + |part| + |bnd| + 4, rest);
    }
  }

  lemma {:induction false} LastFollows(s: Text, bnd: Text, p: nat, part: Text, text: Text)
    requires p <= |s| && s[p..] == part + CRLF + text && text == bnd + (DASHES + CRLF)
    ensures FollowedBy(s, bnd, p, part, DASHES + CRLF)
  {
    assert text == bnd + (DASHES + CRLF) + [];
    TextFollows(s, bnd, p, part, DASHES + CRLF, []);
  }

  lemma {:induction false} NextFollows(s: Text, bnd: Text, p: nat, part: Text, text: Text, rest: Text)
    requires p <= |s| && s[p..] == part + CRLF + text && text == bnd + CRLF + rest
    ensures FollowedBy(s, bnd, p, part, CRLF) && s[p + |part| + |bnd| + 4..] == rest
  {
    TextFollows(s, bnd, p, part, CRLF, rest);
  }

  /** Reading to the first boundary line of a written body. */
  lemma {:induction false} FirstLineRead(b: Text, parts: seq<Text>)
    requires CR !in b && LF !in b
    ensures ReadFrom(Written(b, parts), DASHES + b, 0, 0).progress ==
            if |parts| == 0 then |Written(b, parts)| else |b| + 4
  {
    var s, bnd := Written(b, parts), DASHES + b;
    WrittenStarts(b, parts);
    assert At(s, bnd, 0);
    IndexUnique(s, bnd, 0, 0);
    var end := |bnd|;
    if |parts| == 0 {
      assert s[end..end + 2] == DASHES && s[end + 2..end + 4] == CRLF;
      BreakFollows(s, end + 2);
    } else {
      assert s[end..end + 2] == CRLF;
      BreakFollows(s, end);
    }
  }

  /** The expected offsets are where the parts stand in the text. */
  lemma {:induction false} ExpectedExact(s: Text, b: Text, p: nat, parts: seq<Text>, k: nat)
    requires k < |parts| && p <= |s| && s[p..] == AfterLine(b, parts)
    ensures |Expected(DASHES + b, parts, p)| == |parts|
    ensures Expected(DASHES + b, parts, p)[k].data == parts[k] && Exact(s, Expected(DASHES + b, parts, p)[k])
    decreases |parts|
  {
    hide Written, FollowedBy;
    var bnd, part, rest := DASHES + b, parts[0], parts[1..];
    SliceSlice(s, p, |s|, 0, |part|);
    assert s[p..][..|part|] == part;
    if |rest| > 0 {
      WrittenStarts(b, rest);
      NextFollows(s, bnd, p, part, Written(b, rest), AfterLine(b, rest));
      ExpectedExact(s, b, p + |part| + |bnd| + 4, rest, if k == 0 then 0 else k - 1);
    }
  }

  ghost predicate Recovers(s: Text, found: seq<Part>, parts: seq<Text>) {
    |found| == |parts| && forall k :: 0 <= k < |parts| ==> found[k].data == parts[k] && Exact(s, found[k])
  }

  lemma {:induction false} ExpectedRecovers(s: Text, b: Text, p: nat, parts: seq<Text>)
    requires |parts| > 0 && p <= |s| && s[p..] == AfterLine(b, parts)
    ensures Recovers(s, Expected(DASHES + b, parts, p), parts)
  {
    hide Expected, AfterLine, Exact;
    var found := Expected(DASHES + b, parts, p);
    ExpectedExact(s, b, p, parts, 0);
    forall k | 0 <= k < |parts| ensures found[k].data == parts[k] && Exact(s, found[k]) {
      ExpectedExact(s, b, p, parts, k);
    }
  }

  /** Round trip: scanning what the writer wrote returns exactly the parts, in order, each at its place in the text. */
  lemma {:induction false} MultipartRoundTrip(b: Text, parts: seq<Text>)
    requires Separates(b, parts)
    ensures var s := Written(b, parts);
            Recovers(s, ScanFrom(s, DASHES + b, ReadFrom(s, DASHES + b, 0, 0).progress), parts)
  {
    var s := Written(b, parts);
    FirstLineRead(b, parts);
    if |parts| == 0 {
      NothingLeft(s, DASHES + b);
    } else {
      hide Written, AfterLine, ScanFrom, ReadFrom, Expected, Recovers;
      WrittenStarts(b, parts);
      assert s[|b| + 4..] == AfterLine(b, parts);
      ScanWritten(s, b, |b| + 4, parts);
      ExpectedRecovers(s, b, |b| + 4, parts);
    }
  }

  lemma {:induction false} NothingLeft(s: Text, b: Text)
    requires |b| > 0
    ensures ScanFrom(s, b, |s|) == []
  {
  }
}

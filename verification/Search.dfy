/** internal/state/mailbox_search.go: SEARCH keys compiled to closures that say what they need loaded. */
module Search {
  import opened Base
  import opened Flags
  import opened Snapshot
  import opened Selection

  /** Calendar instants, as an ordered number. */
  type Instant = int

  datatype Key =
    | All
    | Flagged(flag: string)    // ANSWERED, DELETED, DRAFT, FLAGGED, KEYWORD, RECENT, SEEN
    | Unflagged(flag: string)  // OLD, UNANSWERED, UNDELETED, UNDRAFT, UNFLAGGED, UNKEYWORD, UNSEEN
    | New
    | Field(name: string, text: string)  // BCC, CC, FROM, HEADER, SUBJECT, TO
    | Body(text: string)
    | Text(text: string)
    | Before(date: Instant)
    | On(date: Instant)
    | Since(date: Instant)
    | SentBefore(date: Instant)
    | SentOn(date: Instant)
    | SentSince(date: Instant)
    | Larger(size: int)
    | Smaller(size: int)
    | UidSet(ranges: seq<SeqRange>)
    | NumberSet(ranges: seq<SeqRange>)
    | Not(key: Key)
    | Or(left: Key, right: Key)
    | List(keys: seq<Key>)

  /** Library code the search calls: charset decoding, case folding, header and date parsing. */
  datatype Library = Library(
    decode: string -> Option<string>,
    lower: string -> string,
    contains: (string, string) -> bool,
    headerOf: string -> Option<string>,        // rfc822.Split and rfc822.NewHeader; None when parsing fails
    field: (string, string) -> string,         // Header.Get
    parseDate: string -> Option<Instant>,      // rfc5322.ParseDateTime
    bodyOf: string -> string,                  // rfc822.Parse and Section.Body
    dateOnly: Instant -> Instant,              // convertToDateWithoutTZ
    dayOf: Instant -> Instant)                 // Truncate(24 * time.Hour)

  /** A message of the snapshot with its sequence number. */
  datatype Listed = Listed(number: nat, uid: Uid, flags: FlagSet)

  /** What an op may look at; parts not loaded hold Go's zero values, so header is nil. */
  datatype Data = Data(message: Listed, literal: string, date: Instant, size: int, header: Option<string>)

  datatype Error = BadDate | NilHeader | NoSize | NoLiteral | BadHeader

  datatype Answer = Found(yes: bool) | Failed(error: Error)

  datatype Needs = Needs(literal: bool, message: bool, header: bool)

  datatype Compiled = Compiled(op: Data -> Answer, needs: Needs)

  const NOTHING := Needs(false, false, false)
  const MESSAGE := Needs(false, true, false)
  const LITERAL := Needs(true, false, false)
  const HEADER := Needs(true, false, true)

  function MergeNeeds(a: Needs, b: Needs): Needs {
    Needs(a.literal || b.literal, a.message || b.message, a.header || b.header)
  }

  // ----- the compiler

  function Negate(a: Answer): Answer {
    match a
    case Found(b) => Found(!b)
    case Failed(_) => a
  }

  /** Both sides are evaluated, whatever the left one says. */
  function Either(a: Answer, b: Answer): Answer {
    match a
    case Failed(_) => a
    case Found(x) => match b { case Failed(_) => b case Found(y) => Found(x || y) }
  }

  /** Runs the ops in order and stops at the first that fails or does not match. */
  function RunOps(ops: seq<Data -> Answer>, d: Data): Answer {
    if |ops| == 0 then Found(true) else
    match ops[0](d)
    case Failed(e) => Failed(e)
    case Found(b) => if b then RunOps(ops[1..], d) else Found(false)
  }

  /** Header.Get on a header that was not loaded dereferences nil. */
  function WithHeader(d: Data, f: string -> Answer): Answer {
    match d.header
    case None => Failed(NilHeader)
    case Some(h) => f(h)
  }

  function SentDate(lib: Library, h: string, f: Instant -> bool): Answer {
    match lib.parseDate(lib.field(h, "Date"))
    case None => Failed(BadDate)
    case Some(t) => Found(f(lib.dateOnly(t)))
  }

  /** The keys that are not built from other keys; None when the key cannot be built. */
  function BuildLeaf(lib: Library, s: Snap, k: Key): Option<Compiled>
    requires !k.Not? && !k.Or? && !k.List?
  {
    match k
    case All => Some(Compiled(d => Found(true), NOTHING))
    case Flagged(f) => var l := Lower(f); Some(Compiled((d: Data) => Found(l in d.message.flags), NOTHING))
    case Unflagged(f) => var l := Lower(f); Some(Compiled((d: Data) => Found(l !in d.message.flags), NOTHING))
    case New =>
      Some(Compiled((d: Data) => Found(RECENT_KEY in d.message.flags && "\\seen" !in d.message.flags), NOTHING))
    case Field(name, text) =>
      (match lib.decode(text)
       case None => None
       case Some(t) =>
         var l := lib.lower(t);
         Some(Compiled(d => WithHeader(d, h => Found(lib.contains(lib.lower(lib.field(h, name)), l))), HEADER)))
    case Body(text) =>
      (match lib.decode(text)
       case None => None
       case Some(t) =>
         var l := lib.lower(t);
         Some(Compiled((d: Data) => Found(lib.contains(lib.lower(lib.bodyOf(d.literal)), l)), LITERAL)))
    case Text(text) =>
      (match lib.decode(text)
       case None => None
       case Some(t) =>
         var l := lib.lower(t);
         Some(Compiled((d: Data) => Found(lib.contains(lib.lower(d.literal), l)), LITERAL)))
    case Before(x) => Some(Compiled((d: Data) => Found(d.date < x), MESSAGE))
    case On(x) => Some(Compiled((d: Data) => Found(lib.dayOf(x) == lib.dayOf(d.date)), MESSAGE))
    case Since(x) => Some(Compiled((d: Data) => Found(lib.dateOnly(d.date) >= x), MESSAGE))
    case SentBefore(x) => Some(Compiled(d => WithHeader(d, h => SentDate(lib, h, t => t < x)), HEADER))
    case SentOn(x) => Some(Compiled(d => WithHeader(d, h => SentDate(lib, h, t => t == x)), HEADER))
    case SentSince(x) => Some(Compiled(d => WithHeader(d, h => SentDate(lib, h, t => t >= x)), HEADER))
    case Larger(n) => Some(Compiled((d: Data) => Found(d.size > n), MESSAGE))
    case Smaller(n) => Some(Compiled((d: Data) => Found(d.size < n), MESSAGE))
    case UidSet(ranges) =>
      if |ranges| > 0 && |s| == 0 then None else
      var us := if |ranges| == 0 then [] else ResolveAll(s, ranges);
      Some(Compiled((d: Data) => Found(SearchUid(us, d.message.uid)), NOTHING))
    case NumberSet(ranges) =>
      var count := |s|;
      Some(Compiled((d: Data) => Found(InNumbers(count, ranges, d.message.number)), NOTHING))
  }

  function Build(lib: Library, s: Snap, k: Key): Option<Compiled>
    decreases k, 0
  {
    match k
    case Not(x) =>
      (match Build(lib, s, x)
       case None => None
       case Some(c) => Some(Compiled(d => Negate(c.op(d)), c.needs)))
    case Or(x, y) =>
      (match (Build(lib, s, x), Build(lib, s, y))
       case (Some(a), Some(b)) => Some(Compiled(d => Either(a.op(d), b.op(d)), MergeNeeds(a.needs, b.needs)))
       case _ => None)
    case List(ks) =>
      (match BuildAll(lib, s, ks)
       case None => None
       case Some((ops, needs)) => Some(Compiled(d => RunOps(ops, d), needs)))
    case _ => BuildLeaf(lib, s, k)
  }

  /** buildSearchOpListWithKeys: the ops of all keys and the union of what they need. */
  function BuildAll(lib: Library, s: Snap, ks: seq<Key>): Option<(seq<Data -> Answer>, Needs)>
    decreases ks
  {
    if |ks| == 0 then Some(([], NOTHING)) else
    match (Build(lib, s, ks[0]), BuildAll(lib, s, ks[1..]))
    case (Some(c), Some((ops, needs))) => Some(([c.op] + ops, MergeNeeds(c.needs, needs)))
    case _ => None
  }

  /** A text that cannot be decoded, or a UID set in an empty mailbox, somewhere in the tree. */
  ghost predicate Unbuildable(lib: Library, s: Snap, k: Key)
    decreases k
  {
    match k
    case Field(_, text) => lib.decode(text).None?
    case Body(text) => lib.decode(text).None?
    case Text(text) => lib.decode(text).None?
    case UidSet(ranges) => s == [] && ranges != []
    case Not(x) => Unbuildable(lib, s, x)
    case Or(x, y) => Unbuildable(lib, s, x) || Unbuildable(lib, s, y)
    case List(ks) => exists i :: 0 <= i < |ks| && Unbuildable(lib, s, ks[i])
    case _ => false
  }

  /** Keys fail to build exactly for these two reasons. */
  lemma {:induction false} BuildFailsIff(lib: Library, s: Snap, k: Key)
    ensures Build(lib, s, k).None? <==> Unbuildable(lib, s, k)
    decreases k, 0
  {
    hide BuildLeaf;
    match k
    case Not(x) => BuildFailsIff(lib, s, x);
    case Or(x, y) =>
      BuildFailsIff(lib, s, x);
      BuildFailsIff(lib, s, y);
    case List(ks) => BuildAllFailsIff(lib, s, ks);
    case _ => LeafFailsIff(lib, s, k);
  }

  lemma {:induction false} LeafFailsIff(lib: Library, s: Snap, k: Key)
    requires !k.Not? && !k.Or? && !k.List?
    ensures BuildLeaf(lib, s, k).None? <==> Unbuildable(lib, s, k)
  {
  }

  lemma {:induction false} BuildAllFailsIff(lib: Library, s: Snap, ks: seq<Key>)
    ensures BuildAll(lib, s, ks).None? <==> exists i :: 0 <= i < |ks| && Unbuildable(lib, s, ks[i])
    decreases ks
  {
    if |ks| > 0 {
      hide Unbuildable;
      BuildFailsIff(lib, s, ks[0]);
      BuildAllFailsIff(lib, s, ks[1..]);
      if i :| 0 <= i < |ks[1..]| && Unbuildable(lib, s, ks[1..][i]) {
        assert Unbuildable(lib, s, ks[i + 1]);
      }
      if i :| 0 <= i < |ks| && Unbuildable(lib, s, ks[i]) {
        assert i > 0 ==> Unbuildable(lib, s, ks[1..][i - 1]);
      }
    }
  }

  // ----- direct evaluation on a fully loaded message

  datatype Whole = Whole(message: Listed, literal: string, date: Instant, size: int, header: string)

  function Wanted(lib: Library, text: string): string {
    match lib.decode(text)
    case None => ""
    case Some(t) => lib.lower(t)
  }

  predicate InUids(s: Snap, ranges: seq<SeqRange>, uid: Uid) {
    |s| > 0 && exists i :: 0 <= i < |ranges| && ResolveRange(s, ranges[i]).Contains(uid)
  }

  function Eval(lib: Library, s: Snap, k: Key, m: Whole): Answer
    decreases k, 0
  {
    match k
    case All => Found(true)
    case Flagged(f) => Found(Lower(f) in m.message.flags)
    case Unflagged(f) => Found(Lower(f) !in m.message.flags)
    case New => Found(RECENT_KEY in m.message.flags && "\\seen" !in m.message.flags)
    case Field(name, text) => Found(lib.contains(lib.lower(lib.field(m.header, name)), Wanted(lib, text)))
    case Body(text) => Found(lib.contains(lib.lower(lib.bodyOf(m.literal)), Wanted(lib, text)))
    case Text(text) => Found(lib.contains(lib.lower(m.literal), Wanted(lib, text)))
    case Before(x) => Found(m.date < x)
    case On(x) => Found(lib.dayOf(x) == lib.dayOf(m.date))
    case Since(x) => Found(lib.dateOnly(m.date) >= x)
    case SentBefore(x) => SentDate(lib, m.header, t => t < x)
    case SentOn(x) => SentDate(lib, m.header, t => t == x)
    case SentSince(x) => SentDate(lib, m.header, t => t >= x)
    case Larger(n) => Found(m.size > n)
    case Smaller(n) => Found(m.size < n)
    case UidSet(ranges) => Found(InUids(s, ranges, m.message.uid))
    case NumberSet(ranges) => Found(InNumbers(|s|, ranges, m.message.number))
    case Not(x) => Negate(Eval(lib, s, x, m))
    case Or(x, y) => Either(Eval(lib, s, x, m), Eval(lib, s, y, m))
    case List(ks) => EvalAll(lib, s, ks, m)
  }

  function EvalAll(lib: Library, s: Snap, ks: seq<Key>, m: Whole): Answer
    decreases ks
  {
    if |ks| == 0 then Found(true) else
    match Eval(lib, s, ks[0], m)
    case Failed(e) => Failed(e)
    case Found(b) => if b then EvalAll(lib, s, ks[1..], m) else Found(false)
  }

  /** Everything the needs bits ask for is loaded; the rest may be anything. */
  ghost predicate Covers(d: Data, m: Whole, needs: Needs) {
    && d.message == m.message
    && (needs.literal ==> d.literal == m.literal)
    && (needs.message ==> d.date == m.date && d.size == m.size)
    && (needs.header ==> d.header == Some(m.header))
  }

  lemma {:induction false} UidSetExact(s: Snap, ranges: seq<SeqRange>, uid: Uid)
    requires |ranges| > 0 ==> |s| > 0
    ensures SearchUid(if |ranges| == 0 then [] else ResolveAll(s, ranges), uid) <==> InUids(s, ranges, uid)
  {
    if |ranges| > 0 {
      var us := ResolveAll(s, ranges);
      if SearchUid(us, uid) {
        var i :| 0 <= i < |us| && us[i].Contains(uid);
        assert ResolveRange(s, ranges[i]).Contains(uid);
      }
      if InUids(s, ranges, uid) {
        var i :| 0 <= i < |ranges| && ResolveRange(s, ranges[i]).Contains(uid);
        assert us[i].Contains(uid);
      }
    }
  }

  lemma {:induction false} LeafExact(lib: Library, s: Snap, k: Key, d: Data, m: Whole)
    requires !k.Not? && !k.Or? && !k.List? && BuildLeaf(lib, s, k).Some?
    requires Covers(d, m, BuildLeaf(lib, s, k).value.needs)
    ensures BuildLeaf(lib, s, k).value.op(d) == Eval(lib, s, k, m)
  {
    if k.UidSet? {
      UidSetExact(s, k.ranges, m.message.uid);
    }
  }

  /** A compiled key, run on only the data its needs bits load, answers as direct evaluation on the whole message. */
  lemma {:induction false} OpExact(lib: Library, s: Snap, k: Key, d: Data, m: Whole)
    requires Build(lib, s, k).Some? && Covers(d, m, Build(lib, s, k).value.needs)
    ensures Build(lib, s, k).value.op(d) == Eval(lib, s, k, m)
    decreases k, 0
  {
    match k
    case Not(x) => OpExact(lib, s, x, d, m);
    case Or(x, y) =>
      OpExact(lib, s, x, d, m);
      OpExact(lib, s, y, d, m);
    case List(ks) => OpsExact(lib, s, ks, d, m);
    case _ => LeafExact(lib, s, k, d, m);
  }

  lemma {:induction false} OpsExact(lib: Library, s: Snap, ks: seq<Key>, d: Data, m: Whole)
    requires BuildAll(lib, s, ks).Some? && Covers(d, m, BuildAll(lib, s, ks).value.1)
    ensures RunOps(BuildAll(lib, s, ks).value.0, d) == EvalAll(lib, s, ks, m)
    decreases ks
  {
    if |ks| > 0 {
      OpExact(lib, s, ks[0], d, m);
      OpsExact(lib, s, ks[1..], d, m);
      var ops, rest := BuildAll(lib, s, ks).value.0, BuildAll(lib, s, ks[1..]).value.0;
      assert ops[0] == Build(lib, s, ks[0]).value.op && ops[1..] == rest;
    }
  }

  // ----- what the answer means

  /** The text holds the searched-for text after both are lower-cased; text that cannot be decoded is empty. */
  ghost predicate HasText(lib: Library, text: string, sought: string) {
    match lib.decode(sought)
    case Some(t) => lib.contains(lib.lower(text), lib.lower(t))
    case None => lib.contains(lib.lower(text), "")
  }

  /** The Date field, as a day: None when it does not parse. */
  function SentDay(lib: Library, m: Whole): Option<Instant> {
    match lib.parseDate(lib.field(m.header, "Date"))
    case Some(t) => Some(lib.dateOnly(t))
    case None => None
  }

  ghost predicate InSome(last: nat, ranges: seq<SeqRange>, u: nat) {
    exists i :: 0 <= i < |ranges| && Between(last, ranges[i], u)
  }

  /** The key as a plain condition on the message; a SENT key does not hold when the Date field does not parse. */
  ghost predicate Holds(lib: Library, s: Snap, k: Key, m: Whole)
    decreases k
  {
    match k
    case All => true
    case Flagged(f) => Lower(f) in m.message.flags.Keys
    case Unflagged(f) => !(Lower(f) in m.message.flags.Keys)
    case New => RECENT_KEY in m.message.flags.Keys && !("\\seen" in m.message.flags.Keys)
    case Field(name, text) => HasText(lib, lib.field(m.header, name), text)
    case Body(text) => HasText(lib, lib.bodyOf(m.literal), text)
    case Text(text) => HasText(lib, m.literal, text)
    case Before(x) => m.date < x
    case On(x) => lib.dayOf(m.date) == lib.dayOf(x)
    case Since(x) => x <= lib.dateOnly(m.date)
    case SentBefore(x) => SentDay(lib, m).Some? && SentDay(lib, m).value < x
    case SentOn(x) => SentDay(lib, m) == Some(x)
    case SentSince(x) => SentDay(lib, m).Some? && x <= SentDay(lib, m).value
    case Larger(n) => n < m.size
    case Smaller(n) => m.size < n
    case UidSet(ranges) => |s| > 0 && InSome(s[|s| - 1].uid, ranges, m.message.uid)
    case NumberSet(ranges) => InSome(|s| % 0x1_0000_0000, ranges, m.message.number)
    case Not(x) => !Holds(lib, s, x, m)
    case Or(x, y) => Holds(lib, s, x, m) || Holds(lib, s, y, m)
    case List(ks) => forall i :: 0 <= i < |ks| ==> Holds(lib, s, ks[i], m)
  }

  predicate ReadsSentDate(k: Key) {
    k.SentBefore? || k.SentOn? || k.SentSince?
  }

  predicate ReadsHeader(k: Key) {
    k.Field? || ReadsSentDate(k)
  }

  predicate ReadsLiteral(k: Key) {
    k.Body? || k.Text? || ReadsHeader(k)
  }

  predicate ReadsInfo(k: Key) {
    k.Before? || k.On? || k.Since? || k.Larger? || k.Smaller?
  }

  /** Some key in the tree, at any depth, is of the given kind. */
  predicate Mentions(k: Key, kind: Key -> bool)
    decreases k
  {
    match k
    case Not(x) => Mentions(x, kind)
    case Or(x, y) => Mentions(x, kind) || Mentions(y, kind)
    case List(ks) => exists i :: 0 <= i < |ks| && Mentions(ks[i], kind)
    case _ => kind(k)
  }

  function Mentioned(k: Key): Needs {
    Needs(Mentions(k, ReadsLiteral), Mentions(k, ReadsInfo), Mentions(k, ReadsHeader))
  }

  /** The needs bits ask for a part exactly when some key in the tree reads it: nothing is loaded in vain. */
  lemma {:induction false} NeedsAreExact(lib: Library, s: Snap, k: Key)
    requires Build(lib, s, k).Some?
    ensures Build(lib, s, k).value.needs == Mentioned(k)
    decreases k, 0
  {
    hide BuildLeaf;
    match k
    case Not(x) => NeedsAreExact(lib, s, x);
    case Or(x, y) =>
      NeedsAreExact(lib, s, x);
      NeedsAreExact(lib, s, y);
    case List(ks) => AllNeedsAreExact(lib, s, ks);
    case _ => LeafNeedsAreExact(lib, s, k);
  }

  lemma {:induction false} LeafNeedsAreExact(lib: Library, s: Snap, k: Key)
    requires !k.Not? && !k.Or? && !k.List? && BuildLeaf(lib, s, k).Some?
    ensures BuildLeaf(lib, s, k).value.needs == Mentioned(k)
  {
  }

  lemma {:induction false} MentionsCons(ks: seq<Key>, kind: Key -> bool)
    requires |ks| > 0
    ensures Mentions(List(ks), kind) <==> Mentions(ks[0], kind) || Mentions(List(ks[1..]), kind)
  {
    if Mentions(List(ks), kind) {
      var i :| 0 <= i < |ks| && Mentions(ks[i], kind);
      if i > 0 { assert Mentions(ks[1..][i - 1], kind); }
    }
    if Mentions(List(ks[1..]), kind) {
      var i :| 0 <= i < |ks[1..]| && Mentions(ks[1..][i], kind);
      assert Mentions(ks[i + 1], kind);
    }
  }

  lemma {:induction false} AllNeedsAreExact(lib: Library, s: Snap, ks: seq<Key>)
    requires BuildAll(lib, s, ks).Some?
    ensures BuildAll(lib, s, ks).value.1 == Mentioned(List(ks))
    decreases ks
  {
    if |ks| > 0 {
      NeedsAreExact(lib, s, ks[0]);
      AllNeedsAreExact(lib, s, ks[1..]);
      MentionsCons(ks, ReadsLiteral);
      MentionsCons(ks, ReadsInfo);
      MentionsCons(ks, ReadsHeader);
    }
  }

  // ----- exactly when evaluation fails

  /** Evaluation comes to a SENT key: in a list, only after all keys before it matched. */
  predicate ReachesSentDate(lib: Library, s: Snap, k: Key, m: Whole)
    decreases k, 0
  {
    match k
    case Not(x) => ReachesSentDate(lib, s, x, m)
    case Or(x, y) => ReachesSentDate(lib, s, x, m) || ReachesSentDate(lib, s, y, m)
    case List(ks) => ListReachesSentDate(lib, s, ks, m)
    case _ => ReadsSentDate(k)
  }

  predicate ListReachesSentDate(lib: Library, s: Snap, ks: seq<Key>, m: Whole)
    decreases ks
  {
    |ks| > 0 && (
      || ReachesSentDate(lib, s, ks[0], m)
      || (Eval(lib, s, ks[0], m) == Found(true) && ListReachesSentDate(lib, s, ks[1..], m)))
  }

  /** In a list, some SENT key is reached exactly when a key reaches one and all keys before it matched. */
  lemma {:induction false} ListReachesIff(lib: Library, s: Snap, ks: seq<Key>, m: Whole)
    ensures ListReachesSentDate(lib, s, ks, m) <==>
            exists i :: 0 <= i < |ks| && ReachesSentDate(lib, s, ks[i], m) && AllMatch(lib, s, ks[..i], m)
    decreases ks
  {
    if |ks| > 0 {
      hide Eval, ReachesSentDate, AllMatch;
      var rest := ks[1..];
      ListReachesIff(lib, s, rest, m);
      AllMatchCons(lib, s, ks, 0, m);
      if ListReachesSentDate(lib, s, ks, m) && !ReachesSentDate(lib, s, ks[0], m) {
        var i :| 0 <= i < |rest| && ReachesSentDate(lib, s, rest[i], m) && AllMatch(lib, s, rest[..i], m);
        AllMatchCons(lib, s, ks, i + 1, m);
        assert ReachesSentDate(lib, s, ks[i + 1], m) && AllMatch(lib, s, ks[..i + 1], m);
      }
      if j :| 0 <= j < |ks| && ReachesSentDate(lib, s, ks[j], m) && AllMatch(lib, s, ks[..j], m) {
        if j > 0 {
          AllMatchCons(lib, s, ks, j, m);
          assert ReachesSentDate(lib, s, rest[j - 1], m) && AllMatch(lib, s, rest[..j - 1], m);
        }
      }
    }
  }

  lemma {:induction false} AllMatchCons(lib: Library, s: Snap, ks: seq<Key>, j: nat, m: Whole)
    requires 0 < |ks| && j <= |ks|
    ensures AllMatch(lib, s, ks[..j], m) <==>
            j == 0 || (Eval(lib, s, ks[0], m) == Found(true) && AllMatch(lib, s, ks[1..][..j - 1], m))
  {
    hide Eval;
    if j > 0 {
      var front, rest := ks[..j], ks[1..][..j - 1];
      assert front[0] == ks[0] && forall i :: 0 <= i < |rest| ==> rest[i] == front[i + 1];
      if Eval(lib, s, ks[0], m) == Found(true) && AllMatch(lib, s, rest, m) {
        forall i | 0 <= i < |front| ensures Eval(lib, s, front[i], m) == Found(true) {
          assert i > 0 ==> front[i] == rest[i - 1];
        }
      }
    }
  }

  predicate AllMatch(lib: Library, s: Snap, ks: seq<Key>, m: Whole) {
    forall j :: 0 <= j < |ks| ==> Eval(lib, s, ks[j], m) == Found(true)
  }

  /** A SENT key is reached and the Date field does not parse. */
  predicate Stuck(lib: Library, s: Snap, k: Key, m: Whole) {
    ReachesSentDate(lib, s, k, m) && lib.parseDate(lib.field(m.header, "Date")).None?
  }

  lemma {:induction false} UidSetHolds(s: Snap, ranges: seq<SeqRange>, uid: Uid)
    ensures InUids(s, ranges, uid) <==> |s| > 0 && InSome(s[|s| - 1].uid, ranges, uid)
  {
    if |s| > 0 {
      var last := s[|s| - 1].uid;
      forall i | 0 <= i < |ranges| ensures ResolveRange(s, ranges[i]).Contains(uid) <==> Between(last, ranges[i], uid) {
        RangeMeaning(s, ranges[i], uid);
      }
      hide Between;
      if InUids(s, ranges, uid) {
        var i :| 0 <= i < |ranges| && ResolveRange(s, ranges[i]).Contains(uid);
        assert Between(last, ranges[i], uid);
      }
      if InSome(last, ranges, uid) {
        var i :| 0 <= i < |ranges| && Between(last, ranges[i], uid);
        assert ResolveRange(s, ranges[i]).Contains(uid);
      }
    }
  }

  /** A key not built from other keys. */
  lemma {:induction false} LeafIsCondition(lib: Library, s: Snap, k: Key, m: Whole)
    requires !k.Not? && !k.Or? && !k.List?
    ensures Eval(lib, s, k, m) == if Stuck(lib, s, k, m) then Failed(BadDate) else Found(Holds(lib, s, k, m))
  {
    if k.UidSet? {
      UidSetHolds(s, k.ranges, m.message.uid);
    } else if k.NumberSet? {
      NumberSetMeaning(|s|, k.ranges, m.message.number);
    }
  }

  /** Evaluation fails exactly when it is stuck; otherwise the answer is the condition: AND, OR and NOT as they say. */
  lemma {:induction false} EvalIsCondition(lib: Library, s: Snap, k: Key, m: Whole)
    ensures Eval(lib, s, k, m) == if Stuck(lib, s, k, m) then Failed(BadDate) else Found(Holds(lib, s, k, m))
    decreases k, 0
  {
    match k
    case Not(x) => EvalIsCondition(lib, s, x, m);
    case Or(x, y) =>
      EvalIsCondition(lib, s, x, m);
      EvalIsCondition(lib, s, y, m);
    case List(ks) => EvalAllIsCondition(lib, s, ks, m);
    case _ => LeafIsCondition(lib, s, k, m);
  }

  lemma {:induction false} EvalAllIsCondition(lib: Library, s: Snap, ks: seq<Key>, m: Whole)
    ensures var stuck := ListReachesSentDate(lib, s, ks, m) && lib.parseDate(lib.field(m.header, "Date")).None?;
            EvalAll(lib, s, ks, m) == if stuck then Failed(BadDate) else Found(Holds(lib, s, List(ks), m))
    decreases ks
  {
    if |ks| > 0 {
      EvalIsCondition(lib, s, ks[0], m);
      EvalAllIsCondition(lib, s, ks[1..], m);
      HoldsCons(lib, s, ks, m);
    }
  }

  lemma {:induction false} HoldsCons(lib: Library, s: Snap, ks: seq<Key>, m: Whole)
    requires |ks| > 0
    ensures Holds(lib, s, List(ks), m) <==> Holds(lib, s, ks[0], m) && Holds(lib, s, List(ks[1..]), m)
  {
    assert forall i :: 0 <= i < |ks[1..]| ==> ks[1..][i] == ks[i + 1];
    if Holds(lib, s, ks[0], m) && Holds(lib, s, List(ks[1..]), m) {
      forall i | 0 <= i < |ks| ensures Holds(lib, s, ks[i], m) {
        if i > 0 { assert ks[1..][i - 1] == ks[i]; }
      }
    }
  }

  // ----- loading a message and searching the mailbox

  /** A message with what the database and the store return for it; None is a failed read. */
  datatype Stored = Stored(message: Listed, info: Option<(Instant, int)>, literal: Option<string>)

  function LiteralOf(x: Stored): string {
    if x.literal.Some? then x.literal.value else ""
  }

  /** buildSearchData: the first load that the needs bits ask for and that fails. */
  function LoadError(lib: Library, needs: Needs, x: Stored): Option<Error> {
    if needs.message && x.info.None? then Some(NoSize)
    else if needs.literal && x.literal.None? then Some(NoLiteral)
    else if needs.header && lib.headerOf(if needs.literal then LiteralOf(x) else "").None? then Some(BadHeader)
    else None
  }

  function Load(lib: Library, needs: Needs, x: Stored): Data
    requires LoadError(lib, needs, x).None?
  {
    var literal := if needs.literal then LiteralOf(x) else "";
    Data(x.message, literal, if needs.message then x.info.value.0 else 0, if needs.message then x.info.value.1 else 0,
         if needs.header then lib.headerOf(literal) else None)
  }

  function ApplySearch(lib: Library, c: Compiled, x: Stored): Answer {
    match LoadError(lib, c.needs, x)
    case Some(e) => Failed(e)
    case None => c.op(Load(lib, c.needs, x))
  }

  /** The message with everything loaded; a part that cannot be read is left empty. */
  function WholeOf(lib: Library, x: Stored): Whole {
    Whole(x.message, LiteralOf(x),
          if x.info.Some? then x.info.value.0 else 0, if x.info.Some? then x.info.value.1 else 0,
          match lib.headerOf(LiteralOf(x)) { case Some(h) => h case None => "" })
  }

  lemma {:induction false} HeaderImpliesLiteral(k: Key)
    ensures Mentions(k, ReadsHeader) ==> Mentions(k, ReadsLiteral)
    decreases k
  {
    match k
    case Not(x) => HeaderImpliesLiteral(x);
    case Or(x, y) =>
      HeaderImpliesLiteral(x);
      HeaderImpliesLiteral(y);
    case List(ks) =>
      forall i | 0 <= i < |ks| ensures Mentions(ks[i], ReadsHeader) ==> Mentions(ks[i], ReadsLiteral) {
        HeaderImpliesLiteral(ks[i]);
      }
    case _ =>
  }

  /** A search of a message fails to load exactly what its keys need, or answers as direct evaluation. */
  lemma {:induction false} ApplyExact(lib: Library, s: Snap, k: Key, x: Stored)
    requires Build(lib, s, k).Some?
    ensures ApplySearch(lib, Build(lib, s, k).value, x) ==
            match LoadError(lib, Build(lib, s, k).value.needs, x)
            case Some(e) => Failed(e)
            case None => Eval(lib, s, k, WholeOf(lib, x))
  {
    var c := Build(lib, s, k).value;
    NeedsAreExact(lib, s, k);
    HeaderImpliesLiteral(k);
    if LoadError(lib, c.needs, x).None? {
      OpExact(lib, s, k, Load(lib, c.needs, x), WholeOf(lib, x));
    }
  }

  datatype SearchResult = BadKeys | SearchFailed(error: Error) | Numbers(ns: seq<nat>)

  /** The stored messages are those of the snapshot, numbered from 1. */
  ghost predicate Stores(s: Snap, xs: seq<Stored>) {
    |xs| == |s| && forall i :: 0 <= i < |s| ==> xs[i].message == Listed(i + 1, s[i].uid, s[i].flags)
  }

  function NumberOf(x: Stored, byUid: bool): nat {
    if byUid then x.message.uid else x.message.number
  }

  /** The numbers of the first k messages that match, in order. */
  function Matching(lib: Library, c: Compiled, xs: seq<Stored>, byUid: bool, k: nat): seq<nat>
    requires k <= |xs|
  {
    if k == 0 then []
    else Matching(lib, c, xs, byUid, k - 1) +
         if ApplySearch(lib, c, xs[k - 1]) == Found(true) && NumberOf(xs[k - 1], byUid) != 0
         then [NumberOf(xs[k - 1], byUid)] else []
  }

  ghost predicate SomeFails(lib: Library, c: Compiled, xs: seq<Stored>, e: Error) {
    exists i :: 0 <= i < |xs| && ApplySearch(lib, c, xs[i]) == Failed(e)
  }

  /** Messages are tried in any order, as the parallel workers may; each writes its own place of the result. */
  method SearchMailbox(lib: Library, s: Snap, xs: seq<Stored>, keys: seq<Key>, byUid: bool) returns (r: SearchResult)
    requires Stores(s, xs)
    ensures Build(lib, s, List(keys)).None? <==> r.BadKeys?
    ensures r.SearchFailed? ==> SomeFails(lib, Build(lib, s, List(keys)).value, xs, r.error)
    ensures r.Numbers? ==> forall i :: 0 <= i < |xs| ==> ApplySearch(lib, Build(lib, s, List(keys)).value, xs[i]).Found?
    ensures r.Numbers? ==> r.ns == Matching(lib, Build(lib, s, List(keys)).value, xs, byUid, |xs|)
  {
    var op := Build(lib, s, List(keys));
    if op.None? {
      return BadKeys;
    }
    var c := op.value;
    var result := new nat[|xs|];
    var pending := set i {:trigger xs[i]} | 0 <= i < |xs| :: i;
    while pending != {}
      invariant forall i :: i in pending ==> 0 <= i < |xs|
      invariant forall i :: 0 <= i < |xs| && i !in pending ==> ApplySearch(lib, c, xs[i]).Found?
      invariant forall i :: 0 <= i < |xs| && i !in pending ==>
                  result[i] == if ApplySearch(lib, c, xs[i]) == Found(true) then NumberOf(xs[i], byUid) else 0
      decreases pending
    {
      var i :| i in pending;
      var answer := ApplySearch(lib, c, xs[i]);
      if answer.Failed? {
        return SearchFailed(answer.error);
      }
      result[i] := if answer.yes then NumberOf(xs[i], byUid) else 0;
      pending := pending - {i};
    }
    var ns: seq<nat> := [];
    for k := 0 to |xs|
      invariant ns == Matching(lib, c, xs, byUid, k)
    {
      if result[k] != 0 {
        ns := ns + [result[k]];
      }
    }
    return Numbers(ns);
  }

  ghost predicate Answers(lib: Library, c: Compiled, x: Stored, byUid: bool, n: nat) {
    ApplySearch(lib, c, x) == Found(true) && NumberOf(x, byUid) == n
  }

  lemma {:induction false} MatchingMembers(lib: Library, c: Compiled, xs: seq<Stored>, byUid: bool, k: nat, n: nat)
    requires k <= |xs|
    ensures n in Matching(lib, c, xs, byUid, k) <==>
            n != 0 && exists i :: 0 <= i < k && Answers(lib, c, xs[i], byUid, n)
  {
    if k > 0 {
      MatchingMembers(lib, c, xs, byUid, k - 1, n);
      if n != 0 && Answers(lib, c, xs[k - 1], byUid, n) {
        assert n in Matching(lib, c, xs, byUid, k);
      }
    }
  }

  ghost predicate Increasing(ns: seq<nat>) {
    forall i, j :: 0 <= i < j < |ns| ==> ns[i] < ns[j]
  }

  /** Numbers and UIDs come out in ascending order. */
  lemma {:induction false} MatchingAscends(lib: Library, c: Compiled, s: Snap, xs: seq<Stored>, byUid: bool, k: nat)
    requires Stores(s, xs) && Valid(s) && k <= |xs|
    ensures Increasing(Matching(lib, c, xs, byUid, k))
    ensures forall n :: n in Matching(lib, c, xs, byUid, k) ==> k > 0 && n <= NumberOf(xs[k - 1], byUid)
  {
    if k > 0 {
      MatchingAscends(lib, c, s, xs, byUid, k - 1);
      assert k > 1 ==> NumberOf(xs[k - 2], byUid) < NumberOf(xs[k - 1], byUid);
      var before := Matching(lib, c, xs, byUid, k - 1);
      assert forall i :: 0 <= i < |before| ==> before[i] in before;
    }
  }

  /** The keys hold of message i, and n is its sequence number or, for UID SEARCH, its UID. */
  ghost predicate Sought(lib: Library, s: Snap, keys: seq<Key>, xs: seq<Stored>, i: nat, byUid: bool, n: nat)
    requires i < |s| == |xs|
  {
    Holds(lib, s, List(keys), WholeOf(lib, xs[i])) && n == if byUid then s[i].uid else i + 1
  }

  /** A key in the tree reads a part of the message that is not stored, or a header that does not parse. */
  ghost predicate Unloadable(lib: Library, k: Key, x: Stored) {
    || (Mentions(k, ReadsInfo) && x.info.None?)
    || (Mentions(k, ReadsLiteral) && x.literal.None?)
    || (Mentions(k, ReadsHeader) && x.literal.Some? && lib.headerOf(x.literal.value).None?)
  }

  lemma {:induction false} LoadFailsIff(lib: Library, s: Snap, k: Key, x: Stored)
    requires Build(lib, s, k).Some?
    ensures LoadError(lib, Build(lib, s, k).value.needs, x).Some? <==> Unloadable(lib, k, x)
  {
    hide Build, Mentions;
    NeedsAreExact(lib, s, k);
    HeaderImpliesLiteral(k);
  }

  /** A search of a message fails exactly when what its keys need cannot be loaded, or evaluation is stuck. */
  lemma {:induction false} ApplyFailsIff(lib: Library, s: Snap, k: Key, x: Stored)
    requires Build(lib, s, k).Some?
    ensures ApplySearch(lib, Build(lib, s, k).value, x).Failed? <==>
            Unloadable(lib, k, x) || Stuck(lib, s, k, WholeOf(lib, x))
  {
    hide Unloadable;
    LoadFailsIff(lib, s, k, x);
    ApplyExact(lib, s, k, x);
    EvalIsCondition(lib, s, k, WholeOf(lib, x));
  }

  /**
   * SEARCH and UID SEARCH return exactly the non-zero numbers or UIDs of the messages the keys hold of, whenever no
   * message makes the search fail.
   */
  lemma {:induction false} SearchIsExact(lib: Library, s: Snap, xs: seq<Stored>, keys: seq<Key>, byUid: bool, n: nat)
    requires Stores(s, xs) && Build(lib, s, List(keys)).Some?
    requires forall x :: x in xs ==> !Unloadable(lib, List(keys), x) && !Stuck(lib, s, List(keys), WholeOf(lib, x))
    ensures n in Matching(lib, Build(lib, s, List(keys)).value, xs, byUid, |xs|)
       <==> n != 0 && exists i :: 0 <= i < |s| && Sought(lib, s, keys, xs, i, byUid, n)
  {
    var c := Build(lib, s, List(keys)).value;
    MatchingMembers(lib, c, xs, byUid, |xs|, n);
    forall i | 0 <= i < |s| ensures Answers(lib, c, xs[i], byUid, n) <==> Sought(lib, s, keys, xs, i, byUid, n) {
      assert xs[i].message == Listed(i + 1, s[i].uid, s[i].flags);
      LoadFailsIff(lib, s, List(keys), xs[i]);
      ApplyExact(lib, s, List(keys), xs[i]);
      EvalIsCondition(lib, s, List(keys), WholeOf(lib, xs[i]));
    }
  }
}

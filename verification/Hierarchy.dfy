/** internal/state/paths.go and the name logic of Create, Rename and Delete in internal/state/state.go. */
module Hierarchy {
  import opened Base
  import Flags

  type Name = string

  /** The hierarchy delimiter; None is the empty delimiter, which makes names flat. */
  type Delimiter = Option<char>

  /** s is superior to n: n goes on with the delimiter after s. */
  predicate Superior(s: Name, n: Name, d: Delimiter) {
    d.Some? && |s| < |n| && n[|s|] == d.value && n[..|s|] == s
  }

  lemma {:induction false} SuperiorTransitive(a: Name, b: Name, c: Name, d: Delimiter)
    requires Superior(a, b, d) && Superior(b, c, d)
    ensures Superior(a, c, d)
  {
    assert c[..|a|] == c[..|b|][..|a|];
    assert c[|a|] == c[..|b|][|a|];
  }

  // ----- strings.Split and strings.Join with a one-character separator

  function FirstIndex(n: Name, c: char): (i: nat)
    ensures i <= |n| && (forall j :: 0 <= j < i ==> n[j] != c) && (i < |n| ==> n[i] == c)
  {
    if |n| == 0 || n[0] == c then 0 else 1 + FirstIndex(n[1..], c)
  }

  function Split(n: Name, c: char): (parts: seq<Name>)
    ensures |parts| > 0
    decreases |n|
  {
    var i := FirstIndex(n, c);
    if i == |n| then [n] else [n[..i]] + Split(n[i + 1..], c)
  }

  function Join(parts: seq<Name>, c: char): Name {
    if |parts| == 0 then [] else if |parts| == 1 then parts[0] else parts[0] + [c] + Join(parts[1..], c)
  }

  /** The first i parts, joined. */
  function Upper(n: Name, c: char, i: nat): Name
    requires i <= |Split(n, c)|
  {
    Join(Split(n, c)[..i], c)
  }

  /** Joining all but the first part of the upper levels. */
  lemma {:induction false} UpperStep(n: Name, c: char, i: nat)
    requires 1 <= i < |Split(n, c)|
    ensures var k := FirstIndex(n, c);
            && k < |n|
            && i - 1 < |Split(n[k + 1..], c)|
            && Upper(n, c, i) == if i == 1 then n[..k] else n[..k + 1] + Upper(n[k + 1..], c, i - 1)
  {
    var k := FirstIndex(n, c);
    var rest := Split(n[k + 1..], c);
    var parts := Split(n, c)[..i];
    assert parts[1..] == rest[..i - 1];
    assert n[..k] + [c] == n[..k + 1];
  }

  /** Superiors of a name and superiors of what follows its first delimiter. */
  lemma {:induction false} SuperiorBelow(n: Name, k: nat, t: Name, d: Delimiter)
    requires k < |n|
    ensures Superior(n[..k + 1] + t, n, d) <==> Superior(t, n[k + 1..], d)
  {
    var s, tail := n[..k + 1] + t, n[k + 1..];
    if |s| < |n| {
      assert n[|s|] == tail[|t|];
      assert n[..|s|] == n[..k + 1] + tail[..|t|];
      assert s[k + 1..] == t;
    }
  }

  /** Each joined prefix is a superior, longer ones later. */
  lemma {:induction false} UpperIsSuperior(n: Name, c: char, i: nat)
    requires 1 <= i < |Split(n, c)|
    ensures Superior(Upper(n, c, i), n, Some(c))
    ensures i > 1 ==> |Upper(n, c, i - 1)| < |Upper(n, c, i)|
    decreases |n|
  {
    hide Split, Upper, FirstIndex;
    UpperStep(n, c, i);
    var k := FirstIndex(n, c);
    if i > 1 {
      hide Superior;
      UpperStep(n, c, i - 1);
      UpperIsSuperior(n[k + 1..], c, i - 1);
      SuperiorBelow(n, k, Upper(n[k + 1..], c, i - 1), Some(c));
    }
  }

  /** Each superior is one of the joined prefixes. */
  lemma {:induction false} SuperiorIsUpper(n: Name, c: char, s: Name) returns (i: nat)
    requires Superior(s, n, Some(c))
    ensures 1 <= i < |Split(n, c)| && Upper(n, c, i) == s
    decreases |n|
  {
    var k := FirstIndex(n, c);
    assert |Split(n, c)| == 1 + |Split(n[k + 1..], c)|;
    hide Split, Upper, FirstIndex;
    if |s| == k {
      i := 1;
      UpperStep(n, c, i);
    } else {
      assert s == n[..k + 1] + s[k + 1..];
      SuperiorBelow(n, k, s[k + 1..], Some(c));
      var j := SuperiorIsUpper(n[k + 1..], c, s[k + 1..]);
      i := j + 1;
      UpperStep(n, c, i);
    }
  }

  /** listSuperiors: exactly the superiors, the nearest to the root first. */
  method ListSuperiors(n: Name, d: Delimiter) returns (superiors: seq<Name>)
    ensures forall s :: s in superiors <==> Superior(s, n, d)
    ensures forall i, j :: 0 <= i < j < |superiors| ==> |superiors[i]| < |superiors[j]|
  {
    superiors := [];
    if d.None? {
      return;
    }
    var parts := Split(n, d.value);
    for i := 1 to |parts|
      invariant |superiors| == i - 1
      invariant forall j :: 0 <= j < i - 1 ==> superiors[j] == Upper(n, d.value, j + 1)
      invariant forall j, k :: 0 <= j < k < |superiors| ==> |superiors[j]| < |superiors[k]|
    {
      UpperIsSuperior(n, d.value, i);
      assert i > 1 ==> superiors[i - 2] == Upper(n, d.value, i - 1);
      superiors := superiors + [Join(parts[..i], d.value)];
    }
    forall s ensures s in superiors <==> Superior(s, n, d) {
      if s in superiors {
        var j :| 0 <= j < |superiors| && superiors[j] == s;
        UpperIsSuperior(n, d.value, j + 1);
      }
      if Superior(s, n, d) {
        var i := SuperiorIsUpper(n, d.value, s);
        assert superiors[i - 1] == s;
      }
    }
  }

  // ----- listInferiors

  /** The order of strings. */
  predicate Less(a: Name, b: Name) {
    |b| > 0 && (|a| == 0 || a[0] < b[0] || (a[0] == b[0] && Less(a[1..], b[1..])))
  }

  lemma {:induction false} LessTotal(a: Name, b: Name)
    ensures a != b ==> Less(a, b) || Less(b, a)
    ensures !(Less(a, b) && Less(b, a)) && !Less(a, a)
    decreases |a|
  {
    if |a| > 0 && |b| > 0 && a[0] == b[0] {
      LessTotal(a[1..], b[1..]);
      assert a == [a[0]] + a[1..] && b == [b[0]] + b[1..];
    }
    if |a| > 0 {
      LessTotal(a[1..], a[1..]);
    }
  }

  lemma {:induction false} LessTransitive(a: Name, b: Name, c: Name)
    requires Less(a, b) && Less(b, c)
    ensures Less(a, c)
    decreases |a|
  {
    if |a| > 0 && a[0] == b[0] == c[0] {
      LessTransitive(a[1..], b[1..], c[1..]);
    }
  }

  /** A superior comes before its inferiors in the order. */
  lemma {:induction false} SuperiorLess(s: Name, n: Name, d: Delimiter)
    requires Superior(s, n, d)
    ensures Less(s, n)
    decreases |s|
  {
    if |s| > 0 {
      assert n[0] == n[..|s|][0] && n[1..][..|s| - 1] == n[..|s|][1..];
      SuperiorLess(s[1..], n[1..], d);
    }
  }

  ghost predicate Descending(ns: seq<Name>) {
    forall i, j :: 0 <= i < j < |ns| ==> Less(ns[j], ns[i])
  }

  function InsertDown(ns: seq<Name>, x: Name): seq<Name> {
    if |ns| == 0 || Less(ns[0], x) then [x] + ns else [ns[0]] + InsertDown(ns[1..], x)
  }

  /** slices.Sort followed by xslices.Reverse. */
  function SortDown(ns: seq<Name>): seq<Name> {
    if |ns| == 0 then [] else InsertDown(SortDown(ns[..|ns| - 1]), ns[|ns| - 1])
  }

  lemma {:induction false} InsertDownMembers(ns: seq<Name>, x: Name)
    ensures forall n :: n in InsertDown(ns, x) <==> n == x || n in ns
  {
    if |ns| > 0 && !Less(ns[0], x) {
      InsertDownMembers(ns[1..], x);
    }
  }

  lemma {:induction false} InsertDownSorts(ns: seq<Name>, x: Name)
    requires Descending(ns) && x !in ns
    ensures Descending(InsertDown(ns, x))
  {
    if |ns| > 0 {
      if Less(ns[0], x) {
        forall j | 0 < j < |ns| ensures Less(ns[j], x) {
          LessTransitive(ns[j], ns[0], x);
        }
      } else {
        var rest := InsertDown(ns[1..], x);
        InsertDownSorts(ns[1..], x);
        InsertDownMembers(ns[1..], x);
        LessTotal(ns[0], x);
        forall j | 0 <= j < |rest| ensures Less(rest[j], ns[0]) {
          assert rest[j] == x || rest[j] in ns[1..];
        }
      }
    }
  }

  predicate NoRepeat(ns: seq<Name>) {
    forall i, j :: 0 <= i < j < |ns| ==> ns[i] != ns[j]
  }

  lemma {:induction false} SortDownSorts(ns: seq<Name>)
    requires NoRepeat(ns)
    ensures Descending(SortDown(ns)) && forall n :: n in SortDown(ns) <==> n in ns
  {
    if |ns| > 0 {
      var init, last := ns[..|ns| - 1], ns[|ns| - 1];
      SortDownSorts(init);
      InsertDownSorts(SortDown(init), last);
      InsertDownMembers(SortDown(init), last);
      assert ns == init + [last];
    }
  }

  /** listInferiors: exactly the inferiors, each once, and before any of its own superiors. */
  method ListInferiors(parent: Name, d: Delimiter, names: seq<Name>) returns (inferiors: seq<Name>)
    requires NoRepeat(names)
    ensures forall n :: n in inferiors <==> n in names && Superior(parent, n, d)
    ensures NoRepeat(inferiors) && Descending(inferiors)
    ensures forall i, j :: 0 <= i < j < |inferiors| ==> !Superior(inferiors[i], inferiors[j], d)
  {
    var kept: seq<Name> := [];
    for i := 0 to |names|
      invariant forall n :: n in kept <==> n in names[..i] && Superior(parent, n, d)
      invariant NoRepeat(kept)
    {
      var superiors := ListSuperiors(names[i], d);
      assert names[..i + 1] == names[..i] + [names[i]];
      if parent in superiors {
        kept := kept + [names[i]];
      }
    }
    assert names[..|names|] == names;
    inferiors := SortDown(kept);
    SortDownSorts(kept);
    DeepFirst(inferiors, d);
  }

  lemma {:induction false} DeepFirst(ns: seq<Name>, d: Delimiter)
    requires Descending(ns)
    ensures NoRepeat(ns)
    ensures forall i, j :: 0 <= i < j < |ns| ==> !Superior(ns[i], ns[j], d)
  {
    forall i, j | 0 <= i < j < |ns| ensures ns[i] != ns[j] && !Superior(ns[i], ns[j], d) {
      LessTotal(ns[i], ns[j]);
      if Superior(ns[i], ns[j], d) {
        SuperiorLess(ns[i], ns[j], d);
      }
    }
  }

  // ----- the mailbox table

  type Id = nat

  type Table = map<Id, Name>

  ghost predicate Distinct(t: Table) {
    forall a, b :: a in t && b in t && t[a] == t[b] ==> a == b
  }

  ghost predicate Named(t: Table, n: Name) {
    exists id :: id in t && t[id] == n
  }

  /** Every superior of a name is a name. */
  ghost predicate Closed(t: Table, d: Delimiter) {
    forall id, s :: id in t && Superior(s, t[id], d) ==> Named(t, s)
  }

  datatype Error = NotAllowed | BeginsWithSeparator | AdjacentSeparator | ExistingMailbox | NoSuchMailbox | NameConflict

  datatype Result = Done | Failed(error: Error)

  const INBOX: Name := "INBOX"
  const RECOVERY: Name := "recovered messages"

  predicate HasPrefix(n: Name, p: Name) {
    |p| <= |n| && n[..|p|] == p
  }

  function TrimTrailing(n: Name, c: char): Name {
    if |n| > 0 && n[|n| - 1] == c then TrimTrailing(n[..|n| - 1], c) else n
  }

  /** The longest prefix that does not end in the character; only the character is cut off. */
  lemma {:induction false} TrimTrailingIs(n: Name, c: char)
    ensures var t := TrimTrailing(n, c);
            && |t| <= |n| && t == n[..|t|] && (|t| > 0 ==> t[|t| - 1] != c)
            && forall i :: |t| <= i < |n| ==> n[i] == c
  {
    if |n| > 0 && n[|n| - 1] == c {
      TrimTrailingIs(n[..|n| - 1], c);
    }
  }

  predicate Adjacent(n: Name, c: char) {
    exists i :: 0 < i < |n| && n[i - 1] == c && n[i] == c
  }

  function SetOf(ns: seq<Name>): set<Name> {
    set n | n in ns
  }

  /** t' is t with new entries for exactly the given names. */
  ghost predicate Grown(t: Table, t': Table, added: set<Name>) {
    && (forall id :: id in t ==> id in t' && t'[id] == t[id])
    && (forall id :: id in t' && id !in t ==> t'[id] in added && !Named(t, t'[id]))
    && (forall n :: n in added ==> Named(t', n))
  }

  // ----- Create

  function SuperiorSet(n: Name, d: Delimiter): (ss: set<Name>)
    ensures forall s :: s in ss <==> Superior(s, n, d)
  {
    set k | 0 <= k < |n| && Superior(n[..k], n, d) :: n[..k]
  }

  lemma {:induction false} GrownClosed(t: Table, t': Table, n: Name, added: set<Name>, d: Delimiter)
    requires Closed(t, d) && Grown(t, t', added) && (added == SuperiorSet(n, d) || added == SuperiorSet(n, d) + {n})
    ensures Closed(t', d)
  {
    forall id, s | id in t' && Superior(s, t'[id], d) ensures Named(t', s) {
      if id in t {
        GrownKeeps(t, t', added, s);
      } else if t'[id] != n {
        SuperiorTransitive(s, t'[id], n, d);
      }
    }
  }

  lemma {:induction false} GrownKeeps(t: Table, t': Table, added: set<Name>, n: Name)
    requires Grown(t, t', added)
    ensures Named(t', n) ==> Named(t, n) || n in added
    ensures Named(t, n) ==> Named(t', n)
  {
    if Named(t, n) {
      var id :| id in t && t[id] == n;
      assert id in t' && t'[id] == n;
    }
  }

  /** The name Create uses: without a trailing delimiter. */
  function Trimmed(n: Name, d: Delimiter): Name {
    if d.Some? then TrimTrailing(n, d.value) else n
  }

  lemma {:induction false} TrimmedIs(n: Name, d: Delimiter)
    ensures var t := Trimmed(n, d);
            && |t| <= |n| && t == n[..|t|] && (|t| > 0 && d.Some? ==> t[|t| - 1] != d.value)
            && forall i :: |t| <= i < |n| ==> d == Some(n[i])
  {
    if d.Some? {
      TrimTrailingIs(n, d.value);
    }
  }

  ghost function CreateResult(t: Table, n: Name, d: Delimiter): Result {
    if RECOVERY <= Flags.Lower(n) then Failed(NotAllowed)
    else if n != [] && d == Some(n[0]) then Failed(BeginsWithSeparator)
    else if exists i :: 0 <= i < |n| - 1 && d == Some(n[i]) == Some(n[i + 1]) then Failed(AdjacentSeparator)
    else if Named(t, Trimmed(n, d)) then Failed(ExistingMailbox)
    else Done
  }

  // ----- Rename

  /** What the name of a mailbox becomes when `from` is renamed to `to`. */
  function Moved(n: Name, from: Name, to: Name, d: Delimiter): Name {
    if n == from || Superior(from, n, d) then to + n[|from|..] else n
  }

  function Shifted(n: Name, from: Name, to: Name): Name {
    if |from| <= |n| then to + n[|from|..] else n
  }

  /** The table after the names in `done` have been moved. */
  ghost function MoveSome(t: Table, done: set<Name>, from: Name, to: Name): Table {
    map id | id in t :: if t[id] in done then Shifted(t[id], from, to) else t[id]
  }

  ghost function RenameResult(t: Table, from: Name, to: Name, d: Delimiter): Result {
    if Flags.Lower(from) == RECOVERY || Flags.Lower(to) == RECOVERY then Failed(NotAllowed)
    else if !Named(t, from) then Failed(NoSuchMailbox)
    else if Named(t, to) || Superior(from, to, d) then Failed(ExistingMailbox)
    else Done
  }

  /** Exactly `from` and its inferiors change, by the prefix; the only new mailboxes are missing superiors of `to`. */
  ghost predicate Renamed(t: Table, t': Table, from: Name, to: Name, d: Delimiter) {
    && (forall id :: id in t ==> id in t' && t'[id] == Moved(t[id], from, to, d))
    && (forall id :: id in t' && id !in t ==> Superior(t'[id], to, d) && !Named(t, t'[id]))
    && (forall s :: Superior(s, to, d) ==> Named(t', s))
  }

  /** The name n is to move to is held by a mailbox that does not move, or that moves after n. */
  ghost predicate BlockedAt(t: Table, from: Name, to: Name, d: Delimiter, n: Name) {
    var x := Shifted(n, from, to);
    Named(t, x) && x != from && (!Superior(from, x, d) || Less(x, n))
  }

  ghost predicate Blocked(t: Table, from: Name, to: Name, d: Delimiter) {
    exists n :: Named(t, n) && Superior(from, n, d) && BlockedAt(t, from, to, d, n)
  }

  class Mailboxes {
    const delimiter: Delimiter
    var table: Table
    var next: Id

    ghost predicate Valid()
      reads this
    {
      Distinct(table) && forall id :: id in table ==> id < next
    }

    /** GetMailboxByName and MailboxExistsWithName. */
    method ByName(n: Name) returns (r: Option<Id>)
      requires Valid()
      ensures r.Some? <==> Named(table, n)
      ensures r.Some? ==> r.value in table && table[r.value] == n
    {
      for id := 0 to next
        invariant forall k :: 0 <= k < id && k in table ==> table[k] != n
      {
        if id in table && table[id] == n {
          return Some(id);
        }
      }
      return None;
    }

    /** A new mailbox, with the name the connector was asked for. */
    method Add(n: Name)
      requires Valid() && !Named(table, n)
      modifies this
      ensures Valid() && Grown(old(table), table, {n})
    {
      ghost var before := table;
      table := table[next := n];
      assert table[next] == n;
      next := next + 1;
      assert forall id :: id in before ==> table[id] == before[id];
    }

    /** Sets a name; the table refuses a second mailbox with the same name. */
    method SetName(id: Id, n: Name) returns (ok: bool)
      requires Valid() && id in table
      modifies this`table
      ensures Valid() && ok == (old(table)[id] == n || !Named(old(table), n))
      ensures table == if ok then old(table)[id := n] else old(table)
    {
      var other := ByName(n);
      if other.Some? && other.value != id {
        return false;
      }
      table := table[id := n];
      return true;
    }

    method AddAll(ns: seq<Name>)
      requires Valid() && NoRepeat(ns) && forall n :: n in ns ==> !Named(table, n)
      modifies this
      ensures Valid() && Grown(old(table), table, SetOf(ns))
    {
      for i := 0 to |ns|
        invariant Valid() && Grown(old(table), table, SetOf(ns[..i]))
      {
        ghost var before := table;
        GrownKeeps(old(table), table, SetOf(ns[..i]), ns[i]);
        Add(ns[i]);
        GrownMore(old(table), before, table, ns, i);
      }
      assert ns[..|ns|] == ns;
    }

    /** The superiors of n that do not exist; blocked when one of those that do is the given name. */
    method MissingSuperiors(n: Name, from: Option<Name>) returns (missing: seq<Name>, blocked: bool)
      requires Valid() && (from.Some? ==> Named(table, from.value))
      ensures blocked == (from.Some? && Superior(from.value, n, delimiter))
      ensures !blocked ==> NoRepeat(missing)
      ensures !blocked ==> forall s :: s in missing <==> Superior(s, n, delimiter) && !Named(table, s)
    {
      missing := [];
      var superiors := ListSuperiors(n, delimiter);
      for i := 0 to |superiors|
        invariant forall s :: s in missing <==> s in superiors[..i] && !Named(table, s)
        invariant from.Some? ==> from.value !in superiors[..i]
        invariant NoRepeat(missing)
      {
        assert superiors[..i + 1] == superiors[..i] + [superiors[i]];
        assert superiors[i] !in superiors[..i];
        assert Superior(superiors[i], n, delimiter);
        var exists_ := ByName(superiors[i]);
        if exists_.Some? {
          if from == Some(superiors[i]) {
            return missing, true;
          }
        } else {
          missing := missing + [superiors[i]];
        }
      }
      assert superiors[..|superiors|] == superiors;
      return missing, false;
    }

    method Create(name: Name) returns (r: Result)
      requires Valid()
      modifies this
      ensures Valid() && r == CreateResult(old(table), name, delimiter)
      ensures r.Failed? ==> table == old(table)
      ensures var n := Trimmed(name, delimiter);
              r.Done? ==> Grown(old(table), table, SuperiorSet(n, delimiter) + {n})
      ensures old(Closed(table, delimiter)) ==> Closed(table, delimiter)
    {
      if HasPrefix(Flags.Lower(name), RECOVERY) {
        return Failed(NotAllowed);
      }
      if delimiter.Some? {
        if HasPrefix(name, [delimiter.value]) {
          return Failed(BeginsWithSeparator);
        }
        if Adjacent(name, delimiter.value) {
          return Failed(AdjacentSeparator);
        }
      }
      var n := Trimmed(name, delimiter);
      var existing := ByName(n);
      if existing.Some? {
        return Failed(ExistingMailbox);
      }
      var missing, _ := MissingSuperiors(n, None);
      AddAll(missing + [n]);
      GrownByMissing(old(table), table, missing, n, delimiter);
      if old(Closed(table, delimiter)) {
        GrownClosed(old(table), table, n, SuperiorSet(n, delimiter) + {n}, delimiter);
      }
      return Done;
    }

    /** GetAllMailboxesWithAttr, names only. */
    method AllNames() returns (names: seq<Name>)
      requires Valid()
      ensures NoRepeat(names) && forall n :: n in names <==> Named(table, n)
    {
      names := [];
      for id := 0 to next
        invariant NoRepeat(names)
        invariant forall n :: n in names <==> exists k :: 0 <= k < id && k in table && table[k] == n
      {
        if id in table {
          assert table[id] !in names;
          names := names + [table[id]];
        }
      }
    }

    /** Moves every inferior of `from`, in the order listInferiors gives; stops at a name that is held. */
    method MoveInferiors(from: Name, to: Name, ghost base: Table) returns (ok: bool)
      requires Valid() && Distinct(base) && Named(base, from) && !Named(base, to) && !Superior(from, to, delimiter)
      requires table == MoveSome(base, {from}, from, to)
      modifies this`table
      ensures Valid()
      ensures ok ==> table == MoveSome(base, Moving(base, from, delimiter), from, to)
      ensures ok <==> !Blocked(base, from, to, delimiter)
    {
      hide Distinct, Named, Superior, BlockedAt, MoveSome, Less, Descending;
      var names := AllNames();
      var inferiors := ListInferiors(from, delimiter, names);
      InferiorsOfBase(base, table, from, to, delimiter);
      ghost var done := {from};
      assert inferiors[..0] == [];
      for i := 0 to |inferiors|
        invariant Valid()
        invariant done == {from} + SetOf(inferiors[..i])
        invariant table == MoveSome(base, done, from, to)
        invariant forall k :: 0 <= k < i ==> Passed(base, from, to, delimiter, inferiors[k])
      {
        MoveNext(base, from, to, delimiter, inferiors, i);
        var n := inferiors[i];
        var id := ByName(n);
        SameMailbox(base, done, from, to, n, id.value);
        ok := SetName(id.value, to + n[|from|..]);
        if !ok {
          return;
        }
        done := done + {n};
      }
      AllMoved(base, from, to, delimiter, inferiors);
      return true;
    }

    method Rename(from: Name, to: Name) returns (r: Result)
      requires Valid()
      modifies this
      ensures Valid() && (r.Failed? ==> table == old(table))
      ensures r != Failed(NameConflict) ==> r == RenameResult(old(table), from, to, delimiter)
      ensures r == Failed(NameConflict) <==>
              && RenameResult(old(table), from, to, delimiter).Done? && from != INBOX
              && Blocked(old(table), from, to, delimiter)
      ensures r.Done? && from != INBOX ==> Renamed(old(table), table, from, to, delimiter)
      ensures r.Done? && from == INBOX ==> Grown(old(table), table, SuperiorSet(to, delimiter) + {to})
      ensures old(Closed(table, delimiter)) ==> Closed(table, delimiter) && r != Failed(NameConflict)
    {
      if Flags.Lower(from) == RECOVERY || Flags.Lower(to) == RECOVERY {
        return Failed(NotAllowed);
      }
      var id := ByName(from);
      if id.None? {
        return Failed(NoSuchMailbox);
      }
      var existing := ByName(to);
      if existing.Some? {
        return Failed(ExistingMailbox);
      }
      var missing, blocked := MissingSuperiors(to, Some(from));
      if blocked {
        return Failed(ExistingMailbox);
      }
      if from == INBOX {
        AddAll(missing + [to]);
        GrownByMissing(old(table), table, missing, to, delimiter);
        if old(Closed(table, delimiter)) {
          GrownClosed(old(table), table, to, SuperiorSet(to, delimiter) + {to}, delimiter);
        }
        return Done;
      }
      r := RenameTree(id.value, from, to, missing);
    }

    method RenameTree(id: Id, from: Name, to: Name, missing: seq<Name>) returns (r: Result)
      requires Valid() && id in table && table[id] == from && !Named(table, to) && !Superior(from, to, delimiter)
      requires NoRepeat(missing) && forall s :: s in missing <==> Superior(s, to, delimiter) && !Named(table, s)
      modifies this
      ensures Valid() && (r.Done? || r == Failed(NameConflict))
      ensures r.Failed? ==> table == old(table)
      ensures r.Done? ==> Renamed(old(table), table, from, to, delimiter)
      ensures r.Done? <==> !Blocked(old(table), from, to, delimiter)
      ensures old(Closed(table, delimiter)) ==> Closed(table, delimiter) && r.Done?
    {
      var before, beforeNext := table, next;
      AddAll(missing);
      ghost var base := table;
      BaseOfRename(before, base, missing, from, to, delimiter);
      BlockedGrown(before, base, from, to, delimiter);
      if Closed(before, delimiter) {
        ClosedNotBlocked(before, from, to, delimiter);
      }
      assert table[id] == from;
      var ok := SetName(id, to);
      RootMoved(base, id, from, to);
      ok := MoveInferiors(from, to, base);
      if !ok {
        table, next := before, beforeNext;
        return Failed(NameConflict);
      }
      MovedIsRenamed(before, base, from, to, delimiter);
      if Closed(base, delimiter) {
        MovedClosed(base, from, to, delimiter);
      }
      return Done;
    }
  }

  /** The table with the missing superiors of the new name in place. */
  ghost predicate Prepared(base: Table, from: Name, to: Name, d: Delimiter) {
    && Named(base, from) && !Named(base, to) && !Superior(from, to, d)
    && forall s :: Superior(s, to, d) ==> Named(base, s)
  }

  lemma {:induction false} BaseOfRename(t: Table, base: Table, missing: seq<Name>, from: Name, to: Name, d: Delimiter)
    requires Grown(t, base, SetOf(missing)) && Named(t, from) && !Named(t, to) && !Superior(from, to, d)
    requires forall s :: s in missing <==> Superior(s, to, d) && !Named(t, s)
    ensures Prepared(base, from, to, d) && Grown(t, base, SuperiorSet(to, d))
    ensures Closed(t, d) ==> Closed(base, d)
  {
    GrownKeeps(t, base, SetOf(missing), from);
    GrownKeeps(t, base, SetOf(missing), to);
    forall s | Superior(s, to, d) ensures Named(base, s) {
      GrownKeeps(t, base, SetOf(missing), s);
    }
    if Closed(t, d) {
      GrownClosed(t, base, to, SuperiorSet(to, d), d);
    }
  }

  lemma {:induction false} RootMoved(base: Table, id: Id, from: Name, to: Name)
    requires Distinct(base) && id in base && base[id] == from
    ensures base[id := to] == MoveSome(base, {from}, from, to)
  {
    assert to + from[|from|..] == to;
  }

  lemma {:induction false} MoveAll(base: Table, from: Name, to: Name, d: Delimiter)
    ensures var t := MoveSome(base, Moving(base, from, d), from, to);
            t.Keys == base.Keys && forall id :: id in base ==> t[id] == Moved(base[id], from, to, d)
  {
  }

  lemma {:induction false} MovedIsRenamed(t: Table, base: Table, from: Name, to: Name, d: Delimiter)
    requires Grown(t, base, SuperiorSet(to, d)) && Prepared(base, from, to, d)
    ensures Renamed(t, MoveSome(base, Moving(base, from, d), from, to), from, to, d)
  {
    var t' := MoveSome(base, Moving(base, from, d), from, to);
    MoveAll(base, from, to, d);
    forall s | Superior(s, to, d) ensures Moved(s, from, to, d) == s && Named(t', s) {
      SuperiorStays(s, from, to, d);
      var id :| id in base && base[id] == s;
      assert t'[id] == s;
    }
  }

  /** Superiors of the new name are not moved. */
  lemma {:induction false} SuperiorStays(s: Name, from: Name, to: Name, d: Delimiter)
    requires Superior(s, to, d) && !Superior(from, to, d)
    ensures Moved(s, from, to, d) == s
  {
    if Superior(from, s, d) {
      SuperiorTransitive(from, s, to, d);
    }
  }

  /** A rename in a closed table leaves it closed. */
  lemma {:induction false} MovedClosed(base: Table, from: Name, to: Name, d: Delimiter)
    requires Closed(base, d) && Prepared(base, from, to, d)
    ensures Closed(MoveSome(base, Moving(base, from, d), from, to), d)
  {
    var t' := MoveSome(base, Moving(base, from, d), from, to);
    MoveAll(base, from, to, d);
    forall id, s | id in t' && Superior(s, t'[id], d) ensures Named(t', s) {
      var origin := OriginOf(base, from, to, d, base[id], s);
      var k :| k in base && base[k] == origin;
      assert t'[k] == s;
    }
  }

  /** A superior of a moved name is the moved form of a name of the old table. */
  lemma {:induction false} OriginOf(base: Table, from: Name, to: Name, d: Delimiter, n: Name, s: Name) returns (o: Name)
    requires Closed(base, d) && Prepared(base, from, to, d) && Named(base, n) && Superior(s, Moved(n, from, to, d), d)
    ensures Named(base, o) && Moved(o, from, to, d) == s
  {
    var x := Moved(n, from, to, d);
    var id :| id in base && base[id] == n;
    if n != from && !Superior(from, n, d) {
      o := s;
      if Superior(from, s, d) {
        SuperiorTransitive(from, s, n, d);
      }
    } else if |s| < |to| {
      o := s;
      assert to[..|s|] == x[..|s|] && to[|s|] == x[|s|];
      SuperiorStays(s, from, to, d);
    } else {
      o := from + s[|to|..];
      BackAcross(n, from, to, d, s);
    }
  }

  lemma {:induction false} BackAcross(n: Name, from: Name, to: Name, d: Delimiter, s: Name)
    requires (n == from || Superior(from, n, d)) && Superior(s, to + n[|from|..], d) && |to| <= |s|
    ensures var o := from + s[|to|..];
            && Superior(o, n, d) && (o == from || Superior(from, o, d)) && Moved(o, from, to, d) == s
  {
    var x := to + n[|from|..];
    var o := from + s[|to|..];
    assert n == from + n[|from|..];
    assert s == x[..|s|] && s[..|to|] == to;
    assert s[|to|..] == n[|from|..][..|s| - |to|];
    assert n[..|o|] == o;
    assert s == to + s[|to|..];
    assert o[|from|..] == s[|to|..];
  }

  // ----- Delete

  /** Deleting a mailbox keeps the table closed exactly when the mailbox has no inferiors. */
  lemma {:induction false} DeleteKeepsClosedIff(t: Table, id: Id, d: Delimiter)
    requires Distinct(t) && Closed(t, d) && id in t
    ensures Closed(t - {id}, d) <==> forall k :: k in t ==> !Superior(t[id], t[k], d)
  {
    var t' := t - {id};
    if forall k :: k in t ==> !Superior(t[id], t[k], d) {
      forall k, s | k in t' && Superior(s, t'[k], d) ensures Named(t', s) {
        assert Named(t, s);
        var own :| own in t && t[own] == s;
        assert own in t' && t'[own] == s;
      }
    } else {
      var k :| k in t && Superior(t[id], t[k], d);
      assert k in t' && t'[k] == t[k];
      assert !Named(t', t[id]);
    }
  }

  /** The names a rename moves. */
  ghost function Moving(t: Table, from: Name, d: Delimiter): set<Name> {
    set id | id in t && (t[id] == from || Superior(from, t[id], d)) :: t[id]
  }

  lemma {:induction false} InferiorsOfBase(base: Table, t: Table, from: Name, to: Name, d: Delimiter)
    requires t == MoveSome(base, {from}, from, to) && !Superior(from, to, d)
    ensures forall n :: Superior(from, n, d) ==> (Named(t, n) <==> Named(base, n))
  {
    forall n | Superior(from, n, d) ensures Named(t, n) <==> Named(base, n) {
      if Named(t, n) {
        var id :| id in t && t[id] == n;
        assert base[id] != from;
      }
      if Named(base, n) {
        var id :| id in base && base[id] == n;
        assert t[id] == n;
      }
    }
  }

  /** The mailbox found under a name that has not been moved is the one that had it from the start. */
  lemma {:induction false} SameMailbox(base: Table, done: set<Name>, from: Name, to: Name, n: Name, id: Id)
    requires Distinct(base) && Distinct(MoveSome(base, done, from, to)) && Named(base, n) && n !in done && |from| <= |n|
    requires id in base && MoveSome(base, done, from, to)[id] == n
    ensures base[id] == n
    ensures MoveSome(base, done, from, to)[id := to + n[|from|..]] == MoveSome(base, done + {n}, from, to)
  {
    var own :| own in base && base[own] == n;
    assert MoveSome(base, done, from, to)[own] == n;
  }

  /** n has moved, and nothing was in its way. */
  ghost predicate Passed(base: Table, from: Name, to: Name, d: Delimiter, n: Name) {
    Superior(from, n, d) && !BlockedAt(base, from, to, d, n)
  }

  /** When inferiors move in descending order, the next one finds its new name held exactly when it is blocked. */
  lemma {:induction false} HeldIff(base: Table, from: Name, to: Name, d: Delimiter, inferiors: seq<Name>, i: nat)
    requires i < |inferiors| && Descending(inferiors) && from != to
    requires forall n :: n in inferiors <==> Named(base, n) && Superior(from, n, d)
    ensures var n := inferiors[i];
            var x := Shifted(n, from, to);
            Named(MoveSome(base, {from} + SetOf(inferiors[..i]), from, to), x) <==> BlockedAt(base, from, to, d, n)
  {
    var done, n := {from} + SetOf(inferiors[..i]), inferiors[i];
    var x := Shifted(n, from, to);
    assert n in inferiors;
    NotMovedYet(inferiors, i, x);
    SamePrefix(n, x, from, to);
    if Named(MoveSome(base, done, from, to), x) {
      var id :| id in base && MoveSome(base, done, from, to)[id] == x;
      HolderStays(base, done, from, to, d, inferiors, i, id);
    }
    if BlockedAt(base, from, to, d, n) {
      StillThere(base, done, from, to, x);
    }
  }

  /** In a descending list, the names before position i are those above the name at i. */
  lemma {:induction false} NotMovedYet(ns: seq<Name>, i: nat, x: Name)
    requires Descending(ns) && i < |ns|
    ensures x in ns[..i] ==> x in ns && Less(ns[i], x) && !Less(x, ns[i])
    ensures x in ns && x != ns[i] && x !in ns[..i] ==> Less(x, ns[i])
  {
    LessTotal(x, ns[i]);
    if x in ns {
      var j :| 0 <= j < |ns| && ns[j] == x;
      assert j < i ==> ns[..i][j] == x;
    }
  }

  lemma {:induction false} HolderStays(
    base: Table, done: set<Name>, from: Name, to: Name, d: Delimiter, inferiors: seq<Name>, i: nat, id: Id)
    requires i < |inferiors| && Descending(inferiors) && done == {from} + SetOf(inferiors[..i])
    requires forall n :: n in inferiors <==> Named(base, n) && Superior(from, n, d)
    requires id in base && MoveSome(base, done, from, to)[id] == Shifted(inferiors[i], from, to)
    ensures base[id] !in done && base[id] == Shifted(inferiors[i], from, to)
  {
    var n := inferiors[i];
    assert n in inferiors;
    NotMovedYet(inferiors, i, n);
    LessTotal(n, n);
    if base[id] in done {
      assert base[id] != from ==> base[id] in inferiors[..i];
      MovedApart(base[id], n, from, to, d);
    }
  }

  lemma {:induction false} MoveNext(base: Table, from: Name, to: Name, d: Delimiter, inferiors: seq<Name>, i: nat)
    requires i < |inferiors| && Descending(inferiors) && from != to
    requires forall n :: n in inferiors <==> Named(base, n) && Superior(from, n, d)
    ensures var done, n := {from} + SetOf(inferiors[..i]), inferiors[i];
            && MoveSome(base, done, from, to).Keys == base.Keys
            && n !in done && |from| <= |n| && Shifted(n, from, to) == to + n[|from|..]
            && Named(base, n) && Named(MoveSome(base, done, from, to), n)
            && {from} + SetOf(inferiors[..i + 1]) == done + {n}
            && n != Shifted(n, from, to)
            && (Named(MoveSome(base, done, from, to), Shifted(n, from, to)) <==> !Passed(base, from, to, d, n))
            && (!Passed(base, from, to, d, n) ==> Blocked(base, from, to, d))
  {
    var done, n := {from} + SetOf(inferiors[..i]), inferiors[i];
    assert n in inferiors;
    HeldIff(base, from, to, d, inferiors, i);
    NotMovedYet(inferiors, i, n);
    LessTotal(n, n);
    StillThere(base, done, from, to, n);
    SamePrefix(n, Shifted(n, from, to), from, to);
    assert inferiors[..i + 1] == inferiors[..i] + [n];
  }

  lemma {:induction false} AllMoved(base: Table, from: Name, to: Name, d: Delimiter, inferiors: seq<Name>)
    requires Named(base, from) && forall n :: n in inferiors <==> Named(base, n) && Superior(from, n, d)
    requires forall k :: 0 <= k < |inferiors| ==> Passed(base, from, to, d, inferiors[k])
    ensures {from} + SetOf(inferiors[..|inferiors|]) == Moving(base, from, d) && !Blocked(base, from, to, d)
  {
    assert inferiors[..|inferiors|] == inferiors;
    forall n | Named(base, n) && Superior(from, n, d) ensures !BlockedAt(base, from, to, d, n) {
      assert n in inferiors;
    }
  }

  /** The missing superiors of the new name are in no mailbox's way. */
  lemma {:induction false} BlockedGrown(t: Table, base: Table, from: Name, to: Name, d: Delimiter)
    requires Grown(t, base, SuperiorSet(to, d)) && !Superior(from, to, d)
    ensures Blocked(base, from, to, d) <==> Blocked(t, from, to, d)
  {
    forall n | Superior(from, n, d)
      ensures Named(base, n) <==> Named(t, n)
      ensures BlockedAt(base, from, to, d, n) <==> BlockedAt(t, from, to, d, n)
    {
      var x := Shifted(n, from, to);
      GrownKeeps(t, base, SuperiorSet(to, d), n);
      GrownKeeps(t, base, SuperiorSet(to, d), x);
      if Superior(n, to, d) {
        SuperiorTransitive(from, n, to, d);
      }
    }
    if Blocked(base, from, to, d) {
      var n :| Named(base, n) && Superior(from, n, d) && BlockedAt(base, from, to, d, n);
      assert BlockedAt(t, from, to, d, n);
    }
    if Blocked(t, from, to, d) {
      var n :| Named(t, n) && Superior(from, n, d) && BlockedAt(t, from, to, d, n);
      assert BlockedAt(base, from, to, d, n);
    }
  }

  /** In a closed table the name an inferior moves to is free. */
  lemma {:induction false} ClosedNotBlocked(t: Table, from: Name, to: Name, d: Delimiter)
    requires Closed(t, d) && !Named(t, to)
    ensures !Blocked(t, from, to, d)
  {
    forall n | Named(t, n) && Superior(from, n, d) ensures !BlockedAt(t, from, to, d, n) {
      SuperiorShifted(from, n, to, d);
    }
  }

  lemma {:induction false} SuperiorShifted(from: Name, n: Name, to: Name, d: Delimiter)
    requires Superior(from, n, d)
    ensures Superior(to, to + n[|from|..], d)
  {
  }

  lemma {:induction false} MovedApart(m: Name, n: Name, from: Name, to: Name, d: Delimiter)
    requires (m == from || Superior(from, m, d)) && (n == from || Superior(from, n, d)) && m != n
    ensures Shifted(m, from, to) != Shifted(n, from, to)
  {
    assert m == from + m[|from|..] && n == from + n[|from|..];
    var a, b := Shifted(m, from, to), Shifted(n, from, to);
    assert a[|to|..] == m[|from|..] && b[|to|..] == n[|from|..];
  }

  lemma {:induction false} StillThere(base: Table, done: set<Name>, from: Name, to: Name, n: Name)
    requires Named(base, n) && n !in done
    ensures Named(MoveSome(base, done, from, to), n)
  {
    var id :| id in base && base[id] == n;
    assert MoveSome(base, done, from, to)[id] == n;
  }

  /**
   * Once a superior has been deleted a rename can run into a name that was left below it: no table with distinct
   * names is the result, so Rename reports a conflict.
   */
  lemma {:induction false} RenameOntoOrphan(t: Table, t': Table, from: Name, to: Name, d: Delimiter, i: Id, j: Id)
    requires i in t && j in t && Named(t, from) && !Named(t, to) && Superior(from, t[i], d)
    requires t[j] == to + t[i][|from|..] && Moved(t[j], from, to, d) == t[j]
    ensures !Closed(t, d) && (Renamed(t, t', from, to, d) ==> !Distinct(t'))
  {
    SuperiorShifted(from, t[i], to, d);
    SamePrefix(t[i], t[j], from, to);
    if Renamed(t, t', from, to, d) {
      assert t'[i] == t'[j];
    }
  }

  lemma {:induction false} LessBehind(p: Name, a: Name, b: Name)
    requires Less(a, b)
    ensures Less(p + a, p + b)
    decreases |p|
  {
    if |p| == 0 {
      assert p + a == a && p + b == b;
    } else {
      assert (p + a)[1..] == p[1..] + a && (p + b)[1..] == p[1..] + b;
      LessBehind(p[1..], a, b);
    }
  }

  /** n moves to the name of x, which is to move too, but later. */
  ghost predicate MovesOntoNext(from: Name, to: Name, n: Name, x: Name, y: Name, c: char) {
    && Superior(from, n, Some(c)) && Superior(from, x, Some(c)) && Less(x, n) && c !in to
    && to + n[|from|..] == x && to + x[|from|..] == y
    && to != from && to != n && to != x && to != y && x != y && x != n
    && Flags.Lower(from) != RECOVERY && Flags.Lower(to) != RECOVERY
  }

  lemma {:induction false} OrderBlocks(t: Table, from: Name, to: Name, n: Name, x: Name, y: Name, c: char)
    requires t == map[0 := from, 1 := n, 2 := x] && MovesOntoNext(from, to, n, x, y, c)
    ensures Distinct(t) && RenameResult(t, from, to, Some(c)).Done? && Blocked(t, from, to, Some(c))
  {
    assert t[0] == from && t[1] == n && t[2] == x;
    assert Named(t, from) && Named(t, n) && Named(t, x);
    assert BlockedAt(t, from, to, Some(c), n);
  }

  lemma {:induction false} OrderAside(t: Table, t': Table, from: Name, to: Name, n: Name, x: Name, y: Name, c: char)
    requires t == map[0 := from, 1 := n, 2 := x] && t' == map[0 := to, 1 := x, 2 := y]
    requires MovesOntoNext(from, to, n, x, y, c)
    ensures Distinct(t') && Renamed(t, t', from, to, Some(c))
  {
    assert from[|from|..] == [] && to + [] == to;
    assert forall s :: !Superior(s, to, Some(c)) by {
      assert forall s :: Superior(s, to, Some(c)) ==> to[|s|] in to;
    }
  }

  /**
   * The order of the moves can be in the way where the result is not: renaming "a/b" to "a" moves "a/b/b/a" before
   * "a/b/a", whose name it needs, although all names after the rename would be distinct.
   */
  lemma {:induction false} RenameBlockedByOrder(t: Table, t': Table)
    requires t == map[0 := "a/b", 1 := "a/b/b/a", 2 := "a/b/a"]
    requires t' == map[0 := "a", 1 := "a/b/a", 2 := "a/a"]
    ensures Distinct(t) && RenameResult(t, "a/b", "a", Some('/')).Done? && Blocked(t, "a/b", "a", Some('/'))
    ensures Distinct(t') && Renamed(t, t', "a/b", "a", Some('/'))
  {
    OrderFacts();
    hide MovesOntoNext;
    OrderBlocks(t, "a/b", "a", "a/b/b/a", "a/b/a", "a/a", '/');
    OrderAside(t, t', "a/b", "a", "a/b/b/a", "a/b/a", "a/a", '/');
  }

  lemma {:induction false} OrderFacts()
    ensures MovesOntoNext("a/b", "a", "a/b/b/a", "a/b/a", "a/a", '/')
  {
    LessBehind("a/b/", "a", "b/a");
    assert "a/b/" + "a" == "a/b/a" && "a/b/" + "b/a" == "a/b/b/a";
    assert |RECOVERY| == 18;
  }

  lemma {:induction false} SamePrefix(n: Name, m: Name, from: Name, to: Name)
    requires |from| <= |n| && n[..|from|] == from && m == to + n[|from|..]
    ensures n == m ==> from == to
  {
    assert |n| == |m| ==> |from| == |to| && m[..|to|] == to;
  }

  lemma {:induction false} GrownMore(t: Table, t1: Table, t2: Table, ns: seq<Name>, i: nat)
    requires i < |ns| && Grown(t, t1, SetOf(ns[..i])) && !Named(t1, ns[i]) && Grown(t1, t2, {ns[i]})
    ensures Grown(t, t2, SetOf(ns[..i + 1]))
  {
    assert ns[..i + 1] == ns[..i] + [ns[i]];
    GrownKeeps(t, t1, SetOf(ns[..i]), ns[i]);
    forall n | n in ns[..i + 1] ensures Named(t2, n) {
      GrownKeeps(t1, t2, {ns[i]}, n);
    }
  }

  lemma {:induction false} GrownByMissing(t: Table, t': Table, missing: seq<Name>, n: Name, d: Delimiter)
    requires forall s :: s in missing <==> Superior(s, n, d) && !Named(t, s)
    requires Grown(t, t', SetOf(missing + [n]))
    ensures Grown(t, t', SuperiorSet(n, d) + {n})
  {
    forall s | s in SuperiorSet(n, d) + {n} ensures Named(t', s) {
      if s !in missing + [n] {
        GrownKeeps(t, t', SetOf(missing + [n]), s);
      }
    }
  }
}

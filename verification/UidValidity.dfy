/** imap/uid_validity_generator.go: UIDVALIDITY values from a clock and one 32-bit cell, by compare-and-swap. */
module UidValidity {
  import opened Base

  const MAX: Uid := 0xFFFF_FFFF

  /** The larger of the time and the value after the last one. */
  function Later(last: nat, timestamp: nat): (v: nat)
    ensures v > last && v >= timestamp && (v == timestamp || v == last + 1)
  {
    if timestamp > last then timestamp else last + 1
  }

  class EpochUIDValidityGenerator {
    var lastUID: Uid

    constructor ()
      ensures lastUID == 0
    {
      lastUID := 0;
    }

    /** The clock is a parameter: whole seconds since the epoch start. None is an error. */
    method Generate(timestamp: nat) returns (r: Option<Uid>)
      modifies this
      ensures r.None? <==> timestamp > MAX || old(lastUID) == MAX
      ensures r.Some? ==> r.value == Later(old(lastUID), timestamp)
      ensures lastUID == if r.Some? then r.value else old(lastUID)
    {
      if timestamp > MAX {
        return None;
      }
      var t: Uid := timestamp;
      while lastUID >= t
        invariant lastUID == old(lastUID) && timestamp <= t
        invariant t == timestamp || t <= lastUID + 1
        decreases lastUID as int - t as int
      {
        if t == MAX {
          return None;
        }
        t := t + 1;
      }
      lastUID := t;
      return Some(t);
    }
  }

  // ----- any number of concurrent calls

  /** Where one call stands; every load and every compare-and-swap is one step. */
  datatype Call =
    | Start(timestamp: nat)
    | Loop(t: Uid)
    | Loaded(t: Uid, last: Uid)
    | Returned(value: Uid)
    | Failed

  datatype Shared = Shared(cell: Uid, calls: seq<Call>, commits: seq<(nat, Uid)>)

  /** Call i takes its next step. */
  function Step(x: Shared, i: nat): Shared
    requires i < |x.calls|
  {
    match x.calls[i]
    case Start(timestamp) => x.(calls := x.calls[i := if timestamp > MAX then Failed else Loop(timestamp)])
    case Loop(t) =>
      var next := if x.cell >= t then (if t == MAX then Failed else Loop(t + 1)) else Loaded(t, x.cell);
      x.(calls := x.calls[i := next])
    case Loaded(t, last) =>
      if x.cell != last then x.(calls := x.calls[i := Loop(t)])
      else Shared(t, x.calls[i := Returned(t)], x.commits + [(i, t)])
    case _ => x
  }

  /** A schedule names the call that moves; names of no call are skipped. */
  function Run(x: Shared, schedule: seq<nat>): (y: Shared)
    ensures |y.calls| == |x.calls|
  {
    if |schedule| == 0 then x else
    var y := Run(x, schedule[..|schedule| - 1]);
    var i := schedule[|schedule| - 1];
    if i < |y.calls| then Step(y, i) else y
  }

  /** Values committed so far ascend strictly and end in the cell. */
  ghost predicate Ordered(x: Shared) {
    && (forall i, j :: 0 <= i < j < |x.commits| ==> x.commits[i].1 < x.commits[j].1)
    && (forall i :: 0 <= i < |x.commits| ==> 0 < x.commits[i].1 <= x.cell)
  }

  ghost predicate Consistent(x: Shared) {
    && Ordered(x)
    && (forall i :: 0 <= i < |x.calls| && x.calls[i].Loaded? ==> x.calls[i].last < x.calls[i].t)
    && (forall i :: 0 <= i < |x.calls| && x.calls[i].Returned? ==> (i, x.calls[i].value) in x.commits)
    && (forall i, v :: (i, v) in x.commits ==> i < |x.calls| && x.calls[i] == Returned(v))
  }

  lemma {:induction false} StepConsistent(x: Shared, i: nat)
    requires Consistent(x) && i < |x.calls|
    ensures Consistent(Step(x, i)) && x.cell <= Step(x, i).cell && x.commits <= Step(x, i).commits
  {
    var y := Step(x, i);
    if x.calls[i].Loaded? && x.cell == x.calls[i].last {
      var t := x.calls[i].t;
      assert y.commits == x.commits + [(i, t)];
      assert forall j, v :: (j, v) in y.commits <==> (j, v) in x.commits || (j, v) == (i, t);
    }
  }

  /**
   * Under every interleaving of loads and swaps, committed values ascend strictly from above zero and earlier commits
   * stay; nothing wraps around, since every value is a 32-bit Uid.
   */
  lemma {:induction false} RunConsistent(x: Shared, schedule: seq<nat>)
    requires Consistent(x)
    ensures Consistent(Run(x, schedule)) && x.commits <= Run(x, schedule).commits
  {
    if |schedule| > 0 {
      RunConsistent(x, schedule[..|schedule| - 1]);
      var y := Run(x, schedule[..|schedule| - 1]);
      if schedule[|schedule| - 1] < |y.calls| {
        StepConsistent(y, schedule[|schedule| - 1]);
      }
    }
  }

  /** Two calls never return the same value, and none returns zero. */
  lemma {:induction false} ValuesAreUnique(timestamps: seq<nat>, schedule: seq<nat>, i: nat, j: nat)
    requires i < |timestamps| && j < |timestamps| && i != j
    ensures var calls := seq(|timestamps|, k requires 0 <= k < |timestamps| => Start(timestamps[k]));
            var y := Run(Shared(0, calls, []), schedule);
            && |y.calls| == |timestamps|
            && (y.calls[i].Returned? ==> y.calls[i].value > 0)
            && (y.calls[i].Returned? && y.calls[j].Returned? ==> y.calls[i].value != y.calls[j].value)
  {
    var calls := seq(|timestamps|, k requires 0 <= k < |timestamps| => Start(timestamps[k]));
    RunConsistent(Shared(0, calls, []), schedule);
    var y := Run(Shared(0, calls, []), schedule);
    if y.calls[i].Returned? {
      var k :| 0 <= k < |y.commits| && y.commits[k] == (i, y.calls[i].value);
      if y.calls[j].Returned? {
        var l :| 0 <= l < |y.commits| && y.commits[l] == (j, y.calls[j].value);
        assert k != l;
      }
    }
  }

  // ----- concurrent calls act as if one after the other

  /** The value in the cell before commit k. */
  function Before(first: Uid, commits: seq<(nat, Uid)>, k: nat): Uid
    requires k <= |commits|
  {
    if k == 0 then first else commits[k - 1].1
  }

  /** What call i with the given time may have come to: its candidate is the time, or follows a value that was taken. */
  ghost predicate Traced(x: Shared, c: Call, timestamp: nat) {
    match c
    case Start(ts) => ts == timestamp
    case Loop(t) => timestamp <= t && (t == timestamp || t <= x.cell + 1)
    case Loaded(t, last) => timestamp <= t && (t == timestamp || t <= x.cell + 1) && last < t
    case Returned(_) => true
    case Failed => timestamp > MAX || x.cell == MAX
  }

  ghost predicate InTurn(first: Uid, commits: seq<(nat, Uid)>, timestamps: seq<nat>) {
    forall k :: 0 <= k < |commits| ==>
                  && commits[k].0 < |timestamps|
                  && commits[k].1 == Later(Before(first, commits, k), timestamps[commits[k].0])
  }

  ghost predicate Linear(x: Shared, first: Uid, timestamps: seq<nat>) {
    && |x.calls| == |timestamps| && x.cell == Before(first, x.commits, |x.commits|)
    && (forall i :: 0 <= i < |x.calls| ==> Traced(x, x.calls[i], timestamps[i]))
    && InTurn(first, x.commits, timestamps)
  }

  lemma {:induction false} InTurnSnoc(first: Uid, commits: seq<(nat, Uid)>, timestamps: seq<nat>, i: nat, t: Uid)
    requires InTurn(first, commits, timestamps) && i < |timestamps|
    requires t == Later(Before(first, commits, |commits|), timestamps[i])
    ensures InTurn(first, commits + [(i, t)], timestamps)
  {
    hide Later;
    var all, n := commits + [(i, t)], |commits|;
    assert forall k :: 0 <= k <= n ==> Before(first, all, k) == Before(first, commits, k);
    assert forall k :: 0 <= k < n ==> all[k] == commits[k];
  }

  /** A commit raises the cell, and what was known of the other calls stays true. */
  lemma {:induction false} TracedKept(x: Shared, y: Shared, c: Call, timestamp: nat)
    requires Traced(x, c, timestamp) && x.cell <= y.cell
    ensures Traced(y, c, timestamp)
  {
  }

  lemma {:induction false} CallTraced(x: Shared, i: nat, timestamp: nat)
    requires i < |x.calls| && Traced(x, x.calls[i], timestamp)
    ensures x.cell <= Step(x, i).cell && Traced(Step(x, i), Step(x, i).calls[i], timestamp)
  {
  }

  lemma {:induction false} StepCommits(x: Shared, i: nat, timestamp: nat)
    requires i < |x.calls| && Traced(x, x.calls[i], timestamp)
    ensures var y := Step(x, i);
            || (y.commits == x.commits && y.cell == x.cell)
            || (y.cell == Later(x.cell, timestamp) && y.commits == x.commits + [(i, y.cell)])
  {
  }

  lemma {:induction false} StepLinear(x: Shared, i: nat, first: Uid, timestamps: seq<nat>)
    requires Linear(x, first, timestamps) && i < |x.calls|
    ensures Linear(Step(x, i), first, timestamps)
  {
    hide Traced, InTurn, Later;
    var y := Step(x, i);
    CallTraced(x, i, timestamps[i]);
    StepCommits(x, i, timestamps[i]);
    forall j | 0 <= j < |y.calls| && j != i ensures Traced(y, y.calls[j], timestamps[j]) {
      assert y.calls[j] == x.calls[j];
      TracedKept(x, y, x.calls[j], timestamps[j]);
    }
    if y.commits != x.commits {
      InTurnSnoc(first, x.commits, timestamps, i, y.cell);
    }
  }

  /**
   * Under every interleaving the values come out as if the calls ran one after the other, in the order of their swaps,
   * each alone; a call fails only when its time or the cell has reached the end.
   */
  lemma {:induction false} RunsInTurn(first: Uid, timestamps: seq<nat>, schedule: seq<nat>)
    ensures var calls := seq(|timestamps|, k requires 0 <= k < |timestamps| => Start(timestamps[k]));
            Linear(Run(Shared(first, calls, []), schedule), first, timestamps)
  {
    var calls := seq(|timestamps|, k requires 0 <= k < |timestamps| => Start(timestamps[k]));
    var x := Shared(first, calls, []);
    if |schedule| > 0 {
      var n := |schedule| - 1;
      RunsInTurn(first, timestamps, schedule[..n]);
      var y := Run(x, schedule[..n]);
      if schedule[n] < |y.calls| {
        StepLinear(y, schedule[n], first, timestamps);
      }
    }
  }

  /** A bound on the steps a call still takes while no other call moves. */
  function Remaining(x: Shared, i: nat): nat
    requires i < |x.calls|
  {
    match x.calls[i]
    case Start(_) => MAX + 4
    case Loop(t) => MAX - t + 3
    case Loaded(t, last) => if x.cell == last then 1 else MAX - t + 4
    case _ => 0
  }

  lemma {:induction false} StepAdvances(x: Shared, i: nat)
    requires i < |x.calls|
    ensures Remaining(x, i) > 0 ==> Remaining(Step(x, i), i) < Remaining(x, i)
    ensures Remaining(x, i) == 0 ==> Step(x, i) == x
  {
  }

  lemma {:induction false} AloneAdvances(x: Shared, i: nat, n: nat)
    requires i < |x.calls|
    ensures var y := Run(x, seq(n, _ => i)); Remaining(y, i) == 0 || Remaining(y, i) + n <= Remaining(x, i)
  {
    if n > 0 {
      var s := seq(n, _ => i);
      assert s[..n - 1] == seq(n - 1, _ => i) && s[n - 1] == i;
      AloneAdvances(x, i, n - 1);
      StepAdvances(Run(x, s[..n - 1]), i);
    }
  }

  /** From any state, a call that moves alone long enough returns or fails. */
  lemma {:induction false} AloneFinishes(x: Shared, i: nat, n: nat)
    requires i < |x.calls| && n >= MAX + 5
    ensures var c := Run(x, seq(n, _ => i)).calls[i]; c.Returned? || c.Failed?
  {
    AloneAdvances(x, i, n);
  }
}

/** imap/flags.go: a flag set maps the lower-case form of each flag to the spelling first added. */
module Flags {

  type FlagSet = map<string, string>

  const RECENT := "\\Recent"
  const RECENT_KEY := "\\recent"
  const DELETED := "\\Deleted"
  const DELETED_KEY := "\\deleted"

  function LowerChar(c: char): char {
    if 'A' <= c <= 'Z' then (c as int + 32) as char else c
  }

  function Lower(s: string): (r: string)
    ensures |r| == |s|
    ensures forall i :: 0 <= i < |s| ==> r[i] == LowerChar(s[i])
  {
    seq(|s|, i requires 0 <= i < |s| => LowerChar(s[i]))
  }

  /** Equal, or the capital and the small form of one letter. */
  predicate SameUpToCase(a: char, b: char) {
    || a == b
    || ('A' <= a <= 'Z' && b as int == a as int + 32)
    || ('A' <= b <= 'Z' && a as int == b as int + 32)
  }

  /** Flags have the same key exactly when they differ in case only. */
  lemma {:induction false} LowerIff(f: string, g: string)
    ensures Lower(f) == Lower(g) <==> |f| == |g| && forall i :: 0 <= i < |f| ==> SameUpToCase(f[i], g[i])
  {
    if |f| == |g| {
      forall i | 0 <= i < |f| ensures Lower(f)[i] == Lower(g)[i] <==> SameUpToCase(f[i], g[i]) {
        assert LowerChar(f[i]) == LowerChar(g[i]) <==> SameUpToCase(f[i], g[i]);
      }
      hide LowerChar, SameUpToCase;
      if forall i :: 0 <= i < |f| ==> SameUpToCase(f[i], g[i]) {
        assert forall i :: 0 <= i < |f| ==> Lower(f)[i] == Lower(g)[i];
      }
    } else {
      assert |Lower(f)| != |Lower(g)|;
    }
  }

  /** Adds one flag; the spelling of a flag already present is kept. */
  function Add(fs: FlagSet, flag: string): FlagSet {
    if Lower(flag) in fs then fs else fs[Lower(flag) := flag]
  }

  function Remove(fs: FlagSet, flag: string): FlagSet {
    fs - {Lower(flag)}
  }

  function AddList(fs: FlagSet, flags: seq<string>): FlagSet {
    if |flags| == 0 then fs else Add(AddList(fs, flags[..|flags| - 1]), flags[|flags| - 1])
  }

  function RemoveList(fs: FlagSet, flags: seq<string>): FlagSet {
    if |flags| == 0 then fs else Remove(RemoveList(fs, flags[..|flags| - 1]), flags[|flags| - 1])
  }

  function AddFlagSet(fs: FlagSet, other: FlagSet): FlagSet {
    other + fs
  }

  function RemoveFlagSet(fs: FlagSet, other: FlagSet): FlagSet {
    fs - other.Keys
  }

  function SetFlag(fs: FlagSet, flag: string, on: bool): FlagSet {
    if on then Add(fs, flag) else Remove(fs, flag)
  }

  function LowerSet(flags: seq<string>): set<string> {
    set f | f in flags :: Lower(f)
  }

  lemma {:induction false} LowerSetSnoc(flags: seq<string>)
    requires |flags| > 0
    ensures LowerSet(flags) == LowerSet(flags[..|flags| - 1]) + {Lower(flags[|flags| - 1])}
  {
    var n := |flags| - 1;
    assert flags == flags[..n] + [flags[n]];
  }

  /** `order` lists the values of `other` in some order, as ranging over the Go map may yield them. */
  ghost predicate Enumerates(order: seq<string>, other: FlagSet) {
    && (forall f :: f in order ==> Lower(f) in other && other[Lower(f)] == f)
    && LowerSet(order) == other.Keys
  }

  lemma {:induction false} AddListValue(fs: FlagSet, flags: seq<string>, other: FlagSet)
    requires forall f :: f in flags ==> Lower(f) in other && other[Lower(f)] == f
    ensures AddList(fs, flags) == (map k | k in LowerSet(flags) :: other[k]) + fs
  {
    if |flags| > 0 {
      LowerSetSnoc(flags);
      AddListValue(fs, flags[..|flags| - 1], other);
    }
  }

  lemma {:induction false} RemoveListKeys(fs: FlagSet, flags: seq<string>)
    ensures RemoveList(fs, flags) == fs - LowerSet(flags)
  {
    if |flags| > 0 {
      LowerSetSnoc(flags);
      RemoveListKeys(fs, flags[..|flags| - 1]);
    }
  }

  /** Adding or removing a flag set gives the same result whatever order its values are ranged over. */
  lemma {:induction false} SetOperationsIgnoreOrder(fs: FlagSet, other: FlagSet, order: seq<string>)
    requires Enumerates(order, other)
    ensures AddList(fs, order) == AddFlagSet(fs, other)
    ensures RemoveList(fs, order) == RemoveFlagSet(fs, other)
  {
    AddListValue(fs, order, other);
    assert (map k | k in LowerSet(order) :: other[k]) == other;
    RemoveListKeys(fs, order);
  }

  lemma {:induction false} FlagNames()
    ensures Lower(RECENT) == RECENT_KEY && Lower(DELETED) == DELETED_KEY && RECENT_KEY != DELETED_KEY
  {
    assert |RECENT| == |RECENT_KEY| == 7 && |DELETED| == |DELETED_KEY| == 8;
    assert Lower(RECENT) == RECENT_KEY;
    assert Lower(DELETED) == DELETED_KEY;
  }
}

/** Byte strings and the few standard-library searches the RFC 822 code uses. */
module Bytes {

  type Byte = b: int | 0 <= b < 256

  type Text = seq<Byte>

  const CR: Byte := 13
  const LF: Byte := 10
  const TAB: Byte := 9
  const SPACE: Byte := 32
  const DASH: Byte := 45
  const COLON: Byte := 58

  /** p occurs in s at j. */
  predicate At(s: Text, p: Text, j: int) {
    0 <= j && j + |p| <= |s| && s[j..j + |p|] == p
  }

  /** bytes.Index, searching from k on: the first occurrence, or -1. */
  function IndexFrom(s: Text, p: Text, k: nat): (i: int)
    ensures i >= 0 ==> k <= i && At(s, p, i) && forall j :: k <= j < i ==> !At(s, p, j)
    ensures i < 0 ==> i == -1 && forall j :: k <= j ==> !At(s, p, j)
    decreases |s| - k
  {
    if k + |p| > |s| then -1
    else if At(s, p, k) then k
    else IndexFrom(s, p, k + 1)
  }

  /** The first occurrence is determined by having none before it. */
  lemma {:induction false} IndexUnique(s: Text, p: Text, k: nat, i: nat)
    requires k <= i && At(s, p, i) && forall j :: k <= j < i ==> !At(s, p, j)
    ensures IndexFrom(s, p, k) == i
  {
  }

  /** A slice of a slice. */
  lemma {:induction false} SliceSlice(s: Text, i: nat, j: nat, a: nat, c: nat)
    requires i <= j <= |s| && a <= c <= j - i
    ensures s[i..j][a..c] == s[i + a..i + c]
  {
    forall k | 0 <= k < c - a ensures s[i..j][a..c][k] == s[i + a..i + c][k] {
      assert s[i..j][a..c][k] == s[i..j][a + k] == s[i + a + k];
    }
  }
}

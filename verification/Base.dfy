/** Types and sequence facts shared by the other modules. */
module Base {

  datatype Option<+T> = None | Some(value: T)

  /** UIDs are unsigned 32-bit integers (imap.UID). */
  type Uid = u: int | 0 <= u < 0x1_0000_0000

  type MessageId = nat
  type StateId = nat

  function Drop<T>(s: seq<T>, i: nat): (r: seq<T>)
    requires i < |s|
    ensures |r| == |s| - 1
    ensures forall j :: 0 <= j < |r| ==> r[j] == if j < i then s[j] else s[j + 1]
  {
    s[..i] + s[i + 1..]
  }

  function Put<T>(s: seq<T>, i: nat, x: T): (r: seq<T>)
    requires i <= |s|
    ensures |r| == |s| + 1
    ensures forall j :: 0 <= j < |r| ==> r[j] == if j < i then s[j] else if j == i then x else s[j - 1]
  {
    s[..i] + [x] + s[i..]
  }

  lemma {:induction false} DropMembers<T>(s: seq<T>, i: nat)
    requires i < |s|
    ensures forall x :: x in Drop(s, i) ==> x in s
  {
  }

  lemma {:induction false} PutMembers<T>(s: seq<T>, i: nat, x: T)
    requires i <= |s|
    ensures forall y :: y in Put(s, i, x) ==> y == x || y in s
  {
  }

  lemma {:induction false} PutDistinct<T>(s: seq<T>, p: nat, x: T)
    requires p <= |s| && x !in s && forall i, j :: 0 <= i < j < |s| ==> s[i] != s[j]
    ensures forall i, j :: 0 <= i < j < |s| + 1 ==> Put(s, p, x)[i] != Put(s, p, x)[j]
  {
  }

  lemma {:induction false} DropDistinct<T>(s: seq<T>, p: nat)
    requires p < |s| && forall i, j :: 0 <= i < j < |s| ==> s[i] != s[j]
    ensures forall i, j :: 0 <= i < j < |s| - 1 ==> Drop(s, p)[i] != Drop(s, p)[j]
  {
  }
}

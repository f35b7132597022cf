/** Byte sequences and the two memory primitives every buffer in the router is built from. */
module Bytes {
  type byte = n: nat | n < 256

  datatype Option<+T> = None | Some(value: T)

  function Concat(parts: seq<seq<byte>>): (r: seq<byte>)
  {
    if parts == [] then [] else parts[0] + Concat(parts[1..])
  }

  lemma {:induction false} ConcatAppend(a: seq<seq<byte>>, b: seq<seq<byte>>)
    ensures Concat(a + b) == Concat(a) + Concat(b)
  {
    if a == [] {
      assert a + b == b;
    } else {
      assert (a + b)[1..] == a[1..] + b;
      ConcatAppend(a[1..], b);
    }
  }

  lemma ConcatOne(p: seq<byte>)
    ensures Concat([p]) == p
  {
    assert [p][1..] == [];
  }

  /** Where part `i` starts in the concatenation. */
  function Offset(parts: seq<seq<byte>>, i: nat): nat
    requires i <= |parts|
  {
    |Concat(parts[..i])|
  }

  lemma ConcatSplit(parts: seq<seq<byte>>, i: nat)
    requires i <= |parts|
    ensures Concat(parts) == Concat(parts[..i]) + Concat(parts[i..])
    ensures Offset(parts, i) <= |Concat(parts)|
  {
    assert parts == parts[..i] + parts[i..];
    ConcatAppend(parts[..i], parts[i..]);
  }

  /** Part `i` is the slice of the concatenation between its own offset and the next. */
  lemma ConcatSlice(parts: seq<seq<byte>>, i: nat)
    requires i < |parts|
    ensures Offset(parts, i) + |parts[i]| == Offset(parts, i + 1) <= |Concat(parts)|
    ensures Concat(parts)[Offset(parts, i)..Offset(parts, i + 1)] == parts[i]
  {
    hide Concat;
    ConcatSplit(parts, i);
    ConcatSplit(parts, i + 1);
    assert parts[..i + 1] == parts[..i] + [parts[i]];
    ConcatAppend(parts[..i], [parts[i]]);
    ConcatOne(parts[i]);
  }

  lemma {:induction false} OffsetMonotone(parts: seq<seq<byte>>, i: nat, j: nat)
    requires i <= j <= |parts|
    ensures Offset(parts, i) <= Offset(parts, j) <= |Concat(parts)|
    decreases j - i
  {
    hide Offset;
    if i < j {
      ConcatSlice(parts, i);
      OffsetMonotone(parts, i + 1, j);
    } else {
      ConcatSplit(parts, i);
    }
  }

  /** The parts selected by `picks`, in that order. */
  function Pick<T>(parts: seq<T>, picks: seq<nat>): (r: seq<T>)
    requires forall i :: 0 <= i < |picks| ==> picks[i] < |parts|
    ensures |r| == |picks| && forall i :: 0 <= i < |picks| ==> r[i] == parts[picks[i]]
  {
    seq(|picks|, i requires 0 <= i < |picks| => parts[picks[i]])
  }

  /** `picks` names a subsequence of a sequence of at least `bound` elements. */
  ghost predicate Increasing(picks: seq<nat>, bound: nat)
  {
    && (forall i :: 0 <= i < |picks| ==> picks[i] < bound)
    && (forall i, j :: 0 <= i < j < |picks| ==> picks[i] < picks[j])
  }

  /** memmove(a, a + from, n) */
  method MoveToFront(a: array<byte>, from: nat, n: nat)
    requires from + n <= a.Length
    modifies a
    ensures a[..n] == old(a[from..from + n])
    ensures a[n..] == old(a[n..])
  {
    for i := 0 to n
      invariant forall j :: 0 <= j < i ==> a[j] == old(a[from + j])
      invariant forall j :: i <= j < a.Length ==> a[j] == old(a[j])
    {
      a[i] := a[from + i];
    }
  }

  /** memcpy(a + at, src, |src|) */
  method CopyIn(a: array<byte>, at: nat, src: seq<byte>)
    requires at + |src| <= a.Length
    modifies a
    ensures a[..at] == old(a[..at])
    ensures a[at..at + |src|] == src
    ensures a[at + |src|..] == old(a[at + |src|..])
  {
    for i := 0 to |src|
      invariant forall j :: 0 <= j < i ==> a[at + j] == src[j]
      invariant forall j :: 0 <= j < a.Length && !(at <= j < at + i) ==> a[j] == old(a[j])
    {
      a[at + i] := src[i];
    }
  }
}

/** The two uses of `Array.prototype.splice` the grid store makes, on immutable sequences:
    `splice(i, 1)` removes one element and `splice(i, 0, x)` inserts one, appending when `i`
    is past the end. `Move` is the reorder of the section drag-and-drop: remove at the dragged
    index, then insert at the target index as it was computed BEFORE the removal. */
module Splice {

  function RemoveAt<T>(s: seq<T>, i: nat): (r: seq<T>)
    requires i < |s|
    ensures |r| == |s| - 1
    ensures forall k :: 0 <= k < i ==> r[k] == s[k]
    ensures forall k :: i <= k < |r| ==> r[k] == s[k + 1]
  {
    s[..i] + s[i + 1..]
  }

  function InsertAt<T>(s: seq<T>, i: nat, x: T): (r: seq<T>)
    ensures |r| == |s| + 1
  {
    if i <= |s| then s[..i] + [x] + s[i..] else s + [x]
  }

  function Move<T>(s: seq<T>, from: nat, to: nat): seq<T>
    requires from < |s|
  {
    InsertAt(RemoveAt(s, from), to, s[from])
  }

  /** The old position of the element that a move from `from` to `to` leaves at position `k`. */
  function MoveSource(from: nat, to: nat, k: nat): nat {
    if k == to then from
    else if from < to && from <= k < to then k + 1
    else if to < from && to < k <= from then k - 1
    else k
  }

  /** The new position of the element that stood at position `i` before the move. */
  function MoveTarget(from: nat, to: nat, i: nat): nat {
    if i == from then to
    else if from < to && from < i <= to then i - 1
    else if to < from && to <= i < from then i + 1
    else i
  }

  /** A sequence is what stands before position `i`, the element there, and what follows. */
  lemma SplitAt<T>(s: seq<T>, i: nat)
    requires i < |s|
    ensures s == s[..i] + ([s[i]] + s[i + 1..])
  {
  }

  lemma RemoveAtCons<T>(s: seq<T>, i: nat)
    requires 0 < i < |s|
    ensures RemoveAt(s, i) == [s[0]] + RemoveAt(s[1..], i - 1)
  {
    assert s[1..][..i - 1] == s[1..i];
    assert s[1..][i..] == s[i + 1..];
  }

  lemma RemoveAtMultiset<T>(s: seq<T>, i: nat)
    requires i < |s|
    ensures multiset(RemoveAt(s, i)) + multiset{s[i]} == multiset(s)
  {
    assert s == s[..i] + [s[i]] + s[i + 1..];
  }

  lemma InsertAtMultiset<T>(s: seq<T>, i: nat, x: T)
    ensures multiset(InsertAt(s, i, x)) == multiset(s) + multiset{x}
  {
    if i <= |s| {
      assert s == s[..i] + s[i..];
    }
  }

  /** Every position of the moved sequence holds the element from `MoveSource`: a section and
      the cells of every track under it, moved with the same indices, land at the same place. */
  lemma MoveAt<T>(s: seq<T>, from: nat, to: nat, k: nat)
    requires from < |s| && to < |s| && k < |s|
    ensures |Move(s, from, to)| == |s|
    ensures MoveSource(from, to, k) < |s|
    ensures Move(s, from, to)[k] == s[MoveSource(from, to, k)]
  {
    var r := RemoveAt(s, from);
    assert Move(s, from, to) == r[..to] + [s[from]] + r[to..];
  }

  /** `MoveSource` and `MoveTarget` are inverse bijections of the positions 0..n-1. */
  lemma MoveSourceTarget(from: nat, to: nat, n: nat, i: nat)
    requires from < n && to < n && i < n
    ensures MoveTarget(from, to, i) < n && MoveSource(from, to, MoveTarget(from, to, i)) == i
    ensures MoveSource(from, to, i) < n && MoveTarget(from, to, MoveSource(from, to, i)) == i
  {
  }

  /** The reorder neither loses nor duplicates an element. */
  lemma MoveIsPermutation<T>(s: seq<T>, from: nat, to: nat)
    requires from < |s|
    ensures |Move(s, from, to)| == |s|
    ensures multiset(Move(s, from, to)) == multiset(s)
  {
    RemoveAtMultiset(s, from);
    InsertAtMultiset(RemoveAt(s, from), to, s[from]);
  }

  /** The splice-based reorder on concrete sequences: moving right lands ON the target's old
      index, so the dragged item ends up after the target only when the target was last. */
  lemma MoveExamples()
    ensures Move("ABC", 0, 2) == "BCA"
    ensures Move("ABCD", 0, 2) == "BCAD"
    ensures Move("ABC", 2, 0) == "CAB"
    ensures Move("ABCD", 3, 1) == "ADBC"
  {
    assert RemoveAt("ABC", 0) == "BC";
    assert RemoveAt("ABCD", 0) == "BCD";
    assert RemoveAt("ABC", 2) == "AB";
    assert RemoveAt("ABCD", 3) == "ABC";
  }
}

/** Facts about sequences that the scanning and marking loops share. */
module Sequences {

  /** What follows the first `i` elements, nothing if there are not that many. */
  function Suffix<T>(s: seq<T>, i: nat): (tail: seq<T>)
    ensures |tail| == if i <= |s| then |s| - i else 0
    ensures forall k :: 0 <= k < |tail| ==> tail[k] == s[i + k]
  {
    if i <= |s| then s[i..] else []
  }

  /** Moving the next piece from what is left to what is done. */
  lemma Associate<T>(done: seq<T>, next: seq<T>, left: seq<T>)
    ensures (done + next) + left == done + (next + left)
  {
  }

  lemma Grown<T>(a: seq<T>, b: seq<T>)
    ensures a + b == a <==> b == []
  {
    if b != [] {
      assert |a + b| > |a|;
    }
  }

  /** The parts one after the other. */
  function Concat<T>(parts: seq<seq<T>>): seq<T> {
    if parts == [] then [] else parts[0] + Concat(parts[1..])
  }

  /** How many elements the first `k` parts have. */
  function LengthBefore<T>(parts: seq<seq<T>>, k: nat): nat
    requires k <= |parts|
  {
    if k == 0 then 0 else LengthBefore(parts, k - 1) + |parts[k - 1]|
  }

  lemma {:induction false} LengthBeforeFront<T>(parts: seq<seq<T>>, k: nat)
    requires 0 < k <= |parts|
    ensures LengthBefore(parts, k) == |parts[0]| + LengthBefore(parts[1..], k - 1)
    decreases k
  {
    if k > 1 {
      LengthBeforeFront(parts, k - 1);
    }
  }

  lemma {:induction false} ConcatLength<T>(parts: seq<seq<T>>)
    ensures |Concat(parts)| == LengthBefore(parts, |parts|)
    decreases |parts|
  {
    if parts != [] {
      ConcatLength(parts[1..]);
      LengthBeforeFront(parts, |parts|);
    }
  }

  lemma SecondPart<T>(a: seq<T>, b: seq<T>, i: nat)
    requires i < |b|
    ensures |a| + i < |a + b| && (a + b)[|a| + i] == b[i]
  {
  }

  /** Every element of every part is found after those of the parts before it. */
  lemma {:induction false} ConcatAt<T>(parts: seq<seq<T>>, k: nat, j: nat)
    requires k < |parts| && j < |parts[k]|
    ensures LengthBefore(parts, k) + j < |Concat(parts)|
    ensures Concat(parts)[LengthBefore(parts, k) + j] == parts[k][j]
    decreases k
  {
    if k > 0 {
      ConcatAt(parts[1..], k - 1, j);
      LengthBeforeFront(parts, k);
      SecondPart(parts[0], Concat(parts[1..]), LengthBefore(parts[1..], k - 1) + j);
    }
  }
}

/**
 The index bookkeeping of `ReverseJSObjectIterator`, which walks a
 script object's elements from the last index down to 0.

 The element length arrives already converted by `toUint32`; a missing
 `length` member counts as 0. The index is a Java `long`, which holds every
 value used here (from 2^32 - 2 down to -1), so it is modelled as an `int`.
 */
module ReverseJSObjectIterators {

  import opened Wrappers

  type Uint32 = x: int | 0 <= x < 0x1_0000_0000

  datatype ReverseIterator = ReverseIterator(index: int)

  /** The length the constructor starts from: `length` when present, else 0. */
  function ObjectLength(lengthMember: Option<Uint32>): (len: Uint32)
    ensures lengthMember.None? ==> len == 0
    ensures lengthMember.Some? ==> len == lengthMember.value
  {
    if lengthMember.Some? then lengthMember.value else 0
  }

  /** The constructor: the index starts at the last element, `length - 1`. */
  function NewReverseIterator(lengthMember: Option<Uint32>): (it: ReverseIterator)
    ensures it.index + 1 == ObjectLength(lengthMember)
    ensures -1 <= it.index < 0x1_0000_0000 - 1
  {
    ReverseIterator(ObjectLength(lengthMember) - 1)
  }

  /** `isReverse()`: this iterator always walks backwards. */
  function IsReverse(it: ReverseIterator): (reverse: bool)
    ensures reverse
  {
    true
  }

  /** `indexInArray()`: there is an element left to visit. */
  predicate IndexInArray(it: ReverseIterator)
  {
    it.index >= 0
  }

  /** `bumpIndex()`: returns the current index and moves one element down (`index--`). */
  function BumpIndex(it: ReverseIterator): (r: (int, ReverseIterator))
    ensures r.0 == it.index
    ensures r.1.index == it.index - 1
  {
    (it.index, ReverseIterator(it.index - 1))
  }

  /** A fresh iterator has an element to visit exactly when the length is positive. */
  lemma StartsExhaustedIffEmpty(lengthMember: Option<Uint32>)
    ensures IndexInArray(NewReverseIterator(lengthMember)) <==> ObjectLength(lengthMember) > 0
    ensures lengthMember.None? ==> !IndexInArray(NewReverseIterator(lengthMember))
  {
  }

  /** The indices a full walk visits over `len` elements: `len - 1`, `len - 2`, ..., `0`. */
  function Countdown(len: nat): (indices: seq<int>)
    ensures |indices| == len
    ensures forall k :: 0 <= k < len ==> indices[k] == len - 1 - k
  {
    seq(len, k => len - 1 - k)
  }

  /**
   Drives the iterator as its superclass does: bump while `indexInArray`
   holds. The indices come out from the last element down to 0, each once,
   and the iterator ends exhausted at index -1.
   */
  method Walk(lengthMember: Option<Uint32>) returns (visited: seq<int>, last: ReverseIterator)
    ensures visited == Countdown(ObjectLength(lengthMember))
    ensures !IndexInArray(last) && last.index == -1
  {
    var len := ObjectLength(lengthMember);
    var it := NewReverseIterator(lengthMember);
    visited := [];
    while IndexInArray(it)
      invariant -1 <= it.index < len
      invariant |visited| == len - 1 - it.index
      invariant forall k :: 0 <= k < |visited| ==> visited[k] == len - 1 - k
      decreases it.index
    {
      var step := BumpIndex(it);
      visited := visited + [step.0];
      it := step.1;
    }
    last := it;
  }

  /** After `n` bumps from the start the index is `len - 1 - n`, and the walk is over exactly after `len` of them. */
  lemma {:induction false} BumpsCountDown(it: ReverseIterator, n: nat)
    ensures Bumps(it, n).index == it.index - n
    ensures IndexInArray(Bumps(it, n)) <==> n <= it.index
  {
    if n > 0 {
      BumpsCountDown(it, n - 1);
    }
  }

  /** The iterator after `n` calls of `bumpIndex`. */
  function Bumps(it: ReverseIterator, n: nat): ReverseIterator
  {
    if n == 0 then it else BumpIndex(Bumps(it, n - 1)).1
  }
}

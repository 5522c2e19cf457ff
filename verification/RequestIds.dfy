/** MessageDispatcherImpl.getNextRequestID: a counter that wraps. */
module RequestIds {
  import opened JavaArithmetic

  /** x++ of a Java int. */
  function Increment(x: int): int
  {
    if x == 0x7fff_ffff then -0x8000_0000 else x + 1
  }

  predicate IsInt(x: int)
  {
    -0x8000_0000 <= x <= 0x7fff_ffff
  }

  /** The k-th identifier, counted from 0, when the first one is first: 1 to 2^31 - 1 round and round. */
  function Id(first: int, k: nat): int
  {
    (first - 1 + k) % 0x7fff_ffff + 1
  }

  /** The identifier a counter at n gives next. */
  function Pending(n: int): int
  {
    if n <= 0 then 1 else n
  }

  class MessageDispatcher {
    var nextTransactionID: int

    constructor (start: int)
      requires IsInt(start)
      ensures nextTransactionID == start
    {
      nextTransactionID := start;
    }

    /** getNextRequestID */
    method GetNextRequestID() returns (nextID: int)
      requires IsInt(nextTransactionID)
      modifies this
      ensures IsInt(nextTransactionID) && 1 <= nextID <= MAX_INT
      ensures nextID == Pending(old(nextTransactionID))
      ensures nextTransactionID == After(old(nextTransactionID))
    {
      nextID := nextTransactionID;
      nextTransactionID := Increment(nextTransactionID);
      if nextID <= 0 {
        nextID := 1;
        nextTransactionID := 2;
      }
    }
  }

  /** The counter after one more call, and after k. */
  function After(n: int): int
  {
    if n <= 0 then 2 else Increment(n)
  }

  function AfterCalls(n: int, k: nat): int
  {
    if k == 0 then n else After(AfterCalls(n, k - 1))
  }

  /** Call after call, from any int, the identifiers go round 1 to 2^31 - 1. */
  lemma {:induction false} IdOfCall(n: int, k: nat)
    requires IsInt(n)
    ensures IsInt(AfterCalls(n, k)) && Pending(AfterCalls(n, k)) == Id(Pending(n), k)
  {
    if k == 0 {
      IdFirst(Pending(n));
    } else {
      IdOfCall(n, k - 1);
      IdNext(Pending(n), k - 1);
    }
  }

  lemma IdFirst(first: int)
    requires 1 <= first <= MAX_INT
    ensures Id(first, 0) == first
  {}

  lemma IdNext(first: int, k: nat)
    ensures 1 <= Id(first, k) <= MAX_INT
    ensures Id(first, k + 1) == if Id(first, k) == MAX_INT then 1 else Id(first, k) + 1
  {}

  /** Two identifiers are the same exactly when they are a multiple of 2^31 - 1 calls apart; so any 2^31 - 1 in a
      row are all different. */
  lemma SameId(first: int, j: nat, k: nat)
    ensures Id(first, j) == Id(first, k) <==> (k - j) % 0x7fff_ffff == 0
    ensures 0 < k - j < 0x7fff_ffff ==> Id(first, j) != Id(first, k)
  {
    var a, b := first - 1 + j, first - 1 + k;
    assert b - a == k - j;
    SameRemainder(a, b);
  }

  lemma SameRemainder(a: int, b: int)
    ensures a % 0x7fff_ffff == b % 0x7fff_ffff <==> (b - a) % 0x7fff_ffff == 0
  {}
}

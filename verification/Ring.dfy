/** Circular buffers: which queue a buffer holds from its head on. */
module Ring {

  /** The place a of a buffer of n places, for the sums that occur. */
  function Wrap(a: nat, n: nat): (r: nat)
    requires a < 2 * n
    ensures r < n
  {
    if a < n then a else a - n
  }

  /** That is the remainder. */
  lemma WrapIsRemainder(a: nat, n: nat)
    requires a < 2 * n
    ensures Wrap(a, n) == a % n
  {
    if a >= n {
      assert a == n * 1 + (a - n);
    }
  }

  /** The circular buffer from head on holds the queue. */
  ghost predicate Holds<T>(buf: seq<T>, head: nat, queue: seq<T>) {
    && |queue| <= |buf| && head < |buf|
    && forall i :: 0 <= i < |queue| ==> buf[Wrap(head + i, |buf|)] == queue[i]
  }

  lemma Pushed<T>(buf: seq<T>, head: nat, queue: seq<T>, x: T)
    requires Holds(buf, head, queue) && |queue| < |buf|
    ensures Holds(buf[Wrap(head + |queue|, |buf|) := x], head, queue + [x])
  {
  }

  lemma Popped<T>(buf: seq<T>, head: nat, queue: seq<T>)
    requires Holds(buf, head, queue) && queue != []
    ensures buf[head] == queue[0]
    ensures Holds(buf, Wrap(head + 1, |buf|), queue[1..])
  {
    assert Wrap(head + 0, |buf|) == head;
    forall i | 0 <= i < |queue[1..]|
      ensures buf[Wrap(Wrap(head + 1, |buf|) + i, |buf|)] == queue[1..][i]
    {
      assert buf[Wrap(head + (i + 1), |buf|)] == queue[i + 1];
    }
  }
}

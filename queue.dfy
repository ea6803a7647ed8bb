/** The next-queue as a value: a sequence of slots that `getNextPiece`
    shifts and backfills. A slot is None while it is a hole of a freshly
    allocated `Array(size)`. Both revisions of the player use these
    functions: one with whole pieces in the slots, the other with keys. */
module Queue {
  import opened Optional

  /** `Array(n)`: n holes. */
  function Holes<T>(n: nat): (q: seq<Option<T>>)
    ensures |q| == n && forall i :: 0 <= i < n ==> q[i] == None
  {
    seq(n, _ => None)
  }

  /** Every slot holds a value (no holes). */
  predicate Filled<T>(q: seq<Option<T>>) {
    forall i :: 0 <= i < |q| ==> q[i].Some?
  }

  /** The queue after getNextPiece: `shift` drops the front slot (an empty
      queue stays empty), then `push(refill)` when the configured size is
      positive. A queue of the configured size keeps that size, and a queue
      without holes stays without holes. */
  function Shifted<T>(q: seq<Option<T>>, size: nat, refill: T): (r: seq<Option<T>>)
    ensures |q| == size ==> |r| == size
    ensures Filled(q) ==> Filled(r)
  {
    (if |q| > 0 then q[1..] else []) + (if size > 0 then [Some(refill)] else [])
  }

  /** What `shift` returns: the front slot, or None for an empty queue. */
  function Front<T>(q: seq<Option<T>>): Option<T> {
    if |q| > 0 then q[0] else None
  }

  /** What getNextPiece returns: `nextPiece ?? fallback`, the former front
      when it held a value, otherwise a freshly drawn `fallback`. */
  function Pulled<T>(q: seq<Option<T>>, fallback: T): T {
    Front(q).GetOr(fallback)
  }

  /** One pull from a queue of the configured size: with size > 0 every
      other slot moves forward by one and the refill lands at the back; with
      size 0 the queue stays empty and the pull is the fallback. */
  lemma ShiftMovesForward<T>(q: seq<Option<T>>, size: nat, refill: T, fallback: T)
    requires |q| == size
    ensures size > 0 ==>
      (forall i :: 0 <= i < size - 1 ==> Shifted(q, size, refill)[i] == q[i + 1]) &&
      Shifted(q, size, refill)[size - 1] == Some(refill)
    ensures size == 0 ==> Shifted(q, size, refill) == [] && Pulled(q, fallback) == fallback
    ensures size > 0 && q[0].Some? ==> Pulled(q, fallback) == q[0].value
  {
  }

  /** The values of a queue without holes. */
  function Values<T>(q: seq<Option<T>>): (v: seq<T>)
    requires Filled(q)
    ensures |v| == |q|
  {
    seq(|q|, i requires 0 <= i < |q| => q[i].value)
  }

  /** Every value in its own slot. */
  function Slots<T>(v: seq<T>): (q: seq<Option<T>>)
    ensures |q| == |v| && Filled(q)
  {
    seq(|v|, i requires 0 <= i < |v| => Some(v[i]))
  }

  /** The values pulled by |refills| successive getNextPiece calls on a
      queue without holes, the i-th call pushing refills[i]. */
  function PullMany<T>(q: seq<Option<T>>, size: nat, refills: seq<T>): seq<T>
    requires Filled(q) && |q| == size && size > 0
    decreases |refills|
  {
    if refills == [] then []
    else [q[0].value] + PullMany(Shifted(q, size, refills[0]), size, refills[1..])
  }

  /** The queue left after those calls. */
  function AfterMany<T>(q: seq<Option<T>>, size: nat, refills: seq<T>): seq<Option<T>>
    requires Filled(q) && |q| == size && size > 0
    decreases |refills|
  {
    if refills == [] then q
    else AfterMany(Shifted(q, size, refills[0]), size, refills[1..])
  }

  /** The queue is first-in first-out: pieces come out in the order they
      went in (the queued ones first, then the refills), and the queue
      always holds the next `size` of them. */
  lemma {:induction false} QueueIsFifo<T>(q: seq<Option<T>>, size: nat, refills: seq<T>)
    requires Filled(q) && |q| == size && size > 0
    ensures PullMany(q, size, refills) == (Values(q) + refills)[..|refills|]
    ensures AfterMany(q, size, refills) == Slots((Values(q) + refills)[|refills|..|refills| + size])
    decreases |refills|
  {
    var all := Values(q) + refills;
    if refills == [] {
      assert all[0..size] == Values(q);
      assert Slots(Values(q)) == q;
    } else {
      var q' := Shifted(q, size, refills[0]);
      var rest := refills[1..];
      QueueIsFifo(q', size, rest);
      assert Values(q') + rest == all[1..];
      assert PullMany(q, size, refills) == [all[0]] + all[1..][..|rest|];
      assert [all[0]] + all[1..][..|rest|] == all[..|refills|];
      assert all[1..][|rest|..|rest| + size] == all[|refills|..|refills| + size];
    }
  }
}

/**
 * `Queue`: a history of at most `limit` values (oldest first), read newest
 * first.
 */
module History {
  import opened Wrappers

  class Queue<T(==)> {
    const limit: nat
    var queue: seq<T>

    /** With a positive limit the queue never holds more than `limit` values. */
    ghost predicate Valid()
      reads this
    {
      limit >= 1 ==> |queue| <= limit
    }

    /** `Queue::with_capacity`. */
    constructor (limit: nat)
      ensures Valid() && this.limit == limit && queue == []
    {
      this.limit := limit;
      queue := [];
    }

    /** `push`: at the limit, the oldest value is dropped first. */
    method Push(val: T)
      requires Valid()
      modifies this
      ensures Valid()
      ensures queue == (if |old(queue)| == limit && limit >= 1 then old(queue)[1..] else old(queue)) + [val]
    {
      if |queue| == limit {
        if queue != [] {
          queue := queue[1..];
        }
      }
      queue := queue + [val];
    }

    function Len(): (n: nat)
      reads this
      ensures n == |queue|
    {
      |queue|
    }

    function IsEmpty(): (b: bool)
      reads this
      ensures b <==> queue == []
    {
      Len() == 0
    }

    /** `last`: the newest value. */
    function Last(): (r: Option<T>)
      reads this
      ensures r.None? <==> queue == []
      ensures r.Some? ==> r.value == queue[|queue| - 1]
    {
      if queue == [] then None else Some(queue[|queue| - 1])
    }

    /** `iter`: newest first. */
    function Iter(): (r: seq<T>)
      reads this
      ensures |r| == |queue|
      ensures forall i :: 0 <= i < |r| ==> r[i] == queue[|queue| - 1 - i]
    {
      seq(|queue|, i requires 0 <= i < |queue| reads this => queue[|queue| - 1 - i])
    }

    /** `last_nth`: the `n`-th value of `iter`. */
    function LastNth(n: nat): (r: Option<T>)
      reads this
      ensures r.None? <==> n >= |queue|
      ensures r.Some? ==> r.value == queue[|queue| - 1 - n]
    {
      if n < |Iter()| then Some(Iter()[n]) else None
    }

    /** `has`: only the newest value is compared. */
    function Has(item: T): (b: bool)
      reads this
      ensures b <==> queue != [] && queue[|queue| - 1] == item
    {
      Last() == Some(item)
    }

    /** The first value of `iter` is `last`. */
    lemma LastNthZero()
      ensures LastNth(0) == Last()
    {
    }
  }

  /** After a push, the pushed value is the newest, and the one before it is second newest. */
  method PushThenRead<T(==)>(q: Queue<T>, val: T) returns (newest: Option<T>, second: Option<T>)
    requires q.Valid()
    modifies q
    ensures q.Valid() && newest == Some(val) && q.Has(val)
    ensures second == if |old(q.queue)| >= 1 && q.limit != 1 then Some(old(q.queue)[|old(q.queue)| - 1]) else None
  {
    q.Push(val);
    newest := q.Last();
    second := q.LastNth(1);
  }

  /** A queue of limit 2 keeps the last two of 1, 2, 3; a queue of limit 0 keeps everything. */
  method Examples() returns (kept: seq<nat>, unbounded: seq<nat>)
    ensures kept == [2, 3] && unbounded == [1, 2, 3]
  {
    var q := new Queue<nat>(2);
    q.Push(1);
    q.Push(2);
    q.Push(3);
    kept := q.queue;
    var u := new Queue<nat>(0);
    u.Push(1);
    u.Push(2);
    u.Push(3);
    unbounded := u.queue;
  }
}

/** The growing ring buffer of kern/lib/queue.c, and the order in which the scheduler of
    kern/thread/scheduler.c picks threads from it. */
module Queue {
  /** The place k steps after place r. */
  function Place(r: int, k: int, size: int): int {
    if r + k < size then r + k else r + k - size
  }

  /** The n entries of a ring from place r on. */
  function Ring(d: seq<int>, r: int, n: int): (s: seq<int>)
    requires 0 <= r < |d| && 0 <= n <= |d|
    ensures |s| == n
  {
    seq(n, k requires 0 <= k < n => d[Place(r, k, |d|)])
  }

  /** How many entries lie from place r up to place w. */
  function Dist(r: int, w: int, size: int): int {
    if r <= w then w - r else w - r + size
  }

  /** The step (x + 1) % size. */
  lemma NextPlace(x: int, size: int)
    requires 0 <= x < size
    ensures (x + 1) % size == Place(x, 1, size)
  {
    if x + 1 == size {
      assert size % size == 0;
    }
  }

  method StepOn(x: int, size: int) returns (y: int)
    requires 0 <= x < size
    ensures y == Place(x, 1, size)
  {
    NextPlace(x, size);
    y := (x + 1) % size;
  }

  class Queue {
    var size: int
    var nextwrite: int
    var nextread: int
    var data: array<int>

    ghost predicate Valid()
      reads this
    {
      0 < size == data.Length && 0 <= nextwrite < size && 0 <= nextread < size
    }

    ghost function Contents(): seq<int>
      requires Valid()
      reads this, data
    {
      Ring(data[..], nextread, Dist(nextread, nextwrite, size))
    }

    /** A ring of this size takes one entry fewer. */
    ghost predicate Full()
      requires Valid()
      reads this
    {
      Dist(nextread, nextwrite, size) == size - 1
    }

    /** q_create */
    constructor (n: int)
      requires n > 0
      ensures Valid() && fresh(data) && size == n && Contents() == []
    {
      size, nextwrite, nextread := n, 0, 0;
      data := new int[n];
    }

    /** q_grow: the entries move, in order, to a ring of at least targetsize places.  The calls of
        q_addtail below find room, so they grow nothing. */
    method Grow(targetsize: int)
      requires Valid() && targetsize > size
      modifies this, data
      ensures Valid() && fresh(data) && Contents() == old(Contents()) && targetsize <= size < 2 * targetsize
      decreases 1
    {
      var olddata, onr, onw, osize := data, nextread, nextwrite, size;
      ghost var was := Contents();
      var nsize := size;
      while nsize < targetsize
        invariant size <= nsize < 2 * targetsize
        decreases targetsize - nsize
      {
        nsize := nsize * 2;
      }
      data := new int[nsize];
      size, nextread, nextwrite := nsize, 0, 0;
      var i := onr;
      ghost var n := 0;
      while i != onw
        invariant Valid() && size == nsize && fresh(data) && data != olddata
        invariant 0 <= n <= |was| && 0 <= i < osize && i == Place(onr, n, osize) && Contents() == was[..n]
        invariant olddata[..] == old(data[..])
        decreases |was| - n
      {
        assert n < |was|;
        AddTail(olddata[i]);
        i := StepOn(i, osize);
        n := n + 1;
      }
      assert was[..n] == was;
    }

    /** q_preallocate */
    method Preallocate(n: int)
      requires Valid()
      modifies this, data
      ensures Valid() && Contents() == old(Contents()) && size >= n && size >= old(size)
      ensures n <= old(size) ==> size == old(size) && data == old(data)
      ensures data == old(data) || fresh(data)
    {
      if n > size {
        Grow(n);
      }
    }

    /** q_empty */
    method Empty() returns (b: bool)
      requires Valid()
      ensures b <==> Contents() == []
    {
      b := nextwrite == nextread;
    }

    /** q_addtail: at the end; the ring grows only if it is full. */
    method AddTail(ptr: int)
      requires Valid()
      modifies this, data
      ensures Valid() && Contents() == old(Contents()) + [ptr]
      ensures !old(Full()) ==> size == old(size) && data == old(data)
      ensures old(Full()) ==> fresh(data) && size > old(size)
      decreases if Full() then 2 else 0
    {
      var nextnext := StepOn(nextwrite, size);
      if nextnext == nextread {
        Grow(size + 1);
        nextnext := StepOn(nextwrite, size);
      }
      PutTail(ptr, nextnext);
    }

    /** Store an entry in a ring that is not full. */
    method PutTail(ptr: int, nextnext: int)
      requires Valid() && !Full() && nextnext == Place(nextwrite, 1, size)
      modifies this`nextwrite, data
      ensures Valid() && Contents() == old(Contents()) + [ptr]
    {
      ghost var was := Contents();
      data[nextwrite] := ptr;
      nextwrite := nextnext;
      assert Contents() == was + [ptr];
    }

    /** q_remhead */
    method RemHead() returns (ret: int)
      requires Valid() && Contents() != []
      modifies this`nextread
      ensures Valid() && old(Contents()) == [ret] + Contents()
    {
      ghost var was := Contents();
      ret := data[nextread];
      nextread := StepOn(nextread, size);
      assert was == [ret] + Contents();
    }
  }

  // ---- first in, first out ----

  /** What the scheduler does to the run queue: picks the head, or adds a runnable thread. */
  datatype Op = Pick | Add(thread: int)

  /** Threads added by a run of operations, in order. */
  function Added(ops: seq<Op>): seq<int> {
    if ops == [] then [] else (if ops[0].Add? then [ops[0].thread] else []) + Added(ops[1..])
  }

  /** Threads picked, in order; an empty queue gives none. */
  function Picked(q: seq<int>, ops: seq<Op>): seq<int>
    decreases |ops|
  {
    if ops == [] then []
    else if ops[0].Add? then Picked(q + [ops[0].thread], ops[1..])
    else if q == [] then Picked(q, ops[1..])
    else [q[0]] + Picked(q[1..], ops[1..])
  }

  /** The queue afterwards. */
  function Left(q: seq<int>, ops: seq<Op>): seq<int>
    decreases |ops|
  {
    if ops == [] then q
    else if ops[0].Add? then Left(q + [ops[0].thread], ops[1..])
    else Left(if q == [] then q else q[1..], ops[1..])
  }

  lemma PutFirst(q: seq<int>, p: seq<int>, l: seq<int>, a: seq<int>)
    requires q != [] && p + l == q[1..] + a
    ensures [q[0]] + p + l == q + a
  {
    assert [q[0]] + p + l == [q[0]] + (p + l);
    assert q + a == [q[0]] + (q[1..] + a);
  }

  /** Threads are picked in the order in which they stand in the queue and are added to it; none
      is lost and none is picked twice. */
  lemma {:induction false} PicksInOrder(q: seq<int>, ops: seq<Op>)
    ensures Picked(q, ops) + Left(q, ops) == q + Added(ops)
    decreases |ops|
  {
    if ops != [] {
      var op, rest := ops[0], ops[1..];
      if op.Add? {
        PicksInOrder(q + [op.thread], rest);
        assert q + [op.thread] + Added(rest) == q + ([op.thread] + Added(rest));
      } else if q == [] {
        PicksInOrder(q, rest);
      } else {
        PicksInOrder(q[1..], rest);
        PutFirst(q, Picked(q[1..], rest), Left(q[1..], rest), Added(rest));
      }
    }
  }

  /** A thread at position k is picked after exactly k other picks, whatever is added meanwhile. */
  lemma PickedAfter(q: seq<int>, ops: seq<Op>, k: int)
    requires 0 <= k < |q| && k < |Picked(q, ops)|
    ensures Picked(q, ops)[k] == q[k]
  {
    PicksInOrder(q, ops);
    assert (Picked(q, ops) + Left(q, ops))[k] == (q + Added(ops))[k];
  }

  /** The scheduler on its ring: scheduler and make_runnable, in any order. */
  method Schedule(q: Queue, ops: seq<Op>) returns (picks: seq<int>)
    requires q.Valid()
    modifies q, q.data
    ensures q.Valid() && picks == Picked(old(q.Contents()), ops) && q.Contents() == Left(old(q.Contents()), ops)
  {
    hide Queue.Valid, Queue.Contents;
    ghost var was := q.Contents();
    picks := [];
    assert ops[0..] == ops;
    for i := 0 to |ops|
      invariant q.Valid() && (q.data == old(q.data) || fresh(q.data))
      invariant Picked(was, ops) == picks + Picked(q.Contents(), ops[i..]) &&
        Left(was, ops) == Left(q.Contents(), ops[i..])
    {
      ghost var now, rest := q.Contents(), ops[i..];
      assert rest[0] == ops[i] && rest[1..] == ops[i + 1..];
      match ops[i] {
        case Add(thread) => q.AddTail(thread);
        case Pick =>
          var none := q.Empty();
          if !none {
            var t := q.RemHead();
            assert now[1..] == q.Contents() && now[0] == t;
            assert picks + ([t] + Picked(q.Contents(), rest[1..])) == (picks + [t]) + Picked(q.Contents(), rest[1..]);
            picks := picks + [t];
          }
      }
    }
    assert ops[|ops|..] == [];
  }
}

/** The RTOS message queue the stack is built on (the CMSIS-RTOS2 osMessageQueue
    calls): a bounded first-in-first-out queue of values copied in and out.

    Every call takes a timeout: 0 fails at once when the queue cannot serve the
    call, WaitForever suspends the caller, and any other value waits that many
    ticks. Within one call of this sequential model no other context runs, so a
    bounded wait on a queue that cannot serve the call always times out. */
module MessageQueue {

  import opened Optional
  import opened Uint

  /** osWaitForever. */
  const WaitForever: u32 := 0xFFFF_FFFF

  /** The osStatus_t values the queue calls return. */
  datatype Status = OsOk | OsErrorResource | OsErrorTimeout | OsErrorParameter

  datatype Queue<T> = Queue(capacity: nat, items: seq<T>) {

    predicate Valid() {
      |items| <= capacity
    }

    predicate IsFull() {
      |items| >= capacity
    }
  }

  /** A queue handle; None is the null handle of a queue that was never created. */
  type Handle<T> = Option<Queue<T>>

  datatype PutResult<T> = Stored(queue: Queue<T>) | PutFailed(status: Status) | PutBlocked

  datatype GetResult<T> = Retrieved(item: T, queue: Queue<T>) | GetFailed(status: Status) | GetBlocked

  /** osMessageQueuePut: appends `x` at the tail when there is room; a full queue is never changed. */
  function Put<T>(h: Handle<T>, x: T, timeout: u32): (r: PutResult<T>)
    requires h.Some? ==> h.value.Valid()
    ensures h.None? ==> r == PutFailed(OsErrorParameter)
    ensures r.Stored? <==> h.Some? && !h.value.IsFull()
    ensures r.Stored? ==>
              && r.queue.Valid()
              && r.queue.capacity == h.value.capacity
              && r.queue.items == h.value.items + [x]
    ensures r == PutBlocked <==> h.Some? && h.value.IsFull() && timeout == WaitForever
    ensures r == PutFailed(OsErrorResource) <==> h.Some? && h.value.IsFull() && timeout == 0
    ensures r == PutFailed(OsErrorTimeout) <==>
              h.Some? && h.value.IsFull() && timeout != 0 && timeout != WaitForever
  {
    match h
    case None => PutFailed(OsErrorParameter)
    case Some(q) =>
      if |q.items| < q.capacity then Stored(Queue(q.capacity, q.items + [x]))
      else if timeout == 0 then PutFailed(OsErrorResource)
      else if timeout == WaitForever then PutBlocked
      else PutFailed(OsErrorTimeout)
  }

  /** osMessageQueueGet: removes and returns the oldest item; an empty queue is never changed. */
  function Get<T>(h: Handle<T>, timeout: u32): (r: GetResult<T>)
    requires h.Some? ==> h.value.Valid()
    ensures h.None? ==> r == GetFailed(OsErrorParameter)
    ensures r.Retrieved? <==> h.Some? && |h.value.items| > 0
    ensures r.Retrieved? ==>
              && r.queue.Valid()
              && r.queue.capacity == h.value.capacity
              && [r.item] + r.queue.items == h.value.items
    ensures r == GetBlocked <==> h.Some? && |h.value.items| == 0 && timeout == WaitForever
    ensures r == GetFailed(OsErrorResource) <==> h.Some? && |h.value.items| == 0 && timeout == 0
    ensures r == GetFailed(OsErrorTimeout) <==>
              h.Some? && |h.value.items| == 0 && timeout != 0 && timeout != WaitForever
  {
    match h
    case None => GetFailed(OsErrorParameter)
    case Some(q) =>
      if |q.items| > 0 then Retrieved(q.items[0], Queue(q.capacity, q.items[1..]))
      else if timeout == 0 then GetFailed(OsErrorResource)
      else if timeout == WaitForever then GetBlocked
      else GetFailed(OsErrorTimeout)
  }

  /** osMessageQueueGetSpace: the number of free slots, 0 for a null handle. */
  function Space<T>(h: Handle<T>): (n: nat)
    requires h.Some? ==> h.value.Valid()
    ensures h.Some? ==> n + |h.value.items| == h.value.capacity
    ensures h.None? ==> n == 0
  {
    match h
    case None => 0
    case Some(q) => q.capacity - |q.items|
  }

  /** osMessageQueueReset: discards every queued item; a null handle stays null. */
  function Reset<T>(h: Handle<T>): (r: Handle<T>)
    ensures r.Some? <==> h.Some?
    ensures h.Some? ==> r.value.items == [] && r.value.capacity == h.value.capacity
  {
    match h
    case None => None
    case Some(q) => Some(Queue(q.capacity, []))
  }

  /** The queue after putting each of `xs` in turn, without waiting, when all of them fit. */
  function PutAll<T>(q: Queue<T>, xs: seq<T>): (r: Queue<T>)
    requires q.Valid() && |q.items| + |xs| <= q.capacity
    ensures r.Valid() && r.capacity == q.capacity
    decreases |xs|
  {
    if xs == [] then q else PutAll(Put(Some(q), xs[0], 0).queue, xs[1..])
  }

  /** The items obtained by getting, without waiting, until the queue reports it is empty. */
  function Drain<T>(q: Queue<T>): (xs: seq<T>)
    requires q.Valid()
    ensures |xs| == |q.items|
    decreases |q.items|
  {
    match Get(Some(q), 0)
    case Retrieved(x, rest) => [x] + Drain(rest)
    case _ => []
  }

  lemma {:induction false} PutAllAppends<T>(q: Queue<T>, xs: seq<T>)
    requires q.Valid() && |q.items| + |xs| <= q.capacity
    ensures PutAll(q, xs).items == q.items + xs
    decreases |xs|
  {
    if xs != [] {
      var q' := Put(Some(q), xs[0], 0).queue;
      PutAllAppends(q', xs[1..]);
      assert q.items + [xs[0]] + xs[1..] == q.items + xs;
    }
  }

  lemma {:induction false} DrainYieldsOldestFirst<T>(q: Queue<T>)
    requires q.Valid()
    ensures Drain(q) == q.items
    decreases |q.items|
  {
    if |q.items| > 0 {
      var g := Get(Some(q), 0);
      DrainYieldsOldestFirst(g.queue);
    }
  }

  /** First in, first out: what is put in comes out behind what was queued, in the order it was put. */
  lemma FifoOrder<T>(q: Queue<T>, xs: seq<T>)
    requires q.Valid() && |q.items| + |xs| <= q.capacity
    ensures Drain(PutAll(q, xs)) == q.items + xs
  {
    PutAllAppends(q, xs);
    DrainYieldsOldestFirst(PutAll(q, xs));
  }
}

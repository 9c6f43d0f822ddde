/** The VM's frontier (src/datastructures.c): a FIFO ring buffer of 1024
    `uint32_t` slots addressed by two monotone `uint64_t` counters masked
    with `QUEUE_MASK`, and the `frontier_*` functions that dispatch on the
    frontier's backend type. Pushes go to `front` and pops come from
    `back`. Pointers become nullable references, and `-1` is the error
    return the C code uses. */
module Frontier {
  import Bits
  import opened CTypes

  const MAX_QUEUE_SIZE: nat := 1024
  const QUEUE_MASK: nat := 1023

  /** The slot `counter & QUEUE_MASK` names. */
  function Slot(counter: nat): (i: nat)
    ensures i < MAX_QUEUE_SIZE && i == counter % MAX_QUEUE_SIZE
  {
    Bits.Pow2Values();
    Bits.AndLowMask(counter, 10);
    Bits.BitAnd(counter, QUEUE_MASK)
  }

  /** The `n` slots from counter `back` on, oldest first. */
  function Window(d: seq<U32>, back: nat, n: nat): (w: seq<U32>)
    requires |d| == MAX_QUEUE_SIZE
    ensures |w| == n
  {
    seq(n, i requires 0 <= i < n => d[(back + i) % MAX_QUEUE_SIZE])
  }

  /** Two counters less than a full ring apart name different slots. */
  lemma SlotsDistinct(b: nat, i: nat, n: nat)
    requires i < n && n - i < MAX_QUEUE_SIZE
    ensures (b + i) % MAX_QUEUE_SIZE != (b + n) % MAX_QUEUE_SIZE
  {
  }

  /** Writing the slot of counter `back + n` appends to the window, as long
      as the window is not full. */
  lemma WindowPush(d: seq<U32>, back: nat, n: nat, x: U32)
    requires |d| == MAX_QUEUE_SIZE && n < MAX_QUEUE_SIZE
    ensures Window(d[(back + n) % MAX_QUEUE_SIZE := x], back, n + 1) == Window(d, back, n) + [x]
  {
    var d' := d[(back + n) % MAX_QUEUE_SIZE := x];
    forall i | 0 <= i < n
      ensures Window(d', back, n + 1)[i] == Window(d, back, n)[i]
    {
      SlotsDistinct(back, i, n);
    }
  }

  /** Advancing `back` drops the oldest slot of the window. */
  lemma WindowPop(d: seq<U32>, back: nat, n: nat)
    requires |d| == MAX_QUEUE_SIZE && n > 0
    ensures Window(d, back, n)[0] == d[back % MAX_QUEUE_SIZE]
    ensures Window(d, back + 1, n - 1) == Window(d, back, n)[1..]
  {
    forall i | 1 <= i < n
      ensures Window(d, back + 1, n - 1)[i - 1] == Window(d, back, n)[i]
    {
      assert back + 1 + (i - 1) == back + i;
    }
  }

  /** `struct queue_t`. */
  class Queue {
    const data: array<U32>
    var front: nat
    var back: nat

    /** The slot array has the size the struct declares. */
    ghost predicate Allocated() {
      data.Length == MAX_QUEUE_SIZE
    }

    /** The capacity invariant: `back <= front <= back + MAX_QUEUE_SIZE`. */
    ghost predicate Valid()
      reads this
    {
      Allocated() && back <= front <= back + MAX_QUEUE_SIZE
    }

    /** The queued values, oldest (next to pop) first. */
    ghost function Contents(): (s: seq<U32>)
      reads this, data
      requires Valid()
      ensures |s| == front - back
    {
      Window(data[..], back, front - back)
    }

    /** A `struct queue_t` as memory holds it before `queue_init`: any slot
        values and any counters. */
    constructor (garbage: seq<U32>, front0: nat, back0: nat)
      requires |garbage| == MAX_QUEUE_SIZE
      ensures Allocated() && fresh(data) && data[..] == garbage
      ensures front == front0 && back == back0
    {
      data := new U32[MAX_QUEUE_SIZE](i requires 0 <= i < MAX_QUEUE_SIZE => garbage[i]);
      front, back := front0, back0;
    }
  }

  /** An `int32_t` the caller passes by pointer to receive a popped node. */
  class Int32Cell {
    var value: I32

    constructor (v: I32)
      ensures value == v
    {
      value := v;
    }
  }

  /** What a call on `q` may write. */
  function QueueFrame(q: Queue?): set<object> {
    if q == null then {} else {q, q.data}
  }

  /** `queue_init`: zero every slot and both counters. */
  method QueueInit(q: Queue?) returns (rc: int)
    requires q != null ==> q.Allocated()
    modifies QueueFrame(q)
    ensures q == null ==> rc == -1
    ensures q != null ==> && rc == 0 && q.Valid() && q.front == 0 && q.back == 0
                          && q.Contents() == [] && q.data[..] == seq(MAX_QUEUE_SIZE, _ => 0)
  {
    if q == null {
      return -1;
    }
    var i := 0;
    while i < MAX_QUEUE_SIZE
      invariant 0 <= i <= MAX_QUEUE_SIZE
      invariant forall k :: 0 <= k < i ==> q.data[k] == 0
    {
      q.data[i] := 0;
      i := i + 1;
    }
    q.front := 0;
    q.back := 0;
    return 0;
  }

  /** `queue_push`: store `node` in the slot of `front` and advance `front`,
      unless the queue already holds `MAX_QUEUE_SIZE` values. */
  method QueuePush(q: Queue?, node: I32) returns (rc: int)
    requires q != null ==> q.Valid()
    modifies QueueFrame(q)
    ensures q == null ==> rc == -1
    ensures q != null ==> q.Valid() && q.back == old(q.back)
    ensures q != null && old(q.front - q.back) == MAX_QUEUE_SIZE ==>
      rc == -1 && q.front == old(q.front) && q.data[..] == old(q.data[..])
    ensures q != null && old(q.front - q.back) < MAX_QUEUE_SIZE ==>
      && rc == 0 && q.front == old(q.front) + 1
      && q.data[..] == old(q.data[..])[old(q.front) % MAX_QUEUE_SIZE := ToU32(node)]
      && q.Contents() == old(q.Contents()) + [ToU32(node)]
  {
    if q == null {
      return -1;
    }
    if q.front - q.back == MAX_QUEUE_SIZE {
      return -1;
    }
    ghost var d := q.data[..];
    WindowPush(d, q.back, q.front - q.back, ToU32(node));
    assert q.back + (q.front - q.back) == q.front;
    q.data[Slot(q.front)] := ToU32(node);
    q.front := q.front + 1;
    return 0;
  }

  /** What a pop may write. */
  function PopFrame(q: Queue?, result: Int32Cell?): set<object> {
    (if q == null then {} else {q}) + (if result == null then {} else {result})
  }

  /** `queue_pop`: hand out the value in the slot of `back` and advance
      `back`, unless the queue is empty. */
  method QueuePop(q: Queue?, result: Int32Cell?) returns (rc: int)
    requires q != null ==> q.Valid()
    modifies PopFrame(q, result)
    ensures q == null || result == null ==> rc == -1
    ensures q != null && result == null ==> unchanged(q)
    ensures q == null && result != null ==> result.value == old(result.value)
    ensures q != null ==> q.Valid() && q.front == old(q.front)
    ensures q != null && result != null && old(q.front) == old(q.back) ==>
      rc == -1 && q.back == old(q.back) && result.value == old(result.value)
    ensures q != null && result != null && old(q.front) != old(q.back) ==>
      && rc == 0 && q.back == old(q.back) + 1
      && result.value == ToI32(old(q.Contents())[0])
      && q.Contents() == old(q.Contents())[1..]
  {
    if q == null || result == null {
      return -1;
    }
    if q.front == q.back {
      return -1;
    }
    WindowPop(q.data[..], q.back, q.front - q.back);
    result.value := ToI32(q.data[Slot(q.back)]);
    q.back := q.back + 1;
    return 0;
  }

  /** `queue_empty`: 1 when nothing is queued, 0 otherwise. */
  method QueueEmpty(q: Queue?) returns (rc: int)
    requires q != null ==> q.Valid()
    ensures q == null ==> rc == -1
    ensures q != null ==> (rc == 1 <==> q.Contents() == []) && (rc == 0 <==> q.Contents() != [])
  {
    if q == null {
      return -1;
    }
    return if q.front == q.back then 1 else 0;
  }

  /** `frontier_type_t`. */
  datatype FrontierType = FrontierQueue | FrontierPriorityQueue | FrontierBucketQueue | FrontierSet

  /** `frontier_t`: the backend type and the queue backend of the union. */
  class Frontier {
    var kind: FrontierType
    const queue: Queue

    /** A `frontier_t` as memory holds it before `frontier_init`. */
    constructor (kind0: FrontierType, garbage: seq<U32>, front0: nat, back0: nat)
      requires |garbage| == MAX_QUEUE_SIZE
      ensures kind == kind0 && fresh(queue) && fresh(queue.data) && queue.Allocated()
      ensures queue.data[..] == garbage && queue.front == front0 && queue.back == back0
    {
      kind := kind0;
      queue := new Queue(garbage, front0, back0);
    }

    /** The backend the type selects is initialised. */
    ghost predicate Ready()
      reads this, queue
    {
      queue.Allocated() && (kind == FrontierQueue ==> queue.Valid())
    }
  }

  function FrontierFrame(f: Frontier?): set<object> {
    if f == null then {} else {f, f.queue, f.queue.data}
  }

  /** `frontier_init`: record the type, then initialise the queue backend;
      every other type fails after it has been recorded. */
  method FrontierInit(f: Frontier?, backend: FrontierType) returns (rc: int)
    requires f != null ==> f.queue.Allocated()
    modifies FrontierFrame(f)
    ensures f == null ==> rc == -1
    ensures f != null ==> f.kind == backend
    ensures f != null && backend == FrontierQueue ==>
      && rc == 0 && f.Ready() && f.queue.front == 0 && f.queue.back == 0
      && f.queue.Contents() == [] && f.queue.data[..] == seq(MAX_QUEUE_SIZE, _ => 0)
    ensures f != null && backend != FrontierQueue ==>
      rc == -1 && unchanged(f.queue) && unchanged(f.queue.data)
  {
    if f == null {
      return -1;
    }
    f.kind := backend;
    match backend
    case FrontierQueue =>
      rc := QueueInit(f.queue);
    case _ =>
      rc := -1;
  }

  /** `frontier_push`: push to the queue backend; -1 for any other type. */
  method FrontierPush(f: Frontier?, node: I32) returns (rc: int)
    requires f != null ==> f.Ready()
    modifies FrontierFrame(f)
    ensures f == null ==> rc == -1
    ensures f != null ==> f.Ready() && f.kind == old(f.kind)
    ensures f != null && f.kind != FrontierQueue ==>
      rc == -1 && unchanged(f.queue) && unchanged(f.queue.data)
    ensures f != null && f.kind == FrontierQueue ==>
      && (rc == 0 <==> old(|f.queue.Contents()|) < MAX_QUEUE_SIZE)
      && (rc == 0 || rc == -1)
      && f.queue.Contents() == if rc == 0 then old(f.queue.Contents()) + [ToU32(node)] else old(f.queue.Contents())
  {
    if f == null {
      return -1;
    }
    match f.kind
    case FrontierQueue =>
      rc := QueuePush(f.queue, node);
    case _ =>
      rc := -1;
  }

  /** `frontier_pop`: pop from the queue backend into `node`; -1 for any
      other type. */
  method FrontierPop(f: Frontier?, node: Int32Cell?) returns (rc: int)
    requires f != null ==> f.Ready()
    modifies (if f == null then {} else {f.queue}) + (if node == null then {} else {node})
    ensures f == null ==> rc == -1
    ensures f == null && node != null ==> node.value == old(node.value)
    ensures f != null ==> f.Ready()
    ensures f != null && (f.kind != FrontierQueue || node == null) ==>
      rc == -1 && unchanged(f.queue) && (node != null ==> node.value == old(node.value))
    ensures f != null && f.kind == FrontierQueue && node != null ==>
      && (rc == 0 <==> old(f.queue.Contents()) != [])
      && (rc == 0 || rc == -1)
      && (rc == 0 ==> node.value == ToI32(old(f.queue.Contents())[0]) && f.queue.Contents() == old(f.queue.Contents())[1..])
      && (rc == -1 ==> node.value == old(node.value) && f.queue.Contents() == old(f.queue.Contents()))
  {
    if f == null {
      return -1;
    }
    match f.kind
    case FrontierQueue =>
      rc := QueuePop(f.queue, node);
    case _ =>
      rc := -1;
  }

  /** `frontier_empty`: 1 when the queue backend is empty, 0 when not, -1
      for a null frontier or any other type. */
  method FrontierEmpty(f: Frontier?) returns (rc: int)
    requires f != null ==> f.Ready()
    ensures f == null || f.kind != FrontierQueue ==> rc == -1
    ensures f != null && f.kind == FrontierQueue ==>
      (rc == 1 <==> f.queue.Contents() == []) && (rc == 0 <==> f.queue.Contents() != [])
  {
    if f == null {
      return -1;
    }
    match f.kind
    case FrontierQueue =>
      rc := QueueEmpty(f.queue);
    case _ =>
      rc := -1;
  }
}

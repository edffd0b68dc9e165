/**
  The message queue of a service (skynet_mq.c): a ring buffer that grows, two flags that say
  whether the queue is known to the global list, and the overload watermark.
 */
module MessageQueue {
  import opened Common

  datatype Message = Message(source: nat, session: int, data: nat)

  // ----- what each lock-protected section does -----

  /** The queue as its sections see it: messages in order, and the two flags. */
  datatype Queue = Queue(msgs: seq<Message>, inGlobal: bool, release: bool)

  /** skynet_mq_create: the creator holds the queue as if it were in the global list. */
  function Created(): Queue {
    Queue([], true, false)
  }

  /** skynet_mq_push; the flag says whether the queue is put into the global list. */
  function Push(q: Queue, m: Message): (Queue, bool) {
    (q.(msgs := q.msgs + [m], inGlobal := true), !q.inGlobal)
  }

  /** skynet_mq_pop: an empty queue leaves the global list. */
  function Pop(q: Queue): (Queue, Option<Message>) {
    if q.msgs == [] then (q.(inGlobal := false), None) else (q.(msgs := q.msgs[1..]), Some(q.msgs[0]))
  }

  /** skynet_mq_mark_release; the flag says whether the queue is put into the global list. */
  function MarkRelease(q: Queue): (Queue, bool) {
    (q.(release := true), !q.inGlobal)
  }

  const DEFAULT_QUEUE_SIZE := 64
  const MQ_OVERLOAD := 1024

  /** The watermark after a pop that leaves `length` messages: doubled until it is not exceeded. */
  function Raised(threshold: nat, length: nat): (r: nat)
    requires threshold > 0
    ensures r >= length && r >= threshold
    ensures r > threshold ==> r < 2 * length
    decreases if length > threshold then length - threshold else 0
  {
    if length > threshold then Raised(threshold * 2, length) else threshold
  }

  // ----- the ring -----

  class Mq {
    var queue: array<Message>
    var cap: nat
    var head: nat
    var tail: nat
    var inGlobal: bool
    var release: bool
    var overload: nat
    var overloadThreshold: nat

    ghost predicate Valid()
      reads this
    {
      && cap == queue.Length > 0
      && head < cap && tail < cap
      && overloadThreshold > 0
    }

    /** The messages in the ring, oldest first. */
    ghost function Contents(): seq<Message>
      requires Valid()
      reads this, queue
    {
      if head <= tail then queue[head..tail] else queue[head..] + queue[..tail]
    }

    ghost function Abs(): Queue
      requires Valid()
      reads this, queue
    {
      Queue(Contents(), inGlobal, release)
    }

    constructor ()
      ensures Valid() && fresh(queue)
      ensures Abs() == Created()
    {
      queue := new Message[DEFAULT_QUEUE_SIZE](_ => Message(0, 0, 0));
      cap := DEFAULT_QUEUE_SIZE;
      head, tail := 0, 0;
      inGlobal, release := true, false;
      overload, overloadThreshold := 0, MQ_OVERLOAD;
    }

    /** skynet_mq_length. */
    method Length() returns (n: nat)
      requires Valid()
      ensures n == |Contents()|
    {
      if head <= tail {
        n := tail - head;
      } else {
        n := tail + cap - head;
      }
    }

    /** expand_queue: called when the ring is full, that is when head and tail have met. */
    method ExpandQueue()
      requires Valid() && head == tail
      modifies this
      ensures Valid() && fresh(queue)
      ensures Contents() == old(queue[head..]) + old(queue[..head])
      ensures head == 0 && tail == old(cap) && cap == 2 * old(cap)
      ensures inGlobal == old(inGlobal) && release == old(release)
      ensures overload == old(overload) && overloadThreshold == old(overloadThreshold)
    {
      var newQueue := new Message[cap * 2](_ => Message(0, 0, 0));
      for i := 0 to cap
        modifies newQueue
        invariant forall j :: 0 <= j < i ==> newQueue[j] == queue[Around(head, j, cap)]
      {
        newQueue[i] := queue[Around(head, i, cap)];
      }
      ghost var all := queue[head..] + queue[..head];
      forall j | 0 <= j < cap ensures newQueue[j] == all[j] {
      }
      assert newQueue[0..cap] == all;
      head, tail := 0, cap;
      cap := cap * 2;
      queue := newQueue;
    }

    method PushMessage(m: Message) returns (toGlobal: bool)
      requires Valid()
      modifies this, queue
      ensures Valid() && (queue == old(queue) || fresh(queue))
      ensures (Abs(), toGlobal) == Push(old(Abs()), m)
      ensures overload == old(overload) && overloadThreshold == old(overloadThreshold)
    {
      ghost var before := Contents();
      queue[tail] := m;
      tail := tail + 1;
      if tail >= cap {
        tail := 0;
      }
      if head == tail {
        assert queue[head..] + queue[..head] == before + [m];
        ExpandQueue();
      } else {
        assert Contents() == before + [m];
      }
      toGlobal := !inGlobal;
      inGlobal := true;
    }

    /** The loop of skynet_mq_pop that notes an overload and doubles the watermark. */
    method RaiseWatermark(length: nat)
      requires overloadThreshold > 0
      modifies this`overload, this`overloadThreshold
      ensures overloadThreshold == Raised(old(overloadThreshold), length)
      ensures overload == if length > old(overloadThreshold) then length else old(overload)
    {
      while length > overloadThreshold
        invariant overloadThreshold > 0
        invariant Raised(overloadThreshold, length) == Raised(old(overloadThreshold), length)
        invariant overloadThreshold >= old(overloadThreshold)
        invariant overload == if overloadThreshold > old(overloadThreshold) then length else old(overload)
        decreases length - overloadThreshold
      {
        overload := length;
        overloadThreshold := overloadThreshold * 2;
      }
    }

    method PopMessage() returns (m: Option<Message>)
      requires Valid()
      modifies this
      ensures Valid() && queue == old(queue)
      ensures (Abs(), m) == Pop(old(Abs()))
      ensures m.None? ==> overload == old(overload) && overloadThreshold == MQ_OVERLOAD
      ensures m.Some? ==> overloadThreshold == Raised(old(overloadThreshold), |Contents()|)
      ensures m.Some? ==> overload == if |Contents()| > old(overloadThreshold) then |Contents()| else old(overload)
    {
      ghost var before := Contents();
      if head != tail {
        m := Some(queue[head]);
        head := head + 1;
        if head >= cap {
          head := 0;
        }
        assert Contents() == before[1..];
        var length := tail - head;
        if length < 0 {
          length := length + cap;
        }
        assert length == |Contents()|;
        RaiseWatermark(length);
      } else {
        m := None;
        overloadThreshold := MQ_OVERLOAD;
        inGlobal := false;
      }
    }

    /** The flag change of skynet_mq_mark_release. */
    method Mark() returns (toGlobal: bool)
      requires Valid()
      modifies this`release
      ensures Valid() && (Abs(), toGlobal) == MarkRelease(old(Abs()))
    {
      release := true;
      toGlobal := !inGlobal;
    }
  }

  lemma Wraps(x: nat, cap: nat)
    requires x < cap
    ensures (x + cap) % cap == x
  {
  }

  /** (head + i) % cap for a head inside the ring and at most one turn. */
  function Around(head: nat, i: nat, cap: nat): (r: nat)
    requires head < cap && i < cap
    ensures r == (head + i) % cap && r < cap
    ensures r == if head + i < cap then head + i else head + i - cap
  {
    if head + i < cap then head + i else
      assert (head + i) % cap == head + i - cap by {
        Wraps(head + i - cap, cap);
      }
      head + i - cap
  }
}

/**
 * `MessageProcessor` and its `Queue`: updates deliver numbered messages in any order; the
 * main routine consumes them strictly by sequence number, waiting for gaps to fill.
 *
 * A slot of the queue is a future keyed by position. Only resolved futures matter to
 * the behaviour, so the model keeps the map of resolved positions; an unresolved future
 * that `next` creates while it waits is the same as an absent one.
 */
module ReorderQueue {
  import opened Common

  type Payload = string

  datatype Queue = Queue(head: int, filled: map<int, Payload>)

  function NewQueue(): Queue {
    Queue(0, map[])
  }

  /** `Queue.add`: the first payload for a position wins; a later one is only logged. */
  function Add(q: Queue, item: Payload, position: int): (r: Queue)
    ensures r.head == q.head
    ensures position in r.filled
    ensures r.filled[position] == if position in q.filled then q.filled[position] else item
    ensures forall p :: p != position ==> (p in r.filled <==> p in q.filled)
    ensures forall p :: p in q.filled ==> p in r.filled && r.filled[p] == q.filled[p]
  {
    if position in q.filled then q else q.(filled := q.filled[position := item])
  }

  /** `Queue.next`: waits until the head position is filled, returns it and moves on by one. */
  function Next(q: Queue): (r: Step<Queue, Payload>)
    ensures r.reply.Blocked? <==> q.head !in q.filled
    ensures r.reply.Blocked? || r.reply.Returned?
    ensures r.reply.Blocked? ==> r.post == q
    ensures r.reply.Returned? ==>
              r.reply.value == q.filled[q.head] && r.post.head == q.head + 1 && r.post.filled == q.filled
  {
    if q.head !in q.filled then Step(Blocked, q)
    else Step(Returned(q.filled[q.head]), q.(head := q.head + 1))
  }

  /** Deliveries and consumptions, each atomic. */
  datatype Event = Deliver(position: int, item: Payload) | Take

  function Apply(q: Queue, e: Event): Queue {
    match e
    case Deliver(p, item) => Add(q, item, p)
    case Take => Next(q).post
  }

  function ApplyAll(q: Queue, es: seq<Event>): Queue
    decreases |es|
  {
    if |es| == 0 then q else ApplyAll(Apply(q, es[0]), es[1..])
  }

  /** The head never moves back, and a filled position keeps its first payload for ever. */
  lemma {:induction false} HeadAndSlotsMonotone(q: Queue, es: seq<Event>)
    ensures ApplyAll(q, es).head >= q.head
    ensures forall p :: p in q.filled ==> p in ApplyAll(q, es).filled && ApplyAll(q, es).filled[p] == q.filled[p]
    decreases |es|
  {
    if |es| > 0 {
      HeadAndSlotsMonotone(Apply(q, es[0]), es[1..]);
    }
  }

  // ---------------------------------------------------------------------------------------
  // Arrival order does not matter.

  /** The payload of the earliest message for position `p`, if any. */
  function FirstWrite(msgs: seq<(int, Payload)>, p: int): (r: Option<Payload>)
    ensures r.Some? <==> exists i :: 0 <= i < |msgs| && msgs[i].0 == p
  {
    if |msgs| == 0 then None
    else if msgs[0].0 == p then Some(msgs[0].1)
    else
      var r := FirstWrite(msgs[1..], p);
      assert r.Some? ==> exists i :: 0 <= i < |msgs| && msgs[i].0 == p by {
        if r.Some? {
          var i :| 0 <= i < |msgs[1..]| && msgs[1..][i].0 == p;
          assert msgs[i + 1].0 == p;
        }
      }
      r
  }

  /** The queue after delivering `msgs` in order. */
  function Deliver(q: Queue, msgs: seq<(int, Payload)>): Queue
    decreases |msgs|
  {
    if |msgs| == 0 then q else Deliver(Add(q, msgs[0].1, msgs[0].0), msgs[1..])
  }

  lemma {:induction false} DeliverFirstWrite(q: Queue, msgs: seq<(int, Payload)>, p: int)
    ensures Deliver(q, msgs).head == q.head
    ensures p in Deliver(q, msgs).filled <==> p in q.filled || FirstWrite(msgs, p).Some?
    ensures p in Deliver(q, msgs).filled ==>
              Deliver(q, msgs).filled[p] == if p in q.filled then q.filled[p] else FirstWrite(msgs, p).value
    decreases |msgs|
  {
    if |msgs| > 0 {
      DeliverFirstWrite(Add(q, msgs[0].1, msgs[0].0), msgs[1..], p);
    }
  }

  /** `n` consecutive calls of `next`; `None` when one of them would wait. */
  function Drain(q: Queue, n: nat): Option<(seq<Payload>, Queue)>
    decreases n
  {
    if n == 0 then Some(([], q))
    else
      var step := Next(q);
      if step.reply.Blocked? then None
      else match Drain(step.post, n - 1)
        case None => None
        case Some((rest, q')) => Some(([step.reply.value] + rest, q'))
  }

  /** With the next `n` positions filled, `n` calls of `next` return them in position order. */
  lemma {:induction false} DrainInOrder(q: Queue, n: nat)
    requires forall i :: q.head <= i < q.head + n ==> i in q.filled
    ensures Drain(q, n).Some?
    ensures var (ys, q') := Drain(q, n).value;
              && |ys| == n
              && (forall j :: 0 <= j < n ==> ys[j] == q.filled[q.head + j])
              && q'.head == q.head + n && q'.filled == q.filled
    decreases n
  {
    if n > 0 {
      var q1 := Next(q).post;
      DrainInOrder(q1, n - 1);
    }
  }

  /**
   * Whatever order the messages for positions 0..k-1 arrive in (repeats included), k calls
   * of `next` return, in position order, the first payload delivered for each position.
   */
  lemma AnyArrivalOrder(msgs: seq<(int, Payload)>, k: nat)
    requires forall i :: 0 <= i < k ==> FirstWrite(msgs, i).Some?
    ensures Drain(Deliver(NewQueue(), msgs), k).Some?
    ensures var ys := Drain(Deliver(NewQueue(), msgs), k).value.0;
              |ys| == k && forall i :: 0 <= i < k ==> ys[i] == FirstWrite(msgs, i).value
  {
    var q := Deliver(NewQueue(), msgs);
    forall i | 0 <= i < k ensures i in q.filled && q.filled[i] == FirstWrite(msgs, i).value {
      DeliverFirstWrite(NewQueue(), msgs, i);
    }
    DeliverFirstWrite(NewQueue(), msgs, 0);
    DrainInOrder(q, k);
  }

  /** `app`'s messages: position `p` carries the payload `items[p]`, for each `p` of `order`. */
  function Messages(order: seq<nat>, items: seq<Payload>): (msgs: seq<(int, Payload)>)
    requires forall j :: 0 <= j < |order| ==> order[j] < |items|
    ensures |msgs| == |order|
    ensures forall j :: 0 <= j < |order| ==> msgs[j] == (order[j] as int, items[order[j]])
  {
    if |order| == 0 then [] else [(order[0] as int, items[order[0]])] + Messages(order[1..], items)
  }

  /** A shuffled delivery of every position 0..k-1 is drained as `items`, in order. */
  lemma ShuffledDelivery(order: seq<nat>, items: seq<Payload>)
    requires forall j :: 0 <= j < |order| ==> order[j] < |items|
    requires forall i :: 0 <= i < |items| ==> i in order
    ensures Drain(Deliver(NewQueue(), Messages(order, items)), |items|).Some?
    ensures Drain(Deliver(NewQueue(), Messages(order, items)), |items|).value.0 == items
  {
    var msgs := Messages(order, items);
    forall i | 0 <= i < |items| ensures FirstWrite(msgs, i) == Some(items[i]) {
      assert i in order;
      var j :| 0 <= j < |order| && order[j] == i;
      assert msgs[j].0 == i;
      FirstWriteConsistent(msgs, i, items[i]);
    }
    AnyArrivalOrder(msgs, |items|);
  }

  /** When every message for `p` carries `x`, the first one does. */
  lemma {:induction false} FirstWriteConsistent(msgs: seq<(int, Payload)>, p: int, x: Payload)
    requires forall j :: 0 <= j < |msgs| && msgs[j].0 == p ==> msgs[j].1 == x
    requires FirstWrite(msgs, p).Some?
    ensures FirstWrite(msgs, p) == Some(x)
    decreases |msgs|
  {
    if msgs[0].0 != p {
      FirstWriteConsistent(msgs[1..], p, x);
    }
  }

  // ---------------------------------------------------------------------------------------
  // The workflow.

  /** `process_message`: a synchronous update that hands the payload to the queue. */
  function ProcessMessage(q: Queue, sequenceNumber: int, payload: Payload): (r: Step<Queue, ()>)
    ensures r.reply == Returned(())
    ensures r.post.head == q.head
    ensures sequenceNumber in r.post.filled
    ensures sequenceNumber !in q.filled ==> r.post.filled[sequenceNumber] == payload
    ensures sequenceNumber in q.filled ==> r.post == q
  {
    Step(Returned(()), Add(q, payload, sequenceNumber))
  }

  /** One turn of `run`'s loop. */
  datatype LoopStep = Waiting | Logged(payload: Payload, next: Queue) | ContinuedAsNew(payload: Payload)

  /**
   * `continue_as_new()` is called without arguments, so the next run starts from an empty
   * queue at position 0.
   */
  function RunStep(q: Queue, suggested: bool): (r: LoopStep)
    ensures r.Waiting? <==> q.head !in q.filled
    ensures !r.Waiting? ==> r.payload == q.filled[q.head]
    ensures r.ContinuedAsNew? <==> q.head in q.filled && suggested
    ensures r.Logged? ==> r.next == Queue(q.head + 1, q.filled)
  {
    var step := Next(q);
    if step.reply.Blocked? then Waiting
    else if suggested then ContinuedAsNew(step.reply.value)
    else Logged(step.reply.value, step.post)
  }

  /**
   * After continue-as-new the next run waits for position 0 again: a message numbered
   * after the last one consumed, delivered to the new run, is not processed.
   */
  lemma ContinueAsNewRestartsNumbering(q: Queue, suggested: bool, later: Payload)
    requires q.head >= 0
    requires RunStep(q, suggested).ContinuedAsNew?
    ensures RunStep(ProcessMessage(NewQueue(), q.head + 1, later).post, suggested) == Waiting
  {
  }
}

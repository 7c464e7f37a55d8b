/** The work queue: a FIFO of `queue_list` nodes, separate from the job
    slab, each node designating one job slot. The doubly linked list
    `qlist` (head) .. `qlist_tail` is modelled as the sequence of its
    nodes, head first. */
module WorkQueue {
  import opened Base

  /** errno left by a failed `calloc`. */
  const ENOMEM: Errno := 12

  /** `struct queue_list`: the job slot it carries (`djob`). */
  datatype QNode = QNode(djob: nat)

  /** The queue, head (`qlist`) first, tail (`qlist_tail`) last. */
  datatype Queue = Queue(nodes: seq<QNode>)

  const EmptyQueue := Queue([])

  /** `qlist`: the head node, null when the queue is empty. */
  function Head(q: Queue): Option<QNode> {
    if q.nodes == [] then None else Some(q.nodes[0])
  }

  /** `qlist_tail`: the tail node, null when the queue is empty. */
  function Tail(q: Queue): Option<QNode> {
    if q.nodes == [] then None else Some(q.nodes[|q.nodes| - 1])
  }

  /** The job slots on the queue, head first. */
  function Slots(q: Queue): (r: seq<nat>)
    ensures |r| == |q.nodes|
    ensures forall i :: 0 <= i < |r| ==> r[i] == q.nodes[i].djob
  {
    seq(|q.nodes|, i requires 0 <= i < |q.nodes| => q.nodes[i].djob)
  }

  /** `ql_add`: appends a node for the job at the tail and returns 0; when
      the node cannot be allocated (`nodeAllocFails`) the queue is left
      alone and the errno of the failed allocation is returned. */
  function QlAdd(q: Queue, slot: nat, nodeAllocFails: bool): (r: (Queue, int))
    ensures nodeAllocFails ==> r.0 == q && r.1 == ENOMEM
    ensures !nodeAllocFails ==> r.1 == 0 && Slots(r.0) == Slots(q) + [slot]
    ensures !nodeAllocFails ==> Tail(r.0) == Some(QNode(slot))
    ensures !nodeAllocFails && q.nodes == [] ==> Head(r.0) == Some(QNode(slot))
    ensures !nodeAllocFails && q.nodes != [] ==> Head(r.0) == Head(q)
  {
    if nodeAllocFails then (q, ENOMEM as int)
    else
      var r := Queue(q.nodes + [QNode(slot)]);
      assert Slots(r) == Slots(q) + [slot];
      (r, 0)
  }

  /** `ql_get_top`: unlinks and returns the head node, or null on an empty
      queue. Taking the last node leaves both head and tail null. */
  function QlGetTop(q: Queue): (r: (Queue, Option<QNode>))
    ensures r.1 == Head(q)
    ensures q.nodes == [] ==> r.0 == q
    ensures q.nodes != [] ==> Slots(r.0) == Slots(q)[1..]
    ensures |q.nodes| == 1 ==> Head(r.0) == None && Tail(r.0) == None
    ensures |q.nodes| > 1 ==> Tail(r.0) == Tail(q)
  {
    if q.nodes == [] then (q, None)
    else
      var r := Queue(q.nodes[1..]);
      assert Slots(r) == Slots(q)[1..];
      (r, Some(q.nodes[0]))
  }

  /** `dequeue`: the job of the head node (which is released), or null on
      an empty queue. */
  function Dequeue(q: Queue): (r: (Queue, Option<nat>))
    ensures q.nodes == [] <==> r.1 == None
    ensures q.nodes == [] ==> r.0 == q
    ensures q.nodes != [] ==> r.1 == Some(Slots(q)[0]) && Slots(r.0) == Slots(q)[1..]
  {
    var (q', top) := QlGetTop(q);
    match top
    case None => (q', None)
    case Some(node) => (q', Some(node.djob))
  }

  /** `size_of_qlist`: walks the list from the head counting nodes. */
  method SizeOfQlist(q: Queue) returns (qsize: int)
    ensures qsize == |Slots(q)|
    ensures qsize == 0 <==> Head(q) == None
  {
    qsize := 0;
    var item := q.nodes;
    while item != []
      invariant 0 <= qsize <= |q.nodes| && item == q.nodes[qsize..]
      decreases |item|
    {
      qsize := qsize + 1;
      item := item[1..];
    }
  }

  /** Everything `dequeue` returns when called until the queue is empty. */
  function DrainAll(q: Queue): seq<nat>
    decreases |q.nodes|
  {
    var (q', top) := Dequeue(q);
    match top
    case None => []
    case Some(j) => [j] + DrainAll(q')
  }

  /** Appends the given slots one `ql_add` at a time. */
  function AddAll(q: Queue, slots: seq<nat>): Queue
    decreases |slots|
  {
    if slots == [] then q else AddAll(QlAdd(q, slots[0], false).0, slots[1..])
  }

  lemma {:induction false} DrainIsSlots(q: Queue)
    ensures DrainAll(q) == Slots(q)
    decreases |q.nodes|
  {
    if q.nodes != [] {
      DrainIsSlots(Dequeue(q).0);
    }
  }

  lemma {:induction false} AddAllSlots(q: Queue, slots: seq<nat>)
    ensures Slots(AddAll(q, slots)) == Slots(q) + slots
    decreases |slots|
  {
    if slots != [] {
      var q1 := QlAdd(q, slots[0], false).0;
      AddAllSlots(q1, slots[1..]);
      assert slots == [slots[0]] + slots[1..];
    }
  }

  /** The queue is first in, first out: jobs added one by one behind the
      ones already queued come out after them, in the order added. */
  lemma FifoOrder(q: Queue, slots: seq<nat>)
    ensures DrainAll(AddAll(q, slots)) == Slots(q) + slots
  {
    DrainIsSlots(AddAll(q, slots));
    AddAllSlots(q, slots);
  }
}

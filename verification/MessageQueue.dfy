/** Message queues: the ring buffer of one service, which doubles when it is full, and the
    intrusive list of queues that wait for a worker. */
module MessageQueue {
  import opened Common

  const DEFAULT_QUEUE_SIZE := 64
  const MQ_OVERLOAD := 1024

  datatype Message = Message(source: nat, session: int, data: nat)

  //////////////////////////////////////////////////////////////////////////////
  // Rings
  //////////////////////////////////////////////////////////////////////////////

  /** The elements from `head` up to `tail`, wrapping at the end of the buffer. */
  function Ring<T>(buffer: seq<T>, head: nat, tail: nat): seq<T>
    requires head < |buffer| && tail < |buffer|
  {
    if head <= tail then buffer[head..tail] else buffer[head..] + buffer[..tail]
  }

  /** All elements of a full buffer, from `head` on. */
  function Rotated<T>(buffer: seq<T>, head: nat): seq<T>
    requires head < |buffer|
  {
    buffer[head..] + buffer[..head]
  }

  function Succ(i: nat, cap: nat): nat {
    if i + 1 >= cap then 0 else i + 1
  }

  lemma RingPush<T>(buffer: seq<T>, head: nat, tail: nat, x: T)
    requires head < |buffer| && tail < |buffer|
    ensures var buffer', tail' := buffer[tail := x], Succ(tail, |buffer|);
      (if head == tail' then Rotated(buffer', head) else Ring(buffer', head, tail')) == Ring(buffer, head, tail) + [x]
  {
  }

  lemma RingLength<T>(buffer: seq<T>, head: nat, tail: nat)
    requires head < |buffer| && tail < |buffer|
    ensures |Ring(buffer, head, tail)| == if head <= tail then tail - head else tail + |buffer| - head
  {
  }

  lemma RingEmpty<T>(buffer: seq<T>, head: nat, tail: nat)
    requires head < |buffer| && tail < |buffer|
    ensures Ring(buffer, head, tail) == [] <==> head == tail
  {
    RingLength(buffer, head, tail);
  }

  lemma RingPop<T>(buffer: seq<T>, head: nat, tail: nat)
    requires head < |buffer| && tail < |buffer| && head != tail
    ensures Ring(buffer, head, tail) == [buffer[head]] + Ring(buffer, Succ(head, |buffer|), tail)
  {
  }

  lemma ModOnce(a: nat, n: nat)
    requires a < 2 * n
    ensures a % n == if a < n then a else a - n
  {
  }

  lemma RotatedAt<T>(buffer: seq<T>, head: nat, i: nat)
    requires head < |buffer| && i < |buffer|
    ensures Rotated(buffer, head)[i] == buffer[(head + i) % |buffer|]
  {
    ModOnce(head + i, |buffer|);
  }

  /** The threshold doubled as often as it takes to cover `length`. */
  function Raised(threshold: nat, length: nat): nat
    requires threshold > 0
    decreases length - threshold
  {
    if length <= threshold then threshold else Raised(2 * threshold, length)
  }

  class MessageQueue {
    const handle: nat
    var cap: nat
    var head: nat
    var tail: nat
    var release: bool
    var inGlobal: bool
    var overload: nat
    var overloadThreshold: nat
    var queue: array<Message>
    var next: MessageQueue?

    ghost predicate Valid()
      reads `cap, `head, `tail, `queue, `overloadThreshold
    {
      && cap == queue.Length
      && head < cap && tail < cap
      && overloadThreshold > 0
    }

    ghost function Contents(): seq<Message>
      requires Valid()
      reads this, queue
    {
      Ring(queue[..], head, tail)
    }

    /** How many messages there are. */
    ghost function Waiting(): nat
      requires Valid()
      reads `cap, `head, `tail, `queue, `overloadThreshold
    {
      if head <= tail then tail - head else tail + cap - head
    }

    lemma WaitingRight()
      requires Valid()
      ensures Waiting() == |Contents()|
    {
      RingLength(queue[..], head, tail);
    }

    constructor (handle: nat)
      ensures Valid() && fresh(queue) && Contents() == [] && this.handle == handle
      ensures inGlobal && !release && next == null
      ensures overload == 0 && overloadThreshold == MQ_OVERLOAD
    {
      this.handle := handle;
      cap := DEFAULT_QUEUE_SIZE;
      head := 0;
      tail := 0;
      inGlobal := true;
      release := false;
      overload := 0;
      overloadThreshold := MQ_OVERLOAD;
      queue := new Message[DEFAULT_QUEUE_SIZE](_ => Message(0, 0, 0));
      next := null;
    }

    method Length() returns (n: nat)
      requires Valid()
      ensures n == |Contents()|
    {
      if head <= tail {
        return tail - head;
      }
      n := tail + cap - head;
    }

    /** The overload part of `skynet_mq_pop`. */
    method NoteLength(length: nat)
      requires overloadThreshold > 0
      modifies this`overload, this`overloadThreshold
      ensures overloadThreshold == Raised(old(overloadThreshold), length) && overloadThreshold > 0 && length <= overloadThreshold
      ensures length <= old(overloadThreshold) ==> overload == old(overload)
      ensures length > old(overloadThreshold) ==> overload == length && overloadThreshold < 2 * length
    {
      while length > overloadThreshold
        invariant overloadThreshold > 0 && Raised(overloadThreshold, length) == Raised(old(overloadThreshold), length)
        invariant if overloadThreshold == old(overloadThreshold) then overload == old(overload)
                  else overload == length && old(overloadThreshold) < length && overloadThreshold < 2 * length
        modifies this`overload, this`overloadThreshold
        decreases length - overloadThreshold
      {
        overload := length;
        overloadThreshold := 2 * overloadThreshold;
      }
    }

    /** Takes out the oldest message. An empty queue is left to be scheduled again. */
    method Pop() returns (r: Option<Message>)
      requires Valid()
      modifies this
      ensures Valid() && queue == old(queue) && next == old(next) && release == old(release)
      ensures r.None? <==> old(Contents()) == []
      ensures r.None? ==> Contents() == [] && !inGlobal && overloadThreshold == MQ_OVERLOAD && overload == old(overload)
      ensures r.Some? ==> old(Contents()) == [r.value] + Contents() && inGlobal == old(inGlobal)
      // a queue longer than the threshold is reported and the threshold doubled until it covers its length
      ensures r.Some? ==> |Contents()| <= overloadThreshold && overloadThreshold == Raised(old(overloadThreshold), |Contents()|)
      ensures r.Some? && |Contents()| <= old(overloadThreshold) ==> overload == old(overload)
      ensures r.Some? && |Contents()| > old(overloadThreshold) ==> overload == |Contents()| && overloadThreshold < 2 * |Contents()|
    {
      hide Raised, Ring;
      RingEmpty(queue[..], head, tail);
      if head != tail {
        RingPop(queue[..], head, tail);
        RingLength(queue[..], Succ(head, cap), tail);
        r := Some(queue[head]);
        head := head + 1;
        if head >= cap {
          head := 0;
        }
        var length := tail as int - head as int;
        if length < 0 {
          length := length + cap;
        }
        NoteLength(length);
      } else {
        overloadThreshold := MQ_OVERLOAD;
        r := None;
        inGlobal := false;
      }
    }

    /** Moves the messages of a full ring to a buffer of twice the size, oldest first. */
    method ExpandQueue()
      requires cap == queue.Length && head == tail < cap && overloadThreshold > 0
      modifies this`cap, this`head, this`tail, this`queue
      ensures Valid() && fresh(queue) && cap == 2 * old(cap)
      ensures Contents() == old(Rotated(queue[..], head))
    {
      ghost var all := Rotated(queue[..], head);
      var newQueue := new Message[cap * 2](_ => Message(0, 0, 0));
      for i := 0 to cap
        invariant newQueue[..i] == all[..i]
        modifies newQueue
      {
        RotatedAt(queue[..], head, i);
        newQueue[i] := queue[(head + i) % cap];
      }
      head := 0;
      tail := cap;
      cap := cap * 2;
      queue := newQueue;
    }

    /** Appends a message; a full ring grows. */
    method PushMessage(message: Message)
      requires Valid()
      modifies this`cap, this`head, this`tail, this`queue, queue
      ensures Valid() && (queue == old(queue) || fresh(queue))
      ensures Contents() == old(Contents()) + [message]
      ensures cap == if old(|Contents()| + 1 == cap) then 2 * old(cap) else old(cap)
    {
      RingPush(queue[..], head, tail, message);
      queue[tail] := message;
      tail := tail + 1;
      if tail >= cap {
        tail := 0;
      }
      if head == tail {
        ExpandQueue();
      }
    }

    /** `skynet_mq_push`: appends a message and schedules the queue if nobody does yet. */
    method Push(message: Message, global: GlobalQueue)
      requires Valid() && global.Valid() && global.AllScheduled()
      requires !inGlobal ==> next == null && (release ==> this !in global.contents)
      modifies this`cap, this`head, this`tail, this`queue, this`inGlobal, queue, global, global.contents`next
      ensures Valid() && global.Valid() && global.AllScheduled() && inGlobal && (queue == old(queue) || fresh(queue))
      ensures Contents() == old(Contents()) + [message]
      ensures global.contents == old(global.contents) + if old(inGlobal) then [] else [this]
    {
      PushMessage(message);
      if !inGlobal {
        inGlobal := true;
        global.Push(this);
      }
    }

    /** `skynet_mq_mark_release`: marks the queue and makes sure that a worker will find it. */
    method MarkRelease(global: GlobalQueue)
      requires Valid() && global.Valid() && global.AllScheduled() && !release
      requires !inGlobal ==> next == null
      modifies this`release, global, global.contents`next
      ensures Valid() && global.Valid() && global.AllScheduled() && release
      ensures Contents() == old(Contents())
      ensures global.contents == old(global.contents) + if inGlobal then [] else [this]
    {
      release := true;
      if !inGlobal {
        global.Push(this);
      }
    }

    /** `_drop_queue`: hands every message to the drop function, oldest first. */
    method DropQueue() returns (dropped: seq<Message>)
      requires Valid()
      modifies this
      ensures Valid() && Contents() == [] && dropped == old(Contents())
      ensures release == old(release) && next == old(next) && !inGlobal
    {
      hide Ring, Raised;
      dropped := [];
      while true
        invariant Valid() && release == old(release) && next == old(next)
        invariant old(Contents()) == dropped + Contents()
        decreases |Contents()|
      {
        var r := Pop();
        if r.None? {
          return;
        }
        dropped := dropped + [r.value];
      }
    }

    /** `skynet_mq_release`: drains a queue that is marked for release; a queue that is not
        marked yet goes back to the global list. */
    method Release(global: GlobalQueue) returns (dropped: seq<Message>)
      requires Valid() && global.Valid() && global.AllScheduled()
      requires next == null && this !in global.contents && (inGlobal || release)
      modifies this, global, global.contents`next
      ensures Valid() && global.Valid() && global.AllScheduled() && release == old(release) && next == null
      ensures release ==> dropped == old(Contents()) && Contents() == [] && !inGlobal && global.contents == old(global.contents)
      ensures !release ==> dropped == [] && unchanged(this) && inGlobal && global.contents == old(global.contents) + [this]
    {
      if release {
        dropped := DropQueue();
      } else {
        dropped := [];
        global.Push(this);
      }
    }
  }

  /** The global list of queues, linked through the queues themselves. */
  class GlobalQueue {
    var head: MessageQueue?
    var tail: MessageQueue?
    ghost var contents: seq<MessageQueue>

    ghost predicate Valid()
      reads this, contents
    {
      && (contents == [] ==> head == null && tail == null)
      && (contents != [] ==> head == contents[0] && tail == contents[|contents| - 1] && tail.next == null)
      && (forall i | 0 <= i < |contents| - 1 :: contents[i].next == contents[i + 1])
      && (forall i, j | 0 <= i < j < |contents| :: contents[i] != contents[j])
    }

    /** Every listed queue is flagged as scheduled or marked for release. */
    ghost predicate AllScheduled()
      reads this, contents
    {
      forall q | q in contents :: q.inGlobal || q.release
    }

    constructor ()
      ensures Valid() && contents == []
    {
      head, tail, contents := null, null, [];
    }

    method Push(queue: MessageQueue)
      requires Valid() && AllScheduled() && queue.next == null && queue !in contents && (queue.inGlobal || queue.release)
      modifies this, contents`next
      ensures Valid() && AllScheduled() && contents == old(contents) + [queue]
    {
      if tail != null {
        tail.next := queue;
        tail := queue;
      } else {
        head, tail := queue, queue;
      }
      contents := contents + [queue];
    }

    method Pop() returns (mq: MessageQueue?)
      requires Valid() && AllScheduled()
      modifies this, contents`next
      ensures Valid() && AllScheduled()
      ensures old(contents) == [] ==> mq == null && contents == []
      ensures old(contents) != [] ==> mq == old(contents)[0] && contents == old(contents)[1..]
      ensures mq != null ==> mq.next == null && mq !in contents && (mq.inGlobal || mq.release)
    {
      mq := head;
      if mq != null {
        assert |contents| > 1 ==> mq.next == contents[1];
        head := mq.next;
        if head == null {
          assert mq == tail;
          tail := null;
        }
        mq.next := null;
        contents := contents[1..];
      }
    }
  }

  //////////////////////////////////////////////////////////////////////////////
  // Any sequence of operations on the queues
  //////////////////////////////////////////////////////////////////////////////

  /** What senders, workers and the deletion of services do to the queues. */
  datatype Event =
    | Send(q: MessageQueue, m: Message) // a sender pushes to a service that lives
    | Retire(q: MessageQueue)           // the service is deleted
    | Take                              // a worker takes a queue from the global list
    | Dispatch(q: MessageQueue)         // the worker that has the queue and its service pops a message
    | PutBack(q: MessageQueue)          // it puts the queue back
    | Abandon(q: MessageQueue)          // it has found no service for the queue

  /** A queue as the events see it. */
  datatype Entry = Entry(waiting: nat, inGlobal: bool, release: bool)

  /** The queues there are, the global list, and the queues in the hands of workers. */
  datatype Snapshot = Snapshot(queues: map<MessageQueue, Entry>, list: seq<MessageQueue>, held: set<MessageQueue>)

  /** What an event does; one that cannot happen does nothing. */
  ghost function After(s: Snapshot, e: Event): Snapshot {
    match e
    case Send(q, _) =>
      if q !in s.queues || s.queues[q].release then s
      else s.(queues := s.queues[q := s.queues[q].(waiting := s.queues[q].waiting + 1, inGlobal := true)], list := Listing(s, q))
    case Retire(q) =>
      if q !in s.queues || s.queues[q].release then s
      else s.(queues := s.queues[q := s.queues[q].(release := true)], list := Listing(s, q))
    case Take => if s.list == [] then s else s.(list := s.list[1..], held := s.held + {s.list[0]})
    case Dispatch(q) =>
      if q !in s.held || q !in s.queues || s.queues[q].release then s
      else if s.queues[q].waiting == 0 then s.(queues := s.queues[q := s.queues[q].(inGlobal := false)], held := s.held - {q})
      else s.(queues := s.queues[q := s.queues[q].(waiting := s.queues[q].waiting - 1)])
    case PutBack(q) => if q !in s.held then s else s.(list := s.list + [q], held := s.held - {q})
    case Abandon(q) =>
      if q !in s.held || q !in s.queues then s
      else if s.queues[q].release then s.(queues := s.queues - {q}, held := s.held - {q})
      else s.(list := s.list + [q], held := s.held - {q})
  }

  /** The list after queue `q` was scheduled, unless somebody has it. */
  ghost function Listing(s: Snapshot, q: MessageQueue): seq<MessageQueue>
    requires q in s.queues
  {
    if s.queues[q].inGlobal then s.list else s.list + [q]
  }

  /** A queue is in the hands of a worker or in the list, not both, in the list only once, and in one
      of them exactly when it is flagged as scheduled or marked for release. */
  ghost predicate Scheduled(s: Snapshot) {
    && (forall q | q in s.list :: q in s.queues)
    && (forall q | q in s.held :: q in s.queues && q !in s.list)
    && (forall i, j | 0 <= i < j < |s.list| :: s.list[i] != s.list[j])
    && (forall q | q in s.queues :: s.queues[q].inGlobal || s.queues[q].release <==> q in s.held || q in s.list)
  }

  /** Every event keeps that discipline. */
  lemma AfterScheduled(s: Snapshot, e: Event)
    requires Scheduled(s)
    ensures Scheduled(After(s, e))
  {
    match e
    case Send(_, _) =>
    case Retire(_) =>
    case Take =>
      if s.list != [] {
        assert s.list == [s.list[0]] + s.list[1..];
      }
    case Dispatch(_) =>
    case PutBack(_) =>
    case Abandon(_) =>
  }

  ghost function EntryOf(q: MessageQueue): Entry
    requires q.Valid()
    reads q`cap, q`head, q`tail, q`queue, q`overloadThreshold, q`inGlobal, q`release
  {
    Entry(q.Waiting(), q.inGlobal, q.release)
  }

  /** The queues in `queues`, the list and the hands of the workers are as `s` says. */
  ghost predicate Shows(global: GlobalQueue, queues: set<MessageQueue>, held: set<MessageQueue>, s: Snapshot)
    reads global, global.contents, queues
  {
    && global.Valid() && global.contents == s.list && held == s.held && Scheduled(s)
    && EntriesRight(queues, s.queues) && LinksRight(queues, s.list)
  }

  ghost predicate EntriesRight(queues: set<MessageQueue>, entries: map<MessageQueue, Entry>)
    reads queues
  {
    entries.Keys == queues && forall q | q in queues :: q.Valid() && EntryOf(q) == entries[q]
  }

  ghost predicate LinksRight(queues: set<MessageQueue>, list: seq<MessageQueue>)
    reads queues
  {
    forall q | q in queues && q !in list :: q.next == null
  }

  lemma Facts(global: GlobalQueue, queues: set<MessageQueue>, held: set<MessageQueue>, s: Snapshot)
    requires Shows(global, queues, held, s)
    ensures global.AllScheduled() && forall q | q in global.contents :: q in queues
    ensures forall q | q in held :: q in queues && q !in global.contents && (q.inGlobal || q.release)
    ensures forall q | q in queues && !q.inGlobal && !q.release :: q !in global.contents && q !in held
  {
    forall q | q in queues
      ensures q.inGlobal == s.queues[q].inGlobal && q.release == s.queues[q].release
    {
      assert EntryOf(q) == s.queues[q];
    }
  }

  lemma EntryIs(q: MessageQueue)
    requires q.Valid()
    ensures EntryOf(q) == Entry(|q.Contents()|, q.inGlobal, q.release)
  {
    q.WaitingRight();
  }

  lemma Scheduling(s: Snapshot, q: MessageQueue, e: Event)
    requires (e.Send? || e.Retire?) && e.q == q && q in s.queues && !s.queues[q].release
    ensures var entry := if e.Send? then s.queues[q].(waiting := s.queues[q].waiting + 1, inGlobal := true) else s.queues[q].(release := true);
      After(s, e) == Snapshot(s.queues[q := entry], if s.queues[q].inGlobal then s.list else s.list + [q], s.held)
  {
  }

  method ApplySend(global: GlobalQueue, queues0: set<MessageQueue>, held0: set<MessageQueue>, ghost s: Snapshot, q: MessageQueue, m: Message)
    requires Shows(global, queues0, held0, s) && q in queues0 && !q.release
    modifies global, queues0, set q | q in queues0 :: q.queue
    ensures Shows(global, queues0, held0, After(s, Send(q, m)))
    ensures forall q | q in queues0 :: q.queue == old(q.queue) || fresh(q.queue)
  {
    hide Ring, Raised, Scheduled, GlobalQueue.Valid, GlobalQueue.AllScheduled, After, MessageQueue.Valid, MessageQueue.Waiting, EntryOf, MessageQueue.Contents;
    Facts(global, queues0, held0, s);
    AfterScheduled(s, Send(q, m));
    EntryIs(q);
    Scheduling(s, q, Send(q, m));
    ghost var s' := After(s, Send(q, m));
    q.Push(m, global);
    EntryIs(q);
    forall p | p in queues0
      ensures p.Valid() && EntryOf(p) == s'.queues[p]
    {
      if p != q {
        assert EntryOf(p) == old(EntryOf(p));
      }
    }
    forall p | p in queues0 && p !in s'.list
      ensures p.next == null
    {
      assert p !in s.list;
    }
    assert LinksRight(queues0, s'.list);
    assert EntriesRight(queues0, s'.queues);
  }

  method ApplyRetire(global: GlobalQueue, queues0: set<MessageQueue>, held0: set<MessageQueue>, ghost s: Snapshot, q: MessageQueue)
    requires Shows(global, queues0, held0, s) && q in queues0 && !q.release
    modifies global, queues0
    ensures Shows(global, queues0, held0, After(s, Retire(q)))
    ensures forall q | q in queues0 :: q.queue == old(q.queue) || fresh(q.queue)
  {
    hide Ring, Raised, Scheduled, GlobalQueue.Valid, GlobalQueue.AllScheduled, After, MessageQueue.Valid, MessageQueue.Waiting, EntryOf, MessageQueue.Contents;
    Facts(global, queues0, held0, s);
    AfterScheduled(s, Retire(q));
    EntryIs(q);
    Scheduling(s, q, Retire(q));
    ghost var s' := After(s, Retire(q));
    q.MarkRelease(global);
    EntryIs(q);
    forall p | p in queues0
      ensures p.Valid() && EntryOf(p) == s'.queues[p]
    {
      if p != q {
        assert EntryOf(p) == old(EntryOf(p));
      }
    }
    forall p | p in queues0 && p !in s'.list
      ensures p.next == null
    {
      assert p !in s.list;
    }
    assert LinksRight(queues0, s'.list);
    assert EntriesRight(queues0, s'.queues);
  }

  method ApplyTake(global: GlobalQueue, queues0: set<MessageQueue>, held0: set<MessageQueue>, ghost s: Snapshot) returns (held: set<MessageQueue>)
    requires Shows(global, queues0, held0, s)
    modifies global, queues0
    ensures Shows(global, queues0, held, After(s, Take))
    ensures forall q | q in queues0 :: q.queue == old(q.queue) || fresh(q.queue)
  {
    hide Ring, Raised, Scheduled, GlobalQueue.Valid, GlobalQueue.AllScheduled;
    Facts(global, queues0, held0, s);
    AfterScheduled(s, Take);
    ghost var s' := After(s, Take);
    held := held0;
    var mq := global.Pop();
    if mq != null {
      held := held + {mq};
    }
    forall p | p in queues0
      ensures p.Valid() && EntryOf(p) == s'.queues[p]
    {
      if p != mq {
        assert EntryOf(p) == old(EntryOf(p));
      }
    }
    if mq != null {
      }
    assert EntriesRight(queues0, s'.queues) && LinksRight(queues0, s'.list);
  }

  method ApplyDispatch(global: GlobalQueue, queues0: set<MessageQueue>, held0: set<MessageQueue>, ghost s: Snapshot, q: MessageQueue) returns (held: set<MessageQueue>)
    requires Shows(global, queues0, held0, s) && q in held0 && !q.release
    modifies queues0
    ensures Shows(global, queues0, held, After(s, Dispatch(q)))
    ensures forall q | q in queues0 :: q.queue == old(q.queue) || fresh(q.queue)
  {
    hide Ring, Raised, Scheduled, GlobalQueue.Valid, GlobalQueue.AllScheduled;
    Facts(global, queues0, held0, s);
    AfterScheduled(s, Dispatch(q));
    ghost var s' := After(s, Dispatch(q));
    held := held0;
    q.WaitingRight();
    var r := q.Pop();
    q.WaitingRight();
    if r.None? {
      held := held - {q};
    }
    forall p | p in queues0
      ensures p.Valid() && EntryOf(p) == s'.queues[p]
    {
      if p != q {
        assert EntryOf(p) == old(EntryOf(p));
      }
    }
    assert EntriesRight(queues0, s'.queues) && LinksRight(queues0, s'.list);
  }

  method ApplyPutBack(global: GlobalQueue, queues0: set<MessageQueue>, held0: set<MessageQueue>, ghost s: Snapshot, q: MessageQueue) returns (held: set<MessageQueue>)
    requires Shows(global, queues0, held0, s) && q in held0
    modifies global, queues0
    ensures Shows(global, queues0, held, After(s, PutBack(q)))
    ensures forall q | q in queues0 :: q.queue == old(q.queue) || fresh(q.queue)
  {
    hide Ring, Raised, Scheduled, GlobalQueue.Valid, GlobalQueue.AllScheduled;
    Facts(global, queues0, held0, s);
    AfterScheduled(s, PutBack(q));
    ghost var s' := After(s, PutBack(q));
    global.Push(q);
    held := held0 - {q};
    forall p | p in queues0
      ensures p.Valid() && EntryOf(p) == s'.queues[p]
    {
      if p != q {
        assert EntryOf(p) == old(EntryOf(p));
      }
    }
    assert EntriesRight(queues0, s'.queues) && LinksRight(queues0, s'.list);
  }

  method ApplyAbandon(global: GlobalQueue, queues0: set<MessageQueue>, held0: set<MessageQueue>, ghost s: Snapshot, q: MessageQueue) returns (queues: set<MessageQueue>, held: set<MessageQueue>)
    requires Shows(global, queues0, held0, s) && q in held0
    modifies global, queues0
    ensures queues <= queues0 && Shows(global, queues, held, After(s, Abandon(q)))
    ensures forall q | q in queues :: q.queue == old(q.queue) || fresh(q.queue)
  {
    hide Ring, Raised, Scheduled, GlobalQueue.Valid, GlobalQueue.AllScheduled;
    Facts(global, queues0, held0, s);
    AfterScheduled(s, Abandon(q));
    ghost var s' := After(s, Abandon(q));
    var dropped := q.Release(global);
    queues, held := queues0, held0 - {q};
    if q.release {
      queues := queues - {q};
    }
    forall p | p in queues
      ensures p.Valid() && EntryOf(p) == s'.queues[p]
    {
      if p != q {
        assert EntryOf(p) == old(EntryOf(p));
      }
    }
    assert EntriesRight(queues, s'.queues) && LinksRight(queues, s'.list);
  }

  /** One event on the queues themselves. A queue that is released leaves `queues`. */
  method Apply(global: GlobalQueue, queues0: set<MessageQueue>, held0: set<MessageQueue>, ghost s: Snapshot, e: Event)
    returns (queues: set<MessageQueue>, held: set<MessageQueue>)
    requires Shows(global, queues0, held0, s)
    modifies global, queues0, set q | q in queues0 :: q.queue
    ensures queues <= queues0 && Shows(global, queues, held, After(s, e))
    ensures forall q | q in queues :: q.queue == old(q.queue) || fresh(q.queue)
  {
    hide Scheduled;
    queues, held := queues0, held0;
    match e {
      case Send(q, m) =>
        if q in queues && !q.release {
          ApplySend(global, queues, held, s, q, m);
        }
      case Retire(q) =>
        if q in queues && !q.release {
          ApplyRetire(global, queues, held, s, q);
        }
      case Take => held := ApplyTake(global, queues, held, s);
      case Dispatch(q) =>
        if q in held && !q.release {
          held := ApplyDispatch(global, queues, held, s, q);
        }
      case PutBack(q) =>
        if q in held {
          held := ApplyPutBack(global, queues, held, s, q);
        }
      case Abandon(q) =>
        if q in held {
          queues, held := ApplyAbandon(global, queues, held, s, q);
        }
    }
  }

  /** Any sequence of events: each does what `After` says, and in no state is a queue listed twice or
      listed while a worker has it. */
  method ApplyAll(global: GlobalQueue, queues0: set<MessageQueue>, held0: set<MessageQueue>, ghost s: Snapshot, events: seq<Event>)
    returns (queues: set<MessageQueue>, held: set<MessageQueue>, ghost trace: seq<Snapshot>)
    requires Shows(global, queues0, held0, s)
    modifies global, queues0, set q | q in queues0 :: q.queue
    ensures |trace| == |events| + 1 && trace[0] == s && Shows(global, queues, held, trace[|events|])
    ensures forall i | 0 <= i < |events| :: trace[i + 1] == After(trace[i], events[i])
    ensures forall i | 0 <= i <= |events| :: Scheduled(trace[i])
  {
    hide Scheduled, After;
    queues, held, trace := queues0, held0, [s];
    for k := 0 to |events|
      invariant queues <= queues0 && |trace| == k + 1 && trace[0] == s && Shows(global, queues, held, trace[k])
      invariant forall i | 0 <= i < k :: trace[i + 1] == After(trace[i], events[i])
      invariant forall i | 0 <= i <= k :: Scheduled(trace[i])
      invariant forall q | q in queues :: q.queue == old(q.queue) || fresh(q.queue)
    {
      queues, held := Apply(global, queues, held, trace[k], events[k]);
      trace := trace + [After(trace[k], events[k])];
    }
  }
}

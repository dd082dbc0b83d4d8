/** The scheduling protocol of services: creation, message delivery, dispatch by worker
    threads, retirement and deletion, as interleaved atomic steps of any number of
    activities. Every locked region and every atomic operation is one step. */
module Scheduler {
  import opened Common

  type Handle = nat
  type Tid = nat
  /** A service context together with the message queue created for it. */
  type Id = nat

  datatype Message = Message(source: Handle, session: int, data: nat)

  datatype Queue = Queue(handle: Handle, messages: seq<Message>, inGlobal: bool, release: bool)

  /** `linked` says whether the context knows its queue yet. */
  datatype Context = Context(handle: Handle, ref: int, init: bool, linked: bool)

  //////////////////////////////////////////////////////////////////////////////
  // Activities: where a thread stands in the code, with its local variables
  //////////////////////////////////////////////////////////////////////////////

  /** Why a handle is looked up: to dispatch a queue, to deliver a message, or to look at the service only. */
  datatype Purpose = Dispatch(q: Id) | Deliver(handle: Handle, m: Message) | Inspect(handle: Handle)

  /** What follows the release of a reference. */
  datatype After =
    | Finish                          // a sender or a retirer is done
    | NextQueue                       // a worker takes the next queue of the global list
    | Resume(q: Id)                   // a worker goes on with this queue
    | Launch(q: Id)                   // a creator whose service came up
    | Unlaunch(q: Id, handle: Handle) // a creator whose service failed: the handle is retired next
    | GiveUp(q: Id)                   // such a creator after the retirement: the queue is given up next

  datatype Activity =
    // a worker thread
    | Idle                                      // about to take a queue from the global list
    | Popping(q: Id, c: Id)                     // about to pop a message
    | Running(q: Id, c: Id, m: Message)         // inside the callback of the service
    | Swapping(q: Id, c: Id)                    // about to look for another queue
    | Returning(q: Id, nq: Id, c: Id)           // has found nq, about to put q back
    | Abandoning(q: Id, worker: bool)           // about to release a queue without service
    | Dropping(q: Id, worker: bool)             // draining a queue marked for release
    // grabbing a context
    | Asking(p: Purpose)                        // about to take the read lock
    | Reading(p: Purpose)                       // under the read lock
    | Found(c: Id, p: Purpose)                  // under the read lock, about to count the reference
    | Leaving(r: Option<Id>, p: Purpose)        // under the read lock, about to leave it
    // delivering a message
    | Pushing(c: Id, m: Message)
    // releasing a reference
    | Releasing(c: Id, after: After)
    | Deleting(c: Id, after: After)             // the last reference is gone
    // creating a service
    | Linking(c: Id, handle: Handle)            // registered, about to store the queue in the context
    | Initing(c: Id, handle: Handle)            // inside the init function of the module
    | Launching(q: Id)                          // about to set the init flag
    | Handing(q: Id)                            // about to put the queue into the global list
    // retiring a handle
    | Retiring(handle: Handle, after: After)    // about to take the write lock
    | Writing(handle: Handle, after: After)     // under the write lock
    | Removed(c: Id, after: After)              // under the write lock, slot cleared
    | Absent(after: After)                      // under the write lock, handle not found

  /** An operation on the shared state. */
  datatype Op =
    | Local
    | EnterRead | LeaveRead | EnterWrite | LeaveWrite
    | Lookup(h: Handle, r: Option<Id>)
    | Grab(c: Id)
    | Release(c: Id)
    | ReleaseLast(c: Id)
    | Create(c: Id, h: Handle)
    | Unregister(h: Handle, c: Id)
    | Link(c: Id)
    | MarkInit(c: Id)
    | PopGlobal(q: Id)
    | PopGlobalEmpty
    | PushGlobal(q: Id)
    | PushBack(q: Id)                           // mq_release of a queue that is not marked
    | MarkedForRelease(q: Id)                   // mq_release of a queue that is
    | MqPush(q: Id, m: Message)
    | MqPop(q: Id, m: Message)
    | MqPopEmpty(q: Id)
    | Handled(q: Id, m: Message)                // the callback has returned
    | MarkRelease(c: Id)
    | Drop(q: Id, m: Message)
    | Free(q: Id)

  /** The activity that follows a release which was not the last, or a deletion. */
  function Continue(after: After, deleted: bool): Option<Activity> {
    match after
    case Finish => None
    case NextQueue => Some(Idle)
    case Resume(q) => Some(Asking(Dispatch(q)))
    case Launch(q) => Some(if deleted then Handing(q) else Launching(q))
    case Unlaunch(q, h) => Some(Retiring(h, GiveUp(q)))
    case GiveUp(q) => Some(Abandoning(q, false))
  }

  function AfterAbandon(worker: bool): Option<Activity> {
    if worker then Some(Idle) else None
  }

  /** The control flow: from activity `a`, operation `op` leads to activity `a'`.
      A missing activity has not started yet or is over. */
  predicate Flow(a: Option<Activity>, op: Op, a': Option<Activity>) {
    match a
    case None =>
      || (op.Local? && a' == Some(Idle))
      || (op.Local? && a'.Some? && a'.value.Asking? && !a'.value.p.Dispatch?)
      || (op.Local? && a'.Some? && a'.value.Retiring? && a'.value.after == Finish)
      || (op.Create? && a' == Some(Linking(op.c, op.h)))
    case Some(Idle) =>
      || (op.PopGlobal? && a' == Some(Asking(Dispatch(op.q))))
      || (op.PopGlobalEmpty? && a' == a)
    case Some(Asking(p)) => op.EnterRead? && a' == Some(Reading(p))
    case Some(Reading(p)) =>
      op.Lookup? && a' == Some(if op.r.None? then Leaving(None, p) else Found(op.r.value, p))
    case Some(Found(c, p)) => op == Grab(c) && a' == Some(Leaving(Some(c), p))
    case Some(Leaving(None, Dispatch(q))) => op.LeaveRead? && a' == Some(Abandoning(q, true))
    case Some(Leaving(None, Deliver(_, _))) => op.LeaveRead? && a' == None
    case Some(Leaving(None, Inspect(_))) => op.LeaveRead? && a' == None
    case Some(Leaving(Some(c), Dispatch(q))) => op.LeaveRead? && a' == Some(Popping(q, c))
    case Some(Leaving(Some(c), Deliver(_, m))) => op.LeaveRead? && a' == Some(Pushing(c, m))
    case Some(Leaving(Some(c), Inspect(_))) => op.LeaveRead? && a' == Some(Releasing(c, Finish))
    case Some(Popping(q, c)) =>
      || (op.MqPop? && op.q == q && a' == Some(Running(q, c, op.m)))
      || (op == MqPopEmpty(q) && a' == Some(Releasing(c, NextQueue)))
    case Some(Running(q, c, m)) =>
      op == Handled(q, m) && (a' == Some(Popping(q, c)) || a' == Some(Swapping(q, c)))
    case Some(Swapping(q, c)) =>
      || (op.PopGlobal? && a' == Some(Returning(q, op.q, c)))
      || (op.PopGlobalEmpty? && a' == Some(Releasing(c, Resume(q))))
    case Some(Returning(q, nq, c)) => op == PushGlobal(q) && a' == Some(Releasing(c, Resume(nq)))
    case Some(Abandoning(q, w)) =>
      || (op == MarkedForRelease(q) && a' == Some(Dropping(q, w)))
      || (op == PushBack(q) && a' == AfterAbandon(w))
    case Some(Dropping(q, w)) =>
      || (op.Drop? && op.q == q && a' == a)
      || (op == Free(q) && a' == AfterAbandon(w))
    case Some(Pushing(c, m)) => op == MqPush(c, m) && a' == Some(Releasing(c, Finish))
    case Some(Releasing(c, after)) =>
      || (op == Release(c) && a' == Continue(after, false))
      || (op == ReleaseLast(c) && a' == Some(Deleting(c, after)))
    case Some(Deleting(c, after)) => op == MarkRelease(c) && a' == Continue(after, true)
    case Some(Linking(c, h)) => op == Link(c) && a' == Some(Initing(c, h))
    case Some(Initing(c, h)) =>
      op.Local? && (a' == Some(Releasing(c, Launch(c))) || a' == Some(Releasing(c, Unlaunch(c, h))))
    case Some(Launching(q)) => op == MarkInit(q) && a' == Some(Handing(q))
    case Some(Handing(q)) => op == PushGlobal(q) && a' == None
    case Some(Retiring(h, after)) => op.EnterWrite? && a' == Some(Writing(h, after))
    case Some(Writing(h, after)) =>
      || (op.Unregister? && op.h == h && a' == Some(Removed(op.c, after)))
      || (op == Lookup(h, None) && a' == Some(Absent(after)))
    case Some(Removed(c, after)) => op.LeaveWrite? && a' == Some(Releasing(c, after))
    case Some(Absent(after)) => op.LeaveWrite? && a' == Continue(after, true)
  }

  //////////////////////////////////////////////////////////////////////////////
  // The shared state and its steps
  //////////////////////////////////////////////////////////////////////////////

  datatype Owner = Listed | HeldBy(t: Tid)

  /** What happened to the messages of a queue: pushed by a sender, popped for delivery, dropped
      with the queue, handled by a callback that has returned. */
  datatype Log = Log(pushed: seq<Message>, delivered: seq<Message>, dropped: seq<Message>, handled: seq<Message>)

  /** `owner`, `holders` and `log` record history; no step consults the first two, and
      `log` only serves to keep identities of contexts distinct. */
  datatype State = State(
    registry: map<Handle, Id>,
    ctxs: map<Id, Context>,
    queues: map<Id, Queue>,
    global: seq<Id>,
    acts: map<Tid, Activity>,
    owner: map<Id, Owner>,
    holders: map<Id, set<Tid>>,
    log: map<Id, Log>)

  predicate InRead(a: Activity) { a.Reading? || a.Found? || a.Leaving? }
  predicate InWrite(a: Activity) { a.Writing? || a.Removed? || a.Absent? }

  ghost predicate NoWriter(s: State) { forall t | t in s.acts :: !InWrite(s.acts[t]) }
  ghost predicate NoReader(s: State) { forall t | t in s.acts :: !InRead(s.acts[t]) }

  function At(acts: map<Tid, Activity>, t: Tid): Option<Activity> {
    if t in acts then Some(acts[t]) else None
  }

  /** When an operation can happen, by activity `a`. */
  ghost predicate Enabled(s: State, a: Option<Activity>, op: Op) {
    match op
    case EnterRead => NoWriter(s)
    case EnterWrite => NoWriter(s) && NoReader(s)
    case Lookup(h, r) =>
      && r == (if h in s.registry then Some(s.registry[h]) else None)
      && (a.Some? && a.value.Reading? ==>
            match a.value.p
            case Dispatch(q) => q in s.queues && h == s.queues[q].handle
            case Deliver(handle, _) => h == handle
            case Inspect(handle) => h == handle)
    case Release(c) => c in s.ctxs ==> s.ctxs[c].ref != 1
    case ReleaseLast(c) => c in s.ctxs && s.ctxs[c].ref == 1
    case Create(c, h) =>
      && c !in s.log && NoWriter(s) && NoReader(s) && h !in s.registry
      && forall q | q in s.queues :: s.queues[q].handle != h
    case Unregister(h, c) => h in s.registry && s.registry[h] == c
    case PopGlobal(q) => s.global != [] && s.global[0] == q
    case PopGlobalEmpty => s.global == []
    case PushBack(q) => q in s.queues && !s.queues[q].release
    case MarkedForRelease(q) => q in s.queues && s.queues[q].release
    case MqPop(q, m) => q in s.queues && s.queues[q].messages != [] && s.queues[q].messages[0] == m
    case MqPopEmpty(q) => q in s.queues && s.queues[q].messages == []
    case Drop(q, m) => q in s.queues && s.queues[q].messages != [] && s.queues[q].messages[0] == m
    case Free(q) => q in s.queues && s.queues[q].messages == []
    case _ => true
  }

  function RegistryAfter(s: State, op: Op): map<Handle, Id> {
    if op.Create? then s.registry[op.h := op.c]
    else if op.Unregister? then s.registry - {op.h}
    else s.registry
  }

  function CtxsAfter(s: State, op: Op): map<Id, Context> {
    match op
    case Create(c, h) => s.ctxs[c := Context(h, 2, false, false)]
    case Link(c) => if c in s.ctxs then s.ctxs[c := s.ctxs[c].(linked := true)] else s.ctxs
    case Grab(c) => if c in s.ctxs then s.ctxs[c := s.ctxs[c].(ref := s.ctxs[c].ref + 1)] else s.ctxs
    case Release(c) => if c in s.ctxs then s.ctxs[c := s.ctxs[c].(ref := s.ctxs[c].ref - 1)] else s.ctxs
    case ReleaseLast(c) => if c in s.ctxs then s.ctxs[c := s.ctxs[c].(ref := s.ctxs[c].ref - 1)] else s.ctxs
    case MarkInit(c) => if c in s.ctxs then s.ctxs[c := s.ctxs[c].(init := true)] else s.ctxs
    case MarkRelease(c) => s.ctxs - {c}
    case _ => s.ctxs
  }

  function QueueAfter(q: Queue, op: Op): Queue {
    match op
    case MqPush(_, m) => q.(messages := q.messages + [m], inGlobal := true)
    case MqPop(_, _) => if q.messages == [] then q else q.(messages := q.messages[1..])
    case Drop(_, _) => if q.messages == [] then q else q.(messages := q.messages[1..])
    case MqPopEmpty(_) => q.(inGlobal := false)
    case MarkRelease(_) => q.(release := true)
    case _ => q
  }

  /** The queue whose fields an operation works on. */
  function Subject(op: Op): Option<Id> {
    if op.MqPush? || op.MqPop? || op.MqPopEmpty? || op.Drop? then Some(op.q)
    else if op.MarkRelease? then Some(op.c) else None
  }

  function QueuesAfter(s: State, op: Op): map<Id, Queue> {
    if op.Create? then s.queues[op.c := Queue(op.h, [], true, false)]
    else if op.Free? then s.queues - {op.q}
    else if Subject(op).Some? && Subject(op).value in s.queues then
      s.queues[Subject(op).value := QueueAfter(s.queues[Subject(op).value], op)]
    else s.queues
  }

  /** The queue that an operation appends to the global list. */
  function Appended(s: State, op: Op): Option<Id> {
    match op
    case PushGlobal(q) => Some(q)
    case PushBack(q) => Some(q)
    case MqPush(q, _) => if q in s.queues && !s.queues[q].inGlobal then Some(q) else None
    case MarkRelease(c) => if c in s.queues && !s.queues[c].inGlobal then Some(c) else None
    case _ => None
  }

  function GlobalAfter(s: State, op: Op): seq<Id> {
    if op.PopGlobal? && s.global != [] then s.global[1..]
    else if Appended(s, op).Some? then s.global + [Appended(s, op).value]
    else s.global
  }

  function OwnerAfter(s: State, t: Tid, op: Op): map<Id, Owner> {
    if Gained(op) != {} then (if op.Create? then s.owner[op.c := HeldBy(t)] else s.owner[op.q := HeldBy(t)])
    else if Appended(s, op).Some? then s.owner[Appended(s, op).value := Listed]
    else s.owner - Lost(op)
  }

  function Holders(s: State, c: Id): set<Tid> {
    if c in s.holders then s.holders[c] else {}
  }

  function HoldersAfter(s: State, t: Tid, op: Op): map<Id, set<Tid>> {
    if RefGained(op).Some? then s.holders[op.c := if op.Create? then {t} else Holders(s, op.c) + {t}]
    else if op.Release? || op.ReleaseLast? then s.holders[op.c := Holders(s, op.c) - {t}]
    else s.holders
  }

  function LogAfter(s: State, op: Op): map<Id, Log> {
    match op
    case Create(c, _) => s.log[c := Log([], [], [], [])]
    case MqPush(q, m) => if q in s.log then s.log[q := s.log[q].(pushed := s.log[q].pushed + [m])] else s.log
    case MqPop(q, m) => if q in s.log then s.log[q := s.log[q].(delivered := s.log[q].delivered + [m])] else s.log
    case Drop(q, m) => if q in s.log then s.log[q := s.log[q].(dropped := s.log[q].dropped + [m])] else s.log
    case Handled(q, m) => if q in s.log then s.log[q := s.log[q].(handled := s.log[q].handled + [m])] else s.log
    case _ => s.log
  }

  /** The state after operation `op` of activity `t`, which becomes `a`. */
  function Effect(s: State, t: Tid, op: Op, a: Option<Activity>): State {
    State(RegistryAfter(s, op), CtxsAfter(s, op), QueuesAfter(s, op), GlobalAfter(s, op), Replaced(s.acts, t, a),
          OwnerAfter(s, t, op), HoldersAfter(s, t, op), LogAfter(s, op))
  }

  function Replaced(acts: map<Tid, Activity>, t: Tid, a: Option<Activity>): map<Tid, Activity> {
    if a.Some? then acts[t := a.value] else acts - {t}
  }

  ghost predicate Step(s: State, t: Tid, op: Op, a': Option<Activity>, s': State) {
    && Flow(At(s.acts, t), op, a')
    && Enabled(s, At(s.acts, t), op)
    && s' == Effect(s, t, op, a')
  }

  ghost predicate Next(s: State, s': State) {
    exists t, op, a' :: Step(s, t, op, a', s')
  }

  const Initial := State(map[], map[], map[], [], map[], map[], map[], map[])

  //////////////////////////////////////////////////////////////////////////////
  // What an activity holds
  //////////////////////////////////////////////////////////////////////////////

  function HeldAfter(after: After): set<Id> {
    if after.Finish? || after.NextQueue? then {} else {after.q}
  }

  function HeldFor(p: Purpose): set<Id> {
    if p.Dispatch? then {p.q} else {}
  }

  /** The queues an activity owns. */
  function Held(a: Activity): set<Id> {
    match a
    case Idle => {}
    case Popping(q, _) => {q}
    case Running(q, _, _) => {q}
    case Swapping(q, _) => {q}
    case Returning(q, nq, _) => {q, nq}
    case Abandoning(q, _) => {q}
    case Dropping(q, _) => {q}
    case Asking(p) => HeldFor(p)
    case Reading(p) => HeldFor(p)
    case Found(_, p) => HeldFor(p)
    case Leaving(_, p) => HeldFor(p)
    case Pushing(_, _) => {}
    case Releasing(_, after) => HeldAfter(after)
    case Deleting(_, after) => HeldAfter(after)
    case Linking(c, _) => {c}
    case Initing(c, _) => {c}
    case Launching(q) => {q}
    case Handing(q) => {q}
    case Retiring(_, after) => HeldAfter(after)
    case Writing(_, after) => HeldAfter(after)
    case Removed(_, after) => HeldAfter(after)
    case Absent(after) => HeldAfter(after)
  }

  /** The context an activity has a counted reference to. */
  function RefOf(a: Activity): Option<Id> {
    match a
    case Popping(_, c) => Some(c)
    case Running(_, c, _) => Some(c)
    case Swapping(_, c) => Some(c)
    case Returning(_, _, c) => Some(c)
    case Leaving(r, _) => r
    case Pushing(c, _) => Some(c)
    case Releasing(c, _) => Some(c)
    case Linking(c, _) => Some(c)
    case Initing(c, _) => Some(c)
    case Removed(c, _) => Some(c)
    case _ => None
  }

  function HeldO(a: Option<Activity>): set<Id> { if a.Some? then Held(a.value) else {} }
  function RefO(a: Option<Activity>): Option<Id> { if a.Some? then RefOf(a.value) else None }

  function Gained(op: Op): set<Id> {
    if op.PopGlobal? then {op.q} else if op.Create? then {op.c} else {}
  }

  function Lost(op: Op): set<Id> {
    if op.PushGlobal? || op.PushBack? || op.Free? || op.MqPopEmpty? then {op.q} else {}
  }

  /** Every operation moves exactly the queues it names. */
  lemma FlowHeld(a: Option<Activity>, op: Op, a': Option<Activity>)
    requires Flow(a, op, a')
    requires a.Some? && a.value.Returning? ==> a.value.q != a.value.nq
    ensures HeldO(a') == HeldO(a) + Gained(op) - Lost(op) && Lost(op) <= HeldO(a)
  {
  }

  function RefGained(op: Op): Option<Id> {
    if op.Grab? || op.Create? || op.Unregister? then Some(op.c) else None
  }

  /** Every operation counts exactly the reference it names. */
  lemma FlowRef(a: Option<Activity>, op: Op, a': Option<Activity>)
    requires Flow(a, op, a')
    ensures RefGained(op).Some? ==> RefO(a) == None && RefO(a') == RefGained(op)
    ensures op.Release? || op.ReleaseLast? ==> RefO(a) == Some(op.c) && RefO(a') == None
    ensures RefGained(op).None? && !op.Release? && !op.ReleaseLast? ==> RefO(a') == RefO(a)
  {
  }

  //////////////////////////////////////////////////////////////////////////////
  // The invariant
  //////////////////////////////////////////////////////////////////////////////

  /** The registry lock: a writer excludes every other activity. */
  ghost predicate LockInv(s: State) {
    forall t, u | t in s.acts && u in s.acts && InWrite(s.acts[t]) && (InRead(s.acts[u]) || InWrite(s.acts[u])) :: t == u
  }

  /** Every queue has at most one owner: an activity or one position of the global list. */
  ghost predicate Owned(acts: map<Tid, Activity>, owner: map<Id, Owner>, global: seq<Id>) {
    && (forall t, q | t in acts && q in Held(acts[t]) :: q in owner && owner[q] == HeldBy(t))
    && (forall q | q in owner && owner[q].HeldBy? :: owner[q].t in acts && q in Held(acts[owner[q].t]))
    && (forall i | 0 <= i < |global| :: global[i] in owner && owner[global[i]] == Listed)
    && (forall q | q in owner && owner[q] == Listed :: q in global)
    && (forall i, j | 0 <= i < j < |global| :: global[i] != global[j])
    && (forall t | t in acts && acts[t].Returning? :: acts[t].q != acts[t].nq)
  }

  ghost predicate OwnInv(s: State) {
    Owned(s.acts, s.owner, s.global)
  }

  /** The flags of queue `q` tell whether it has an owner. */
  predicate FlagsRight(owner: map<Id, Owner>, queues: map<Id, Queue>, q: Id) {
    && (q in owner ==> q in queues)
    && (q in queues ==> (q in owner <==> queues[q].inGlobal || queues[q].release))
    && (q in queues && queues[q].messages != [] ==> q in owner)
  }

  /** A queue has an owner exactly when it is flagged as scheduled or marked for release. */
  ghost predicate FlagInv(s: State) {
    forall q :: FlagsRight(s.owner, s.queues, q)
  }

  predicate Registered(s: State, c: Id) {
    c in s.ctxs && s.ctxs[c].handle in s.registry && s.registry[s.ctxs[c].handle] == c
  }

  /** Activity `u` is counted as a holder of context `c` exactly when it has a reference to it. */
  ghost predicate CountedRight(s: State, c: Id, u: Tid) {
    && (u in s.acts && RefOf(s.acts[u]) == Some(c) ==> c in s.ctxs && u in Holders(s, c))
    && (c in s.ctxs && u in Holders(s, c) ==> u in s.acts && RefOf(s.acts[u]) == Some(c))
  }

  /** The count of context `c` is its registry entry plus its holders. */
  predicate CountRight(s: State, c: Id) {
    c in s.ctxs ==> s.ctxs[c].ref == |Holders(s, c)| + if Registered(s, c) then 1 else 0
  }

  /** Reference counts and the registry are right for all contexts. */
  ghost predicate RefInv(s: State) {
    && (forall c, t :: CountedRight(s, c, t))
    && (forall c :: CountRight(s, c))
    && (forall h | h in s.registry :: s.registry[h] in s.ctxs && s.ctxs[s.registry[h]].handle == h)
  }

  /** Contexts and queues: a queue is marked for release exactly when its context is gone. */
  ghost predicate LifeInv(s: State) {
    && (forall c | c in s.ctxs :: c in s.queues && s.queues[c].handle == s.ctxs[c].handle)
    && (forall q | q in s.queues :: s.queues[q].release <==> q !in s.ctxs)
    && (forall q, q' | q in s.queues && q' in s.queues && s.queues[q].handle == s.queues[q'].handle :: q == q')
    && (forall t | t in s.acts && s.acts[t].Deleting? :: s.acts[t].c in s.ctxs && s.ctxs[s.acts[t].c].ref == 0)
    && (forall t, u | t in s.acts && u in s.acts && s.acts[t].Deleting? && s.acts[u].Deleting? && s.acts[t].c == s.acts[u].c :: t == u)
  }

  /** The messages of queue `q` are conserved, in order: delivered, then dropped, then still queued. */
  predicate LogRight(log: map<Id, Log>, queues: map<Id, Queue>, q: Id) {
    && (q in queues ==> q in log)
    && (q in log ==> log[q].pushed == log[q].delivered + log[q].dropped + if q in queues then queues[q].messages else [])
    && (q in queues && !queues[q].release ==> log[q].dropped == [])
  }

  ghost predicate LogInv(s: State) {
    forall q :: LogRight(s.log, s.queues, q)
  }

  /** Worker `a` dispatches its own queue to the service that owns it, and that service is up. */
  predicate Dispatches(s: State, q: Id, c: Id) {
    c == q && c in s.ctxs && s.ctxs[c].init
  }

  predicate AfterOk(s: State, after: After) {
    && (after.Unlaunch? ==> after.q in s.queues && s.queues[after.q].handle == after.handle)
    && (after.GiveUp? ==> !Registered(s, after.q))
  }

  predicate BeforeRetire(s: State, h: Handle, after: After) {
    after.GiveUp? ==> after.q in s.queues && s.queues[after.q].handle == h
  }

  /** What is known at each point of the code. */
  predicate PhaseOk(s: State, a: Activity) {
    match a
    case Popping(q, c) => Dispatches(s, q, c)
    case Running(q, c, _) => Dispatches(s, q, c)
    case Swapping(q, c) => Dispatches(s, q, c)
    case Returning(q, _, c) => Dispatches(s, q, c)
    case Abandoning(q, worker) => !worker ==> !Registered(s, q)
    case Dropping(q, _) => q in s.queues && s.queues[q].release
    case Found(c, p) => Registered(s, c) && (p.Dispatch? ==> Dispatches(s, p.q, c))
    case Leaving(r, p) => p.Dispatch? && r.Some? ==> Dispatches(s, p.q, r.value)
    case Releasing(c, after) => AfterOk(s, after) && (after.Launch? ==> c == after.q)
    case Deleting(c, after) => AfterOk(s, after) && (after.Launch? ==> c == after.q)
    case Linking(c, h) => c in s.queues && s.queues[c].handle == h
    case Initing(c, h) => c in s.queues && s.queues[c].handle == h
    case Handing(q) => Registered(s, q) ==> s.ctxs[q].init
    case Retiring(h, after) => BeforeRetire(s, h, after) && !after.Unlaunch? && !after.Launch?
    case Writing(h, after) => BeforeRetire(s, h, after) && !after.Unlaunch? && !after.Launch?
    case Removed(_, after) => AfterOk(s, after) && !after.Unlaunch? && !after.Launch?
    case Absent(after) => AfterOk(s, after) && !after.Unlaunch? && !after.Launch?
    case _ => true
  }

  ghost predicate PhaseInv(s: State) {
    forall t | t in s.acts :: PhaseOk(s, s.acts[t])
  }

  /** A creator that has not handed the queue over yet. */
  predicate Creating(a: Activity) {
    || a.Linking? || a.Initing? || a.Launching?
    || ((a.Releasing? || a.Deleting?) && (a.after.Launch? || a.after.Unlaunch?))
    || ((a.Retiring? || a.Writing?) && a.after.GiveUp?)
  }

  /** A registered service that is not up yet is still in the hands of its creator. */
  ghost predicate InitInv(s: State) {
    forall c | Registered(s, c) && !s.ctxs[c].init ::
      c in s.owner && s.owner[c].HeldBy? && s.owner[c].t in s.acts && Creating(s.acts[s.owner[c].t])
  }

  ghost predicate Inv(s: State) {
    && LockInv(s) && OwnInv(s) && FlagInv(s) && RefInv(s)
    && LifeInv(s) && LogInv(s) && PhaseInv(s) && InitInv(s)
  }

  lemma InitialInv()
    ensures Inv(Initial)
  {
  }

  //////////////////////////////////////////////////////////////////////////////
  // The lock is respected
  //////////////////////////////////////////////////////////////////////////////

  lemma FlowLock(a: Option<Activity>, op: Op, a': Option<Activity>)
    requires Flow(a, op, a') && a'.Some?
    ensures InRead(a'.value) ==> op.EnterRead? || (a.Some? && InRead(a.value))
    ensures InWrite(a'.value) ==> op.EnterWrite? || (a.Some? && InWrite(a.value))
  {
  }

  lemma LockStep(s: State, t: Tid, op: Op, a': Option<Activity>, s': State)
    requires LockInv(s) && Step(s, t, op, a', s')
    ensures LockInv(s')
  {
    if a'.Some? {
      FlowLock(At(s.acts, t), op, a');
    }
    hide Flow;
  }

  //////////////////////////////////////////////////////////////////////////////
  // Ownership
  //////////////////////////////////////////////////////////////////////////////

  predicate Proper(a: Option<Activity>) {
    a.Some? && a.value.Returning? ==> a.value.q != a.value.nq
  }

  lemma OwnKeep(acts: map<Tid, Activity>, owner: map<Id, Owner>, global: seq<Id>, t: Tid, a': Option<Activity>)
    requires Owned(acts, owner, global) && Proper(a') && HeldO(a') == HeldO(At(acts, t))
    ensures Owned(Replaced(acts, t, a'), owner, global)
  {
    hide Held;
  }

  lemma OwnTake(acts: map<Tid, Activity>, owner: map<Id, Owner>, global: seq<Id>, t: Tid, a': Option<Activity>)
    requires Owned(acts, owner, global) && Proper(a') && global != []
    requires HeldO(a') == HeldO(At(acts, t)) + {global[0]}
    ensures Owned(Replaced(acts, t, a'), owner[global[0] := HeldBy(t)], global[1..])
  {
    hide Held;
  }

  lemma GlobalAppend(global: seq<Id>, q: Id)
    ensures forall x :: x in global + [q] <==> x == q || x in global
  {
    assert (global + [q])[|global|] == q;
    forall x | x in global
      ensures x in global + [q]
    {
      var i :| 0 <= i < |global| && global[i] == x;
      assert (global + [q])[i] == x;
    }
  }

  lemma OwnList(acts: map<Tid, Activity>, owner: map<Id, Owner>, global: seq<Id>, t: Tid, a': Option<Activity>, q: Id)
    requires Owned(acts, owner, global) && Proper(a') && q !in owner
    requires HeldO(a') == HeldO(At(acts, t))
    ensures Owned(Replaced(acts, t, a'), owner[q := Listed], global + [q])
  {
    hide Held;
    GlobalAppend(global, q);
  }

  lemma OwnForget(acts: map<Tid, Activity>, owner: map<Id, Owner>, global: seq<Id>, t: Tid, a': Option<Activity>, q: Id)
    requires Owned(acts, owner, global) && Proper(a') && q in HeldO(At(acts, t))
    requires HeldO(a') == HeldO(At(acts, t)) - {q}
    ensures Owned(Replaced(acts, t, a'), owner - {q}, global)
  {
    hide Held;
    assert owner[q] == HeldBy(t);
    var acts' := Replaced(acts, t, a');
    forall u, x | u in acts' && x in Held(acts'[u])
      ensures x != q && x in owner && owner[x] == HeldBy(u)
    {
      if u == t {
        assert x in HeldO(a');
        assert x in HeldO(At(acts, t));
      } else {
        assert u in acts && x in Held(acts[u]);
      }
    }
  }

  lemma OwnGive(acts: map<Tid, Activity>, owner: map<Id, Owner>, global: seq<Id>, t: Tid, a': Option<Activity>, q: Id)
    requires Owned(acts, owner, global) && Proper(a') && q in HeldO(At(acts, t))
    requires HeldO(a') == HeldO(At(acts, t)) - {q}
    ensures Owned(Replaced(acts, t, a'), owner[q := Listed], global + [q])
  {
    hide Owned, HeldO;
    var acts' := Replaced(acts, t, a');
    OwnForget(acts, owner, global, t, a', q);
    assert At(acts', t) == a' && Replaced(acts', t, a') == acts';
    OwnList(acts', owner - {q}, global, t, a', q);
    assert (owner - {q})[q := Listed] == owner[q := Listed];
  }

  lemma OwnCreate(acts: map<Tid, Activity>, owner: map<Id, Owner>, global: seq<Id>, t: Tid, a': Option<Activity>, q: Id)
    requires Owned(acts, owner, global) && Proper(a') && q !in owner
    requires HeldO(a') == HeldO(At(acts, t)) + {q}
    ensures Owned(Replaced(acts, t, a'), owner[q := HeldBy(t)], global)
  {
    hide Held;
  }

  lemma FlowReturning(a: Option<Activity>, op: Op, a': Option<Activity>)
    requires Flow(a, op, a') && a'.Some? && a'.value.Returning?
    ensures op.PopGlobal? && a'.value.nq == op.q && a'.value.q in HeldO(a)
  {
  }

  lemma FlowPush(a: Option<Activity>, op: Op, a': Option<Activity>)
    requires Flow(a, op, a')
    ensures op.MqPush? ==> RefO(a) == Some(op.q)
    ensures op.MqPopEmpty? || op.MqPop? ==> a.Some? && a.value.Popping? && a.value.q == op.q
    ensures op.MarkRelease? ==> a.Some? && a.value.Deleting? && a.value.c == op.c
    ensures op.Free? || op.Drop? ==> a.Some? && a.value.Dropping? && a.value.q == op.q
  {
  }

  /** The effect of an operation on ownership, from what it holds before and after. */
  lemma OwnEffect(s: State, t: Tid, op: Op, a': Option<Activity>)
    requires OwnInv(s) && Proper(a')
    requires HeldO(a') == HeldO(At(s.acts, t)) + Gained(op) - Lost(op) && Lost(op) <= HeldO(At(s.acts, t))
    requires op.PopGlobal? ==> s.global != [] && s.global[0] == op.q
    requires op.Create? ==> op.c !in s.owner
    requires Appended(s, op).Some? ==> Appended(s, op).value in Lost(op) || Appended(s, op).value !in s.owner
    ensures Owned(Replaced(s.acts, t, a'), OwnerAfter(s, t, op), GlobalAfter(s, op))
  {
    hide Owned, Held, HeldO, At, Replaced;
    if op.PopGlobal? {
      OwnTake(s.acts, s.owner, s.global, t, a');
    } else if op.Create? {
      OwnCreate(s.acts, s.owner, s.global, t, a', op.c);
    } else if Appended(s, op).Some? {
      var q := Appended(s, op).value;
      if q in Lost(op) {
        OwnGive(s.acts, s.owner, s.global, t, a', q);
      } else {
        OwnList(s.acts, s.owner, s.global, t, a', q);
      }
    } else if Lost(op) != {} {
      OwnForget(s.acts, s.owner, s.global, t, a', op.q);
    } else {
      assert s.owner - Lost(op) == s.owner;
      OwnKeep(s.acts, s.owner, s.global, t, a');
    }
  }

  lemma StaysProper(s: State, t: Tid, op: Op, a': Option<Activity>)
    requires OwnInv(s) && Flow(At(s.acts, t), op, a') && Enabled(s, At(s.acts, t), op)
    ensures Proper(At(s.acts, t)) && Proper(a')
  {
    if a'.Some? && a'.value.Returning? {
      FlowReturning(At(s.acts, t), op, a');
      OwnerOf(s, t, a'.value.q);
    }
    hide Flow, Held;
  }

  lemma OwnStep(s: State, t: Tid, op: Op, a': Option<Activity>, s': State)
    requires OwnInv(s) && FlagInv(s) && LifeInv(s) && LogInv(s) && RefInv(s) && Step(s, t, op, a', s')
    ensures OwnInv(s')
  {
    StaysProper(s, t, op, a');
    FlowHeld(At(s.acts, t), op, a');
    if Appended(s, op).Some? {
      AppendedUnowned(s, t, op, a');
    }
    hide Flow, Owned, Held, LifeInv, RefInv;
    assert op.Create? ==> FlagsRight(s.owner, s.queues, op.c) && LogRight(s.log, s.queues, op.c);
    OwnEffect(s, t, op, a');
  }

  /** A queue enters the global list only from the hands of its owner or when nobody owns it. */
  lemma AppendedUnowned(s: State, t: Tid, op: Op, a': Option<Activity>)
    requires OwnInv(s) && FlagInv(s) && LifeInv(s) && RefInv(s)
    requires Flow(At(s.acts, t), op, a') && Appended(s, op).Some?
    ensures Appended(s, op).value in Lost(op) || Appended(s, op).value !in s.owner
  {
    hide Flow, Owned, Held, RefOf;
    FlowPush(At(s.acts, t), op, a');
    assert FlagsRight(s.owner, s.queues, Appended(s, op).value);
    if op.MqPush? {
      assert CountedRight(s, op.q, t);
    }
  }

  lemma OwnerOf(s: State, t: Tid, q: Id)
    requires OwnInv(s) && t in s.acts && q in Held(s.acts[t])
    ensures q in s.owner && s.owner[q] == HeldBy(t) && q !in s.global
  {
    hide Held;
  }

  //////////////////////////////////////////////////////////////////////////////
  // Flags
  //////////////////////////////////////////////////////////////////////////////

  lemma OwnerKeys(s: State, t: Tid, op: Op, q: Id)
    ensures q in OwnerAfter(s, t, op) <==>
      q in Gained(op) || Appended(s, op) == Some(q) || (q in s.owner && q !in Lost(op))
  {
  }

  /** What an operation may rely on for the queue it works on. */
  ghost predicate Sound(s: State, op: Op) {
    match op
    case Create(c, _) => c !in s.queues
    case PopGlobal(q) => q in s.owner && q in s.queues
    case PushGlobal(q) => q in s.owner && q in s.queues
    case PushBack(q) => q in s.owner && q in s.queues
    case MqPush(q, _) => q in s.queues && !s.queues[q].release
    case MqPop(q, m) => q in s.queues && !s.queues[q].release && q in s.owner && HeadIs(s.queues[q], m)
    case MqPopEmpty(q) => q in s.queues && !s.queues[q].release && s.queues[q].messages == []
    case MarkRelease(c) => c in s.ctxs && c in s.queues && !s.queues[c].release
    case Drop(q, m) => q in s.queues && s.queues[q].release && HeadIs(s.queues[q], m)
    case Free(q) => q in s.queues && s.queues[q].release && s.queues[q].messages == []
    case _ => true
  }

  predicate HeadIs(q: Queue, m: Message) {
    q.messages != [] && q.messages[0] == m
  }

  lemma FlowHeldSubject(a: Option<Activity>, op: Op, a': Option<Activity>)
    requires Flow(a, op, a')
    ensures op.PushGlobal? || op.PushBack? || op.MqPop? ==> op.q in HeldO(a)
  {
  }

  lemma OpIsSound(s: State, t: Tid, op: Op, a': Option<Activity>)
    requires Inv(s) && Flow(At(s.acts, t), op, a') && Enabled(s, At(s.acts, t), op)
    ensures Sound(s, op)
  {
    hide Flow, Held, RefOf, LockInv, InitInv;
    var a := At(s.acts, t);
    FlowPush(a, op, a');
    FlowHeldSubject(a, op, a');
    assert a.Some? ==> PhaseOk(s, a.value);
    if op.MqPush? {
      assert CountedRight(s, op.q, t);
    } else if op.Create? {
      assert LogRight(s.log, s.queues, op.c);
    }
    if op.PushGlobal? || op.PushBack? || op.MqPop? || op.PopGlobal? {
      assert FlagsRight(s.owner, s.queues, op.q);
      if !op.PopGlobal? {
        OwnerOf(s, t, op.q);
      }
    }
  }

  lemma QueueOf(s: State, op: Op, q: Id)
    ensures q in QueuesAfter(s, op) <==> op == Create(q, if op.Create? then op.h else 0) || (q in s.queues && op != Free(q))
    ensures q in QueuesAfter(s, op) ==>
      QueuesAfter(s, op)[q] ==
        if op.Create? && op.c == q then Queue(op.h, [], true, false)
        else if Subject(op) == Some(q) then QueueAfter(s.queues[q], op) else s.queues[q]
  {
  }

  lemma FlagSubject(s: State, t: Tid, op: Op, q: Id)
    requires FlagsRight(s.owner, s.queues, q) && Sound(s, op) && Subject(op) == Some(q)
    ensures FlagsRight(OwnerAfter(s, t, op), QueuesAfter(s, op), q)
  {
    hide OwnerAfter, QueuesAfter;
    OwnerKeys(s, t, op, q);
    QueueOf(s, op, q);
  }

  lemma FlagOther(s: State, t: Tid, op: Op, q: Id)
    requires FlagsRight(s.owner, s.queues, q) && Sound(s, op) && Subject(op) != Some(q)
    ensures FlagsRight(OwnerAfter(s, t, op), QueuesAfter(s, op), q)
  {
    hide OwnerAfter, QueuesAfter, QueueAfter;
    OwnerKeys(s, t, op, q);
    QueueOf(s, op, q);
  }

  lemma FlagStep(s: State, t: Tid, op: Op, a': Option<Activity>, s': State)
    requires FlagInv(s) && Sound(s, op) && Step(s, t, op, a', s')
    ensures FlagInv(s')
  {
    hide Flow, Enabled, Sound, CtxsAfter, RegistryAfter, HoldersAfter, QueuesAfter, OwnerAfter, GlobalAfter, LogAfter;
    forall q: Id
      ensures FlagsRight(s'.owner, s'.queues, q)
    {
      assert FlagsRight(s.owner, s.queues, q);
      if Subject(op) == Some(q) {
        FlagSubject(s, t, op, q);
      } else {
        FlagOther(s, t, op, q);
      }
    }
  }

  //////////////////////////////////////////////////////////////////////////////
  // Reference counts
  //////////////////////////////////////////////////////////////////////////////

  lemma FlowGrab(a: Option<Activity>, op: Op, a': Option<Activity>)
    requires Flow(a, op, a')
    ensures op.Grab? ==> a.Some? && a.value.Found? && a.value.c == op.c
    ensures op.Create? ==> a.None?
    ensures op.Unregister? ==> a.Some? && a.value.Writing? && a.value.handle == op.h
  {
  }

  /** What an operation may rely on for the context it works on. */
  ghost predicate RefSound(s: State, t: Tid, op: Op) {
    match op
    case Create(c, h) => c !in s.ctxs && h !in s.registry && forall c' | c' in s.ctxs :: s.ctxs[c'].handle != h
    case Grab(c) => c in s.ctxs && t !in Holders(s, c) && s.ctxs[c].ref >= 1
    case Unregister(h, c) => Registered(s, c) && s.ctxs[c].handle == h && t !in Holders(s, c)
    case Release(c) => c in s.ctxs && t in Holders(s, c) && s.ctxs[c].ref >= 1
    case ReleaseLast(c) => c in s.ctxs && t in Holders(s, c) && s.ctxs[c].ref == 1
    case MarkRelease(c) => c in s.ctxs && s.ctxs[c].ref == 0 && Holders(s, c) == {} && !Registered(s, c)
    case _ => true
  }

  lemma RefIsSound(s: State, t: Tid, op: Op, a': Option<Activity>)
    requires Inv(s) && Flow(At(s.acts, t), op, a') && Enabled(s, At(s.acts, t), op)
    ensures RefSound(s, t, op)
  {
    hide Flow, RefOf, LockInv, InitInv, OwnInv, FlagInv;
    var a := At(s.acts, t);
    FlowRef(a, op, a');
    FlowPush(a, op, a');
    FlowGrab(a, op, a');
    assert a.Some? ==> PhaseOk(s, a.value);
    assert op.Create? ==> LogRight(s.log, s.queues, op.c);
    if RefGained(op).Some? || op.Release? || op.ReleaseLast? || op.MarkRelease? {
      assert CountedRight(s, op.c, t) && CountRight(s, op.c);
    }
  }

  lemma ContextOf(s: State, op: Op, c: Id)
    ensures c in CtxsAfter(s, op) <==> (op.Create? && op.c == c) || (c in s.ctxs && op != MarkRelease(c))
    ensures c in CtxsAfter(s, op) ==>
      CtxsAfter(s, op)[c].handle == if op.Create? && op.c == c then op.h else s.ctxs[c].handle
    ensures c in CtxsAfter(s, op) ==>
      CtxsAfter(s, op)[c].ref ==
        if op.Create? && op.c == c then 2
        else s.ctxs[c].ref + if op == Grab(c) then 1 else if op == Release(c) || op == ReleaseLast(c) then -1 else 0
  {
  }

  predicate RegisteredIn(registry: map<Handle, Id>, ctxs: map<Id, Context>, c: Id) {
    c in ctxs && ctxs[c].handle in registry && registry[ctxs[c].handle] == c
  }

  lemma RegisteredAfter(s: State, t: Tid, op: Op, c: Id)
    requires RefInv(s) && RefSound(s, t, op) && c in CtxsAfter(s, op)
    ensures RegisteredIn(RegistryAfter(s, op), CtxsAfter(s, op), c) <==>
      (op.Create? && op.c == c) || (Registered(s, c) && !(op.Unregister? && op.c == c))
  {
    ContextOf(s, op, c);
    hide CtxsAfter;
  }

  lemma HoldersOf(s: State, t: Tid, op: Op, c: Id)
    ensures (if c in HoldersAfter(s, t, op) then HoldersAfter(s, t, op)[c] else {}) ==
      if RefGained(op) == Some(c) then (if op.Create? then {t} else Holders(s, c) + {t})
      else if op == Release(c) || op == ReleaseLast(c) then Holders(s, c) - {t}
      else Holders(s, c)
  {
  }

  /** Operations that count, register or unregister context `c`. */
  predicate Counts(op: Op, c: Id) {
    || (op.Grab? && op.c == c) || (op.Release? && op.c == c) || (op.ReleaseLast? && op.c == c)
    || (op.Create? && op.c == c) || (op.Unregister? && op.c == c)
  }

  lemma CountOther(s: State, t: Tid, op: Op, s': State, c: Id)
    requires RefInv(s) && RefSound(s, t, op) && CountRight(s, c) && !Counts(op, c)
    requires s'.ctxs == CtxsAfter(s, op) && s'.registry == RegistryAfter(s, op) && s'.holders == HoldersAfter(s, t, op)
    ensures CountRight(s', c)
  {
    hide RefInv, RefSound, CtxsAfter, RegistryAfter, HoldersAfter;
    ContextOf(s, op, c);
    HoldersOf(s, t, op, c);
    if c in s'.ctxs {
      RegisteredAfter(s, t, op, c);
    }
  }

  lemma CountSubject(s: State, t: Tid, op: Op, s': State, c: Id)
    requires RefInv(s) && RefSound(s, t, op) && CountRight(s, c) && Counts(op, c)
    requires s'.ctxs == CtxsAfter(s, op) && s'.registry == RegistryAfter(s, op) && s'.holders == HoldersAfter(s, t, op)
    ensures CountRight(s', c)
  {
    hide RefInv, CtxsAfter, RegistryAfter, HoldersAfter;
    ContextOf(s, op, c);
    HoldersOf(s, t, op, c);
    if c in s'.ctxs {
      RegisteredAfter(s, t, op, c);
    }
  }

  lemma CountedSelf(s: State, t: Tid, op: Op, a': Option<Activity>, s': State, c: Id)
    requires CountedRight(s, c, t) && RefSound(s, t, op)
    requires Flow(At(s.acts, t), op, a') && s'.acts == Replaced(s.acts, t, a')
    requires s'.ctxs == CtxsAfter(s, op) && s'.holders == HoldersAfter(s, t, op)
    ensures CountedRight(s', c, t)
  {
    hide Flow, RefOf, CtxsAfter, HoldersAfter;
    FlowRef(At(s.acts, t), op, a');
    ContextOf(s, op, c);
    HoldersOf(s, t, op, c);
  }

  lemma CountedOther(s: State, t: Tid, op: Op, a': Option<Activity>, s': State, c: Id, u: Tid)
    requires CountedRight(s, c, u) && RefSound(s, t, op) && u != t
    requires s'.acts == Replaced(s.acts, t, a')
    requires s'.ctxs == CtxsAfter(s, op) && s'.holders == HoldersAfter(s, t, op)
    ensures CountedRight(s', c, u)
  {
    hide RefOf, CtxsAfter, HoldersAfter;
    ContextOf(s, op, c);
    HoldersOf(s, t, op, c);
    assert At(s'.acts, u) == At(s.acts, u);
  }

  lemma RegistryOne(s: State, t: Tid, op: Op, s': State, h: Handle)
    requires RefInv(s) && RefSound(s, t, op) && h in s'.registry
    requires s'.ctxs == CtxsAfter(s, op) && s'.registry == RegistryAfter(s, op)
    ensures s'.registry[h] in s'.ctxs && s'.ctxs[s'.registry[h]].handle == h
  {
    ContextOf(s, op, s'.registry[h]);
    hide CtxsAfter;
  }

  lemma RefStep(s: State, t: Tid, op: Op, a': Option<Activity>, s': State)
    requires RefInv(s) && RefSound(s, t, op) && Step(s, t, op, a', s')
    ensures RefInv(s')
  {
    hide Flow, RefOf, CtxsAfter, RegistryAfter, HoldersAfter, QueuesAfter, OwnerAfter, GlobalAfter, LogAfter;
    forall c, u
      ensures CountedRight(s', c, u)
    {
      if u == t {
        CountedSelf(s, t, op, a', s', c);
      } else {
        CountedOther(s, t, op, a', s', c, u);
      }
    }
    forall c: Id
      ensures CountRight(s', c)
    {
      assert CountRight(s, c);
      if Counts(op, c) {
        CountSubject(s, t, op, s', c);
      } else {
        CountOther(s, t, op, s', c);
      }
    }
    forall h | h in s'.registry
      ensures s'.registry[h] in s'.ctxs && s'.ctxs[s'.registry[h]].handle == h
    {
      RegistryOne(s, t, op, s', h);
    }
    hide Step, Effect;
  }

  //////////////////////////////////////////////////////////////////////////////
  // Lifetimes and messages
  //////////////////////////////////////////////////////////////////////////////

  lemma LifeOne(s: State, t: Tid, op: Op, s': State, q: Id)
    requires LifeInv(s) && Sound(s, op) && RefSound(s, t, op)
    requires s'.ctxs == CtxsAfter(s, op) && s'.queues == QueuesAfter(s, op)
    ensures q in s'.ctxs ==> q in s'.queues && s'.queues[q].handle == s'.ctxs[q].handle
    ensures q in s'.queues ==> (s'.queues[q].release <==> q !in s'.ctxs)
  {
    ContextOf(s, op, q);
    QueueOf(s, op, q);
    hide CtxsAfter, QueuesAfter;
  }

  lemma HandleOne(s: State, t: Tid, op: Op, s': State, q: Id, q': Id)
    requires LifeInv(s) && Enabled(s, At(s.acts, t), op) && s'.queues == QueuesAfter(s, op)
    requires q in s'.queues && q' in s'.queues && s'.queues[q].handle == s'.queues[q'].handle
    ensures q == q'
  {
    QueueOf(s, op, q);
    QueueOf(s, op, q');
    hide QueuesAfter;
  }

  lemma FlowDeleting(a: Option<Activity>, op: Op, a': Option<Activity>)
    requires Flow(a, op, a') && a'.Some? && a'.value.Deleting?
    ensures op == ReleaseLast(a'.value.c)
  {
  }

  /** A context that is being deleted has no references left and gains none. */
  lemma DeletingOne(s: State, t: Tid, op: Op, a': Option<Activity>, s': State, u: Tid)
    requires LifeInv(s) && RefSound(s, t, op) && Step(s, t, op, a', s')
    requires u in s'.acts && s'.acts[u].Deleting?
    ensures s'.acts[u].c in s'.ctxs && s'.ctxs[s'.acts[u].c].ref == 0
    ensures u != t ==> s'.acts[u].c in s.ctxs && s.ctxs[s'.acts[u].c].ref == 0
  {
    hide Flow, CtxsAfter, RegistryAfter, HoldersAfter, QueuesAfter, OwnerAfter, GlobalAfter, LogAfter, Enabled;
    var c := s'.acts[u].c;
    ContextOf(s, op, c);
    if u == t {
      FlowDeleting(At(s.acts, t), op, a');
    } else {
      FlowPush(At(s.acts, t), op, a');
      assert u in s.acts && s.acts[u] == s'.acts[u];
    }
  }

  lemma LifeStep(s: State, t: Tid, op: Op, a': Option<Activity>, s': State)
    requires LifeInv(s) && RefInv(s) && Sound(s, op) && RefSound(s, t, op) && Step(s, t, op, a', s')
    ensures LifeInv(s')
  {
    hide Flow, CtxsAfter, RegistryAfter, HoldersAfter, QueuesAfter, OwnerAfter, GlobalAfter, LogAfter;
    forall q
      ensures q in s'.ctxs ==> q in s'.queues && s'.queues[q].handle == s'.ctxs[q].handle
      ensures q in s'.queues ==> (s'.queues[q].release <==> q !in s'.ctxs)
    {
      LifeOne(s, t, op, s', q);
    }
    forall q, q' | q in s'.queues && q' in s'.queues && s'.queues[q].handle == s'.queues[q'].handle
      ensures q == q'
    {
      HandleOne(s, t, op, s', q, q');
    }
    forall u | u in s'.acts && s'.acts[u].Deleting?
      ensures s'.acts[u].c in s'.ctxs && s'.ctxs[s'.acts[u].c].ref == 0
    {
      DeletingOne(s, t, op, a', s', u);
    }
    forall u, v | u in s'.acts && v in s'.acts && s'.acts[u].Deleting? && s'.acts[v].Deleting? && s'.acts[u].c == s'.acts[v].c
      ensures u == v
    {
      DeletingOnce(s, t, op, a', s', u, v);
    }
  }

  lemma DeletingOnce(s: State, t: Tid, op: Op, a': Option<Activity>, s': State, u: Tid, v: Tid)
    requires LifeInv(s) && RefInv(s) && RefSound(s, t, op) && Step(s, t, op, a', s')
    requires u in s'.acts && v in s'.acts && s'.acts[u].Deleting? && s'.acts[v].Deleting? && s'.acts[u].c == s'.acts[v].c
    ensures u == v
  {
    hide Flow, CtxsAfter, RegistryAfter, HoldersAfter, QueuesAfter, OwnerAfter, GlobalAfter, LogAfter;
    DeletingOne(s, t, op, a', s', u);
    DeletingOne(s, t, op, a', s', v);
    if a'.Some? && a'.value.Deleting? {
      FlowDeleting(At(s.acts, t), op, a');
    }
  }

  lemma LogSubject(s: State, op: Op, s': State, q: Id)
    requires LogRight(s.log, s.queues, q) && Sound(s, op) && Subject(op) == Some(q)
    requires s'.log == LogAfter(s, op) && s'.queues == QueuesAfter(s, op)
    ensures LogRight(s'.log, s'.queues, q)
  {
    hide QueuesAfter;
    QueueOf(s, op, q);
  }

  lemma LogOther(s: State, op: Op, s': State, q: Id)
    requires LogRight(s.log, s.queues, q) && Sound(s, op) && Subject(op) != Some(q)
    requires s'.log == LogAfter(s, op) && s'.queues == QueuesAfter(s, op)
    ensures LogRight(s'.log, s'.queues, q)
  {
    hide QueuesAfter, QueueAfter;
    QueueOf(s, op, q);
  }

  lemma LogStep(s: State, t: Tid, op: Op, a': Option<Activity>, s': State)
    requires LogInv(s) && Sound(s, op) && Step(s, t, op, a', s')
    ensures LogInv(s')
  {
    hide Flow, Enabled, Sound, CtxsAfter, RegistryAfter, HoldersAfter, QueuesAfter, OwnerAfter, GlobalAfter, LogAfter;
    forall q: Id
      ensures LogRight(s'.log, s'.queues, q)
    {
      assert LogRight(s.log, s.queues, q);
      if Subject(op) == Some(q) {
        LogSubject(s, op, s', q);
      } else {
        LogOther(s, op, s', q);
      }
    }
  }

  //////////////////////////////////////////////////////////////////////////////
  // Phases
  //////////////////////////////////////////////////////////////////////////////

  /** A context keeps its handle and its init flag while it lives, and registration is for once. */
  predicate ContextPersists(s: State, s': State, c: Id) {
    && (c in s.ctxs && c in s'.ctxs ==> s'.ctxs[c].handle == s.ctxs[c].handle)
    && (c in s.ctxs && c in s'.ctxs && s.ctxs[c].init ==> s'.ctxs[c].init)
  }

  predicate QueuePersists(s: State, s': State, q: Id) {
    && q in s.queues && q in s'.queues && s'.queues[q].handle == s.queues[q].handle
    && (s.queues[q].release ==> s'.queues[q].release)
  }

  lemma ContextKeeps(s: State, op: Op, s': State, c: Id)
    requires s'.ctxs == CtxsAfter(s, op) && op != Create(c, if op.Create? then op.h else 0)
    ensures ContextPersists(s, s', c)
  {
  }

  lemma QueueKeeps(s: State, op: Op, s': State, q: Id)
    requires s'.queues == QueuesAfter(s, op) && q in s.queues && op != Free(q) && !op.Create?
    ensures QueuePersists(s, s', q)
  {
    QueueOf(s, op, q);
    hide QueuesAfter;
  }

  /** What the steps of others leave to activity `a`. */
  ghost predicate Undisturbed(s: State, s': State, a: Activity) {
    && (forall q | q in Held(a) :: QueuePersists(s, s', q) && (Registered(s', q) ==> Registered(s, q)) && ContextPersists(s, s', q))
    && (RefOf(a).Some? ==> RefOf(a).value in s'.ctxs && ContextPersists(s, s', RefOf(a).value))
    && (a.Found? ==> Registered(s', a.c) && ContextPersists(s, s', a.c))
  }

  lemma PhaseKept(s: State, s': State, a: Activity)
    requires PhaseOk(s, a) && Undisturbed(s, s', a)
    ensures PhaseOk(s', a)
  {
    match a
    case Dropping(q, _) => assert q in Held(a);
    case Abandoning(q, _) => assert q in Held(a);
    case Handing(q) => assert q in Held(a);
    case Linking(c, _) => assert c in Held(a);
    case Initing(c, _) => assert c in Held(a);
    case Releasing(_, after) => AfterKept(s, s', a, after);
    case Deleting(_, after) => AfterKept(s, s', a, after);
    case Retiring(_, after) => AfterKept(s, s', a, after);
    case Writing(_, after) => AfterKept(s, s', a, after);
    case Removed(_, after) => AfterKept(s, s', a, after);
    case Absent(after) => AfterKept(s, s', a, after);
    case _ =>
  }

  lemma AfterKept(s: State, s': State, a: Activity, after: After)
    requires Undisturbed(s, s', a) && Held(a) == HeldAfter(after)
    ensures AfterOk(s, after) ==> AfterOk(s', after)
    ensures after.GiveUp? && after.q in s.queues ==> after.q in s'.queues && s'.queues[after.q].handle == s.queues[after.q].handle
  {
    if !after.Finish? && !after.NextQueue? {
      assert after.q in Held(a);
    }
  }

  /** The step of activity `t` leaves every other activity undisturbed. */
  lemma OthersUndisturbed(s: State, t: Tid, op: Op, a': Option<Activity>, s': State, u: Tid)
    requires Inv(s) && Sound(s, op) && RefSound(s, t, op) && Step(s, t, op, a', s') && u in s.acts && u != t
    ensures Undisturbed(s, s', s.acts[u])
  {
    hide Flow, Held, RefOf, Registered, RefInv, CtxsAfter, RegistryAfter, HoldersAfter, QueuesAfter, OwnerAfter, GlobalAfter, LogAfter;
    var a := s.acts[u];
    forall q | q in Held(a)
      ensures QueuePersists(s, s', q) && (Registered(s', q) ==> Registered(s, q)) && ContextPersists(s, s', q)
    {
      HeldUndisturbed(s, t, op, a', s', u, q);
    }
    if RefOf(a).Some? {
      RefUndisturbed(s, t, op, s', u, RefOf(a).value);
    }
    if a.Found? {
      FoundUndisturbed(s, t, op, a', s', u);
    }
  }

  lemma HeldUndisturbed(s: State, t: Tid, op: Op, a': Option<Activity>, s': State, u: Tid, q: Id)
    requires OwnInv(s) && FlagInv(s) && LogInv(s) && RefInv(s) && RefSound(s, t, op) && Step(s, t, op, a', s')
    requires u in s.acts && u != t && q in Held(s.acts[u])
    ensures QueuePersists(s, s', q) && (Registered(s', q) ==> Registered(s, q)) && ContextPersists(s, s', q)
  {
    hide Flow, Held, Owned, RefInv, CtxsAfter, RegistryAfter, HoldersAfter, QueuesAfter, OwnerAfter, GlobalAfter, LogAfter;
    OwnerOf(s, u, q);
    assert FlagsRight(s.owner, s.queues, q) && LogRight(s.log, s.queues, q);
    FlowPush(At(s.acts, t), op, a');
    if op == Free(q) {
      DroppingHolds(s.acts[t]);
      OwnerOf(s, t, q);
    }
    QueueOf(s, op, q);
    ContextKeeps(s, op, s', q);
    if q in s'.ctxs {
      RegisteredAfter(s, t, op, q);
    }
  }

  lemma DroppingHolds(a: Activity)
    requires a.Dropping?
    ensures a.q in Held(a)
  {
  }

  lemma RefUndisturbed(s: State, t: Tid, op: Op, s': State, u: Tid, c: Id)
    requires RefInv(s) && RefSound(s, t, op) && s'.ctxs == CtxsAfter(s, op)
    requires u in s.acts && RefOf(s.acts[u]) == Some(c)
    ensures c in s'.ctxs && ContextPersists(s, s', c)
  {
    assert CountedRight(s, c, u);
    hide RefOf, CtxsAfter;
    ContextOf(s, op, c);
    ContextKeeps(s, op, s', c);
  }

  lemma FoundUndisturbed(s: State, t: Tid, op: Op, a': Option<Activity>, s': State, u: Tid)
    requires LockInv(s) && PhaseInv(s) && RefInv(s) && RefSound(s, t, op) && Step(s, t, op, a', s')
    requires u in s.acts && u != t && s.acts[u].Found?
    ensures Registered(s', s.acts[u].c) && ContextPersists(s, s', s.acts[u].c)
  {
    hide Flow, Enabled, RefInv, CtxsAfter, RegistryAfter, HoldersAfter, QueuesAfter, OwnerAfter, GlobalAfter, LogAfter;
    var c := s.acts[u].c;
    assert PhaseOk(s, s.acts[u]);
    FlowGrab(At(s.acts, t), op, a');
    ContextOf(s, op, c);
    ContextKeeps(s, op, s', c);
    RegisteredAfter(s, t, op, c);
  }

  /** A lookup that succeeds for a worker finds the service of its queue, and that service is up. */
  lemma LookupDispatches(s: State, t: Tid, q: Id, c: Id)
    requires OwnInv(s) && LifeInv(s) && RefInv(s) && InitInv(s)
    requires t in s.acts && s.acts[t] == Reading(Dispatch(q)) && q in s.queues
    requires s.queues[q].handle in s.registry && s.registry[s.queues[q].handle] == c
    ensures Registered(s, c) && Dispatches(s, q, c)
  {
    assert q in Held(s.acts[t]);
    hide Held;
    OwnerOf(s, t, q);
  }

  /** The phase facts carry over a step of the activity itself when nothing it needs changes. */
  lemma SelfUndisturbed(s: State, t: Tid, op: Op, s': State, q: Id)
    requires RefInv(s) && RefSound(s, t, op) && s'.ctxs == CtxsAfter(s, op) && s'.registry == RegistryAfter(s, op)
    requires !op.Create? && q in s.ctxs && op != MarkRelease(q)
    ensures q in s'.ctxs && ContextPersists(s, s', q)
    ensures Registered(s', q) <==> Registered(s, q) && !(op.Unregister? && op.c == q)
  {
    hide CtxsAfter, RegistryAfter;
    ContextOf(s, op, q);
    ContextKeeps(s, op, s', q);
    RegisteredAfter(s, t, op, q);
  }

  lemma NotRegisteredKept(s: State, t: Tid, op: Op, s': State, q: Id)
    requires RefInv(s) && RefSound(s, t, op) && s'.ctxs == CtxsAfter(s, op) && s'.registry == RegistryAfter(s, op)
    requires !op.Create? && !Registered(s, q)
    ensures !Registered(s', q)
  {
    hide CtxsAfter, RegistryAfter;
    ContextOf(s, op, q);
    if q in s'.ctxs {
      RegisteredAfter(s, t, op, q);
    }
  }

  lemma PhaseOfGrab(s: State, t: Tid, op: Op, a': Option<Activity>, s': State)
    requires Inv(s) && Sound(s, op) && RefSound(s, t, op) && Step(s, t, op, a', s') && a'.Some? && t in s.acts
    requires s.acts[t].Asking? || s.acts[t].Reading? || s.acts[t].Found? || s.acts[t].Leaving?
    ensures PhaseOk(s', a'.value)
  {
    hide Held, RefOf, RefInv, OwnInv, LifeInv, InitInv, FlagInv, LogInv, LockInv,
         CtxsAfter, RegistryAfter, HoldersAfter, QueuesAfter, OwnerAfter, GlobalAfter, LogAfter;
    var a := s.acts[t];
    assert PhaseOk(s, a);
    match a
    case Reading(p) =>
      if op.r.Some? {
        LookupRegistered(s, op.h);
        if p.Dispatch? {
          LookupDispatches(s, t, p.q, op.r.value);
        }
        SelfUndisturbed(s, t, op, s', op.r.value);
      }
    case Found(c, p) => SelfUndisturbed(s, t, op, s', c);
    case Leaving(r, p) =>
      if r.Some? && p.Dispatch? {
        SelfUndisturbed(s, t, op, s', r.value);
      }
    case _ =>
  }

  lemma LookupRegistered(s: State, h: Handle)
    requires RefInv(s) && h in s.registry
    ensures Registered(s, s.registry[h]) && s.ctxs[s.registry[h]].handle == h
  {
  }

  lemma PhaseOfDispatch(s: State, t: Tid, op: Op, a': Option<Activity>, s': State)
    requires Inv(s) && Sound(s, op) && RefSound(s, t, op) && Step(s, t, op, a', s') && a'.Some? && t in s.acts
    requires s.acts[t].Popping? || s.acts[t].Running? || s.acts[t].Swapping? || s.acts[t].Returning?
    ensures PhaseOk(s', a'.value)
  {
    hide Held, RefOf, RefInv, OwnInv, LifeInv, InitInv, FlagInv, LogInv, LockInv, Sound, RefSound, Enabled, Registered,
         CtxsAfter, RegistryAfter, HoldersAfter, QueuesAfter, OwnerAfter, GlobalAfter, LogAfter;
    assert PhaseOk(s, s.acts[t]);
    SelfUndisturbed(s, t, op, s', s.acts[t].c);
  }

  lemma PhaseOfRelease(s: State, t: Tid, op: Op, a': Option<Activity>, s': State)
    requires Inv(s) && Sound(s, op) && RefSound(s, t, op) && Step(s, t, op, a', s') && a'.Some? && t in s.acts
    requires s.acts[t].Releasing? || s.acts[t].Deleting?
    ensures PhaseOk(s', a'.value)
  {
    hide Held, RefOf, Registered, RefInv, OwnInv, LifeInv, InitInv, FlagInv, LogInv, LockInv, Sound, RefSound,
         CtxsAfter, RegistryAfter, HoldersAfter, QueuesAfter, OwnerAfter, GlobalAfter, LogAfter;
    var after := s.acts[t].after;
    assert PhaseOk(s, s.acts[t]);
    match after
    case Launch(q) =>
      if s.acts[t].Deleting? {
        DeletedNotRegistered(s, op, s', q);
      }
    case Unlaunch(q, h) => QueueOf(s, op, q);
    case GiveUp(q) => NotRegisteredKept(s, t, op, s', q);
    case _ =>
  }

  lemma DeletedNotRegistered(s: State, op: Op, s': State, c: Id)
    requires op == MarkRelease(c) && s'.ctxs == CtxsAfter(s, op)
    ensures !Registered(s', c)
  {
  }

  lemma PhaseOfCreate(s: State, t: Tid, op: Op, a': Option<Activity>, s': State)
    requires Inv(s) && Sound(s, op) && RefSound(s, t, op) && Step(s, t, op, a', s') && a'.Some?
    requires t !in s.acts || s.acts[t].Linking? || s.acts[t].Initing? || s.acts[t].Launching? || s.acts[t].Handing?
    ensures PhaseOk(s', a'.value)
  {
    hide Held, RefOf, Registered, RefInv, OwnInv, LifeInv, InitInv, FlagInv, LogInv, LockInv, Sound, RefSound,
         CtxsAfter, RegistryAfter, HoldersAfter, QueuesAfter, OwnerAfter, GlobalAfter, LogAfter;
    assert t in s.acts ==> PhaseOk(s, s.acts[t]);
    if t in s.acts && s.acts[t].Launching? {
      LaunchedIsUp(s, op, s', s.acts[t].q);
    } else if t in s.acts && (s.acts[t].Linking? || s.acts[t].Initing?) {
      QueueOf(s, op, s.acts[t].c);
    } else if op.Create? {
      QueueOf(s, op, op.c);
    }
  }

  lemma LaunchedIsUp(s: State, op: Op, s': State, c: Id)
    requires op == MarkInit(c) && s'.ctxs == CtxsAfter(s, op)
    ensures Registered(s', c) ==> s'.ctxs[c].init
  {
  }

  lemma PhaseOfRetire(s: State, t: Tid, op: Op, a': Option<Activity>, s': State)
    requires Inv(s) && Sound(s, op) && RefSound(s, t, op) && Step(s, t, op, a', s') && a'.Some? && t in s.acts
    requires s.acts[t].Retiring? || s.acts[t].Writing? || s.acts[t].Removed? || s.acts[t].Absent?
    ensures PhaseOk(s', a'.value)
  {
    hide Held, RefOf, Registered, RefInv, OwnInv, LifeInv, InitInv, FlagInv, LogInv, LockInv, Sound, RefSound,
         CtxsAfter, RegistryAfter, HoldersAfter, QueuesAfter, OwnerAfter, GlobalAfter, LogAfter;
    var a := s.acts[t];
    assert PhaseOk(s, a);
    if a.after.GiveUp? {
      var q := a.after.q;
      QueueOf(s, op, q);
      if a.Writing? {
        RetiredNotRegistered(s, a.handle, op, s', q);
      } else if !a.Retiring? {
        NotRegisteredKept(s, t, op, s', q);
      }
    }
  }

  lemma RetiredNotRegistered(s: State, h: Handle, op: Op, s': State, q: Id)
    requires LifeInv(s) && q in s.queues && s.queues[q].handle == h
    requires (op.Unregister? && op.h == h) || (op == Lookup(h, None) && h !in s.registry)
    requires s'.ctxs == CtxsAfter(s, op) && s'.registry == RegistryAfter(s, op)
    ensures !Registered(s', q)
  {
    ContextOf(s, op, q);
    hide CtxsAfter;
  }

  lemma PhaseOfDrop(s: State, t: Tid, op: Op, a': Option<Activity>, s': State)
    requires Sound(s, op) && Step(s, t, op, a', s') && a'.Some? && t in s.acts
    requires s.acts[t].Idle? || s.acts[t].Abandoning? || s.acts[t].Dropping? || s.acts[t].Pushing?
    ensures PhaseOk(s', a'.value)
  {
    hide Registered, CtxsAfter, RegistryAfter, HoldersAfter, QueuesAfter, OwnerAfter, GlobalAfter, LogAfter;
    if s.acts[t].Abandoning? || s.acts[t].Dropping? {
      QueueOf(s, op, s.acts[t].q);
    }
  }

  lemma PhaseStep(s: State, t: Tid, op: Op, a': Option<Activity>, s': State)
    requires Inv(s) && Sound(s, op) && RefSound(s, t, op) && Step(s, t, op, a', s')
    ensures PhaseInv(s')
  {
    hide Inv, Sound, RefSound, PhaseOk, Flow, Enabled, CtxsAfter, RegistryAfter, HoldersAfter, QueuesAfter, OwnerAfter, GlobalAfter, LogAfter;
    forall u | u in s'.acts
      ensures PhaseOk(s', s'.acts[u])
    {
      if u == t {
        PhaseOfSelf(s, t, op, a', s');
      } else {
        assert u in s.acts && s'.acts[u] == s.acts[u];
        PhaseOfOther(s, t, op, a', s', u);
      }
    }
  }

  lemma PhaseOfOther(s: State, t: Tid, op: Op, a': Option<Activity>, s': State, u: Tid)
    requires Inv(s) && Sound(s, op) && RefSound(s, t, op) && Step(s, t, op, a', s') && u in s.acts && u != t
    ensures PhaseOk(s', s.acts[u])
  {
    OthersUndisturbed(s, t, op, a', s', u);
    hide Sound, RefSound, PhaseOk, Step, LockInv, OwnInv, FlagInv, RefInv, LifeInv, LogInv, InitInv, Undisturbed;
    PhaseKept(s, s', s.acts[u]);
  }

  lemma PhaseOfSelf(s: State, t: Tid, op: Op, a': Option<Activity>, s': State)
    requires Inv(s) && Sound(s, op) && RefSound(s, t, op) && Step(s, t, op, a', s') && a'.Some?
    ensures PhaseOk(s', a'.value)
  {
    hide Inv, Sound, RefSound, Step, PhaseOk;
    if t !in s.acts {
      PhaseOfCreate(s, t, op, a', s');
    } else {
      var a := s.acts[t];
      if a.Asking? || a.Reading? || a.Found? || a.Leaving? {
        PhaseOfGrab(s, t, op, a', s');
      } else if a.Popping? || a.Running? || a.Swapping? || a.Returning? {
        PhaseOfDispatch(s, t, op, a', s');
      } else if a.Releasing? || a.Deleting? {
        PhaseOfRelease(s, t, op, a', s');
      } else if a.Linking? || a.Initing? || a.Launching? || a.Handing? {
        PhaseOfCreate(s, t, op, a', s');
      } else if a.Retiring? || a.Writing? || a.Removed? || a.Absent? {
        PhaseOfRetire(s, t, op, a', s');
      } else {
        PhaseOfDrop(s, t, op, a', s');
      }
    }
  }

  //////////////////////////////////////////////////////////////////////////////
  // Services that are not up yet
  //////////////////////////////////////////////////////////////////////////////

  /** A creator keeps the queue until its service is up or no longer registered. */
  lemma FlowCreating(a: Option<Activity>, op: Op, a': Option<Activity>, c: Id)
    requires Flow(a, op, a') && a.Some? && Creating(a.value) && c in Held(a.value)
    ensures a'.Some? && c in Held(a'.value)
    ensures Creating(a'.value) || a'.value == Handing(c) || (a'.value.Removed? && a'.value.after == GiveUp(c)) || a'.value == Absent(GiveUp(c))
  {
  }

  lemma OwnerKept(s: State, t: Tid, op: Op, a': Option<Activity>, s': State, c: Id, v: Tid)
    requires OwnInv(s) && OwnInv(s') && Step(s, t, op, a', s')
    requires v in s.acts && v != t && c in Held(s.acts[v])
    ensures c in s'.owner && s'.owner[c] == HeldBy(v) && v in s'.acts && s'.acts[v] == s.acts[v]
  {
    hide Flow, Held, CtxsAfter, RegistryAfter, HoldersAfter, QueuesAfter, OwnerAfter, GlobalAfter, LogAfter, Enabled;
    assert v in s'.acts && s'.acts[v] == s.acts[v];
    OwnerOf(s', v, c);
  }

  lemma InitOne(s: State, t: Tid, op: Op, a': Option<Activity>, s': State, c: Id)
    requires Inv(s) && OwnInv(s') && PhaseInv(s') && RefSound(s, t, op) && Step(s, t, op, a', s')
    requires Registered(s', c) && !s'.ctxs[c].init
    ensures c in s'.owner && s'.owner[c].HeldBy? && s'.owner[c].t in s'.acts && Creating(s'.acts[s'.owner[c].t])
  {
    hide Flow, Held, Owned, PhaseOk, CtxsAfter, RegistryAfter, HoldersAfter, QueuesAfter, OwnerAfter, GlobalAfter, LogAfter,
         LockInv, FlagInv, LifeInv, LogInv, Enabled, Creating;
    RegisteredAfter(s, t, op, c);
    if op.Create? && op.c == c {
      InitCreated(s, t, op, a', s', c);
    } else {
      ContextKeeps(s, op, s', c);
      assert Registered(s, c) && !s.ctxs[c].init;
      var v := s.owner[c].t;
      OwnerHolds(s, c);
      if v == t {
        FlowCreating(At(s.acts, t), op, a', c);
        assert t in s'.acts && s'.acts[t] == a'.value;
        CreatingStays(s', a'.value, c);
        OwnerOf(s', t, c);
      } else {
        OwnerKept(s, t, op, a', s', c, v);
      }
    }
  }

  lemma OwnerHolds(s: State, q: Id)
    requires OwnInv(s) && q in s.owner && s.owner[q].HeldBy?
    ensures s.owner[q].t in s.acts && q in Held(s.acts[s.owner[q].t])
  {
  }

  lemma InitCreated(s: State, t: Tid, op: Op, a': Option<Activity>, s': State, c: Id)
    requires OwnInv(s') && Step(s, t, op, a', s') && op.Create? && op.c == c
    ensures c in s'.owner && s'.owner[c] == HeldBy(t) && t in s'.acts && Creating(s'.acts[t])
  {
    hide Enabled, CtxsAfter, RegistryAfter, HoldersAfter, QueuesAfter, GlobalAfter, LogAfter, Owned;
  }

  lemma CreatingStays(s': State, a: Activity, c: Id)
    requires Creating(a) || a == Handing(c) || (a.Removed? && a.after == GiveUp(c)) || a == Absent(GiveUp(c))
    requires PhaseOk(s', a) && Registered(s', c) && !s'.ctxs[c].init
    ensures Creating(a)
  {
    hide Registered;
  }

  lemma InitStep(s: State, t: Tid, op: Op, a': Option<Activity>, s': State)
    requires Inv(s) && OwnInv(s') && PhaseInv(s') && RefSound(s, t, op) && Step(s, t, op, a', s')
    ensures InitInv(s')
  {
    hide Inv, OwnInv, PhaseInv, RefSound, Step;
    forall c | Registered(s', c) && !s'.ctxs[c].init
      ensures c in s'.owner && s'.owner[c].HeldBy? && s'.owner[c].t in s'.acts && Creating(s'.acts[s'.owner[c].t])
    {
      InitOne(s, t, op, a', s', c);
    }
  }

  //////////////////////////////////////////////////////////////////////////////
  // Whole runs
  //////////////////////////////////////////////////////////////////////////////

  /** Every step of the protocol keeps the invariant. */
  lemma InvStep(s: State, t: Tid, op: Op, a': Option<Activity>, s': State)
    requires Inv(s) && Step(s, t, op, a', s')
    ensures Inv(s')
  {
    hide LockInv, OwnInv, FlagInv, RefInv, LifeInv, LogInv, PhaseInv, InitInv, Flow, Enabled, Effect, Sound, RefSound;
    OpIsSound(s, t, op, a');
    RefIsSound(s, t, op, a');
    LockStep(s, t, op, a', s');
    OwnStep(s, t, op, a', s');
    FlagStep(s, t, op, a', s');
    RefStep(s, t, op, a', s');
    LifeStep(s, t, op, a', s');
    LogStep(s, t, op, a', s');
    PhaseStep(s, t, op, a', s');
    InitStep(s, t, op, a', s');
  }

  ghost predicate IsRun(run: seq<State>) {
    run != [] && run[0] == Initial && forall i | 0 <= i < |run| - 1 :: Next(run[i], run[i + 1])
  }

  /** The invariant holds in every state of every run. */
  lemma {:induction false} RunInv(run: seq<State>, i: nat)
    requires IsRun(run) && i < |run|
    ensures Inv(run[i])
  {
    hide Inv, Step;
    if i == 0 {
      InitialInv();
    } else {
      RunInv(run, i - 1);
      assert Next(run[i - 1], run[i - 1 + 1]);
      var t, op, a' :| Step(run[i - 1], t, op, a', run[i]);
      InvStep(run[i - 1], t, op, a', run[i]);
    }
  }

  /** In every reachable state a queue has at most one owner (an activity or one position of the
      global list), and it has one exactly when it is flagged as scheduled or marked for release. */
  lemma SingleOwner(run: seq<State>, i: nat, q: Id)
    requires IsRun(run) && i < |run|
    ensures forall t, u | t in run[i].acts && u in run[i].acts && q in Held(run[i].acts[t]) && q in Held(run[i].acts[u]) :: t == u
    ensures forall t | t in run[i].acts && q in Held(run[i].acts[t]) :: q !in run[i].global
    ensures forall j, k | 0 <= j < k < |run[i].global| :: run[i].global[j] != run[i].global[k]
    ensures q in run[i].queues ==>
      (run[i].queues[q].inGlobal || run[i].queues[q].release <==>
        q in run[i].global || exists t :: t in run[i].acts && q in Held(run[i].acts[t]))
  {
    hide Held, LockInv, RefInv, LifeInv, LogInv, PhaseInv, InitInv;
    RunInv(run, i);
    assert FlagsRight(run[i].owner, run[i].queues, q);
  }

  /** A callback runs only for the owner of the queue, after init succeeded, and on one worker. */
  lemma CallbackExclusive(run: seq<State>, i: nat, t: Tid, u: Tid)
    requires IsRun(run) && i < |run| && t in run[i].acts && u in run[i].acts
    requires run[i].acts[t].Running?
    ensures run[i].acts[t].c == run[i].acts[t].q && run[i].acts[t].c in run[i].ctxs && run[i].ctxs[run[i].acts[t].c].init
    ensures run[i].acts[u].Running? && run[i].acts[u].c == run[i].acts[t].c ==> u == t
    ensures u != t ==> run[i].acts[t].q !in Held(run[i].acts[u])
  {
    RunInv(run, i);
    assert PhaseOk(run[i], run[i].acts[t]);
    assert PhaseOk(run[i], run[i].acts[u]);
    assert run[i].acts[t].q in Held(run[i].acts[t]);
    OwnerOf(run[i], t, run[i].acts[t].q);
    hide LockInv, FlagInv, RefInv, LifeInv, LogInv, InitInv;
  }

  /** No lost wakeup: a queue with messages is in the global list or in some activity's hands. */
  lemma NoLostWakeup(run: seq<State>, i: nat, q: Id)
    requires IsRun(run) && i < |run| && q in run[i].queues && run[i].queues[q].messages != []
    ensures q in run[i].global || exists t :: t in run[i].acts && q in Held(run[i].acts[t])
  {
    hide Held, LockInv, RefInv, LifeInv, LogInv, PhaseInv, InitInv;
    RunInv(run, i);
    assert FlagsRight(run[i].owner, run[i].queues, q);
  }

  /** Every pushed message is delivered once, dropped once or still queued, in the order pushed. */
  lemma MessagesConserved(run: seq<State>, i: nat, q: Id)
    requires IsRun(run) && i < |run| && q in run[i].log
    ensures run[i].log[q].pushed == run[i].log[q].delivered + run[i].log[q].dropped
                                    + if q in run[i].queues then run[i].queues[q].messages else []
    ensures q in run[i].queues && !run[i].queues[q].release ==> run[i].log[q].dropped == []
  {
    hide LockInv, OwnInv, FlagInv, RefInv, LifeInv, PhaseInv, InitInv;
    RunInv(run, i);
    assert LogRight(run[i].log, run[i].queues, q);
  }

  //////////////////////////////////////////////////////////////////////////////
  // Callbacks
  //////////////////////////////////////////////////////////////////////////////

  /** Activity `a` is inside the callback for a message of queue `q`. */
  predicate Calls(a: Activity, q: Id) { a.Running? && a.q == q }

  /** What was popped from queue `q` is what its callbacks have handled, and then the message of the
      callback that is running. */
  ghost predicate CallsRight(s: State, q: Id) {
    q in s.log ==>
      && (forall t | t in s.acts && Calls(s.acts[t], q) :: s.log[q].delivered == s.log[q].handled + [s.acts[t].m])
      && ((forall t | t in s.acts :: !Calls(s.acts[t], q)) ==> s.log[q].delivered == s.log[q].handled)
  }

  /** A pop enters the callback of the message popped, and only the return of that callback leaves it. */
  lemma FlowCall(a: Option<Activity>, op: Op, a': Option<Activity>)
    requires Flow(a, op, a')
    ensures op.MqPop? <==> a'.Some? && a'.value.Running?
    ensures op.MqPop? ==> a'.value.q == op.q && a'.value.m == op.m && op.q in HeldO(a) && !a.value.Running?
    ensures op.Handled? <==> a.Some? && a.value.Running?
    ensures op.Handled? ==> a.value.q == op.q && a.value.m == op.m
  {
  }

  lemma CallerAlone(s: State, t: Tid, u: Tid, q: Id)
    requires Inv(s) && t in s.acts && u in s.acts && q in Held(s.acts[t]) && Calls(s.acts[u], q)
    ensures t == u
  {
    hide LockInv, RefInv, FlagInv, LifeInv, LogInv, PhaseInv, InitInv;
    OwnerOf(s, t, q);
    OwnerOf(s, u, q);
  }

  lemma CallerHolds(a: Activity)
    ensures a.Running? ==> a.q in Held(a)
  {
  }

  lemma CallerLogged(s: State, u: Tid, q: Id)
    requires Inv(s) && u in s.acts && Calls(s.acts[u], q)
    ensures q in s.log
  {
    hide LockInv, RefInv, LifeInv, PhaseInv, InitInv;
    assert q in Held(s.acts[u]);
    assert FlagsRight(s.owner, s.queues, q) && LogRight(s.log, s.queues, q);
  }

  lemma CallerLives(s: State, u: Tid, q: Id)
    requires Inv(s) && u in s.acts && Calls(s.acts[u], q)
    ensures q in s.queues && !s.queues[q].release
  {
    hide LockInv, OwnInv, RefInv, FlagInv, LogInv, InitInv;
    assert PhaseOk(s, s.acts[u]);
  }

  lemma CallsAfter(s: State, t: Tid, op: Op, a': Option<Activity>, s': State, q: Id, u: Tid)
    requires Flow(At(s.acts, t), op, a') && s'.acts == Replaced(s.acts, t, a')
    ensures u in s'.acts && Calls(s'.acts[u], q) ==>
      if u == t then op.MqPop? && op.q == q && s'.acts[u].m == op.m
      else u in s.acts && s.acts[u] == s'.acts[u]
    ensures u in s.acts && Calls(s.acts[u], q) && !(u in s'.acts && Calls(s'.acts[u], q)) ==>
      u == t && op == Handled(q, s.acts[u].m)
  {
    FlowCall(At(s.acts, t), op, a');
    hide Flow;
  }

  /** The history of queue `q` changes by the operations that name it. */
  lemma HistoryAfter(s: State, op: Op, q: Id)
    requires q in s.log && (op.Create? ==> op.c != q)
    ensures q in LogAfter(s, op)
    ensures LogAfter(s, op)[q].delivered == s.log[q].delivered + if op.MqPop? && op.q == q then [op.m] else []
    ensures LogAfter(s, op)[q].handled == s.log[q].handled + if op.Handled? && op.q == q then [op.m] else []
  {
  }

  lemma CallsRunning(s: State, t: Tid, op: Op, a': Option<Activity>, s': State, q: Id, u: Tid)
    requires Inv(s) && Flow(At(s.acts, t), op, a') && CallsRight(s, q) && (op.Create? ==> op.c !in s.log)
    requires s'.acts == Replaced(s.acts, t, a') && s'.log == LogAfter(s, op)
    requires q in s.log && u in s'.acts && Calls(s'.acts[u], q)
    ensures s'.log[q].delivered == s'.log[q].handled + [s'.acts[u].m]
  {
    hide Inv, Flow, LogAfter, Held;
    FlowCall(At(s.acts, t), op, a');
    CallsAfter(s, t, op, a', s', q, u);
    HistoryAfter(s, op, q);
    if u == t {
      forall v | v in s.acts
        ensures !Calls(s.acts[v], q)
      {
        if Calls(s.acts[v], q) {
          CallerAlone(s, t, v, q);
        }
      }
    } else if op.MqPop? && op.q == q {
      CallerAlone(s, t, u, q);
    } else if op.Handled? && op.q == q {
      CallerHolds(s.acts[t]);
      CallerAlone(s, t, u, q);
    }
  }

  lemma CallsQuiet(s: State, t: Tid, op: Op, a': Option<Activity>, s': State, q: Id)
    requires Flow(At(s.acts, t), op, a') && CallsRight(s, q) && (op.Create? ==> op.c !in s.log)
    requires s'.acts == Replaced(s.acts, t, a') && s'.log == LogAfter(s, op)
    requires q in s.log && forall u | u in s'.acts :: !Calls(s'.acts[u], q)
    ensures s'.log[q].delivered == s'.log[q].handled
  {
    hide Flow, LogAfter;
    FlowCall(At(s.acts, t), op, a');
    HistoryAfter(s, op, q);
    if u :| u in s.acts && Calls(s.acts[u], q) {
      CallsAfter(s, t, op, a', s', q, u);
    } else {
      assert op.MqPop? ==> t in s'.acts && s'.acts[t].q == op.q;
    }
  }

  lemma LogStarts(s: State, a: Option<Activity>, op: Op, q: Id)
    requires Enabled(s, a, op)
    ensures op.Create? ==> op.c !in s.log
    ensures q !in s.log && q in LogAfter(s, op) ==> op.Create? && LogAfter(s, op)[q] == Log([], [], [], [])
  {
  }

  lemma CallsOne(s: State, t: Tid, op: Op, a': Option<Activity>, s': State, q: Id)
    requires Inv(s) && Step(s, t, op, a', s') && CallsRight(s, q)
    ensures CallsRight(s', q)
  {
    LogStarts(s, At(s.acts, t), op, q);
    hide Inv, Flow, Enabled, LogAfter, CtxsAfter, QueuesAfter, OwnerAfter, HoldersAfter, GlobalAfter, RegistryAfter;
    forall u | u in s'.acts && q in s'.log && Calls(s'.acts[u], q)
      ensures s'.log[q].delivered == s'.log[q].handled + [s'.acts[u].m]
    {
      if q !in s.log {
        CallsAfter(s, t, op, a', s', q, u);
        CallerLogged(s, u, q);
      }
      CallsRunning(s, t, op, a', s', q, u);
    }
    if q in s.log && forall u | u in s'.acts :: !Calls(s'.acts[u], q) {
      CallsQuiet(s, t, op, a', s', q);
    }
  }

  lemma {:induction false} RunCalls(run: seq<State>, i: nat, q: Id)
    requires IsRun(run) && i < |run|
    ensures CallsRight(run[i], q)
  {
    hide Inv, Step;
    if i > 0 {
      RunCalls(run, i - 1, q);
      RunInv(run, i - 1);
      assert Next(run[i - 1], run[i - 1 + 1]);
      var t, op, a' :| Step(run[i - 1], t, op, a', run[i]);
      CallsOne(run[i - 1], t, op, a', run[i], q);
    }
  }

  /** Every message taken out for delivery is handled by a callback, one at a time and in order:
      what was pushed is what the callbacks have handled, then the message of the callback that is
      running, then what was dropped, then what is still queued. */
  lemma CallbacksInOrder(run: seq<State>, i: nat, q: Id)
    requires IsRun(run) && i < |run| && q in run[i].log
    ensures forall t | t in run[i].acts && Calls(run[i].acts[t], q) ::
      && run[i].log[q].delivered == run[i].log[q].handled + [run[i].acts[t].m]
      && q in run[i].queues
      && run[i].log[q].pushed == run[i].log[q].handled + [run[i].acts[t].m] + run[i].queues[q].messages
    ensures (forall t | t in run[i].acts :: !Calls(run[i].acts[t], q)) ==>
      && run[i].log[q].delivered == run[i].log[q].handled
      && run[i].log[q].pushed == run[i].log[q].handled + run[i].log[q].dropped
                                 + if q in run[i].queues then run[i].queues[q].messages else []
  {
    hide Inv, IsRun;
    MessagesConserved(run, i, q);
    RunCalls(run, i, q);
    RunInv(run, i);
    forall t | t in run[i].acts && Calls(run[i].acts[t], q)
      ensures q in run[i].queues && !run[i].queues[q].release
    {
      CallerLives(run[i], t, q);
    }
  }

  /** A sender that has found the service appends its message to the queue before it does anything else. */
  lemma SenderPushes(run: seq<State>, i: nat, t: Tid)
    requires IsRun(run) && i + 1 < |run| && t in run[i].acts && run[i].acts[t].Pushing?
    requires At(run[i + 1].acts, t) != At(run[i].acts, t)
    ensures run[i].acts[t].c in run[i].log && run[i].acts[t].c in run[i + 1].log
    ensures run[i + 1].log[run[i].acts[t].c].pushed == run[i].log[run[i].acts[t].c].pushed + [run[i].acts[t].m]
  {
    hide Flow, Enabled, Inv, CtxsAfter, QueuesAfter, OwnerAfter, HoldersAfter, GlobalAfter, RegistryAfter;
    var s, c := run[i], run[i].acts[t].c;
    assert Next(s, run[i + 1]);
    var u, op, a' :| Step(s, u, op, a', run[i + 1]);
    assert u == t;
    FlowPushing(At(s.acts, t), op, a');
    OperationsSafe(run, i, t, op, a', run[i + 1]);
    RunInv(run, i);
    QueueLogged(s, c);
  }

  lemma FlowPushing(a: Option<Activity>, op: Op, a': Option<Activity>)
    requires Flow(a, op, a') && a.Some? && a.value.Pushing?
    ensures op == MqPush(a.value.c, a.value.m)
  {
  }

  lemma QueueLogged(s: State, q: Id)
    requires Inv(s) && q in s.queues
    ensures q in s.log
  {
    hide LockInv, OwnInv, FlagInv, RefInv, LifeInv, PhaseInv, InitInv;
    assert LogRight(s.log, s.queues, q);
  }

  //////////////////////////////////////////////////////////////////////////////
  // Progress
  //////////////////////////////////////////////////////////////////////////////

  ghost predicate CanStep(s: State, t: Tid) {
    exists op, a' :: Flow(At(s.acts, t), op, a') && Enabled(s, At(s.acts, t), op)
  }

  /** The registry lock keeps activity `a` waiting. */
  ghost predicate Waits(s: State, a: Activity) {
    || (a.Asking? && !NoWriter(s))
    || (a.Retiring? && !(NoWriter(s) && NoReader(s)))
  }

  /** What activity `a` does next. */
  function NextOp(s: State, a: Activity): (Op, Option<Activity>) {
    match a
    case Idle => if s.global == [] then (PopGlobalEmpty, Some(a)) else (PopGlobal(s.global[0]), Some(Asking(Dispatch(s.global[0]))))
    case Popping(q, c) =>
      if q in s.queues && s.queues[q].messages != []
      then (MqPop(q, s.queues[q].messages[0]), Some(Running(q, c, s.queues[q].messages[0])))
      else (MqPopEmpty(q), Some(Releasing(c, NextQueue)))
    case Running(q, c, m) => (Handled(q, m), Some(Popping(q, c)))
    case Swapping(q, c) =>
      if s.global == [] then (PopGlobalEmpty, Some(Releasing(c, Resume(q)))) else (PopGlobal(s.global[0]), Some(Returning(q, s.global[0], c)))
    case Returning(q, nq, c) => (PushGlobal(q), Some(Releasing(c, Resume(nq))))
    case Abandoning(q, w) =>
      if q in s.queues && s.queues[q].release then (MarkedForRelease(q), Some(Dropping(q, w))) else (PushBack(q), AfterAbandon(w))
    case Dropping(q, w) =>
      if q in s.queues && s.queues[q].messages != [] then (Drop(q, s.queues[q].messages[0]), Some(a)) else (Free(q), AfterAbandon(w))
    case Asking(p) => (EnterRead, Some(Reading(p)))
    case Reading(p) =>
      var h := if p.Dispatch? then (if p.q in s.queues then s.queues[p.q].handle else 0) else p.handle;
      if h in s.registry then (Lookup(h, Some(s.registry[h])), Some(Found(s.registry[h], p))) else (Lookup(h, None), Some(Leaving(None, p)))
    case Found(c, p) => (Grab(c), Some(Leaving(Some(c), p)))
    case Leaving(None, p) => (LeaveRead, if p.Dispatch? then Some(Abandoning(p.q, true)) else None)
    case Leaving(Some(c), p) =>
      (LeaveRead, Some(match p case Dispatch(q) => Popping(q, c) case Deliver(_, m) => Pushing(c, m) case Inspect(_) => Releasing(c, Finish)))
    case Pushing(c, m) => (MqPush(c, m), Some(Releasing(c, Finish)))
    case Releasing(c, after) =>
      if c in s.ctxs && s.ctxs[c].ref == 1 then (ReleaseLast(c), Some(Deleting(c, after))) else (Release(c), Continue(after, false))
    case Deleting(c, after) => (MarkRelease(c), Continue(after, true))
    case Linking(c, h) => (Link(c), Some(Initing(c, h)))
    case Initing(c, _) => (Local, Some(Releasing(c, Launch(c))))
    case Launching(q) => (MarkInit(q), Some(Handing(q)))
    case Handing(q) => (PushGlobal(q), None)
    case Retiring(h, after) => (EnterWrite, Some(Writing(h, after)))
    case Writing(h, after) =>
      if h in s.registry then (Unregister(h, s.registry[h]), Some(Removed(s.registry[h], after))) else (Lookup(h, None), Some(Absent(after)))
    case Removed(c, after) => (LeaveWrite, Some(Releasing(c, after)))
    case Absent(after) => (LeaveWrite, Continue(after, true))
  }

  lemma NextFlows(s: State, a: Activity)
    ensures Flow(Some(a), NextOp(s, a).0, NextOp(s, a).1)
  {
  }

  lemma NextEnabled(s: State, a: Activity)
    requires forall q | q in Held(a) :: q in s.queues
    requires !Waits(s, a)
    ensures Enabled(s, Some(a), NextOp(s, a).0)
  {
  }

  lemma HeldQueues(s: State, t: Tid)
    requires Inv(s) && t in s.acts
    ensures forall q | q in Held(s.acts[t]) :: q in s.queues
  {
    hide LockInv, RefInv, LifeInv, LogInv, PhaseInv, InitInv, Held;
    forall q | q in Held(s.acts[t])
      ensures q in s.queues
    {
      assert FlagsRight(s.owner, s.queues, q);
    }
  }

  lemma WaitingStuck(s: State, t: Tid)
    requires t in s.acts && Waits(s, s.acts[t])
    ensures !CanStep(s, t)
  {
  }

  lemma Unblocked(s: State, t: Tid)
    requires Inv(s) && t in s.acts && !Waits(s, s.acts[t])
    ensures CanStep(s, t)
  {
    hide Inv, Flow, Enabled, NextOp, Waits, Held;
    HeldQueues(s, t);
    NextFlows(s, s.acts[t]);
    NextEnabled(s, s.acts[t]);
    var next := NextOp(s, s.acts[t]);
    assert Flow(At(s.acts, t), next.0, next.1) && Enabled(s, At(s.acts, t), next.0);
  }

  /** No deadlock: in every reachable state every activity can go on, except one that waits for the
      registry lock while some other activity is under the lock, and that one can go on. */
  lemma NeverStuck(run: seq<State>, i: nat, t: Tid)
    requires IsRun(run) && i < |run| && t in run[i].acts
    ensures CanStep(run[i], t) <==> !Waits(run[i], run[i].acts[t])
    ensures Waits(run[i], run[i].acts[t]) ==>
      exists u :: u in run[i].acts && (InRead(run[i].acts[u]) || InWrite(run[i].acts[u])) && CanStep(run[i], u)
  {
    RunInv(run, i);
    hide Inv, IsRun, CanStep;
    if Waits(run[i], run[i].acts[t]) {
      WaitingStuck(run[i], t);
      var u :| u in run[i].acts && (InRead(run[i].acts[u]) || InWrite(run[i].acts[u]));
      Unblocked(run[i], u);
    } else {
      Unblocked(run[i], t);
    }
  }


  /** A reference count is the number of activities with a reference, plus one while registered. */
  lemma RefCounts(run: seq<State>, i: nat, c: Id)
    requires IsRun(run) && i < |run| && c in run[i].ctxs
    ensures run[i].ctxs[c].ref ==
      |set t | t in run[i].acts && RefOf(run[i].acts[t]) == Some(c)| + if Registered(run[i], c) then 1 else 0
  {
    hide RefOf, LockInv, OwnInv, FlagInv, LifeInv, LogInv, PhaseInv, InitInv;
    RunInv(run, i);
    var s := run[i];
    var refs := set t | t in s.acts && RefOf(s.acts[t]) == Some(c);
    forall t: Tid
      ensures t in refs <==> t in Holders(s, c)
    {
      assert CountedRight(s, c, t);
    }
    assert refs == Holders(s, c) && CountRight(s, c);
  }

  /** What every operation of a reachable state meets: the assertions and the lifetimes of the code, but
      for the two accesses of a service in creation that `InitWriteSafe` and `QueueUseSafe` are about. */
  lemma OperationsSafe(run: seq<State>, i: nat, t: Tid, op: Op, a': Option<Activity>, s': State)
    requires IsRun(run) && i < |run| && Step(run[i], t, op, a', s')
    // a context is grabbed or released only while it is alive and counted
    ensures op.Grab? || op.Release? || op.ReleaseLast? ==> op.c in run[i].ctxs && run[i].ctxs[op.c].ref >= 1
    // a context is deleted when nothing refers to it, and its queue was not marked before
    ensures op.MarkRelease? ==>
      && op.c in run[i].ctxs && run[i].ctxs[op.c].ref == 0 && !Registered(run[i], op.c)
      && op.c in run[i].queues && !run[i].queues[op.c].release
    // a queue enters the global list only when it is not in it
    ensures Appended(run[i], op).Some? ==> Appended(run[i], op).value !in run[i].global
    // messages go only into the queue of a live context
    ensures op.MqPush? ==> op.q in run[i].queues && op.q in run[i].ctxs
    // a queue is freed only after it was marked and drained
    ensures op.Free? ==> op.q in run[i].queues && run[i].queues[op.q].release && op.q !in run[i].ctxs && run[i].queues[op.q].messages == []
  {
    hide Flow, Enabled, Effect, OwnInv, FlagInv, RefInv, LogInv, PhaseInv, InitInv, LockInv;
    RunInv(run, i);
    var s := run[i];
    OpIsSound(s, t, op, a');
    RefIsSound(s, t, op, a');
    if Appended(s, op).Some? {
      AppendedUnowned(s, t, op, a');
      AppendedNotListed(s, t, op, a');
    }
  }

  lemma AppendedNotListed(s: State, t: Tid, op: Op, a': Option<Activity>)
    requires OwnInv(s) && Flow(At(s.acts, t), op, a') && Appended(s, op).Some?
    requires Appended(s, op).value in Lost(op) || Appended(s, op).value !in s.owner
    ensures Appended(s, op).value !in s.global
  {
    FlowHeldSubject(At(s.acts, t), op, a');
    hide Flow, Held;
    if Appended(s, op).value in Lost(op) {
      OwnerOf(s, t, Appended(s, op).value);
    }
  }

  /** A context or a queue that is gone never comes back. */
  lemma {:induction false} GoneForGood(run: seq<State>, i: nat, j: nat, c: Id)
    requires IsRun(run) && i <= j < |run| && c in run[i].log
    ensures c in run[j].log
    ensures c !in run[i].ctxs ==> c !in run[j].ctxs
    ensures c !in run[i].queues ==> c !in run[j].queues
    decreases j
  {
    hide Step;
    if i < j {
      GoneForGood(run, i, j - 1, c);
      assert Next(run[j - 1], run[j - 1 + 1]);
      var t, op, a' :| Step(run[j - 1], t, op, a', run[j]);
      GoneStep(run[j - 1], t, op, a', run[j], c);
    }
  }

  lemma GoneStep(s: State, t: Tid, op: Op, a': Option<Activity>, s': State, c: Id)
    requires Step(s, t, op, a', s') && c in s.log
    ensures c in s'.log && (c !in s.ctxs ==> c !in s'.ctxs) && (c !in s.queues ==> c !in s'.queues)
  {
    hide Flow, CtxsAfter, RegistryAfter, HoldersAfter, QueuesAfter, OwnerAfter, GlobalAfter;
    ContextOf(s, op, c);
    QueueOf(s, op, c);
  }

  //////////////////////////////////////////////////////////////////////////////
  // The write of the init flag
  //////////////////////////////////////////////////////////////////////////////

  /** Some activity is deleting `c`. */
  ghost predicate InDeletion(s: State, c: Id) {
    exists t :: t in s.acts && s.acts[t].Deleting? && s.acts[t].c == c
  }

  /** A context without references is being deleted. */
  ghost predicate ZeroRight(s: State, c: Id) {
    c in s.ctxs && s.ctxs[c].ref == 0 ==> InDeletion(s, c)
  }

  /** Deletion starts with the release of the last reference and ends with the marking of the queue. */
  lemma FlowDeletion(a: Option<Activity>, op: Op, a': Option<Activity>)
    requires Flow(a, op, a')
    ensures op.ReleaseLast? ==> a'.Some? && a'.value.Deleting? && a'.value.c == op.c
    ensures a.Some? && a.value.Deleting? ==> op == MarkRelease(a.value.c)
  {
  }

  lemma ZeroOne(s: State, t: Tid, op: Op, a': Option<Activity>, s': State, c: Id)
    requires Inv(s) && Step(s, t, op, a', s') && ZeroRight(s, c)
    ensures ZeroRight(s', c)
  {
    hide Inv, Flow, CtxsAfter, QueuesAfter, OwnerAfter, HoldersAfter, LogAfter, GlobalAfter, RegistryAfter;
    RefIsSound(s, t, op, a');
    FlowDeletion(At(s.acts, t), op, a');
    ContextOf(s, op, c);
    assert op == Release(c) && c in s.ctxs ==> s.ctxs[c].ref != 1;
    hide Enabled;
    if op == ReleaseLast(c) {
      assert t in s'.acts && s'.acts[t].Deleting? && s'.acts[t].c == c;
    } else if InDeletion(s, c) {
      var u :| u in s.acts && s.acts[u].Deleting? && s.acts[u].c == c;
      if u != t {
        assert u in s'.acts && s'.acts[u] == s.acts[u];
      }
    }
  }

  lemma {:induction false} RunZero(run: seq<State>, i: nat, c: Id)
    requires IsRun(run) && i < |run|
    ensures ZeroRight(run[i], c)
  {
    hide Inv, Step;
    if i > 0 {
      RunZero(run, i - 1, c);
      RunInv(run, i - 1);
      assert Next(run[i - 1], run[i - 1 + 1]);
      var t, op, a' :| Step(run[i - 1], t, op, a', run[i]);
      ZeroOne(run[i - 1], t, op, a', run[i], c);
    }
  }

  /** Some activity has a counted reference to `c`. */
  ghost predicate Referenced(s: State, c: Id) {
    exists t :: t in s.acts && RefOf(s.acts[t]) == Some(c)
  }

  /** A context exists exactly while it is registered, referred to or being deleted. */
  lemma ContextAlive(run: seq<State>, i: nat, c: Id)
    requires IsRun(run) && i < |run|
    ensures c in run[i].ctxs <==> Registered(run[i], c) || Referenced(run[i], c) || InDeletion(run[i], c)
  {
    RunInv(run, i);
    RunZero(run, i, c);
    var s := run[i];
    hide Next, RefOf, LockInv, OwnInv, FlagInv, LogInv, PhaseInv, InitInv;
    if Referenced(s, c) {
      var t :| t in s.acts && RefOf(s.acts[t]) == Some(c);
      assert CountedRight(s, c, t);
    }
    if c in s.ctxs && !Registered(s, c) && !Referenced(s, c) {
      forall t: Tid ensures t !in Holders(s, c) {
        assert CountedRight(s, c, t);
      }
      assert Holders(s, c) == {} && CountRight(s, c);
    }
  }

  /** The flag is written without a reference: the context is there exactly while it is registered,
      somebody else refers to it or it is being deleted. */
  lemma InitWriteSafe(run: seq<State>, i: nat, t: Tid, c: Id, a': Option<Activity>, s': State)
    requires IsRun(run) && i < |run| && Step(run[i], t, MarkInit(c), a', s')
    ensures t in run[i].acts && run[i].acts[t] == Launching(c) && RefOf(run[i].acts[t]) == None
    ensures c in run[i].ctxs <==> Registered(run[i], c) || Referenced(run[i], c) || InDeletion(run[i], c)
  {
    ContextAlive(run, i, c);
    hide IsRun;
  }

  /** A step that takes the handle of `c` out of the registry. */
  ghost predicate Unregisters(s: State, s': State, c: Id) {
    exists t, h, a' :: Step(s, t, Unregister(h, c), a', s')
  }

  lemma RegisteredStays(s: State, t: Tid, op: Op, a': Option<Activity>, s': State, c: Id)
    requires Inv(s) && Step(s, t, op, a', s') && c in s'.log
    requires c !in s.log || Registered(s, c)
    ensures Registered(s', c) || (op.Unregister? && op.c == c)
  {
    RefIsSound(s, t, op, a');
    hide Inv, Flow, QueuesAfter, OwnerAfter, HoldersAfter, GlobalAfter, Enabled;
    ContextOf(s, op, c);
    hide CtxsAfter;
    assert RefInv(s) by {
      RefPart(s);
    }
    if c in CtxsAfter(s, op) {
      RegisteredAfter(s, t, op, c);
    }
  }

  lemma RefPart(s: State)
    requires Inv(s)
    ensures RefInv(s)
  {
  }

  /** As long as nobody retires it, a context stays registered from its creation on. */
  lemma {:induction false} UnretiredRegistered(run: seq<State>, i: nat, c: Id)
    requires IsRun(run) && i < |run| && c in run[i].log
    requires forall j | 0 <= j < i :: !Unregisters(run[j], run[j + 1], c)
    ensures Registered(run[i], c)
  {
    hide Inv, Step;
    if i > 0 {
      if c in run[i - 1].log {
        UnretiredRegistered(run, i - 1, c);
      }
      RunInv(run, i - 1);
      assert Next(run[i - 1], run[i - 1 + 1]) && !Unregisters(run[i - 1], run[i - 1 + 1], c);
      var t, op, a' :| Step(run[i - 1], t, op, a', run[i]);
      RegisteredStays(run[i - 1], t, op, a', run[i], c);
    }
  }

  /** So the write is safe in every run in which no retirement of the context came first. */
  lemma InitWriteUnretired(run: seq<State>, i: nat, t: Tid, c: Id)
    requires IsRun(run) && i < |run| && t in run[i].acts && run[i].acts[t] == Launching(c)
    requires forall j | 0 <= j < i :: !Unregisters(run[j], run[j + 1], c)
    ensures c in run[i].ctxs && Registered(run[i], c)
  {
    RunInv(run, i);
    LaunchingLogged(run[i], t, c);
    hide Inv, IsRun, Unregisters;
    UnretiredRegistered(run, i, c);
  }

  lemma LaunchingLogged(s: State, t: Tid, c: Id)
    requires Inv(s) && t in s.acts && s.acts[t] == Launching(c)
    ensures c in s.log
  {
    hide LockInv, RefInv, LifeInv, PhaseInv, InitInv;
    assert c in Held(s.acts[t]);
    assert FlagsRight(s.owner, s.queues, c) && LogRight(s.log, s.queues, c);
  }

  /** Context 0 under handle 5, created by activity 1 and retired by activity 2. */
  ghost predicate Stage(s: State, registry: map<Handle, Id>, ref: int, linked: bool, a: Activity, b: Option<Activity>) {
    && s.registry == registry && s.ctxs == map[0 := Context(5, ref, false, linked)]
    && s.acts == if b.Some? then map[1 := a, 2 := b.value] else map[1 := a]
  }

  /** An operation that can happen leads to a next state. */
  lemma Advance(s: State, t: Tid, op: Op, a': Option<Activity>) returns (s': State)
    requires Flow(At(s.acts, t), op, a') && Enabled(s, At(s.acts, t), op)
    ensures Next(s, s') && s'.registry == RegistryAfter(s, op) && s'.ctxs == CtxsAfter(s, op)
    ensures s'.acts == Replaced(s.acts, t, a')
  {
    hide Flow, Enabled, RegistryAfter, CtxsAfter, QueuesAfter, GlobalAfter, OwnerAfter, HoldersAfter, LogAfter;
    s' := Effect(s, t, op, a');
    assert Step(s, t, op, a', s');
  }

  lemma CreateFirst(s: State) returns (s': State)
    requires s == Initial
    ensures Next(s, s') && Stage(s', map[5 := 0], 2, false, Linking(0, 5), None)
  {
    hide Next;
    s' := Advance(s, 1, Create(0, 5), Some(Linking(0, 5)));
  }

  lemma LateLink(s: State) returns (s': State)
    requires Stage(s, map[5 := 0], 2, false, Linking(0, 5), None)
    ensures Next(s, s') && Stage(s', map[5 := 0], 2, true, Initing(0, 5), None)
  {
    hide Next;
    s' := Advance(s, 1, Link(0), Some(Initing(0, 5)));
  }

  lemma LateInit(s: State) returns (s': State)
    requires Stage(s, map[5 := 0], 2, true, Initing(0, 5), None)
    ensures Next(s, s') && Stage(s', map[5 := 0], 2, true, Releasing(0, Launch(0)), None)
  {
    hide Next;
    s' := Advance(s, 1, Local, Some(Releasing(0, Launch(0))));
  }

  lemma LateRelease(s: State) returns (s': State)
    requires Stage(s, map[5 := 0], 2, true, Releasing(0, Launch(0)), None)
    ensures Next(s, s') && Stage(s', map[5 := 0], 1, true, Launching(0), None)
  {
    hide Next;
    s' := Advance(s, 1, Release(0), Some(Launching(0)));
  }

  lemma LateRetire(s: State) returns (s': State)
    requires Stage(s, map[5 := 0], 1, true, Launching(0), None)
    ensures Next(s, s') && Stage(s', map[5 := 0], 1, true, Launching(0), Some(Retiring(5, Finish)))
  {
    hide Next;
    s' := Advance(s, 2, Local, Some(Retiring(5, Finish)));
  }

  lemma LateEnter(s: State) returns (s': State)
    requires Stage(s, map[5 := 0], 1, true, Launching(0), Some(Retiring(5, Finish)))
    ensures Next(s, s') && Stage(s', map[5 := 0], 1, true, Launching(0), Some(Writing(5, Finish)))
  {
    hide Next;
    s' := Advance(s, 2, EnterWrite, Some(Writing(5, Finish)));
  }

  lemma LateUnregister(s: State) returns (s': State)
    requires Stage(s, map[5 := 0], 1, true, Launching(0), Some(Writing(5, Finish)))
    ensures Next(s, s') && Stage(s', map[], 1, true, Launching(0), Some(Removed(0, Finish)))
  {
    hide Next;
    s' := Advance(s, 2, Unregister(5, 0), Some(Removed(0, Finish)));
  }

  lemma LateLeave(s: State) returns (s': State)
    requires Stage(s, map[], 1, true, Launching(0), Some(Removed(0, Finish)))
    ensures Next(s, s') && Stage(s', map[], 1, true, Launching(0), Some(Releasing(0, Finish)))
  {
    hide Next;
    s' := Advance(s, 2, LeaveWrite, Some(Releasing(0, Finish)));
  }

  lemma LateLast(s: State) returns (s': State)
    requires Stage(s, map[], 1, true, Launching(0), Some(Releasing(0, Finish)))
    ensures Next(s, s') && Stage(s', map[], 0, true, Launching(0), Some(Deleting(0, Finish)))
  {
    hide Next;
    s' := Advance(s, 2, ReleaseLast(0), Some(Deleting(0, Finish)));
  }

  lemma LateDelete(s: State) returns (s': State)
    requires Stage(s, map[], 0, true, Launching(0), Some(Deleting(0, Finish)))
    ensures Next(s, s') && s'.acts == map[1 := Launching(0)] && 0 !in s'.ctxs
  {
    hide Next;
    s' := Advance(s, 2, MarkRelease(0), None);
  }

  /** A retirement between the release and the write does leave the creator with a deleted context. */
  lemma InitWriteLate() returns (run: seq<State>)
    ensures IsRun(run) && |run| == 11
    ensures run[10].acts == map[1 := Launching(0)] && 0 !in run[10].ctxs
  {
    hide Next, Stage;
    var s1 := CreateFirst(Initial);
    var s2 := LateLink(s1);
    var s3 := LateInit(s2);
    var s4 := LateRelease(s3);
    var s5 := LateRetire(s4);
    var s6 := LateEnter(s5);
    var s7 := LateUnregister(s6);
    var s8 := LateLeave(s7);
    var s9 := LateLast(s8);
    var s10 := LateDelete(s9);
    run := [Initial, s1, s2, s3, s4, s5, s6, s7, s8, s9, s10];
  }

  //////////////////////////////////////////////////////////////////////////////
  // The queue of a context that is just being created
  //////////////////////////////////////////////////////////////////////////////

  /** The creator of `c` has registered it and not stored its queue yet. */
  ghost predicate InLinking(s: State, c: Id) {
    exists t :: t in s.acts && s.acts[t].Linking? && s.acts[t].c == c
  }

  /** A context lacks its queue exactly while its creator is about to store it. */
  ghost predicate LinkRight(s: State, c: Id) {
    InLinking(s, c) <==> c in s.ctxs && !s.ctxs[c].linked
  }

  lemma FlowLinking(a: Option<Activity>, op: Op, a': Option<Activity>)
    requires Flow(a, op, a')
    ensures a'.Some? && a'.value.Linking? ==> op.Create? && op.c == a'.value.c
    ensures op.Create? ==> a.None? && a'.Some? && a'.value.Linking? && a'.value.c == op.c
    ensures a.Some? && a.value.Linking? ==> op == Link(a.value.c) && Held(a.value) == {a.value.c}
    ensures op.Link? ==> a.Some? && a.value.Linking? && a.value.c == op.c && a'.Some? && !a'.value.Linking?
  {
  }

  lemma LinkedAfter(s: State, op: Op, c: Id)
    ensures c in CtxsAfter(s, op) ==>
      CtxsAfter(s, op)[c].linked == if op.Create? && op.c == c then false else s.ctxs[c].linked || op == Link(c)
  {
  }

  lemma LinkOne(s: State, t: Tid, op: Op, a': Option<Activity>, s': State, c: Id)
    requires Inv(s) && Step(s, t, op, a', s') && LinkRight(s, c)
    ensures LinkRight(s', c)
  {
    hide Inv, Flow, Held, CtxsAfter, QueuesAfter, OwnerAfter, HoldersAfter, LogAfter, GlobalAfter, RegistryAfter, Enabled;
    RefIsSound(s, t, op, a');
    FlowLinking(At(s.acts, t), op, a');
    ContextOf(s, op, c);
    LinkedAfter(s, op, c);
    if InLinking(s, c) {
      var u :| u in s.acts && s.acts[u].Linking? && s.acts[u].c == c;
      LinkerCounted(s, u, c);
      if u != t {
        assert u in s'.acts && s'.acts[u] == s.acts[u];
      }
    }
    if InLinking(s', c) {
      var u :| u in s'.acts && s'.acts[u].Linking? && s'.acts[u].c == c;
      if u != t {
        assert u in s.acts && s.acts[u] == s'.acts[u];
        if op == Link(c) {
          LinkerAlone(s, t, u, c);
        }
      }
    }
    if op.Create? && op.c == c {
      assert t in s'.acts && s'.acts[t].Linking? && s'.acts[t].c == c;
    }
  }

  lemma LinkerCounted(s: State, u: Tid, c: Id)
    requires Inv(s) && u in s.acts && s.acts[u].Linking? && s.acts[u].c == c
    ensures c in s.ctxs && u in Holders(s, c) && s.ctxs[c].ref >= 1
  {
    hide LockInv, OwnInv, FlagInv, LifeInv, LogInv, PhaseInv, InitInv;
    assert CountedRight(s, c, u) && CountRight(s, c);
  }

  lemma LinkerAlone(s: State, t: Tid, u: Tid, c: Id)
    requires Inv(s) && t in s.acts && u in s.acts && s.acts[t].Linking? && s.acts[u].Linking?
    requires s.acts[t].c == c && s.acts[u].c == c
    ensures t == u
  {
    assert c in Held(s.acts[t]) && c in Held(s.acts[u]);
    hide Held, LockInv, RefInv, FlagInv, LifeInv, LogInv, PhaseInv, InitInv;
    OwnerOf(s, t, c);
    OwnerOf(s, u, c);
  }

  lemma {:induction false} RunLink(run: seq<State>, i: nat, c: Id)
    requires IsRun(run) && i < |run|
    ensures LinkRight(run[i], c)
  {
    hide Inv, Step;
    if i > 0 {
      RunLink(run, i - 1, c);
      RunInv(run, i - 1);
      assert Next(run[i - 1], run[i - 1 + 1]);
      var t, op, a' :| Step(run[i - 1], t, op, a', run[i]);
      LinkOne(run[i - 1], t, op, a', run[i], c);
    }
  }

  /** Who goes through the queue of a context finds it there exactly when the creator is past storing
      it; deletion always does, because the creator has a reference until then. */
  lemma QueueUseSafe(run: seq<State>, i: nat, t: Tid, op: Op, a': Option<Activity>, s': State)
    requires IsRun(run) && i < |run| && Step(run[i], t, op, a', s')
    ensures op.MqPush? ==> op.q in run[i].ctxs && (run[i].ctxs[op.q].linked <==> !InLinking(run[i], op.q))
    ensures op.MarkRelease? ==> op.c in run[i].ctxs && run[i].ctxs[op.c].linked
  {
    RunInv(run, i);
    OperationsSafe(run, i, t, op, a', s');
    var s := run[i];
    if op.MqPush? {
      RunLink(run, i, op.q);
    }
    hide Inv, Step, IsRun;
    if op.MarkRelease? {
      RunLink(run, i, op.c);
      if InLinking(s, op.c) {
        var u :| u in s.acts && s.acts[u].Linking? && s.acts[u].c == op.c;
        LinkerCounted(s, u, op.c);
      }
    }
  }

  const EarlyMessage := Message(1, 0, 0)
  const EarlyPurpose := Deliver(5, EarlyMessage)

  lemma EarlyAsk(s: State) returns (s': State)
    requires Stage(s, map[5 := 0], 2, false, Linking(0, 5), None)
    ensures Next(s, s') && Stage(s', map[5 := 0], 2, false, Linking(0, 5), Some(Asking(EarlyPurpose)))
  {
    hide Next;
    s' := Advance(s, 2, Local, Some(Asking(EarlyPurpose)));
  }

  lemma EarlyEnter(s: State) returns (s': State)
    requires Stage(s, map[5 := 0], 2, false, Linking(0, 5), Some(Asking(EarlyPurpose)))
    ensures Next(s, s') && Stage(s', map[5 := 0], 2, false, Linking(0, 5), Some(Reading(EarlyPurpose)))
  {
    hide Next;
    s' := Advance(s, 2, EnterRead, Some(Reading(EarlyPurpose)));
  }

  lemma EarlyLookup(s: State) returns (s': State)
    requires Stage(s, map[5 := 0], 2, false, Linking(0, 5), Some(Reading(EarlyPurpose)))
    ensures Next(s, s') && Stage(s', map[5 := 0], 2, false, Linking(0, 5), Some(Found(0, EarlyPurpose)))
  {
    hide Next;
    s' := Advance(s, 2, Lookup(5, Some(0)), Some(Found(0, EarlyPurpose)));
  }

  lemma EarlyGrab(s: State) returns (s': State)
    requires Stage(s, map[5 := 0], 2, false, Linking(0, 5), Some(Found(0, EarlyPurpose)))
    ensures Next(s, s') && Stage(s', map[5 := 0], 3, false, Linking(0, 5), Some(Leaving(Some(0), EarlyPurpose)))
  {
    hide Next;
    s' := Advance(s, 2, Grab(0), Some(Leaving(Some(0), EarlyPurpose)));
  }

  lemma EarlyLeave(s: State) returns (s': State)
    requires Stage(s, map[5 := 0], 3, false, Linking(0, 5), Some(Leaving(Some(0), EarlyPurpose)))
    ensures Next(s, s') && Stage(s', map[5 := 0], 3, false, Linking(0, 5), Some(Pushing(0, EarlyMessage)))
  {
    hide Next;
    s' := Advance(s, 2, LeaveRead, Some(Pushing(0, EarlyMessage)));
  }

  /** A sender can get that far: it is about to push to a context that does not know its queue yet. */
  lemma QueueUseEarly() returns (run: seq<State>)
    ensures IsRun(run) && |run| == 7
    ensures run[6].acts == map[1 := Linking(0, 5), 2 := Pushing(0, EarlyMessage)]
    ensures 0 in run[6].ctxs && !run[6].ctxs[0].linked
  {
    hide Next;
    var s1 := CreateFirst(Initial);
    var s2 := EarlyAsk(s1);
    var s3 := EarlyEnter(s2);
    var s4 := EarlyLookup(s3);
    var s5 := EarlyGrab(s4);
    var s6 := EarlyLeave(s5);
    run := [Initial, s1, s2, s3, s4, s5, s6];
  }

  //////////////////////////////////////////////////////////////////////////////
  // A message from its sender to the end of its callback
  //////////////////////////////////////////////////////////////////////////////

  ghost predicate Reachable(s: State) {
    exists run :: IsRun(run) && run[|run| - 1] == s
  }

  lemma ReachNext(s: State, s': State)
    requires Reachable(s) && Next(s, s')
    ensures Reachable(s')
  {
    hide Next;
    var run :| IsRun(run) && run[|run| - 1] == s;
    assert IsRun(run + [s']);
  }

  /** Service 0 under handle 5, with its queue, as the steps of its own activities leave it. */
  datatype Service = Service(ref: int, init: bool, linked: bool, q: Queue, global: seq<Id>, log: Log)

  function Shown(v: Service): State {
    State(map[5 := 0], map[0 := Context(5, v.ref, v.init, v.linked)], map[0 := v.q], v.global, map[], map[], map[], map[0 := v.log])
  }

  /** State `s` shows service `v`, and `t` is the only activity, if there is one. */
  ghost predicate Scene(s: State, v: Service, t: Tid, a: Option<Activity>) {
    && s.registry == Shown(v).registry && s.ctxs == Shown(v).ctxs && s.queues == Shown(v).queues
    && s.global == v.global && s.log == Shown(v).log && s.acts == Replaced(map[], t, a)
  }

  function ServiceAfter(v: Service, op: Op): Service {
    match op
    case Link(_) => v.(linked := true)
    case Grab(_) => v.(ref := v.ref + 1)
    case Release(_) => v.(ref := v.ref - 1)
    case MarkInit(_) => v.(init := true)
    case PushGlobal(q) => v.(global := v.global + [q])
    case PopGlobal(_) => v.(global := if v.global == [] then [] else v.global[1..])
    case MqPush(_, m) => v.(q := v.q.(messages := v.q.messages + [m]), log := v.log.(pushed := v.log.pushed + [m]))
    case MqPop(_, m) =>
      v.(q := v.q.(messages := if v.q.messages == [] then [] else v.q.messages[1..]), log := v.log.(delivered := v.log.delivered + [m]))
    case Handled(_, m) => v.(log := v.log.(handled := v.log.handled + [m]))
    case _ => v
  }

  /** An operation on service 0 that `ServiceAfter` describes. */
  predicate Plain(v: Service, op: Op) {
    match op
    case Link(c) => c == 0
    case Grab(c) => c == 0
    case Release(c) => c == 0
    case MarkInit(c) => c == 0
    case MqPush(q, _) => q == 0 && v.q.inGlobal
    case MqPop(q, _) => q == 0
    case Handled(q, _) => q == 0
    case _ => op.Local? || op.EnterRead? || op.LeaveRead? || op.Lookup? || op.PushGlobal? || op.PopGlobal?
  }

  lemma PlainContext(s: State, v: Service, op: Op)
    requires s.ctxs == Shown(v).ctxs && Plain(v, op)
    ensures RegistryAfter(s, op) == s.registry && CtxsAfter(s, op) == Shown(ServiceAfter(v, op)).ctxs
  {
    if op.Link? {
    } else if op.Grab? {
    } else if op.Release? {
    } else if op.MarkInit? {
    } else {
      assert CtxsAfter(s, op) == s.ctxs;
    }
  }

  lemma PlainMessages(v: Service, op: Op)
    requires Plain(v, op)
    ensures !op.Create? && !op.Free? && (Subject(op).Some? ==> Subject(op).value == 0)
    ensures ServiceAfter(v, op).q == if Subject(op).Some? then QueueAfter(v.q, op) else v.q
  {
  }

  lemma PlainQueue(s: State, v: Service, op: Op)
    requires s.queues == Shown(v).queues && Plain(v, op)
    ensures QueuesAfter(s, op) == Shown(ServiceAfter(v, op)).queues
  {
    PlainMessages(v, op);
    hide Plain, ServiceAfter, QueueAfter, Subject;
  }

  lemma PlainGlobal(s: State, v: Service, op: Op)
    requires s.queues == Shown(v).queues && s.global == v.global && Plain(v, op)
    ensures GlobalAfter(s, op) == ServiceAfter(v, op).global
  {
  }

  lemma PlainLog(s: State, v: Service, op: Op)
    requires s.log == Shown(v).log && Plain(v, op)
    ensures LogAfter(s, op) == Shown(ServiceAfter(v, op)).log
  {
  }

  lemma ShownRegistry(v: Service, w: Service)
    ensures Shown(v).registry == Shown(w).registry
  {
  }

  lemma SceneStep(s: State, v: Service, t: Tid, a: Option<Activity>, op: Op, a': Option<Activity>) returns (s': State)
    requires Reachable(s) && Scene(s, v, t, a) && Plain(v, op) && Flow(a, op, a') && Enabled(s, a, op)
    ensures Reachable(s') && Next(s, s') && Scene(s', ServiceAfter(v, op), t, a')
  {
    hide Flow, Enabled, RegistryAfter, CtxsAfter, QueuesAfter, GlobalAfter, OwnerAfter, HoldersAfter, LogAfter, Reachable, ServiceAfter, Plain;
    hide Shown;
    assert s.registry == Shown(v).registry && Shown(ServiceAfter(v, op)).registry == Shown(v).registry by { ShownRegistry(v, ServiceAfter(v, op)); }
    s' := Effect(s, t, op, a');
    PlainContext(s, v, op);
    PlainQueue(s, v, op);
    PlainGlobal(s, v, op);
    PlainLog(s, v, op);
    assert Step(s, t, op, a', s');
    ReachNext(s, s');
  }

  /** The only activity goes on. */
  lemma SceneNext(s: State, v: Service, t: Tid, a: Activity, op: Op, a': Option<Activity>) returns (s': State)
    requires Reachable(s) && Scene(s, v, t, Some(a)) && NextOp(Shown(v), a) == (op, a') && Held(a) <= {0} && Plain(v, op)
    ensures Reachable(s') && Next(s, s') && Scene(s', ServiceAfter(v, op), t, a')
  {
    NextSame(s, v, t, a);
    hide Flow, Enabled, Reachable, ServiceAfter, Plain, Held, NextOp;
    NextFlows(s, a);
    NextEnabled(s, a);
    s' := SceneStep(s, v, t, Some(a), op, a');
  }

  lemma NextSame(s: State, v: Service, t: Tid, a: Activity)
    requires Scene(s, v, t, Some(a))
    ensures NextOp(s, a) == NextOp(Shown(v), a)
  {
  }

  /** A new activity starts when no other is left. */
  lemma SceneStart(s: State, v: Service, u: Tid, t: Tid, a: Activity) returns (s': State)
    requires Reachable(s) && Scene(s, v, u, None) && (a == Idle || (a.Asking? && !a.p.Dispatch?))
    ensures Reachable(s') && Next(s, s') && Scene(s', v, t, Some(a))
  {
    hide Reachable;
    s' := SceneStep(s, v, t, None, Local, Some(a));
  }

  lemma SceneCreate() returns (s: State)
    ensures Reachable(s) && Scene(s, Service(2, false, false, Queue(5, [], true, false), [], Log([], [], [], [])), 1, Some(Linking(0, 5)))
  {
    assert IsRun([Initial]);
    s := Effect(Initial, 1, Create(0, 5), Some(Linking(0, 5)));
    assert Step(Initial, 1, Create(0, 5), Some(Linking(0, 5)), s);
    ReachNext(Initial, s);
  }

  lemma SceneInit(s0: State, v: Service) returns (s: State)
    requires Reachable(s0) && Scene(s0, v, 1, Some(Linking(0, 5))) && v.ref == 2
    ensures Reachable(s) && Scene(s, v.(ref := 1, linked := true), 1, Some(Launching(0)))
  {
    hide Reachable, Next, Scene;
    s := SceneNext(s0, v, 1, Linking(0, 5), Link(0), Some(Initing(0, 5)));
    s := SceneNext(s, v.(linked := true), 1, Initing(0, 5), Local, Some(Releasing(0, Launch(0))));
    s := SceneNext(s, v.(linked := true), 1, Releasing(0, Launch(0)), Release(0), Some(Launching(0)));
  }

  lemma SceneHand(s0: State, v: Service) returns (s: State)
    requires Reachable(s0) && Scene(s0, v, 1, Some(Launching(0)))
    ensures Reachable(s) && Scene(s, v.(init := true, global := v.global + [0]), 1, None)
  {
    hide Reachable, Next, Scene;
    s := SceneNext(s0, v, 1, Launching(0), MarkInit(0), Some(Handing(0)));
    s := SceneNext(s, v.(init := true), 1, Handing(0), PushGlobal(0), None);
  }

  /** The service comes up and its queue is handed over. */
  lemma SceneUp() returns (s: State, v: Service)
    ensures Reachable(s) && Scene(s, v, 1, None)
    ensures v == Service(1, true, true, Queue(5, [], true, false), [0], Log([], [], [], []))
  {
    hide Reachable, Next, Scene;
    s := SceneCreate();
    v := Service(2, false, false, Queue(5, [], true, false), [], Log([], [], [], []));
    s := SceneInit(s, v);
    s := SceneHand(s, v.(ref := 1, linked := true));
    v := Service(1, true, true, v.q, v.global + [0], v.log);
  }

  lemma SceneGrab(s0: State, v: Service, t: Tid, p: Purpose, a: Activity) returns (s: State)
    requires Reachable(s0) && Scene(s0, v, t, Some(Asking(p))) && v.q.handle == 5
    requires if p.Dispatch? then p.q == 0 && a == Popping(0, 0) else p.Deliver? && p.handle == 5 && a == Pushing(0, p.m)
    ensures Reachable(s) && Scene(s, v.(ref := v.ref + 1), t, Some(a))
  {
    hide Reachable, Next, Scene;
    s := SceneNext(s0, v, t, Asking(p), EnterRead, Some(Reading(p)));
    s := SceneNext(s, v, t, Reading(p), Lookup(5, Some(0)), Some(Found(0, p)));
    s := SceneNext(s, v, t, Found(0, p), Grab(0), Some(Leaving(Some(0), p)));
    s := SceneNext(s, v.(ref := v.ref + 1), t, Leaving(Some(0), p), LeaveRead, Some(a));
  }

  lemma SceneSend(s0: State, v: Service, m: Message) returns (s: State)
    requires Reachable(s0) && Scene(s0, v, 1, None) && v.q.handle == 5 && v.q.inGlobal && v.ref == 1
    ensures Reachable(s)
    ensures Scene(s, v.(q := v.q.(messages := v.q.messages + [m]), log := v.log.(pushed := v.log.pushed + [m])), 2, None)
  {
    hide Reachable, Next, Scene;
    s := SceneStart(s0, v, 1, 2, Asking(Deliver(5, m)));
    s := SceneGrab(s, v, 2, Deliver(5, m), Pushing(0, m));
    var w := v.(ref := 2);
    s := SceneNext(s, w, 2, Pushing(0, m), MqPush(0, m), Some(Releasing(0, Finish)));
    w := w.(q := v.q.(messages := v.q.messages + [m]), log := v.log.(pushed := v.log.pushed + [m]));
    s := SceneNext(s, w, 2, Releasing(0, Finish), Release(0), None);
  }

  lemma SceneTake(s0: State, v: Service) returns (s: State)
    requires Reachable(s0) && Scene(s0, v, 2, None) && v.q.handle == 5 && v.global == [0]
    ensures Reachable(s) && Scene(s, v.(ref := v.ref + 1, global := []), 3, Some(Popping(0, 0)))
  {
    hide Reachable, Next, Scene;
    s := SceneStart(s0, v, 2, 3, Idle);
    s := SceneNext(s, v, 3, Idle, PopGlobal(0), Some(Asking(Dispatch(0))));
    assert v.global[1..] == [];
    s := SceneGrab(s, v.(global := []), 3, Dispatch(0), Popping(0, 0));
  }

  /** Callbacks do run: a service comes up, a sender pushes a message, a worker runs the callback on
      it and the callback returns. */
  lemma CallbackReached(m: Message) returns (s: State, s': State)
    ensures Reachable(s) && s.acts == map[3 := Running(0, 0, m)]
    ensures Next(s, s') && Reachable(s') && s'.log == map[0 := Log([m], [m], [], [m])]
  {
    hide Reachable, Next, Scene;
    var v;
    s, v := SceneUp();
    s := SceneSend(s, v, m);
    assert v.q.messages + [m] == [m] && v.log.pushed + [m] == [m];
    v := v.(q := v.q.(messages := [m]), log := v.log.(pushed := [m]));
    s := SceneTake(s, v);
    v := v.(ref := 2, global := []);
    s, s' := SceneCall(s, v, m);
  }

  lemma SceneCall(s0: State, v: Service, m: Message) returns (s: State, s': State)
    requires Reachable(s0) && Scene(s0, v, 3, Some(Popping(0, 0))) && v.q.messages == [m] && v.log == Log([m], [], [], [])
    ensures Reachable(s) && s.acts == map[3 := Running(0, 0, m)]
    ensures Next(s, s') && Reachable(s') && s'.log == map[0 := Log([m], [m], [], [m])]
  {
    hide Reachable, Next, Scene;
    s := ScenePop(s0, v, m);
    var w := v.(q := v.q.(messages := []), log := Log([m], [m], [], []));
    SceneShows(s, w, 3, Running(0, 0, m));
    s' := SceneNext(s, w, 3, Running(0, 0, m), Handled(0, m), Some(Popping(0, 0)));
    assert w.log.handled + [m] == [m];
    SceneShows(s', w.(log := Log([m], [m], [], [m])), 3, Popping(0, 0));
  }

  lemma ScenePop(s0: State, v: Service, m: Message) returns (s: State)
    requires Reachable(s0) && Scene(s0, v, 3, Some(Popping(0, 0))) && v.q.messages == [m] && v.log == Log([m], [], [], [])
    ensures Reachable(s) && Scene(s, v.(q := v.q.(messages := []), log := Log([m], [m], [], [])), 3, Some(Running(0, 0, m)))
  {
    var op := MqPop(0, m);
    assert NextOp(Shown(v), Popping(0, 0)) == (op, Some(Running(0, 0, m)));
    assert v.log.delivered + [m] == [m] && [m][1..] == [];
    assert ServiceAfter(v, op) == v.(q := v.q.(messages := []), log := Log([m], [m], [], []));
    hide Reachable, Next, Scene, NextOp, Shown, ServiceAfter;
    s := SceneNext(s0, v, 3, Popping(0, 0), op, Some(Running(0, 0, m)));
  }

  lemma SceneShows(s: State, v: Service, t: Tid, a: Activity)
    requires Scene(s, v, t, Some(a))
    ensures s.acts == map[t := a] && s.log == map[0 := v.log]
  {
  }
}

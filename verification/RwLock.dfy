/** The spinning reader/writer lock, one atomic instruction per step, for any number of
    threads. It is proved to refine the lock that the registry protocol relies on: readers
    enter only when no writer is inside, a writer only when nobody is. */
module RwLock {

  type Tid = nat

  /** Where a thread stands in `rwlock_rlock`, `rwlock_wlock` and the unlock functions. */
  datatype Pc =
    | ReadSpin       // about to test `write` before counting itself
    | ReadCount      // about to increment `read`
    | ReadCheck      // counted, about to test `write` again
    | ReadUndo       // saw a writer, about to decrement `read`
    | ReadInside     // holds the lock for reading
    | WriteTake      // about to test-and-set `write`
    | WriteWait      // has set `write`, about to test `read`
    | WriteInside    // holds the lock for writing

  /** `write` and `read` are the fields of the lock; threads without an entry are elsewhere. */
  datatype State = State(write: bool, read: int, pc: map<Tid, Pc>)

  const Initial := State(false, 0, map[])

  function Moved(s: State, t: Tid, pc: Pc): State { s.(pc := s.pc[t := pc]) }

  /** One instruction of thread `t`. */
  predicate Step(s: State, t: Tid, s': State) {
    if t !in s.pc then
      s' == Moved(s, t, ReadSpin) || s' == Moved(s, t, WriteTake)
    else match s.pc[t]
    case ReadSpin => s' == Moved(s, t, if s.write then ReadSpin else ReadCount)
    case ReadCount => s' == Moved(s, t, ReadCheck).(read := s.read + 1)
    case ReadCheck => s' == Moved(s, t, if s.write then ReadUndo else ReadInside)
    case ReadUndo => s' == Moved(s, t, ReadSpin).(read := s.read - 1)
    case ReadInside => s' == s.(pc := s.pc - {t}, read := s.read - 1)
    case WriteTake => s' == Moved(s, t, if s.write then WriteTake else WriteWait).(write := true)
    case WriteWait => s' == Moved(s, t, if s.read != 0 then WriteWait else WriteInside)
    case WriteInside => s' == s.(pc := s.pc - {t}, write := false)
  }

  predicate Counted(pc: Pc) { pc.ReadCheck? || pc.ReadUndo? || pc.ReadInside? }
  predicate Taken(pc: Pc) { pc.WriteWait? || pc.WriteInside? }

  function CountedThreads(s: State): set<Tid> { set t | t in s.pc && Counted(s.pc[t]) }
  function TakenThreads(s: State): set<Tid> { set t | t in s.pc && Taken(s.pc[t]) }

  /** `read` counts the threads between increment and decrement, `write` is set by exactly
      one thread, and no reader is inside together with a writer. */
  ghost predicate Inv(s: State) {
    && s.read == |CountedThreads(s)|
    && (s.write <==> TakenThreads(s) != {})
    && (forall t, u | t in TakenThreads(s) && u in TakenThreads(s) :: t == u)
    && (forall t, u | t in s.pc && u in s.pc && s.pc[t].WriteInside? :: !s.pc[u].ReadInside?)
  }

  lemma CountedChange(s: State, t: Tid, s': State)
    requires Step(s, t, s')
    ensures CountedThreads(s') ==
      if t in s'.pc && Counted(s'.pc[t]) then CountedThreads(s) + {t} else CountedThreads(s) - {t}
    ensures TakenThreads(s') ==
      if t in s'.pc && Taken(s'.pc[t]) then TakenThreads(s) + {t} else TakenThreads(s) - {t}
    ensures t in CountedThreads(s) <==> t in s.pc && Counted(s.pc[t])
    ensures t in TakenThreads(s) <==> t in s.pc && Taken(s.pc[t])
  {
    assert forall u | u != t :: (u in s.pc <==> u in s'.pc) && (u in s.pc ==> s.pc[u] == s'.pc[u]);
  }

  /** A writer that sees `read == 0` is alone: nobody is counted. */
  lemma NobodyCounted(s: State, u: Tid)
    requires Inv(s) && s.read == 0 && u in s.pc
    ensures !Counted(s.pc[u])
  {
    assert Counted(s.pc[u]) ==> u in CountedThreads(s);
  }

  lemma StepRead(s: State, t: Tid, s': State)
    requires Inv(s) && Step(s, t, s')
    ensures s'.read == |CountedThreads(s')|
  {
    CountedChange(s, t, s');
    hide CountedThreads, TakenThreads;
  }

  lemma StepWrite(s: State, t: Tid, s': State)
    requires Inv(s) && Step(s, t, s')
    ensures s'.write <==> TakenThreads(s') != {}
  {
    CountedChange(s, t, s');
    hide CountedThreads, TakenThreads, Counted;
  }

  lemma StepOneWriter(s: State, t: Tid, s': State)
    requires Inv(s) && Step(s, t, s')
    ensures forall u, v | u in TakenThreads(s') && v in TakenThreads(s') :: u == v
  {
    CountedChange(s, t, s');
    hide CountedThreads, TakenThreads, Counted;
  }

  lemma StepExclusion(s: State, t: Tid, s': State)
    requires Inv(s) && Step(s, t, s')
    ensures forall w, r | w in s'.pc && r in s'.pc && s'.pc[w].WriteInside? :: !s'.pc[r].ReadInside?
  {
    forall w, r | w in s'.pc && r in s'.pc && s'.pc[w].WriteInside?
      ensures !s'.pc[r].ReadInside?
    {
      assert w != t ==> w in TakenThreads(s);
      if w == t && r != t {
        NobodyCounted(s, r);
      }
    }
  }

  lemma StepInv(s: State, t: Tid, s': State)
    requires Inv(s) && Step(s, t, s')
    ensures Inv(s')
  {
    StepRead(s, t, s');
    StepWrite(s, t, s');
    StepOneWriter(s, t, s');
    StepExclusion(s, t, s');
  }

  ghost predicate Next(s: State, s': State) { exists t :: Step(s, t, s') }

  ghost predicate IsRun(run: seq<State>) {
    run != [] && run[0] == Initial && forall i | 0 <= i < |run| - 1 :: Next(run[i], run[i + 1])
  }

  lemma {:induction false} RunInv(run: seq<State>, i: nat)
    requires IsRun(run) && i < |run|
    ensures Inv(run[i])
  {
    if i > 0 {
      RunInv(run, i - 1);
      assert Next(run[i - 1], run[i - 1 + 1]);
      var t :| Step(run[i - 1], t, run[i]);
      StepInv(run[i - 1], t, run[i]);
    }
  }

  //////////////////////////////////////////////////////////////////////////////
  // The lock as its users see it
  //////////////////////////////////////////////////////////////////////////////

  datatype Lock = Lock(readers: set<Tid>, writers: set<Tid>)

  function View(s: State): Lock {
    Lock(set t | t in s.pc && s.pc[t].ReadInside?, set t | t in s.pc && s.pc[t].WriteInside?)
  }

  ghost predicate LockStep(l: Lock, t: Tid, l': Lock) {
    || l' == l
    || (l.writers == {} && l' == l.(readers := l.readers + {t}))
    || (t in l.readers && l' == l.(readers := l.readers - {t}))
    || (l.writers == {} && l.readers == {} && l' == l.(writers := {t}))
    || (t in l.writers && l' == l.(writers := l.writers - {t}))
  }

  lemma ViewChange(s: State, t: Tid, s': State)
    requires Step(s, t, s')
    ensures View(s').readers == if t in s'.pc && s'.pc[t].ReadInside? then View(s).readers + {t} else View(s).readers - {t}
    ensures View(s').writers == if t in s'.pc && s'.pc[t].WriteInside? then View(s).writers + {t} else View(s).writers - {t}
    ensures t in View(s).readers <==> t in s.pc && s.pc[t].ReadInside?
    ensures t in View(s).writers <==> t in s.pc && s.pc[t].WriteInside?
  {
    assert forall u | u != t :: (u in s.pc <==> u in s'.pc) && (u in s.pc ==> s.pc[u] == s'.pc[u]);
  }

  /** Every instruction is invisible, or enters the lock when the others allow it, or leaves it. */
  lemma StepRefines(s: State, t: Tid, s': State)
    requires Inv(s) && Step(s, t, s')
    ensures LockStep(View(s), t, View(s'))
  {
    ViewChange(s, t, s');
    if t in s.pc && s.pc[t].ReadCheck? && !s.write {
      NoWriterInside(s);
    } else if t in s.pc && s.pc[t].WriteWait? && s.read == 0 {
      NobodyInside(s, t);
    }
    hide View, Inv;
  }

  lemma NobodyInside(s: State, t: Tid)
    requires Inv(s) && s.read == 0 && t in s.pc && s.pc[t].WriteWait?
    ensures View(s).readers == {} && View(s).writers == {}
  {
    forall u | u in s.pc
      ensures !s.pc[u].ReadInside? && !s.pc[u].WriteInside?
    {
      NobodyCounted(s, u);
      OnlyWriter(s, t, u);
    }
  }

  lemma NoWriterInside(s: State)
    requires Inv(s) && !s.write
    ensures View(s).writers == {}
  {
    assert View(s).writers <= TakenThreads(s);
  }

  lemma OnlyWriter(s: State, t: Tid, u: Tid)
    requires Inv(s) && t in s.pc && s.pc[t].WriteWait? && u in s.pc
    ensures !s.pc[u].WriteInside?
  {
    assert t in TakenThreads(s);
    assert s.pc[u].WriteInside? ==> u in TakenThreads(s);
  }

  /** In every run, a writer inside excludes all readers and all other writers. */
  lemma Exclusion(run: seq<State>, i: nat, t: Tid, u: Tid)
    requires IsRun(run) && i < |run| && t in run[i].pc && u in run[i].pc && run[i].pc[t].WriteInside?
    ensures !run[i].pc[u].ReadInside? && (run[i].pc[u].WriteInside? ==> u == t)
  {
    RunInv(run, i);
    assert t in TakenThreads(run[i]);
    assert run[i].pc[u].WriteInside? ==> u in TakenThreads(run[i]);
  }

  //////////////////////////////////////////////////////////////////////////////
  // Progress of a thread that runs alone
  //////////////////////////////////////////////////////////////////////////////

  /** Thread `t` takes all the steps from `s` to `s'`, `n` of them. */
  ghost predicate Alone(s: State, t: Tid, n: nat, s': State)
    decreases n
  {
    if n == 0 then s' == s else exists mid :: Step(s, t, mid) && Alone(mid, t, n - 1, s')
  }

  /** A thread in the code of the lock always has exactly one next step. */
  lemma OneStep(s: State, t: Tid, u: State, v: State)
    requires t in s.pc && Step(s, t, u) && Step(s, t, v)
    ensures u == v
  {
  }

  lemma {:induction false} AloneStep(s: State, t: Tid, n: nat, s': State) returns (mid: State)
    requires n > 0 && Alone(s, t, n, s')
    ensures Step(s, t, mid) && Alone(mid, t, n - 1, s')
  {
    mid :| Step(s, t, mid) && Alone(mid, t, n - 1, s');
  }

  /** A thread can always run alone. */
  lemma {:induction false} SoloRun(s: State, t: Tid, n: nat) returns (s': State)
    ensures Alone(s, t, n, s')
    decreases n
  {
    s' := s;
    if n > 0 {
      var mid := SomeStep(s, t);
      s' := SoloRun(mid, t, n - 1);
    }
  }

  lemma SomeStep(s: State, t: Tid) returns (s': State)
    ensures Step(s, t, s')
  {
    s' := Moved(s, t, ReadSpin);
    if t in s.pc {
      match s.pc[t]
      case ReadSpin => s' := Moved(s, t, if s.write then ReadSpin else ReadCount);
      case ReadCount => s' := Moved(s, t, ReadCheck).(read := s.read + 1);
      case ReadCheck => s' := Moved(s, t, if s.write then ReadUndo else ReadInside);
      case ReadUndo => s' := Moved(s, t, ReadSpin).(read := s.read - 1);
      case ReadInside => s' := s.(pc := s.pc - {t}, read := s.read - 1);
      case WriteTake => s' := Moved(s, t, if s.write then WriteTake else WriteWait).(write := true);
      case WriteWait => s' := Moved(s, t, if s.read != 0 then WriteWait else WriteInside);
      case WriteInside => s' := s.(pc := s.pc - {t}, write := false);
    }
  }

  /** A reader that runs alone is inside after three steps, exactly when no writer has the lock. */
  lemma ReaderEnters(s: State, t: Tid, s': State)
    requires t in s.pc && s.pc[t].ReadSpin? && Alone(s, t, 3, s')
    ensures t in s'.pc && (s'.pc[t].ReadInside? <==> !s.write)
    ensures s' == if s.write then s else Moved(s, t, ReadInside).(read := s.read + 1)
  {
    var s1 := AloneStep(s, t, 3, s');
    var s2 := AloneStep(s1, t, 2, s');
    var s3 := AloneStep(s2, t, 1, s');
    assert s.write ==> s1 == s && s2 == s && s3 == s;
  }

  /** A writer that runs alone is inside after two steps, exactly when nobody has the lock. */
  lemma WriterEnters(s: State, t: Tid, s': State)
    requires t in s.pc && s.pc[t].WriteTake? && Alone(s, t, 2, s')
    ensures t in s'.pc && (s'.pc[t].WriteInside? <==> !s.write && s.read == 0)
    ensures s' == if s.write then s else Moved(s, t, if s.read == 0 then WriteInside else WriteWait).(write := true)
  {
    var s1 := AloneStep(s, t, 2, s');
    var s2 := AloneStep(s1, t, 1, s');
    assert s.write ==> s1 == s && s2 == s;
  }

  /** A reader that meets a writer takes its count back. */
  lemma ReaderBacksOff(s: State, t: Tid, s': State)
    requires t in s.pc && s.pc[t].ReadCount? && s.write && Alone(s, t, 3, s')
    ensures s' == Moved(s, t, ReadSpin)
  {
    var s1 := AloneStep(s, t, 3, s');
    var s2 := AloneStep(s1, t, 2, s');
    var s3 := AloneStep(s2, t, 1, s');
  }
}

/** Posting to a BLooper, its message loop, and its shutdown: kits/app/Looper.cpp over the wakeup pipe of
    kits/kernel/thread.c.

    Any number of threads post, lock, unlock, edit the queue and the handlers under the lock, start the
    looper and tell it to quit, while the looper thread sleeps, drains and dispatches; one shared access per
    step.  The lock is the recursive lock that module LooperLock proves the code to be.  `receive_data` may
    return without data at any time.  The looper's own `Lock()` may fail.  The first one ends its thread then;
    of the others `task_looper` ignores the result, and `lockFailed` remembers that one of them failed. */
module LooperProtocol {
  import opened Options
  import opened Sequences
  import L = LooperLock

  type ThreadId = L.ThreadId
  type Handler = int

  /** The looper's thread, and the looper itself as a handler. */
  const LOOPER: ThreadId := -1
  const SELF: Handler := 0

  /** A posted message: its identity, whether it is _UPDATE_IF_NEEDED_, whether it is B_QUIT_REQUESTED, and the
      handler it is addressed to. */
  datatype Msg = Msg(id: nat, breaks: bool, quits: bool, target: Option<Handler>)

  datatype Pc =
    | Idle
    | Posted                 // has enqueued a message, about to look at fThread
    | Probing                // about to call has_data
    | Sending                // saw no data, about to call send_data
    | RunUnlock              // has set fThread and fRunCalled, about to unlock
    | RunResume              // about to resume the looper thread
    | Quitting               // has set fTerminating, unlocking until nobody holds the lock

  datatype LooperPc =
    | NotStarted
    | BootLock
    | BootUnlock
    | BootCheck              // about to ask whether the looper is still locked
    | CheckTerminating       // about to read fTerminating in the outer loop
    | CheckQueue             // about to look whether the queue is empty
    | Receiving              // saw an empty queue, blocked in receive_data
    | Acquire                // about to lock
    | DrainCheck             // in NextMessage, about to look whether the queue is empty
    | Popping                // saw a message, about to take the queue's lock and pop
    | Deliver(msg: Msg)      // about to find the handler
    | Storing(msg: Msg, value: bool)  // answers a quit request, about to store fTerminating
    | Handling(msg: Msg)     // the handler is running
    | AfterDrain             // about to read fTerminating after draining
    | Unlocking
    | Done
    | Crashed                // popped an empty list
    | Aborted                // found the looper locked when it had just unlocked it
    | NotRun                 // its first Lock() failed, so its thread has ended

  /** What has happened so far: messages enqueued and taken, in order; messages removed by others and dropped for
      want of a handler; and deliveries, in order, with the handlers that received them. */
  datatype History = History(enqueued: seq<Msg>, taken: seq<Msg>, removed: set<Msg>, dropped: set<Msg>,
                             delivered: seq<Msg>, receivers: seq<Handler>)

  /** `runner` is the thread that called Run, if any did: fThread and fRunCalled are set. */
  datatype State = State(
    queue: seq<Msg>, tokens: nat, terminating: bool, runner: Option<ThreadId>, lock: L.Lock,
    handlers: set<Handler>, preferred: Option<Handler>,
    looper: LooperPc, pc: map<ThreadId, Pc>, lockFailed: bool, history: History)

  function Goto(s: State, t: ThreadId, pc: Pc): State {
    s.(pc := s.pc[t := pc])
  }

  /** A looper as its constructor leaves it to thread `creator`, which holds the lock. */
  predicate Init(s: State, creator: ThreadId) {
    && s.queue == [] && s.tokens == 0 && !s.terminating && s.runner == None && s.looper == NotStarted
    && creator in s.pc && s.lock == L.Lock(Some(creator), 1)
    && s.handlers == {SELF} && s.preferred == None && !s.lockFailed
    && s.history == History([], [], {}, {}, [], [])
    && LOOPER !in s.pc
    && forall t <- s.pc :: s.pc[t] == Idle
  }

  // Effects on the queue and its history

  predicate Enqueues(s: State, m: Msg, s': State) {
    m !in s.history.enqueued
    && s' == s.(queue := s.queue + [m], history := s.history.(enqueued := s.history.enqueued + [m]))
  }

  /** `RemoveMessage` takes every occurrence of the message out of the queue. */
  function Remove(s: State, m: Msg): State {
    s.(queue := Without(s.queue, {m}),
       history := s.history.(removed := if m in s.queue then s.history.removed + {m} else s.history.removed))
  }

  function Pop(s: State): State
    requires s.queue != []
  {
    s.(queue := s.queue[1..], looper := Deliver(s.queue[0]),
       history := s.history.(taken := s.history.taken + [s.queue[0]]))
  }

  // Effects on handlers

  function RemoveHandler(s: State, h: Handler): State {
    s.(handlers := s.handlers - {h}, preferred := if s.preferred == Some(h) then None else s.preferred)
  }

  function SetPreferred(s: State, h: Option<Handler>): State {
    s.(preferred := if h.Some? && h.value in s.handlers then h else None)
  }

  /** What a thread may do while it holds the looper lock: remove a message ... */
  ghost predicate QueueEdit(s: State, s': State) {
    exists m :: s' == Remove(s, m)
  }

  /** ... or add or remove a handler or choose the preferred one. */
  ghost predicate HandlerEdit(s: State, s': State) {
    && s' == s.(handlers := s'.handlers, preferred := s'.preferred)
    && ((exists h :: s' == s.(handlers := s.handlers + {h}))
        || (exists h :: s' == RemoveHandler(s, h))
        || (exists h :: s' == SetPreferred(s, h)))
  }

  /** An atomic, successful Lock or Unlock by `t`. */
  predicate LockCall(s: State, op: L.Op, t: ThreadId, s': State) {
    L.Atomic(s.lock, op, t, s'.lock, L.Ok) && s' == s.(lock := s'.lock)
  }

  predicate Holds(s: State, t: ThreadId) {
    s.lock.holder == Some(t)
  }

  /** What `IsLocked` may answer to `t`, as module LooperLock proves: it reads the count alone, so it may miss another
      holder that is on its way in or out. */
  predicate IsLockedSays(s: State, t: ThreadId, answer: bool) {
    if answer then s.lock.holder.Some? else !Holds(s, t) && s.lock.depth <= 1
  }

  /** What a thread between calls may do. */
  ghost predicate IdleStep(s: State, t: ThreadId, s': State)
    requires t in s.pc
  {
    || (exists m :: Enqueues(Goto(s, t, Posted), m, s'))
    || LockCall(s, L.DoLock, t, s')
    || LockCall(s, L.DoUnlock, t, s')
    || (Holds(s, t) && (QueueEdit(s, s') || HandlerEdit(s, s')))
    || (Holds(s, t) && s.runner == None && s' == Goto(s, t, RunUnlock).(runner := Some(t)))
    || (Holds(s, t) && s.runner.Some? && s' == Goto(s, t, Quitting).(terminating := true))
  }

  /** The next step of a thread within a call. */
  predicate BusyStep(s: State, t: ThreadId, s': State)
    requires t in s.pc
  {
    match s.pc[t]
    case Idle => false
    case Posted => s' == Goto(s, t, if s.runner.Some? then Probing else Idle)
    case Probing => s' == Goto(s, t, if s.tokens > 0 then Idle else Sending)
    case Sending => s' == Goto(s, t, Idle).(tokens := s.tokens + 1)
    case RunUnlock => LockCall(Goto(s, t, RunResume), L.DoUnlock, t, s')
    case RunResume => s' == Goto(s, t, Idle).(looper := BootLock)
    case Quitting =>
      || (IsLockedSays(s, t, false) && s' == Goto(s, t, Probing))
      || (IsLockedSays(s, t, true) && LockCall(s, L.DoUnlock, t, s'))
  }

  /** One step of a thread other than the looper's. */
  ghost predicate WorkerStep(s: State, t: ThreadId, s': State) {
    t in s.pc && if s.pc[t] == Idle then IdleStep(s, t, s') else BusyStep(s, t, s')
  }

  /** The handler that `_drain_message_queue` dispatches to, if any. */
  function Route(s: State, m: Msg): Option<Handler> {
    var handler :=
      match m.target
      case Some(h) => h
      case None => if s.preferred.Some? then s.preferred.value else SELF;
    if handler in s.handlers then Some(handler) else None
  }

  /** Dispatch of a message just taken: dropped without a handler; a quit request to the looper asks
      `QuitRequested`, whose answer is arbitrary; anything else goes to the handler. */
  predicate DeliverStep(s: State, m: Msg, s': State) {
    match Route(s, m)
    case None => s' == s.(looper := Handling(m), history := s.history.(dropped := s.history.dropped + {m}))
    case Some(h) =>
      var delivered := s.history.(delivered := s.history.delivered + [m], receivers := s.history.receivers + [h]);
      if m.quits && h == SELF then
        || s' == s.(looper := Storing(m, true), history := delivered)
        || s' == s.(looper := Storing(m, s.terminating), history := delivered)
      else
        s' == s.(looper := Handling(m), history := delivered)
  }

  /** The handler may post, edit, lock and unlock in balance, and return. */
  ghost predicate HandlingStep(s: State, m: Msg, s': State) {
    || (exists m' :: Enqueues(s, m', s'))
    || QueueEdit(s, s')
    || HandlerEdit(s, s')
    || (Holds(s, LOOPER) && LockCall(s, L.DoLock, LOOPER, s'))
    || (Holds(s, LOOPER) && s.lock.depth > 1 && LockCall(s, L.DoUnlock, LOOPER, s'))
    || (!(Holds(s, LOOPER) && s.lock.depth > 1) && s' == s.(looper := if m.breaks then AfterDrain else DrainCheck))
  }

  /** One step of the looper thread. */
  ghost predicate LooperStep(s: State, s': State) {
    match s.looper
    case BootLock =>
      || LockCall(s.(looper := BootUnlock), L.DoLock, LOOPER, s')
      || s' == s.(looper := NotRun)
    case BootUnlock => LockCall(s.(looper := BootCheck), L.DoUnlock, LOOPER, s')
    case BootCheck =>
      || (IsLockedSays(s, LOOPER, true) && s' == s.(looper := Aborted))
      || (IsLockedSays(s, LOOPER, false) && s' == s.(looper := CheckTerminating))
    case CheckTerminating => s' == s.(looper := if s.terminating then Done else CheckQueue)
    case CheckQueue => s' == s.(looper := if s.queue == [] then Receiving else Acquire)
    case Receiving =>
      || (s.tokens > 0 && s' == s.(looper := Acquire, tokens := s.tokens - 1))
      || s' == s.(looper := Acquire)
    case Acquire =>
      || LockCall(s.(looper := DrainCheck), L.DoLock, LOOPER, s')
      || s' == s.(looper := DrainCheck, lockFailed := true)
    case DrainCheck => s' == s.(looper := if s.queue == [] then AfterDrain else Popping)
    case Popping => s' == if s.queue == [] then s.(looper := Crashed) else Pop(s)
    case Deliver(m) => DeliverStep(s, m, s')
    case Storing(m, value) => s' == s.(looper := Handling(m), terminating := value)
    case Handling(m) => HandlingStep(s, m, s')
    case AfterDrain => s' == s.(looper := if s.terminating then Done else Unlocking)
    case Unlocking => LockCall(s.(looper := CheckTerminating), L.DoUnlock, LOOPER, s')
    case _ => false
  }

  ghost predicate Step(s: State, t: ThreadId, s': State) {
    if t == LOOPER then LooperStep(s, s') else WorkerStep(s, t, s')
  }

  /** The states of a run, and which thread made each step. */
  ghost predicate Run(run: seq<State>, schedule: seq<ThreadId>, creator: ThreadId) {
    && |run| == |schedule| + 1
    && Init(run[0], creator)
    && forall i | 0 <= i < |schedule| :: Step(run[i], schedule[i], run[i + 1])
  }

  // First in, first out

  /** The message that has been taken off but neither delivered nor dropped yet. */
  function InHand(looper: LooperPc): seq<Msg> {
    if looper.Deliver? then [looper.msg] else []
  }

  /** What has been taken, followed by what is queued, is what was enqueued minus what was removed; and what
      was delivered, followed by what is in hand, is what was taken minus what was dropped. */
  ghost predicate Fifo(s: State) {
    var h := s.history;
    && NoDuplicates(h.enqueued)
    && (forall m <- h.removed :: m in h.enqueued)
    && (forall m <- h.dropped :: m in h.taken)
    && h.taken + s.queue == Without(h.enqueued, h.removed)
    && h.delivered + InHand(s.looper) == Without(h.taken, h.dropped)
  }

  lemma {:induction false} PartsAreDistinct<T>(a: seq<T>, b: seq<T>)
    requires NoDuplicates(a + b)
    ensures NoDuplicates(a) && NoDuplicates(b)
    ensures forall x <- a :: x !in b
  {
    forall i, j | 0 <= i < j < |a| ensures a[i] != a[j] {
      assert (a + b)[i] != (a + b)[j];
    }
    forall i, j | 0 <= i < j < |b| ensures b[i] != b[j] {
      assert (a + b)[|a| + i] != (a + b)[|a| + j];
    }
    forall i, j | 0 <= i < |a| && 0 <= j < |b| ensures a[i] != b[j] {
      assert (a + b)[i] != (a + b)[|a| + j];
    }
  }

  lemma {:induction false} WaitingIsDistinct(s: State)
    requires Fifo(s)
    ensures NoDuplicates(s.history.taken) && NoDuplicates(s.queue)
    ensures forall m <- s.history.taken :: m !in s.queue
  {
    WithoutKeepsDistinct(s.history.enqueued, s.history.removed);
    PartsAreDistinct(s.history.taken, s.queue);
  }

  lemma {:induction false} EnqueueKeepsFifo(s: State, m: Msg, s': State)
    requires Fifo(s) && Enqueues(s, m, s')
    ensures Fifo(s')
  {
    WithoutConcat(s.history.enqueued, [m], s.history.removed);
    assert s.history.taken + (s.queue + [m]) == s.history.taken + s.queue + [m];
  }

  lemma {:induction false} RemoveKeepsFifo(s: State, m: Msg)
    requires Fifo(s)
    ensures Fifo(Remove(s, m))
  {
    WaitingIsDistinct(s);
    if m in s.queue {
      assert m in s.history.taken + s.queue;
      WithoutTwice(s.history.enqueued, s.history.removed, {m});
      WithoutConcat(s.history.taken, s.queue, {m});
      WithoutNothing(s.history.taken, {m});
    } else {
      WithoutNothing(s.queue, {m});
    }
  }

  lemma {:induction false} PopKeepsFifo(s: State)
    requires Fifo(s) && s.queue != [] && !s.looper.Deliver?
    ensures Fifo(Pop(s))
  {
    hide Position;
    WaitingIsDistinct(s);
    var h, m := s.history, s.queue[0];
    assert h.taken + [m] + s.queue[1..] == h.taken + s.queue;
    WithoutConcat(h.taken, [m], h.dropped);
  }

  lemma {:induction false} DeliverKeepsFifo(s: State, m: Msg, s': State)
    requires Fifo(s) && s.looper == Deliver(m) && DeliverStep(s, m, s')
    ensures Fifo(s')
  {
    var h := s.history;
    if Route(s, m) == None {
      WaitingIsDistinct(s);
      WithoutKeepsDistinct(h.taken, h.dropped);
      PartsAreDistinct(h.delivered, [m]);
      WithoutTwice(h.taken, h.dropped, {m});
      WithoutConcat(h.delivered, [m], {m});
      WithoutNothing(h.delivered, {m});
      assert m in h.delivered + [m];
    }
  }

  lemma {:induction false} QueueEditKeepsFifo(s: State, s': State)
    requires Fifo(s) && QueueEdit(s, s')
    ensures Fifo(s')
  {
    var m :| s' == Remove(s, m);
    RemoveKeepsFifo(s, m);
  }

  lemma {:induction false} FifoFrame(s: State, s': State)
    requires Fifo(s) && s'.queue == s.queue && s'.history == s.history && InHand(s'.looper) == InHand(s.looper)
    ensures Fifo(s')
  {
  }

  lemma {:induction false} WorkerKeepsFifo(s: State, t: ThreadId, s': State)
    requires Fifo(s) && Started(s) && WorkerStep(s, t, s')
    ensures Fifo(s')
  {
    if m :| s.pc[t] == Idle && Enqueues(Goto(s, t, Posted), m, s') {
      EnqueueKeepsFifo(Goto(s, t, Posted), m, s');
    } else if s.pc[t] == Idle && QueueEdit(s, s') {
      QueueEditKeepsFifo(s, s');
    } else {
      FifoFrame(s, s');
    }
  }

  lemma {:induction false} LooperKeepsFifo(s: State, s': State)
    requires Fifo(s) && LooperStep(s, s')
    ensures Fifo(s')
  {
    match s.looper
    case Popping =>
      if s.queue != [] {
        PopKeepsFifo(s);
      }
    case Deliver(m) => DeliverKeepsFifo(s, m, s');
    case Handling(m) =>
      if m' :| Enqueues(s, m', s') {
        EnqueueKeepsFifo(s, m', s');
      } else if QueueEdit(s, s') {
        QueueEditKeepsFifo(s, s');
      } else {
        FifoFrame(s, s');
      }
    case _ => FifoFrame(s, s');
  }

  // Start and lock discipline

  /** Until a thread has called Run nothing knows fThread, and that thread alone starts the looper. */
  predicate ThreadStarted(s: State, t: ThreadId)
    requires t in s.pc
  {
    && (s.pc[t] in {Probing, Sending, Quitting} ==> s.runner.Some?)
    && (s.pc[t] in {RunUnlock, RunResume} ==> s.runner == Some(t) && s.looper == NotStarted)
  }

  ghost predicate Started(s: State) {
    && LOOPER !in s.pc
    && (s.runner == None ==> s.looper == NotStarted)
    && forall t <- s.pc :: ThreadStarted(s, t)
  }

  /** What no step of the looper and no step of a thread between calls does. */
  predicate KeepsThreads(s: State, s': State) {
    s'.pc == s.pc && s'.runner == s.runner && s.looper != NotStarted && s'.looper != NotStarted
  }

  lemma {:induction false} HandlingKeepsThreads(s: State, m: Msg, s': State)
    requires s.looper == Handling(m) && HandlingStep(s, m, s')
    ensures KeepsThreads(s, s')
  {
    hide Without, L.Atomic;
  }

  lemma {:induction false} LooperKeepsThreads(s: State, s': State)
    requires LooperStep(s, s')
    ensures KeepsThreads(s, s')
  {
    hide L.Atomic, Route;
    match s.looper
    case Handling(m) =>
      hide HandlingStep, KeepsThreads;
      HandlingKeepsThreads(s, m, s');
    case Deliver(_) =>
      hide HandlingStep;
    case _ =>
      hide HandlingStep, DeliverStep;
  }

  predicate KeepsOthers(s: State, t: ThreadId, s': State) {
    s'.pc.Keys == s.pc.Keys && forall u <- s.pc | u != t :: s'.pc[u] == s.pc[u]
  }

  lemma {:induction false} IdleKeepsOthers(s: State, t: ThreadId, s': State)
    requires t in s.pc && IdleStep(s, t, s')
    ensures KeepsOthers(s, t, s')
  {
    hide Without, L.Atomic;
  }

  lemma {:induction false} WorkerKeepsOthers(s: State, t: ThreadId, s': State)
    requires WorkerStep(s, t, s')
    ensures KeepsOthers(s, t, s')
  {
    if s.pc[t] == Idle {
      hide IdleStep, BusyStep, KeepsOthers;
      IdleKeepsOthers(s, t, s');
    } else {
      hide IdleStep, L.Atomic;
    }
  }

  /** What a thread's own step means for the start of the looper. */
  predicate StartsRightly(s: State, t: ThreadId, s': State) {
    && t in s'.pc && ThreadStarted(s', t)
    && (s'.runner == s.runner || (s.runner == None && s'.runner == Some(t)))
    && (s'.looper == s.looper || s.runner == Some(t))
    && (s'.runner == None ==> s'.looper == NotStarted)
  }

  lemma {:induction false} IdleStarts(s: State, t: ThreadId, s': State)
    requires t in s.pc && s.pc[t] == Idle && IdleStep(s, t, s') && (s.runner == None ==> s.looper == NotStarted)
    ensures StartsRightly(s, t, s')
  {
    hide Without, L.Atomic;
  }

  lemma {:induction false} BusyStarts(s: State, t: ThreadId, s': State)
    requires t in s.pc && BusyStep(s, t, s') && ThreadStarted(s, t) && (s.runner == None ==> s.looper == NotStarted)
    ensures StartsRightly(s, t, s')
  {
    hide L.Atomic;
  }

  lemma {:induction false} WorkerStarts(s: State, t: ThreadId, s': State)
    requires WorkerStep(s, t, s') && ThreadStarted(s, t) && (s.runner == None ==> s.looper == NotStarted)
    ensures StartsRightly(s, t, s')
  {
    hide IdleStep, BusyStep;
    if s.pc[t] == Idle {
      IdleStarts(s, t, s');
    } else {
      BusyStarts(s, t, s');
    }
  }

  lemma {:induction false} StepKeepsStarted(s: State, t: ThreadId, s': State)
    requires Started(s) && Step(s, t, s')
    ensures Started(s')
  {
    if t == LOOPER {
      LooperKeepsThreads(s, s');
    } else {
      WorkerKeepsOthers(s, t, s');
      WorkerStarts(s, t, s');
    }
    forall u <- s'.pc ensures ThreadStarted(s', u) {
      assert ThreadStarted(s, u);
    }
  }

  /** Where the looper thread works on the queue or leaves the lock. */
  predicate InDrain(looper: LooperPc) {
    looper.BootUnlock? || looper.DrainCheck? || looper.Popping? || looper.Deliver? || looper.Storing?
    || looper.Handling? || looper.AfterDrain? || looper.Unlocking?
  }

  /** As long as the looper's `Lock()` never failed: it holds the lock exactly while it drains, so a message it
      saw is still there when it pops, and the answer it stores to fTerminating never undoes a quit. */
  ghost predicate Disciplined(s: State) {
    && (s.lock.holder == None <==> s.lock.depth == 0)
    && (!s.lockFailed ==>
          && s.looper != Crashed
          && (s.looper != Done ==> (InDrain(s.looper) <==> Holds(s, LOOPER)))
          && (InDrain(s.looper) && !s.looper.Handling? ==> s.lock.depth == 1)
          && (s.looper == Popping ==> s.queue != [])
          && (s.looper.Storing? && s.terminating ==> s.looper.value))
  }

  lemma {:induction false} HandlingKeepsDisciplined(s: State, m: Msg, s': State)
    requires Disciplined(s) && s.looper == Handling(m) && HandlingStep(s, m, s')
    ensures Disciplined(s')
  {
    hide Without;
  }

  lemma {:induction false} DeliverKeepsDisciplined(s: State, m: Msg, s': State)
    requires Disciplined(s) && s.looper == Deliver(m) && DeliverStep(s, m, s')
    ensures Disciplined(s')
  {
    hide Route, L.Atomic;
  }

  lemma {:induction false} LooperKeepsDisciplined(s: State, s': State)
    requires Disciplined(s) && LooperStep(s, s')
    ensures Disciplined(s')
  {
    match s.looper
    case Handling(m) =>
      hide HandlingStep, Disciplined;
      HandlingKeepsDisciplined(s, m, s');
    case Deliver(m) =>
      hide DeliverStep, Disciplined;
      DeliverKeepsDisciplined(s, m, s');
    case _ =>
      hide HandlingStep, DeliverStep;
  }

  /** A call by another thread does not touch a lock that the looper holds, and does not take it for the looper. */
  lemma {:induction false} CallSparesLooper(l: L.Lock, op: L.Op, t: ThreadId, l': L.Lock)
    requires L.Atomic(l, op, t, l', L.Ok) && (l.holder == None <==> l.depth == 0) && t != LOOPER
    ensures l'.holder == None <==> l'.depth == 0
    ensures l.holder == Some(LOOPER) ==> l' == l
    ensures l'.holder == Some(LOOPER) ==> l' == l
  {
  }

  /** What another thread's step leaves as the looper needs it. */
  predicate SparesLooper(s: State, s': State) {
    && (s'.looper == s.looper || (s.looper == NotStarted && s'.looper == BootLock))
    && s'.lockFailed == s.lockFailed
    && (s'.lock.holder == None <==> s'.lock.depth == 0)
    && (Holds(s, LOOPER) || Holds(s', LOOPER) ==> s'.lock == s.lock && (s.queue != [] ==> s'.queue != []))
    && (Holds(s, LOOPER) ==> s'.terminating == s.terminating)
  }

  lemma {:induction false} IdleSparesLooper(s: State, t: ThreadId, s': State)
    requires (s.lock.holder == None <==> s.lock.depth == 0) && t != LOOPER
    requires t in s.pc && IdleStep(s, t, s')
    ensures SparesLooper(s, s')
  {
    hide Without, L.Atomic;
    forall op | L.Atomic(s.lock, op, t, s'.lock, L.Ok)
      ensures s.lock.holder == Some(LOOPER) || s'.lock.holder == Some(LOOPER) ==> s'.lock == s.lock
      ensures s'.lock.holder == None <==> s'.lock.depth == 0
    {
      CallSparesLooper(s.lock, op, t, s'.lock);
    }
  }

  lemma {:induction false} BusySparesLooper(s: State, t: ThreadId, s': State)
    requires (s.lock.holder == None <==> s.lock.depth == 0) && t != LOOPER
    requires t in s.pc && BusyStep(s, t, s') && ThreadStarted(s, t)
    ensures SparesLooper(s, s')
  {
    hide L.Atomic;
    match s.pc[t]
    case RunUnlock => CallSparesLooper(s.lock, L.DoUnlock, t, s'.lock);
    case Quitting =>
      if IsLockedSays(s, t, true) && L.Atomic(s.lock, L.DoUnlock, t, s'.lock, L.Ok) {
        CallSparesLooper(s.lock, L.DoUnlock, t, s'.lock);
      }
    case _ =>
  }

  lemma {:induction false} WorkerSparesLooper(s: State, t: ThreadId, s': State)
    requires (s.lock.holder == None <==> s.lock.depth == 0) && t != LOOPER
    requires WorkerStep(s, t, s') && ThreadStarted(s, t)
    ensures SparesLooper(s, s')
  {
    hide IdleStep, BusyStep;
    if s.pc[t] == Idle {
      IdleSparesLooper(s, t, s');
    } else {
      BusySparesLooper(s, t, s');
    }
  }

  lemma {:induction false} WorkerKeepsDisciplined(s: State, t: ThreadId, s': State)
    requires Disciplined(s) && Started(s) && WorkerStep(s, t, s')
    ensures Disciplined(s')
  {
    assert t != LOOPER && ThreadStarted(s, t);
    hide WorkerStep;
    WorkerSparesLooper(s, t, s');
  }

  // No lost wakeup

  /** Between its enqueue or its flag write and its decision about the token. */
  predicate DecisionPending(pc: Pc) {
    pc in {Posted, Probing, Sending, Quitting}
  }

  /** The looper will read the pipe next unless it finds a message. */
  predicate NearSleep(looper: LooperPc) {
    looper == CheckQueue || looper == Receiving
  }

  /** Work that the looper does not know of when it sleeps or is about to. */
  predicate Unseen(s: State) {
    || (s.looper == Receiving && s.queue != [])
    || (NearSleep(s.looper) && s.terminating)
  }

  ghost predicate SomeonePending(s: State) {
    exists t :: t in s.pc && DecisionPending(s.pc[t])
  }

  /** If the looper sleeps, or is about to, with no token in the pipe while there is work, then a poster or a
      quitter still has its decision about the token ahead. */
  ghost predicate NoLostWakeup(s: State) {
    Unseen(s) && s.tokens == 0 ==> SomeonePending(s)
  }

  lemma {:induction false} LooperLosesNoWakeup(s: State, s': State)
    requires NoLostWakeup(s) && LooperStep(s, s')
    ensures NoLostWakeup(s')
  {
    hide Without, L.Atomic, Route;
    LooperKeepsThreads(s, s');
    if SomeonePending(s) {
      var u :| u in s.pc && DecisionPending(s.pc[u]);
      assert u in s'.pc;
    }
    if s.looper == CheckQueue && s.queue == [] {
      assert Unseen(s') ==> Unseen(s);
    }
  }

  /** What a worker's own step does to the wakeup: it makes a decision pending, adds a token, sees one, or leaves
      the work as it was. */
  lemma {:induction false} WorkerWakes(s: State, t: ThreadId, s': State)
    requires WorkerStep(s, t, s') && ThreadStarted(s, t) && (s.runner == None ==> s.looper == NotStarted)
    requires Unseen(s') && s'.tokens == 0
    ensures t in s'.pc && (DecisionPending(s'.pc[t]) || (Unseen(s) && s.tokens == 0 && !DecisionPending(s.pc[t])))
  {
    hide Without;
  }

  lemma {:induction false} WorkerLosesNoWakeup(s: State, t: ThreadId, s': State)
    requires NoLostWakeup(s) && Started(s) && WorkerStep(s, t, s')
    ensures NoLostWakeup(s')
  {
    if Unseen(s') && s'.tokens == 0 {
      assert ThreadStarted(s, t);
      WorkerWakes(s, t, s');
      WorkerKeepsOthers(s, t, s');
      if !DecisionPending(s'.pc[t]) {
        var u :| u in s.pc && DecisionPending(s.pc[u]);
        assert u in s'.pc && DecisionPending(s'.pc[u]);
      }
    }
  }

  // The pipe

  ghost function Senders(s: State): (senders: set<ThreadId>)
    ensures senders <= s.pc.Keys
  {
    set t <- s.pc.Keys | s.pc[t] == Sending
  }

  /** Tokens in the pipe and tokens about to be sent are together at most as many as there are threads. */
  ghost predicate PipeBounded(s: State) {
    s.tokens + |Senders(s)| <= |s.pc.Keys|
  }

  lemma {:induction false} SubsetIsSmaller(a: set<ThreadId>, b: set<ThreadId>)
    requires a <= b
    ensures |a| <= |b|
  {
    assert b == a + (b - a) && a * (b - a) == {};
  }

  lemma {:induction false} WorkerTokens(s: State, t: ThreadId, s': State)
    requires WorkerStep(s, t, s')
    ensures s'.tokens == s.tokens + if s.pc[t] == Sending then 1 else 0
    ensures t in s'.pc && (s'.pc[t] == Sending ==> s.tokens == 0)
    ensures s.pc[t] == Sending ==> s'.pc[t] != Sending
  {
    hide Without, L.Atomic;
  }

  lemma {:induction false} WorkerKeepsPipeBounded(s: State, t: ThreadId, s': State)
    requires PipeBounded(s) && WorkerStep(s, t, s')
    ensures PipeBounded(s')
  {
    hide WorkerStep;
    WorkerTokens(s, t, s');
    WorkerKeepsOthers(s, t, s');
    SubsetIsSmaller(Senders(s'), s'.pc.Keys);
    forall u ensures u in Senders(s') <==> if u == t then s'.pc[t] == Sending else u in Senders(s) {
      assert u in s'.pc.Keys <==> u in s.pc.Keys;
    }
    if s.pc[t] == Sending {
      assert Senders(s') == Senders(s) - {t};
    } else if s'.pc[t] != Sending {
      assert Senders(s') == Senders(s);
    }
  }

  lemma {:induction false} LooperKeepsPipeBounded(s: State, s': State)
    requires PipeBounded(s) && LooperStep(s, s')
    ensures PipeBounded(s')
  {
    LooperKeepsThreads(s, s');
    assert s'.tokens <= s.tokens;
    assert Senders(s') == Senders(s);
  }

  // Handlers

  /** The preferred handler is one of the looper's. */
  predicate PreferredIsOurs(s: State) {
    s.preferred.Some? ==> s.preferred.value in s.handlers
  }

  lemma {:induction false} EditKeepsPreferred(s: State, s': State)
    requires PreferredIsOurs(s) && HandlerEdit(s, s')
    ensures PreferredIsOurs(s')
  {
  }

  lemma {:induction false} WorkerKeepsPreferred(s: State, t: ThreadId, s': State)
    requires PreferredIsOurs(s) && WorkerStep(s, t, s')
    ensures PreferredIsOurs(s')
  {
    if s.pc[t] == Idle {
      hide HandlerEdit, BusyStep, Without, L.Atomic;
      if HandlerEdit(s, s') {
        EditKeepsPreferred(s, s');
      }
    } else {
      hide IdleStep, L.Atomic;
    }
  }

  lemma {:induction false} LooperKeepsPreferred(s: State, s': State)
    requires PreferredIsOurs(s) && LooperStep(s, s')
    ensures PreferredIsOurs(s')
  {
    hide HandlerEdit, Without, Route, L.Atomic;
    match s.looper
    case Handling(_) =>
      if HandlerEdit(s, s') {
        EditKeepsPreferred(s, s');
      }
    case _ =>
  }

  // Whole runs

  ghost predicate Invariant(s: State) {
    Fifo(s) && Started(s) && Disciplined(s) && NoLostWakeup(s) && PipeBounded(s) && PreferredIsOurs(s)
  }

  lemma {:induction false} StepKeepsInvariant(s: State, t: ThreadId, s': State)
    requires Invariant(s) && Step(s, t, s')
    ensures Invariant(s')
  {
    hide WorkerStep, LooperStep, Fifo, Started, Disciplined, NoLostWakeup, PipeBounded, PreferredIsOurs;
    StepKeepsStarted(s, t, s');
    if t == LOOPER {
      LooperKeepsPreferred(s, s');
      LooperKeepsFifo(s, s');
      LooperKeepsDisciplined(s, s');
      LooperLosesNoWakeup(s, s');
      LooperKeepsPipeBounded(s, s');
    } else {
      WorkerKeepsFifo(s, t, s');
      WorkerKeepsDisciplined(s, t, s');
      WorkerLosesNoWakeup(s, t, s');
      WorkerKeepsPipeBounded(s, t, s');
      WorkerKeepsPreferred(s, t, s');
    }
  }

  /** The protocol in every interleaving: no wakeup is lost, the pipe holds at most one token per thread,
      messages are taken in the order they were enqueued minus those removed and delivered in the order they
      were taken minus those dropped, and while `Lock()` does not fail the looper never pops an empty queue. */
  lemma {:induction false} RunIsSafe(run: seq<State>, schedule: seq<ThreadId>, creator: ThreadId, n: nat)
    requires Run(run, schedule, creator) && n < |run|
    ensures Invariant(run[n])
  {
    hide WorkerStep, LooperStep;
    if n > 0 {
      RunIsSafe(run, schedule, creator, n - 1);
      assert Step(run[n - 1], schedule[n - 1], run[n - 1 + 1]);
      StepKeepsInvariant(run[n - 1], schedule[n - 1], run[n]);
    } else {
      assert forall t <- run[0].pc :: run[0].pc[t] == Idle;
      assert |Senders(run[0])| == 0;
    }
  }

  // Dispatch

  /** A message in hand is meant for `h`: the handler it is addressed to, or without one the preferred handler, or
      without that the looper; and that one belongs to the looper. */
  predicate DispatchedTo(s: State, m: Msg, h: Handler) {
    && s.looper == Deliver(m) && h in s.handlers
    && (m.target == Some(h) || (m.target == None && (s.preferred == Some(h) || (s.preferred == None && h == SELF))))
  }

  /** That handler does not belong to the looper. */
  predicate DroppedFrom(s: State, m: Msg) {
    && s.looper == Deliver(m)
    && match m.target
       case Some(h) => h !in s.handlers
       case None => s.preferred == None && SELF !in s.handlers
  }

  /** A dispatch delivers the message to the handler it is meant for if the looper has it, and otherwise drops it.  The
      answer to a quit request to the looper itself is stored next; it may be yes. */
  lemma {:induction false} DispatchIff(s: State, m: Msg, s': State)
    requires s.looper == Deliver(m) && DeliverStep(s, m, s') && PreferredIsOurs(s)
    ensures s' == s.(looper := s'.looper, history := s'.history)
    ensures forall h | DispatchedTo(s, m, h) ::
              && s'.history
                 == s.history.(delivered := s.history.delivered + [m], receivers := s.history.receivers + [h])
              && (s'.looper == Handling(m) <==> !(m.quits && h == SELF))
              && (m.quits && h == SELF ==>
                    && (s'.looper == Storing(m, true) || s'.looper == Storing(m, s.terminating))
                    && DeliverStep(s, m, s'.(looper := Storing(m, true))))
    ensures DroppedFrom(s, m) ==>
              s'.looper == Handling(m) && s'.history == s.history.(dropped := s.history.dropped + {m})
    ensures DroppedFrom(s, m) <==> forall h :: !DispatchedTo(s, m, h)
  {
    var h := if m.target.Some? then m.target.value else if s.preferred.Some? then s.preferred.value else SELF;
    assert h in s.handlers ==> DispatchedTo(s, m, h);
  }

  /** No other step delivers or drops anything. */
  predicate KeepsDispatched(s: State, s': State) {
    && s'.history.delivered == s.history.delivered && s'.history.receivers == s.history.receivers
    && s'.history.dropped == s.history.dropped
  }

  /** What other threads leave alone. */
  predicate KeepsWork(s: State, s': State) {
    && KeepsDispatched(s, s') && s'.history.taken == s.history.taken
    && (s'.looper == s.looper || s'.looper == BootLock)
  }

  lemma {:induction false} WorkerKeepsWork(s: State, t: ThreadId, s': State)
    requires WorkerStep(s, t, s')
    ensures KeepsWork(s, s')
  {
    hide Without, L.Atomic;
    if s.pc[t] == Idle {
      hide BusyStep;
    } else {
      hide IdleStep;
    }
  }

  lemma {:induction false} HandlingKeepsWork(s: State, m: Msg, s': State)
    requires s.looper == Handling(m) && HandlingStep(s, m, s')
    ensures KeepsDispatched(s, s') && s'.history.taken == s.history.taken
    ensures s'.looper == s.looper || s'.looper == if m.breaks then AfterDrain else DrainCheck
  {
    hide Without, L.Atomic;
  }

  lemma {:induction false} LooperKeepsDispatched(s: State, s': State)
    requires LooperStep(s, s') && !s.looper.Deliver?
    ensures KeepsDispatched(s, s')
  {
    hide L.Atomic, DeliverStep, HandlingStep;
    match s.looper
    case Handling(m) => HandlingKeepsWork(s, m, s');
    case _ =>
  }

  /** To whom everything went, in every interleaving: each message delivered so far went to the handler that it was
      meant for at a point of the run where the looper had that handler, and each message dropped so far was meant for
      one that the looper did not have. */
  lemma {:induction false} RunDispatches(run: seq<State>, schedule: seq<ThreadId>, creator: ThreadId, n: nat)
    requires Run(run, schedule, creator) && n < |run|
    ensures
      var h := run[n].history;
      && |h.receivers| == |h.delivered|
      && (forall k | 0 <= k < |h.delivered| ::
            exists i | 0 <= i < n :: DispatchedTo(run[i], h.delivered[k], h.receivers[k]))
      && (forall m | m in h.dropped :: exists i | 0 <= i < n :: DroppedFrom(run[i], m))
  {
    if n > 0 {
      RunDispatches(run, schedule, creator, n - 1);
      RunIsSafe(run, schedule, creator, n - 1);
      var s, t, s' := run[n - 1], schedule[n - 1], run[n - 1 + 1];
      assert Step(s, t, s');
      if t == LOOPER && s.looper.Deliver? {
        DispatchIff(s, s.looper.msg, s');
        hide Invariant, Init, Step, Route, DeliverStep;
        assert DroppedFrom(s, s.looper.msg) || exists h :: DispatchedTo(s, s.looper.msg, h);
      } else {
        hide LooperStep, WorkerStep, Invariant, Init;
        if t == LOOPER {
          LooperKeepsDispatched(s, s');
        } else {
          WorkerKeepsWork(s, t, s');
        }
        hide Step;
      }
    }
  }

  /** The answer to a quit request is stored as it was given. */
  lemma {:induction false} AnswerIsStored(s: State, s': State)
    requires s.looper.Storing? && LooperStep(s, s')
    ensures s'.terminating == s.looper.value && s'.looper == Handling(s.looper.msg)
    ensures s'.queue == s.queue && s'.history == s.history
  {
  }

  /** Handlers under the lock: one that is removed is gone and is preferred no more, the others stay, and so does the
      preferred one; one that is registered can be preferred, and no other. */
  lemma {:induction false} EditsAreExact(s: State, h: Handler)
    ensures forall x :: x in RemoveHandler(s, h).handlers <==> x in s.handlers && x != h
    ensures forall x :: RemoveHandler(s, h).preferred == Some(x) <==> s.preferred == Some(x) && x != h
    ensures SetPreferred(s, Some(h)).preferred == Some(h) <==> h in s.handlers
    ensures h !in s.handlers ==> SetPreferred(s, Some(h)).preferred == None
    ensures SetPreferred(s, None).preferred == None && SetPreferred(s, Some(h)).handlers == s.handlers
  {
  }

  // Draining

  /** The message that the looper works on is the one it has taken last. */
  ghost predicate LastInHand(s: State) {
    s.looper.Deliver? || s.looper.Storing? || s.looper.Handling? ==>
      s.history.taken != [] && s.history.taken[|s.history.taken| - 1] == s.looper.msg
  }

  lemma {:induction false} LooperKeepsLastInHand(s: State, s': State)
    requires LastInHand(s) && LooperStep(s, s')
    ensures LastInHand(s')
  {
    hide L.Atomic, Route, HandlingStep;
    match s.looper
    case Handling(m) => HandlingKeepsWork(s, m, s');
    case Deliver(_) =>
    case _ =>
      hide DeliverStep;
  }

  lemma {:induction false} StepKeepsLastInHand(s: State, t: ThreadId, s': State)
    requires LastInHand(s) && Step(s, t, s')
    ensures LastInHand(s')
  {
    hide LooperStep, WorkerStep;
    if t == LOOPER {
      LooperKeepsLastInHand(s, s');
    } else {
      WorkerKeepsWork(s, t, s');
    }
  }

  lemma {:induction false} RunKeepsLastInHand(run: seq<State>, schedule: seq<ThreadId>, creator: ThreadId, n: nat)
    requires Run(run, schedule, creator) && n < |run|
    ensures LastInHand(run[n])
  {
    if n > 0 {
      RunKeepsLastInHand(run, schedule, creator, n - 1);
      hide Step, LastInHand;
      assert Step(run[n - 1], schedule[n - 1], run[n - 1 + 1]);
      StepKeepsLastInHand(run[n - 1], schedule[n - 1], run[n]);
    }
  }

  /** At every point of every run: the looper goes on draining as long as it sees messages, and stops exactly when it
      sees none or when the message it has taken last asks for a break. */
  lemma {:induction false} DrainEndsIff(run: seq<State>, schedule: seq<ThreadId>, creator: ThreadId, n: nat)
    requires Run(run, schedule, creator) && n < |schedule| && schedule[n] == LOOPER
    requires run[n].looper == DrainCheck || run[n].looper.Handling?
    requires run[n + 1].looper != run[n].looper
    ensures run[n].looper.Handling? ==> run[n].history.taken != []
    ensures run[n + 1].looper == AfterDrain <==>
              if run[n].looper == DrainCheck then run[n].queue == []
              else run[n].history.taken[|run[n].history.taken| - 1].breaks
    ensures run[n + 1].looper != AfterDrain ==>
              run[n + 1].looper == if run[n].looper == DrainCheck then Popping else DrainCheck
  {
    RunKeepsLastInHand(run, schedule, creator, n);
    assert Step(run[n], schedule[n], run[n + 1]);
    hide Run, Without, L.Atomic, Route;
  }

  /** The looper goes to sleep exactly when it sees no message, and a token in the pipe wakes it. */
  lemma {:induction false} SleepsIff(s: State, s': State)
    requires LooperStep(s, s') && (s.looper == CheckQueue || s.looper == Receiving)
    ensures s'.looper == Receiving <==> s.looper == CheckQueue && s.queue == []
    ensures s'.looper != Receiving ==> s'.looper == Acquire
    ensures s.looper == Receiving && s.tokens > 0 ==> LooperStep(s, s'.(tokens := s.tokens - 1))
    ensures s'.queue == s.queue
  {
  }

  /** A quit is never undone: while the looper's `Lock()` has not failed, no step clears fTerminating, although
      dispatching a quit request reads it and writes it back in separate accesses. */
  lemma {:induction false} QuitIsNeverUndone(s: State, t: ThreadId, s': State)
    requires Disciplined(s) && Step(s, t, s') && !s.lockFailed
    ensures s.terminating ==> s'.terminating
  {
    hide Without, Route, L.Atomic;
  }

  lemma {:induction false} QuitIsFinal(run: seq<State>, schedule: seq<ThreadId>, creator: ThreadId, i: nat, j: nat)
    requires Run(run, schedule, creator) && i <= j < |run| && run[i].terminating
    requires forall n | 0 <= n < |run| :: !run[n].lockFailed
    ensures run[j].terminating
    decreases j
  {
    if i < j {
      QuitIsFinal(run, schedule, creator, i, j - 1);
      RunIsSafe(run, schedule, creator, j - 1);
      hide Step, Disciplined;
      assert Step(run[j - 1], schedule[j - 1], run[j - 1 + 1]);
      QuitIsNeverUndone(run[j - 1], schedule[j - 1], run[j]);
    }
  }

  /** The looper ends exactly where it sees the flag, and it looks in front of each round and behind each drain.
      `task_looper` says that it leaves the looper locked when it quits.  That is so exactly when it saw the flag
      after draining; if a quitter sets it between that look and the next one, the looper leaves unlocked. */
  lemma {:induction false} LeavesLockedIff(s: State, s': State)
    requires Disciplined(s) && !s.lockFailed && LooperStep(s, s')
    ensures s'.looper == Done <==> s.terminating && (s.looper == CheckTerminating || s.looper == AfterDrain)
    ensures s'.looper == Done ==> (Holds(s', LOOPER) <==> s.looper == AfterDrain)
  {
    hide Without, Route, L.Atomic;
  }

  /** A thread that quits the looper goes on to wake it only when it does not hold the lock any more, so that the looper
      can lock; while it holds the lock each of its steps takes one hold away. */
  lemma {:induction false} QuitterLetsGo(s: State, t: ThreadId, s': State)
    requires Disciplined(s) && t in s.pc && s.pc[t] == Quitting && WorkerStep(s, t, s')
    ensures t in s'.pc && (s'.pc[t] == Probing ==> !Holds(s', t) && s'.lock == s.lock)
    ensures Holds(s, t) ==> s'.pc[t] == Quitting && s'.lock.depth < s.lock.depth
    ensures Holds(s', t) ==> Holds(s, t)
    ensures s'.pc[t] == Quitting || s'.pc[t] == Probing
  {
  }

  /** How many drains a looper that has been told to quit may still start. */
  function DrainsLeft(looper: LooperPc): (left: nat)
    ensures left <= 1
  {
    if looper == CheckQueue || looper == Receiving || looper == Acquire then 1 else 0
  }

  /** How many drains it starts in the first `n` steps. */
  ghost function Drains(run: seq<State>, schedule: seq<ThreadId>, n: nat): nat
    requires n <= |schedule| < |run|
  {
    if n == 0 then 0
    else Drains(run, schedule, n - 1) + if schedule[n - 1] == LOOPER && run[n - 1].looper == Acquire then 1 else 0
  }

  lemma {:induction false} LooperStartsDrain(s: State, s': State)
    requires LooperStep(s, s') && s.terminating
    ensures DrainsLeft(s'.looper) + (if s.looper == Acquire then 1 else 0) <= DrainsLeft(s.looper)
  {
    hide L.Atomic, Route, HandlingStep;
    match s.looper
    case Handling(m) => HandlingKeepsWork(s, m, s');
    case Deliver(_) =>
    case _ =>
      hide DeliverStep;
  }

  /** A looper that has been told to quit starts at most one more drain, and none if it was not on its way to one. */
  lemma {:induction false} QuitStopsLooper(run: seq<State>, schedule: seq<ThreadId>, n: nat)
    requires |run| == |schedule| + 1 && n < |run| && Invariant(run[0]) && run[0].terminating
    requires forall i | 0 <= i < |schedule| :: Step(run[i], schedule[i], run[i + 1])
    requires forall i | 0 <= i < |run| :: !run[i].lockFailed
    ensures Invariant(run[n]) && run[n].terminating
    ensures Drains(run, schedule, n) + DrainsLeft(run[n].looper) <= DrainsLeft(run[0].looper) <= 1
  {
    hide LooperStep, WorkerStep, Fifo, Started, Disciplined, NoLostWakeup, PipeBounded, PreferredIsOurs;
    if n > 0 {
      QuitStopsLooper(run, schedule, n - 1);
      var s, t, s' := run[n - 1], schedule[n - 1], run[n - 1 + 1];
      assert Step(s, t, s');
      StepKeepsInvariant(s, t, s');
      QuitIsNeverUndone(s, t, s');
      if t == LOOPER {
        LooperStartsDrain(s, s');
      } else {
        WorkerKeepsWork(s, t, s');
      }
    }
  }

  /** What `IsLocked` answers here is what module LooperLock proves of its single read. */
  lemma {:induction false} IsLockedSaysWhatItReads(s: State, l: L.State, t: ThreadId)
    requires L.Invariant(l) && s.lock == L.Abstract(l) && t in l.pc && l.pc[t] == L.Idle
    ensures IsLockedSays(s, t, l.count > 0)
  {
    L.IsLockedReads(l);
  }

  /** `task_looper` unlocks the looper and then takes it for an error if it is locked.  It is whenever another thread
      got the lock in between: the looper aborts only then, and has to if that thread has it twice. */
  lemma {:induction false} BootAbortsIff(s: State)
    requires Disciplined(s) && s.looper == BootCheck && !s.lockFailed
    ensures LooperStep(s, s.(looper := Aborted)) <==> exists t :: t != LOOPER && Holds(s, t)
    ensures s.lock.depth > 1 ==> !LooperStep(s, s.(looper := CheckTerminating))
  {
    assert !Holds(s, LOOPER);
    if s.lock.holder.Some? {
      assert Holds(s, s.lock.holder.value);
    }
  }

  // Runs that show the exceptions

  ghost predicate RunTo(run: seq<State>, schedule: seq<ThreadId>, creator: ThreadId, last: State) {
    Run(run, schedule, creator) && run[|run| - 1] == last
  }

  lemma {:induction false} Then(run: seq<State>, schedule: seq<ThreadId>, creator: ThreadId, s: State,
                               t: ThreadId, s': State) returns (run': seq<State>, schedule': seq<ThreadId>)
    requires RunTo(run, schedule, creator, s) && Step(s, t, s')
    ensures RunTo(run', schedule', creator, s')
  {
    hide Step, Init;
    run', schedule' := run + [s'], schedule + [t];
    forall i | 0 <= i < |schedule'| ensures Step(run'[i], schedule'[i], run'[i + 1]) {
      if i < |schedule| {
        assert Step(run[i], schedule[i], run[i + 1]);
      }
    }
  }

  /** A looper of which thread `t` has called Run, with its own thread at `looper`. */
  function Running(t: ThreadId, looper: LooperPc): State {
    State([], 0, false, Some(t), L.Lock(None, 0), {SELF}, None, looper, map[t := Idle], false,
          History([], [], {}, {}, [], []))
  }

  /** One thread creates a looper and runs it. */
  lemma {:induction false} Resumed(t: ThreadId) returns (run: seq<State>, schedule: seq<ThreadId>)
    requires t != LOOPER
    ensures RunTo(run, schedule, t, Running(t, BootLock))
  {
    var created := Running(t, NotStarted).(runner := None, lock := L.Lock(Some(t), 1));
    run, schedule := [created], [];
    var s1 := Goto(created, t, RunUnlock).(runner := Some(t));
    run, schedule := Then(run, schedule, t, created, t, s1);
    var s2 := Goto(s1, t, RunResume).(lock := L.Lock(None, 0));
    run, schedule := Then(run, schedule, t, s1, t, s2);
    var s3 := Goto(s2, t, Idle).(looper := BootLock);
    run, schedule := Then(run, schedule, t, s2, t, s3);
    assert s3 == Running(t, BootLock);
  }

  /** The looper has locked and unlocked itself. */
  lemma {:induction false} Booted(t: ThreadId) returns (run: seq<State>, schedule: seq<ThreadId>)
    requires t != LOOPER
    ensures RunTo(run, schedule, t, Running(t, BootCheck))
  {
    run, schedule := Resumed(t);
    var s1, s3 := Running(t, BootLock), Running(t, BootCheck);
    var s2 := Running(t, BootUnlock).(lock := L.Lock(Some(LOOPER), 1));
    run, schedule := Then(run, schedule, t, s1, LOOPER, s2);
    run, schedule := Then(run, schedule, t, s2, LOOPER, s3);
  }

  /** A run in which the looper aborts because another thread locked it in time. */
  lemma {:induction false} BootMayAbort(t: ThreadId) returns (run: seq<State>, schedule: seq<ThreadId>, last: State)
    requires t != LOOPER
    ensures RunTo(run, schedule, t, last) && last.looper == Aborted && Holds(last, t)
  {
    run, schedule := Booted(t);
    var s1 := Running(t, BootCheck);
    var s2 := s1.(lock := L.Lock(Some(t), 1));
    run, schedule := Then(run, schedule, t, s1, t, s2);
    last := s2.(looper := Aborted);
    run, schedule := Then(run, schedule, t, s2, LOOPER, last);
  }

  /** A run in which the looper's thread ends at once, because its first `Lock()` fails, and a message that was posted
      in the belief that it runs stays in the queue for good. */
  lemma {:induction false} MayNotRun(t: ThreadId, m: Msg)
      returns (run: seq<State>, schedule: seq<ThreadId>, last: State)
    requires t != LOOPER
    ensures RunTo(run, schedule, t, last) && last.looper == NotRun && last.queue == [m]
    ensures forall s' :: !LooperStep(last, s')
  {
    run, schedule := Resumed(t);
    var s1, s2 := Running(t, BootLock), Running(t, NotRun);
    run, schedule := Then(run, schedule, t, s1, LOOPER, s2);
    last := Goto(s2, t, Posted).(queue := [m], history := History([m], [], {}, {}, [], []));
    assert Enqueues(Goto(s2, t, Posted), m, last);
    run, schedule := Then(run, schedule, t, s2, t, last);
  }

  /** A run in which the looper ends without its lock, although no `Lock()` failed. */
  lemma {:induction false} MayLeaveUnlocked(t: ThreadId) returns (run: seq<State>, schedule: seq<ThreadId>, last: State)
    requires t != LOOPER
    ensures RunTo(run, schedule, t, last) && last.looper == Done && !Holds(last, LOOPER) && !last.lockFailed
  {
    run, schedule := Booted(t);
    var s1, s2 := Running(t, BootCheck), Running(t, CheckTerminating);
    run, schedule := Then(run, schedule, t, s1, LOOPER, s2);
    var s3 := s2.(lock := L.Lock(Some(t), 1));
    run, schedule := Then(run, schedule, t, s2, t, s3);
    var s4 := Goto(s3, t, Quitting).(terminating := true);
    run, schedule := Then(run, schedule, t, s3, t, s4);
    last := s4.(looper := Done);
    run, schedule := Then(run, schedule, t, s4, LOOPER, last);
  }

  /** A message posted to a looper that is about to look at its queue. */
  lemma {:induction false} Delivered(t: ThreadId, m: Msg) returns (run: seq<State>, schedule: seq<ThreadId>)
    requires t != LOOPER
    ensures RunTo(run, schedule, t, Loaded(t, m))
  {
    run, schedule := Booted(t);
    var s1, s2, s3 := Running(t, BootCheck), Running(t, CheckTerminating), Running(t, CheckQueue);
    run, schedule := Then(run, schedule, t, s1, LOOPER, s2);
    run, schedule := Then(run, schedule, t, s2, LOOPER, s3);
    var s4 := Goto(s3, t, Posted).(queue := [m], history := History([m], [], {}, {}, [], []));
    assert Enqueues(Goto(s3, t, Posted), m, s4);
    run, schedule := Then(run, schedule, t, s3, t, s4);
    var s5 := Goto(s4, t, Probing);
    run, schedule := Then(run, schedule, t, s4, t, s5);
    var s6 := Goto(s5, t, Sending);
    run, schedule := Then(run, schedule, t, s5, t, s6);
    var s7 := Goto(s6, t, Idle).(tokens := 1);
    run, schedule := Then(run, schedule, t, s6, t, s7);
    assert s7 == Loaded(t, m);
  }

  function Loaded(t: ThreadId, m: Msg): State {
    Running(t, CheckQueue).(queue := [m], tokens := 1, history := History([m], [], {}, {}, [], []))
  }

  /** A run in which removals under the lock do not protect the pop, because the looper's own `Lock()` failed: after the
      looper saw a message, another thread removes it, and the looper pops an empty list. */
  lemma {:induction false} FailedLockLosesPop(t: ThreadId, m: Msg)
      returns (run: seq<State>, schedule: seq<ThreadId>, last: State)
    requires t != LOOPER
    ensures RunTo(run, schedule, t, last) && last.looper == Crashed
  {
    run, schedule := Delivered(t, m);
    var s1 := Loaded(t, m);
    var s2 := s1.(lock := L.Lock(Some(t), 1));
    run, schedule := Then(run, schedule, t, s1, t, s2);
    var s3 := s2.(looper := Acquire);
    run, schedule := Then(run, schedule, t, s2, LOOPER, s3);
    var s4 := s3.(looper := DrainCheck, lockFailed := true);
    run, schedule := Then(run, schedule, t, s3, LOOPER, s4);
    var s5 := s4.(looper := Popping);
    run, schedule := Then(run, schedule, t, s4, LOOPER, s5);
    var s6 := Remove(s5, m);
    assert QueueEdit(s5, s6);
    run, schedule := Then(run, schedule, t, s5, t, s6);
    last := s6.(looper := Crashed);
    run, schedule := Then(run, schedule, t, s6, LOOPER, last);
  }

  // Progress

  /** How many looper steps, at most, until the next pop. */
  function Phase(looper: LooperPc): nat {
    match looper
    case Popping => 1
    case DrainCheck => 2
    case Acquire => 3
    case Receiving => 4
    case CheckQueue => 4
    case CheckTerminating => 5
    case Unlocking => 6
    case BootCheck => 6
    case AfterDrain => 7
    case BootUnlock => 7
    case BootLock => 8
    case Handling(_) => 8
    case NotStarted => 8
    case Storing(_, _) => 9
    case Deliver(_) => 10
    case Done => 0
    case Crashed => 0
    case Aborted => 0
    case NotRun => 0
  }

  /** The looper steps that may pass until `m` is taken: ten for each message in front of it. */
  function Rank(s: State, m: Msg): nat
    requires m in s.queue
  {
    10 * Position(s.queue, m) + Phase(s.looper)
  }

  predicate Ended(looper: LooperPc) {
    looper == Done || looper == Crashed || looper == Aborted || looper == NotRun
  }

  /** The message still waits, and the looper has not ended. */
  predicate Waits(s: State, m: Msg) {
    m in s.queue && !Ended(s.looper)
  }

  lemma {:induction false} QueueEditKeepsRank(s: State, s': State, m: Msg)
    requires QueueEdit(s, s') && m in s.queue && m in s'.queue
    ensures Position(s'.queue, m) <= Position(s.queue, m) && s'.looper == s.looper
  {
    var out :| s' == Remove(s, out);
    WithoutMovesUp(s.queue, {out}, m);
  }

  lemma {:induction false} PopMovesUp(s: State, m: Msg)
    requires s.queue != [] && m in Pop(s).queue && m != s.queue[0]
    ensures m in s.queue && Position(Pop(s).queue, m) + 1 == Position(s.queue, m)
  {
    PositionBehind(s.queue[0], s.queue[1..], m);
    assert s.queue == [s.queue[0]] + s.queue[1..];
  }

  lemma {:induction false} HandlingKeepsRank(s: State, h: Msg, s': State, m: Msg)
    requires s.looper == Handling(h) && HandlingStep(s, h, s') && m in s.queue && m in s'.queue
    ensures s'.looper == s.looper || s'.looper == AfterDrain || s'.looper == DrainCheck
    ensures Position(s'.queue, m) <= Position(s.queue, m)
  {
    if m' :| Enqueues(s, m', s') {
      AppendKeepsPosition(s.queue, m, m');
    } else if QueueEdit(s, s') {
      QueueEditKeepsRank(s, s', m);
    }
  }

  /** Outside the pop and the handler the looper leaves the queue alone. */
  lemma {:induction false} LooperKeepsQueue(s: State, s': State)
    requires LooperStep(s, s') && !s.looper.Handling? && !s.looper.Popping?
    ensures s'.queue == s.queue
    ensures s.queue != [] && !Ended(s'.looper) ==> Phase(s'.looper) < Phase(s.looper)
  {
    hide HandlingStep, L.Atomic;
    if s.looper.Deliver? {
      hide Route;
    } else {
      hide DeliverStep;
    }
  }

  lemma {:induction false} LooperLowersRank(s: State, s': State, m: Msg)
    requires Fifo(s) && LooperStep(s, s') && Waits(s, m) && Waits(s', m)
    ensures Rank(s', m) <= Rank(s, m)
    ensures s'.looper != s.looper ==> Rank(s', m) < Rank(s, m)
  {
    hide L.Atomic, Without, Route, Position;
    match s.looper
    case Popping =>
      WaitingIsDistinct(s);
      PopMovesUp(s, m);
    case Handling(h) => HandlingKeepsRank(s, h, s', m);
    case _ => LooperKeepsQueue(s, s');
  }

  lemma {:induction false} WorkerKeepsRank(s: State, t: ThreadId, s': State, m: Msg)
    requires Started(s) && WorkerStep(s, t, s') && Waits(s, m) && Waits(s', m)
    ensures Rank(s', m) <= Rank(s, m)
  {
    hide L.Atomic, Without, Position;
    assert ThreadStarted(s, t);
    if m' :| s.pc[t] == Idle && Enqueues(Goto(s, t, Posted), m', s') {
      AppendKeepsPosition(s.queue, m, m');
    } else if s.pc[t] == Idle && QueueEdit(s, s') {
      QueueEditKeepsRank(s, s', m);
    }
  }

  /** The steps of the looper's own control flow among the first `n` of a run. */
  ghost function LooperMoves(run: seq<State>, schedule: seq<ThreadId>, n: nat): nat
    requires n <= |schedule| < |run|
  {
    if n == 0 then 0
    else
      LooperMoves(run, schedule, n - 1)
      + if schedule[n - 1] == LOOPER && run[n].looper != run[n - 1].looper then 1 else 0
  }

  /** Progress in every interleaving: a message with `p` others in front of it is dispatched, dropped or removed
      within 10 * p + 10 steps of the looper's control flow, unless the looper ends; no posting, removing or
      breaking off for a repaint makes it wait longer. */
  lemma {:induction false} MessageWaitsBoundedly(run: seq<State>, schedule: seq<ThreadId>, m: Msg, n: nat)
    requires |run| == |schedule| + 1 && n < |run| && Invariant(run[0])
    requires forall i | 0 <= i < |schedule| :: Step(run[i], schedule[i], run[i + 1])
    requires forall i | 0 <= i < |run| :: Waits(run[i], m)
    ensures Invariant(run[n])
    ensures Waits(run[0], m) && Waits(run[n], m)
    ensures LooperMoves(run, schedule, n) + Rank(run[n], m) <= Rank(run[0], m)
    ensures LooperMoves(run, schedule, n) <= 10 * Position(run[0].queue, m) + 10
  {
    hide WorkerStep, LooperStep, Fifo, Started, Disciplined, NoLostWakeup, PipeBounded, PreferredIsOurs, Position;
    if n > 0 {
      MessageWaitsBoundedly(run, schedule, m, n - 1);
      var s, t, s' := run[n - 1], schedule[n - 1], run[n - 1 + 1];
      assert Step(s, t, s');
      StepKeepsInvariant(s, t, s');
      if t == LOOPER {
        LooperLowersRank(s, s', m);
      } else {
        WorkerKeepsRank(s, t, s', m);
      }
    }
  }
}

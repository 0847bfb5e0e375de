/** The lock of a BLooper, kits/app/Looper.cpp: a binary semaphore made recursive by an owner and a count
    that are partly written outside the mutex.

    Any number of threads call LockWithTimeout and Unlock in any order, one shared access per step.  The
    semaphore below is the atomic one that module Semaphore proves sem.c to be.  `possessor` is
    bookkeeping: the thread that took the semaphore last and has not released it. */
module LooperLock {
  import opened Options

  type ThreadId = int

  datatype Status = Ok | Interrupted | AcquireError

  datatype Pc =
    | Idle
    | LockEnter                       // about to lock fLockMutex
    | LockLook                        // holds the mutex, about to compare fOwner with itself
    | LockCounted                     // re-entered, about to unlock the mutex
    | LockRecheck                     // re-entered, about to read fOwner again
    | LockLeave                       // not the owner, about to unlock the mutex
    | LockAcquire                     // about to acquire the semaphore
    | LockSetOwner                    // has the semaphore, about to write fOwner
    | LockSetCount                    // about to write fOwnerCount
    | LockReturn(status: Status)
    | UnlockEnter                     // about to lock fLockMutex
    | UnlockLook                      // holds the mutex, about to compare fOwner with itself
    | UnlockCount                     // is the owner, about to decrement fOwnerCount
    | UnlockClear                     // the count reached zero, about to clear fOwner
    | UnlockRelease                   // about to release the semaphore
    | UnlockLeave                     // done, about to unlock the mutex
    | UnlockReturn

  /** `owner` is fOwner with B_ERROR as None, `count` is fOwnerCount. */
  datatype State = State(owner: Option<ThreadId>, count: int, sem: nat, mutex: Option<ThreadId>,
                         pc: map<ThreadId, Pc>, possessor: Option<ThreadId>)

  function Goto(s: State, t: ThreadId, pc: Pc): State {
    s.(pc := s.pc[t := pc])
  }

  predicate Init(s: State) {
    && s.owner == None && s.count == 0 && s.sem == 1 && s.mutex == None && s.possessor == None
    && forall t <- s.pc :: s.pc[t] == Idle
  }

  /** One shared access inside `LockWithTimeout`; the semaphore may also fail, by timeout or otherwise. */
  predicate LockStep(s: State, t: ThreadId, s': State)
    requires t in s.pc
  {
    match s.pc[t]
    case LockEnter => s.mutex == None && s' == Goto(s, t, LockLook).(mutex := Some(t))
    case LockLook =>
      if s.owner == Some(t) then
        s' == Goto(s, t, LockCounted).(count := s.count + 1)
      else
        s' == Goto(s, t, LockLeave)
    case LockCounted => s' == Goto(s, t, LockRecheck).(mutex := None)
    case LockRecheck => s' == Goto(s, t, LockReturn(if s.owner != Some(t) then Interrupted else Ok))
    case LockLeave => s' == Goto(s, t, LockAcquire).(mutex := None)
    case LockAcquire =>
      || (s.sem > 0 && s' == Goto(s, t, LockSetOwner).(sem := s.sem - 1, possessor := Some(t)))
      || s' == Goto(s, t, LockReturn(AcquireError))
    case LockSetOwner => s' == Goto(s, t, LockSetCount).(owner := Some(t))
    case LockSetCount => s' == Goto(s, t, LockReturn(Ok)).(count := 1)
    case LockReturn(_) => s' == Goto(s, t, Idle)
    case _ => false
  }

  /** One shared access inside `Unlock`. */
  predicate UnlockStep(s: State, t: ThreadId, s': State)
    requires t in s.pc
  {
    match s.pc[t]
    case UnlockEnter => s.mutex == None && s' == Goto(s, t, UnlockLook).(mutex := Some(t))
    case UnlockLook => s' == Goto(s, t, if s.owner == Some(t) then UnlockCount else UnlockLeave)
    case UnlockCount =>
      s' == Goto(s, t, if s.count - 1 == 0 then UnlockClear else UnlockLeave).(count := s.count - 1)
    case UnlockClear => s' == Goto(s, t, UnlockRelease).(owner := None)
    case UnlockRelease => s' == Goto(s, t, UnlockLeave).(sem := s.sem + 1, possessor := None)
    case UnlockLeave => s' == Goto(s, t, UnlockReturn).(mutex := None)
    case UnlockReturn => s' == Goto(s, t, Idle)
    case _ => false
  }

  /** A thread may call Lock or Unlock at any time, whether or not it owns the lock. */
  predicate Step(s: State, t: ThreadId, s': State) {
    && t in s.pc
    && (|| (s.pc[t].Idle? && (s' == Goto(s, t, LockEnter) || s' == Goto(s, t, UnlockEnter)))
        || LockStep(s, t, s')
        || UnlockStep(s, t, s'))
  }

  /** The states of a run, and which thread made each step. */
  predicate Run(run: seq<State>, schedule: seq<ThreadId>) {
    && |run| == |schedule| + 1
    && Init(run[0])
    && forall i | 0 <= i < |schedule| :: Step(run[i], schedule[i], run[i + 1])
  }

  // What holds at every point of a run

  predicate InMutex(pc: Pc) {
    pc in {LockLook, LockCounted, LockLeave, UnlockLook, UnlockCount, UnlockClear, UnlockRelease, UnlockLeave}
  }

  /** Has the semaphore but fOwner does not say so yet, or does not say so any more. */
  predicate InWindow(pc: Pc) {
    pc in {LockSetOwner, UnlockRelease}
  }

  /** The part of the invariant that concerns the shared fields. */
  predicate SharedInvariant(s: State) {
    && s.sem == (if s.possessor == None then 1 else 0)
    && (s.possessor == None ==> s.owner == None && s.count == 0)
    && (s.owner != None ==> s.owner == s.possessor)
    && (s.possessor.Some? ==> s.possessor.value in s.pc && PossessorInvariant(s, s.pc[s.possessor.value]))
  }

  /** fOwner and fOwnerCount as the possessor, being at `pc`, has left them. */
  predicate PossessorInvariant(s: State, pc: Pc) {
    && (s.owner == None <==> InWindow(pc))
    && (if pc in {LockSetOwner, LockSetCount, UnlockClear, UnlockRelease} then s.count == 0 else s.count >= 1)
    && (pc in {LockCounted, LockRecheck} ==> s.count >= 2)
  }

  /** The part of the invariant that concerns one thread. */
  predicate ThreadInvariant(s: State, t: ThreadId)
    requires t in s.pc
  {
    && (InMutex(s.pc[t]) <==> s.mutex == Some(t))
    && (s.pc[t] in {LockCounted, LockRecheck, UnlockCount, UnlockClear, LockSetCount} ==> s.owner == Some(t))
    && (InWindow(s.pc[t]) ==> s.possessor == Some(t))
    && (s.pc[t] in {LockLeave, LockAcquire} ==> s.possessor != Some(t))
    && s.pc[t] != LockReturn(Interrupted)
  }

  predicate Invariant(s: State) {
    SharedInvariant(s) && forall t <- s.pc :: ThreadInvariant(s, t)
  }

  /** Nobody but the possessor is about to write fOwner or fOwnerCount. */
  lemma {:induction false} LockStepKeepsShared(s: State, t: ThreadId, s': State)
    requires Invariant(s) && t in s.pc && LockStep(s, t, s')
    ensures SharedInvariant(s')
  {
    assert ThreadInvariant(s, t);
  }

  lemma {:induction false} UnlockStepKeepsShared(s: State, t: ThreadId, s': State)
    requires Invariant(s) && t in s.pc && UnlockStep(s, t, s')
    ensures SharedInvariant(s')
  {
    assert ThreadInvariant(s, t);
  }

  lemma {:induction false} StepKeepsShared(s: State, t: ThreadId, s': State)
    requires Invariant(s) && Step(s, t, s')
    ensures SharedInvariant(s')
  {
    hide LockStep, UnlockStep;
    if LockStep(s, t, s') {
      LockStepKeepsShared(s, t, s');
    } else if UnlockStep(s, t, s') {
      UnlockStepKeepsShared(s, t, s');
    }
  }

  /** What a thread's own step and the steps of others leave of its part of the invariant, call by call. */
  lemma {:induction false} CallKeepsThread(s: State, t: ThreadId, s': State, u: ThreadId)
    requires Invariant(s) && t in s.pc && u in s.pc && s.pc[t].Idle?
    requires s' == Goto(s, t, LockEnter) || s' == Goto(s, t, UnlockEnter)
    ensures ThreadInvariant(s', u)
  {
    hide SharedInvariant;
    assert ThreadInvariant(s, t) && ThreadInvariant(s, u);
  }

  lemma {:induction false} LockStepKeepsThread(s: State, t: ThreadId, s': State, u: ThreadId)
    requires Invariant(s) && t in s.pc && u in s.pc && LockStep(s, t, s')
    ensures ThreadInvariant(s', u)
  {
    assert ThreadInvariant(s, t) && ThreadInvariant(s, u);
    hide Invariant;
  }

  lemma {:induction false} UnlockStepKeepsThread(s: State, t: ThreadId, s': State, u: ThreadId)
    requires Invariant(s) && t in s.pc && u in s.pc && UnlockStep(s, t, s')
    ensures ThreadInvariant(s', u)
  {
    assert ThreadInvariant(s, t) && ThreadInvariant(s, u);
    hide Invariant;
  }

  lemma {:induction false} StepKeepsThread(s: State, t: ThreadId, s': State, u: ThreadId)
    requires Invariant(s) && Step(s, t, s') && u in s.pc
    ensures ThreadInvariant(s', u)
  {
    hide Invariant, ThreadInvariant, LockStep, UnlockStep;
    if LockStep(s, t, s') {
      LockStepKeepsThread(s, t, s', u);
    } else if UnlockStep(s, t, s') {
      UnlockStepKeepsThread(s, t, s', u);
    } else {
      CallKeepsThread(s, t, s', u);
    }
  }

  lemma {:induction false} StepKeepsInvariant(s: State, t: ThreadId, s': State)
    requires Invariant(s) && Step(s, t, s')
    ensures Invariant(s')
  {
    StepKeepsShared(s, t, s');
    forall u <- s'.pc ensures ThreadInvariant(s', u) {
      StepKeepsThread(s, t, s', u);
    }
  }

  // The recursive lock that callers see

  /** Who holds the lock and how often. */
  datatype Lock = Lock(holder: Option<ThreadId>, depth: nat)

  datatype Op = DoLock | DoUnlock

  /** What one atomic call does to the recursive lock, and what it returns. */
  predicate Atomic(a: Lock, op: Op, t: ThreadId, a': Lock, status: Status) {
    match op
    case DoLock =>
      || (a.holder == None && a' == Lock(Some(t), 1) && status == Ok)
      || (a.holder == Some(t) && a' == a.(depth := a.depth + 1) && status == Ok)
      || (a.holder != Some(t) && a' == a && status == AcquireError)
    case DoUnlock =>
      && status == Ok
      && a' == if a.holder != Some(t) then a
               else if a.depth <= 1 then Lock(None, 0)
               else a.(depth := a.depth - 1)
  }

  /** The recursive lock that a state stands for: whoever has the semaphore holds the lock, once while
      fOwner and fOwnerCount are not written yet or not cleared yet, and fOwnerCount times otherwise. */
  function Abstract(s: State): Lock {
    if s.possessor == None then Lock(None, 0)
    else Lock(s.possessor, if s.count < 1 then 1 else s.count)
  }

  /** How far a thread's call has come: not called, called but without effect yet, or decided. */
  datatype Phase = NoCall | Pending(op: Op) | Decided(status: Status)

  /** An unlock is decided when it finds a foreign owner, when its decrement leaves holds behind, and when it
      releases the semaphore. */
  function PhaseOf(pc: Pc): Phase {
    match pc
    case Idle => NoCall
    case LockEnter => Pending(DoLock)
    case LockLook => Pending(DoLock)
    case LockLeave => Pending(DoLock)
    case LockAcquire => Pending(DoLock)
    case LockCounted => Decided(Ok)
    case LockRecheck => Decided(Ok)
    case LockSetOwner => Decided(Ok)
    case LockSetCount => Decided(Ok)
    case LockReturn(status) => Decided(status)
    case UnlockEnter => Pending(DoUnlock)
    case UnlockLook => Pending(DoUnlock)
    case UnlockCount => Pending(DoUnlock)
    case UnlockClear => Pending(DoUnlock)
    case UnlockRelease => Pending(DoUnlock)
    case UnlockLeave => Decided(Ok)
    case UnlockReturn => Decided(Ok)
  }

  /** A step is correct for the recursive lock when it starts a call, ends a decided one, or moves inside one
      without touching the lock, or when it decides a pending call with exactly one atomic effect. */
  predicate Linearizes(a: Lock, before: Phase, t: ThreadId, a': Lock, after: Phase) {
    || (before.NoCall? && after.Pending? && a' == a)
    || (before.Decided? && after.NoCall? && a' == a)
    || (before == after && a' == a)
    || (before.Pending? && after.Decided? && Atomic(a, before.op, t, a', after.status))
  }

  predicate StepFits(s: State, t: ThreadId, s': State) {
    && t in s.pc && t in s'.pc
    && Linearizes(Abstract(s), PhaseOf(s.pc[t]), t, Abstract(s'), PhaseOf(s'.pc[t]))
  }

  /** The looper lock is a linearizable recursive mutex: each step of each thread fits the recursive lock. */
  lemma {:induction false} StepLinearizes(s: State, t: ThreadId, s': State)
    requires Invariant(s) && Step(s, t, s')
    ensures StepFits(s, t, s')
  {
    assert ThreadInvariant(s, t);
  }

  /** All interleavings: at every point of every run the invariant holds and every step so far fitted the
      recursive lock. */
  lemma {:induction false} RunLinearizes(run: seq<State>, schedule: seq<ThreadId>, n: nat)
    requires Run(run, schedule) && n < |run|
    ensures Invariant(run[n])
    ensures forall i | 0 <= i < n :: StepFits(run[i], schedule[i], run[i + 1])
  {
    if n > 0 {
      RunLinearizes(run, schedule, n - 1);
      assert Step(run[n - 1], schedule[n - 1], run[n - 1 + 1]);
      StepKeepsInvariant(run[n - 1], schedule[n - 1], run[n]);
      StepLinearizes(run[n - 1], schedule[n - 1], run[n]);
    }
  }

  /** What the code's own state says about possession, windows included: the semaphore is 1 exactly when no thread is in
      possession; at most one is; and a re-entering thread always finds itself the owner, so it never gets
      Interrupted. */
  lemma {:induction false} PossessionIsExclusive(s: State)
    requires Invariant(s)
    ensures s.sem <= 1
    ensures s.sem == 1 <==> forall t <- s.pc :: !Possesses(s, t)
    ensures forall t <- s.pc, u <- s.pc ::
              Possesses(s, t) && Possesses(s, u) ==> t == u
    ensures forall t <- s.pc :: s.pc[t] == LockRecheck ==> s.owner == Some(t)
  {
    forall t <- s.pc | Possesses(s, t) ensures s.possessor == Some(t) {
      assert ThreadInvariant(s, t);
    }
    assert s.possessor.Some? ==> Possesses(s, s.possessor.value);
    forall t <- s.pc | s.pc[t] == LockRecheck ensures s.owner == Some(t) {
      assert ThreadInvariant(s, t);
    }
  }

  /** `IsLocked` reads fOwnerCount alone, outside the mutex: it says yes only while somebody holds the lock, and no only
      while nobody does or while the holder is still on its way in or already on its way out, with a single hold.  To a
      holder itself it says yes. */
  lemma {:induction false} IsLockedReads(s: State)
    requires Invariant(s)
    ensures s.count > 0 ==> Abstract(s).holder.Some?
    ensures s.count <= 0 ==> Abstract(s).holder == None || Abstract(s).depth == 1
    ensures Abstract(s).depth > 1 ==> s.count > 0
    ensures forall t <- s.pc | s.pc[t] == Idle && Abstract(s).holder == Some(t) :: s.count > 0
  {
    assert s.possessor == None ==> s.count == 0;
  }

  /** A thread is in possession from its acquire to its release, judged by the code's own state alone. */
  predicate Possesses(s: State, t: ThreadId)
    requires t in s.pc
  {
    s.owner == Some(t) || InWindow(s.pc[t])
  }

  /** Calls of Unlock by a thread that is not the owner change no field but the mutex. */
  lemma {:induction false} ForeignUnlockChangesNothing(s: State, t: ThreadId, s': State)
    requires Invariant(s) && t in s.pc && UnlockStep(s, t, s') && !Possesses(s, t)
    ensures s'.owner == s.owner && s'.count == s.count && s'.sem == s.sem && s'.possessor == s.possessor
  {
    assert ThreadInvariant(s, t);
  }

  /** The lock is given up exactly at the balancing unlock: a step frees it if and only if it is the release
      of a holder whose count the same call brought from one to zero. */
  lemma {:induction false} FreedExactlyAtBalance(s: State, t: ThreadId, s': State)
    requires Invariant(s) && Step(s, t, s') && Abstract(s).holder.Some?
    ensures Abstract(s').holder == None <==> s.pc[t] == UnlockRelease
    ensures s.pc[t] == UnlockRelease ==> Abstract(s) == Lock(Some(t), 1) && s.count == 0
    ensures s.pc[t] == UnlockCount ==> (s'.pc[t] == UnlockClear <==> Abstract(s) == Lock(Some(t), 1))
  {
    assert ThreadInvariant(s, t);
  }

  // Every call ends

  /** How many steps of its own a thread's call takes at most from there. */
  function StepsLeft(pc: Pc): nat {
    match pc
    case Idle => 0
    case LockEnter => 7
    case LockLook => 6
    case LockCounted => 3
    case LockRecheck => 2
    case LockLeave => 5
    case LockAcquire => 4
    case LockSetOwner => 3
    case LockSetCount => 2
    case LockReturn(_) => 1
    case UnlockEnter => 7
    case UnlockLook => 6
    case UnlockCount => 5
    case UnlockClear => 4
    case UnlockRelease => 3
    case UnlockLeave => 2
    case UnlockReturn => 1
  }

  /** Each step of a thread in a call brings it nearer to the return, whatever the others do.  A lock call fails only at
      the semaphore. */
  lemma {:induction false} CallEnds(s: State, t: ThreadId, s': State)
    requires t in s.pc && s.pc[t] != Idle && Step(s, t, s')
    ensures t in s'.pc && StepsLeft(s'.pc[t]) < StepsLeft(s.pc[t])
    ensures s'.pc[t] == LockReturn(AcquireError) ==> s.pc[t] == LockAcquire
  {
  }

  /** A thread in a call waits only for the mutex in the beginning, and for nobody who waits himself: whoever has the
      mutex can go on.  The semaphore may be taken if and only if nobody is in possession. */
  lemma {:induction false} WaitsForMutex(s: State, t: ThreadId)
    requires Invariant(s) && t in s.pc && s.pc[t] != Idle
    ensures (forall s' :: !Step(s, t, s')) <==> (s.pc[t] == LockEnter || s.pc[t] == UnlockEnter) && s.mutex != None
    ensures s.mutex.Some? && s.mutex.value in s.pc ==> exists s' :: Step(s, s.mutex.value, s')
    ensures s.pc[t] == LockAcquire ==>
              ((exists s' :: Step(s, t, s') && t in s'.pc && s'.pc[t] == LockSetOwner) <==> s.possessor == None)
  {
    var next := Next(s, t);
    assert ((s.pc[t] == LockEnter || s.pc[t] == UnlockEnter) && s.mutex != None) || Step(s, t, next);
    if s.mutex.Some? && s.mutex.value in s.pc {
      var u := s.mutex.value;
      assert ThreadInvariant(s, u);
      assert Step(s, u, Next(s, u));
    }
    if s.pc[t] == LockAcquire && s.possessor == None {
      var taken := Goto(s, t, LockSetOwner).(sem := s.sem - 1, possessor := Some(t));
      assert Step(s, t, taken) && taken.pc[t] == LockSetOwner;
    }
  }

  /** One way on for a thread in a call. */
  function Next(s: State, t: ThreadId): State
    requires t in s.pc
  {
    match s.pc[t]
    case Idle => s
    case LockEnter => Goto(s, t, LockLook).(mutex := Some(t))
    case LockLook =>
      if s.owner == Some(t) then Goto(s, t, LockCounted).(count := s.count + 1) else Goto(s, t, LockLeave)
    case LockCounted => Goto(s, t, LockRecheck).(mutex := None)
    case LockRecheck => Goto(s, t, LockReturn(if s.owner != Some(t) then Interrupted else Ok))
    case LockLeave => Goto(s, t, LockAcquire).(mutex := None)
    case LockAcquire => Goto(s, t, LockReturn(AcquireError))
    case LockSetOwner => Goto(s, t, LockSetCount).(owner := Some(t))
    case LockSetCount => Goto(s, t, LockReturn(Ok)).(count := 1)
    case LockReturn(_) => Goto(s, t, Idle)
    case UnlockEnter => Goto(s, t, UnlockLook).(mutex := Some(t))
    case UnlockLook => Goto(s, t, if s.owner == Some(t) then UnlockCount else UnlockLeave)
    case UnlockCount => Goto(s, t, if s.count - 1 == 0 then UnlockClear else UnlockLeave).(count := s.count - 1)
    case UnlockClear => Goto(s, t, UnlockRelease).(owner := None)
    case UnlockRelease => Goto(s, t, UnlockLeave).(sem := s.sem + 1, possessor := None)
    case UnlockLeave => Goto(s, t, UnlockReturn).(mutex := None)
    case UnlockReturn => Goto(s, t, Idle)
  }
}

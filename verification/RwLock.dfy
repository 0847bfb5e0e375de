/** The reader/writer lock of kits/kernel/rwlock.c: one unsigned word changed by compare-and-swap.

    Any number of threads run lock and unlock calls, one shared access per step.  Futex waits may
    return at any time, with success or failure, so every statement holds through spurious wakeups.
    The holds (`readers`, `writers`) are bookkeeping that the code does not have: a hold begins at the
    successful swap of a lock call and ends at the successful swap of an unlock call. */
module RwLock {
  type ThreadId = int

  const WORD_SIZE := 0x1_0000_0000
  const OPEN := 1
  const WLOCKED := 0
  /** The largest number of read holds that the word can count. */
  const MAX_READERS := WORD_SIZE - 2

  type Word = w: int | 0 <= w < WORD_SIZE

  datatype Hold = ReadHold | WriteHold

  datatype Pc =
    | Idle
    | ReadLoad                        // about to read the word
    | ReadSwap(seen: Word)            // saw an unlocked word, about to swap in one more reader
    | ReadSleep(seen: Word)           // in the futex wait
    | ReadPeek(seen: Word)            // the wait failed, about to look at the word again
    | WriteSwap                       // about to swap OPEN for WLOCKED
    | WriteSleep(seen: Word)
    | WritePeek(seen: Word)
    | WriteNudge                      // about to look whether to wake someone else
    | UnlockLoad(hold: Hold)          // about to read the word in an unlock of `hold`
    | UnlockSwap(hold: Hold, seen: Word)
    | UnlockWake(hold: Hold)          // hold is gone, about to wake one waiter

  datatype State = State(word: Word, pc: map<ThreadId, Pc>, readers: multiset<ThreadId>, writers: multiset<ThreadId>)

  function Goto(s: State, t: ThreadId, pc: Pc): State {
    s.(pc := s.pc[t := pc])
  }

  /** `current + 1` in 32-bit unsigned arithmetic. */
  function Increment(w: Word): Word {
    (w + 1) % WORD_SIZE
  }

  /** What an unlock wants to store after it saw `w`, which is not OPEN. */
  function UnlockedWord(w: Word): Word {
    if w == WLOCKED then OPEN else w - 1
  }

  function DropHold(s: State, t: ThreadId, hold: Hold): State {
    match hold
    case ReadHold => s.(readers := s.readers - multiset{t})
    case WriteHold => s.(writers := s.writers - multiset{t})
  }

  predicate Init(s: State) {
    s.word == OPEN && s.readers == multiset{} && s.writers == multiset{} && forall t <- s.pc :: s.pc[t] == Idle
  }

  /** A thread calls unlock only for a hold that it has. */
  predicate Call(s: State, t: ThreadId, s': State)
    requires t in s.pc
  {
    || s' == Goto(s, t, ReadLoad)
    || s' == Goto(s, t, WriteSwap)
    || (t in s.readers && s' == Goto(s, t, UnlockLoad(ReadHold)))
    || (t in s.writers && s' == Goto(s, t, UnlockLoad(WriteHold)))
  }

  /** One shared access inside `_rwlock_rlock`. */
  predicate ReadStep(s: State, t: ThreadId, s': State)
    requires t in s.pc
  {
    match s.pc[t]
    case ReadLoad =>
      s' == Goto(s, t, if s.word == WLOCKED then ReadSleep(s.word) else ReadSwap(s.word))
    case ReadSwap(seen) =>
      if s.word == seen then
        s' == Goto(s, t, Idle).(word := Increment(seen), readers := s.readers + multiset{t})
      else
        s' == Goto(s, t, ReadSleep(seen))
    case ReadSleep(seen) => s' == Goto(s, t, ReadLoad) || s' == Goto(s, t, ReadPeek(seen))
    case ReadPeek(seen) => s' == Goto(s, t, if s.word >= OPEN then ReadLoad else ReadSleep(seen))
    case _ => false
  }

  /** One shared access inside `_rwlock_wlock`. */
  predicate WriteStep(s: State, t: ThreadId, s': State)
    requires t in s.pc
  {
    match s.pc[t]
    case WriteSwap =>
      if s.word == OPEN then
        s' == Goto(s, t, Idle).(word := WLOCKED, writers := s.writers + multiset{t})
      else
        s' == Goto(s, t, WriteSleep(s.word))
    case WriteSleep(seen) => s' == Goto(s, t, WriteNudge) || s' == Goto(s, t, WritePeek(seen))
    case WritePeek(seen) => s' == Goto(s, t, if s.word == OPEN then WriteNudge else WriteSleep(seen))
    case WriteNudge => s' == Goto(s, t, WriteSwap)
    case _ => false
  }

  /** One shared access inside `_rwlock_unlock`. */
  predicate UnlockStep(s: State, t: ThreadId, s': State)
    requires t in s.pc
  {
    match s.pc[t]
    case UnlockLoad(hold) => s' == Goto(s, t, if s.word == OPEN then Idle else UnlockSwap(hold, s.word))
    case UnlockSwap(hold, seen) =>
      if s.word == seen then
        s' == DropHold(Goto(s, t, UnlockWake(hold)), t, hold).(word := UnlockedWord(seen))
      else
        s' == Goto(s, t, UnlockLoad(hold))
    case UnlockWake(_) => s' == Goto(s, t, Idle)
    case _ => false
  }

  predicate Step(s: State, t: ThreadId, s': State) {
    && t in s.pc
    && ((s.pc[t].Idle? && Call(s, t, s')) || ReadStep(s, t, s') || WriteStep(s, t, s') || UnlockStep(s, t, s'))
  }

  /** The states of a run, and which thread made each step. */
  predicate Run(run: seq<State>, schedule: seq<ThreadId>) {
    && |run| == |schedule| + 1
    && Init(run[0])
    && forall i | 0 <= i < |schedule| :: Step(run[i], schedule[i], run[i + 1])
  }

  /** The word counts the holds. */
  predicate WordCountsHolds(s: State) {
    && |s.writers| <= 1
    && (|s.writers| == 1 ==> |s.readers| == 0)
    && s.word == if |s.writers| == 1 then WLOCKED else OPEN + |s.readers|
  }

  /** A thread inside an unlock still has the hold it is giving up, and a reader never swaps a locked word. */
  predicate ThreadInvariant(s: State, t: ThreadId)
    requires t in s.pc
  {
    match s.pc[t]
    case ReadSwap(seen) => seen != WLOCKED
    case UnlockLoad(hold) => if hold.ReadHold? then t in s.readers else t in s.writers
    case UnlockSwap(hold, seen) => if hold.ReadHold? then t in s.readers else t in s.writers
    case _ => true
  }

  predicate Invariant(s: State) {
    && WordCountsHolds(s)
    && forall t <- s.pc :: ThreadInvariant(s, t)
  }

  /** A writer excludes every other hold. */
  predicate Exclusive(s: State) {
    forall t <- s.writers :: s.readers == multiset{} && s.writers == multiset{t}
  }

  lemma {:induction false} MemberCounts(m: multiset<ThreadId>, t: ThreadId)
    requires t in m
    ensures |m| >= 1 && |m - multiset{t}| == |m| - 1
  {
    assert m == (m - multiset{t}) + multiset{t};
  }

  lemma {:induction false} WriterIsAlone(s: State)
    requires WordCountsHolds(s)
    ensures Exclusive(s)
  {
    forall t <- s.writers ensures s.readers == multiset{} && s.writers == multiset{t} {
      MemberCounts(s.writers, t);
      assert s.writers == (s.writers - multiset{t}) + multiset{t};
    }
  }

  /** Only thread `t` moves, and the holds of the others stay. */
  predicate OthersKeep(s: State, t: ThreadId, s': State) {
    && s'.pc.Keys == s.pc.Keys
    && forall u <- s.pc | u != t ::
         s'.pc[u] == s.pc[u] && s'.readers[u] == s.readers[u] && s'.writers[u] == s.writers[u]
  }

  lemma {:induction false} OthersKeepInvariant(s: State, t: ThreadId, s': State)
    requires Invariant(s) && OthersKeep(s, t, s') && t in s.pc
    requires WordCountsHolds(s') && ThreadInvariant(s', t)
    ensures Invariant(s')
  {
    forall u <- s'.pc ensures ThreadInvariant(s', u) {
      assert ThreadInvariant(s, u);
    }
  }

  lemma {:induction false} ReadStepKeepsInvariant(s: State, t: ThreadId, s': State)
    requires Invariant(s) && t in s.pc && ReadStep(s, t, s')
    requires |s'.readers| <= MAX_READERS
    ensures Invariant(s')
  {
    assert ThreadInvariant(s, t);
    OthersKeepInvariant(s, t, s');
  }

  lemma {:induction false} WriteStepKeepsInvariant(s: State, t: ThreadId, s': State)
    requires Invariant(s) && t in s.pc && WriteStep(s, t, s')
    ensures Invariant(s')
  {
    OthersKeepInvariant(s, t, s');
  }

  lemma {:induction false} UnlockSwapCounts(s: State, t: ThreadId, hold: Hold)
    requires WordCountsHolds(s) && s.word != OPEN
    requires if hold.ReadHold? then t in s.readers else t in s.writers
    ensures WordCountsHolds(DropHold(s, t, hold).(word := UnlockedWord(s.word)))
  {
    MemberCounts(if hold.ReadHold? then s.readers else s.writers, t);
  }

  lemma {:induction false} UnlockSwapKeepsInvariant(s: State, t: ThreadId, hold: Hold, s': State)
    requires Invariant(s) && t in s.pc && s.pc[t] == UnlockSwap(hold, s.word)
    requires s' == DropHold(Goto(s, t, UnlockWake(hold)), t, hold).(word := UnlockedWord(s.word))
    ensures Invariant(s')
  {
    assert ThreadInvariant(s, t);
    MemberCounts(if hold.ReadHold? then s.readers else s.writers, t);
    UnlockSwapCounts(s, t, hold);
    hide Invariant, WordCountsHolds, ThreadInvariant;
    assert ThreadInvariant(s', t);
    OthersKeepInvariant(s, t, s');
  }

  lemma {:induction false} UnlockStepKeepsInvariant(s: State, t: ThreadId, s': State)
    requires Invariant(s) && t in s.pc && UnlockStep(s, t, s')
    ensures Invariant(s')
  {
    assert ThreadInvariant(s, t);
    if s.pc[t].UnlockSwap? && s.word == s.pc[t].seen {
      hide Invariant, WordCountsHolds, ThreadInvariant;
      UnlockSwapKeepsInvariant(s, t, s.pc[t].hold, s');
    } else {
      OthersKeepInvariant(s, t, s');
    }
  }

  /** Every step keeps the invariant, as long as the word can count the read holds. */
  lemma {:induction false} StepKeepsInvariant(s: State, t: ThreadId, s': State)
    requires Invariant(s) && Step(s, t, s')
    requires |s'.readers| <= MAX_READERS
    ensures Invariant(s')
  {
    if ReadStep(s, t, s') {
      ReadStepKeepsInvariant(s, t, s');
    } else if WriteStep(s, t, s') {
      WriteStepKeepsInvariant(s, t, s');
    } else if UnlockStep(s, t, s') {
      UnlockStepKeepsInvariant(s, t, s');
    } else {
      OthersKeepInvariant(s, t, s');
    }
  }

  /** The lock over whole runs: if no state of a run has more than MAX_READERS read holds, then in all
      its states the word is 0 exactly when one writer holds the lock and otherwise 1 plus the number of
      read holds, and a writer excludes all readers and all other writers. */
  lemma {:induction false} RunIsExclusive(run: seq<State>, schedule: seq<ThreadId>, n: nat)
    requires Run(run, schedule) && n < |run|
    requires forall s <- run :: |s.readers| <= MAX_READERS
    ensures Invariant(run[n]) && Exclusive(run[n])
  {
    if n > 0 {
      RunIsExclusive(run, schedule, n - 1);
      assert run[n] in run;
      assert Step(run[n - 1], schedule[n - 1], run[n - 1 + 1]);
      StepKeepsInvariant(run[n - 1], schedule[n - 1], run[n]);
    }
    WriterIsAlone(run[n]);
  }

  /** The bound in `RunIsExclusive` is exact: the successful swap of a read lock keeps the word right if
      and only if there were fewer than MAX_READERS read holds before.  One more wraps the word to
      WLOCKED while readers hold it. */
  lemma {:induction false} ReadLockKeepsWordIff(s: State, t: ThreadId, s': State)
    requires Invariant(s) && Step(s, t, s')
    requires s.pc[t] == ReadSwap(s.word)
    ensures WordCountsHolds(s') <==> |s.readers| < MAX_READERS
    ensures |s.readers| == MAX_READERS ==> s'.word == WLOCKED && t in s'.readers && s'.writers == multiset{}
  {
    assert ThreadInvariant(s, t);
  }

  ghost predicate RunTo(run: seq<State>, schedule: seq<ThreadId>, last: State) {
    Run(run, schedule) && run[|run| - 1] == last
  }

  lemma {:induction false} Then(run: seq<State>, schedule: seq<ThreadId>, s: State, t: ThreadId, s': State)
      returns (run': seq<State>, schedule': seq<ThreadId>)
    requires RunTo(run, schedule, s) && Step(s, t, s')
    ensures RunTo(run', schedule', s')
  {
    hide Step, Init;
    run', schedule' := run + [s'], schedule + [t];
    forall i | 0 <= i < |schedule'| ensures Step(run'[i], schedule'[i], run'[i + 1]) {
      if i < |schedule| {
        assert Step(run[i], schedule[i], run[i + 1]);
      }
    }
  }

  /** Thread `r` has `n` read holds, and neither it nor `w` is within a call. */
  function ReadHolds(r: ThreadId, w: ThreadId, n: nat): State {
    State((OPEN + n) % WORD_SIZE, map[r := Idle, w := Idle], multiset{}[r := n], multiset{})
  }

  /** One more read lock from there. */
  lemma {:induction false} LockOnce(r: ThreadId, w: ThreadId, n: nat)
    requires 0 < n <= MAX_READERS + 1
    ensures
      var s := ReadHolds(r, w, n - 1);
      var s1, s2 := Goto(s, r, ReadLoad), Goto(s, r, ReadSwap(s.word));
      Step(s, r, s1) && Step(s1, r, s2) && Step(s2, r, ReadHolds(r, w, n))
  {
    var s := ReadHolds(r, w, n - 1);
    assert s.word == n && Increment(s.word) == (OPEN + n) % WORD_SIZE;
    assert s.readers + multiset{r} == multiset{}[r := n];
    hide WriteStep, UnlockStep, Increment;
    var s2 := Goto(s, r, ReadSwap(s.word));
    assert ReadStep(s2, r, ReadHolds(r, w, n)) by {
      assert Goto(s2, r, Idle).pc == ReadHolds(r, w, n).pc;
    }
  }

  /** A thread may lock for reading as often as it likes, up to the point where the word has wrapped. */
  lemma {:induction false} LockedOften(r: ThreadId, w: ThreadId, n: nat)
      returns (run: seq<State>, schedule: seq<ThreadId>)
    requires n <= MAX_READERS + 1
    ensures RunTo(run, schedule, ReadHolds(r, w, n))
  {
    if n == 0 {
      run, schedule := [ReadHolds(r, w, 0)], [];
    } else {
      run, schedule := LockedOften(r, w, n - 1);
      LockOnce(r, w, n);
      hide Step, ReadHolds;
      var s := ReadHolds(r, w, n - 1);
      var s1, s2 := Goto(s, r, ReadLoad), Goto(s, r, ReadSwap(s.word));
      run, schedule := Then(run, schedule, s, r, s1);
      run, schedule := Then(run, schedule, s1, r, s2);
      run, schedule := Then(run, schedule, s2, r, ReadHolds(r, w, n));
    }
  }

  /** The state after that thread has given up one of the holds that are one too many. */
  function OneGivenUp(r: ThreadId, w: ThreadId): State {
    DropHold(Goto(ReadHolds(r, w, MAX_READERS + 1), r, UnlockWake(ReadHold)), r, ReadHold).(word := OPEN)
  }

  /** The word has wrapped, so an unlock takes the hold for a writer's. */
  lemma {:induction false} UnlockOnce(r: ThreadId, w: ThreadId)
    ensures
      var s := ReadHolds(r, w, MAX_READERS + 1);
      var s1, s2 := Goto(s, r, UnlockLoad(ReadHold)), Goto(s, r, UnlockSwap(ReadHold, WLOCKED));
      Step(s, r, s1) && Step(s1, r, s2) && Step(s2, r, OneGivenUp(r, w))
  {
    hide ReadStep, WriteStep;
    var s := ReadHolds(r, w, MAX_READERS + 1);
    assert s.word == WLOCKED && r in s.readers;
  }

  lemma {:induction false} UnlockedOnce(r: ThreadId, w: ThreadId) returns (run: seq<State>, schedule: seq<ThreadId>)
    ensures RunTo(run, schedule, OneGivenUp(r, w))
  {
    var s := ReadHolds(r, w, MAX_READERS + 1);
    var s1, s2 := Goto(s, r, UnlockLoad(ReadHold)), Goto(s, r, UnlockSwap(ReadHold, WLOCKED));
    run, schedule := LockedOften(r, w, MAX_READERS + 1);
    UnlockOnce(r, w);
    hide Step, ReadHolds, OneGivenUp;
    run, schedule := Then(run, schedule, s, r, s1);
    run, schedule := Then(run, schedule, s1, r, s2);
    run, schedule := Then(run, schedule, s2, r, OneGivenUp(r, w));
  }

  /** A run with one reader too many: a writer gets in beside the remaining read holds. */
  lemma {:induction false} OverrunLetsWriterIn(r: ThreadId, w: ThreadId)
      returns (run: seq<State>, schedule: seq<ThreadId>, last: State)
    requires r != w
    ensures RunTo(run, schedule, last) && |last.readers| == MAX_READERS && w in last.writers && !Exclusive(last)
  {
    run, schedule := UnlockedOnce(r, w);
    var s := OneGivenUp(r, w);
    assert s.readers == multiset{}[r := MAX_READERS];
    hide ReadStep, UnlockStep;
    var s1 := Goto(s, w, WriteSwap);
    run, schedule := Then(run, schedule, s, w, s1);
    last := Goto(s, w, Idle).(word := WLOCKED, writers := multiset{w});
    run, schedule := Then(run, schedule, s1, w, last);
    assert r in last.readers;
  }

  /** An unlock that matches a lock never takes the early return for an open lock, so it always gives up
      its hold, and its swap stores what the remaining holds require. */
  lemma {:induction false} MatchedUnlockReleases(s: State, t: ThreadId)
    requires Invariant(s) && t in s.pc && s.pc[t].UnlockLoad?
    ensures s.word != OPEN
    ensures s.word == WLOCKED <==> s.pc[t].hold == WriteHold
  {
    assert ThreadInvariant(s, t);
    MemberCounts(if s.pc[t].hold.ReadHold? then s.readers else s.writers, t);
  }

  /** The reader/writer lock that callers see: read holds are added while nobody writes, a write hold only
      when there is no hold at all, and a thread takes away only its own. */
  predicate AbstractStep(s: State, t: ThreadId, s': State) {
    || (s'.readers == s.readers && s'.writers == s.writers)
    || (s.writers == multiset{} && s'.readers == s.readers + multiset{t} && s'.writers == s.writers)
    || (s.readers == s.writers == s'.readers == multiset{} && s'.writers == multiset{t})
    || (t in s.readers && s'.readers == s.readers - multiset{t} && s'.writers == s.writers)
    || (t in s.writers && s'.readers == s.readers && s'.writers == s.writers - multiset{t})
  }

  /** The code refines that lock: each step is one of its steps or changes no hold. */
  lemma {:induction false} StepRefinesLock(s: State, t: ThreadId, s': State)
    requires Invariant(s) && Step(s, t, s')
    ensures AbstractStep(s, t, s')
  {
    assert ThreadInvariant(s, t);
    WriterIsAlone(s);
  }

  // What a caller knows when a call returns

  datatype Calling = NoCall | Lock(hold: Hold) | Unlock(hold: Hold)

  /** The call that a thread is in. */
  function CallOf(pc: Pc): Calling {
    match pc
    case Idle => NoCall
    case ReadLoad => Lock(ReadHold)
    case ReadSwap(_) => Lock(ReadHold)
    case ReadSleep(_) => Lock(ReadHold)
    case ReadPeek(_) => Lock(ReadHold)
    case WriteSwap => Lock(WriteHold)
    case WriteSleep(_) => Lock(WriteHold)
    case WritePeek(_) => Lock(WriteHold)
    case WriteNudge => Lock(WriteHold)
    case UnlockLoad(hold) => Unlock(hold)
    case UnlockSwap(hold, _) => Unlock(hold)
    case UnlockWake(hold) => Unlock(hold)
  }

  function HoldsOf(s: State, hold: Hold): multiset<ThreadId> {
    if hold.ReadHold? then s.readers else s.writers
  }

  /** The holds that a thread's call has added or taken away so far. */
  function Effect(call: Calling, pc: Pc, hold: Hold): int {
    if call == Lock(hold) && pc == Idle then 1
    else if call == Unlock(hold) && (pc.UnlockWake? || pc == Idle) then -1
    else 0
  }

  /** The step stays in its call, starts one or returns from one.  A lock adds its own hold in the step that returns,
      and never returns without; an unlock takes its own away in front of the wake, and never returns without.  No
      other hold changes. */
  predicate HasEffect(s: State, t: ThreadId, s': State)
    requires t in s.pc
  {
    && OthersKeep(s, t, s') && t in s'.pc
    && (s.pc[t] != Idle && s'.pc[t] != Idle ==> CallOf(s'.pc[t]) == CallOf(s.pc[t]))
    && (s.pc[t] == Idle ==> s'.pc[t] != Idle && !s'.pc[t].UnlockWake?)
    && Moves(s, t, s', ReadHold) && Moves(s, t, s', WriteHold)
  }

  predicate Moves(s: State, t: ThreadId, s': State, hold: Hold)
    requires t in s.pc && t in s'.pc
  {
    HoldsOf(s', hold)[t] - Effect(CallOf(s.pc[t]), s'.pc[t], hold)
    == HoldsOf(s, hold)[t] - Effect(CallOf(s.pc[t]), s.pc[t], hold)
  }

  lemma {:induction false} ReadHasEffect(s: State, t: ThreadId, s': State)
    requires t in s.pc && ReadStep(s, t, s')
    ensures HasEffect(s, t, s')
  {
  }

  lemma {:induction false} WriteHasEffect(s: State, t: ThreadId, s': State)
    requires t in s.pc && WriteStep(s, t, s')
    ensures HasEffect(s, t, s')
  {
  }

  lemma {:induction false} DropReadHasEffect(s: State, t: ThreadId, seen: Word, word: Word)
    requires t in s.pc && s.pc[t] == UnlockSwap(ReadHold, seen) && t in s.readers
    ensures HasEffect(s, t, Goto(s, t, UnlockWake(ReadHold)).(word := word, readers := s.readers - multiset{t}))
  {
  }

  lemma {:induction false} DropWriteHasEffect(s: State, t: ThreadId, seen: Word, word: Word)
    requires t in s.pc && s.pc[t] == UnlockSwap(WriteHold, seen) && t in s.writers
    ensures HasEffect(s, t, Goto(s, t, UnlockWake(WriteHold)).(word := word, writers := s.writers - multiset{t}))
  {
  }

  /** An unlock that takes nothing away. */
  lemma {:induction false} GotoHasEffect(s: State, t: ThreadId, pc: Pc)
    requires t in s.pc && s.pc[t] != Idle && (s.pc[t].UnlockWake? || pc != Idle)
    requires pc != Idle ==> CallOf(pc) == CallOf(s.pc[t]) && (pc.UnlockWake? <==> s.pc[t].UnlockWake?)
    requires CallOf(s.pc[t]).Unlock?
    ensures HasEffect(s, t, Goto(s, t, pc))
  {
  }

  lemma {:induction false} UnlockHasEffect(s: State, t: ThreadId, s': State)
    requires Invariant(s) && t in s.pc && UnlockStep(s, t, s')
    ensures HasEffect(s, t, s')
  {
    assert ThreadInvariant(s, t);
    hide Invariant, HasEffect;
    match s.pc[t]
    case UnlockLoad(hold) =>
      MatchedUnlockReleases(s, t);
      GotoHasEffect(s, t, UnlockSwap(hold, s.word));
    case UnlockSwap(ReadHold, seen) =>
      if s.word == seen {
        DropReadHasEffect(s, t, seen, UnlockedWord(seen));
      } else {
        GotoHasEffect(s, t, UnlockLoad(ReadHold));
      }
    case UnlockSwap(WriteHold, seen) =>
      if s.word == seen {
        DropWriteHasEffect(s, t, seen, UnlockedWord(seen));
      } else {
        GotoHasEffect(s, t, UnlockLoad(WriteHold));
      }
    case UnlockWake(_) => GotoHasEffect(s, t, Idle);
  }

  /** Every step of every call does that. */
  lemma {:induction false} ReturnsWithEffect(s: State, t: ThreadId, s': State)
    requires Invariant(s) && Step(s, t, s')
    ensures HasEffect(s, t, s')
  {
    hide Invariant, ReadStep, WriteStep, UnlockStep;
    if ReadStep(s, t, s') {
      hide HasEffect;
      ReadHasEffect(s, t, s');
    } else if WriteStep(s, t, s') {
      hide HasEffect;
      WriteHasEffect(s, t, s');
    } else if UnlockStep(s, t, s') {
      hide HasEffect;
      UnlockHasEffect(s, t, s');
    }
  }

  /** How often thread `t` has returned from such a call in the first `n` steps of a run. */
  function Returns(run: seq<State>, schedule: seq<ThreadId>, n: nat, t: ThreadId, call: Calling): nat
    requires n <= |schedule| < |run|
  {
    if n == 0 then 0
    else
      Returns(run, schedule, n - 1, t, call)
      + if schedule[n - 1] == t then Ended(run[n - 1], t, run[n], call) else 0
  }

  predicate Ends(s: State, t: ThreadId, s': State, call: Calling) {
    t in s.pc && t in s'.pc && s.pc[t] != Idle && s'.pc[t] == Idle && CallOf(s.pc[t]) == call
  }

  function Ended(s: State, t: ThreadId, s': State, call: Calling): nat {
    if Ends(s, t, s', call) then 1 else 0
  }

  /** The holds of a thread beyond what its present call has done. */
  function Settled(s: State, t: ThreadId, hold: Hold): int
    requires t in s.pc
  {
    HoldsOf(s, hold)[t] - Effect(CallOf(s.pc[t]), s.pc[t], hold)
  }

  lemma {:induction false} EndingSettles(s: State, t: ThreadId, s': State, hold: Hold)
    requires t in s.pc && HasEffect(s, t, s')
    ensures Settled(s', t, hold) == Settled(s, t, hold) + Ended(s, t, s', Lock(hold)) - Ended(s, t, s', Unlock(hold))
  {
  }

  /** What the callers know: at every point of every run a thread has the holds for which it has returned from more lock
      calls than unlock calls, less one that an unlock has given up but not returned from. */
  lemma {:induction false} HoldsAreReturnedLocks(run: seq<State>, schedule: seq<ThreadId>, n: nat, t: ThreadId,
                                                hold: Hold)
    requires Run(run, schedule) && n < |run| && t in run[0].pc
    requires forall s <- run :: |s.readers| <= MAX_READERS
    ensures t in run[n].pc
    ensures Settled(run[n], t, hold)
         == Returns(run, schedule, n, t, Lock(hold)) - Returns(run, schedule, n, t, Unlock(hold))
  {
    if n > 0 {
      HoldsAreReturnedLocks(run, schedule, n - 1, t, hold);
      RunIsExclusive(run, schedule, n - 1);
      var s, u, s' := run[n - 1], schedule[n - 1], run[n - 1 + 1];
      assert Step(s, u, s');
      ReturnsWithEffect(s, u, s');
      if u == t {
        hide *;
        EndingSettles(s, t, s', hold);
      }
    }
  }

  /** A thread that has returned from a lock call and has not called unlock for it. */
  predicate Has(run: seq<State>, schedule: seq<ThreadId>, n: nat, t: ThreadId, hold: Hold)
    requires n <= |schedule| < |run|
  {
    && t in run[n].pc && CallOf(run[n].pc[t]) != Unlock(hold)
    && Returns(run, schedule, n, t, Lock(hold)) > Returns(run, schedule, n, t, Unlock(hold))
  }

  /** Hence, judged by calls and returns alone, a writer is alone: whoever else has the lock is that same writer. */
  lemma {:induction false} CallersExclude(run: seq<State>, schedule: seq<ThreadId>, n: nat, t: ThreadId, u: ThreadId,
                                         hold: Hold)
    requires Run(run, schedule) && n < |run| && t in run[0].pc && u in run[0].pc
    requires forall s <- run :: |s.readers| <= MAX_READERS
    requires Has(run, schedule, n, t, WriteHold) && Has(run, schedule, n, u, hold)
    ensures u == t && hold == WriteHold
    ensures Returns(run, schedule, n, t, Lock(WriteHold)) == Returns(run, schedule, n, t, Unlock(WriteHold)) + 1
  {
    HoldsAreReturnedLocks(run, schedule, n, t, WriteHold);
    HoldsAreReturnedLocks(run, schedule, n, u, hold);
    RunIsExclusive(run, schedule, n);
    assert t in run[n].writers && u in HoldsOf(run[n], hold);
  }

  // A thread that runs alone

  /** The lock is free for such a call. */
  predicate Free(s: State, call: Calling) {
    match call
    case NoCall => false
    case Lock(ReadHold) => s.word != WLOCKED
    case Lock(WriteHold) => s.word == OPEN
    case Unlock(_) => true
  }

  /** How many steps such a call takes at most if no other thread moves. */
  function StepsAlone(s: State, pc: Pc): nat {
    match pc
    case Idle => 0
    case ReadLoad => 2
    case ReadSwap(seen) => if seen == s.word then 1 else 5
    case ReadSleep(_) => 4
    case ReadPeek(_) => 3
    case WriteSwap => 1
    case WriteSleep(_) => 4
    case WritePeek(_) => 3
    case WriteNudge => 2
    case UnlockLoad(_) => 3
    case UnlockSwap(_, seen) => if seen == s.word then 2 else 4
    case UnlockWake(_) => 1
  }

  predicate Nearer(s: State, t: ThreadId, s': State)
    requires t in s.pc
  {
    && t in s'.pc && StepsAlone(s', s'.pc[t]) < StepsAlone(s, s.pc[t])
    && (s'.pc[t] != Idle ==> Free(s', CallOf(s'.pc[t])))
  }

  /** A step that does not return from a read lock adds no read hold. */
  lemma {:induction false} ReadersShrink(s: State, t: ThreadId, s': State)
    requires Invariant(s) && Step(s, t, s') && s'.pc[t] != Idle
    ensures |s'.readers| <= |s.readers|
  {
    if s.pc[t].UnlockSwap? && s.pc[t].hold.ReadHold? {
      assert ThreadInvariant(s, t);
      MemberCounts(s.readers, t);
    }
    hide Invariant;
  }

  lemma {:induction false} LockAloneGetsNearer(s: State, t: ThreadId, s': State)
    requires t in s.pc && Free(s, CallOf(s.pc[t])) && ThreadInvariant(s, t)
    requires ReadStep(s, t, s') || WriteStep(s, t, s')
    ensures Nearer(s, t, s')
  {
  }

  lemma {:induction false} UnlockAloneGetsNearer(s: State, t: ThreadId, s': State)
    requires t in s.pc && UnlockStep(s, t, s') && (s.pc[t].UnlockLoad? ==> s.word != OPEN)
    ensures Nearer(s, t, s')
  {
    match s.pc[t]
    case UnlockSwap(hold, seen) =>
      if s.word == seen {
        assert s'.pc == s.pc[t := UnlockWake(hold)];
        hide UnlockStep;
      }
    case _ =>
  }

  lemma {:induction false} AloneGetsNearer(s: State, t: ThreadId, s': State)
    requires Invariant(s) && Step(s, t, s') && Free(s, CallOf(s.pc[t]))
    ensures Nearer(s, t, s')
  {
    assert ThreadInvariant(s, t);
    if s.pc[t].UnlockLoad? {
      MatchedUnlockReleases(s, t);
    }
    hide Invariant, ReadStep, WriteStep, UnlockStep, Nearer;
    if UnlockStep(s, t, s') {
      UnlockAloneGetsNearer(s, t, s');
    } else {
      LockAloneGetsNearer(s, t, s');
    }
  }

  lemma {:induction false} AloneCounts(run: seq<State>, t: ThreadId, n: nat)
    requires n < |run| && Invariant(run[0]) && |run[0].readers| <= MAX_READERS
    requires forall i | 0 <= i < |run| - 1 :: Step(run[i], t, run[i + 1]) && run[i].pc[t] != Idle
    requires t in run[0].pc && Free(run[0], CallOf(run[0].pc[t]))
    ensures t in run[n].pc && n + StepsAlone(run[n], run[n].pc[t]) <= StepsAlone(run[0], run[0].pc[t])
    ensures n < |run| - 1 ==>
              Invariant(run[n]) && Free(run[n], CallOf(run[n].pc[t])) && |run[n].readers| <= MAX_READERS
  {
    hide Invariant, Step, Free, StepsAlone;
    if n > 0 {
      AloneCounts(run, t, n - 1);
      var s, s' := run[n - 1], run[n - 1 + 1];
      assert Step(s, t, s');
      AloneGetsNearer(s, t, s');
      if n < |run| - 1 {
        assert Step(run[n], t, run[n + 1]);
        ReadersShrink(s, t, s');
        StepKeepsInvariant(s, t, s');
      }
    }
  }

  /** A call on a lock that is free for it returns within five steps of its thread, in whatever state of the call other
      threads have left it. */
  lemma {:induction false} AloneReturns(run: seq<State>, t: ThreadId)
    requires run != [] && Invariant(run[0]) && |run[0].readers| <= MAX_READERS
    requires forall i | 0 <= i < |run| - 1 :: Step(run[i], t, run[i + 1]) && run[i].pc[t] != Idle
    requires t in run[0].pc && Free(run[0], CallOf(run[0].pc[t]))
    ensures |run| - 1 <= 5
  {
    hide Invariant, Step, Free;
    AloneCounts(run, t, |run| - 1);
  }

  /** No call is ever stuck. */
  lemma {:induction false} CanStep(s: State, t: ThreadId) returns (s': State)
    requires t in s.pc && s.pc[t] != Idle
    ensures Step(s, t, s')
  {
    match s.pc[t]
    case ReadLoad => s' := Goto(s, t, if s.word == WLOCKED then ReadSleep(s.word) else ReadSwap(s.word));
    case ReadSwap(seen) =>
      s' := if s.word == seen then Goto(s, t, Idle).(word := Increment(seen), readers := s.readers + multiset{t})
            else Goto(s, t, ReadSleep(seen));
    case ReadSleep(_) => s' := Goto(s, t, ReadLoad);
    case ReadPeek(seen) => s' := Goto(s, t, if s.word >= OPEN then ReadLoad else ReadSleep(seen));
    case WriteSwap =>
      s' := if s.word == OPEN then Goto(s, t, Idle).(word := WLOCKED, writers := s.writers + multiset{t})
            else Goto(s, t, WriteSleep(s.word));
    case WriteSleep(_) => s' := Goto(s, t, WriteNudge);
    case WritePeek(seen) => s' := Goto(s, t, if s.word == OPEN then WriteNudge else WriteSleep(seen));
    case WriteNudge => s' := Goto(s, t, WriteSwap);
    case UnlockLoad(hold) => s' := Goto(s, t, if s.word == OPEN then Idle else UnlockSwap(hold, s.word));
    case UnlockSwap(hold, seen) =>
      s' := if s.word == seen then DropHold(Goto(s, t, UnlockWake(hold)), t, hold).(word := UnlockedWord(seen))
            else Goto(s, t, UnlockLoad(hold));
    case UnlockWake(_) => s' := Goto(s, t, Idle);
  }
}

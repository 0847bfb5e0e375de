/** The counting semaphore of kits/kernel/sem.c: a 32-bit count taken from by compare-and-swap and
    released to by an atomic add.

    Any number of threads acquire and release arbitrary counts, one shared access per step.  The futex
    wait may end in any way that the code distinguishes.  `taken` and `released` are bookkeeping: the
    sums of what successful swaps took and of what releases added. */
module Semaphore {
  type ThreadId = int

  const COUNT_RANGE := 0x1_0000_0000
  const INT32_MAX := 0x7fff_ffff
  const SPINS := 100

  type Count = c: int | 0 <= c < COUNT_RANGE

  datatype Status = NoError | WouldBlock | TimedOut | Interrupted | BadValue | OtherError

  datatype Pc =
    | Idle
    | Poll(want: Count)                           // zero relative timeout: looks before anything else
    | Clock(want: Count)                          // relative timeout: reads the clock
    | Spin(want: Count, i: nat)                   // about to read the count, i-th attempt
    | Swap(want: Count, i: nat, seen: Count)      // saw enough, about to swap in what would remain
    | Doze(want: Count)                           // about to read the count in the wait loop's condition
    | Futex(want: Count)                          // in the kernel
    | Add(give: int)                              // about to release
    | Acquired(status: Status, want: Count, got: nat)  // an acquire is about to return
    | Released(status: Status)

  datatype State = State(count: Count, pc: map<ThreadId, Pc>, initial: Count, taken: nat, released: nat)

  function Goto(s: State, t: ThreadId, pc: Pc): State {
    s.(pc := s.pc[t := pc])
  }

  predicate Init(s: State) {
    s.count == s.initial && s.taken == 0 && s.released == 0 && forall t <- s.pc :: s.pc[t] == Idle
  }

  /** A thread may acquire any unsigned count, without a timeout or with a zero or other one, or release any signed
      one. */
  ghost predicate Call(s: State, t: ThreadId, s': State)
    requires t in s.pc
  {
    || (exists want: Count :: s' == Goto(s, t, Poll(want)))
    || (exists want: Count :: s' == Goto(s, t, Clock(want)))
    || (exists want: Count :: s' == Goto(s, t, Spin(want, 0)))
    || (exists give: int :: -INT32_MAX - 1 <= give <= INT32_MAX && s' == Goto(s, t, Add(give)))
  }

  /** Where an acquire goes after an attempt that failed. */
  function NextAttempt(want: Count, i: nat): Pc {
    if i + 1 < SPINS then Spin(want, i + 1) else Doze(want)
  }

  /** One shared access inside `acquire_sem_etc`. */
  ghost predicate AcquireStep(s: State, t: ThreadId, s': State)
    requires t in s.pc
  {
    match s.pc[t]
    case Poll(want) => s' == Goto(s, t, if s.count < want then Acquired(WouldBlock, want, 0) else Clock(want))
    case Clock(want) => s' == Goto(s, t, Spin(want, 0)) || s' == Goto(s, t, Acquired(OtherError, want, 0))
    case Spin(want, i) => s' == Goto(s, t, if s.count >= want then Swap(want, i, s.count) else NextAttempt(want, i))
    case Swap(want, i, seen) =>
      if s.count == seen && seen >= want then
        s' == Goto(s, t, Acquired(NoError, want, want)).(count := seen - want, taken := s.taken + want)
      else
        s' == Goto(s, t, NextAttempt(want, i))
    case Doze(want) => s' == Goto(s, t, if s.count < want then Futex(want) else Spin(want, 0))
    case Futex(want) =>
      || s' == Goto(s, t, Doze(want))
      || s' == Goto(s, t, Spin(want, 0))
      || exists status: Status :: status != NoError && s' == Goto(s, t, Acquired(status, want, 0))
    case Acquired(_, _, _) => s' == Goto(s, t, Idle)
    case _ => false
  }

  /** One shared access inside `release_sem_etc`; the spinning and waking after the add change nothing. */
  predicate ReleaseStep(s: State, t: ThreadId, s': State)
    requires t in s.pc
  {
    match s.pc[t]
    case Add(give) =>
      if give < 1 then
        s' == Goto(s, t, Released(BadValue))
      else
        s' == Goto(s, t, Released(NoError)).(count := (s.count + give) % COUNT_RANGE, released := s.released + give)
    case Released(_) => s' == Goto(s, t, Idle)
    case _ => false
  }

  ghost predicate Step(s: State, t: ThreadId, s': State) {
    && t in s.pc
    && ((s.pc[t].Idle? && Call(s, t, s')) || AcquireStep(s, t, s') || ReleaseStep(s, t, s'))
  }

  /** The states of a run, and which thread made each step. */
  ghost predicate Run(run: seq<State>, schedule: seq<ThreadId>) {
    && |run| == |schedule| + 1
    && Init(run[0])
    && forall i | 0 <= i < |schedule| :: Step(run[i], schedule[i], run[i + 1])
  }

  /** The units that exist and that nobody has taken. */
  function Balance(s: State): int {
    s.initial + s.released - s.taken
  }

  /** Nothing is ever lost, made up or overdrawn: the count is the balance in 32-bit arithmetic, and the
      balance is never negative, not even after the count has wrapped. */
  predicate Conserved(s: State) {
    Balance(s) >= s.count && Balance(s) % COUNT_RANGE == s.count
  }

  /** An acquire has taken all it wanted when it is about to report success, and otherwise nothing. */
  predicate AllOrNothing(pc: Pc) {
    match pc
    case Acquired(status, want, got) => got == if status == NoError then want else 0
    case Swap(want, _, seen) => seen >= want
    case _ => true
  }

  predicate Invariant(s: State) {
    Conserved(s) && forall t <- s.pc :: AllOrNothing(s.pc[t])
  }

  lemma {:induction false} SubtractKeepsRemainder(balance: int, count: int, want: int)
    requires balance >= count && balance % COUNT_RANGE == count && 0 <= want <= count < COUNT_RANGE
    ensures (balance - want) % COUNT_RANGE == count - want
  {
    var laps := balance / COUNT_RANGE;
    assert balance - want == COUNT_RANGE * laps + (count - want);
  }

  lemma {:induction false} AddKeepsRemainder(balance: int, count: int, give: int)
    requires balance >= count && balance % COUNT_RANGE == count && give >= 0
    ensures (balance + give) % COUNT_RANGE == (count + give) % COUNT_RANGE
    ensures balance + give >= (count + give) % COUNT_RANGE
  {
    var laps, more := balance / COUNT_RANGE, (count + give) / COUNT_RANGE;
    var rest := (count + give) % COUNT_RANGE;
    assert balance + give == COUNT_RANGE * (laps + more) + rest;
    assert laps + more >= 0;
  }

  lemma {:induction false} AcquireStepKeepsInvariant(s: State, t: ThreadId, s': State)
    requires Invariant(s) && t in s.pc && AcquireStep(s, t, s')
    ensures Invariant(s')
    ensures s'.taken - s.taken == if s'.pc[t].Acquired? then s'.pc[t].got else 0
    ensures s'.released == s.released && s'.initial == s.initial
  {
    assert AllOrNothing(s.pc[t]);
    match s.pc[t]
    case Swap(want, i, seen) =>
      if s.count == seen {
        SubtractKeepsRemainder(Balance(s), s.count, want);
      }
    case _ =>
  }

  lemma {:induction false} ReleaseStepKeepsInvariant(s: State, t: ThreadId, s': State)
    requires Invariant(s) && t in s.pc && ReleaseStep(s, t, s')
    ensures Invariant(s')
    ensures s'.taken == s.taken && s'.initial == s.initial
  {
    match s.pc[t]
    case Add(give) =>
      if give >= 1 {
        AddKeepsRemainder(Balance(s), s.count, give);
      }
    case _ =>
  }

  /** Conservation in every interleaving: at every point of every run the count is
      initial + released - taken in 32-bit arithmetic, that sum is never negative, and every acquire that
      is about to report an error has taken nothing. */
  lemma {:induction false} RunConserves(run: seq<State>, schedule: seq<ThreadId>, n: nat)
    requires Run(run, schedule) && n < |run|
    ensures Invariant(run[n])
    ensures Balance(run[n]) < COUNT_RANGE <==> run[n].initial + run[n].released == run[n].count + run[n].taken
  {
    if n > 0 {
      RunConserves(run, schedule, n - 1);
      var s, t, s' := run[n - 1], schedule[n - 1], run[n - 1 + 1];
      assert Step(s, t, s');
      if AcquireStep(s, t, s') {
        AcquireStepKeepsInvariant(s, t, s');
      } else if ReleaseStep(s, t, s') {
        ReleaseStepKeepsInvariant(s, t, s');
      }
    }
  }

  // The count read as a signed integer

  /** What the field, which is declared as a signed integer, says when it holds these bits. */
  function Signed(c: Count): int {
    if c <= INT32_MAX then c else c - COUNT_RANGE
  }

  /** At every point of every run the signed reading is not negative if and only if the balance leaves a remainder that
      fits in a signed integer. */
  lemma {:induction false} SignedCountIff(run: seq<State>, schedule: seq<ThreadId>, n: nat)
    requires Run(run, schedule) && n < |run|
    ensures Signed(run[n].count) >= 0 <==> Balance(run[n]) % COUNT_RANGE <= INT32_MAX
    ensures 0 <= Balance(run[n]) <= INT32_MAX ==> Signed(run[n].count) == Balance(run[n])
  {
    RunConserves(run, schedule, n);
  }

  /** A run that makes it negative: a semaphore of one, and one release of the largest count. */
  lemma {:induction false} SignedCountTurnsNegative(t: ThreadId) returns (run: seq<State>, schedule: seq<ThreadId>)
    ensures Run(run, schedule) && run[0].initial == 1 && |run| == 3
    ensures Signed(run[2].count) < 0 && Balance(run[2]) == INT32_MAX + 1
  {
    var start := State(1, map[t := Idle], 1, 0, 0);
    var called := Goto(start, t, Add(INT32_MAX));
    var given := Goto(called, t, Released(NoError)).(count := 1 + INT32_MAX, released := INT32_MAX);
    run, schedule := [start, called, given], [t, t];
    assert Call(start, t, called);
    assert ReleaseStep(called, t, given);
  }

  /** The atomic semaphore that callers see: a balance that one thread may add to, or take from when there
      is enough. */
  predicate AbstractAcquire(balance: int, want: Count, balance': int) {
    balance >= want && balance' == balance - want
  }

  /** The code refines it.  The balance changes only in the step that decides a call: for an acquire that
      will report success it drops by exactly what was wanted, and there was that much; for a release that
      will report success it grows; no other step changes it. */
  lemma {:induction false} StepRefinesSemaphore(s: State, t: ThreadId, s': State)
    requires Invariant(s) && Step(s, t, s')
    ensures
      var before, after := s.pc[t], s'.pc[t];
      if after.Acquired? && after.status == NoError then
        AbstractAcquire(Balance(s), after.want, Balance(s'))
      else if before.Add? && after == Released(NoError) then
        before.give >= 1 && Balance(s') == Balance(s) + before.give
      else
        Balance(s') == Balance(s) && s'.count == s.count
  {
    assert AllOrNothing(s.pc[t]);
  }

  // What a caller knows when a call returns

  /** What a thread's call asks for: units to take, or units to give. */
  datatype Request = Nothing | Take(want: Count) | Give(give: int)

  function RequestOf(pc: Pc): Request {
    match pc
    case Idle => Nothing
    case Poll(want) => Take(want)
    case Clock(want) => Take(want)
    case Spin(want, _) => Take(want)
    case Swap(want, _, _) => Take(want)
    case Doze(want) => Take(want)
    case Futex(want) => Take(want)
    case Acquired(_, want, _) => Take(want)
    case Add(give) => Give(give)
    case Released(_) => Nothing
  }

  /** An acquire asks for the same units until it returns, and returns only from where its status is decided.  It fails
      with WouldBlock where a zero timeout finds too few units, and otherwise only where the clock or the kernel makes
      it fail. */
  lemma {:induction false} AcquireKeepsRequest(s: State, t: ThreadId, s': State)
    requires t in s.pc && AcquireStep(s, t, s')
    ensures t in s'.pc && (s'.pc[t] == Idle <==> s.pc[t].Acquired?)
    ensures s'.pc[t] != Idle ==> RequestOf(s'.pc[t]) == RequestOf(s.pc[t])
    ensures s'.pc[t].Acquired? && s'.pc[t].status != NoError ==>
              if s.pc[t].Poll? then s'.pc[t].status == WouldBlock && s.count < s.pc[t].want
              else s.pc[t].Clock? || s.pc[t].Futex?
    ensures s.pc[t].Poll? && s.count < s.pc[t].want ==> s'.pc[t].Acquired?
  {
  }

  /** A release succeeds if and only if it gives at least one unit; then the balance has grown by what it gives, and
      otherwise nothing has changed.  It returns then. */
  lemma {:induction false} ReleaseIff(s: State, t: ThreadId, s': State)
    requires t in s.pc && ReleaseStep(s, t, s')
    ensures t in s'.pc && s'.pc[t] == if s.pc[t].Released? then Idle
                                      else if s.pc[t].give > 0 then Released(NoError) else Released(BadValue)
    ensures Balance(s') - Balance(s) == if s'.pc[t] == Released(NoError) then s.pc[t].give else 0
    ensures s'.pc[t] != Released(NoError) ==> s' == Goto(s, t, s'.pc[t])
  {
  }

  // A thread that runs alone

  /** How many steps an acquire takes at most, if no other thread moves, until it is decided or sleeps in the kernel. */
  function StepsAlone(s: State, pc: Pc): nat {
    match pc
    case Poll(want) => 2 * SPINS + 6
    case Clock(want) => 2 * SPINS + 5
    case Doze(want) => if s.count < want then 1 else 3
    case Spin(want, i) => if s.count >= want then 2 else if i + 1 < SPINS then SPINS - i + 1 else 2
    case Swap(want, i, seen) =>
      if s.count == seen then 1 else if i + 1 < SPINS then SPINS - i + 1 else 4
    case _ => 0
  }

  predicate Undecided(pc: Pc) {
    pc.Poll? || pc.Clock? || pc.Spin? || pc.Swap? || pc.Doze?
  }

  /** An acquire that runs alone is decided or sleeps after boundedly many steps.  It sleeps only if there are too few
      units, and if there are enough it fails only by its clock. */
  lemma {:induction false} AloneGetsNearer(s: State, t: ThreadId, s': State)
    requires Invariant(s) && t in s.pc && Undecided(s.pc[t]) && Step(s, t, s')
    ensures t in s'.pc && (Undecided(s'.pc[t]) || s'.pc[t].Futex? || s'.pc[t].Acquired?)
    ensures StepsAlone(s, s.pc[t]) <= 2 * SPINS + 6
    ensures Undecided(s'.pc[t]) ==> StepsAlone(s', s'.pc[t]) < StepsAlone(s, s.pc[t]) && s'.count == s.count
    ensures s'.pc[t].Futex? ==> s.count < s'.pc[t].want
    ensures s'.pc[t].Acquired? && s'.pc[t].status != NoError && s.count >= s'.pc[t].want ==> s.pc[t].Clock?
  {
    assert AllOrNothing(s.pc[t]);
  }
}
